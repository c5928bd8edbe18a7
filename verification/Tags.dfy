/** The hand-written tag printer and parser of blob.go. The functions of the strings
    package that they use (Join, Split, SplitN, Trim) are written out. */
module Tags {
  type Tag = (string, string)

  // ---- the strings package ----

  function Join(parts: seq<string>): string {
    if parts == [] then ""
    else if |parts| == 1 then parts[0]
    else parts[0] + "," + Join(parts[1..])
  }

  /** The index of the first c, or the length. */
  function IndexOf(s: string, c: char): (i: nat)
    ensures i <= |s|
    ensures forall j | 0 <= j < i :: s[j] != c
    ensures i < |s| ==> s[i] == c
  {
    if s == "" || s[0] == c then 0 else 1 + IndexOf(s[1..], c)
  }

  /** strings.Split on one character: always at least one piece. */
  function Split(s: string, c: char): (pieces: seq<string>)
    ensures pieces != []
    ensures forall p | p in pieces :: c !in p
    decreases |s|
  {
    var i := IndexOf(s, c);
    if i == |s| then [s] else [s[..i]] + Split(s[i + 1..], c)
  }

  /** strings.SplitN(s, c, 2). */
  function SplitOnce(s: string, c: char): (pieces: seq<string>)
    ensures 1 <= |pieces| <= 2 && c !in pieces[0]
    ensures |pieces| == 1 ==> pieces[0] == s
    ensures |pieces| == 2 ==> s == pieces[0] + [c] + pieces[1]
  {
    var i := IndexOf(s, c);
    if i == |s| then [s] else [s[..i], s[i + 1..]]
  }

  function TrimLeft(s: string, cutset: set<char>): string {
    if s != "" && s[0] in cutset then TrimLeft(s[1..], cutset) else s
  }

  function TrimRight(s: string, cutset: set<char>): string {
    if s != "" && s[|s| - 1] in cutset then TrimRight(s[..|s| - 1], cutset) else s
  }

  function Trim(s: string, cutset: set<char>): string {
    TrimRight(TrimLeft(s, cutset), cutset)
  }

  // ---- printing ----

  const QUOTE: char := '\"'

  function PrintTag(t: Tag): string {
    [QUOTE] + t.0 + [QUOTE] + ":" + [QUOTE] + t.1 + [QUOTE]
  }

  function PrintAll(order: seq<Tag>): seq<string> {
    if order == [] then [] else [PrintTag(order[0])] + PrintAll(order[1..])
  }

  /** The printed form for one order in which the map happens to be walked. */
  function Print(order: seq<Tag>): string {
    if order == [] then "" else "{" + Join(PrintAll(order)) + "}"
  }

  /** The order lists each key of the map once, with its value. */
  ghost predicate IsOrder(order: seq<Tag>, tags: map<string, string>) {
    && (forall i, j | 0 <= i < j < |order| :: order[i].0 != order[j].0)
    && (forall i | 0 <= i < |order| :: order[i].0 in tags && tags[order[i].0] == order[i].1)
    && (forall k | k in tags :: exists i :: 0 <= i < |order| && order[i].0 == k)
  }

  lemma {:induction false} PrintAllAppend(order: seq<Tag>, t: Tag)
    ensures PrintAll(order + [t]) == PrintAll(order) + [PrintTag(t)]
  {
    if order == [] {
      assert order + [t] == [t];
    } else {
      PrintAllAppend(order[1..], t);
      assert (order + [t])[1..] == order[1..] + [t];
    }
  }

  lemma OrderExtends(order: seq<Tag>, done: map<string, string>, t: Tag)
    requires IsOrder(order, done) && t.0 !in done
    ensures IsOrder(order + [t], done[t.0 := t.1])
  {
    var longer, grown := order + [t], done[t.0 := t.1];
    forall k | k in grown ensures exists i :: 0 <= i < |longer| && longer[i].0 == k {
      if k == t.0 {
        assert longer[|order|].0 == k;
      } else {
        var i :| 0 <= i < |order| && order[i].0 == k;
        assert longer[i].0 == k;
      }
    }
  }

  /** The text in full, told from outside: nothing for no tags, one tag in braces and
      quotes, and what one more tag puts before the closing brace. */
  lemma PrintExactly(order: seq<Tag>, t: Tag)
    ensures Print([]) == ""
    ensures Print([t]) == "{\"" + t.0 + "\":\"" + t.1 + "\"}"
    ensures order != [] ==>
              |Print(order)| >= 2 && Print(order)[0] == '{' && Print(order)[|Print(order)| - 1] == '}' &&
              Print(order + [t]) == Print(order)[..|Print(order)| - 1] + (",\"" + t.0 + "\":\"" + t.1 + "\"}")
  {
    PrintOne(t);
    if order != [] {
      PrintMore(order, t);
    }
  }

  lemma PrintOne(t: Tag)
    ensures Print([t]) == "{\"" + t.0 + "\":\"" + t.1 + "\"}"
  {
    assert PrintAll([t]) == [PrintTag(t)];
    assert PrintTag(t) == "\"" + t.0 + "\":\"" + t.1 + "\"";
  }

  lemma PrintMore(order: seq<Tag>, t: Tag)
    requires order != []
    ensures var s := Print(order);
            && |s| >= 2 && s[0] == '{' && s[|s| - 1] == '}'
            && Print(order + [t]) == s[..|s| - 1] + (",\"" + t.0 + "\":\"" + t.1 + "\"}")
  {
    var inner, more := Join(PrintAll(order)), PrintTag(t);
    PrintAllAppend(order, t);
    JoinAppend(PrintAll(order), more);
    hide Join, PrintAll;
    assert Print(order) == "{" + inner + "}" && Print(order + [t]) == "{" + (inner + "," + more) + "}";
    hide Print;
    Braces(inner, more);
    Quoted(t);
  }

  lemma Braces(inner: string, more: string)
    ensures var s := "{" + inner + "}";
            && s[0] == '{' && s[|s| - 1] == '}'
            && "{" + (inner + "," + more) + "}" == s[..|s| - 1] + ("," + more + "}")
  {
    var s := "{" + inner + "}";
    assert s[..|s| - 1] == "{" + inner;
  }

  lemma Quoted(t: Tag)
    ensures "," + PrintTag(t) + "}" == ",\"" + t.0 + "\":\"" + t.1 + "\"}"
  {
  }

  lemma {:induction false} JoinAppend(parts: seq<string>, s: string)
    requires parts != []
    ensures Join(parts + [s]) == Join(parts) + "," + s
  {
    if |parts| > 1 {
      assert (parts + [s])[1..] == parts[1..] + [s];
      JoinAppend(parts[1..], s);
    } else {
      assert (parts + [s])[1..] == [s];
    }
  }

  /** The serialiser in Store: the map is walked in an order that is not fixed. */
  method SerializeTags(tags: map<string, string>) returns (tagsJSON: string)
    ensures exists order :: IsOrder(order, tags) && tagsJSON == Print(order)
    ensures tags == map[] <==> tagsJSON == ""
    ensures tags != map[] ==> |tagsJSON| > 2 && tagsJSON[0] == '{' && tagsJSON[|tagsJSON| - 1] == '}'
  {
    tagsJSON := "";
    ghost var order: seq<Tag> := [];
    if |tags| > 0 {
      var parts: seq<string> := [];
      var left := tags.Keys;
      ghost var done: map<string, string> := map[];
      while left != {}
        invariant left <= tags.Keys && done.Keys == tags.Keys - left
        invariant forall k | k in done :: done[k] == tags[k]
        invariant IsOrder(order, done) && parts == PrintAll(order)
        decreases left
      {
        hide IsOrder, PrintAll;
        var k :| k in left;
        var t := (k, tags[k]);
        PrintAllAppend(order, t);
        OrderExtends(order, done, t);
        parts := parts + [PrintTag(t)];
        order := order + [t];
        done := done[k := tags[k]];
        left := left - {k};
      }
      assert done == tags;
      assert order != [] by {
        var k :| k in tags;
      }
      tagsJSON := "{" + Join(parts) + "}";
    }
    assert IsOrder(order, tags) && tagsJSON == Print(order);
  }

  // ---- parsing ----

  /** What one comma-separated piece adds to the map. */
  function Add(tags: map<string, string>, pair: string): map<string, string> {
    var parts := SplitOnce(pair, ':');
    if |parts| == 2 then tags[Trim(parts[0], {QUOTE}) := Trim(parts[1], {QUOTE})] else tags
  }

  function AddAll(pairs: seq<string>): map<string, string> {
    if pairs == [] then map[] else Add(AddAll(pairs[..|pairs| - 1]), pairs[|pairs| - 1])
  }

  function Parse(s: string): map<string, string> {
    if s == "" then map[]
    else
      var inner := Trim(s, {'{', '}'});
      if inner == "" then map[] else AddAll(Split(inner, ','))
  }

  /** The parser in Retrieve and List. */
  method ParseTags(text: string) returns (tags: map<string, string>)
    ensures tags == Parse(text)
  {
    tags := map[];
    var tagsJSON := text;
    if tagsJSON != "" {
      tagsJSON := Trim(tagsJSON, {'{', '}'});
      if tagsJSON != "" {
        var pairs := Split(tagsJSON, ',');
        for i := 0 to |pairs|
          invariant tags == AddAll(pairs[..i])
        {
          var parts := SplitOnce(pairs[i], ':');
          if |parts| == 2 {
            var key := Trim(parts[0], {QUOTE});
            var value := Trim(parts[1], {QUOTE});
            tags := tags[key := value];
          }
          assert pairs[..i + 1][..i] == pairs[..i];
        }
        assert pairs[..|pairs|] == pairs;
      }
    }
  }

  /** A split is undone by joining, so its pieces are exactly what the commas separate. */
  lemma {:induction false} JoinSplit(s: string)
    ensures Join(Split(s, ',')) == s
    decreases |s|
  {
    var i := IndexOf(s, ',');
    if i < |s| {
      JoinSplit(s[i + 1..]);
      assert s == s[..i] + "," + s[i + 1..];
      var rest := Split(s[i + 1..], ',');
      assert ([s[..i]] + rest)[1..] == rest;
    }
  }

  /** A trim takes away exactly the cutset characters at the two ends. */
  lemma TrimExactly(s: string, cutset: set<char>) returns (left: string, right: string)
    ensures s == left + Trim(s, cutset) + right
    ensures (forall c | c in left :: c in cutset) && (forall c | c in right :: c in cutset)
    ensures var r := Trim(s, cutset); r != "" ==> r[0] !in cutset && r[|r| - 1] !in cutset
  {
    left := TrimmedLeft(s, cutset);
    right := TrimmedRight(TrimLeft(s, cutset), cutset);
    TrimPart(s, cutset);
  }

  lemma {:induction false} TrimmedLeft(s: string, cutset: set<char>) returns (left: string)
    ensures s == left + TrimLeft(s, cutset) && forall c | c in left :: c in cutset
  {
    left := "";
    if s != "" && s[0] in cutset {
      var more := TrimmedLeft(s[1..], cutset);
      left := [s[0]] + more;
    }
  }

  lemma {:induction false} TrimmedRight(s: string, cutset: set<char>) returns (right: string)
    ensures s == TrimRight(s, cutset) + right && forall c | c in right :: c in cutset
  {
    right := "";
    if s != "" && s[|s| - 1] in cutset {
      var more := TrimmedRight(s[..|s| - 1], cutset);
      right := more + [s[|s| - 1]];
    }
  }

  /** The first colon of the piece. */
  predicate CutsAt(piece: string, c: nat) {
    c < |piece| && piece[c] == ':' && ':' !in piece[..c]
  }

  /** The piece has this key in front of its first colon, between double quotes. */
  predicate NamesKey(piece: string, key: string) {
    exists c | 0 <= c < |piece| :: CutsAt(piece, c) && key == Trim(piece[..c], {QUOTE})
  }

  /** And this value behind it. */
  predicate Says(piece: string, key: string, value: string) {
    exists c | 0 <= c < |piece| ::
      CutsAt(piece, c) && key == Trim(piece[..c], {QUOTE}) && value == Trim(piece[c + 1..], {QUOTE})
  }

  lemma CutIsIndex(piece: string)
    ensures forall c: nat :: CutsAt(piece, c) <==> c == IndexOf(piece, ':') && c < |piece|
  {
    forall c: nat | CutsAt(piece, c) ensures c == IndexOf(piece, ':') {
      assert forall j | 0 <= j < c :: piece[j] == piece[..c][j] && piece[..c][j] in piece[..c];
      IndexOfIs(piece, ':', c);
    }
    var i := IndexOf(piece, ':');
    if i < |piece| {
      assert forall j | 0 <= j < i :: piece[..i][j] == piece[j];
    }
  }

  /** One piece overrides what was said before about its key, and nothing else. */
  lemma AddSays(tags: map<string, string>, piece: string, key: string, value: string)
    ensures key in Add(tags, piece) && Add(tags, piece)[key] == value <==>
            Says(piece, key, value) || (!NamesKey(piece, key) && key in tags && tags[key] == value)
  {
    CutIsIndex(piece);
    hide CutsAt, Trim;
    var i := IndexOf(piece, ':');
    if i < |piece| {
      assert CutsAt(piece, i);
      assert SplitOnce(piece, ':') == [piece[..i], piece[i + 1..]];
    } else {
      assert SplitOnce(piece, ':') == [piece];
    }
  }

  /** Piece i says so, and no later piece has the key. */
  predicate LastSays(pieces: seq<string>, i: nat, key: string, value: string) {
    i < |pieces| && Says(pieces[i], key, value) && forall j | i < j < |pieces| :: !NamesKey(pieces[j], key)
  }

  lemma LastSaysMore(before: seq<string>, piece: string, key: string, value: string)
    ensures (exists i: nat :: LastSays(before + [piece], i, key, value)) <==>
            Says(piece, key, value) || (!NamesKey(piece, key) && exists i: nat :: LastSays(before, i, key, value))
  {
    SaysNames(piece, key, value);
    hide Says, NamesKey;
    var pieces := before + [piece];
    if Says(piece, key, value) {
      assert LastSays(pieces, |before|, key, value);
    } else if !NamesKey(piece, key) && exists i: nat :: LastSays(before, i, key, value) {
      var i: nat :| LastSays(before, i, key, value);
      assert LastSays(pieces, i, key, value);
    }
    if i: nat :| LastSays(pieces, i, key, value) {
      if i < |before| {
        assert pieces[i] == before[i] && !NamesKey(pieces[|before|], key);
        assert forall j | i < j < |before| :: pieces[j] == before[j];
        assert LastSays(before, i, key, value);
      }
    }
  }

  lemma {:induction false} AddAllSays(pieces: seq<string>, key: string, value: string)
    ensures key in AddAll(pieces) && AddAll(pieces)[key] == value <==> exists i: nat :: LastSays(pieces, i, key, value)
  {
    if pieces != [] {
      var before, piece := pieces[..|pieces| - 1], pieces[|pieces| - 1];
      assert before + [piece] == pieces;
      AddAllSays(before, key, value);
      AddSays(AddAll(before), piece, key, value);
      LastSaysMore(before, piece, key, value);
      hide LastSays, Says, NamesKey, Add;
    }
  }

  lemma SaysNames(piece: string, key: string, value: string)
    ensures Says(piece, key, value) ==> NamesKey(piece, key)
  {
  }

  lemma ParseIsAddAll(s: string)
    ensures Parse(s) == AddAll(Split(Trim(s, {'{', '}'}), ','))
  {
    var inner := Trim(s, {'{', '}'});
    if s == "" {
      assert TrimLeft("", {'{', '}'}) == "" && TrimRight("", {'{', '}'}) == "";
    }
    if inner == "" {
      assert Split("", ',') == [""];
      assert [""][..0] == [] && AddAll([]) == map[];
      assert SplitOnce("", ':') == [""];
      assert AddAll([""]) == map[];
    }
  }

  /** Main result: what any text at all parses to. Freed of braces at its ends and cut at
      its commas, the tag with a key is what the last piece with that key says. */
  lemma ParseExactly(s: string, key: string, value: string)
    ensures var pieces := Split(Trim(s, {'{', '}'}), ',');
            key in Parse(s) && Parse(s)[key] == value <==> exists i: nat :: LastSays(pieces, i, key, value)
  {
    var inner := Trim(s, {'{', '}'});
    AddAllSays(Split(inner, ','), key, value);
    ParseIsAddAll(s);
    hide AddAll, LastSays, Split, Parse;
  }

  // ---- which maps survive ----

  predicate Unquoted(s: string) {
    s != "" ==> s[0] != QUOTE && s[|s| - 1] != QUOTE
  }

  predicate CleanKey(k: string) {
    ',' !in k && ':' !in k && Unquoted(k)
  }

  predicate CleanValue(v: string) {
    ',' !in v && Unquoted(v)
  }

  /** No comma anywhere, no colon in a key, no double quote at either end. */
  ghost predicate Clean(tags: map<string, string>) {
    forall k | k in tags :: CleanKey(k) && CleanValue(tags[k])
  }

  // ---- whatever is parsed is clean ----

  lemma {:induction false} TrimLeftPart(s: string, cutset: set<char>)
    ensures var r := TrimLeft(s, cutset); r != "" ==> r[0] !in cutset
    ensures forall c | c in TrimLeft(s, cutset) :: c in s
  {
    if s != "" && s[0] in cutset {
      TrimLeftPart(s[1..], cutset);
    }
  }

  lemma {:induction false} TrimRightPart(s: string, cutset: set<char>)
    ensures var r := TrimRight(s, cutset); r <= s && (r != "" ==> r[|r| - 1] !in cutset)
    ensures forall c | c in TrimRight(s, cutset) :: c in s
  {
    if s != "" && s[|s| - 1] in cutset {
      TrimRightPart(s[..|s| - 1], cutset);
    }
  }

  lemma TrimPart(s: string, cutset: set<char>)
    ensures var r := Trim(s, cutset); r != "" ==> r[0] !in cutset && r[|r| - 1] !in cutset
    ensures forall c | c in Trim(s, cutset) :: c in s
  {
    TrimLeftPart(s, cutset);
    TrimRightPart(TrimLeft(s, cutset), cutset);
  }

  lemma AddClean(tags: map<string, string>, pair: string)
    requires Clean(tags) && ',' !in pair
    ensures Clean(Add(tags, pair))
  {
    var parts := SplitOnce(pair, ':');
    if |parts| == 2 {
      assert forall c | c in parts[0] || c in parts[1] :: c in pair;
      TrimPart(parts[0], {QUOTE});
      TrimPart(parts[1], {QUOTE});
    }
  }

  lemma {:induction false} AddAllClean(pairs: seq<string>)
    requires forall p | p in pairs :: ',' !in p
    ensures Clean(AddAll(pairs))
  {
    if pairs != [] {
      AddAllClean(pairs[..|pairs| - 1]);
      AddClean(AddAll(pairs[..|pairs| - 1]), pairs[|pairs| - 1]);
    }
  }

  lemma ParseClean(s: string)
    ensures Clean(Parse(s))
  {
    if s != "" && Trim(s, {'{', '}'}) != "" {
      AddAllClean(Split(Trim(s, {'{', '}'}), ','));
    }
  }

  // ---- clean maps come back ----

  /** A string with neither end in the cutset, wrapped in cutset characters. */
  lemma TrimWrapped(s: string, c: char, d: char, cutset: set<char>)
    requires c in cutset && d in cutset
    requires s != "" ==> s[0] !in cutset && s[|s| - 1] !in cutset
    ensures Trim([c] + s + [d], cutset) == s
  {
    var w := [c] + s + [d];
    assert w[1..] == s + [d];
    if s == "" {
      assert w[1..] == [d] && [d][1..] == "";
      assert TrimLeft([d], cutset) == TrimLeft("", cutset) == "";
      assert TrimLeft(w, cutset) == "";
    } else {
      var t := s + [d];
      assert t[0] == s[0] && t[..|t| - 1] == s;
      assert TrimLeft(w, cutset) == TrimLeft(t, cutset) == t;
      assert TrimRight(t, cutset) == TrimRight(s, cutset) == s;
    }
  }

  lemma IndexOfIs(s: string, c: char, i: nat)
    requires i < |s| && s[i] == c && (forall j | 0 <= j < i :: s[j] != c)
    ensures IndexOf(s, c) == i
  {
  }

  lemma {:induction false} IndexOfNone(s: string, c: char)
    requires c !in s
    ensures IndexOf(s, c) == |s|
  {
    if s != "" {
      assert s[0] in s;
      IndexOfNone(s[1..], c);
    }
  }

  /** A clean tag comes back from its printed piece. */
  lemma AddPrinted(tags: map<string, string>, t: Tag)
    requires CleanKey(t.0) && CleanValue(t.1)
    ensures Add(tags, PrintTag(t)) == tags[t.0 := t.1]
  {
    var key, value := [QUOTE] + t.0 + [QUOTE], [QUOTE] + t.1 + [QUOTE];
    var s := PrintTag(t);
    assert s == key + ":" + value;
    IndexOfIs(s, ':', |key|);
    assert s[..|key|] == key && s[|key| + 1..] == value;
    TrimWrapped(t.0, QUOTE, QUOTE, {QUOTE});
    TrimWrapped(t.1, QUOTE, QUOTE, {QUOTE});
  }

  lemma SplitHead(head: string, rest: string)
    requires ',' !in head
    ensures Split(head + "," + rest, ',') == [head] + Split(rest, ',')
  {
    var s := head + "," + rest;
    assert forall j | 0 <= j < |head| :: s[j] == head[j] && head[j] in head;
    IndexOfIs(s, ',', |head|);
    assert s[..|head|] == head && s[|head| + 1..] == rest;
  }

  lemma {:induction false} SplitJoin(parts: seq<string>)
    requires parts != [] && forall p | p in parts :: ',' !in p
    ensures Split(Join(parts), ',') == parts
  {
    if |parts| == 1 {
      assert parts[0] in parts;
      IndexOfNone(parts[0], ',');
    } else {
      hide Split;
      SplitJoin(parts[1..]);
      SplitHead(parts[0], Join(parts[1..]));
    }
  }

  lemma {:induction false} JoinEnds(parts: seq<string>)
    requires parts != [] && forall p | p in parts :: p != "" && p[0] == QUOTE && p[|p| - 1] == QUOTE
    ensures var s := Join(parts); s != "" && s[0] == QUOTE && s[|s| - 1] == QUOTE
  {
    if |parts| > 1 {
      JoinEnds(parts[1..]);
    }
  }

  lemma {:induction false} PrintedPieces(order: seq<Tag>)
    requires forall t | t in order :: CleanKey(t.0) && CleanValue(t.1)
    ensures |PrintAll(order)| == |order|
    ensures forall p | p in PrintAll(order) :: ',' !in p && p != "" && p[0] == QUOTE && p[|p| - 1] == QUOTE
  {
    if order != [] {
      PrintedPieces(order[1..]);
      assert PrintTag(order[0])[0] == QUOTE;
    }
  }

  /** The map that an order lists. */
  function Listed(order: seq<Tag>): map<string, string> {
    if order == [] then map[] else Listed(order[..|order| - 1])[order[|order| - 1].0 := order[|order| - 1].1]
  }

  lemma {:induction false} AddAllPrinted(order: seq<Tag>)
    requires forall t | t in order :: CleanKey(t.0) && CleanValue(t.1)
    ensures AddAll(PrintAll(order)) == Listed(order)
  {
    if order != [] {
      var before, t := order[..|order| - 1], order[|order| - 1];
      AddAllPrinted(before);
      PrintAllAppend(before, t);
      assert order == before + [t];
      assert PrintAll(order)[..|PrintAll(order)| - 1] == PrintAll(before);
      AddPrinted(Listed(before), t);
    }
  }

  lemma {:induction false} ListedKeys(order: seq<Tag>)
    requires forall i, j | 0 <= i < j < |order| :: order[i].0 != order[j].0
    ensures forall i | 0 <= i < |order| :: order[i].0 in Listed(order) && Listed(order)[order[i].0] == order[i].1
    ensures forall k | k in Listed(order) :: exists i :: 0 <= i < |order| && order[i].0 == k
  {
    if order != [] {
      var before := order[..|order| - 1];
      ListedKeys(before);
      forall k | k in Listed(order) ensures exists i :: 0 <= i < |order| && order[i].0 == k {
        if k == order[|order| - 1].0 {
          assert order[|order| - 1].0 == k;
        } else {
          assert k in Listed(before);
          var i :| 0 <= i < |before| && before[i].0 == k;
          assert order[i].0 == k;
        }
      }
    }
  }

  lemma ListedIsMap(order: seq<Tag>, tags: map<string, string>)
    requires IsOrder(order, tags)
    ensures Listed(order) == tags
  {
    ListedKeys(order);
    forall k | k in tags ensures k in Listed(order) && Listed(order)[k] == tags[k] {
      var i :| 0 <= i < |order| && order[i].0 == k;
    }
    forall k | k in Listed(order) ensures k in tags {
      var i :| 0 <= i < |order| && order[i].0 == k;
    }
  }

  lemma PrintedInner(order: seq<Tag>)
    requires order != [] && forall t | t in order :: CleanKey(t.0) && CleanValue(t.1)
    ensures var inner := Join(PrintAll(order));
            && inner != "" && inner[0] == QUOTE && inner[|inner| - 1] == QUOTE
            && Split(inner, ',') == PrintAll(order)
  {
    var parts := PrintAll(order);
    PrintedPieces(order);
    hide Split, Join, PrintAll, CleanKey, CleanValue;
    JoinEnds(parts);
    SplitJoin(parts);
  }

  lemma ParsePrinted(order: seq<Tag>)
    requires order != [] && forall t | t in order :: CleanKey(t.0) && CleanValue(t.1)
    ensures Parse(Print(order)) == AddAll(PrintAll(order))
  {
    hide Trim, Split, Join, PrintAll, CleanKey, CleanValue, AddAll;
    var inner := Join(PrintAll(order));
    PrintedInner(order);
    TrimWrapped(inner, '{', '}', {'{', '}'});
    assert Print(order) == ['{'] + inner + ['}'];
  }

  lemma CleanRoundTrip(order: seq<Tag>, tags: map<string, string>)
    requires IsOrder(order, tags) && Clean(tags)
    ensures Parse(Print(order)) == tags
  {
    if order == [] {
      assert tags == map[];
    } else {
      forall t | t in order ensures CleanKey(t.0) && CleanValue(t.1) {
        var i :| 0 <= i < |order| && order[i] == t;
        assert order[i].0 in tags;
      }
      hide *;
      ParsePrinted(order);
      AddAllPrinted(order);
      ListedIsMap(order, tags);
    }
  }

  /** Main result: in whatever order the map is walked, its tags come back if and only
      if no key or value has a comma, no key has a colon, and no key or value starts
      or ends with a double quote. */
  lemma RoundTripExactly(order: seq<Tag>, tags: map<string, string>)
    requires IsOrder(order, tags)
    ensures Parse(Print(order)) == tags <==> Clean(tags)
  {
    ParseClean(Print(order));
    if Clean(tags) {
      CleanRoundTrip(order, tags);
    }
  }

  /** Main result: parsing, printing and parsing again changes nothing, for any text
      and any order. */
  lemma ParseStable(s: string, order: seq<Tag>)
    requires IsOrder(order, Parse(s))
    ensures Parse(Print(order)) == Parse(s)
  {
    ParseClean(s);
    CleanRoundTrip(order, Parse(s));
  }

  /** Storing and retrieving through the code itself. */
  method StoreAndRetrieve(tags: map<string, string>) returns (back: map<string, string>)
    ensures back == tags <==> Clean(tags)
  {
    var text := SerializeTags(tags);
    ghost var order :| IsOrder(order, tags) && text == Print(order);
    back := ParseTags(text);
    RoundTripExactly(order, tags);
  }

  /** Two maps with one tag each that do not come back: a value with a comma and a
      value in quotes. */
  lemma Losses()
    ensures Parse(Print([("a", "b,c")])) != map["a" := "b,c"]
    ensures Parse(Print([("a", "\"b\"")])) != map["a" := "\"b\""]
  {
    RoundTripExactly([("a", "b,c")], map["a" := "b,c"]);
    RoundTripExactly([("a", "\"b\"")], map["a" := "\"b\""]);
    assert "b,c"[1] == ',' && "\"b\""[0] == QUOTE;
    var m1, m2 := map["a" := "b,c"], map["a" := "\"b\""];
    assert "a" in m1 && "a" in m2;
  }
}
