/** The matcher of grep.c, against a declarative meaning of its patterns. Strings are C strings without their NUL. */
module Grep {

  /** What a pattern consists of: one character ('.' for any), or any number of them. */
  datatype Item = One(c: char) | Star(c: char)

  datatype Pattern = Pattern(items: seq<Item>, atEnd: bool)

  /** How the matcher reads a pattern: a star takes the character before it, and a dollar sign that ends the pattern
      stands for the end of the text; everything else stands for itself. */
  function Parse(re: string): (p: Pattern) {
    if re == [] then Pattern([], false)
    else if |re| > 1 && re[1] == '*' then var r := Parse(re[2..]); Pattern([Star(re[0])] + r.items, r.atEnd)
    else if re == "$" then Pattern([], true)
    else var r := Parse(re[1..]); Pattern([One(re[0])] + r.items, r.atEnd)
  }

  /** How a pattern is written down. */
  function ShowItem(item: Item): (s: string) {
    match item
    case One(c) => [c]
    case Star(c) => [c, '*']
  }

  function Show(p: Pattern): (s: string)
    decreases |p.items|
  {
    if p.items == [] then if p.atEnd then "$" else ""
    else ShowItem(p.items[0]) + Show(Pattern(p.items[1..], p.atEnd))
  }

  /** Patterns that can be written down: there is no way to say a star after a single character, or a dollar sign at
      the end. */
  predicate Writable(p: Pattern) {
    && (forall i :: 0 < i < |p.items| && p.items[i].c == '*' ==> p.items[i - 1].Star?)
    && (p.items != [] && p.items[|p.items| - 1] == One('$') ==> p.atEnd)
  }

  /** An item in front of a pattern. */
  function Put(item: Item, p: Pattern): (r: Pattern) {
    Pattern([item] + p.items, p.atEnd)
  }

  lemma ShowPut(item: Item, p: Pattern)
    ensures Show(Put(item, p)) == ShowItem(item) + Show(p)
  {
    assert Put(item, p).items[1..] == p.items;
  }

  lemma WritablePut(item: Item, p: Pattern)
    ensures Writable(Put(item, p)) <==>
            && Writable(p) && (p.items != [] && p.items[0].c == '*' ==> item.Star?)
            && (p.items == [] && item == One('$') ==> p.atEnd)
  {
    var q := Put(item, p);
    assert forall i :: 0 < i < |q.items| ==> q.items[i] == p.items[i - 1];
    if Writable(q) {
      forall i | 0 < i < |p.items| && p.items[i].c == '*' ensures p.items[i - 1].Star? {
        assert q.items[i + 1] == p.items[i] && q.items[i + 1 - 1] == p.items[i - 1];
      }
      if p.items != [] {
        assert q.items[1] == p.items[0] && q.items[1 - 1] == item && q.items[|p.items|] == p.items[|p.items| - 1];
      }
    }
  }

  lemma ShowStart(p: Pattern)
    ensures p.items != [] ==> Show(p) != [] && Show(p)[0] == p.items[0].c
    ensures p.items == [] ==> Show(p) == if p.atEnd then "$" else ""
  {
  }

  lemma ParsePut(re: string)
    requires re != [] && re != "$"
    ensures if |re| > 1 && re[1] == '*' then Parse(re) == Put(Star(re[0]), Parse(re[2..]))
            else Parse(re) == Put(One(re[0]), Parse(re[1..]))
  {
  }

  lemma {:induction false} ShowRead(p: Pattern)
    requires Writable(p)
    ensures Parse(Show(p)) == p
    decreases |p.items|
  {
    hide Writable, Show, Parse;
    ShowStart(p);
    if p.items == [] {
      ParseEmpty();
    } else {
      var item, rest := p.items[0], Pattern(p.items[1..], p.atEnd);
      assert p == Put(item, rest);
      ShowPut(item, rest);
      WritablePut(item, rest);
      ShowRead(rest);
      ShowStart(rest);
      var re := Show(p);
      assert re[|ShowItem(item)|..] == Show(rest);
      ParsePut(re);
    }
  }

  lemma ParseEmpty()
    ensures Parse("") == Pattern([], false) && Parse("$") == Pattern([], true)
  {
  }

  lemma {:induction false} ReadShown(re: string)
    ensures Show(Parse(re)) == re && Writable(Parse(re))
    decreases |re|
  {
    hide Show, Parse;
    ShowStart(Parse(re));
    if re == [] || re == "$" {
      ParseEmpty();
    } else {
      ParsePut(re);
      var item := if |re| > 1 && re[1] == '*' then Star(re[0]) else One(re[0]);
      var rest := re[|ShowItem(item)|..];
      assert re == ShowItem(item) + rest;
      ReadShown(rest);
      ShowStart(Parse(rest));
      ShowPut(item, Parse(rest));
      WritablePut(item, Parse(rest));
    }
  }

  /** The patterns that the matcher reads off strings are exactly these, each off one string only. */
  lemma ParseExact(re: string, p: Pattern)
    ensures Parse(re) == p <==> Writable(p) && re == Show(p)
  {
    ReadShown(re);
    if Writable(p) {
      ShowRead(p);
    }
  }

  predicate Hit(c: char, x: char) {
    c == '.' || c == x
  }

  /** The strings an item stands for. */
  predicate InItem(w: string, item: Item) {
    && (item.One? ==> |w| == 1)
    && forall i :: 0 <= i < |w| ==> Hit(item.c, w[i])
  }

  function Concat(parts: seq<string>): (s: string) {
    if parts == [] then [] else parts[0] + Concat(parts[1..])
  }

  /** One string for each item which, put together, begin the text, or are all of it. */
  ghost predicate Splits(p: Pattern, parts: seq<string>, text: string) {
    && |parts| == |p.items| && (forall i :: 0 <= i < |parts| ==> InItem(parts[i], p.items[i]))
    && Concat(parts) <= text && (p.atEnd ==> Concat(parts) == text)
  }

  /** A prefix of the text (the whole text, if the pattern ends in $) is in the language of the pattern. */
  ghost predicate Accepts(p: Pattern, text: string) {
    exists parts :: Splits(p, parts, text)
  }

  lemma AcceptsNothing(atEnd: bool, text: string)
    ensures Accepts(Pattern([], atEnd), text) <==> !atEnd || text == []
  {
    assert Splits(Pattern([], atEnd), [], text) <==> !atEnd || text == [];
  }

  /** Taking the first part off a split, and putting it on. */
  lemma SplitFirst(first: Item, p: Pattern, w: string, parts: seq<string>, text: string)
    ensures Splits(Pattern([first] + p.items, p.atEnd), [w] + parts, text) <==>
            InItem(w, first) && w <= text && Splits(p, parts, text[|w|..])
  {
    var all := [w] + parts;
    assert all[1..] == parts;
    assert Concat(all) == w + Concat(parts);
    if w <= text {
      assert text == w + text[|w|..];
      ConcatPrefix(w, Concat(parts), text);
    }
    assert forall i :: 0 < i < |all| && |parts| == |p.items| ==>
        all[i] == parts[i - 1] && ([first] + p.items)[i] == p.items[i - 1];
    if forall i :: 0 <= i < |all| && |parts| == |p.items| ==> InItem(all[i], ([first] + p.items)[i]) {
      forall i | 0 <= i < |parts| && |parts| == |p.items| ensures InItem(parts[i], p.items[i]) {
        assert all[i + 1] == parts[i] && ([first] + p.items)[i + 1] == p.items[i];
        assert InItem(all[i + 1], ([first] + p.items)[i + 1]);
      }
    }
  }

  lemma ConcatPrefix(w: string, x: string, text: string)
    requires w <= text
    ensures w + x <= text <==> x <= text[|w|..]
    ensures w + x == text <==> x == text[|w|..]
  {
    if w + x <= text {
      assert x == text[|w|..|w| + |x|];
    }
    if x <= text[|w|..] {
      assert text == w + text[|w|..];
    }
  }

  lemma AcceptsOne(c: char, p: Pattern, text: string)
    ensures Accepts(Pattern([One(c)] + p.items, p.atEnd), text) <==>
              text != [] && Hit(c, text[0]) && Accepts(p, text[1..])
  {
    var q := Pattern([One(c)] + p.items, p.atEnd);
    if parts :| Splits(q, parts, text) {
      assert parts == [parts[0]] + parts[1..];
      SplitFirst(One(c), p, parts[0], parts[1..], text);
    }
    if text != [] && Hit(c, text[0]) && Accepts(p, text[1..]) {
      var parts :| Splits(p, parts, text[1..]);
      SplitFirst(One(c), p, text[..1], parts, text);
    }
  }

  /** The first k characters of the text can belong to c*, and the rest of the pattern accepts what follows. */
  ghost predicate StarAt(c: char, p: Pattern, text: string, k: int) {
    0 <= k <= |text| && (forall i :: 0 <= i < k ==> Hit(c, text[i])) && Accepts(p, text[k..])
  }

  ghost predicate StarSomewhere(c: char, p: Pattern, text: string) {
    exists k :: StarAt(c, p, text, k)
  }

  lemma AcceptsStar(c: char, p: Pattern, text: string)
    ensures Accepts(Pattern([Star(c)] + p.items, p.atEnd), text) <==> StarSomewhere(c, p, text)
  {
    var q := Pattern([Star(c)] + p.items, p.atEnd);
    if parts :| Splits(q, parts, text) {
      assert parts == [parts[0]] + parts[1..];
      SplitFirst(Star(c), p, parts[0], parts[1..], text);
      assert StarAt(c, p, text, |parts[0]|);
    }
    if k :| StarAt(c, p, text, k) {
      var parts :| Splits(p, parts, text[k..]);
      SplitFirst(Star(c), p, text[..k], parts, text);
    }
  }

  /** A single character accepts itself, a dot any one, and with a star any number of them. */
  lemma ItemMeans(c: char, text: string)
    ensures Accepts(Parse([c, '$']), text) <==> |text| == 1 && (c == '.' || c == text[0])
    ensures Accepts(Parse([c, '*', '$']), text) <==> forall i :: 0 <= i < |text| ==> c == '.' || c == text[i]
  {
    var end := Pattern([], true);
    assert [c, '$'][1..] == "$" && [c, '*', '$'][2..] == "$";
    assert Parse([c, '$']) == Pattern([One(c)] + end.items, true);
    assert Parse([c, '*', '$']) == Pattern([Star(c)] + end.items, true);
    AcceptsOne(c, end, text);
    if text != [] {
      AcceptsNothing(true, text[1..]);
    }
    AcceptsStar(c, end, text);
    forall k | 0 <= k <= |text| ensures Accepts(end, text[k..]) <==> k == |text| {
      AcceptsNothing(true, text[k..]);
    }
    assert StarAt(c, end, text, |text|) <==> forall i :: 0 <= i < |text| ==> Hit(c, text[i]);
  }

  /** match: the pattern occurs in the text, somewhere or, after ^, at its beginning. */
  method Match(re: string, text: string) returns (b: bool)
    ensures b <==> if re != [] && re[0] == '^' then Accepts(Parse(re[1..]), text)
                   else exists k :: 0 <= k <= |text| && Accepts(Parse(re), text[k..])
  {
    if re != [] && re[0] == '^' {
      b := MatchHere(re[1..], text);
      return;
    }
    var i := 0;
    while true
      invariant 0 <= i <= |text|
      invariant forall k :: 0 <= k < i ==> !Accepts(Parse(re), text[k..])
      decreases |text| - i
    {
      b := MatchHere(re, text[i..]);
      if b {
        return;
      }
      if i == |text| {
        return;
      }
      i := i + 1;
    }
  }

  /** matchhere: the pattern accepts the beginning of the text. */
  method MatchHere(re: string, text: string) returns (b: bool)
    ensures b <==> Accepts(Parse(re), text)
    decreases |re|, 0
  {
    if re == [] {
      AcceptsNothing(false, text);
      return true;
    }
    if |re| > 1 && re[1] == '*' {
      ghost var rest := Parse(re[2..]);
      assert Parse(re) == Pattern([Star(re[0])] + rest.items, rest.atEnd);
      AcceptsStar(re[0], rest, text);
      b := MatchStar(re[0], re[2..], text);
      return;
    }
    if re == "$" {
      AcceptsNothing(true, text);
      return text == [];
    }
    AcceptsOne(re[0], Parse(re[1..]), text);
    if text != [] && (re[0] == '.' || re[0] == text[0]) {
      b := MatchHere(re[1..], text[1..]);
      return;
    }
    return false;
  }

  /** matchstar: some number of c's, and then the pattern. */
  method MatchStar(c: char, re: string, text: string) returns (b: bool)
    ensures b <==> StarSomewhere(c, Parse(re), text)
    decreases |re|, 1
  {
    var i := 0;
    while true
      invariant 0 <= i <= |text| && forall j :: 0 <= j < i ==> Hit(c, text[j])
      invariant forall k :: k < i ==> !StarAt(c, Parse(re), text, k)
      decreases |text| - i
    {
      b := MatchHere(re, text[i..]);
      if b {
        assert StarAt(c, Parse(re), text, i);
        return;
      }
      if !(i < |text| && (text[i] == c || c == '.')) {
        return;
      }
      i := i + 1;
    }
  }
}
