// grep.c: the regular-expression matcher, against the language its patterns
// denote.  A C string is the sequence of its characters before the NUL.

module Grep {

  // --------------------------------------------------------------- semantics

  /** A character or '.', once or starred. */
  datatype Item = One(c: char) | Star(c: char)

  predicate Fits(c: char, x: char) { c == '.' || c == x }

  ghost predicate AllFit(c: char, w: string) {
    forall i | 0 <= i < |w| :: Fits(c, w[i])
  }

  ghost predicate InItem(item: Item, w: string) {
    match item
    case One(c) => |w| == 1 && Fits(c, w[0])
    case Star(c) => AllFit(c, w)
  }

  function Concat(parts: seq<string>): string {
    if parts == [] then "" else parts[0] + Concat(parts[1..])
  }

  /** The parts of w, one per item, in order. */
  ghost predicate Splits(items: seq<Item>, w: string, parts: seq<string>) {
    |parts| == |items| && Concat(parts) == w && forall i | 0 <= i < |items| :: InItem(items[i], parts[i])
  }

  /** w is in the language of the items. */
  ghost predicate In(items: seq<Item>, w: string) {
    exists parts: seq<string> :: Splits(items, w, parts)
  }

  // ---------------------------------------------------------------- patterns

  /** The items of a pattern; a star is looked for before a final '$'. */
  function Items(re: string): seq<Item> {
    if re == "" then []
    else if |re| >= 2 && re[1] == '*' then [Star(re[0])] + Items(re[2..])
    else if re == "$" then []
    else [One(re[0])] + Items(re[1..])
  }

  /** Whether the pattern ends in a '$' that anchors it. */
  predicate Ends(re: string) {
    if re == "" then false
    else if |re| >= 2 && re[1] == '*' then Ends(re[2..])
    else if re == "$" then true
    else Ends(re[1..])
  }

  /** A prefix of the text is in the language, all of it if the end is anchored. */
  ghost predicate Here(re: string, text: string) {
    exists k | 0 <= k <= |text| :: In(Items(re), text[..k]) && (Ends(re) ==> k == |text|)
  }

  /** The text has a substring in the language; '^' makes it a prefix. */
  ghost predicate Found(re: string, text: string) {
    if re != "" && re[0] == '^' then Here(re[1..], text)
    else exists i | 0 <= i <= |text| :: Here(re, text[i..])
  }

  // ---------------------------------------------------------------- the code

  /** matchhere and matchstar as functions. */
  predicate MatchHere(re: string, text: string)
    decreases |re|, 0, |text|
  {
    if re == "" then true
    else if |re| >= 2 && re[1] == '*' then MatchStar(re[0], re[2..], text)
    else if re == "$" then text == ""
    else text != "" && Fits(re[0], text[0]) && MatchHere(re[1..], text[1..])
  }

  predicate MatchStar(c: char, re: string, text: string)
    decreases |re|, 1, |text|
  {
    MatchHere(re, text) || (text != "" && Fits(c, text[0]) && MatchStar(c, re, text[1..]))
  }

  method Matchhere(re: string, text: string) returns (r: bool)
    ensures r <==> Here(re, text)
    decreases |re|, 0
  {
    HereIs(re, text);
    if re == "" {
      return true;
    }
    if |re| >= 2 && re[1] == '*' {
      r := Matchstar(re[0], re[2..], text);
      return;
    }
    if re[0] == '$' && |re| == 1 {
      return text == "";
    }
    if text != "" && (re[0] == '.' || re[0] == text[0]) {
      HereIs(re[1..], text[1..]);
      r := Matchhere(re[1..], text[1..]);
      return;
    }
    r := false;
  }

  method Matchstar(c: char, re: string, text: string) returns (r: bool)
    ensures r <==> MatchStar(c, re, text)
    decreases |re|, 1
  {
    var i := 0;
    while true
      invariant i <= |text| && (MatchStar(c, re, text) <==> MatchStar(c, re, text[i..]))
      decreases |text| - i
    {
      HereIs(re, text[i..]);
      var here := Matchhere(re, text[i..]);
      if here {
        return true;
      }
      if i == |text| || !(text[i] == c || c == '.') {
        return false;
      }
      assert text[i..][1..] == text[i + 1..];
      i := i + 1;
    }
  }

  /** match is true exactly when the text contains what the pattern denotes. */
  method Match(re: string, text: string) returns (r: bool)
    ensures r <==> Found(re, text)
  {
    if re != "" && re[0] == '^' {
      r := Matchhere(re[1..], text);
      return;
    }
    var i := 0;
    while true
      invariant i <= |text| && forall k | 0 <= k < i :: !Here(re, text[k..])
      decreases |text| - i
    {
      var here := Matchhere(re, text[i..]);
      if here {
        return true;
      }
      if i == |text| {
        return false;
      }
      i := i + 1;
    }
  }

  // ------------------------------------------------------------------ proofs

  lemma InNone(w: string)
    ensures In([], w) <==> w == ""
  {
    assert Splits([], "", []);
  }

  lemma InOne(c: char, rest: seq<Item>, w: string)
    ensures In([One(c)] + rest, w) <==> w != "" && Fits(c, w[0]) && In(rest, w[1..])
  {
    var items := [One(c)] + rest;
    if In(items, w) {
      var parts :| Splits(items, w, parts);
      assert InItem(items[0], parts[0]);
      SplitsTail(items, w, parts);
      assert w[1..] == Concat(parts[1..]);
    }
    if w != "" && Fits(c, w[0]) && In(rest, w[1..]) {
      var parts :| Splits(rest, w[1..], parts);
      SplitsCons(One(c), rest, [w[0]], w[1..], parts);
      assert [w[0]] + w[1..] == w;
    }
  }

  lemma SplitsTail(items: seq<Item>, w: string, parts: seq<string>)
    requires Splits(items, w, parts) && items != []
    ensures Splits(items[1..], Concat(parts[1..]), parts[1..]) && w == parts[0] + Concat(parts[1..])
  {
  }

  lemma SplitsCons(item: Item, rest: seq<Item>, p: string, w: string, parts: seq<string>)
    requires Splits(rest, w, parts) && InItem(item, p)
    ensures Splits([item] + rest, p + w, [p] + parts)
  {
    assert ([p] + parts)[1..] == parts;
  }

  lemma InStar(c: char, rest: seq<Item>, w: string)
    ensures In([Star(c)] + rest, w) <==> exists k | 0 <= k <= |w| :: AllFit(c, w[..k]) && In(rest, w[k..])
  {
    var items := [Star(c)] + rest;
    if In(items, w) {
      var parts :| Splits(items, w, parts);
      assert InItem(items[0], parts[0]);
      SplitsTail(items, w, parts);
      var k := |parts[0]|;
      assert w[..k] == parts[0] && w[k..] == Concat(parts[1..]);
    }
    if k :| 0 <= k <= |w| && AllFit(c, w[..k]) && In(rest, w[k..]) {
      var parts :| Splits(rest, w[k..], parts);
      SplitsCons(Star(c), rest, w[..k], w[k..], parts);
      assert w[..k] + w[k..] == w;
    }
  }

  /** The matcher accepts exactly the texts with a prefix in the language. */
  lemma {:induction false} HereIs(re: string, text: string)
    ensures MatchHere(re, text) <==> Here(re, text)
    decreases |re|, 0, |text|
  {
    if re == "" {
      InNone("");
      assert text[..0] == "";
    } else if |re| >= 2 && re[1] == '*' {
      StarIs(re[0], re[2..], text);
      StarHere(re, text);
    } else if re == "$" {
      InNone(text[..|text|]);
      EndHere(text);
    } else {
      OneHere(re, text);
      if text != "" {
        HereIs(re[1..], text[1..]);
      }
    }
  }

  lemma EndHere(text: string)
    ensures Here("$", text) <==> text == ""
  {
    InNone(text[..|text|]);
    assert text[..|text|] == text;
  }

  lemma OneHere(re: string, text: string)
    requires re != "" && re != "$" && !(|re| >= 2 && re[1] == '*')
    ensures Here(re, text) <==> text != "" && Fits(re[0], text[0]) && Here(re[1..], text[1..])
  {
    var rest := Items(re[1..]);
    if Here(re, text) {
      var k :| 0 <= k <= |text| && In(Items(re), text[..k]) && (Ends(re) ==> k == |text|);
      InOne(re[0], rest, text[..k]);
      assert text[..k][1..] == text[1..][..k - 1];
    }
    if text != "" && Fits(re[0], text[0]) && Here(re[1..], text[1..]) {
      var k :| 0 <= k <= |text[1..]| && In(rest, text[1..][..k]) && (Ends(re[1..]) ==> k == |text[1..]|);
      InOne(re[0], rest, text[..k + 1]);
      assert text[..k + 1][1..] == text[1..][..k];
    }
  }

  /** matchstar tries the rest after every run of fitting characters. */
  lemma {:induction false} StarIs(c: char, re: string, text: string)
    ensures MatchStar(c, re, text) <==> exists i | 0 <= i <= |text| :: AllFit(c, text[..i]) && Here(re, text[i..])
    decreases |re|, 1, |text|
  {
    HereIs(re, text);
    assert text[..0] == "" && text[0..] == text;
    if text != "" {
      StarIs(c, re, text[1..]);
      if i :| 0 <= i <= |text[1..]| && AllFit(c, text[1..][..i]) && Here(re, text[1..][i..]) && Fits(c, text[0]) {
        assert text[..i + 1] == [text[0]] + text[1..][..i] && text[i + 1..] == text[1..][i..];
        assert AllFit(c, text[..i + 1]);
      }
      if i :| 0 < i <= |text| && AllFit(c, text[..i]) && Here(re, text[i..]) {
        assert text[..i][0] == text[0];
        assert text[1..][..i - 1] == text[..i][1..] && text[1..][i - 1..] == text[i..];
        assert AllFit(c, text[1..][..i - 1]);
      }
    }
  }

  lemma StarHere(re: string, text: string)
    requires |re| >= 2 && re[1] == '*'
    ensures Here(re, text) <==> exists i | 0 <= i <= |text| :: AllFit(re[0], text[..i]) && Here(re[2..], text[i..])
  {
    var rest := Items(re[2..]);
    if Here(re, text) {
      var k :| 0 <= k <= |text| && In(Items(re), text[..k]) && (Ends(re) ==> k == |text|);
      InStar(re[0], rest, text[..k]);
      var i :| 0 <= i <= k && AllFit(re[0], text[..k][..i]) && In(rest, text[..k][i..]);
      assert text[..k][..i] == text[..i] && text[..k][i..] == text[i..][..k - i];
      assert Here(re[2..], text[i..]);
    }
    if i :| 0 <= i <= |text| && AllFit(re[0], text[..i]) && Here(re[2..], text[i..]) {
      var k :| 0 <= k <= |text[i..]| && In(rest, text[i..][..k]) && (Ends(re[2..]) ==> k == |text[i..]|);
      assert text[..i + k][..i] == text[..i] && text[..i + k][i..] == text[i..][..k];
      InStar(re[0], rest, text[..i + k]);
    }
  }
}
