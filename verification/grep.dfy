/** The pattern matcher of grep, against a declarative meaning of ^ . * $ patterns. */
module Grep {

  datatype Item = Char(c: char) | Any | Star(c: char) | AtEnd

  /** A pattern, without a leading ^, as a sequence of items. A star binds to the character before it, whatever that is;
      $ is special only at the very end. */
  function Items(re: string): seq<Item>
    decreases |re|
  {
    if re == "" then []
    else if |re| >= 2 && re[1] == '*' then [Star(re[0])] + Items(re[2..])
    else if re == "$" then [AtEnd]
    else [if re[0] == '.' then Any else Char(re[0])] + Items(re[1..])
  }

  /** A star matches any number of its character, or of any characters if that is the dot. */
  predicate Repeats(c: char, text: string, i: nat, j: nat) {
    i <= j <= |text| && forall p :: i <= p < j ==> text[p] == c || c == '.'
  }

  /** The item matches text[i..j]. */
  predicate ItemMatches(x: Item, text: string, i: nat, j: nat) {
    match x
    case Char(c) => i < |text| && j == i + 1 && text[i] == c
    case Any => i < |text| && j == i + 1
    case Star(c) => Repeats(c, text, i, j)
    case AtEnd => i == |text| && j == i
  }

  /** The positions at which the items cut the text: item k matches the stretch from cuts[k] to cuts[k + 1]. */
  predicate CutsInto(items: seq<Item>, text: string, cuts: seq<nat>) {
    && |cuts| == |items| + 1 && cuts[0] == 0 && cuts[|items|] <= |text|
    && forall k :: 0 <= k < |items| ==> ItemMatches(items[k], text, cuts[k], cuts[k + 1])
  }

  /** The items match a prefix of the text: there is a way to cut it, that is, a repetition count for each star. */
  ghost predicate Prefix(items: seq<Item>, text: string) {
    exists cuts :: CutsInto(items, text, cuts)
  }

  /** The meaning of a pattern: from the start with ^, otherwise from some position. */
  ghost predicate Means(re: string, text: string) {
    if re != "" && re[0] == '^' then Prefix(Items(re[1..]), text)
    else exists s :: 0 <= s <= |text| && Prefix(Items(re), text[s..])
  }

  lemma NoItems(text: string)
    ensures Prefix([], text)
  {
    assert CutsInto([], text, [0]);
  }

  lemma ItemShift(x: Item, text: string, d: nat, i: nat, j: nat)
    requires d <= |text|
    ensures ItemMatches(x, text[d..], i, j) <==> ItemMatches(x, text, d + i, d + j)
  {
    var t := text[d..];
    if x.Star? {
      if Repeats(x.c, text, d + i, d + j) { assert forall p :: i <= p < j ==> t[p] == text[d + p]; }
      if Repeats(x.c, t, i, j) {
        forall p | d + i <= p < d + j ensures text[p] == x.c || x.c == '.' { assert text[p] == t[p - d]; }
      }
    }
  }

  /** The first item matches a stretch of the text and the others match after it. */
  lemma FirstItem(x: Item, rest: seq<Item>, text: string, j: nat)
    requires j <= |text| && ItemMatches(x, text, 0, j) && Prefix(rest, text[j..])
    ensures Prefix([x] + rest, text)
  {
    var cuts :| CutsInto(rest, text[j..], cuts);
    var items, all := [x] + rest, [0] + seq(|cuts|, k requires 0 <= k < |cuts| => j + cuts[k]);
    forall k | 0 <= k < |items| ensures ItemMatches(items[k], text, all[k], all[k + 1]) {
      if k > 0 {
        assert ItemMatches(rest[k - 1], text[j..], cuts[k - 1], cuts[k]);
        ItemShift(rest[k - 1], text, j, cuts[k - 1], cuts[k]);
      }
    }
    assert CutsInto(items, text, all);
  }

  lemma Split(x: Item, rest: seq<Item>, text: string) returns (j: nat)
    requires Prefix([x] + rest, text)
    ensures j <= |text| && ItemMatches(x, text, 0, j) && Prefix(rest, text[j..])
  {
    var items := [x] + rest;
    var cuts :| CutsInto(items, text, cuts);
    j := cuts[1];
    assert ItemMatches(items[0], text, cuts[0], cuts[1]);
    TailCuts(items, text, cuts);
    assert items[1..] == rest;
  }

  /** The cuts after the first item, counted from there. */
  function Later(cuts: seq<nat>): (l: seq<nat>)
    requires |cuts| >= 2
    ensures |l| == |cuts| - 1
  {
    seq(|cuts| - 1, k requires 0 <= k < |cuts| - 1 => if cuts[k + 1] >= cuts[1] then cuts[k + 1] - cuts[1] else 0)
  }

  lemma TailCuts(items: seq<Item>, text: string, cuts: seq<nat>)
    requires items != [] && CutsInto(items, text, cuts)
    ensures cuts[1] <= |text| && Prefix(items[1..], text[cuts[1]..])
  {
    var j, l, rest := cuts[1], Later(cuts), items[1..];
    Ascending(items, text, cuts, 1);
    forall k | 0 <= k < |l| ensures l[k] + j == cuts[k + 1] {
      AscendingFrom(items, text, cuts, 1, k + 1);
    }
    forall k | 0 <= k < |rest| ensures ItemMatches(rest[k], text[j..], l[k], l[k + 1]) {
      var m := k + 1;
      assert l[k] + j == cuts[m] && l[m] + j == cuts[m + 1];
      assert ItemMatches(items[m], text, cuts[m], cuts[m + 1]);
      ItemShift(rest[k], text, j, l[k], l[k + 1]);
    }
    assert l[|rest|] + j == cuts[|items|];
    assert CutsInto(rest, text[j..], l);
  }

  lemma {:induction false} AscendingFrom(items: seq<Item>, text: string, cuts: seq<nat>, a: nat, b: nat)
    requires CutsInto(items, text, cuts) && a <= b <= |items|
    ensures cuts[a] <= cuts[b]
    decreases b
  {
    if a < b {
      AscendingFrom(items, text, cuts, a, b - 1);
      assert ItemMatches(items[b - 1], text, cuts[b - 1], cuts[b]);
    }
  }

  lemma Ascending(items: seq<Item>, text: string, cuts: seq<nat>, k: nat)
    requires CutsInto(items, text, cuts) && k <= |items|
    ensures cuts[k] <= |text|
  {
    AscendingFrom(items, text, cuts, k, |items|);
  }

  /** matchhere: does re match at the beginning of text? */
  method Matchhere(re: string, text: string) returns (r: bool)
    ensures r <==> Prefix(Items(re), text)
    decreases |re|, 0
  {
    if re == "" {
      NoItems(text);
      return true;
    }
    if |re| >= 2 && re[1] == '*' {
      r := Matchstar(re[0], re[2..], text);
      return;
    }
    if re == "$" {
      EndOnly(text);
      return text == "";
    }
    ghost var x, rest := if re[0] == '.' then Any else Char(re[0]), Items(re[1..]);
    if text != "" && (re[0] == '.' || re[0] == text[0]) {
      r := Matchhere(re[1..], text[1..]);
      if r { FirstItem(x, rest, text, 1); }
      if Prefix([x] + rest, text) { var j := Split(x, rest, text); }
      return;
    }
    if Prefix([x] + rest, text) { var j := Split(x, rest, text); }
    return false;
  }

  lemma EndOnly(text: string)
    ensures Prefix([AtEnd], text) <==> text == ""
  {
    if text == "" { assert CutsInto([AtEnd], text, [0, 0]); }
    if Prefix([AtEnd], text) { var j := Split(AtEnd, [], text) by { assert [AtEnd] == [AtEnd] + []; } }
  }

  /** matchstar: does c*re match at the beginning of text? */
  method Matchstar(c: char, re: string, text: string) returns (r: bool)
    ensures r <==> Prefix([Star(c)] + Items(re), text)
    decreases |re|, 1
  {
    var i := 0;
    while true
      invariant i <= |text| && Repeats(c, text, 0, i)
      invariant forall j :: 0 <= j < i ==> !Prefix(Items(re), text[j..])
      decreases |text| - i
    {
      var here := Matchhere(re, text[i..]);
      if here {
        FirstItem(Star(c), Items(re), text, i);
        return true;
      }
      if i == |text| || !(text[i] == c || c == '.') {
        break;
      }
      i := i + 1;
    }
    if Prefix([Star(c)] + Items(re), text) {
      var j := Split(Star(c), Items(re), text);
    }
    return false;
  }

  /** match: does re match anywhere in text? */
  method Match(re: string, text: string) returns (r: bool)
    ensures r <==> Means(re, text)
  {
    if re != "" && re[0] == '^' {
      r := Matchhere(re[1..], text);
      return;
    }
    var s := 0;
    while true
      invariant s <= |text| && forall j :: 0 <= j < s ==> !Prefix(Items(re), text[j..])
      decreases |text| - s
    {
      r := Matchhere(re, text[s..]);
      if r || s == |text| {
        return;
      }
      s := s + 1;
    }
  }

  // ---- What patterns mean, in terms of the text alone ----

  /** Characters and dots only. */
  predicate Plain(u: string) {
    forall k :: 0 <= k < |u| ==> u[k] !in "^*$"
  }

  /** u stands at position s of the text, with any character for a dot. */
  predicate Fits(u: string, text: string, s: nat) {
    s + |u| <= |text| && forall k :: 0 <= k < |u| ==> u[k] == '.' || text[s + k] == u[k]
  }

  function PlainItems(u: string): (r: seq<Item>)
    ensures |r| == |u|
  {
    seq(|u|, k requires 0 <= k < |u| => if u[k] == '.' then Any else Char(u[k]))
  }

  lemma {:induction false} ItemsOfPlain(u: string, re: string)
    requires Plain(u) && (re == "" || re[0] != '*')
    ensures Items(u + re) == PlainItems(u) + Items(re)
    decreases |u|
  {
    if u == "" {
      assert u + re == re;
    } else {
      var v, w := u[1..], u + re;
      assert w[0] == u[0] && w[1..] == v + re;
      assert |w| >= 2 ==> w[1] == (v + re)[0] && w[1] != '*';
      ItemsOfPlain(v, re);
      assert PlainItems(u) == PlainItems(u)[..1] + PlainItems(v);
      assert Items(w) == PlainItems(u)[..1] + Items(v + re);
    }
  }

  lemma {:induction false} PlainPrefix(u: string, rest: seq<Item>, text: string)
    ensures Prefix(PlainItems(u) + rest, text) <==> Fits(u, text, 0) && Prefix(rest, text[|u|..])
    decreases |u|
  {
    if u == "" {
      assert PlainItems(u) + rest == rest && text[0..] == text;
    } else {
      var v, x := u[1..], PlainItems(u)[0];
      assert PlainItems(u) + rest == [x] + (PlainItems(v) + rest);
      if text != "" {
        PlainPrefix(v, rest, text[1..]);
        assert |u| <= |text| ==> text[1..][|v|..] == text[|u|..];
        if Fits(u, text, 0) { assert forall k :: 0 <= k < |v| ==> v[k] == u[k + 1] && text[1..][k] == text[k + 1]; }
        if ItemMatches(x, text, 0, 1) && Fits(v, text[1..], 0) {
          forall k | 0 <= k < |u| ensures u[k] == '.' || text[k] == u[k] {
            if k > 0 { assert u[k] == v[k - 1] && text[k] == text[1..][k - 1]; }
          }
        }
        if ItemMatches(x, text, 0, 1) && Prefix(PlainItems(v) + rest, text[1..]) {
          FirstItem(x, PlainItems(v) + rest, text, 1);
        }
      }
      if Prefix([x] + (PlainItems(v) + rest), text) { var j := Split(x, PlainItems(v) + rest, text); }
    }
  }

  /** A plain pattern before the end of the text. */
  lemma PlainAtEnd(u: string, text: string)
    requires Plain(u)
    ensures Prefix(Items(u), text) <==> Fits(u, text, 0)
    ensures Prefix(Items(u + "$"), text) <==> |u| == |text| && Fits(u, text, 0)
  {
    hide Items;
    ItemsOfPlain(u, "");
    ItemsOfPlain(u, "$");
    assert u + "" == u;
    assert Items("") == [] && Items("$") == [AtEnd] by { hide *; EndItems(); }
    PlainPrefix(u, [], text);
    PlainPrefix(u, [AtEnd], text);
    if |u| <= |text| {
      NoItems(text[|u|..]);
      EndOnly(text[|u|..]);
    }
  }

  lemma EndItems()
    ensures Items("") == [] && Items("$") == [AtEnd]
  {
  }

  lemma FitsShift(u: string, text: string, s: nat)
    requires s <= |text|
    ensures Fits(u, text[s..], 0) <==> Fits(u, text, s)
  {
    assert forall k :: 0 <= k < |text| - s ==> text[s..][k] == text[s + k];
  }

  /** Characters and dots match where they stand: anywhere, at the start after ^, at the end before $, or exactly. */
  lemma PlainPatterns(u: string, text: string)
    requires Plain(u)
    ensures Means("^" + u, text) <==> Fits(u, text, 0)
    ensures Means("^" + (u + "$"), text) <==> |u| == |text| && Fits(u, text, 0)
    ensures Means(u, text) <==> exists s :: Fits(u, text, s)
    ensures Means(u + "$", text) <==> |u| <= |text| && Fits(u, text, |text| - |u|)
  {
    hide Items, Prefix, Fits;
    PlainAtEnd(u, text);
    assert ("^" + u)[1..] == u && ("^" + (u + "$"))[1..] == u + "$";
    FitsInside(u, text);
    forall s | 0 <= s <= |text|
      ensures Prefix(Items(u), text[s..]) <==> Fits(u, text, s)
      ensures Prefix(Items(u + "$"), text[s..]) <==> |u| == |text| - s && Fits(u, text, s)
    {
      PlainAtEnd(u, text[s..]);
      FitsShift(u, text, s);
    }
    assert (u + "$")[0] == if u == "" then '$' else u[0];
    if |u| <= |text| && Fits(u, text, |text| - |u|) { assert Prefix(Items(u + "$"), text[|text| - |u|..]); }
  }

  lemma FitsInside(u: string, text: string)
    ensures forall s: nat :: Fits(u, text, s) ==> s <= |text|
  {
  }

  /** The text is u, then a run of c (of anything if that is the dot), then v. */
  predicate OneRun(u: string, c: char, v: string, text: string) {
    var n := |text| - |v|;
    |u| <= n && Fits(u, text, 0) && Repeats(c, text, |u|, n) && Fits(v, text, n)
  }

  /** A star matches any number of its character, none included, whatever stands around it. */
  lemma StarPatterns(u: string, c: char, v: string, text: string)
    requires Plain(u) && Plain(v) && c != '*'
    ensures Means("^" + (u + ([c, '*'] + (v + "$"))), text) <==> OneRun(u, c, v, text)
  {
    hide Items, Prefix, Plain, Fits;
    var tail := v + "$";
    var re := u + ([c, '*'] + tail);
    assert ("^" + re)[1..] == re;
    assert Items([c, '*'] + tail) == [Star(c)] + Items(tail) by { hide *; StarItems(c, tail); }
    ItemsOfPlain(u, [c, '*'] + tail);
    PlainPrefix(u, [Star(c)] + Items(tail), text);
    if |u| <= |text| {
      var t := text[|u|..];
      StarTail(c, v, t);
      FitsTail(u, c, v, text);
    }
    FitsLength(u, text);
  }

  lemma FitsLength(u: string, text: string)
    ensures Fits(u, text, 0) ==> |u| <= |text|
  {
  }

  lemma StarItems(c: char, re: string)
    ensures Items([c, '*'] + re) == [Star(c)] + Items(re)
  {
    var w := [c, '*'] + re;
    assert w[0] == c && w[1] == '*' && w[2..] == re;
  }

  lemma StarTail(c: char, v: string, t: string)
    requires Plain(v)
    ensures Prefix([Star(c)] + Items(v + "$"), t) <==>
            |v| <= |t| && Repeats(c, t, 0, |t| - |v|) && Fits(v, t, |t| - |v|)
  {
    hide Items, Prefix, Plain, Fits;
    var rest := Items(v + "$");
    if Prefix([Star(c)] + rest, t) {
      var j := Split(Star(c), rest, t);
      PlainAtEnd(v, t[j..]);
      FitsShift(v, t, j);
    }
    if |v| <= |t| && Repeats(c, t, 0, |t| - |v|) && Fits(v, t, |t| - |v|) {
      var j := |t| - |v|;
      PlainAtEnd(v, t[j..]);
      FitsShift(v, t, j);
      FirstItem(Star(c), rest, t, j);
    }
  }

  lemma FitsTail(u: string, c: char, v: string, text: string)
    requires |u| <= |text|
    ensures var t := text[|u|..];
            (|v| <= |t| && Repeats(c, t, 0, |t| - |v|) && Fits(v, t, |t| - |v|)) <==>
            (|u| <= |text| - |v| && Repeats(c, text, |u|, |text| - |v|) && Fits(v, text, |text| - |v|))
  {
    hide Fits;
    var t, n := text[|u|..], |text| - |v|;
    if |u| <= n {
      ItemShift(Star(c), text, |u|, 0, n - |u|);
      FitsShift(v, t, n - |u|);
      FitsShift(v, text, n);
      assert t[n - |u|..] == text[n..];
    }
  }
}
