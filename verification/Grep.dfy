/**
The pattern matcher of grep.  C strings are sequences without a NUL; what lies behind the last
character reads as NUL.
*/
module Grep {
  /** A pattern is a sequence of items.  A '$' means the end only as the very last character. */
  datatype Item = One(c: char) | Star(c: char) | End

  function Items(re: string): (r: seq<Item>) {
    if re == [] then []
    else if |re| >= 2 && re[1] == '*' then [Star(re[0])] + Items(re[2..])
    else if re == "$" then [End]
    else [One(re[0])] + Items(re[1..])
  }

  predicate Fits(c: char, x: char) {
    c == '.' || c == x
  }

  /** The item stands for the characters from a to b. */
  ghost predicate Covers(it: Item, text: string, a: nat, b: nat) {
    && a <= b <= |text|
    && match it
       case One(c) => b == a + 1 && Fits(c, text[a])
       case Star(c) => forall k :: a <= k < b ==> Fits(c, text[k])
       case End => a == b == |text|
  }

  /** The items cover neighbouring stretches, from the start of the text to somewhere. */
  ghost predicate Splits(items: seq<Item>, text: string, cuts: seq<nat>) {
    && |cuts| == |items| + 1 && cuts[0] == 0 && cuts[|items|] <= |text|
    && forall i: nat, j: nat :: j == i + 1 && j < |cuts| ==> Covers(items[i], text, cuts[i], cuts[j])
  }

  ghost predicate Means(items: seq<Item>, text: string) {
    exists cuts: seq<nat> :: Splits(items, text, cuts)
  }

  /** The pattern as a whole: a leading '^' binds it to the start of the text. */
  ghost predicate Matches(re: string, text: string) {
    if re != [] && re[0] == '^' then Means(Items(re[1..]), text)
    else exists p: nat :: p <= |text| && Means(Items(re), text[p..])
  }

  /* ---- the meaning, item by item ---- */

  lemma NoItems(text: string)
    ensures Means([], text)
  {
    assert Splits([], text, [0]);
  }

  lemma CoversShift(it: Item, text: string, k: nat, a: nat, b: nat)
    requires k <= |text|
    ensures Covers(it, text[k..], a, b) <==> Covers(it, text, a + k, b + k)
  {
    if it.Star? && a <= b && b + k <= |text| {
      var t := text[k..];
      assert forall i :: a <= i < b ==> t[i] == text[i + k];
      if forall i :: a <= i < b ==> Fits(it.c, t[i]) {
        forall i | a + k <= i < b + k
          ensures Fits(it.c, text[i])
        {
          assert t[i - k] == text[i];
        }
      }
    }
  }

  lemma SplitHead(items: seq<Item>, text: string, cuts: seq<nat>) returns (k: nat)
    requires items != [] && Splits(items, text, cuts)
    ensures k <= |text| && Covers(items[0], text, 0, k) && Means(items[1..], text[k..])
  {
    k := cuts[1];
    assert Covers(items[0], text, cuts[0], cuts[1]);
    Ascending(items, text, cuts, 1);
    var rest := seq(|cuts| - 1, i requires 0 <= i < |cuts| - 1 => if cuts[i + 1] >= k then cuts[i + 1] - k else 0);
    forall i: nat | i < |rest|
      ensures rest[i] + k == cuts[i + 1]
    {
      Between(items, text, cuts, 1, i + 1);
    }
    forall i: nat, j: nat | j == i + 1 && j < |rest|
      ensures Covers(items[1..][i], text[k..], rest[i], rest[j])
    {
      assert Covers(items[i + 1], text, cuts[i + 1], cuts[j + 1]);
      CoversShift(items[i + 1], text, k, rest[i], rest[j]);
    }
    assert Splits(items[1..], text[k..], rest);
  }

  lemma {:induction false} Ascending(items: seq<Item>, text: string, cuts: seq<nat>, i: nat)
    requires Splits(items, text, cuts) && i < |cuts|
    ensures cuts[i] <= |text|
    decreases |cuts| - i
  {
    if i + 1 < |cuts| {
      assert Covers(items[i], text, cuts[i], cuts[i + 1]);
    }
  }

  lemma {:induction false} Between(items: seq<Item>, text: string, cuts: seq<nat>, i: nat, j: nat)
    requires Splits(items, text, cuts) && i <= j < |cuts|
    ensures cuts[i] <= cuts[j]
    decreases j
  {
    if i < j {
      Between(items, text, cuts, i, j - 1);
      assert Covers(items[j - 1], text, cuts[j - 1], cuts[j]);
    }
  }

  lemma JoinHead(it: Item, rest: seq<Item>, text: string, k: nat)
    requires k <= |text| && Covers(it, text, 0, k) && Means(rest, text[k..])
    ensures Means([it] + rest, text)
  {
    var cuts: seq<nat> :| Splits(rest, text[k..], cuts);
    var items := [it] + rest;
    var all := [0] + seq(|cuts|, i requires 0 <= i < |cuts| => cuts[i] + k);
    forall i: nat, j: nat | j == i + 1 && j < |all|
      ensures Covers(items[i], text, all[i], all[j])
    {
      if i > 0 {
        assert Covers(rest[i - 1], text[k..], cuts[i - 1], cuts[j - 1]);
        CoversShift(rest[i - 1], text, k, cuts[i - 1], cuts[j - 1]);
      }
    }
    assert Splits(items, text, all);
  }

  /** A pattern holds if its first item covers some stretch and the others go on from there. */
  lemma FirstItem(it: Item, rest: seq<Item>, text: string)
    ensures Means([it] + rest, text) <==>
              exists k: nat :: k <= |text| && Covers(it, text, 0, k) && Means(rest, text[k..])
  {
    if Means([it] + rest, text) {
      var cuts: seq<nat> :| Splits([it] + rest, text, cuts);
      var k := SplitHead([it] + rest, text, cuts);
      assert ([it] + rest)[1..] == rest;
    }
    if k: nat :| k <= |text| && Covers(it, text, 0, k) && Means(rest, text[k..]) {
      JoinHead(it, rest, text, k);
    }
  }

  lemma OneMeans(c: char, rest: seq<Item>, text: string)
    ensures Means([One(c)] + rest, text) <==> text != [] && Fits(c, text[0]) && Means(rest, text[1..])
  {
    FirstItem(One(c), rest, text);
    if text != [] && Fits(c, text[0]) && Means(rest, text[1..]) {
      assert Covers(One(c), text, 0, 1);
    }
  }

  lemma EndMeans(text: string)
    ensures Means([End], text) <==> text == []
  {
    FirstItem(End, [], text);
    assert [End] + [] == [End];
    if text == [] {
      NoItems(text[0..]);
      assert Covers(End, text, 0, 0);
    }
  }

  /* ---- the code ---- */

  /** match: true exactly if the text has a place where the pattern holds. */
  method Match(re: string, text: string) returns (r: bool)
    ensures r <==> Matches(re, text)
  {
    if re != [] && re[0] == '^' {
      r := Matchhere(re[1..], text);
      return;
    }
    var p := 0;
    while true
      invariant 0 <= p <= |text|
      invariant forall q: nat :: q < p ==> !Means(Items(re), text[q..])
      decreases |text| - p
    {
      var here := Matchhere(re, text[p..]);
      if here {
        return true;
      }
      if p == |text| {
        return false;
      }
      p := p + 1;
    }
  }

  /** matchhere: the pattern holds at the start of the text. */
  method Matchhere(re: string, text: string) returns (r: bool)
    ensures r <==> Means(Items(re), text)
    decreases |re|, 0
  {
    if re == [] {
      NoItems(text);
      return true;
    }
    if |re| >= 2 && re[1] == '*' {
      r := Matchstar(re[0], re[2..], text);
      return;
    }
    if re == "$" {
      EndMeans(text);
      return text == [];
    }
    OneMeans(re[0], Items(re[1..]), text);
    if text != [] && (re[0] == '.' || re[0] == text[0]) {
      r := Matchhere(re[1..], text[1..]);
      return;
    }
    return false;
  }

  /** matchstar: some number of characters that fit c, and then the rest of the pattern. */
  method Matchstar(c: char, re: string, text: string) returns (r: bool)
    ensures r <==> Means([Star(c)] + Items(re), text)
    decreases |re|, 1
  {
    FirstItem(Star(c), Items(re), text);
    var p := 0;
    while true
      invariant 0 <= p <= |text|
      invariant forall k :: 0 <= k < p ==> Fits(c, text[k])
      invariant forall q: nat :: q < p ==> !Means(Items(re), text[q..])
      decreases |text| - p
    {
      var here := Matchhere(re, text[p..]);
      if here {
        assert Covers(Star(c), text, 0, p);
        return true;
      }
      if p == |text| || !(text[p] == c || c == '.') {
        StarStops(c, re, text, p);
        return false;
      }
      p := p + 1;
    }
  }

  /** Once a character does not fit, no longer stretch can be covered. */
  lemma StarStops(c: char, re: string, text: string, p: nat)
    requires p <= |text| && (p == |text| || !Fits(c, text[p]))
    requires forall q: nat :: q <= p ==> !Means(Items(re), text[q..])
    ensures !exists k: nat :: k <= |text| && Covers(Star(c), text, 0, k) && Means(Items(re), text[k..])
  {
    forall k: nat | k <= |text| && Covers(Star(c), text, 0, k)
      ensures k <= p
    {
    }
  }
}
