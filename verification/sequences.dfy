/** First occurrences in a list of strings, and the first-seen deduplication that `[...new Set(xs)]` performs. */
module Sequences {
  import opened Common

  /** The position where `x` first occurs in `s`. */
  function FirstIndex(s: seq<string>, x: string): (i: nat)
    requires x in s
    ensures i < |s| && s[i] == x && x !in s[..i]
  {
    if s[0] == x then 0
    else
      var i := FirstIndex(s[1..], x);
      assert s[1..][..i] == s[1..i + 1];
      assert s[..i + 1] == [s[0]] + s[1..i + 1];
      i + 1
  }

  /** A first occurrence is unique. */
  lemma FirstIndexUnique(s: seq<string>, x: string, i: nat)
    requires i < |s| && s[i] == x && x !in s[..i]
    ensures FirstIndex(s, x) == i
  {
  }

  /** Appending an element keeps the first occurrence of everything already there. */
  lemma FirstIndexAppend(s: seq<string>, y: string, x: string)
    requires x in s
    ensures FirstIndex(s + [y], x) == FirstIndex(s, x)
  {
    var i := FirstIndex(s, x);
    assert (s + [y])[..i] == s[..i];
    FirstIndexUnique(s + [y], x, i);
  }

  /**
   * Keeps the first occurrence of each element, in the order they are first
   * seen: the insertion order of a JavaScript Set built from `s`.
   */
  function Dedup(s: seq<string>): (r: seq<string>)
    ensures Distinct(r)
    ensures forall x :: x in r <==> x in s
    ensures |r| <= |s|
  {
    if |s| == 0 then []
    else
      var init := s[..|s| - 1];
      var last := s[|s| - 1];
      var d := Dedup(init);
      assert forall x :: x in s <==> x in init || x == last by {
        assert s == init + [last];
      }
      if last in init then d else d + [last]
  }

  /** The elements of `Dedup(s)` come in the order of their first occurrence in `s`. */
  lemma {:induction false} DedupFirstSeenOrder(s: seq<string>, i: nat, j: nat)
    requires i < j < |Dedup(s)|
    ensures FirstIndex(s, Dedup(s)[i]) < FirstIndex(s, Dedup(s)[j])
  {
    var init := s[..|s| - 1];
    var last := s[|s| - 1];
    assert s == init + [last];
    var d := Dedup(init);
    var x := Dedup(s)[i];
    var y := Dedup(s)[j];
    if last in init || j < |d| {
      assert x == d[i] && y == d[j];
      DedupFirstSeenOrder(init, i, j);
      FirstIndexAppend(init, last, x);
      FirstIndexAppend(init, last, y);
    } else {
      assert y == last && x == d[i] && x in init;
      FirstIndexAppend(init, last, x);
      FirstIndexUnique(s, last, |s| - 1);
    }
  }

  /**
   * The first `n` elements of `Dedup(s)` are exactly the first `n` distinct
   * elements of `s`: anything first seen before one of them is among them.
   */
  lemma FirstSeenPrefix(s: seq<string>, n: nat, x: string, i: nat)
    requires n <= |Dedup(s)| && i < n
    requires x in s && FirstIndex(s, x) < FirstIndex(s, Dedup(s)[i])
    ensures x in Dedup(s)[..n]
  {
    var d := Dedup(s);
    var j :| 0 <= j < |d| && d[j] == x;
    if i < j {
      DedupFirstSeenOrder(s, i, j);
    } else if i == j {
    }
    assert d[..n][j] == x;
  }
}
