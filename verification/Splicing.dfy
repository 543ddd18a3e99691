/** Overwriting a range of a byte sequence, extending it where the range ends past the end. */
module Splicing {
  import opened Common

  /**
   * `s` with `d` placed at `at`. A nonempty `d` beyond the end of `s` leaves a gap of
   * `fill`, as a write past the end of a file does; an empty `d` changes nothing.
   */
  function Splice<T>(s: seq<T>, at: nat, d: seq<T>, fill: T): seq<T> {
    if |d| == 0 then s
    else seq(Max(|s|, at + |d|), p requires 0 <= p =>
               if at <= p < at + |d| then d[p - at] else if p < |s| then s[p] else fill)
  }

  /** Two ranges share no position, or one of them is empty. */
  predicate Apart(a: nat, n: nat, b: nat, m: nat) {
    n == 0 || m == 0 || a + n <= b || b + m <= a
  }

  /** Writes to ranges that share no position commute, the zero-filled gaps included. */
  lemma SpliceCommutes<T>(s: seq<T>, a: nat, x: seq<T>, b: nat, y: seq<T>, fill: T)
    requires Apart(a, |x|, b, |y|)
    ensures Splice(Splice(s, a, x, fill), b, y, fill) == Splice(Splice(s, b, y, fill), a, x, fill)
  {
    var xy := Splice(Splice(s, a, x, fill), b, y, fill);
    var yx := Splice(Splice(s, b, y, fill), a, x, fill);
    assert |xy| == |yx|;
    assert forall p :: 0 <= p < |xy| ==> xy[p] == yx[p];
  }

  /** A write continued where it stopped is one longer write. */
  lemma SpliceAppends<T>(s: seq<T>, a: nat, x: seq<T>, y: seq<T>, fill: T)
    ensures Splice(Splice(s, a, x, fill), a + |x|, y, fill) == Splice(s, a, x + y, fill)
  {
    var two := Splice(Splice(s, a, x, fill), a + |x|, y, fill);
    var one := Splice(s, a, x + y, fill);
    if |x| == 0 {
      assert x + y == y;
    } else if |y| == 0 {
      assert x + y == x;
    } else {
      assert |two| == |one|;
      assert forall p :: 0 <= p < |one| ==> two[p] == one[p];
    }
  }

  lemma SpliceOfNothing<T>(s: seq<T>, at: nat, d: seq<T>, fill: T)
    requires |d| == 0
    ensures Splice(s, at, d, fill) == s
  {
  }

  /** Filling a buffer from its start to its end leaves only the new contents. */
  lemma SpliceReplaces<T>(s: seq<T>, d: seq<T>, fill: T)
    requires |s| == |d|
    ensures Splice(s, 0, d, fill) == d
  {
  }

  /** What has been placed is there. */
  lemma SplicedRange<T>(s: seq<T>, at: nat, d: seq<T>, fill: T)
    requires |d| > 0
    ensures at + |d| <= |Splice(s, at, d, fill)| && Splice(s, at, d, fill)[at..at + |d|] == d
  {
  }

  /**
   * Every position after a nonempty write: the written data where it was placed, the old
   * contents elsewhere, and `fill` in a gap before it; and nothing is cut off.
   */
  lemma SpliceByteByByte<T>(s: seq<T>, at: nat, d: seq<T>, fill: T, p: nat)
    requires |d| > 0
    ensures |Splice(s, at, d, fill)| == Max(|s|, at + |d|)
    ensures at <= p < at + |d| ==> Splice(s, at, d, fill)[p] == d[p - at]
    ensures p < |s| && !(at <= p < at + |d|) ==> Splice(s, at, d, fill)[p] == s[p]
    ensures |s| <= p < at ==> Splice(s, at, d, fill)[p] == fill
  {
  }
}
