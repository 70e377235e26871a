/**
 * A column of the time-indexed table as a sequence of optional reals, `None` standing for
 * pandas' NaN, together with the two sequence operations the lead-lag analysis rests on:
 * `Series.shift(k)` and the pairwise-complete mask used by `Series.corr`.
 */
module Series {
  import opened Common

  type Series = seq<Option<real>>

  /** `n` missing entries. */
  function Missing(n: nat): (r: Series)
    ensures |r| == n
    ensures forall i :: 0 <= i < n ==> r[i] == None
  {
    seq(n, _ => None)
  }

  /**
   * `Series.shift(k)`: a positive `k` is a lag (values move to later positions and the first
   * `k` become missing), a negative `k` a lead (values move earlier and the last `|k|` become
   * missing). Defined as a block of missing values joined to the part of the series that stays
   * inside the index.
   */
  function Shift(s: Series, k: int): (r: Series)
    ensures |r| == |s|
    ensures forall i :: 0 <= i < |r| ==> r[i] == (if 0 <= i - k < |s| then s[i - k] else None)
  {
    if k >= 0 then
      var m := Min(k, |s|);
      Missing(m) + s[..|s| - m]
    else
      var m := Min(-k, |s|);
      s[m..] + Missing(m)
  }

  /** Shifting by zero is the identity, missing positions included. */
  lemma ShiftIdentity(s: Series)
    ensures Shift(s, 0) == s
  {
  }

  /** A lag of `k > 0` leaves the first `k` positions missing; a lead of `k < 0` the last `|k|`. */
  lemma ShiftBoundary(s: Series, k: int)
    ensures k > 0 ==> forall i :: 0 <= i < Min(k, |s|) ==> Shift(s, k)[i] == None
    ensures k < 0 ==> forall i :: |s| - Min(-k, |s|) <= i < |s| ==> Shift(s, k)[i] == None
    ensures forall i :: 0 <= i < |s| && Shift(s, k)[i].Some? ==> 0 <= i - k < |s|
  {
  }

  /**
   * Shifting back undoes a shift exactly on the positions whose value survived the first shift;
   * everything that fell off the end stays missing.
   */
  lemma ShiftRoundTrip(s: Series, k: int)
    ensures |Shift(Shift(s, k), -k)| == |s|
    ensures forall i :: 0 <= i < |s| ==>
      Shift(Shift(s, k), -k)[i] == (if 0 <= i + k < |s| then s[i] else None)
  {
  }

  /** Two shifts in the same direction add up. */
  lemma ShiftCompose(s: Series, a: int, b: int)
    requires (a >= 0 && b >= 0) || (a <= 0 && b <= 0)
    ensures Shift(Shift(s, a), b) == Shift(s, a + b)
  {
  }

  /** Position `i` takes part in a pairwise-complete computation over `x` and `y`. */
  predicate Complete(x: Series, y: Series, i: int)
    requires |x| == |y|
  {
    0 <= i < |x| && x[i].Some? && y[i].Some?
  }

  /**
   * The pairs `(x[i], y[i])` at the positions `i >= from` where both are present, in index
   * order: what pandas keeps after masking out NaN on either side.
   */
  function PairsFrom(x: Series, y: Series, from: nat): (r: seq<(real, real)>)
    requires |x| == |y| && from <= |x|
    ensures |r| <= |x| - from
    decreases |x| - from
  {
    if from == |x| then []
    else if x[from].Some? && y[from].Some? then [(x[from].value, y[from].value)] + PairsFrom(x, y, from + 1)
    else PairsFrom(x, y, from + 1)
  }

  function CompletePairs(x: Series, y: Series): seq<(real, real)>
    requires |x| == |y|
  {
    PairsFrom(x, y, 0)
  }

  /** The positions `i >= from` at which both series are present, ascending. */
  function PositionsFrom(x: Series, y: Series, from: nat): (r: seq<nat>)
    requires |x| == |y| && from <= |x|
    decreases |x| - from
  {
    if from == |x| then []
    else if x[from].Some? && y[from].Some? then [from] + PositionsFrom(x, y, from + 1)
    else PositionsFrom(x, y, from + 1)
  }

  function CompletePositions(x: Series, y: Series): seq<nat>
    requires |x| == |y|
  {
    PositionsFrom(x, y, 0)
  }

  predicate StrictlyIncreasing(p: seq<nat>)
  {
    forall a, b :: 0 <= a < b < |p| ==> p[a] < p[b]
  }

  /** The positions are exactly the complete ones at or after `from`, each once, in ascending order. */
  lemma {:induction false} PositionsFromSpec(x: Series, y: Series, from: nat)
    requires |x| == |y| && from <= |x|
    ensures StrictlyIncreasing(PositionsFrom(x, y, from))
    ensures forall i :: i in PositionsFrom(x, y, from) <==> from <= i && Complete(x, y, i)
    decreases |x| - from
  {
    if from < |x| {
      PositionsFromSpec(x, y, from + 1);
      var tail := PositionsFrom(x, y, from + 1);
      forall j | 0 <= j < |tail| ensures from < tail[j] {
        assert tail[j] in tail;
      }
    }
  }

  /** The pairs are read off at exactly those positions. */
  lemma {:induction false} PairsAtPositions(x: Series, y: Series, from: nat)
    requires |x| == |y| && from <= |x|
    ensures |PairsFrom(x, y, from)| == |PositionsFrom(x, y, from)|
    ensures forall j :: 0 <= j < |PairsFrom(x, y, from)| ==>
      var p := PositionsFrom(x, y, from)[j];
      p < |x| && x[p].Some? && y[p].Some? && PairsFrom(x, y, from)[j] == (x[p].value, y[p].value)
    decreases |x| - from
  {
    if from < |x| {
      PairsAtPositions(x, y, from + 1);
      PositionsFromSpec(x, y, from + 1);
    }
  }

  /** Which positions are paired: the complete ones, in index order, each exactly once. */
  lemma CompletePairsSpec(x: Series, y: Series)
    requires |x| == |y|
    ensures StrictlyIncreasing(CompletePositions(x, y))
    ensures forall i :: i in CompletePositions(x, y) <==> Complete(x, y, i)
    ensures |CompletePairs(x, y)| == |CompletePositions(x, y)|
    ensures forall j :: 0 <= j < |CompletePairs(x, y)| ==>
      var p := CompletePositions(x, y)[j];
      p < |x| && x[p].Some? && y[p].Some? && CompletePairs(x, y)[j] == (x[p].value, y[p].value)
  {
    PositionsFromSpec(x, y, 0);
    PairsAtPositions(x, y, 0);
  }

  /** A strictly increasing sequence of positions inside `[lo, hi)` has at most `hi - lo` entries. */
  lemma {:induction false} IncreasingWithin(p: seq<nat>, lo: int, hi: int)
    requires StrictlyIncreasing(p)
    requires forall j :: 0 <= j < |p| ==> lo <= p[j] < hi
    ensures |p| <= if hi - lo < 0 then 0 else hi - lo
  {
    if |p| > 0 {
      assert StrictlyIncreasing(p[1..]) by {
        forall a, b | 0 <= a < b < |p[1..]| ensures p[1..][a] < p[1..][b] {
          assert p[1..][a] == p[a + 1] && p[1..][b] == p[b + 1];
        }
      }
      forall j | 0 <= j < |p[1..]| ensures p[0] + 1 <= p[1..][j] < hi {
        assert p[1..][j] == p[j + 1];
      }
      IncreasingWithin(p[1..], p[0] + 1, hi);
    }
  }

  /**
   * After a shift by `k`, at most `|s| - |k|` positions can be complete: the shifted series is
   * missing on the `|k|` positions that were vacated.
   */
  lemma ShiftedOverlapBound(x: Series, y: Series, k: int)
    requires |x| == |y|
    ensures |CompletePairs(x, Shift(y, k))| <= if |y| - (if k < 0 then -k else k) < 0 then 0 else |y| - (if k < 0 then -k else k)
  {
    var sy := Shift(y, k);
    CompletePairsSpec(x, sy);
    var p := CompletePositions(x, sy);
    var lo := if k > 0 then k else 0;
    var hi := if k < 0 then |y| + k else |y|;
    forall j | 0 <= j < |p| ensures lo <= p[j] < hi {
      assert p[j] in p;
      assert Complete(x, sy, p[j]);
    }
    IncreasingWithin(p, lo, hi);
  }
}
