/** Integer and real helpers: JavaScript's Math.floor, Math.round and Math.max, and sums. */
module Numbers {

  /** Math.floor on an exact real. */
  function Floor(x: real): (r: int)
    ensures r as real <= x < r as real + 1.0
  {
    x.Floor
  }

  /** Math.round: the nearest integer, halves rounded towards +infinity. */
  function Round(x: real): (r: int)
    ensures r as real - 0.5 <= x < r as real + 0.5
  {
    (x + 0.5).Floor
  }

  function Max(a: int, b: int): int
  {
    if a < b then b else a
  }

  /** Array.prototype.indexOf on a sequence of identities: the first position of `id`, or -1. */
  function IndexOf(ids: seq<nat>, id: nat): (r: int)
    ensures -1 <= r < |ids|
    ensures r == -1 <==> forall j :: 0 <= j < |ids| ==> ids[j] != id
    ensures r >= 0 ==> ids[r] == id && forall j :: 0 <= j < r ==> ids[j] != id
  {
    if ids == [] then -1
    else if ids[0] == id then 0
    else
      var k := IndexOf(ids[1..], id);
      if k == -1 then -1 else k + 1
  }

  /** Sum of a sequence of integers, accumulated from the front as the source's loops do. */
  function Sum(s: seq<int>): int
  {
    if s == [] then 0 else Sum(s[..|s| - 1]) + s[|s| - 1]
  }

  lemma {:induction false} SumAppend(a: seq<int>, b: seq<int>)
    ensures Sum(a + b) == Sum(a) + Sum(b)
    decreases |b|
  {
    if b == [] {
      assert a + b == a;
    } else {
      assert (a + b)[..|a + b| - 1] == a + b[..|b| - 1];
      SumAppend(a, b[..|b| - 1]);
    }
  }

  /** Sum of a sequence of reals, accumulated from the front. */
  function Total(s: seq<real>): real
  {
    if s == [] then 0.0 else Total(s[..|s| - 1]) + s[|s| - 1]
  }

  lemma {:induction false} TotalAppend(a: seq<real>, b: seq<real>)
    ensures Total(a + b) == Total(a) + Total(b)
    decreases |b|
  {
    if b == [] {
      assert a + b == a;
    } else {
      assert (a + b)[..|a + b| - 1] == a + b[..|b| - 1];
      TotalAppend(a, b[..|b| - 1]);
    }
  }

  lemma {:induction false} TotalSingle(v: real)
    ensures Total([v]) == v
  {
    assert [v][..0] == [];
  }

  /** Every element multiplied by `k`. */
  function Scale(s: seq<real>, k: real): (r: seq<real>)
    ensures |r| == |s|
  {
    seq(|s|, i requires 0 <= i < |s| => s[i] * k)
  }

  /** Scaling every element by `k` scales the sum by `k`. */
  lemma {:induction false} ScaleTotal(s: seq<real>, k: real)
    ensures Total(Scale(s, k)) == k * Total(s)
  {
    if s != [] {
      var p := s[..|s| - 1];
      forall i | 0 <= i < |p| ensures Scale(s, k)[i] == Scale(p, k)[i] {
        assert p[i] == s[i];
      }
      assert Scale(s, k)[..|s| - 1] == Scale(p, k);
      ScaleTotal(p, k);
      Distribute(k, Total(p), s[|s| - 1], Total(s));
    }
  }

  /** Element `i` increased by `w[i]` shares of `share`. */
  function AddWeighted(s: seq<real>, w: seq<real>, share: real): (r: seq<real>)
    requires |w| == |s|
    ensures |r| == |s|
  {
    seq(|s|, i requires 0 <= i < |s| => s[i] + w[i] * share)
  }

  /** Adding weighted shares adds the total weight's worth of shares to the sum. */
  lemma {:induction false} AddWeightedTotal(s: seq<real>, w: seq<real>, share: real)
    requires |w| == |s|
    ensures Total(AddWeighted(s, w, share)) == Total(s) + Total(w) * share
  {
    if s != [] {
      var p, q := s[..|s| - 1], w[..|w| - 1];
      forall i | 0 <= i < |p| ensures AddWeighted(s, w, share)[i] == AddWeighted(p, q, share)[i] {
        assert p[i] == s[i] && q[i] == w[i];
      }
      var a := AddWeighted(s, w, share);
      assert a[..|s| - 1] == AddWeighted(p, q, share);
      AddWeightedTotal(p, q, share);
      assert Total(a) == Total(AddWeighted(p, q, share)) + (s[|s| - 1] + w[|w| - 1] * share);
      WeightedStep(Total(p), Total(q), s[|s| - 1], w[|w| - 1], share);
    }
  }

  /** One more element and one more weight, added to running totals. */
  lemma {:induction false} WeightedStep(tp: real, tq: real, x: real, y: real, share: real)
    ensures (tp + tq * share) + (x + y * share) == (tp + x) + (tq + y) * share
  {
  }

  /** w equal shares of r/m make up r when w == m. */
  lemma {:induction false} Shares(w: real, m: real, r: real)
    requires w == m && m != 0.0
    ensures w * (r / m) == r
  {
  }

  /** w shares of r/m, split as wa + wb == m, make up r. */
  lemma {:induction false} SharesSum(wa: real, wb: real, m: real, r: real)
    requires m == wa + wb && m != 0.0
    ensures wa * (r / m) + wb * (r / m) == r
  {
  }

  /** m + 1 shares of r/m exceed r by exactly one share. */
  lemma {:induction false} OverShares(wa: real, wb: real, m: real, r: real)
    requires wa + wb == m + 1.0 && m >= 1.0
    ensures wa * (r / m) + wb * (r / m) == r + r / m
  {
  }

  /** What the others give up when scaled by (100 - s)/100 plus `s` is the whole. */
  lemma {:induction false} HundredScaled(s: real, t: real)
    requires t == 100.0
    ensures ((100.0 - s) / 100.0) * t + s == 100.0
  {
  }

  /** Rescaling a non-zero total g by 100/g gives 100. */
  lemma {:induction false} HundredOver(g: real)
    requires g != 0.0
    ensures (100.0 / g) * g == 100.0
  {
  }

  /** Multiplying by k distributes over a sum t == a + b. */
  lemma {:induction false} Distribute(k: real, a: real, b: real, t: real)
    requires t == a + b
    ensures k * a + k * b == k * t
  {
  }

  /** Each value read as a percentage of `b` (the `b * (p / 100)` of absolute sizing). */
  function Portions(s: seq<real>, b: real): (r: seq<real>)
    ensures |r| == |s|
  {
    seq(|s|, i requires 0 <= i < |s| => b * (s[i] / 100.0))
  }

  lemma {:induction false} PortionsTotal(s: seq<real>, b: real)
    ensures Total(Portions(s, b)) == b * (Total(s) / 100.0)
  {
    if s != [] {
      var p := s[..|s| - 1];
      forall i | 0 <= i < |p| ensures Portions(s, b)[i] == Portions(p, b)[i] {
        assert p[i] == s[i];
      }
      assert Portions(s, b)[..|s| - 1] == Portions(p, b);
      PortionsTotal(p, b);
      PortionSplit(b, Total(p), s[|s| - 1], Total(s));
    }
  }

  lemma {:induction false} PortionSplit(b: real, x: real, y: real, t: real)
    requires t == x + y
    ensures b * (x / 100.0) + b * (y / 100.0) == b * (t / 100.0)
  {
  }

  lemma {:induction false} WholePortion(b: real, t: real)
    requires t == 100.0
    ensures b * (t / 100.0) == b
  {
  }

  /** Flooring each value loses less than one per value, and never gains. */
  lemma {:induction false} FloorSum(fs: seq<int>, xs: seq<real>)
    requires |fs| == |xs|
    requires forall i :: 0 <= i < |xs| ==> fs[i] == Floor(xs[i])
    ensures Sum(fs) as real <= Total(xs) <= Sum(fs) as real + |xs| as real
    ensures xs != [] ==> Total(xs) < Sum(fs) as real + |xs| as real
  {
    if xs != [] {
      var n := |xs| - 1;
      FloorSum(fs[..n], xs[..n]);
      assert Sum(fs) == Sum(fs[..n]) + fs[n];
      assert fs[n] as real <= xs[n] < fs[n] as real + 1.0;
    }
  }

  /** Element-wise difference. */
  function Minus(a: seq<int>, b: seq<int>): (r: seq<int>)
    requires |a| == |b|
    ensures |r| == |a|
  {
    seq(|a|, i requires 0 <= i < |a| => a[i] - b[i])
  }

  lemma {:induction false} SumMinus(a: seq<int>, b: seq<int>)
    requires |a| == |b|
    ensures Sum(Minus(a, b)) == Sum(a) - Sum(b)
  {
    if a != [] {
      var n := |a| - 1;
      assert Minus(a, b)[..n] == Minus(a[..n], b[..n]);
      SumMinus(a[..n], b[..n]);
    }
  }

  /** Changing the last element by `d` changes the sum by `d`. */
  lemma {:induction false} SumUpdateLast(s: seq<int>, v: int)
    requires s != []
    ensures Sum(s[|s| - 1 := v]) == Sum(s) - s[|s| - 1] + v
  {
    assert s[|s| - 1 := v][..|s| - 1] == s[..|s| - 1];
  }

  function Clamp(a: int, lo: int, hi: int): int
    requires lo <= hi
  {
    if a < lo then lo else if a > hi then hi else a
  }
}
