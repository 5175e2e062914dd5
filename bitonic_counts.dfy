/** Quiescent token counts of a bitonic network. Every function here follows
    one builder function of `src/networks/bitonic.rs` but on numbers of
    tokens instead of wires: given how many tokens entered each input wire,
    it says how many leave on each output wire once no token is in flight.
    The main theorem is the step property of Aspnes, Herlihy and Shavit: the
    output counts of `Bitonic[w]` never differ by more than one and never
    favour a later wire over an earlier one. */
module Balancing {

  /** The number of tokens a balancer that has seen `v` tokens has sent to
      its port `up` (false: port 0, true: port 1). Its k-th token (from 0)
      leaves on port k % 2, so port 0 gets the extra token of an odd count. */
  function Half(v: nat, up: bool): nat
  {
    if up then v / 2 else (v + 1) / 2
  }

  /** `n` is a power of two (`usize::is_power_of_two`: 0 is not). */
  predicate IsPow2(n: nat)
    decreases n
  {
    if n <= 1 then n == 1 else n % 2 == 0 && IsPow2(n / 2)
  }

  /** A power of two above one halves into a power of two. */
  lemma Pow2Halves(n: nat)
    requires IsPow2(n) && n > 1
    ensures n % 2 == 0 && IsPow2(n / 2) && n / 2 >= 1
  {
  }

  function Log2(n: nat): nat
    requires IsPow2(n)
    decreases n
  {
    if n == 1 then 0 else 1 + Log2(n / 2)
  }

  function Sum(s: seq<nat>): nat
  {
    if s == [] then 0 else s[0] + Sum(s[1..])
  }

  /** The step property: earlier outputs have at least as many tokens as
      later ones, and at most one more. */
  predicate Step(s: seq<nat>)
  {
    forall i, j :: 0 <= i < j < |s| ==> s[j] <= s[i] <= s[j] + 1
  }

  /** The elements at even positions, in order (the `idx % 2 == 0` half of
      `split_even_odd`). */
  function Evens<T>(s: seq<T>): (r: seq<T>)
    ensures |r| == (|s| + 1) / 2
    ensures forall i :: 0 <= i < |r| ==> r[i] == s[2 * i]
    decreases |s|
  {
    if s == [] then [] else [s[0]] + Odds(s[1..])
  }

  /** The elements at odd positions, in order. */
  function Odds<T>(s: seq<T>): (r: seq<T>)
    ensures |r| == |s| / 2
    ensures forall i :: 0 <= i < |r| ==> r[i] == s[2 * i + 1]
    decreases |s|
  {
    if s == [] then [] else Evens(s[1..])
  }

  /** Between them the two halves hold every element of `s`, as often as
      `s` does. */
  lemma {:induction false} EvensOddsMultiset<T>(s: seq<T>)
    ensures multiset(Evens(s)) + multiset(Odds(s)) == multiset(s)
    decreases |s|
  {
    if s != [] {
      EvensOddsMultiset(s[1..]);
      assert s == [s[0]] + s[1..];
    }
  }

  /** `split_even_odd`: the even-position elements first, the odd-position
      ones second, each keeping its relative order. It partitions the
      input: position `i` lands at `i / 2` of the half its parity picks, and
      the halves hold the input's elements, each as often as the input. */
  function SplitEvenOdd<T>(s: seq<T>): (r: (seq<T>, seq<T>))
    ensures |r.0| + |r.1| == |s| && |r.0| == (|s| + 1) / 2
    ensures forall i :: 0 <= i < |s| ==> s[i] == if i % 2 == 0 then r.0[i / 2] else r.1[i / 2]
    ensures multiset(r.0) + multiset(r.1) == multiset(s)
  {
    EvensOddsMultiset(s);
    (Evens(s), Odds(s))
  }

  /** Counts through `merge_wires`: the i-th upper and i-th lower wire meet
      in one new balancer whose two ports become outputs 2i and 2i+1. */
  function MergeCounts(x: seq<nat>, y: seq<nat>): (r: seq<nat>)
    ensures |r| == 2 * (if |x| < |y| then |x| else |y|)
    ensures forall i :: 0 <= i < |r| ==> r[i] == Half(x[i / 2] + y[i / 2], i % 2 == 1)
  {
    if x == [] || y == [] then []
    else
      var rest := MergeCounts(x[1..], y[1..]);
      var r := [Half(x[0] + y[0], false), Half(x[0] + y[0], true)] + rest;
      MergeCountsCons(x, y, rest, r);
      r
  }

  /** The first balancer's two outputs in front of the tails' outputs. */
  lemma MergeCountsCons(x: seq<nat>, y: seq<nat>, rest: seq<nat>, r: seq<nat>)
    requires x != [] && y != [] && |rest| <= 2 * (|x| - 1) && |rest| <= 2 * (|y| - 1)
    requires forall j :: 0 <= j < |rest| ==> rest[j] == Half(x[1..][j / 2] + y[1..][j / 2], j % 2 == 1)
    requires r == [Half(x[0] + y[0], false), Half(x[0] + y[0], true)] + rest
    ensures forall i :: 0 <= i < |r| ==> r[i] == Half(x[i / 2] + y[i / 2], i % 2 == 1)
  {
    forall i | 0 <= i < |r| ensures r[i] == Half(x[i / 2] + y[i / 2], i % 2 == 1) {
      if i >= 2 {
        MergeCountsLater(x, y, rest, r, i);
      }
    }
  }

  /** Past the first balancer, `MergeCounts` continues with the tails. */
  lemma MergeCountsLater(x: seq<nat>, y: seq<nat>, rest: seq<nat>, r: seq<nat>, i: nat)
    requires x != [] && y != [] && |rest| <= 2 * (|x| - 1) && |rest| <= 2 * (|y| - 1)
    requires forall j :: 0 <= j < |rest| ==> rest[j] == Half(x[1..][j / 2] + y[1..][j / 2], j % 2 == 1)
    requires r == [Half(x[0] + y[0], false), Half(x[0] + y[0], true)] + rest
    requires 2 <= i < |r| && i / 2 < |x| && i / 2 < |y|
    ensures r[i] == Half(x[i / 2] + y[i / 2], i % 2 == 1)
  {
    var k := i - 2;
    assert r[i] == rest[k];
    assert k / 2 == i / 2 - 1 && k % 2 == i % 2;
  }

  /** Counts through `merge_networks` (the `Merger[2k]` network). */
  function MergeNetCounts(x: seq<nat>, y: seq<nat>): (r: seq<nat>)
    requires |x| == |y| && IsPow2(|x|)
    ensures |r| == 2 * |x|
    decreases |x|
  {
    if |x| + |y| == 2 then MergeCounts(x, y)
    else
      MergeCounts(MergeNetCounts(Evens(x), Odds(y)), MergeNetCounts(Odds(x), Evens(y)))
  }

  /** Counts through `construct_bitonic` (the `Bitonic[w]` network): `c[i]`
      tokens entered input wire i. */
  function BitonicCounts(c: seq<nat>): (r: seq<nat>)
    requires IsPow2(|c|)
    ensures |r| == |c|
    decreases |c|
  {
    if |c| == 1 then c
    else MergeNetCounts(BitonicCounts(c[..|c| / 2]), BitonicCounts(c[|c| / 2..]))
  }

  // ----- sums -----

  lemma {:induction false} SumAppend(s: seq<nat>, t: seq<nat>)
    ensures Sum(s + t) == Sum(s) + Sum(t)
  {
    if s == [] {
      assert s + t == t;
    } else {
      SumAppend(s[1..], t);
      assert (s + t)[0] == s[0];
      assert (s + t)[1..] == s[1..] + t;
    }
  }

  /** A merging layer neither creates nor loses tokens. */
  lemma {:induction false} MergeCountsSum(x: seq<nat>, y: seq<nat>)
    requires |x| == |y|
    ensures Sum(MergeCounts(x, y)) == Sum(x) + Sum(y)
  {
    if x != [] {
      MergeCountsSum(x[1..], y[1..]);
      var head := [Half(x[0] + y[0], false), Half(x[0] + y[0], true)];
      SumAppend(head, MergeCounts(x[1..], y[1..]));
    }
  }

  lemma {:induction false} EvensOddsSum(s: seq<nat>)
    ensures Sum(Evens(s)) + Sum(Odds(s)) == Sum(s)
    decreases |s|
  {
    if s != [] {
      EvensOddsSum(s[1..]);
      assert Evens(s) == [s[0]] + Odds(s[1..]);
      SumAppend([s[0]], Odds(s[1..]));
    }
  }

  /** For an even-length sequence with the step property the even positions
      carry the same number of tokens as the odd ones, or one more. */
  lemma {:induction false} EvensOddsStepSum(s: seq<nat>)
    requires Step(s) && |s| % 2 == 0
    ensures Sum(Odds(s)) <= Sum(Evens(s)) <= Sum(Odds(s)) + 1
    decreases |s|
  {
    if s != [] {
      var rest := s[2..];
      assert Evens(s) == [s[0]] + Evens(rest) by {
        assert s[1..][1..] == rest;
      }
      assert Odds(s) == [s[1]] + Odds(rest) by {
        assert s[1..][1..] == rest;
      }
      SumAppend([s[0]], Evens(rest));
      SumAppend([s[1]], Odds(rest));
      if s[0] == s[1] {
        assert Step(rest) by {
          forall i, j | 0 <= i < j < |rest| ensures rest[j] <= rest[i] <= rest[j] + 1 {
            assert rest[i] == s[i + 2] && rest[j] == s[j + 2];
          }
        }
        EvensOddsStepSum(rest);
      } else {
        forall i | 0 <= i < |rest| ensures rest[i] == s[1] {
          assert rest[i] == s[i + 2];
        }
        ConstantEvensOdds(rest, s[1]);
      }
    }
  }

  lemma {:induction false} ConstantEvensOdds(s: seq<nat>, v: nat)
    requires |s| % 2 == 0
    requires forall i :: 0 <= i < |s| ==> s[i] == v
    ensures Sum(Evens(s)) == Sum(Odds(s))
    decreases |s|
  {
    if s != [] {
      var rest := s[2..];
      assert s[1..][1..] == rest;
      assert Evens(s) == [s[0]] + Evens(rest);
      assert Odds(s) == [s[1]] + Odds(rest);
      SumAppend([s[0]], Evens(rest));
      SumAppend([s[1]], Odds(rest));
      ConstantEvensOdds(rest, v);
    }
  }

  // ----- comparing step sequences -----

  /** If `t` is pointwise at least `s`, its sum is at least `s`'s, and larger
      by one for every position where it is larger. */
  lemma {:induction false} SumMonotone(s: seq<nat>, t: seq<nat>, a: int, b: int)
    requires |s| == |t|
    requires forall i :: 0 <= i < |s| ==> s[i] <= t[i]
    ensures Sum(s) <= Sum(t)
    ensures 0 <= a < |s| && s[a] < t[a] ==> Sum(s) < Sum(t)
    ensures 0 <= a < b < |s| && s[a] < t[a] && s[b] < t[b] ==> Sum(s) + 2 <= Sum(t)
    decreases |s|
  {
    if s != [] {
      SumMonotone(s[1..], t[1..], a - 1, b - 1);
      if a == 0 && b > 0 {
        SumMonotone(s[1..], t[1..], b - 1, b);
      }
    }
  }

  /** Of two step sequences of equal length, the one with the smaller sum is
      pointwise below the other. */
  lemma StepBelow(s: seq<nat>, t: seq<nat>)
    requires Step(s) && Step(t) && |s| == |t|
    requires Sum(s) <= Sum(t)
    ensures forall i :: 0 <= i < |s| ==> s[i] <= t[i]
  {
    if exists i :: 0 <= i < |s| && s[i] > t[i] {
      var i :| 0 <= i < |s| && s[i] > t[i];
      forall j | 0 <= j < |s| ensures t[j] <= s[j] {
      }
      SumMonotone(t, s, i, -1);
      assert false;
    }
  }

  /** The last layer of `Merger[2k]` keeps the step property: with `u`
      pointwise at most one above `w` and in total at most one above it,
      the sequence `u[0], w[0], u[1], w[1], ...` is a step sequence. */
  lemma InterleaveStep(u: seq<nat>, w: seq<nat>, r: seq<nat>)
    requires Step(u) && Step(w) && |u| == |w| && |r| == 2 * |u|
    requires forall i :: 0 <= i < |u| ==> w[i] <= u[i] <= w[i] + 1
    requires Sum(u) <= Sum(w) + 1
    requires forall p :: 0 <= p < |r| ==> r[p] == if p % 2 == 0 then u[p / 2] else w[p / 2]
    ensures Step(r)
  {
    forall p, q | 0 <= p < q < |r| ensures r[q] <= r[p] <= r[q] + 1 {
      var i, j := p / 2, q / 2;
      if i < j && u[i] > w[i] && u[j] > w[j] {
        SumMonotone(w, u, i, j);
      }
    }
  }

  /** Of two step sequences whose sums differ by at most one, the larger is
      pointwise at most one above the smaller. */
  lemma StepClose(w: seq<nat>, u: seq<nat>)
    requires Step(w) && Step(u) && |w| == |u|
    requires Sum(w) <= Sum(u) <= Sum(w) + 1
    ensures forall i :: 0 <= i < |u| ==> w[i] <= u[i] <= w[i] + 1
  {
    StepBelow(w, u);
    forall i | 0 <= i < |u| ensures u[i] <= w[i] + 1 {
      if u[i] > w[i] + 1 {
        SumBumped(w, u, i);
      }
    }
  }

  /** The merging layer on two step sequences whose sums differ by at most
      one yields a step sequence. */
  lemma MergeCountsStep(z: seq<nat>, z': seq<nat>)
    requires Step(z) && Step(z') && |z| == |z'|
    requires Sum(z) <= Sum(z') + 1 && Sum(z') <= Sum(z) + 1
    ensures Step(MergeCounts(z, z'))
  {
    var r := MergeCounts(z, z');
    if Sum(z) <= Sum(z') {
      StepClose(z, z');
      InterleaveStep(z', z, r);
    } else {
      StepClose(z', z);
      InterleaveStep(z, z', r);
    }
  }

  /** Raising one position of a pointwise-below sequence keeps it below. */
  lemma SumBumped(w: seq<nat>, u: seq<nat>, i: nat)
    requires |w| == |u| && i < |w|
    requires forall k :: 0 <= k < |w| ==> w[k] <= u[k]
    requires u[i] >= w[i] + 2
    ensures Sum(w) + 2 <= Sum(u)
  {
    var w' := w[i := w[i] + 2];
    SumMonotone(w', u, -1, -1);
    SumUpdate(w, i, w[i] + 2);
  }

  lemma {:induction false} SumUpdate(s: seq<nat>, i: nat, v: nat)
    requires i < |s|
    ensures Sum(s[i := v]) + s[i] == Sum(s) + v
    decreases |s|
  {
    if i > 0 {
      SumUpdate(s[1..], i - 1, v);
      assert s[i := v][1..] == s[1..][i - 1 := v];
    }
  }

  lemma StepEvensOdds(s: seq<nat>)
    requires Step(s)
    ensures Step(Evens(s)) && Step(Odds(s))
  {
    var e, o := Evens(s), Odds(s);
    forall i, j | 0 <= i < j < |e| ensures e[j] <= e[i] <= e[j] + 1 {
      assert e[i] == s[2 * i] && e[j] == s[2 * j];
    }
    forall i, j | 0 <= i < j < |o| ensures o[j] <= o[i] <= o[j] + 1 {
      assert o[i] == s[2 * i + 1] && o[j] == s[2 * j + 1];
    }
  }

  // ----- the merger and bitonic theorems -----

  /** `Merger[2k]` conserves tokens and turns two step inputs into a step
      output. */
  lemma {:induction false} MergerStep(x: seq<nat>, y: seq<nat>)
    requires |x| == |y| && IsPow2(|x|)
    requires Step(x) && Step(y)
    ensures Sum(MergeNetCounts(x, y)) == Sum(x) + Sum(y)
    ensures Step(MergeNetCounts(x, y))
    decreases |x|
  {
    if |x| + |y| == 2 {
      MergeCountsSum(x, y);
      var r := MergeCounts(x, y);
      assert r[0] == Half(x[0] + y[0], false) && r[1] == Half(x[0] + y[0], true);
    } else {
      var xe, xo, ye, yo := Evens(x), Odds(x), Evens(y), Odds(y);
      StepEvensOdds(x);
      StepEvensOdds(y);
      MergerStep(xe, yo);
      MergerStep(xo, ye);
      var z, z' := MergeNetCounts(xe, yo), MergeNetCounts(xo, ye);
      EvensOddsStepSum(x);
      EvensOddsStepSum(y);
      EvensOddsSum(x);
      EvensOddsSum(y);
      MergeCountsSum(z, z');
      MergeCountsStep(z, z');
    }
  }

  /** The step property of `Bitonic[w]`, with conservation of tokens. */
  lemma {:induction false} BitonicStep(c: seq<nat>)
    requires IsPow2(|c|)
    ensures Sum(BitonicCounts(c)) == Sum(c)
    ensures Step(BitonicCounts(c))
    decreases |c|
  {
    if |c| > 1 {
      var h := |c| / 2;
      Pow2Halves(|c|);
      var a, b := c[..h], c[h..];
      assert |a| == h && |b| == h;
      BitonicStep(a);
      BitonicStep(b);
      BitonicJoin(c, h, BitonicCounts(a), BitonicCounts(b));
    }
  }

  /** Once both halves' counts have the step property and keep their
      tokens, so do the counts of the whole. */
  lemma BitonicJoin(c: seq<nat>, h: nat, x: seq<nat>, y: seq<nat>)
    requires IsPow2(|c|) && |c| == 2 * h && 1 <= h && IsPow2(h)
    requires x == BitonicCounts(c[..h]) && y == BitonicCounts(c[h..])
    requires Step(x) && Step(y) && Sum(x) == Sum(c[..h]) && Sum(y) == Sum(c[h..])
    ensures Sum(BitonicCounts(c)) == Sum(c)
    ensures Step(BitonicCounts(c))
  {
    BitonicUnfold(c, h, x, y);
    MergerStep(x, y);
    SumSplit(c, h);
  }

  /** One level of `BitonicCounts`: the merger of the two halves' counts. */
  lemma BitonicUnfold(c: seq<nat>, h: nat, x: seq<nat>, y: seq<nat>)
    requires IsPow2(|c|) && |c| == 2 * h && 1 <= h && IsPow2(h)
    requires x == BitonicCounts(c[..h]) && y == BitonicCounts(c[h..])
    ensures |x| == |y| == h && IsPow2(|x|)
    ensures BitonicCounts(c) == MergeNetCounts(x, y)
  {
    assert |c| / 2 == h;
  }

  /** Splitting a sequence at any point splits its sum. */
  lemma SumSplit(c: seq<nat>, h: nat)
    requires h <= |c|
    ensures Sum(c) == Sum(c[..h]) + Sum(c[h..])
  {
    assert c == c[..h] + c[h..];
    SumAppend(c[..h], c[h..]);
  }

  // ----- where the next token goes -----

  /** When one more token turns the step sequence `y` into the step
      sequence `y[j := y[j] + 1]`, the wires before `j` are one ahead of it
      and the others level with it, so `Sum(y) == j + |y| * y[j]`: the token
      is the `Sum(y)`-th to leave, and `j == Sum(y) % |y|`. */
  lemma NextOutput(y: seq<nat>, j: nat)
    requires j < |y|
    requires Step(y) && Step(y[j := y[j] + 1])
    ensures Sum(y) == j + |y| * y[j]
    ensures j == Sum(y) % |y|
  {
    var y' := y[j := y[j] + 1];
    forall i | 0 <= i < |y| ensures y[i] == if i < j then y[j] + 1 else y[j] {
      if i < j {
        assert y'[i] == y[i] && y'[j] == y[j] + 1;
      } else if i > j {
        assert y'[i] == y[i] && y'[j] == y[j] + 1;
      }
    }
    LevelsSum(y, j, y[j]);
    DivMod(Sum(y), |y|, y[j], j);
  }

  lemma {:induction false} LevelsSum(y: seq<nat>, j: nat, v: nat)
    requires j <= |y|
    requires forall i :: 0 <= i < |y| ==> y[i] == if i < j then v + 1 else v
    ensures Sum(y) == j + |y| * v
    decreases |y|
  {
    if y != [] {
      LevelsSum(y[1..], if j == 0 then 0 else j - 1, v);
    }
  }

  /** Uniqueness of Euclidean division: `n == r + w * q` with `r < w` fixes
      the remainder. */
  lemma DivMod(n: nat, w: nat, q: nat, r: nat)
    requires r < w && n == r + w * q
    ensures r == n % w
  {
    var q', r' := n / w, n % w;
    assert n == w * q' + r' && 0 <= r' < w;
    var d := q - q';
    assert w * d == r' - r by { assert w * q - w * q' == w * (q - q'); }
    if d != 0 {
      assert false;
    }
  }
}
