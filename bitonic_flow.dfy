/** Token flow through the arena of a bitonic network. Once no token is in
    flight, how many tokens each balancer has seen follows from how many
    entered each input: a balancer's count is what its two incoming segments
    carried, and a port carries `Half` of its balancer's count. This module
    computes those quiescent counts over the arena (`Totals`) and proves that
    on the arena `construct_bitonic` builds they agree with the recursive
    count functions of `Balancing`, so the step property proved there holds
    of the real network. */
module BitonicFlow {
  import opened Balancing
  import opened BitonicWires

  /** Tokens carried by segment `s`, given the balancer counts `t` and the
      tokens `inputs[i]` injected at input `i`. */
  function Carried(t: seq<nat>, inputs: seq<nat>, s: Source): nat
  {
    match s
    case Input(v) => if v < |inputs| then inputs[v] else 0
    case Out(h) => if h.balancer < |t| then Half(t[h.balancer], h.up) else 0
  }

  /** The quiescent token count of every balancer, in allocation order. */
  function Totals(feeds: seq<Feed>, inputs: seq<nat>): (t: seq<nat>)
    ensures |t| == |feeds|
  {
    if feeds == [] then []
    else
      var t := Totals(feeds[..|feeds| - 1], inputs);
      var f := feeds[|feeds| - 1];
      t + [Carried(t, inputs, f.upper) + Carried(t, inputs, f.lower)]
  }

  /** The tokens that have left along the segment each wire ends in. */
  function WireCounts(a: Arena, inputs: seq<nat>, ws: seq<Wire>): (r: seq<nat>)
    ensures |r| == |ws|
  {
    var t := Totals(a.feeds, inputs);
    seq(|ws|, k requires 0 <= k < |ws| => Carried(t, inputs, WireSource(ws[k])))
  }

  // ----- Totals under appending -----

  /** Allocating more balancers does not change the counts of the existing
      ones. */
  lemma {:induction false} TotalsPrefix(f: seq<Feed>, g: seq<Feed>, inputs: seq<nat>)
    ensures Totals(f + g, inputs)[..|f|] == Totals(f, inputs)
    decreases |g|
  {
    if g != [] {
      var g' := g[..|g| - 1];
      assert (f + g)[..|f + g| - 1] == f + g';
      TotalsPrefix(f, g', inputs);
    } else {
      assert f + g == f;
    }
  }

  /** The counts of the first `n` balancers depend on those balancers
      alone. */
  lemma TotalsTake(f: seq<Feed>, inputs: seq<nat>, n: nat)
    requires n <= |f|
    ensures Totals(f, inputs)[..n] == Totals(f[..n], inputs)
  {
    assert f[..n] + f[n..] == f;
    TotalsPrefix(f[..n], f[n..], inputs);
  }

  /** A new balancer fed only by old segments counts what they carry. */
  lemma {:induction false} TotalsAppend(f: seq<Feed>, g: seq<Feed>, inputs: seq<nat>)
    requires forall i, lower :: 0 <= i < |g| && FeedSource(g[i], lower).Out? ==> FeedSource(g[i], lower).hop.balancer < |f|
    ensures forall i :: 0 <= i < |g| ==>
      Totals(f + g, inputs)[|f| + i] == Carried(Totals(f, inputs), inputs, g[i].upper) + Carried(Totals(f, inputs), inputs, g[i].lower)
    decreases |g|
  {
    if g != [] {
      var g' := g[..|g| - 1];
      assert (f + g)[..|f + g| - 1] == f + g';
      TotalsAppend(f, g', inputs);
      TotalsPrefix(f, g', inputs);
      var t, t' := Totals(f, inputs), Totals(f + g', inputs);
      var last := g[|g| - 1];
      assert Carried(t', inputs, last.upper) == Carried(t, inputs, last.upper) by {
        assert FeedSource(last, false) == last.upper;
      }
      assert Carried(t', inputs, last.lower) == Carried(t, inputs, last.lower) by {
        assert FeedSource(last, true) == last.lower;
      }
    }
  }

  /** Wire counts only depend on the balancers the wires end at. */
  lemma WireCountsGrow(a: Arena, a': Arena, inputs: seq<nat>, ws: seq<Wire>)
    requires a.feeds <= a'.feeds && Bounded(a, ws)
    ensures WireCounts(a', inputs, ws) == WireCounts(a, inputs, ws)
  {
    var g := a'.feeds[|a.feeds|..];
    assert a'.feeds == a.feeds + g;
    TotalsPrefix(a.feeds, g, inputs);
  }

  // ----- the builders count like the count functions -----

  /** The upper and lower wires, as pairs, in one list of feeds. */
  lemma PairFeedsBounded(a: Arena, upper: seq<Wire>, lower: seq<Wire>)
    requires Bounded(a, upper) && Bounded(a, lower)
    ensures var g := PairFeeds(upper, lower);
            forall i, lower' :: 0 <= i < |g| && FeedSource(g[i], lower').Out? ==> FeedSource(g[i], lower').hop.balancer < |a.feeds|
  {
  }

  /** Through `merge_wires`, output `2i` carries `Half(x[i] + y[i], false)`
      and output `2i+1` carries `Half(x[i] + y[i], true)`, where `x` and `y`
      are what the paired wires carried: the network-level `MergeCounts`. */
  lemma MergeWiresCounts(a: Arena, upper: seq<Wire>, lower: seq<Wire>, inputs: seq<nat>)
    requires |a.nodes| == |a.feeds| && |upper| == |lower|
    requires Bounded(a, upper) && Bounded(a, lower)
    ensures var r := MergeWires(a, upper, lower);
            WireCounts(r.0, inputs, r.1) == MergeCounts(WireCounts(a, inputs, upper), WireCounts(a, inputs, lower))
  {
    var r := MergeWires(a, upper, lower);
    var x, y := WireCounts(a, inputs, upper), WireCounts(a, inputs, lower);
    var m, c := MergeCounts(x, y), WireCounts(r.0, inputs, r.1);
    forall p | 0 <= p < |c| ensures c[p] == m[p] {
      MergeWiresCountAt(a, upper, lower, inputs, p);
    }
  }

  lemma MergeWiresCountAt(a: Arena, upper: seq<Wire>, lower: seq<Wire>, inputs: seq<nat>, p: nat)
    requires |a.nodes| == |a.feeds| && |upper| == |lower| && p < 2 * |upper|
    requires Bounded(a, upper) && Bounded(a, lower)
    ensures var r := MergeWires(a, upper, lower);
            var x, y := WireCounts(a, inputs, upper), WireCounts(a, inputs, lower);
            && WireSource(r.1[p]) == Out(Hop(|a.nodes| + p / 2, p % 2 == 1))
            && WireCounts(r.0, inputs, r.1)[p] == Half(x[p / 2] + y[p / 2], p % 2 == 1)
  {
    var r := MergeWires(a, upper, lower);
    var b, i := |a.nodes|, p / 2;
    MergeWiresWireAt(a, upper, lower, p);
    assert WireSource(r.1[p]) == Out(Hop(b + i, p % 2 == 1));
    NewBalancerCount(a, upper, lower, inputs, i);
  }

  /** The `i`-th balancer `merge_wires` allocates counts what its pair
      carried. */
  lemma NewBalancerCount(a: Arena, upper: seq<Wire>, lower: seq<Wire>, inputs: seq<nat>, i: nat)
    requires |a.nodes| == |a.feeds| && |upper| == |lower| && i < |upper|
    requires Bounded(a, upper) && Bounded(a, lower)
    ensures var r := MergeWires(a, upper, lower);
            |a.feeds| + i < |r.0.feeds| &&
            Totals(r.0.feeds, inputs)[|a.feeds| + i]
              == WireCounts(a, inputs, upper)[i] + WireCounts(a, inputs, lower)[i]
  {
    MergeWiresArena(a, upper, lower);
    PairCounts(a, MergeWires(a, upper, lower).0.feeds, upper, lower, inputs, i);
  }

  /** The balancer fed by pair `i`, appended after the arena's own, counts
      what the two wires of the pair carry. */
  lemma PairCounts(a: Arena, feeds: seq<Feed>, upper: seq<Wire>, lower: seq<Wire>, inputs: seq<nat>, i: nat)
    requires |upper| == |lower| && i < |upper|
    requires Bounded(a, upper) && Bounded(a, lower)
    requires feeds == a.feeds + PairFeeds(upper, lower)
    ensures |a.feeds| + i < |feeds|
    ensures Totals(feeds, inputs)[|a.feeds| + i]
         == WireCounts(a, inputs, upper)[i] + WireCounts(a, inputs, lower)[i]
  {
    var t := Totals(a.feeds, inputs);
    assert WireCounts(a, inputs, upper)[i] == Carried(t, inputs, WireSource(upper[i]));
    assert WireCounts(a, inputs, lower)[i] == Carried(t, inputs, WireSource(lower[i]));
    PairTotals(a, feeds, upper, lower, inputs, i);
  }

  lemma PairTotals(a: Arena, feeds: seq<Feed>, upper: seq<Wire>, lower: seq<Wire>, inputs: seq<nat>, i: nat)
    requires |upper| == |lower| && i < |upper|
    requires Bounded(a, upper) && Bounded(a, lower)
    requires feeds == a.feeds + PairFeeds(upper, lower)
    ensures |a.feeds| + i < |feeds|
    ensures var t := Totals(a.feeds, inputs);
            Totals(feeds, inputs)[|a.feeds| + i]
              == Carried(t, inputs, WireSource(upper[i])) + Carried(t, inputs, WireSource(lower[i]))
  {
    var g := PairFeeds(upper, lower);
    PairFeedsBounded(a, upper, lower);
    TotalsAppend(a.feeds, g, inputs);
    assert g[i].upper == WireSource(upper[i]) && g[i].lower == WireSource(lower[i]);
  }

  /** Counting commutes with taking the even and the odd wires. */
  lemma SplitCounts(a: Arena, inputs: seq<nat>, ws: seq<Wire>)
    requires Bounded(a, ws)
    ensures WireCounts(a, inputs, Evens(ws)) == Evens(WireCounts(a, inputs, ws))
    ensures WireCounts(a, inputs, Odds(ws)) == Odds(WireCounts(a, inputs, ws))
    ensures Bounded(a, Evens(ws)) && Bounded(a, Odds(ws))
  {
    var c := WireCounts(a, inputs, ws);
    var e, o := Evens(ws), Odds(ws);
    forall k | 0 <= k < |e| ensures WireCounts(a, inputs, e)[k] == Evens(c)[k] && (WireSource(e[k]).Out? ==> WireSource(e[k]).hop.balancer < |a.feeds|) {
      assert e[k] == ws[2 * k];
    }
    forall k | 0 <= k < |o| ensures WireCounts(a, inputs, o)[k] == Odds(c)[k] && (WireSource(o[k]).Out? ==> WireSource(o[k]).hop.balancer < |a.feeds|) {
      assert o[k] == ws[2 * k + 1];
    }
  }

  /** Through `merge_networks` the wires carry what `MergeNetCounts` says. */
  lemma {:induction false} MergeNetworksCounts(a: Arena, upper: seq<Wire>, lower: seq<Wire>, inputs: seq<nat>)
    requires |a.nodes| == |a.feeds| && |upper| == |lower| && IsPow2(|upper|)
    requires Bounded(a, upper) && Bounded(a, lower)
    ensures var r := MergeNetworks(a, upper, lower);
            WireCounts(r.0, inputs, r.1) == MergeNetCounts(WireCounts(a, inputs, upper), WireCounts(a, inputs, lower))
    decreases |upper|
  {
    var x, y := WireCounts(a, inputs, upper), WireCounts(a, inputs, lower);
    if |upper| + |lower| == 2 {
      MergeWiresCounts(a, upper, lower, inputs);
    } else {
      MergeNetworksStep(a, upper, lower);
      var ue, uo, le, lo := Evens(upper), Odds(upper), Evens(lower), Odds(lower);
      SplitCounts(a, inputs, upper);
      SplitCounts(a, inputs, lower);
      MergeNetworksCounts(a, ue, lo, inputs);
      MergeNetworksGrows(a, ue, lo);
      var top := MergeNetworks(a, ue, lo);
      WireCountsGrow(a, top.0, inputs, uo);
      WireCountsGrow(a, top.0, inputs, le);
      BoundedGrow(a, top.0, uo);
      BoundedGrow(a, top.0, le);
      MergeNetworksCounts(top.0, uo, le, inputs);
      MergeNetworksGrows(top.0, uo, le);
      var bottom := MergeNetworks(top.0, uo, le);
      WireCountsGrow(top.0, bottom.0, inputs, top.1);
      BoundedGrow(top.0, bottom.0, top.1);
      MergeWiresCounts(bottom.0, top.1, bottom.1, inputs);
    }
  }

  /** The wires `ws` carry what `BitonicCounts` says of the tokens
      injected at inputs `index .. index + width`, whatever was injected. */
  ghost predicate CountsLike(a: Arena, ws: seq<Wire>, index: nat, width: nat)
    requires IsPow2(width)
  {
    forall inputs: seq<nat> {:trigger WireCounts(a, inputs, ws)} :: index + width <= |inputs| ==>
      WireCounts(a, inputs, ws) == BitonicCounts(inputs[index..index + width])
  }

  /** Merging two halves that count like the two halves of a range counts
      like the whole range. */
  lemma MergeHalvesCounts(upper: (Arena, seq<Wire>), lower: (Arena, seq<Wire>), index: nat, width: nat)
    requires IsPow2(width) && width > 1 && IsPow2(width / 2)
    requires |upper.0.nodes| == |upper.0.feeds| && Bounded(upper.0, upper.1)
    requires upper.0.feeds <= lower.0.feeds && |lower.0.nodes| == |lower.0.feeds| && Bounded(lower.0, lower.1)
    requires |upper.1| == |lower.1| == width / 2
    requires CountsLike(upper.0, upper.1, index, width / 2)
    requires CountsLike(lower.0, lower.1, index + width / 2, width / 2)
    ensures var r := MergeNetworks(lower.0, upper.1, lower.1);
            CountsLike(r.0, r.1, index, width)
  {
    Pow2Halves(width);
    var r := MergeNetworks(lower.0, upper.1, lower.1);
    forall inputs: seq<nat> | index + width <= |inputs|
      ensures WireCounts(r.0, inputs, r.1) == BitonicCounts(inputs[index..index + width])
    {
      HalvesCount(upper, lower, inputs, index, width);
    }
  }

  lemma HalvesCount(upper: (Arena, seq<Wire>), lower: (Arena, seq<Wire>), inputs: seq<nat>, index: nat, width: nat)
    requires IsPow2(width) && width > 1 && IsPow2(width / 2) && index + width <= |inputs|
    requires |upper.0.nodes| == |upper.0.feeds| && Bounded(upper.0, upper.1)
    requires upper.0.feeds <= lower.0.feeds && |lower.0.nodes| == |lower.0.feeds| && Bounded(lower.0, lower.1)
    requires |upper.1| == |lower.1| == width / 2
    requires CountsLike(upper.0, upper.1, index, width / 2)
    requires CountsLike(lower.0, lower.1, index + width / 2, width / 2)
    ensures var r := MergeNetworks(lower.0, upper.1, lower.1);
            WireCounts(r.0, inputs, r.1) == BitonicCounts(inputs[index..index + width])
  {
    Pow2Halves(width);
    var c := inputs[index..index + width];
    assert c[..width / 2] == inputs[index..index + width / 2];
    assert c[width / 2..] == inputs[index + width / 2..index + width / 2 + width / 2];
    CountsMerge(upper, lower, inputs, c);
  }

  /** Merging two halves that count like `BitonicCounts` of the two halves
      of `c` counts like `BitonicCounts(c)`. */
  lemma CountsMerge(upper: (Arena, seq<Wire>), lower: (Arena, seq<Wire>), inputs: seq<nat>, c: seq<nat>)
    requires IsPow2(|c|) && |c| > 1
    requires |upper.0.nodes| == |upper.0.feeds| && Bounded(upper.0, upper.1)
    requires upper.0.feeds <= lower.0.feeds && |lower.0.nodes| == |lower.0.feeds| && Bounded(lower.0, lower.1)
    requires |upper.1| == |lower.1| == |c| / 2
    requires WireCounts(upper.0, inputs, upper.1) == BitonicCounts(c[..|c| / 2])
    requires WireCounts(lower.0, inputs, lower.1) == BitonicCounts(c[|c| / 2..])
    ensures var r := MergeNetworks(lower.0, upper.1, lower.1);
            WireCounts(r.0, inputs, r.1) == BitonicCounts(c)
  {
    Pow2Halves(|c|);
    WireCountsGrow(upper.0, lower.0, inputs, upper.1);
    BoundedGrow(upper.0, lower.0, upper.1);
    MergeNetworksCounts(lower.0, upper.1, lower.1, inputs);
  }


}
