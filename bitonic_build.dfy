/** `construct_bitonic`, with everything the rest of the model relies on
    about the arena it builds. */
module BitonicBuild {
  import opened Balancing
  import opened BitonicWires
  import opened BitonicFlow
  import opened BitonicLinks

  /** How many balancers every wire of `Bitonic[w]` passes: those of
      `Bitonic[w/2]` and then the `log2(w)` layers of `Merger[w]`. */
  function BitonicDepth(w: nat): nat
    requires IsPow2(w)
    decreases w
  {
    if w == 1 then 0 else BitonicDepth(w / 2) + Log2(w / 2) + 1
  }

  /** How many balancers `Bitonic[w]` allocates. */
  function BitonicSize(w: nat): nat
    requires IsPow2(w)
    decreases w
  {
    if w == 1 then 0 else 2 * BitonicSize(w / 2) + MergerSize(w / 2)
  }

  /** Every segment is used once: the feeds added and the wires returned
      take each new balancer port and each input `index .. index + width`
      exactly once, and nothing else. */
  ghost predicate Balanced(a: Arena, r: Arena, ws: seq<Wire>, index: nat, width: nat)
  {
    forall src: Source {:trigger Uses(r.feeds, src)} ::
      Uses(r.feeds, src) + Count(Sources(ws), src)
        == Uses(a.feeds, src) + NewPort(src, |a.nodes|, |r.nodes|) + InRange(src, index, width)
  }

  /** The input indices of `ws` are `index .. index + width`, each once. */
  ghost predicate Spans(ws: seq<Wire>, index: nat, width: nat)
  {
    forall v: nat {:trigger Count(Values(ws), v)} ::
      Count(Values(ws), v) == if index <= v < index + width then 1 else 0
  }

  /** Some balancer takes inputs `v` and `v + 1` together. */
  predicate PairFed(f: seq<Feed>, v: nat)
    decreases |f|
  {
    f != [] && (f[|f| - 1] == Feed(Input(v), Input(v + 1)) || PairFed(f[..|f| - 1], v))
  }

  /** The balancer of a `PairFed` pair. */
  lemma {:induction false} PairFedAt(f: seq<Feed>, v: nat) returns (c: nat)
    requires PairFed(f, v)
    ensures c < |f| && f[c] == Feed(Input(v), Input(v + 1))
    decreases |f|
  {
    if f[|f| - 1] == Feed(Input(v), Input(v + 1)) {
      c := |f| - 1;
    } else {
      c := PairFedAt(f[..|f| - 1], v);
    }
  }

  lemma {:induction false} PairFedGrow(f: seq<Feed>, t: seq<Feed>, v: nat)
    requires f <= t && PairFed(f, v)
    ensures PairFed(t, v)
    decreases |t|
  {
    if |t| > |f| {
      assert f <= t[..|t| - 1];
      PairFedGrow(f, t[..|t| - 1], v);
    } else {
      assert f == t;
    }
  }

  /** For each `i < n`, inputs `index + 2i` and `index + 2i + 1` meet in one
      balancer. */
  predicate PairsFed(f: seq<Feed>, index: nat, n: nat)
    decreases n
  {
    n == 0 || (PairFed(f, index) && PairsFed(f, index + 2, n - 1))
  }

  lemma {:induction false} PairsFedAt(f: seq<Feed>, index: nat, n: nat, i: nat)
    requires PairsFed(f, index, n) && i < n
    ensures PairFed(f, index + 2 * i)
    decreases n
  {
    if i > 0 {
      PairsFedAt(f, index + 2, n - 1, i - 1);
    }
  }

  /** An arena whose ports point where its feeds say. */
  predicate WellFormed(a: Arena)
  {
    |a.nodes| == |a.feeds| && PortsAre(a) && FromBefore(a.feeds)
  }

  /** What `construct_bitonic(width, index)` builds on arena `a`: `width`
      wires of equal depth carrying inputs `index .. index + width`, adjacent
      inputs paired in the first layer, every new segment used once, the
      quiescent counts of `Bitonic[width]`, and ports that point where the
      feeds say. */
  ghost predicate Built(a: Arena, r: (Arena, seq<Wire>), index: nat, width: nat)
    requires IsPow2(width)
  {
    && |r.1| == width
    && (width == 1 ==> r == (a, [Wire([], index)]))
    && a.feeds <= r.0.feeds
    && PairsFed(r.0.feeds, index, width / 2)
    && |r.0.nodes| == |a.nodes| + BitonicSize(width)
    && Depth(r.1, BitonicDepth(width))
    && Spans(r.1, index, width)
    && Balanced(a, r.0, r.1, index, width)
    && (|a.nodes| == |a.feeds| ==>
          && Bounded(r.0, r.1) && |r.0.nodes| == |r.0.feeds|
          && CountsLike(r.0, r.1, index, width)
          && FirstHops(r.0, r.1))
    && (WellFormed(a) ==> WellFormed(r.0))
  }

  /** `construct_bitonic(width, wire_index)`: one bare wire when `width` is
      one, otherwise two half-width bitonic networks merged. */
  function ConstructBitonic(a: Arena, width: nat, index: nat): (r: (Arena, seq<Wire>))
    requires IsPow2(width)
    ensures |r.1| == width
    ensures Built(a, r, index, width)
    decreases width
  {
    if width == 1 then
      BaseFacts(a, index);
      (a, [Wire([], index)])
    else
      Pow2Halves(width);
      var upper := ConstructBitonic(a, width / 2, index);
      var lower := ConstructBitonic(upper.0, width / 2, index + width / 2);
      MergeHalves(a, upper, lower, index, width);
      MergeNetworks(lower.0, upper.1, lower.1)
  }

  /** The step of `construct_bitonic`: two built halves, merged, are built. */
  lemma MergeHalves(a: Arena, upper: (Arena, seq<Wire>), lower: (Arena, seq<Wire>), index: nat, width: nat)
    requires IsPow2(width) && width > 1 && IsPow2(width / 2)
    requires Built(a, upper, index, width / 2) && Built(upper.0, lower, index + width / 2, width / 2)
    ensures |upper.1| == |lower.1| == width / 2
    ensures Built(a, MergeNetworks(lower.0, upper.1, lower.1), index, width)
  {
    MergeNetworksGrows(lower.0, upper.1, lower.1);
    var r := MergeNetworks(lower.0, upper.1, lower.1);
    PrefixTrans(a.feeds, upper.0.feeds, lower.0.feeds);
    PrefixTrans(a.feeds, lower.0.feeds, r.0.feeds);
    MergeHalvesShape(a, upper, lower, index, width);
    MergeHalvesBalanced(a, upper, lower, index, width);
    MergeHalvesPairs(upper, lower, index, width);
    if |a.nodes| == |a.feeds| {
      MergeHalvesCounts(upper, lower, index, width);
      MergeHalvesPorts(a, upper, lower);
    }
  }

  /** What a single bare wire satisfies. */
  lemma BaseFacts(a: Arena, index: nat)
    ensures Built(a, (a, [Wire([], index)]), index, 1)
  {
    var ws := [Wire([], index)];
    assert Sources(ws) == [Input(index)] && Values(ws) == [index];
    forall src: Source
      ensures Uses(a.feeds, src) + Count(Sources(ws), src)
           == Uses(a.feeds, src) + NewPort(src, |a.nodes|, |a.nodes|) + InRange(src, index, 1)
    {
      assert [Input(index)][1..] == [];
    }
    forall v: nat ensures Count(Values(ws), v) == if index <= v < index + 1 then 1 else 0 {
      assert [index][1..] == [];
    }
    forall inputs: seq<nat> | index + 1 <= |inputs|
      ensures WireCounts(a, inputs, ws) == inputs[index..index + 1] { }
  }

  /** Depth, size and input indices of two merged halves. */
  lemma MergeHalvesShape(a: Arena, upper: (Arena, seq<Wire>), lower: (Arena, seq<Wire>), index: nat, width: nat)
    requires IsPow2(width) && width > 1 && IsPow2(width / 2)
    requires |upper.1| == |lower.1| == width / 2
    requires |upper.0.nodes| == |a.nodes| + BitonicSize(width / 2)
    requires |lower.0.nodes| == |upper.0.nodes| + BitonicSize(width / 2)
    requires Depth(upper.1, BitonicDepth(width / 2)) && Depth(lower.1, BitonicDepth(width / 2))
    requires Spans(upper.1, index, width / 2) && Spans(lower.1, index + width / 2, width / 2)
    ensures var r := MergeNetworks(lower.0, upper.1, lower.1);
            && |r.0.nodes| == |a.nodes| + BitonicSize(width)
            && Depth(r.1, BitonicDepth(width))
            && Spans(r.1, index, width)
  {
    MergeHalvesSize(a, upper, lower, width);
    MergeHalvesDepth(upper.1, lower.1, lower.0, width);
    MergeNetworksKeeps(lower.0, upper.1, lower.1);
    Pow2Halves(width);
    SpansJoin(upper.1, lower.1, MergeNetworks(lower.0, upper.1, lower.1).1, index, width / 2, width);
  }

  lemma MergeHalvesSize(a: Arena, upper: (Arena, seq<Wire>), lower: (Arena, seq<Wire>), width: nat)
    requires IsPow2(width) && width > 1 && IsPow2(width / 2)
    requires |upper.1| == |lower.1| == width / 2
    requires |upper.0.nodes| == |a.nodes| + BitonicSize(width / 2)
    requires |lower.0.nodes| == |upper.0.nodes| + BitonicSize(width / 2)
    ensures |MergeNetworks(lower.0, upper.1, lower.1).0.nodes| == |a.nodes| + BitonicSize(width)
  {
    MergeNetworksSize(lower.0, upper.1, lower.1);
  }

  lemma MergeHalvesDepth(upper: seq<Wire>, lower: seq<Wire>, b: Arena, width: nat)
    requires IsPow2(width) && width > 1 && IsPow2(width / 2)
    requires |upper| == |lower| == width / 2
    requires Depth(upper, BitonicDepth(width / 2)) && Depth(lower, BitonicDepth(width / 2))
    ensures Depth(MergeNetworks(b, upper, lower).1, BitonicDepth(width))
  {
    MergeNetworksDepth(b, upper, lower, BitonicDepth(width / 2));
  }

  /** `merge_networks` passes on the input indices of its wires. */
  ghost predicate Keeps(upper: seq<Wire>, lower: seq<Wire>, ws: seq<Wire>)
  {
    forall v: nat {:trigger Count(Values(ws), v)} ::
      Count(Values(ws), v) == Count(Values(upper), v) + Count(Values(lower), v)
  }

  lemma MergeNetworksKeeps(a: Arena, upper: seq<Wire>, lower: seq<Wire>)
    requires |upper| == |lower| && IsPow2(|upper|)
    ensures Keeps(upper, lower, MergeNetworks(a, upper, lower).1)
  {
    forall v: nat ensures Count(Values(MergeNetworks(a, upper, lower).1), v) == Count(Values(upper), v) + Count(Values(lower), v) {
      MergeNetworksValues(a, upper, lower, v);
    }
  }

  lemma SpansJoin(upper: seq<Wire>, lower: seq<Wire>, ws: seq<Wire>, index: nat, h: nat, width: nat)
    requires width == h + h && Keeps(upper, lower, ws)
    requires Spans(upper, index, h) && Spans(lower, index + h, h)
    ensures Spans(ws, index, width)
  {
    forall v: nat ensures Count(Values(ws), v) == if index <= v < index + width then 1 else 0 {
      assert Count(Values(ws), v) == Count(Values(upper), v) + Count(Values(lower), v);
    }
  }

  /** The balance of two merged halves. */
  lemma MergeHalvesBalanced(a: Arena, upper: (Arena, seq<Wire>), lower: (Arena, seq<Wire>), index: nat, width: nat)
    requires IsPow2(width) && width > 1 && IsPow2(width / 2)
    requires |upper.1| == |lower.1| == width / 2
    requires |a.nodes| <= |upper.0.nodes| <= |lower.0.nodes|
    requires Balanced(a, upper.0, upper.1, index, width / 2)
    requires Balanced(upper.0, lower.0, lower.1, index + width / 2, width / 2)
    ensures var r := MergeNetworks(lower.0, upper.1, lower.1);
            Balanced(a, r.0, r.1, index, width)
  {
    MergeNetworksNodes(lower.0, upper.1, lower.1);
    MergeNetworksPasses(lower.0, upper.1, lower.1);
    var r := MergeNetworks(lower.0, upper.1, lower.1);
    Pow2Halves(width);
    BalancedJoin(a, upper.0, lower.0, r.0, upper.1, lower.1, r.1, index, width / 2, width);
  }

  /** `merge_networks` uses up the segments its wires end in and leaves its
      own balancers' ports for the wires it returns. */
  ghost predicate Passes(a: Arena, r: Arena, upper: seq<Wire>, lower: seq<Wire>, ws: seq<Wire>)
  {
    forall src: Source {:trigger Uses(r.feeds, src)} ::
      Uses(r.feeds, src) + Count(Sources(ws), src)
        == Uses(a.feeds, src) + Count(Sources(upper), src) + Count(Sources(lower), src) + NewPort(src, |a.nodes|, |r.nodes|)
  }

  lemma MergeNetworksPasses(a: Arena, upper: seq<Wire>, lower: seq<Wire>)
    requires |upper| == |lower| && IsPow2(|upper|)
    ensures Passes(a, MergeNetworks(a, upper, lower).0, upper, lower, MergeNetworks(a, upper, lower).1)
  {
    var r := MergeNetworks(a, upper, lower);
    forall src: Source
      ensures Uses(r.0.feeds, src) + Count(Sources(r.1), src)
           == Uses(a.feeds, src) + Count(Sources(upper), src) + Count(Sources(lower), src) + NewPort(src, |a.nodes|, |r.0.nodes|)
    {
      MergeNetworksUses(a, upper, lower, src);
    }
  }

  lemma BalancedJoin(a: Arena, m: Arena, l: Arena, r: Arena, upper: seq<Wire>, lower: seq<Wire>, ws: seq<Wire>, index: nat, h: nat, width: nat)
    requires width == h + h && |a.nodes| <= |m.nodes| <= |l.nodes| <= |r.nodes|
    requires Balanced(a, m, upper, index, h) && Balanced(m, l, lower, index + h, h)
    requires Passes(l, r, upper, lower, ws)
    ensures Balanced(a, r, ws, index, width)
  {
    forall src: Source
      ensures Uses(r.feeds, src) + Count(Sources(ws), src)
           == Uses(a.feeds, src) + NewPort(src, |a.nodes|, |r.nodes|) + InRange(src, index, width)
    {
      assert Uses(r.feeds, src) + Count(Sources(ws), src)
          == Uses(l.feeds, src) + Count(Sources(upper), src) + Count(Sources(lower), src) + NewPort(src, |l.nodes|, |r.nodes|);
      assert Uses(m.feeds, src) + Count(Sources(upper), src)
          == Uses(a.feeds, src) + NewPort(src, |a.nodes|, |m.nodes|) + InRange(src, index, h);
      assert Uses(l.feeds, src) + Count(Sources(lower), src)
          == Uses(m.feeds, src) + NewPort(src, |m.nodes|, |l.nodes|) + InRange(src, index + h, h);
      BalanceSum(src, |a.nodes|, |m.nodes|, |l.nodes|, |r.nodes|, index, h);
    }
  }

  lemma BalanceSum(src: Source, n0: nat, n1: nat, n2: nat, n3: nat, index: nat, half: nat)
    requires n0 <= n1 <= n2 <= n3
    ensures NewPort(src, n0, n1) + NewPort(src, n1, n2) + NewPort(src, n2, n3) == NewPort(src, n0, n3)
    ensures InRange(src, index, half) + InRange(src, index + half, half) == InRange(src, index, half + half)
  {
  }

  /** The input pairs of two merged halves. */
  lemma MergeHalvesPairs(upper: (Arena, seq<Wire>), lower: (Arena, seq<Wire>), index: nat, width: nat)
    requires IsPow2(width) && width > 1 && |upper.1| == |lower.1| == width / 2 && IsPow2(width / 2)
    requires upper.0.feeds <= lower.0.feeds
    requires width == 2 ==> upper.1 == [Wire([], index)] && lower.1 == [Wire([], index + 1)]
    requires PairsFed(upper.0.feeds, index, width / 2 / 2) && PairsFed(lower.0.feeds, index + width / 2, width / 2 / 2)
    ensures PairsFed(MergeNetworks(lower.0, upper.1, lower.1).0.feeds, index, width / 2)
  {
    if width == 2 {
      PairBase(lower.0, index);
    } else {
      MergeNetworksGrows(lower.0, upper.1, lower.1);
      PairsMore(upper.0.feeds, lower.0.feeds, MergeNetworks(lower.0, upper.1, lower.1).0.feeds, index, width);
    }
  }

  lemma PairsMore(f: seq<Feed>, g: seq<Feed>, t: seq<Feed>, index: nat, width: nat)
    requires IsPow2(width) && width > 2 && f <= g && g <= t
    requires PairsFed(f, index, width / 2 / 2) && PairsFed(g, index + width / 2, width / 2 / 2)
    ensures PairsFed(t, index, width / 2)
  {
    Pow2Halves(width);
    Pow2Halves(width / 2);
    PairsHalves(f, g, t, index, width / 2);
  }

  lemma PairsHalves(f: seq<Feed>, g: seq<Feed>, t: seq<Feed>, index: nat, h: nat)
    requires f <= g && g <= t && h % 2 == 0
    requires PairsFed(f, index, h / 2) && PairsFed(g, index + h, h / 2)
    ensures PairsFed(t, index, h)
  {
    PrefixTrans(f, g, t);
    HalfTwice(h);
    PairsJoin(f, g, t, index, h / 2, index + h, h / 2, h);
  }

  lemma {:induction false} PairsJoin(f: seq<Feed>, g: seq<Feed>, t: seq<Feed>, index: nat, n: nat, mid: nat, m: nat, total: nat)
    requires f <= t && g <= t && mid == index + 2 * n && total == n + m
    requires PairsFed(f, index, n) && PairsFed(g, mid, m)
    ensures PairsFed(t, index, total)
    decreases n
  {
    if n == 0 {
      PairsGrow(g, t, index, m);
    } else {
      PairFedGrow(f, t, index);
      PairsJoin(f, g, t, index + 2, n - 1, mid, m, total - 1);
    }
  }

  lemma {:induction false} PairsGrow(f: seq<Feed>, t: seq<Feed>, index: nat, n: nat)
    requires f <= t && PairsFed(f, index, n)
    ensures PairsFed(t, index, n)
    decreases n
  {
    if n > 0 {
      PairFedGrow(f, t, index);
      PairsGrow(f, t, index + 2, n - 1);
    }
  }

  /** The single balancer of `Bitonic[2]` takes both inputs. */
  lemma PairBase(b: Arena, index: nat)
    ensures PairsFed(MergeNetworks(b, [Wire([], index)], [Wire([], index + 1)]).0.feeds, index, 1)
  {
    var upper, lower := [Wire([], index)], [Wire([], index + 1)];
    assert MergeNetworks(b, upper, lower) == MergeWires(b, upper, lower);
    MergeWiresArena(b, upper, lower);
    var t := MergeWires(b, upper, lower).0.feeds;
    assert PairFeeds(upper, lower) == [Feed(Input(index), Input(index + 1))];
    assert t[|t| - 1] == Feed(Input(index), Input(index + 1));
    assert PairFed(t, index) && PairsFed(t, index + 2, 0);
  }

  lemma HalfTwice(h: nat)
    requires h % 2 == 0
    ensures 2 * (h / 2) == h && h / 2 + h / 2 == h
  {
  }

  /** The ports and the first hops of two merged halves. */
  lemma MergeHalvesPorts(a: Arena, upper: (Arena, seq<Wire>), lower: (Arena, seq<Wire>))
    requires |upper.1| == |lower.1| && IsPow2(|upper.1|)
    requires upper.0.feeds <= lower.0.feeds
    requires |upper.0.nodes| == |upper.0.feeds| && Bounded(upper.0, upper.1) && FirstHops(upper.0, upper.1)
    requires |lower.0.nodes| == |lower.0.feeds| && Bounded(lower.0, lower.1) && FirstHops(lower.0, lower.1)
    requires WellFormed(a) ==> WellFormed(upper.0) && WellFormed(lower.0)
    ensures var r := MergeNetworks(lower.0, upper.1, lower.1);
            FirstHops(r.0, r.1) && (WellFormed(a) ==> WellFormed(r.0))
  {
    BoundedGrow(upper.0, lower.0, upper.1);
    FirstHopsGrow(upper.0, lower.0, upper.1);
    MergeNetworksFirstHops(lower.0, upper.1, lower.1);
    MergeNetworksGrows(lower.0, upper.1, lower.1);
    if WellFormed(a) {
      MergeNetworksPorts(lower.0, upper.1, lower.1);
    }
  }
}
