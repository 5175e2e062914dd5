/** The recursive construction of a bitonic network (`construct_bitonic`,
    `merge_networks`, `split_even_odd` and `merge_wires` in
    `src/networks/bitonic.rs`, repeated in `src/bitonic_network.rs`).

    The source allocates every balancer on the heap and wires them together
    through raw pointers. Here the heap is an `Arena`: balancer `b` is entry
    `b` of `nodes`, in allocation order, and a pointer to it is the index
    `b`. Next to each node the arena keeps its two incoming wire segments
    (`feeds`); the source does not store them, but they are what the proofs
    about token flow follow. */
module BitonicWires {
  import opened Balancing

  /** Where a balancer port leads: another balancer, an output (an index into
      the network's `outputs`), or nowhere yet (`NonNull::dangling()`). */
  datatype Dest = Internal(id: nat) | Leaf(output: nat) | Dangling

  /** The two output ports of a balancer: `outputs[0]` and `outputs[1]`. */
  datatype Node = Node(port0: Dest, port1: Dest)

  /** One step of a wire: the balancer it passes and the port it leaves by
      (`false`: port 0, `true`: port 1). */
  datatype Hop = Hop(balancer: nat, up: bool)

  /** A wire: the balancers it has passed so far, oldest first, and the
      input index it started from. */
  datatype Wire = Wire(history: seq<Hop>, value: nat)

  /** A wire segment: an input of the network, or the segment leaving a
      balancer port. */
  datatype Source = Input(slot: nat) | Out(hop: Hop)

  /** The two segments entering a balancer: from the upper and from the
      lower of the two wires that `merge_wires` paired. */
  datatype Feed = Feed(upper: Source, lower: Source)

  datatype Arena = Arena(nodes: seq<Node>, feeds: seq<Feed>)

  const EmptyArena := Arena([], [])

  function Port(n: Node, up: bool): Dest
  {
    if up then n.port1 else n.port0
  }

  function SetPort(n: Node, up: bool, d: Dest): (r: Node)
    ensures Port(r, up) == d && Port(r, !up) == Port(n, !up)
  {
    if up then n.(port1 := d) else n.(port0 := d)
  }

  function FeedSource(f: Feed, lower: bool): Source
  {
    if lower then f.lower else f.upper
  }

  /** The segment a wire currently ends in: its input while it has passed no
      balancer, otherwise the port of its last balancer (`Wire::last`). */
  function WireSource(w: Wire): Source
  {
    if |w.history| == 0 then Input(w.value) else Out(w.history[|w.history| - 1])
  }

  function Sources(ws: seq<Wire>): (r: seq<Source>)
    ensures |r| == |ws|
  {
    seq(|ws|, k requires 0 <= k < |ws| => WireSource(ws[k]))
  }

  function Values(ws: seq<Wire>): (r: seq<nat>)
    ensures |r| == |ws|
  {
    seq(|ws|, k requires 0 <= k < |ws| => ws[k].value)
  }

  /** `temp.outputs[up] = d` on the last balancer of `w`, when it has one. */
  function Attach(nodes: seq<Node>, w: Wire, d: Dest): (r: seq<Node>)
    ensures |r| == |nodes|
  {
    if |w.history| == 0 then nodes
    else
      var last := w.history[|w.history| - 1];
      if last.balancer < |nodes| then nodes[last.balancer := SetPort(nodes[last.balancer], last.up, d)]
      else nodes
  }

  /** One round of the loop in `merge_wires`: a fresh balancer with both
      ports dangling is allocated; the last balancers of the two wires are
      pointed at it; the upper wire leaves it by port 0 and the lower one by
      port 1. */
  function Join(a: Arena, upper: Wire, lower: Wire): (r: (Arena, Wire, Wire))
    ensures |r.0.nodes| == |a.nodes| + 1
    ensures r.0.feeds == a.feeds + [Feed(WireSource(upper), WireSource(lower))]
    ensures r.1 == Extend(upper, |a.nodes|, false) && r.2 == Extend(lower, |a.nodes|, true)
  {
    var b := |a.nodes|;
    var nodes := Attach(Attach(a.nodes, upper, Internal(b)), lower, Internal(b));
    (Arena(nodes + [Node(Dangling, Dangling)], a.feeds + [Feed(WireSource(upper), WireSource(lower))]),
     Extend(upper, b, false),
     Extend(lower, b, true))
  }

  /** `Wire::add`: the wire passes balancer `b` and leaves by port `up`. */
  function Extend(w: Wire, b: nat, up: bool): Wire
  {
    Wire(w.history + [Hop(b, up)], w.value)
  }

  /** The number of pairs `zip` makes. */
  function Pairs(upper: seq<Wire>, lower: seq<Wire>): nat
  {
    if |upper| < |lower| then |upper| else |lower|
  }

  /** `merge_wires`: pairs the wires by position and joins each pair in a new
      balancer, giving upper, lower, upper, lower, ... */
  function MergeWires(a: Arena, upper: seq<Wire>, lower: seq<Wire>): (r: (Arena, seq<Wire>))
    ensures |r.1| == 2 * Pairs(upper, lower)
    ensures |r.0.nodes| == |a.nodes| + Pairs(upper, lower)
  {
    (MergeArena(a, upper, lower), JoinedWires(|a.nodes|, upper, lower))
  }

  /** The arena after `merge_wires`: one `Join` per pair, in order. */
  function MergeArena(a: Arena, upper: seq<Wire>, lower: seq<Wire>): (r: Arena)
    ensures |r.nodes| == |a.nodes| + Pairs(upper, lower)
    decreases |upper|
  {
    var n := Pairs(upper, lower);
    if n == 0 then a
    else Join(MergeArena(a, upper[..n - 1], lower[..n - 1]), upper[n - 1], lower[n - 1]).0
  }

  /** The `for` loop of `merge_wires`, writing the ports and the histories
      one pair at a time. */
  method MergeWiresLoop(a: Arena, upper: seq<Wire>, lower: seq<Wire>) returns (arena: Arena, wires: seq<Wire>)
    ensures (arena, wires) == MergeWires(a, upper, lower)
  {
    var n := Pairs(upper, lower);
    arena, wires := a, [];
    for i := 0 to n
      invariant (arena, wires) == MergeWires(a, upper[..i], lower[..i])
    {
      var upperWire, lowerWire := upper[i], lower[i];
      ghost var joined := Join(arena, upperWire, lowerWire);
      var b := |arena.nodes|;
      var nodes := PointLastAt(arena.nodes, upperWire, b);
      nodes := PointLastAt(nodes, lowerWire, b);
      var feed := Feed(WireSource(upperWire), WireSource(lowerWire));
      upperWire := upperWire.(history := upperWire.history + [Hop(b, false)]);
      lowerWire := lowerWire.(history := lowerWire.history + [Hop(b, true)]);
      arena := Arena(nodes + [Node(Dangling, Dangling)], arena.feeds + [feed]);
      wires := wires + [upperWire, lowerWire];
      assert (arena, upperWire, lowerWire) == joined;
      MergeWiresStep(a, upper, lower, i);
    }
    if n > 0 {
      assert upper[..n][..n - 1] == upper[..n - 1] && lower[..n][..n - 1] == lower[..n - 1];
    }
  }

  /** `wire.last().outputs[wire.last_up] = b`: points the port a wire leaves
      by at balancer `b`; a wire that has passed no balancer is left alone. */
  method PointLastAt(nodes: seq<Node>, w: Wire, b: nat) returns (r: seq<Node>)
    ensures r == Attach(nodes, w, Internal(b))
  {
    r := nodes;
    if |w.history| > 0 {
      var last := w.history[|w.history| - 1];
      if last.balancer < |r| {
        r := r[last.balancer := SetPort(r[last.balancer], last.up, Internal(b))];
      }
    }
  }

  /** One more pair of `merge_wires` is one more `Join`. */
  lemma MergeWiresStep(a: Arena, upper: seq<Wire>, lower: seq<Wire>, i: nat)
    requires i < |upper| && i < |lower|
    ensures var done := MergeWires(a, upper[..i], lower[..i]);
            var joined := Join(done.0, upper[i], lower[i]);
            MergeWires(a, upper[..i + 1], lower[..i + 1]) == (joined.0, done.1 + [joined.1, joined.2])
  {
    var done := MergeArena(a, upper[..i], lower[..i]);
    MergeArenaStep(a, upper, lower, i);
    JoinedWiresStep(|a.nodes|, upper, lower, i, |done.nodes|);
  }

  lemma MergeArenaStep(a: Arena, upper: seq<Wire>, lower: seq<Wire>, i: nat)
    requires i < |upper| && i < |lower|
    ensures MergeArena(a, upper[..i + 1], lower[..i + 1])
         == Join(MergeArena(a, upper[..i], lower[..i]), upper[i], lower[i]).0
  {
    var u, l := upper[..i + 1], lower[..i + 1];
    assert u[..i] == upper[..i] && l[..i] == lower[..i];
    assert Pairs(u, l) == i + 1 && u[i] == upper[i] && l[i] == lower[i];
  }

  lemma JoinedWiresStep(b: nat, upper: seq<Wire>, lower: seq<Wire>, i: nat, c: nat)
    requires i < |upper| && i < |lower| && c == b + i
    ensures JoinedWires(b, upper[..i + 1], lower[..i + 1])
         == JoinedWires(b, upper[..i], lower[..i]) + [Extend(upper[i], c, false), Extend(lower[i], c, true)]
  {
    var u, l := upper[..i + 1], lower[..i + 1];
    assert u[..i] == upper[..i] && l[..i] == lower[..i];
    assert Pairs(u, l) == i + 1 && u[i] == upper[i] && l[i] == lower[i];
  }

  /** The last pair of `merge_wires` is one more `Join`. */
  lemma MergeWiresLast(a: Arena, upper: seq<Wire>, lower: seq<Wire>)
    requires 0 < |upper| == |lower|
    ensures var n := |upper|;
            var done := MergeWires(a, upper[..n - 1], lower[..n - 1]);
            var joined := Join(done.0, upper[n - 1], lower[n - 1]);
            MergeWires(a, upper, lower) == (joined.0, done.1 + [joined.1, joined.2])
  {
    var n := |upper|;
    assert upper[..n] == upper && lower[..n] == lower;
    MergeWiresStep(a, upper, lower, n - 1);
  }

  /** The feeds of the balancers `merge_wires` allocates: pair `i` meets in
      the `i`-th new balancer, fed by the segments the two wires end in. */
  function PairFeeds(upper: seq<Wire>, lower: seq<Wire>): (r: seq<Feed>)
    ensures |r| == Pairs(upper, lower)
  {
    seq(Pairs(upper, lower), i requires 0 <= i < Pairs(upper, lower) => Feed(WireSource(upper[i]), WireSource(lower[i])))
  }

  /** The arena after `merge_wires`: one new balancer per pair, fed by that
      pair. */
  lemma {:induction false} MergeWiresArena(a: Arena, upper: seq<Wire>, lower: seq<Wire>)
    ensures MergeWires(a, upper, lower).0.feeds == a.feeds + PairFeeds(upper, lower)
    decreases |upper|
  {
    var n := Pairs(upper, lower);
    if n > 0 {
      var u, l := upper[..n - 1], lower[..n - 1];
      assert Pairs(u, l) == n - 1;
      MergeWiresArena(a, u, l);
      PairFeedsLast(upper, lower);
    }
  }

  /** The feeds of the pairs before the last, then the last pair's. */
  lemma PairFeedsLast(upper: seq<Wire>, lower: seq<Wire>)
    requires Pairs(upper, lower) > 0
    ensures var n := Pairs(upper, lower);
      PairFeeds(upper, lower)
        == PairFeeds(upper[..n - 1], lower[..n - 1]) + [Feed(WireSource(upper[n - 1]), WireSource(lower[n - 1]))]
  {
    var n := Pairs(upper, lower);
    var u, l := upper[..n - 1], lower[..n - 1];
    var p, q := PairFeeds(upper, lower), PairFeeds(u, l) + [Feed(WireSource(upper[n - 1]), WireSource(lower[n - 1]))];
    forall i | 0 <= i < |p| ensures p[i] == q[i] {
      if i < n - 1 { assert u[i] == upper[i] && l[i] == lower[i]; }
    }
  }

  /** The wires after `merge_wires`: the upper wire of pair `i` leaves the
      `i`-th new balancer by port 0 as output `2i`, the lower one by port 1
      as output `2i+1`. */
  lemma MergeWiresWireAt(a: Arena, upper: seq<Wire>, lower: seq<Wire>, p: nat)
    requires p < |MergeWires(a, upper, lower).1|
    ensures MergeWires(a, upper, lower).1[p]
         == if p % 2 == 0 then Extend(upper[p / 2], |a.nodes| + p / 2, false)
            else Extend(lower[p / 2], |a.nodes| + p / 2, true)
  {
    var i := p / 2;
    MergeWiresPair(a, upper, lower, i);
    if p % 2 == 0 {
      assert p == 2 * i;
    } else {
      assert p == 2 * i + 1;
    }
  }

  lemma MergeWiresPair(a: Arena, upper: seq<Wire>, lower: seq<Wire>, i: nat)
    requires i < Pairs(upper, lower)
    ensures MergeWires(a, upper, lower).1[2 * i] == Extend(upper[i], |a.nodes| + i, false)
    ensures MergeWires(a, upper, lower).1[2 * i + 1] == Extend(lower[i], |a.nodes| + i, true)
  {
    JoinedWiresPair(|a.nodes|, upper, lower, i);
  }

  /** The wires `merge_wires` hands back when the arena already holds `b`
      balancers: they depend on the arena only through that number. */
  function JoinedWires(b: nat, upper: seq<Wire>, lower: seq<Wire>): (r: seq<Wire>)
    ensures |r| == 2 * Pairs(upper, lower)
    decreases |upper|
  {
    var n := Pairs(upper, lower);
    if n == 0 then []
    else
      JoinedWires(b, upper[..n - 1], lower[..n - 1])
        + [Extend(upper[n - 1], b + n - 1, false), Extend(lower[n - 1], b + n - 1, true)]
  }

  /** Pair `i` of `zip` gives outputs `2i` and `2i+1`. */
  lemma JoinedWiresPair(b: nat, upper: seq<Wire>, lower: seq<Wire>, i: nat)
    requires i < Pairs(upper, lower)
    ensures JoinedWires(b, upper, lower)[2 * i] == Extend(upper[i], b + i, false)
    ensures JoinedWires(b, upper, lower)[2 * i + 1] == Extend(lower[i], b + i, true)
  {
    JoinedWiresAt(b, upper, lower, 2 * i);
    JoinedWiresAt(b, upper, lower, 2 * i + 1);
  }

  lemma {:induction false} JoinedWiresAt(b: nat, upper: seq<Wire>, lower: seq<Wire>, p: nat)
    requires p < 2 * Pairs(upper, lower)
    ensures JoinedWires(b, upper, lower)[p]
         == if p % 2 == 0 then Extend(upper[p / 2], b + p / 2, false)
            else Extend(lower[p / 2], b + p / 2, true)
    decreases |upper|
  {
    var n := Pairs(upper, lower);
    var u, l := upper[..n - 1], lower[..n - 1];
    assert Pairs(u, l) == n - 1;
    if p < 2 * (n - 1) {
      JoinedWiresAt(b, u, l, p);
      assert upper[p / 2] == u[p / 2] && lower[p / 2] == l[p / 2];
    } else {
      assert p / 2 == n - 1;
    }
  }

  /** Every wire ends in an input or in a port of an existing balancer. */
  predicate Bounded(a: Arena, ws: seq<Wire>)
  {
    forall k :: 0 <= k < |ws| && WireSource(ws[k]).Out? ==> WireSource(ws[k]).hop.balancer < |a.feeds|
  }

  lemma BoundedGrow(a: Arena, a': Arena, ws: seq<Wire>)
    requires a.feeds <= a'.feeds && Bounded(a, ws)
    ensures Bounded(a', ws)
  {
  }

  lemma PrefixTrans<T>(s: seq<T>, t: seq<T>, u: seq<T>)
    requires s <= t && t <= u
    ensures s <= u
  {
    assert s == t[..|s|] && t == u[..|t|];
  }

  /** `merge_wires` only appends balancers, and its wires end at them. */
  lemma MergeWiresGrows(a: Arena, upper: seq<Wire>, lower: seq<Wire>)
    requires |upper| == |lower|
    ensures var r := MergeWires(a, upper, lower);
            a.feeds <= r.0.feeds && (|a.nodes| == |a.feeds| ==> Bounded(r.0, r.1) && |r.0.nodes| == |r.0.feeds|)
  {
    var r := MergeWires(a, upper, lower);
    MergeWiresArena(a, upper, lower);
    forall p | 0 <= p < |r.1| ensures WireSource(r.1[p]) == Out(Hop(|a.nodes| + p / 2, p % 2 == 1)) {
      MergeWiresWireAt(a, upper, lower, p);
    }
  }

  /** `merge_networks` only appends balancers, and its wires end at them. */
  lemma {:induction false} MergeNetworksGrows(a: Arena, upper: seq<Wire>, lower: seq<Wire>)
    requires |upper| == |lower| && IsPow2(|upper|)
    ensures var r := MergeNetworks(a, upper, lower);
            a.feeds <= r.0.feeds && (|a.nodes| == |a.feeds| ==> Bounded(r.0, r.1) && |r.0.nodes| == |r.0.feeds|)
    decreases |upper|
  {
    if |upper| + |lower| == 2 {
      MergeWiresGrows(a, upper, lower);
    } else {
      MergeNetworksStep(a, upper, lower);
      var ue, uo, le, lo := Evens(upper), Odds(upper), Evens(lower), Odds(lower);
      MergeNetworksGrows(a, ue, lo);
      var top := MergeNetworks(a, ue, lo);
      MergeNetworksGrows(top.0, uo, le);
      var bottom := MergeNetworks(top.0, uo, le);
      MergeWiresGrows(bottom.0, top.1, bottom.1);
      var r := MergeWires(bottom.0, top.1, bottom.1);
      PrefixTrans(a.feeds, top.0.feeds, bottom.0.feeds);
      PrefixTrans(a.feeds, bottom.0.feeds, r.0.feeds);
    }
  }

  /** `merge_networks` (the `Merger[2k]` network): the even upper and odd
      lower wires are merged above, the odd upper and even lower wires
      below, and the two results are merged wire by wire. The recursion only
      ends when both halves have the same power-of-two length. */
  function MergeNetworks(a: Arena, upper: seq<Wire>, lower: seq<Wire>): (r: (Arena, seq<Wire>))
    requires |upper| == |lower| && IsPow2(|upper|)
    ensures |r.1| == 2 * |upper|
    decreases |upper|
  {
    if |upper| + |lower| == 2 then MergeWires(a, upper, lower)
    else
      Pow2Halves(|upper|);
      var (upperEven, upperOdd) := SplitEvenOdd(upper);
      var (lowerEven, lowerOdd) := SplitEvenOdd(lower);
      var top := MergeNetworks(a, upperEven, lowerOdd);
      var bottom := MergeNetworks(top.0, upperOdd, lowerEven);
      MergeWires(bottom.0, top.1, bottom.1)
  }

  /** One unfolding of `merge_networks` above the base case. */
  lemma MergeNetworksStep(a: Arena, upper: seq<Wire>, lower: seq<Wire>)
    requires |upper| == |lower| && IsPow2(|upper|) && |upper| > 1
    ensures IsPow2(|upper| / 2) && |Evens(upper)| == |Odds(upper)| == |upper| / 2
    ensures var top := MergeNetworks(a, Evens(upper), Odds(lower));
            var bottom := MergeNetworks(top.0, Odds(upper), Evens(lower));
            MergeNetworks(a, upper, lower) == MergeWires(bottom.0, top.1, bottom.1)
  {
    Pow2Halves(|upper|);
  }


}
