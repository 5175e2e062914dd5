/** How the balancers `merge_wires` allocates are linked to each other.

    Every wire segment of a finished network is used exactly once: a
    balancer port or an input slot either feeds exactly one balancer or is
    where exactly one output wire ends. The builders keep that balance one
    segment at a time (`Uses` counts how many feed slots take a segment,
    `Count(Sources(ws), s)` how many open wires end in it). They also keep
    every port pointing at the balancer its segment feeds (`PortsAre`),
    which is what `traverse` follows. */
module BitonicLinks {
  import opened Balancing
  import opened BitonicWires

  // ----- counting -----

  /** How many times `x` occurs in `s`. */
  function Count<T(==)>(s: seq<T>, x: T): nat
  {
    if s == [] then 0 else (if s[0] == x then 1 else 0) + Count(s[1..], x)
  }

  lemma {:induction false} CountAppend<T>(s: seq<T>, t: seq<T>, x: T)
    ensures Count(s + t, x) == Count(s, x) + Count(t, x)
  {
    if s == [] {
      assert s + t == t;
    } else {
      assert (s + t)[1..] == s[1..] + t;
      CountAppend(s[1..], t, x);
    }
  }

  lemma {:induction false} CountEvensOdds<T>(s: seq<T>, x: T)
    ensures Count(Evens(s), x) + Count(Odds(s), x) == Count(s, x)
    decreases |s|
  {
    if s != [] {
      CountEvensOdds(s[1..], x);
      assert ([s[0]] + Odds(s[1..]))[1..] == Odds(s[1..]);
    }
  }

  lemma SourcesAppend(s: seq<Wire>, t: seq<Wire>)
    ensures Sources(s + t) == Sources(s) + Sources(t)
    ensures Values(s + t) == Values(s) + Values(t)
  {
  }

  lemma SourcesSplit(s: seq<Wire>)
    ensures Sources(Evens(s)) == Evens(Sources(s)) && Sources(Odds(s)) == Odds(Sources(s))
    ensures Values(Evens(s)) == Evens(Values(s)) && Values(Odds(s)) == Odds(Values(s))
  {
  }

  /** Both halves of a split, counted together, count the whole. */
  lemma SplitCount(s: seq<Wire>, src: Source, v: nat)
    ensures Count(Sources(Evens(s)), src) + Count(Sources(Odds(s)), src) == Count(Sources(s), src)
    ensures Count(Values(Evens(s)), v) + Count(Values(Odds(s)), v) == Count(Values(s), v)
  {
    SourcesSplit(s);
    CountEvensOdds(Sources(s), src);
    CountEvensOdds(Values(s), v);
  }

  /** How many of the two slots of feed `x` take segment `src`. */
  function Takes(x: Feed, src: Source): nat
  {
    (if x.upper == src then 1 else 0) + (if x.lower == src then 1 else 0)
  }

  /** How many feed slots of the arena take segment `src`. */
  function Uses(f: seq<Feed>, src: Source): nat
  {
    if f == [] then 0 else Uses(f[..|f| - 1], src) + Takes(f[|f| - 1], src)
  }

  /** 1 when `src` is a port of a balancer allocated in `lo .. hi`. */
  function NewPort(src: Source, lo: nat, hi: nat): nat
  {
    if src.Out? && lo <= src.hop.balancer < hi then 1 else 0
  }

  /** 1 when `src` is one of the inputs `index .. index + width`. */
  function InRange(src: Source, index: nat, width: nat): nat
  {
    if src.Input? && index <= src.slot < index + width then 1 else 0
  }

  lemma {:induction false} UsesAppend(f: seq<Feed>, g: seq<Feed>, src: Source)
    ensures Uses(f + g, src) == Uses(f, src) + Uses(g, src)
    decreases |g|
  {
    if g == [] {
      assert f + g == f;
    } else {
      var g' := g[..|g| - 1];
      assert (f + g)[..|f + g| - 1] == f + g';
      UsesAppend(f, g', src);
    }
  }

  /** The balance kept by `merge_wires`: each pair is taken by one new
      balancer, whose two ports are where the two output wires end. */
  lemma {:induction false} MergeWiresUses(a: Arena, upper: seq<Wire>, lower: seq<Wire>, src: Source)
    requires |upper| == |lower|
    ensures var r := MergeWires(a, upper, lower);
            Uses(r.0.feeds, src) + Count(Sources(r.1), src)
              == Uses(a.feeds, src) + Count(Sources(upper), src) + Count(Sources(lower), src)
                 + NewPort(src, |a.nodes|, |r.0.nodes|)
    decreases |upper|
  {
    var n := |upper|;
    if n > 0 {
      var u, l := upper[..n - 1], lower[..n - 1];
      MergeWiresUses(a, u, l, src);
      MergeWiresLast(a, upper, lower);
      var done := MergeWires(a, u, l);
      JoinUses(done.0, done.1, upper[n - 1], lower[n - 1], src);
      CountLast(upper, src);
      CountLast(lower, src);
    }
  }

  /** One `Join`: its feed takes the two segments the wires end in, and the
      two extended wires end at the ports of the new balancer. */
  lemma JoinUses(a: Arena, ws: seq<Wire>, upper: Wire, lower: Wire, src: Source)
    ensures var j := Join(a, upper, lower);
            Uses(j.0.feeds, src) + Count(Sources(ws + [j.1, j.2]), src)
              == Uses(a.feeds, src) + Count(Sources(ws), src)
                 + (if WireSource(upper) == src then 1 else 0) + (if WireSource(lower) == src then 1 else 0)
                 + NewPort(src, |a.nodes|, |a.nodes| + 1)
  {
    var j := Join(a, upper, lower);
    assert j.0.feeds[..|j.0.feeds| - 1] == a.feeds;
    SourcesAppend(ws, [j.1, j.2]);
    CountAppend(Sources(ws), Sources([j.1, j.2]), src);
    var b := |a.nodes|;
    assert Sources([j.1, j.2]) == [Out(Hop(b, false)), Out(Hop(b, true))];
    CountPair(Out(Hop(b, false)), Out(Hop(b, true)), src);
  }

  lemma CountPair<T>(x: T, y: T, z: T)
    ensures Count([x, y], z) == (if x == z then 1 else 0) + (if y == z then 1 else 0)
  {
    assert [x, y][1..] == [y] && [y][1..] == [];
    assert Count([y], z) == (if y == z then 1 else 0) + Count([], z);
  }

  lemma NewPortSplit(src: Source, lo: nat, mid: nat, hi: nat)
    requires lo <= mid <= hi
    ensures NewPort(src, lo, mid) + NewPort(src, mid, hi) == NewPort(src, lo, hi)
  {
  }

  lemma CountLast(ws: seq<Wire>, src: Source)
    requires |ws| > 0
    ensures Count(Sources(ws), src)
         == Count(Sources(ws[..|ws| - 1]), src) + (if WireSource(ws[|ws| - 1]) == src then 1 else 0)
  {
    var n := |ws| - 1;
    assert ws == ws[..n] + [ws[n]];
    SourcesAppend(ws[..n], [ws[n]]);
    CountAppend(Sources(ws[..n]), Sources([ws[n]]), src);
  }

  /** The balance kept by `merge_networks`. */
  lemma {:induction false} MergeNetworksUses(a: Arena, upper: seq<Wire>, lower: seq<Wire>, src: Source)
    requires |upper| == |lower| && IsPow2(|upper|)
    ensures var r := MergeNetworks(a, upper, lower);
            Uses(r.0.feeds, src) + Count(Sources(r.1), src)
              == Uses(a.feeds, src) + Count(Sources(upper), src) + Count(Sources(lower), src)
                 + NewPort(src, |a.nodes|, |r.0.nodes|)
    decreases |upper|
  {
    if |upper| + |lower| == 2 {
      MergeWiresUses(a, upper, lower, src);
    } else {
      MergeNetworksStep(a, upper, lower);
      var ue, uo, le, lo := Evens(upper), Odds(upper), Evens(lower), Odds(lower);
      MergeNetworksUses(a, ue, lo, src);
      var top := MergeNetworks(a, ue, lo);
      MergeNetworksUses(top.0, uo, le, src);
      var bottom := MergeNetworks(top.0, uo, le);
      MergeWiresUses(bottom.0, top.1, bottom.1, src);
      var r := MergeWires(bottom.0, top.1, bottom.1);
      SplitCount(upper, src, 0);
      SplitCount(lower, src, 0);
      MergeNetworksNodes(a, ue, lo);
      MergeNetworksNodes(top.0, uo, le);
      MergeWiresNodes(bottom.0, top.1, bottom.1);
      NewPortSplit(src, |a.nodes|, |top.0.nodes|, |bottom.0.nodes|);
      NewPortSplit(src, |a.nodes|, |bottom.0.nodes|, |r.0.nodes|);
    }
  }

  lemma MergeWiresNodes(a: Arena, upper: seq<Wire>, lower: seq<Wire>)
    ensures |MergeWires(a, upper, lower).0.nodes| == |a.nodes| + Pairs(upper, lower)
  {
  }

  lemma {:induction false} MergeNetworksNodes(a: Arena, upper: seq<Wire>, lower: seq<Wire>)
    requires |upper| == |lower| && IsPow2(|upper|)
    ensures |MergeNetworks(a, upper, lower).0.nodes| >= |a.nodes|
    decreases |upper|
  {
    if |upper| + |lower| != 2 {
      MergeNetworksStep(a, upper, lower);
      var ue, uo, le, lo := Evens(upper), Odds(upper), Evens(lower), Odds(lower);
      MergeNetworksNodes(a, ue, lo);
      var top := MergeNetworks(a, ue, lo);
      MergeNetworksNodes(top.0, uo, le);
    }
  }

  // ----- input indices -----

  /** `merge_wires` passes on the input index of every wire it is given. */
  lemma MergeWiresValues(a: Arena, upper: seq<Wire>, lower: seq<Wire>, v: nat)
    requires |upper| == |lower|
    ensures Count(Values(MergeWires(a, upper, lower).1), v) == Count(Values(upper), v) + Count(Values(lower), v)
  {
    JoinedWiresValues(|a.nodes|, upper, lower, v);
  }

  lemma {:induction false} JoinedWiresValues(b: nat, upper: seq<Wire>, lower: seq<Wire>, v: nat)
    requires |upper| == |lower|
    ensures Count(Values(JoinedWires(b, upper, lower)), v) == Count(Values(upper), v) + Count(Values(lower), v)
    decreases |upper|
  {
    var n := |upper|;
    if n > 0 {
      var u, l := upper[..n - 1], lower[..n - 1];
      JoinedWiresValues(b, u, l, v);
      var last := [Extend(upper[n - 1], b + n - 1, false), Extend(lower[n - 1], b + n - 1, true)];
      assert JoinedWires(b, upper, lower) == JoinedWires(b, u, l) + last;
      SourcesAppend(JoinedWires(b, u, l), last);
      CountAppend(Values(JoinedWires(b, u, l)), Values(last), v);
      assert Values(last) == [upper[n - 1].value, lower[n - 1].value];
      CountPair(upper[n - 1].value, lower[n - 1].value, v);
      ValueLast(upper, v);
      ValueLast(lower, v);
    }
  }

  lemma ValueLast(ws: seq<Wire>, v: nat)
    requires |ws| > 0
    ensures Count(Values(ws), v) == Count(Values(ws[..|ws| - 1]), v) + (if ws[|ws| - 1].value == v then 1 else 0)
  {
    var n := |ws| - 1;
    assert ws == ws[..n] + [ws[n]];
    SourcesAppend(ws[..n], [ws[n]]);
    CountAppend(Values(ws[..n]), Values([ws[n]]), v);
  }

  /** `merge_networks` passes on the input index of every wire it is given. */
  lemma {:induction false} MergeNetworksValues(a: Arena, upper: seq<Wire>, lower: seq<Wire>, v: nat)
    requires |upper| == |lower| && IsPow2(|upper|)
    ensures Count(Values(MergeNetworks(a, upper, lower).1), v) == Count(Values(upper), v) + Count(Values(lower), v)
    decreases |upper|
  {
    if |upper| + |lower| == 2 {
      MergeWiresValues(a, upper, lower, v);
    } else {
      MergeNetworksStep(a, upper, lower);
      var ue, uo, le, lo := Evens(upper), Odds(upper), Evens(lower), Odds(lower);
      MergeNetworksValues(a, ue, lo, v);
      var top := MergeNetworks(a, ue, lo);
      MergeNetworksValues(top.0, uo, le, v);
      var bottom := MergeNetworks(top.0, uo, le);
      MergeWiresValues(bottom.0, top.1, bottom.1, v);
      SplitCount(upper, Input(0), v);
      SplitCount(lower, Input(0), v);
    }
  }

  // ----- depth -----

  /** Every wire has passed `d` balancers. */
  predicate Depth(ws: seq<Wire>, d: nat)
  {
    forall k :: 0 <= k < |ws| ==> |ws[k].history| == d
  }

  lemma MergeWiresDepth(a: Arena, upper: seq<Wire>, lower: seq<Wire>, d: nat)
    requires |upper| == |lower| && Depth(upper, d) && Depth(lower, d)
    ensures Depth(MergeWires(a, upper, lower).1, d + 1)
  {
    var r := MergeWires(a, upper, lower);
    forall p | 0 <= p < |r.1| ensures |r.1[p].history| == d + 1 {
      MergeWiresWireAt(a, upper, lower, p);
    }
  }

  lemma DepthSplit(ws: seq<Wire>, d: nat)
    requires Depth(ws, d)
    ensures Depth(Evens(ws), d) && Depth(Odds(ws), d)
  {
  }

  /** `merge_networks` on `2m` wires adds `log2(2m)` balancers to every
      wire. */
  lemma {:induction false} MergeNetworksDepth(a: Arena, upper: seq<Wire>, lower: seq<Wire>, d: nat)
    requires |upper| == |lower| && IsPow2(|upper|) && Depth(upper, d) && Depth(lower, d)
    ensures Depth(MergeNetworks(a, upper, lower).1, d + Log2(|upper|) + 1)
    decreases |upper|
  {
    if |upper| + |lower| == 2 {
      MergeWiresDepth(a, upper, lower, d);
    } else {
      MergeNetworksStep(a, upper, lower);
      var ue, uo, le, lo := Evens(upper), Odds(upper), Evens(lower), Odds(lower);
      DepthSplit(upper, d);
      DepthSplit(lower, d);
      MergeNetworksDepth(a, ue, lo, d);
      var top := MergeNetworks(a, ue, lo);
      MergeNetworksDepth(top.0, uo, le, d);
      var bottom := MergeNetworks(top.0, uo, le);
      MergeWiresDepth(bottom.0, top.1, bottom.1, d + Log2(|upper| / 2) + 1);
    }
  }

  /** The balancers of `Merger[2m]`: one layer of `m` after two
      `Merger[m]`. */
  function MergerSize(m: nat): nat
    requires IsPow2(m)
    decreases m
  {
    if m == 1 then 1 else 2 * MergerSize(m / 2) + m
  }

  /** `merge_networks` on `2m` wires allocates `MergerSize(m)` balancers. */
  lemma {:induction false} MergeNetworksSize(a: Arena, upper: seq<Wire>, lower: seq<Wire>)
    requires |upper| == |lower| && IsPow2(|upper|)
    ensures |MergeNetworks(a, upper, lower).0.nodes| == |a.nodes| + MergerSize(|upper|)
    decreases |upper|
  {
    if |upper| + |lower| != 2 {
      MergeNetworksStep(a, upper, lower);
      var ue, uo, le, lo := Evens(upper), Odds(upper), Evens(lower), Odds(lower);
      MergeNetworksSize(a, ue, lo);
      var top := MergeNetworks(a, ue, lo);
      MergeNetworksSize(top.0, uo, le);
      var bottom := MergeNetworks(top.0, uo, le);
      MergeWiresNodes(bottom.0, top.1, bottom.1);
    }
  }

  // ----- first hops -----

  /** Balancer `c` takes segment `src`. */
  predicate FedBy(f: seq<Feed>, c: nat, src: Source)
  {
    c < |f| && Takes(f[c], src) > 0
  }

  /** The first balancer of every wire takes that wire's input. */
  predicate FirstHops(a: Arena, ws: seq<Wire>)
  {
    forall k :: 0 <= k < |ws| && |ws[k].history| > 0 ==> FedBy(a.feeds, ws[k].history[0].balancer, Input(ws[k].value))
  }

  lemma FirstHopsGrow(a: Arena, a': Arena, ws: seq<Wire>)
    requires a.feeds <= a'.feeds && FirstHops(a, ws)
    ensures FirstHops(a', ws)
  {
    forall k | 0 <= k < |ws| && |ws[k].history| > 0
      ensures FedBy(a'.feeds, ws[k].history[0].balancer, Input(ws[k].value))
    {
      assert a'.feeds[ws[k].history[0].balancer] == a.feeds[ws[k].history[0].balancer];
    }
  }

  lemma FirstHopsSplit(a: Arena, ws: seq<Wire>)
    requires FirstHops(a, ws)
    ensures FirstHops(a, Evens(ws)) && FirstHops(a, Odds(ws))
  {
    forall k | 0 <= k < |Evens(ws)| ensures Evens(ws)[k] == ws[2 * k] { }
    forall k | 0 <= k < |Odds(ws)| ensures Odds(ws)[k] == ws[2 * k + 1] { }
  }

  lemma MergeWiresFirstHops(a: Arena, upper: seq<Wire>, lower: seq<Wire>)
    requires |a.nodes| == |a.feeds| && |upper| == |lower| && FirstHops(a, upper) && FirstHops(a, lower)
    ensures FirstHops(MergeWires(a, upper, lower).0, MergeWires(a, upper, lower).1)
  {
    var r := MergeWires(a, upper, lower);
    MergeWiresArena(a, upper, lower);
    JoinedFirstHops(a, r.0, upper, lower);
  }

  /** Every wire `zip` leaves behind still starts at a balancer that takes
      its input. */
  lemma JoinedFirstHops(a: Arena, a': Arena, upper: seq<Wire>, lower: seq<Wire>)
    requires |a.nodes| == |a.feeds| && |upper| == |lower| && FirstHops(a, upper) && FirstHops(a, lower)
    requires a'.feeds == a.feeds + PairFeeds(upper, lower)
    ensures FirstHops(a', JoinedWires(|a.nodes|, upper, lower))
  {
    var ws := JoinedWires(|a.nodes|, upper, lower);
    forall p | 0 <= p < |ws| && |ws[p].history| > 0
      ensures FedBy(a'.feeds, ws[p].history[0].balancer, Input(ws[p].value))
    {
      JoinedFirstHop(a, a', upper, lower, p);
    }
  }

  lemma JoinedFirstHop(a: Arena, a': Arena, upper: seq<Wire>, lower: seq<Wire>, p: nat)
    requires |a.nodes| == |a.feeds| && |upper| == |lower| && FirstHops(a, upper) && FirstHops(a, lower)
    requires a'.feeds == a.feeds + PairFeeds(upper, lower)
    requires p < 2 * |upper|
    ensures var w := JoinedWires(|a.nodes|, upper, lower)[p];
      |w.history| > 0 && FedBy(a'.feeds, w.history[0].balancer, Input(w.value))
  {
    var i := p / 2;
    PairFirstHops(a, a', upper, lower, i);
    if p % 2 == 0 {
      assert p == 2 * i;
    } else {
      assert p == 2 * i + 1;
    }
  }

  /** A wire that had no balancer yet has its first one in the new balancer
      of its pair, which takes that wire's input. */
  lemma PairFirstHops(a: Arena, a': Arena, upper: seq<Wire>, lower: seq<Wire>, i: nat)
    requires |a.nodes| == |a.feeds| && i < |upper| == |lower| && FirstHops(a, upper) && FirstHops(a, lower)
    requires a'.feeds == a.feeds + PairFeeds(upper, lower)
    ensures var w := JoinedWires(|a.nodes|, upper, lower)[2 * i];
      |w.history| > 0 && FedBy(a'.feeds, w.history[0].balancer, Input(w.value))
    ensures var w := JoinedWires(|a.nodes|, upper, lower)[2 * i + 1];
      |w.history| > 0 && FedBy(a'.feeds, w.history[0].balancer, Input(w.value))
  {
    JoinedWiresPair(|a.nodes|, upper, lower, i);
    assert a'.feeds[|a.feeds| + i] == Feed(WireSource(upper[i]), WireSource(lower[i]));
  }

  lemma {:induction false} MergeNetworksFirstHops(a: Arena, upper: seq<Wire>, lower: seq<Wire>)
    requires |a.nodes| == |a.feeds| && |upper| == |lower| && IsPow2(|upper|)
    requires FirstHops(a, upper) && FirstHops(a, lower)
    ensures FirstHops(MergeNetworks(a, upper, lower).0, MergeNetworks(a, upper, lower).1)
    decreases |upper|
  {
    if |upper| + |lower| == 2 {
      MergeWiresFirstHops(a, upper, lower);
    } else {
      MergeNetworksStep(a, upper, lower);
      var ue, uo, le, lo := Evens(upper), Odds(upper), Evens(lower), Odds(lower);
      FirstHopsSplit(a, upper);
      FirstHopsSplit(a, lower);
      MergeNetworksFirstHops(a, ue, lo);
      MergeNetworksGrows(a, ue, lo);
      var top := MergeNetworks(a, ue, lo);
      FirstHopsGrow(a, top.0, uo);
      FirstHopsGrow(a, top.0, le);
      MergeNetworksFirstHops(top.0, uo, le);
      MergeNetworksGrows(top.0, uo, le);
      var bottom := MergeNetworks(top.0, uo, le);
      FirstHopsGrow(top.0, bottom.0, top.1);
      MergeWiresFirstHops(bottom.0, top.1, bottom.1);
    }
  }

  // ----- ports -----

  /** Where `Attach` last pointed the port that segment `src` leaves by: the
      last balancer that took it, or nowhere. */
  function Consumer(f: seq<Feed>, src: Source): Dest
  {
    if f == [] then Dangling
    else if Takes(f[|f| - 1], src) > 0 then Internal(|f| - 1)
    else Consumer(f[..|f| - 1], src)
  }

  /** Every port of the arena points at the balancer its segment feeds. */
  predicate PortsAre(a: Arena)
  {
    forall b: nat, up: bool :: b < |a.nodes| ==> Port(a.nodes[b], up) == Consumer(a.feeds, Out(Hop(b, up)))
  }

  /** A balancer is only fed by inputs and by balancers allocated before it. */
  predicate FromBefore(f: seq<Feed>)
  {
    forall c, lower :: 0 <= c < |f| && FeedSource(f[c], lower).Out? ==> FeedSource(f[c], lower).hop.balancer < c
  }

  /** The wire ends at an input or at a port of an existing balancer. */
  predicate Ends(a: Arena, w: Wire)
  {
    WireSource(w).Out? ==> WireSource(w).hop.balancer < |a.feeds|
  }

  lemma {:induction false} ConsumerFresh(f: seq<Feed>, src: Source)
    requires FromBefore(f) && src.Out? && src.hop.balancer >= |f|
    ensures Consumer(f, src) == Dangling
    decreases |f|
  {
    if f != [] {
      var n := |f| - 1;
      assert FeedSource(f[n], false) == f[n].upper && FeedSource(f[n], true) == f[n].lower;
      ConsumerFresh(f[..n], src);
    }
  }

  lemma AttachPort(nodes: seq<Node>, w: Wire, d: Dest, b: nat, up: bool)
    requires b < |nodes|
    ensures Port(Attach(nodes, w, d)[b], up) == if WireSource(w) == Out(Hop(b, up)) then d else Port(nodes[b], up)
  {
  }

  /** One `Join` keeps the ports pointing where the feeds say. */
  lemma JoinPorts(a: Arena, upper: Wire, lower: Wire)
    requires |a.nodes| == |a.feeds| && PortsAre(a) && FromBefore(a.feeds)
    requires Ends(a, upper) && Ends(a, lower)
    ensures PortsAre(Join(a, upper, lower).0) && FromBefore(Join(a, upper, lower).0.feeds)
  {
    var j := Join(a, upper, lower).0;
    var n := |a.nodes|;
    assert j.feeds[..n] == a.feeds;
    forall b: nat, up: bool | b < |j.nodes| ensures Port(j.nodes[b], up) == Consumer(j.feeds, Out(Hop(b, up))) {
      if b < n {
        var once := Attach(a.nodes, upper, Internal(n));
        AttachPort(a.nodes, upper, Internal(n), b, up);
        AttachPort(once, lower, Internal(n), b, up);
      } else {
        ConsumerFresh(a.feeds, Out(Hop(b, up)));
      }
    }
  }

  lemma EndsGrow(a: Arena, a': Arena, ws: seq<Wire>)
    requires |a.feeds| <= |a'.feeds| && Bounded(a, ws)
    ensures Bounded(a', ws) && forall k :: 0 <= k < |ws| ==> Ends(a', ws[k])
  {
  }

  lemma {:induction false} MergeWiresPorts(a: Arena, upper: seq<Wire>, lower: seq<Wire>)
    requires |upper| == |lower| && |a.nodes| == |a.feeds| && PortsAre(a) && FromBefore(a.feeds)
    requires Bounded(a, upper) && Bounded(a, lower)
    ensures PortsAre(MergeWires(a, upper, lower).0) && FromBefore(MergeWires(a, upper, lower).0.feeds)
    decreases |upper|
  {
    var n := |upper|;
    if n > 0 {
      var u, l := upper[..n - 1], lower[..n - 1];
      assert Bounded(a, u) && Bounded(a, l);
      MergeWiresPorts(a, u, l);
      MergeWiresArena(a, u, l);
      var done := MergeWires(a, u, l);
      EndsGrow(a, done.0, upper);
      EndsGrow(a, done.0, lower);
      JoinPorts(done.0, upper[n - 1], lower[n - 1]);
    }
  }

  lemma {:induction false} MergeNetworksPorts(a: Arena, upper: seq<Wire>, lower: seq<Wire>)
    requires |upper| == |lower| && IsPow2(|upper|)
    requires |a.nodes| == |a.feeds| && PortsAre(a) && FromBefore(a.feeds)
    requires Bounded(a, upper) && Bounded(a, lower)
    ensures PortsAre(MergeNetworks(a, upper, lower).0) && FromBefore(MergeNetworks(a, upper, lower).0.feeds)
    decreases |upper|
  {
    if |upper| + |lower| == 2 {
      MergeWiresPorts(a, upper, lower);
    } else {
      MergeNetworksStep(a, upper, lower);
      var ue, uo, le, lo := Evens(upper), Odds(upper), Evens(lower), Odds(lower);
      BoundedSplit(a, upper);
      BoundedSplit(a, lower);
      MergeNetworksPorts(a, ue, lo);
      MergeNetworksGrows(a, ue, lo);
      var top := MergeNetworks(a, ue, lo);
      EndsGrow(a, top.0, uo);
      EndsGrow(a, top.0, le);
      MergeNetworksPorts(top.0, uo, le);
      MergeNetworksGrows(top.0, uo, le);
      var bottom := MergeNetworks(top.0, uo, le);
      EndsGrow(top.0, bottom.0, top.1);
      MergeWiresPorts(bottom.0, top.1, bottom.1);
    }
  }

  lemma BoundedSplit(a: Arena, ws: seq<Wire>)
    requires Bounded(a, ws)
    ensures Bounded(a, Evens(ws)) && Bounded(a, Odds(ws))
  {
    forall k | 0 <= k < |Evens(ws)| ensures Evens(ws)[k] == ws[2 * k] { }
    forall k | 0 <= k < |Odds(ws)| ensures Odds(ws)[k] == ws[2 * k + 1] { }
  }
}
