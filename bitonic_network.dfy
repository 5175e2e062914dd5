/** `BitonicNetwork` (`src/networks/bitonic.rs`, and its older copy
    `src/bitonic_network.rs`): the arena `construct_bitonic` builds, with
    the outputs attached to the last port of every wire, the balancers of
    each layer listed by input index, and `traverse`, which follows the
    toggles from an input to an output. */
module BitonicNetworks {
  import opened Balancing
  import opened BitonicWires
  import opened BitonicFlow
  import opened BitonicLinks
  import opened BitonicBuild
  import opened BitonicPath

  // ----- layers -----

  /** `num_layers(width)`: `C(log2(width) + 1, 2)` layers, which is how many
      balancers every wire of `Bitonic[width]` passes. */
  function NumLayers(width: nat): (r: nat)
    requires IsPow2(width)
    ensures r == BitonicDepth(width)
  {
    LayersDepth(width);
    (Log2(width) + 1) * Log2(width) / 2
  }

  lemma {:induction false} LayersDepth(width: nat)
    requires IsPow2(width)
    ensures (Log2(width) + 1) * Log2(width) / 2 == BitonicDepth(width)
    decreases width
  {
    if width > 1 {
      Pow2Halves(width);
      LayersDepth(width / 2);
      var k := Log2(width);
      assert k == Log2(width / 2) + 1;
      assert (k + 1) * k == k * (k - 1) + 2 * k;
    }
  }

  /** `get_layer_range(layer, layer_width)`: where layer `layer` sits in the
      flat list of balancers. */
  function LayerRange(layer: nat, layerWidth: nat): (r: (nat, nat))
    ensures r.0 <= r.1 && r.1 - r.0 == layerWidth
  {
    (layerWidth * layer, layerWidth * (layer + 1))
  }

  /** Consecutive layers tile the list: layer `l + 1` starts where layer `l`
      ends, and all `n` layers fit in `n * layerWidth` slots. */
  lemma LayersTile(layer: nat, n: nat, layerWidth: nat)
    requires layer < n
    ensures LayerRange(layer, layerWidth).1 == LayerRange(layer + 1, layerWidth).0
    ensures LayerRange(layer, layerWidth).1 <= n * layerWidth
  {
    assert layerWidth * (layer + 1) <= layerWidth * n by {
      MulMono(layerWidth, layer + 1, n);
    }
  }

  lemma MulMono(a: nat, b: nat, c: nat)
    requires b <= c
    ensures a * b <= a * c
  {
  }

  /** How many balancers the wires pass, added over all wires. */
  function Passes(ws: seq<Wire>): nat
  {
    if ws == [] then 0 else |ws[0].history| + Passes(ws[1..])
  }

  lemma {:induction false} PassesDepth(ws: seq<Wire>, d: nat)
    requires Depth(ws, d)
    ensures Passes(ws) == |ws| * d
  {
    if ws != [] {
      PassesDepth(ws[1..], d);
    }
  }

  /** The check at the start of `BitonicNetwork::new`: the wires of
      `Bitonic[width]` (`Depth` is what `ConstructBitonic` promises) pass
      `num_layers * layer_width * 2` balancers in all, two wires through
      every balancer of every layer. */
  lemma LayerSlots(ws: seq<Wire>, width: nat)
    requires IsPow2(width) && width >= 2 && |ws| == width && Depth(ws, BitonicDepth(width))
    ensures Passes(ws) == NumLayers(width) * (width / 2) * 2
  {
    PassesDepth(ws, BitonicDepth(width));
    Pow2Halves(width);
    assert (width / 2) * 2 == width;
  }

  // ----- attaching the outputs -----

  /** Where the port `src` points once the outputs of wires `0 .. n` are
      attached: the output of the last of them that ends in `src`, or `d`,
      where it pointed before. */
  function LeafOr(ws: seq<Wire>, n: nat, src: Source, d: Dest): Dest
    requires n <= |ws|
  {
    if n == 0 then d
    else if WireSource(ws[n - 1]) == src then Leaf(n - 1)
    else LeafOr(ws, n - 1, src, d)
  }

  lemma {:induction false} LeafOrFacts(ws: seq<Wire>, n: nat, src: Source, d: Dest)
    requires n <= |ws|
    ensures Count(Sources(ws[..n]), src) == 0 ==> LeafOr(ws, n, src, d) == d
    ensures Count(Sources(ws[..n]), src) > 0 ==>
      var r := LeafOr(ws, n, src, d);
      r.Leaf? && r.output < n && WireSource(ws[r.output]) == src
    decreases n
  {
    if n > 0 {
      LeafOrFacts(ws, n - 1, src, d);
      assert ws[..n] == ws[..n - 1] + [ws[n - 1]];
      SourcesAppend(ws[..n - 1], [ws[n - 1]]);
      CountAppend(Sources(ws[..n - 1]), Sources([ws[n - 1]]), src);
      assert Sources([ws[n - 1]])[1..] == [];
    }
  }

  /** The attach loop of `BitonicNetwork::new`: for every wire `k`, the port
      of its last balancer is pointed at output `k` (`Wire::last` panics on a
      wire that passed no balancer; `Attach` leaves those alone, and the
      network never has one). */
  method AttachOutputs(nodes: seq<Node>, ws: seq<Wire>) returns (r: seq<Node>)
    ensures |r| == |nodes|
    ensures forall b: nat, up: bool :: b < |nodes| ==>
      Port(r[b], up) == LeafOr(ws, |ws|, Out(Hop(b, up)), Port(nodes[b], up))
  {
    r := nodes;
    for k := 0 to |ws|
      invariant |r| == |nodes|
      invariant forall b: nat, up: bool :: b < |nodes| ==>
        Port(r[b], up) == LeafOr(ws, k, Out(Hop(b, up)), Port(nodes[b], up))
    {
      forall b: nat, up: bool | b < |nodes|
        ensures Port(Attach(r, ws[k], Leaf(k))[b], up)
          == if WireSource(ws[k]) == Out(Hop(b, up)) then Leaf(k) else Port(r[b], up)
      {
        AttachPort(r, ws[k], Leaf(k), b, up);
      }
      r := Attach(r, ws[k], Leaf(k));
    }
  }

  /** A segment some balancer takes has its port pointed at that balancer. */
  lemma {:induction false} ConsumerFeeds(f: seq<Feed>, src: Source)
    ensures Uses(f, src) > 0 ==> Consumer(f, src).Internal? && FedBy(f, Consumer(f, src).id, src)
    decreases |f|
  {
    if f != [] {
      var g := f[..|f| - 1];
      ConsumerFeeds(g, src);
      if Takes(f[|f| - 1], src) == 0 && Uses(g, src) > 0 {
        assert f[Consumer(g, src).id] == g[Consumer(g, src).id];
      }
    }
  }

  /** Where a port may point: a balancer that takes its segment, or an output
      whose wire ends in it; never nowhere. */
  predicate Leads(f: seq<Feed>, ws: seq<Wire>, d: Dest, src: Source)
  {
    match d
    case Internal(c) => FedBy(f, c, src)
    case Leaf(k) => k < |ws| && WireSource(ws[k]) == src
    case Dangling => false
  }

  /** Every port of the finished network leads somewhere. */
  predicate Linked(f: seq<Feed>, ws: seq<Wire>, nodes: seq<Node>)
  {
    forall b: nat, up: bool :: b < |nodes| ==> Leads(f, ws, Port(nodes[b], up), Out(Hop(b, up)))
  }

  /** Segment accounting for a network built from nothing: every port is used
      once, by a balancer or by an output wire. */
  lemma BalancedPorts(a: Arena, ws: seq<Wire>, width: nat, b: nat, up: bool)
    requires Balanced(EmptyArena, a, ws, 0, width) && b < |a.nodes|
    ensures Uses(a.feeds, Out(Hop(b, up))) + Count(Sources(ws), Out(Hop(b, up))) == 1
  {
    assert Uses(a.feeds, Out(Hop(b, up))) + Count(Sources(ws), Out(Hop(b, up)))
      == Uses(EmptyArena.feeds, Out(Hop(b, up))) + NewPort(Out(Hop(b, up)), 0, |a.nodes|) + InRange(Out(Hop(b, up)), 0, width);
  }

  /** After the attach loop every port leads to the balancer that takes its
      segment or to the output whose wire ends in it. */
  lemma AttachedLinked(a: Arena, ws: seq<Wire>, width: nat, nodes: seq<Node>)
    requires PortsAre(a) && Balanced(EmptyArena, a, ws, 0, width)
    requires |nodes| == |a.nodes|
    requires forall b: nat, up: bool :: b < |a.nodes| ==>
      Port(nodes[b], up) == LeafOr(ws, |ws|, Out(Hop(b, up)), Port(a.nodes[b], up))
    ensures Linked(a.feeds, ws, nodes)
  {
    forall b: nat, up: bool | b < |nodes|
      ensures Leads(a.feeds, ws, Port(nodes[b], up), Out(Hop(b, up)))
    {
      var src := Out(Hop(b, up));
      BalancedPorts(a, ws, width, b, up);
      LeafOrFacts(ws, |ws|, src, Port(a.nodes[b], up));
      assert ws[..|ws|] == ws;
      ConsumerFeeds(a.feeds, src);
    }
  }

  /** A network built from nothing is linear and no port both feeds a
      balancer and ends a wire. */
  lemma BalancedUnshared(a: Arena, ws: seq<Wire>, width: nat)
    requires Balanced(EmptyArena, a, ws, 0, width)
    ensures Linear(a.feeds) && Unshared(a.feeds, ws)
  {
    forall src: Source ensures Uses(a.feeds, src) + Count(Sources(ws), src) <= 1 {
      assert Uses(a.feeds, src) + Count(Sources(ws), src)
        == Uses(EmptyArena.feeds, src) + NewPort(src, 0, |a.nodes|) + InRange(src, 0, width);
    }
  }

  /** With no token injected no balancer has counted one. */
  lemma {:induction false} TotalsZero(f: seq<Feed>, inputs: seq<nat>)
    requires forall i :: 0 <= i < |inputs| ==> inputs[i] == 0
    ensures forall b :: 0 <= b < |f| ==> Totals(f, inputs)[b] == 0
    decreases |f|
  {
    if f != [] {
      TotalsZero(f[..|f| - 1], inputs);
    }
  }

  // ----- listing the balancers layer by layer -----

  /** A layer entry: a balancer and the value of the wire that reached it
      first in that layer. */
  datatype Entry = Entry(value: nat, balancer: nat)

  /** `Wire::pop_front`. */
  function PopFront(w: Wire): (r: Wire)
    ensures r.value == w.value
    ensures |w.history| > 0 ==> [w.history[0]] + r.history == w.history
    ensures |w.history| == 0 ==> r == w
  {
    if |w.history| == 0 then w else Wire(w.history[1..], w.value)
  }

  /** Entry `e` is wire `w`'s first balancer, with `w`'s value. */
  predicate FrontOf(w: Wire, e: Entry)
  {
    |w.history| > 0 && e == Entry(w.value, w.history[0].balancer)
  }

  predicate DistinctBalancers(es: seq<Entry>)
  {
    forall i, j :: 0 <= i < j < |es| ==> es[i].balancer != es[j].balancer
  }

  /** `layer` lists each first balancer of the wires `ws` once, each with the
      value of a wire it is first on. */
  ghost predicate Fronts(ws: seq<Wire>, layer: seq<Entry>)
  {
    && DistinctBalancers(layer)
    && (forall i :: 0 <= i < |layer| ==> exists j :: 0 <= j < |ws| && FrontOf(ws[j], layer[i]))
    && (forall j :: 0 <= j < |ws| && |ws[j].history| > 0 ==>
          exists i :: 0 <= i < |layer| && layer[i].balancer == ws[j].history[0].balancer)
  }

  /** One round of the layering loop of `BitonicNetwork::new`: every wire
      gives up its first balancer, and each balancer not seen yet in this
      round is listed with the value of the wire that brought it. */
  method PopLayer(ws: seq<Wire>) returns (rest: seq<Wire>, layer: seq<Entry>)
    ensures |rest| == |ws| && forall j :: 0 <= j < |ws| ==> rest[j] == PopFront(ws[j])
    ensures Fronts(ws, layer)
  {
    rest := ws;
    layer := [];
    var seen: set<nat> := {};
    for k := 0 to |ws|
      invariant |rest| == |ws|
      invariant forall j :: 0 <= j < |ws| ==> rest[j] == if j < k then PopFront(ws[j]) else ws[j]
      invariant seen == set e | e in layer :: e.balancer
      invariant DistinctBalancers(layer)
      invariant forall i :: 0 <= i < |layer| ==> exists j :: 0 <= j < k && FrontOf(ws[j], layer[i])
      invariant forall j :: 0 <= j < k && |ws[j].history| > 0 ==> ws[j].history[0].balancer in seen
    {
      if |rest[k].history| > 0 {
        var h := rest[k].history[0];
        rest := rest[k := PopFront(rest[k])];
        if h.balancer !in seen {
          seen := seen + {h.balancer};
          layer := layer + [Entry(rest[k].value, h.balancer)];
          assert FrontOf(ws[k], layer[|layer| - 1]);
        }
      }
    }
    forall j | 0 <= j < |ws| && |ws[j].history| > 0
      ensures exists i :: 0 <= i < |layer| && layer[i].balancer == ws[j].history[0].balancer
    {
      assert ws[j].history[0].balancer in seen;
    }
  }

  predicate SortedByValue(es: seq<Entry>)
  {
    forall i, j :: 0 <= i < j < |es| ==> es[i].value <= es[j].value
  }

  /** `sort_by_key` on the value, which is stable: `x` goes before the
      entries whose value is not smaller. */
  function Insert(x: Entry, es: seq<Entry>): (r: seq<Entry>)
    ensures |r| == |es| + 1 && multiset(r) == multiset(es) + multiset{x}
    ensures r[0] == x || (es != [] && r[0] == es[0])
  {
    if es == [] || x.value <= es[0].value then [x] + es
    else
      assert es == [es[0]] + es[1..];
      [es[0]] + Insert(x, es[1..])
  }

  /** `layer.sort_by_key(|&(idx, _)| idx)`. */
  function SortByValue(es: seq<Entry>): (r: seq<Entry>)
    ensures |r| == |es| && multiset(r) == multiset(es)
  {
    if es == [] then []
    else
      assert es == [es[0]] + es[1..];
      Insert(es[0], SortByValue(es[1..]))
  }

  lemma {:induction false} InsertSorted(x: Entry, es: seq<Entry>)
    requires SortedByValue(es)
    ensures SortedByValue(Insert(x, es))
    decreases |es|
  {
    if !(es == [] || x.value <= es[0].value) {
      InsertSorted(x, es[1..]);
      var r := Insert(x, es[1..]);
      assert es[0].value <= r[0].value;
      assert forall j :: 0 <= j < |r| ==> r[0].value <= r[j].value;
    }
  }

  /** The entries come out sorted by value. */
  lemma {:induction false} SortSorted(es: seq<Entry>)
    ensures SortedByValue(SortByValue(es))
    decreases |es|
  {
    if es != [] {
      SortSorted(es[1..]);
      InsertSorted(es[0], SortByValue(es[1..]));
    }
  }

  lemma {:induction false} InsertDistinct(x: Entry, es: seq<Entry>)
    requires DistinctBalancers(es) && forall y :: y in es ==> y.balancer != x.balancer
    ensures DistinctBalancers(Insert(x, es))
    decreases |es|
  {
    if !(es == [] || x.value <= es[0].value) {
      InsertDistinct(x, es[1..]);
      var r := Insert(x, es[1..]);
      forall j | 0 <= j < |r| ensures r[j].balancer != es[0].balancer {
        assert r[j] in multiset(r);
        if r[j] != x {
          assert r[j] in multiset(es[1..]);
          var k :| 0 <= k < |es[1..]| && es[1..][k] == r[j];
          assert es[k + 1] == r[j];
        }
      }
    }
  }

  /** Sorting keeps the balancers of a layer distinct. */
  lemma {:induction false} SortDistinct(es: seq<Entry>)
    requires DistinctBalancers(es)
    ensures DistinctBalancers(SortByValue(es))
    decreases |es|
  {
    if es != [] {
      SortDistinct(es[1..]);
      var r := SortByValue(es[1..]);
      forall y | y in r ensures y.balancer != es[0].balancer {
        assert y in multiset(es[1..]);
        var k :| 0 <= k < |es[1..]| && es[1..][k] == y;
        assert es[k + 1] == y;
      }
      InsertDistinct(es[0], r);
    }
  }

  /** The balancers of a sorted layer, in order. */
  function BalancerIds(es: seq<Entry>): (r: seq<nat>)
    ensures |r| == |es| && forall i :: 0 <= i < |es| ==> r[i] == es[i].balancer
  {
    seq(|es|, i requires 0 <= i < |es| => es[i].balancer)
  }

  /** The layering loop of `BitonicNetwork::new`: `layers` rounds of
      `PopLayer`, each layer sorted by value and appended. `first` is the
      first round's layer before sorting; that round is written before the
      loop, the others in it. */
  method LayerBalancers(ws: seq<Wire>, layers: nat) returns (balancers: seq<nat>, ghost first: seq<Entry>)
    ensures layers > 0 ==> Fronts(ws, first) && BalancerIds(SortByValue(first)) <= balancers
  {
    balancers := [];
    first := [];
    if layers > 0 {
      var wires, entries := PopLayer(ws);
      first := entries;
      balancers := BalancerIds(SortByValue(entries));
      for layer := 1 to layers
        invariant BalancerIds(SortByValue(first)) <= balancers
      {
        var rest, next := PopLayer(wires);
        var sorted := SortByValue(next);
        ghost var before := balancers;
        balancers := balancers + BalancerIds(sorted);
        PrefixTrans(BalancerIds(SortByValue(first)), before, balancers);
        wires := rest;
      }
    }
  }

  // ----- the first layer -----

  /** Balancer `b` takes inputs `2p` and `2p + 1`. */
  predicate PairAt(f: seq<Feed>, b: nat, p: nat)
  {
    b < |f| && f[b] == Feed(Input(2 * p), Input(2 * p + 1))
  }

  /** What `construct_bitonic(width, 0)` promises about where the wires
      start: each first balancer takes its wire's input, neighbouring inputs
      share a balancer, no segment is taken twice, and the wire values are
      `0 .. width`, each once. */
  ghost predicate Starts(f: seq<Feed>, ws: seq<Wire>, width: nat)
  {
    && |ws| == width && width % 2 == 0
    && Linear(f) && PairsFed(f, 0, width / 2) && Spans(ws, 0, width)
    && forall k :: 0 <= k < |ws| ==> |ws[k].history| > 0 && FedBy(f, ws[k].history[0].balancer, Input(ws[k].value))
  }

  lemma {:induction false} CountIndex<T>(s: seq<T>, x: T) returns (k: nat)
    requires Count(s, x) > 0
    ensures k < |s| && s[k] == x
    decreases |s|
  {
    if s[0] == x {
      k := 0;
    } else {
      var j := CountIndex(s[1..], x);
      k := j + 1;
    }
  }

  lemma SpansAt(ws: seq<Wire>, width: nat, v: nat)
    requires Spans(ws, 0, width)
    ensures Count(Values(ws), v) == if v < width then 1 else 0
  {
  }

  /** A layer entry brought by wire `j` names the balancer of the pair its
      value belongs to. */
  lemma EntryPair(f: seq<Feed>, ws: seq<Wire>, width: nat, j: nat, e: Entry)
    requires Starts(f, ws, width) && j < |ws| && FrontOf(ws[j], e)
    ensures e.value / 2 < width / 2 && PairAt(f, e.balancer, e.value / 2)
  {
    var v := e.value;
    assert Values(ws)[j] == v;
    CountAt(Values(ws), j);
    SpansAt(ws, width, v);
    var p := v / 2;
    PairsFedAt(f, 0, width / 2, p);
    var c := PairFedAt(f, 2 * p);
    assert FedBy(f, c, Input(v));
    OneTaker(f, Input(v), e.balancer, c);
    HalfLess(v, width);
  }

  lemma HalfLess(v: nat, width: nat)
    requires v < width && width % 2 == 0
    ensures v / 2 < width / 2
  {
  }

  /** Every entry of a first layer names the balancer of its value's pair. */
  lemma EntriesPair(f: seq<Feed>, ws: seq<Wire>, width: nat, first: seq<Entry>, x: Entry)
    requires Starts(f, ws, width) && Fronts(ws, first) && x in multiset(first)
    ensures x.value / 2 < width / 2 && PairAt(f, x.balancer, x.value / 2)
  {
    var i :| 0 <= i < |first| && first[i] == x;
    var j :| 0 <= j < |ws| && FrontOf(ws[j], first[i]);
    EntryPair(f, ws, width, j, x);
  }

  /** Value `p` occurs in `h`. */
  predicate Hit(h: seq<nat>, p: nat)
  {
    exists i :: 0 <= i < |h| && h[i] == p
  }

  predicate Increasing(h: seq<nat>)
  {
    forall i, j :: 0 <= i < j < |h| ==> h[i] < h[j]
  }

  lemma {:induction false} IncreasingFrom(h: seq<nat>, i: nat)
    requires Increasing(h) && i < |h|
    ensures h[i] >= i
    decreases i
  {
    if i > 0 {
      IncreasingFrom(h, i - 1);
    }
  }

  lemma {:induction false} CoverAt(h: seq<nat>, n: nat, i: nat)
    requires Increasing(h) && forall j :: 0 <= j < |h| ==> h[j] < n
    requires forall p :: 0 <= p < n ==> Hit(h, p)
    requires i < |h|
    ensures h[i] == i
    decreases i
  {
    IncreasingFrom(h, i);
    assert Hit(h, i);
    var j :| 0 <= j < |h| && h[j] == i;
    if j < i {
      CoverAt(h, n, j);
      assert false;
    }
  }

  /** An increasing sequence below `n` that hits every value below `n` is
      `0 .. n`. */
  lemma StrictCover(h: seq<nat>, n: nat)
    requires Increasing(h) && forall j :: 0 <= j < |h| ==> h[j] < n
    requires forall p :: 0 <= p < n ==> Hit(h, p)
    ensures |h| == n && forall i :: 0 <= i < |h| ==> h[i] == i
  {
    forall i | 0 <= i < |h| ensures h[i] == i {
      CoverAt(h, n, i);
    }
    if |h| > 0 {
      assert h[|h| - 1] == |h| - 1;
    }
    if n > 0 {
      assert Hit(h, n - 1);
      var j :| 0 <= j < |h| && h[j] == n - 1;
    }

  }

  /** The first layer, sorted by value, lists the balancer of inputs `0, 1`,
      then that of inputs `2, 3`, and so on: `width / 2` balancers. */
  lemma FirstLayerSorted(f: seq<Feed>, ws: seq<Wire>, width: nat, first: seq<Entry>, sorted: seq<Entry>)
    requires Starts(f, ws, width) && Fronts(ws, first) && sorted == SortByValue(first)
    ensures |sorted| == width / 2 && forall i :: 0 <= i < width / 2 ==> PairAt(f, sorted[i].balancer, i)
  {
    SortedPairs(f, ws, width, first, sorted);
    SortSorted(first);
    SortDistinct(first);
    KeysIncreasing(f, sorted);
    AllPairsHit(f, ws, width, first, sorted);
    StrictCover(Pairs(sorted), width / 2);
  }

  /** The pair each entry's value belongs to. */
  function Pairs(es: seq<Entry>): (r: seq<nat>)
    ensures |r| == |es| && forall i :: 0 <= i < |es| ==> r[i] == es[i].value / 2
  {
    seq(|es|, i requires 0 <= i < |es| => es[i].value / 2)
  }

  /** Every pair has an entry in the sorted first layer. */
  lemma AllPairsHit(f: seq<Feed>, ws: seq<Wire>, width: nat, first: seq<Entry>, sorted: seq<Entry>)
    requires Starts(f, ws, width) && Fronts(ws, first) && multiset(sorted) == multiset(first)
    ensures forall p :: 0 <= p < width / 2 ==> Hit(Pairs(sorted), p)
  {
    var h := Pairs(sorted);
    forall p | 0 <= p < width / 2 ensures Hit(h, p) {
      var x := PairEntry(f, ws, width, first, p);
      assert x in multiset(sorted);
      var i :| 0 <= i < |sorted| && sorted[i] == x;
      assert h[i] == p;
    }
  }

  /** Each entry of the sorted first layer names the balancer of its
      value's pair. */
  lemma SortedPairs(f: seq<Feed>, ws: seq<Wire>, width: nat, first: seq<Entry>, sorted: seq<Entry>)
    requires Starts(f, ws, width) && Fronts(ws, first) && sorted == SortByValue(first)
    ensures forall i :: 0 <= i < |sorted| ==> Pairs(sorted)[i] < width / 2 && PairAt(f, sorted[i].balancer, Pairs(sorted)[i])
  {
    forall i | 0 <= i < |sorted|
      ensures Pairs(sorted)[i] < width / 2 && PairAt(f, sorted[i].balancer, Pairs(sorted)[i])
    {
      assert sorted[i] in multiset(sorted);
      EntriesPair(f, ws, width, first, sorted[i]);
    }
  }

  /** Sorted entries with distinct balancers, each the balancer of its
      value's pair, name increasing pairs. */
  lemma KeysIncreasing(f: seq<Feed>, sorted: seq<Entry>)
    requires Linear(f) && SortedByValue(sorted) && DistinctBalancers(sorted)
    requires forall i :: 0 <= i < |sorted| ==> PairAt(f, sorted[i].balancer, Pairs(sorted)[i])
    ensures Increasing(Pairs(sorted))
  {
    var h := Pairs(sorted);
    forall i, j | 0 <= i < j < |h| ensures h[i] < h[j] {
      assert sorted[i].value <= sorted[j].value;
      if h[i] == h[j] {
        assert PairAt(f, sorted[j].balancer, h[i]);
        OneTaker(f, Input(2 * h[i]), sorted[i].balancer, sorted[j].balancer);
        assert false;
      }
    }
  }

  /** Pair `p` is named by some entry of the first layer. */
  lemma PairEntry(f: seq<Feed>, ws: seq<Wire>, width: nat, first: seq<Entry>, p: nat) returns (x: Entry)
    requires Starts(f, ws, width) && Fronts(ws, first) && p < width / 2
    ensures x in multiset(first) && x.value / 2 == p
  {
    var v: nat := 2 * p;
    SpansAt(ws, width, v);
    var k := CountIndex(Values(ws), v);
    var b := ws[k].history[0].balancer;
    assert FedBy(f, b, Input(2 * p));
    var i :| 0 <= i < |first| && first[i].balancer == b;
    x := first[i];
    EntriesPair(f, ws, width, first, x);
    SamePair(f, b, p, x.value / 2);
  }

  /** The balancer of pair `q` takes input `2p` only when `p` is `q`. */
  lemma SamePair(f: seq<Feed>, b: nat, p: nat, q: nat)
    requires PairAt(f, b, q) && FedBy(f, b, Input(2 * p))
    ensures p == q
  {
  }

  /** The first `width / 2` balancers, in order, take inputs `2i` and
      `2i + 1`: `traverse` enters at `balancers[slot / 2]`. */
  predicate FirstLayer(f: seq<Feed>, balancers: seq<nat>, width: nat)
  {
    |balancers| >= width / 2 && forall i :: 0 <= i < width / 2 ==> PairAt(f, balancers[i], i)
  }

  /** Input `slot` enters the network at balancer `balancers[slot / 2]`. */
  lemma SlotEntry(f: seq<Feed>, balancers: seq<nat>, width: nat, slot: nat)
    requires FirstLayer(f, balancers, width) && slot < width && width % 2 == 0
    ensures slot / 2 < |balancers| && FedBy(f, balancers[slot / 2], Input(slot))
  {
    assert PairAt(f, balancers[slot / 2], slot / 2);
  }

  // ----- the assembled network -----

  /** Everything `traverse` relies on, fixed once `new` returns: the arena
      is topologically ordered and linear, every segment feeds one balancer
      or ends one wire, the wires count like `Bitonic[width]`, every port
      leads somewhere and the first layer is listed in input order. */
  ghost predicate Shaped(arena: Arena, wires: seq<Wire>, nodes: seq<Node>, balancers: seq<nat>, width: nat)
  {
    && IsPow2(width) && width >= 2 && |wires| == width
    && |nodes| == |arena.feeds|
    && FromBefore(arena.feeds) && Linear(arena.feeds)
    && Unshared(arena.feeds, wires) && Bounded(arena, wires)
    && CountsLike(arena, wires, 0, width)
    && Linked(arena.feeds, wires, nodes)
    && FirstLayer(arena.feeds, balancers, width)
  }

  /** The body of `BitonicNetwork::new` after the outputs are allocated:
      build `Bitonic[width]`, attach the outputs, list the layers. */
  method Assemble(width: nat) returns (nodes: seq<Node>, balancers: seq<nat>, ghost arena: Arena, ghost wires: seq<Wire>)
    requires IsPow2(width) && width >= 2
    ensures Shaped(arena, wires, nodes, balancers, width)
  {
    var built := ConstructBitonic(EmptyArena, width, 0);
    BuiltFacts(built, width);
    arena, wires := built.0, built.1;
    LayerSlots(wires, width);
    nodes := AttachOutputs(built.0.nodes, built.1);
    var layers := NumLayers(width);
    ghost var first;
    balancers, first := LayerBalancers(built.1, layers);
    BuiltShaped(arena, wires, nodes, balancers, first, width, layers);
  }

  /** What `construct_bitonic(width, 0)` promises, in the terms the rest of
      `new` needs. */
  lemma BuiltFacts(r: (Arena, seq<Wire>), width: nat)
    requires IsPow2(width) && width >= 2 && Built(EmptyArena, r, 0, width)
    ensures |r.1| == width && Depth(r.1, BitonicDepth(width))
    ensures Balanced(EmptyArena, r.0, r.1, 0, width) && PortsAre(r.0) && FromBefore(r.0.feeds)
    ensures Bounded(r.0, r.1) && |r.0.nodes| == |r.0.feeds| && CountsLike(r.0, r.1, 0, width)
    ensures Starts(r.0.feeds, r.1, width)
  {
    assert WellFormed(EmptyArena);
    StartsBuilt(r.0, r.1, width);
  }

  lemma BuiltShaped(arena: Arena, wires: seq<Wire>, nodes: seq<Node>, balancers: seq<nat>, first: seq<Entry>, width: nat, layers: nat)
    requires IsPow2(width) && width >= 2 && |wires| == width && layers == NumLayers(width)
    requires Depth(wires, BitonicDepth(width))
    requires Balanced(EmptyArena, arena, wires, 0, width) && PortsAre(arena) && FromBefore(arena.feeds)
    requires Bounded(arena, wires) && |arena.nodes| == |arena.feeds| && CountsLike(arena, wires, 0, width)
    requires Starts(arena.feeds, wires, width)
    requires |nodes| == |arena.nodes|
    requires forall b: nat, up: bool :: b < |arena.nodes| ==>
      Port(nodes[b], up) == LeafOr(wires, |wires|, Out(Hop(b, up)), Port(arena.nodes[b], up))
    requires layers > 0 ==> Fronts(wires, first) && BalancerIds(SortByValue(first)) <= balancers
    ensures Shaped(arena, wires, nodes, balancers, width)
  {
    BalancedUnshared(arena, wires, width);
    AttachedLinked(arena, wires, width, nodes);
    Pow2Halves(width);
    assert BitonicDepth(width) >= 1;
    FirstLayerBuilt(arena.feeds, wires, balancers, first, width);
  }

  lemma FirstLayerBuilt(f: seq<Feed>, wires: seq<Wire>, balancers: seq<nat>, first: seq<Entry>, width: nat)
    requires Starts(f, wires, width)
    requires Fronts(wires, first) && BalancerIds(SortByValue(first)) <= balancers
    ensures FirstLayer(f, balancers, width)
  {
    var sorted := SortByValue(first);
    FirstLayerSorted(f, wires, width, first, sorted);
    PrefixLayer(f, sorted, balancers, width);
  }

  lemma PrefixLayer(f: seq<Feed>, sorted: seq<Entry>, balancers: seq<nat>, width: nat)
    requires |sorted| == width / 2 && forall i :: 0 <= i < width / 2 ==> PairAt(f, sorted[i].balancer, i)
    requires BalancerIds(sorted) <= balancers
    ensures FirstLayer(f, balancers, width)
  {
    assert forall i :: 0 <= i < width / 2 ==> balancers[i] == BalancerIds(sorted)[i];
  }

  lemma StartsBuilt(arena: Arena, wires: seq<Wire>, width: nat)
    requires IsPow2(width) && width >= 2 && Built(EmptyArena, (arena, wires), 0, width)
    ensures Starts(arena.feeds, wires, width)
  {
    Pow2Halves(width);
    BalancedUnshared(arena, wires, width);
    assert BitonicDepth(width) >= 1;
    forall k | 0 <= k < |wires|
      ensures |wires[k].history| > 0 && FedBy(arena.feeds, wires[k].history[0].balancer, Input(wires[k].value))
    {
      assert |wires[k].history| == BitonicDepth(width);
    }
  }

  // ----- walking the network -----

  /** Where the port a walk leaves by leads: to a later balancer not yet
      passed, which takes the segment the token is on, or to an output wire
      ending in that segment. */
  lemma FollowAdvance(f: seq<Feed>, ws: seq<Wire>, nodes: seq<Node>, slot: nat, path: seq<Hop>)
    requires Linked(f, ws, nodes) && FromBefore(f) && |nodes| == |f|
    requires |path| > 0 && path[|path| - 1].balancer < |nodes|
    requires forall i :: 0 <= i < |path| ==> path[i].balancer <= path[|path| - 1].balancer
    ensures var last := path[|path| - 1];
            var d := Port(nodes[last.balancer], last.up);
            && (d.Internal? ==> last.balancer < d.id < |nodes| && !OnPath(path, d.id) && FedBy(f, d.id, HotSeg(slot, path, |path|)))
            && (!d.Internal? ==> d.Leaf? && d.output < |ws| && WireSource(ws[d.output]) == HotSeg(slot, path, |path|))
  {
    var last := path[|path| - 1];
    var d := Port(nodes[last.balancer], last.up);
    assert Leads(f, ws, d, Out(last));
    if d.Internal? {
      assert FeedSource(f[d.id], false) == f[d.id].upper;
      assert FeedSource(f[d.id], true) == f[d.id].lower;
    }
  }

  lemma WalkOn(f: seq<Feed>, t: seq<nat>, s: nat, path: seq<Hop>, h: Hop)
    requires Walk(f, t, s, path) && h.balancer < |t|
    requires FedBy(f, h.balancer, HotSeg(s, path, |path|)) && h.up == (t[h.balancer] % 2 == 1)
    ensures Walk(f, t, s, path + [h])
  {
    var p := path + [h];
    forall i | 0 <= i < |p| ensures Passed(f, t, s, p, i) {
      assert HotSeg(s, p, i) == HotSeg(s, path, i);
      if i < |path| {
        assert Passed(f, t, s, path, i);
      }
    }
  }

  /** A balancer not yet passed counts one more when the walk passes it. */
  lemma RaisedOn(t: seq<nat>, u: seq<nat>, path: seq<Hop>, h: Hop)
    requires Raised(t, u, path) && h.balancer < |t| && !OnPath(path, h.balancer)
    ensures Raised(t, u[h.balancer := u[h.balancer] + 1], path + [h])
  {
    var p := path + [h];
    assert p[|path|].balancer == h.balancer;
    forall b | 0 <= b < |t| && b != h.balancer ensures OnPath(p, b) == OnPath(path, b) {
      if OnPath(p, b) {
        var i :| 0 <= i < |p| && p[i].balancer == b;
        assert path[i].balancer == b;
      }
      if OnPath(path, b) {
        var i :| 0 <= i < |path| && path[i].balancer == b;
        assert p[i].balancer == b;
      }
    }
  }

  /** The counts after a walk determine themselves: `Raised` is a function
      of the counts before and the path. */
  lemma RaisedUnique(t: seq<nat>, u: seq<nat>, v: seq<nat>, path: seq<Hop>)
    requires Raised(t, u, path) && Raised(t, v, path)
    ensures u == v
  {
  }

  /** A walk that ends on the wire of output `k`: `k` is the next output in
      round-robin order, and the toggles afterwards are the quiescent counts
      with the one more token. */
  lemma WalkEnds(a: Arena, ws: seq<Wire>, tokens: seq<nat>, t: seq<nat>, u: seq<nat>, s: nat, path: seq<Hop>, k: nat, bumped: seq<nat>)
    requires FromBefore(a.feeds) && Linear(a.feeds) && Unshared(a.feeds, ws) && Bounded(a, ws)
    requires IsPow2(|ws|) && CountsLike(a, ws, 0, |ws|)
    requires |tokens| == |ws| && s < |tokens| && t == Totals(a.feeds, tokens)
    requires Walk(a.feeds, t, s, path) && Raised(t, u, path)
    requires k < |ws| && WireSource(ws[k]) == HotSeg(s, path, |path|) && bumped == Bump(tokens, s)
    ensures k == Sum(tokens) % |ws| && u == Totals(a.feeds, bumped)
  {
    var src := HotSeg(s, path, |path|);
    assert Sources(ws)[k] == src;
    CountAt(Sources(ws), k);
    assert Uses(a.feeds, src) + Count(Sources(ws), src) <= 1;
    PathOutput(a, tokens, s, path, ws, k);
    PathTotalsAll(a.feeds, tokens, s, path);
    RaisedUnique(t, u, Totals(a.feeds, bumped), path);
  }

  // ----- the network -----

  /** A bitonic counting network over outputs of type `L`. The arena and its
      wires are ghost: they are how the network was built, kept to state what
      the toggles count. */
  class BitonicNetwork<L> {
    const width: nat
    const outputs: seq<L>
    /** The two ports of every balancer, fixed once `new` returns. */
    const nodes: seq<Node>
    /** `balancers`: the balancers layer by layer, each layer in input order. */
    const balancers: seq<nat>
    /** `num_layers`, stored by the older `src/bitonic_network.rs`. */
    const layers: nat
    ghost const arena: Arena
    ghost const wires: seq<Wire>
    /** The `value` of every balancer: how many tokens it has let through. */
    var toggles: seq<nat>
    /** How many tokens have entered at each input. */
    ghost var tokens: seq<nat>

    ghost predicate Valid()
      reads this
    {
      && IsPow2(width)
      && Shaped(arena, wires, nodes, balancers, width)
      && |outputs| == width && layers == NumLayers(width)
      && |tokens| == width && toggles == Totals(arena.feeds, tokens)
    }

    /** `BitonicNetwork::new(outputs)`: the width is the number of outputs,
        which must be a power of two (asserted) and at least two
        (`Wire::last` fails on the single bare wire of `Bitonic[1]`). */
    constructor (outputs: seq<L>)
      requires IsPow2(|outputs|) && |outputs| >= 2
      ensures Valid() && this.outputs == outputs && width == |outputs|
      ensures forall s :: 0 <= s < width ==> tokens[s] == 0
    {
      var nodes, balancers;
      ghost var arena, wires;
      nodes, balancers, arena, wires := Assemble(|outputs|);
      this.width := |outputs|;
      this.outputs := outputs;
      this.nodes := nodes;
      this.balancers := balancers;
      this.layers := NumLayers(|outputs|);
      this.arena := arena;
      this.wires := wires;
      this.toggles := seq(|nodes|, _ => 0);
      this.tokens := seq(|outputs|, _ => 0);
      new;
      TotalsZero(arena.feeds, tokens);
    }

    /** `BitonicNetwork::new(width, outputs)` of `src/bitonic_network.rs`:
        the same network, with the width given and checked against the
        outputs. */
    constructor WithWidth(width: nat, outputs: seq<L>)
      requires IsPow2(width) && width == |outputs| && width >= 2
      ensures Valid() && this.outputs == outputs && this.width == width
      ensures forall s :: 0 <= s < width ==> tokens[s] == 0
    {
      var nodes, balancers;
      ghost var arena, wires;
      nodes, balancers, arena, wires := Assemble(width);
      this.width := width;
      this.outputs := outputs;
      this.nodes := nodes;
      this.balancers := balancers;
      this.layers := NumLayers(width);
      this.arena := arena;
      this.wires := wires;
      this.toggles := seq(|nodes|, _ => 0);
      this.tokens := seq(width, _ => 0);
      new;
      TotalsZero(arena.feeds, tokens);
    }

    /** `width()`: as many inputs as outputs. */
    function Width(): (r: nat)
      requires Valid()
      reads this
      ensures r == |outputs| && IsPow2(r)
    {
      width
    }

    /** `num_layers()`: every wire passes that many balancers. */
    function NumLayersOf(): (r: nat)
      requires Valid()
      reads this
      ensures r == BitonicDepth(width)
    {
      layers
    }

    /** `outputs()`: one output per wire. */
    function Outputs(): (r: seq<L>)
      requires Valid()
      reads this
      ensures r == outputs && |r| == Width()
    {
      outputs
    }

    /** `InternalBalancer::toggle_up`: count one more token and report
        whether the count was odd before. */
    method ToggleUp(b: nat) returns (up: bool)
      requires b < |toggles|
      modifies this`toggles
      ensures toggles == old(toggles)[b := old(toggles)[b] + 1]
      ensures up == (old(toggles)[b] % 2 == 1)
    {
      up := toggles[b] % 2 == 1;
      toggles := toggles[b := toggles[b] + 1];
    }

    /** `InternalBalancer::next`: leave balancer `b` by port 1 when the
        toggle was odd, by port 0 when it was even. */
    method Next(b: nat) returns (d: Dest)
      requires b < |nodes| && |toggles| == |nodes|
      modifies this`toggles
      ensures toggles == old(toggles)[b := old(toggles)[b] + 1]
      ensures d == Port(nodes[b], old(toggles)[b] % 2 == 1)
    {
      var up := ToggleUp(b);
      d := Port(nodes[b], up);
    }

    /** `traverse()`: enter at input `hash % width` (the thread's hash),
        follow the toggles to an output and return it. Whatever the inputs,
        the `n`-th token to leave gets output `n % width`. */
    method Traverse(hash: nat) returns (out: L)
      requires Valid()
      modifies this
      ensures Valid()
      ensures tokens == old(tokens)[hash % width := old(tokens)[hash % width] + 1]
      ensures out == outputs[old(Sum(tokens)) % width]
    {
      var slot := hash % width;
      var range := LayerRange(0, width / 2);
      SlotEntry(arena.feeds, balancers, width, slot);
      ghost var t := toggles;
      var k;
      ghost var path;
      k, path := Follow(slot, balancers[range.0 + slot / 2]);
      out := outputs[k];
      ghost var bumped := Bump(tokens, slot);
      WalkEnds(arena, wires, tokens, t, toggles, slot, path, k, bumped);
      tokens := bumped;
    }

    /** The walk of `traverse` from the first balancer `b`, which takes
        input `slot`: `next` on every balancer reached, until a port leads
        to an output. It ends on the wire of output `k`, having raised the
        count of every balancer on its path by one. */
    method Follow(slot: nat, b: nat) returns (k: nat, ghost path: seq<Hop>)
      requires Linked(arena.feeds, wires, nodes) && FromBefore(arena.feeds)
      requires |toggles| == |nodes| == |arena.feeds| && FedBy(arena.feeds, b, Input(slot))
      modifies this`toggles
      ensures Walk(arena.feeds, old(toggles), slot, path) && Raised(old(toggles), toggles, path)
      ensures k < |wires| && WireSource(wires[k]) == HotSeg(slot, path, |path|)
    {
      ghost var t := toggles;
      ghost var f := arena.feeds;
      var c := b;
      ghost var h := Hop(c, toggles[c] % 2 == 1);
      WalkOn(f, t, slot, [], h);
      RaisedOn(t, toggles, [], h);
      path := [h];
      var current := Next(c);
      while current.Internal?
        invariant |toggles| == |t| == |f|
        invariant |path| > 0 && c == path[|path| - 1].balancer && c < |nodes|
        invariant current == Port(nodes[c], path[|path| - 1].up)
        invariant Walk(f, t, slot, path) && Raised(t, toggles, path)
        invariant forall i :: 0 <= i < |path| ==> path[i].balancer <= c
        decreases |nodes| - c
      {
        FollowAdvance(f, wires, nodes, slot, path);
        c := current.id;
        h := Hop(c, toggles[c] % 2 == 1);
        WalkOn(f, t, slot, path, h);
        RaisedOn(t, toggles, path, h);
        path := path + [h];
        current := Next(c);
      }
      FollowAdvance(f, wires, nodes, slot, path);
      k := current.output;
    }
  }

  /** No tokens yet, so nothing counted yet. */
  lemma {:induction false} SumZero(s: seq<nat>)
    requires forall i :: 0 <= i < |s| ==> s[i] == 0
    ensures Sum(s) == 0
  {
    if |s| > 0 {
      SumZero(s[1..]);
    }
  }

  /** Calls of `traverse` one after another, by threads with the hashes
      `hashes`: when `n` tokens have left before, the `i`-th call gets
      output `(n + i) % width`, whatever the hashes. */
  method TraverseMany<L>(net: BitonicNetwork<L>, hashes: seq<nat>) returns (outs: seq<L>)
    requires net.Valid()
    modifies net
    ensures net.Valid() && Sum(net.tokens) == old(Sum(net.tokens)) + |hashes|
    ensures |outs| == |hashes|
    ensures forall i :: 0 <= i < |hashes| ==> outs[i] == net.outputs[(old(Sum(net.tokens)) + i) % net.width]
  {
    ghost var n := Sum(net.tokens);
    outs := [];
    var i := 0;
    while i < |hashes|
      invariant 0 <= i <= |hashes| && |outs| == i
      invariant net.Valid() && Sum(net.tokens) == n + i
      invariant forall j :: 0 <= j < i ==> outs[j] == net.outputs[(n + j) % net.width]
    {
      ghost var before := net.tokens;
      var out := net.Traverse(hashes[i]);
      var slot := hashes[i] % net.width;
      SumUpdate(before, slot, before[slot] + 1);
      outs := outs + [out];
      i := i + 1;
    }
  }

  /** The traversal test: on a new network, as many calls as there are
      outputs, or fewer, get the outputs in order, from whichever inputs
      the calling threads enter. */
  method TraverseFresh<L>(outputs: seq<L>, hashes: seq<nat>) returns (outs: seq<L>)
    requires IsPow2(|outputs|) && |outputs| >= 2 && |hashes| <= |outputs|
    ensures outs == outputs[..|hashes|]
  {
    var net := new BitonicNetwork(outputs);
    SumZero(net.tokens);
    outs := TraverseMany(net, hashes);
    forall i | 0 <= i < |hashes|
      ensures outs[i] == outputs[i]
    {
      DivMod(i, |outputs|, 0, i);
    }
  }
}
