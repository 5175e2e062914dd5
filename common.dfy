/** The generic network of `src/networks/common.rs`: an arena of wire
    segments built from any sequence of balancer pairs (`config`, given
    back to front), with the outputs as the first `width` segments, in
    reverse, and every balancer pointing at the earlier segments its two
    wires led to. A token walks from the last segment of its input wire,
    and every balancer it meets sends it on by its toggle bit. */
module ArenaNetwork {
  /** `WireSegment`: a balancer and the segment indices of its two
      `next_segments`, or the end of a wire at an output index. */
  datatype Segment = Balancer(top: nat, bottom: nat) | End(output: nat)

  // ----- construction -----

  /** The segment wire `w` leads into once the first `n` pairs of `config`
      are placed: the balancer of the latest of those pairs touching `w`
      (balancer `p` sits at segment `width + p`), or the wire's own end
      segment `w` if none touches it. */
  function Latest(config: seq<(nat, nat)>, width: nat, n: nat, w: nat): nat
    requires n <= |config|
  {
    if n == 0 then w
    else if config[n - 1].0 == w || config[n - 1].1 == w then width + n - 1
    else Latest(config, width, n - 1, w)
  }

  /** Whether pair `p` of `config` touches wire `w`. */
  predicate Touches(config: seq<(nat, nat)>, p: nat, w: nat)
    requires p < |config|
  {
    config[p].0 == w || config[p].1 == w
  }

  /** `Latest` is the last pair touching the wire: the wire's own end
      segment exactly when no pair before `n` touches it, and otherwise the
      balancer of a pair before `n` that touches it, with no later pair
      before `n` touching it. */
  lemma {:induction false} LatestIsLast(config: seq<(nat, nat)>, width: nat, n: nat, w: nat)
    requires n <= |config| && w < width
    ensures Latest(config, width, n, w) == w <==> forall q :: 0 <= q < n ==> !Touches(config, q, w)
    ensures Latest(config, width, n, w) != w ==>
      && width <= Latest(config, width, n, w) < width + n
      && Touches(config, Latest(config, width, n, w) - width, w)
      && forall q :: Latest(config, width, n, w) - width < q < n ==> !Touches(config, q, w)
    decreases n
  {
    if n > 0 {
      LatestIsLast(config, width, n - 1, w);
      if !Touches(config, n - 1, w) {
        assert (forall q :: 0 <= q < n ==> !Touches(config, q, w))
          <==> (forall q :: 0 <= q < n - 1 ==> !Touches(config, q, w));
      }
    }
  }

  /** A wire never leads forward: every segment `Latest` names lies before
      the balancer of pair `n`, which is segment `width + n`. */
  lemma {:induction false} LatestBefore(config: seq<(nat, nat)>, width: nat, n: nat, w: nat)
    requires n <= |config| && w < width
    ensures Latest(config, width, n, w) < width + n
    decreases n
  {
    if n > 0 {
      LatestBefore(config, width, n - 1, w);
    }
  }

  // ----- the arena -----

  /** The arena `new` builds over `width` outputs: the end segments first,
      then only balancers, each pointing at two earlier segments. */
  ghost predicate Shaped(segments: seq<Segment>, width: nat)
  {
    && width <= |segments|
    && (forall k :: 0 <= k < |segments| ==> (segments[k].End? <==> k < width))
    && (forall k :: 0 <= k < width ==> segments[k].output < width)
    && (forall k :: width <= k < |segments| ==> segments[k].top < k && segments[k].bottom < k)
  }

  /** `check_segment_ptrs_in_bounds`: every balancer points into the
      segments and every end into the outputs. */
  predicate CheckSegmentPtrsInBounds(segments: seq<Segment>, outputs: nat)
  {
    forall k :: 0 <= k < |segments| ==>
      match segments[k]
      case Balancer(top, bottom) => top < |segments| && bottom < |segments|
      case End(output) => output < outputs
  }

  /** The shape `new` builds passes the bounds check of its
      `debug_assert`. */
  lemma ShapedInBounds(segments: seq<Segment>, width: nat)
    requires Shaped(segments, width)
    ensures CheckSegmentPtrsInBounds(segments, width)
  {
    forall k | 0 <= k < |segments|
      ensures match segments[k]
        case Balancer(top, bottom) => top < |segments| && bottom < |segments|
        case End(output) => output < width
    {
      if k >= width {
        assert segments[k].Balancer?;
      }
    }
  }

  // ----- traversal -----

  /** The walk of `traverse` from segment `i`, with the balancer bits
      `values` (bit `p` for segment `width + p`): at an end, its output and
      the bits; at a balancer, `toggle_up` returns the old bit and flips it,
      and the walk goes on by `next_segments[1]` (bottom) if the bit was set
      and by `next_segments[0]` (top) if not. */
  function Reach(segments: seq<Segment>, width: nat, values: seq<bool>, i: nat): (r: (nat, seq<bool>))
    requires Shaped(segments, width) && |values| == |segments| - width && i < |segments|
    ensures r.0 < width && |r.1| == |values|
    decreases i
  {
    match segments[i]
    case End(output) => (output, values)
    case Balancer(top, bottom) =>
      var up := values[i - width];
      Reach(segments, width, values[i - width := !up], if up then bottom else top)
  }

  /** The balancers (by segment index) the walk of `Reach` passes, in order. */
  function Route(segments: seq<Segment>, width: nat, values: seq<bool>, i: nat): (r: seq<nat>)
    requires Shaped(segments, width) && |values| == |segments| - width && i < |segments|
    decreases i
  {
    match segments[i]
    case End(_) => []
    case Balancer(top, bottom) =>
      var up := values[i - width];
      [i] + Route(segments, width, values[i - width := !up], if up then bottom else top)
  }

  /** The walk only goes down the arena: its route holds balancers at or
      below its start, each lower than the one before, so it passes every
      balancer at most once. */
  lemma {:induction false} RouteDescends(segments: seq<Segment>, width: nat, values: seq<bool>, i: nat)
    requires Shaped(segments, width) && |values| == |segments| - width && i < |segments|
    ensures forall a :: 0 <= a < |Route(segments, width, values, i)| ==>
      width <= Route(segments, width, values, i)[a] <= i
    ensures forall a, b :: 0 <= a < b < |Route(segments, width, values, i)| ==>
      Route(segments, width, values, i)[b] < Route(segments, width, values, i)[a]
    decreases i
  {
    if segments[i].Balancer? {
      var up := values[i - width];
      var next := if up then segments[i].bottom else segments[i].top;
      var values' := values[i - width := !up];
      RouteDescends(segments, width, values', next);
      var rest := Route(segments, width, values', next);
      assert Route(segments, width, values, i) == [i] + rest;
    }
  }

  /** A walk flips the bit of exactly the balancers on its route: bit `p`
      ends up changed if and only if segment `width + p` is on the route. */
  lemma {:induction false} ReachFlips(segments: seq<Segment>, width: nat, values: seq<bool>, i: nat, p: nat)
    requires Shaped(segments, width) && |values| == |segments| - width && i < |segments|
    requires p < |values|
    ensures Reach(segments, width, values, i).1[p] != values[p]
      <==> width + p in Route(segments, width, values, i)
    decreases i
  {
    if segments[i].Balancer? {
      var up := values[i - width];
      var next := if up then segments[i].bottom else segments[i].top;
      var values' := values[i - width := !up];
      ReachFlips(segments, width, values', next, p);
      RouteDescends(segments, width, values', next);
      var rest := Route(segments, width, values', next);
      assert Route(segments, width, values, i) == [i] + rest;
    }
  }

  /** `Network`: the outputs, the segment arena, the last segment of every
      wire (where tokens enter) and the toggle bit of every balancer. */
  class Network<L> {
    const width: nat
    const outputs: seq<L>
    const segments: seq<Segment>
    /** `last_segments`: the segment every input wire enters. */
    const lastSegments: seq<nat>
    /** The `value` bit of balancer `p`, which is segment `width + p`. */
    var values: seq<bool>

    ghost predicate Valid()
      reads this
    {
      && width == |outputs| > 0
      && Shaped(segments, width)
      && |lastSegments| == width
      && (forall w :: 0 <= w < width ==> lastSegments[w] < |segments|)
      && |values| == |segments| - width
    }

    /** `Network::new(outputs)` with the balancer pairs `config` of the
        network's configuration (back to front, each a top and a bottom
        wire): the outputs need to be non-empty (asserted), and every wire
        of `config` below the width (it indexes `latest_segments`). */
    constructor (outputs: seq<L>, config: seq<(nat, nat)>)
      requires |outputs| > 0
      requires forall p :: 0 <= p < |config| ==> config[p].0 < |outputs| && config[p].1 < |outputs|
      ensures Valid() && this.outputs == outputs && width == |outputs|
      ensures |segments| == width + |config|
      ensures forall k :: 0 <= k < width ==> segments[k] == End(width - 1 - k)
      ensures forall p :: 0 <= p < |config| ==>
        segments[width + p] == Balancer(Latest(config, width, p, config[p].0), Latest(config, width, p, config[p].1))
      ensures forall w :: 0 <= w < width ==> lastSegments[w] == Latest(config, width, |config|, w)
      ensures forall p :: 0 <= p < |values| ==> values[p]
      ensures CheckSegmentPtrsInBounds(segments, |outputs|)
    {
      var width := |outputs|;
      var pairs, latest := PlacePairs(config, width);
      var segments := LayOut(width, pairs);
      ArenaShaped(config, width, segments);
      ShapedInBounds(segments, width);
      this.width := width;
      this.outputs := outputs;
      this.segments := segments;
      this.lastSegments := latest;
      this.values := seq(|config|, _ => true);
      new;
      forall w | 0 <= w < width
        ensures latest[w] < |segments|
      {
        LatestBefore(config, width, |config|, w);
      }
    }

    /** `width()`. */
    function Width(): (r: nat)
      requires Valid()
      reads this
      ensures r == |outputs| && r > 0
    {
      width
    }

    /** `outputs()`. */
    function Outputs(): (r: seq<L>)
      requires Valid()
      reads this
      ensures r == outputs && |r| == Width()
    {
      outputs
    }

    /** `toggle_up` of the balancer at segment `i`: flips its bit and
        returns the old one as a port number, so a fresh balancer (bit set)
        sends its first token to port 1 and then alternates. */
    method ToggleUp(i: nat) returns (port: nat)
      requires Valid() && width <= i < |segments|
      modifies this`values
      ensures Valid()
      ensures port == (if old(values[i - width]) then 1 else 0)
      ensures values == old(values)[i - width := !old(values[i - width])]
    {
      port := if values[i - width] then 1 else 0;
      values := values[i - width := !values[i - width]];
    }

    /** `next_segment` of the balancer at segment `i`: the segment its
        toggle sends the token to. */
    method NextSegment(i: nat) returns (next: nat)
      requires Valid() && width <= i < |segments|
      modifies this`values
      ensures Valid() && next < i
      ensures (next, values) == Step(segments, width, old(values), i)
    {
      var port := ToggleUp(i);
      next := if port == 1 then segments[i].bottom else segments[i].top;
    }

    /** `traverse()`: the calling thread's hash picks the input wire
        `hash % width`; the token walks from that wire's last segment
        through the balancers to an end and returns that output. The
        output and the new bits are those of `Reach`. */
    method Traverse(hash: nat) returns (out: L)
      requires Valid()
      modifies this`values
      ensures Valid()
      ensures var r := Reach(segments, width, old(values), lastSegments[hash % width]);
        out == outputs[r.0] && values == r.1
    {
      var slot := hash % width;
      var current: nat := lastSegments[slot];
      while segments[current].Balancer?
        invariant Valid() && current < |segments|
        invariant Reach(segments, width, values, current)
          == Reach(segments, width, old(values), lastSegments[slot])
        decreases current
      {
        current := NextSegment(current);
      }
      out := outputs[segments[current].output];
    }
  }

  /** One step of the walk: the segment the balancer at `i` sends the token
      to, and the bits with its bit flipped. */
  function Step(segments: seq<Segment>, width: nat, values: seq<bool>, i: nat): (r: (nat, seq<bool>))
    requires Shaped(segments, width) && |values| == |segments| - width && width <= i < |segments|
    ensures r.0 < i && |r.1| == |values|
    ensures Reach(segments, width, r.1, r.0) == Reach(segments, width, values, i)
  {
    var up := values[i - width];
    (if up then segments[i].bottom else segments[i].top, values[i - width := !up])
  }

  /** The segments the constructor lays out form an arena of the expected
      shape. */
  lemma ArenaShaped(config: seq<(nat, nat)>, width: nat, segments: seq<Segment>)
    requires forall p :: 0 <= p < |config| ==> config[p].0 < width && config[p].1 < width
    requires |segments| == width + |config|
    requires forall k :: 0 <= k < width ==> segments[k] == End(width - 1 - k)
    requires forall p :: 0 <= p < |config| ==>
      segments[width + p] == Balancer(Latest(config, width, p, config[p].0), Latest(config, width, p, config[p].1))
    ensures Shaped(segments, width)
  {
    forall k | width <= k < |segments|
      ensures segments[k].Balancer? && segments[k].top < k && segments[k].bottom < k
    {
      var p := k - width;
      assert segments[width + p] == segments[k];
      LatestBefore(config, width, p, config[p].0);
      LatestBefore(config, width, p, config[p].1);
    }
  }

  /** The first loop of `new`: every pair of `config` takes the segments its
      two wires lead to so far, and both wires then lead to its balancer,
      the next segment after the `width` ends. */
  method PlacePairs(config: seq<(nat, nat)>, width: nat) returns (pairs: seq<(nat, nat)>, latest: seq<nat>)
    requires forall p :: 0 <= p < |config| ==> config[p].0 < width && config[p].1 < width
    ensures |pairs| == |config| && |latest| == width
    ensures forall w :: 0 <= w < width ==> latest[w] == Latest(config, width, |config|, w)
    ensures forall q :: 0 <= q < |config| ==>
      pairs[q] == (Latest(config, width, q, config[q].0), Latest(config, width, q, config[q].1))
  {
    var nextSegment := width;
    latest := seq(width, w => w);
    pairs := [];
    for p := 0 to |config|
      invariant nextSegment == width + p && |pairs| == p && |latest| == width
      invariant forall w :: 0 <= w < width ==> latest[w] == Latest(config, width, p, w)
      invariant forall q :: 0 <= q < p ==>
        pairs[q] == (Latest(config, width, q, config[q].0), Latest(config, width, q, config[q].1))
    {
      var (top, bottom) := config[p];
      pairs := pairs + [(latest[top], latest[bottom])];
      latest := latest[top := nextSegment][bottom := nextSegment];
      nextSegment := nextSegment + 1;
    }
  }

  /** The segments of `new`: the ends of the outputs in reverse order, then
      one balancer per pair, in the order of `config`. */
  method LayOut(width: nat, pairs: seq<(nat, nat)>) returns (segments: seq<Segment>)
    ensures |segments| == width + |pairs|
    ensures forall k :: 0 <= k < width ==> segments[k] == End(width - 1 - k)
    ensures forall p :: 0 <= p < |pairs| ==> segments[width + p] == Balancer(pairs[p].0, pairs[p].1)
  {
    segments := [];
    for k := 0 to width
      invariant |segments| == k
      invariant forall j :: 0 <= j < k ==> segments[j] == End(width - 1 - j)
    {
      segments := segments + [End(width - 1 - k)];
    }
    for p := 0 to |pairs|
      invariant |segments| == width + p
      invariant forall j :: 0 <= j < width ==> segments[j] == End(width - 1 - j)
      invariant forall k :: width <= k < width + p ==> segments[k] == Balancer(pairs[k - width].0, pairs[k - width].1)
    {
      segments := segments + [Balancer(pairs[p].0, pairs[p].1)];
    }
    assert forall p :: 0 <= p < |pairs| ==> segments[width + p] == Balancer(pairs[p].0, pairs[p].1);
  }
}
