/** One token's walk through a built arena (`BitonicNetwork::traverse`) and
    what it does to the quiescent counts: every balancer on its path counts
    one more, every other balancer the same, and so the output the token
    leaves by is the one whose count grows by one. */
module BitonicPath {
  import opened Balancing
  import opened BitonicWires
  import opened BitonicFlow
  import opened BitonicLinks

  function Ind(b: bool): nat
  {
    if b then 1 else 0
  }

  /** One more token on input `s`. */
  function Bump(inputs: seq<nat>, s: nat): (r: seq<nat>)
    requires s < |inputs|
    ensures |r| == |inputs|
  {
    inputs[s := inputs[s] + 1]
  }

  /** The `i`-th segment the token travels: its input, then the port by
      which it left the `i`-th balancer of its path. */
  function HotSeg(s: nat, path: seq<Hop>, i: nat): Source
    requires i <= |path|
  {
    if i == 0 then Input(s) else Out(path[i - 1])
  }

  /** The token travels segment `src`. */
  predicate Hot(s: nat, path: seq<Hop>, src: Source)
  {
    src == Input(s) || (src.Out? && src.hop in path)
  }

  /** The token passes balancer `b`. */
  predicate OnPath(path: seq<Hop>, b: nat)
  {
    exists i :: 0 <= i < |path| && path[i].balancer == b
  }

  /** No balancer is passed twice. */
  predicate Distinct(path: seq<Hop>)
  {
    forall i, j :: 0 <= i < |path| && 0 <= j < |path| && path[i].balancer == path[j].balancer ==> i == j
  }

  /** The token entered at input `s`; each balancer of `path` took the
      segment it arrived on and sent it out by the port its toggle chose
      from count `t` (`up` exactly when the count was odd). */
  predicate Walk(f: seq<Feed>, t: seq<nat>, s: nat, path: seq<Hop>)
  {
    && |t| == |f|
    && forall i {:trigger Passed(f, t, s, path, i)} :: 0 <= i < |path| ==> Passed(f, t, s, path, i)
  }

  /** The `i`-th step of a walk. */
  predicate Passed(f: seq<Feed>, t: seq<nat>, s: nat, path: seq<Hop>, i: nat)
    requires i < |path|
  {
    && path[i].balancer < |t|
    && FedBy(f, path[i].balancer, HotSeg(s, path, i))
    && path[i].up == (t[path[i].balancer] % 2 == 1)
  }

  /** No segment feeds two balancer slots. */
  ghost predicate Linear(f: seq<Feed>)
  {
    forall src: Source {:trigger Uses(f, src)} :: Uses(f, src) <= 1
  }

  /** A complete walk in a linear, topologically ordered arena: it ends on a
      segment no balancer takes. */
  ghost predicate Complete(f: seq<Feed>, t: seq<nat>, s: nat, path: seq<Hop>)
  {
    && Walk(f, t, s, path)
    && FromBefore(f)
    && Linear(f)
    && Uses(f, HotSeg(s, path, |path|)) == 0
  }

  // ----- takers -----

  lemma {:induction false} UsesAtLeast(f: seq<Feed>, src: Source, b: nat)
    requires b < |f|
    ensures Uses(f, src) >= Takes(f[b], src)
    decreases |f|
  {
    if b < |f| - 1 {
      UsesAtLeast(f[..|f| - 1], src, b);
    }
  }

  lemma {:induction false} UsesAtLeastTwo(f: seq<Feed>, src: Source, b: nat, c: nat)
    requires b < c < |f|
    ensures Uses(f, src) >= Takes(f[b], src) + Takes(f[c], src)
    decreases |f|
  {
    if c < |f| - 1 {
      UsesAtLeastTwo(f[..|f| - 1], src, b, c);
    } else {
      UsesAtLeast(f[..|f| - 1], src, b);
    }
  }

  /** In a linear arena a segment has one taker at most, and it takes the
      segment in one slot. */
  lemma OneTaker(f: seq<Feed>, src: Source, b: nat, c: nat)
    requires Linear(f) && FedBy(f, b, src) && FedBy(f, c, src)
    ensures b == c && Takes(f[b], src) == 1
  {
    assert Uses(f, src) <= 1;
    UsesAtLeast(f, src, b);
    if b < c {
      UsesAtLeastTwo(f, src, b, c);
    } else if c < b {
      UsesAtLeastTwo(f, src, c, b);
    }
  }

  // ----- the shape of a walk -----

  /** Balancers are passed in allocation order. */
  lemma {:induction false} PathRises(f: seq<Feed>, t: seq<nat>, s: nat, path: seq<Hop>, i: nat, j: nat)
    requires Walk(f, t, s, path) && FromBefore(f) && i < j < |path|
    ensures path[i].balancer < path[j].balancer
    decreases j - i
  {
    var c := path[j].balancer;
    assert Passed(f, t, s, path, j);
    assert path[j - 1].balancer < c by {
      if f[c].upper == Out(path[j - 1]) {
        assert FeedSource(f[c], false) == Out(path[j - 1]);
      } else {
        assert FeedSource(f[c], true) == Out(path[j - 1]);
      }
    }
    if i < j - 1 {
      PathRises(f, t, s, path, i, j - 1);
    }
  }

  lemma PathDistinct(f: seq<Feed>, t: seq<nat>, s: nat, path: seq<Hop>)
    requires Walk(f, t, s, path) && FromBefore(f)
    ensures Distinct(path)
  {
    forall i, j | 0 <= i < |path| && 0 <= j < |path| && path[i].balancer == path[j].balancer
      ensures i == j
    {
      if i < j {
        PathRises(f, t, s, path, i, j);
      } else if j < i {
        PathRises(f, t, s, path, j, i);
      }
    }
  }

  /** A travelled segment is the `i`-th of the walk for some `i`. */
  lemma HotIndex(s: nat, path: seq<Hop>, src: Source) returns (i: nat)
    requires Hot(s, path, src)
    ensures i <= |path| && src == HotSeg(s, path, i)
  {
    if src == Input(s) {
      i := 0;
    } else {
      var j :| 0 <= j < |path| && path[j] == src.hop;
      i := j + 1;
    }
  }

  /** A travelled segment taken by balancer `b` is the one the walk entered
      `b` on. */
  lemma HotTaker(f: seq<Feed>, t: seq<nat>, s: nat, path: seq<Hop>, b: nat, src: Source) returns (i: nat)
    requires Complete(f, t, s, path) && FedBy(f, b, src) && Hot(s, path, src)
    ensures i < |path| && src == HotSeg(s, path, i) && path[i].balancer == b
  {
    i := HotIndex(s, path, src);
    if i < |path| {
      assert Passed(f, t, s, path, i);
      OneTaker(f, src, b, path[i].balancer);
    } else {
      UsesAtLeast(f, src, b);
      assert false;
    }
  }

  /** A balancer fed by a travelled segment is on the path. */
  lemma HotFeedsPath(f: seq<Feed>, t: seq<nat>, s: nat, path: seq<Hop>, b: nat)
    requires Complete(f, t, s, path) && b < |f|
    ensures Hot(s, path, f[b].upper) ==> OnPath(path, b)
    ensures Hot(s, path, f[b].lower) ==> OnPath(path, b)
  {
    if Hot(s, path, f[b].upper) {
      var i := HotTaker(f, t, s, path, b, f[b].upper);
    }
    if Hot(s, path, f[b].lower) {
      var i := HotTaker(f, t, s, path, b, f[b].lower);
    }
  }

  lemma NotBothHot(f: seq<Feed>, t: seq<nat>, s: nat, path: seq<Hop>, b: nat)
    requires Complete(f, t, s, path) && b < |f|
    ensures !(Hot(s, path, f[b].upper) && Hot(s, path, f[b].lower))
  {
    if Hot(s, path, f[b].upper) && Hot(s, path, f[b].lower) {
      var i := HotTaker(f, t, s, path, b, f[b].upper);
      var j := HotTaker(f, t, s, path, b, f[b].lower);
      PathDistinct(f, t, s, path);
      OneTaker(f, f[b].upper, b, b);
      assert false;
    }
  }

  /** A balancer takes one travelled segment when it is on the path and
      none otherwise. */
  lemma FeedHot(f: seq<Feed>, t: seq<nat>, s: nat, path: seq<Hop>, b: nat)
    requires Complete(f, t, s, path) && b < |f|
    ensures Ind(Hot(s, path, f[b].upper)) + Ind(Hot(s, path, f[b].lower)) == Ind(OnPath(path, b))
  {
    HotFeedsPath(f, t, s, path, b);
    NotBothHot(f, t, s, path, b);
    if OnPath(path, b) {
      var i :| 0 <= i < |path| && path[i].balancer == b;
      assert Passed(f, t, s, path, i);
      if i > 0 {
        assert path[i - 1] in path;
      }
    }
  }

  // ----- counts along a walk -----

  /** A balancer's toggle hands out one more token by the port a count `v`
      chooses. */
  lemma HalfInc(v: nat, up: bool)
    ensures Half(v + 1, up) == Half(v, up) + Ind(up == (v % 2 == 1))
  {
  }

  /** Count `t'` is count `t` with one more token through each balancer of
      `path`. */
  predicate Raised(t: seq<nat>, t': seq<nat>, path: seq<Hop>)
  {
    |t'| == |t| && forall b :: 0 <= b < |t| ==> t'[b] == t[b] + Ind(OnPath(path, b))
  }

  /** With one more token on input `s`, a segment carries one more exactly
      when the walk travels it. */
  lemma CarriedStep(t: seq<nat>, t': seq<nat>, inputs: seq<nat>, s: nat, path: seq<Hop>, src: Source)
    requires s < |inputs| && Distinct(path) && Raised(t, t', path)
    requires forall i :: 0 <= i < |path| && path[i].balancer < |t| ==> path[i].up == (t[path[i].balancer] % 2 == 1)
    requires src.Out? ==> src.hop.balancer < |t|
    ensures Carried(t', Bump(inputs, s), src) == Carried(t, inputs, src) + Ind(Hot(s, path, src))
  {
    if src.Out? {
      var h := src.hop;
      if OnPath(path, h.balancer) {
        var i :| 0 <= i < |path| && path[i].balancer == h.balancer;
        assert h in path <==> h == path[i];
        HalfInc(t[h.balancer], h.up);
      } else {
        assert h !in path;
      }
    }
  }

  /** One more token on input `s`: every balancer on the walk counts one
      more, every other the same. */
  lemma {:induction false} PathTotals(f: seq<Feed>, inputs: seq<nat>, s: nat, path: seq<Hop>, n: nat)
    requires Complete(f, Totals(f, inputs), s, path) && s < |inputs| && n <= |f|
    ensures forall b :: 0 <= b < n ==>
      Totals(f[..n], Bump(inputs, s))[b] == Totals(f[..n], inputs)[b] + Ind(OnPath(path, b))
    decreases n
  {
    if n > 0 {
      PathTotals(f, inputs, s, path, n - 1);
      var g := f[..n - 1];
      assert f[..n][..n - 1] == g;
      PathTotalsLast(f, inputs, s, path, n, Totals(g, inputs), Totals(g, Bump(inputs, s)));
    }
  }

  /** The step of `PathTotals`: the balancer allocated last counts one more
      exactly when the walk passes it. */
  lemma PathTotalsLast(f: seq<Feed>, inputs: seq<nat>, s: nat, path: seq<Hop>, n: nat, t: seq<nat>, t': seq<nat>)
    requires Complete(f, Totals(f, inputs), s, path) && s < |inputs| && 0 < n <= |f|
    requires t == Totals(f[..n - 1], inputs) && t' == Totals(f[..n - 1], Bump(inputs, s)) && Raised(t, t', path)
    ensures Totals(f[..n], Bump(inputs, s))[n - 1] == Totals(f[..n], inputs)[n - 1] + Ind(OnPath(path, n - 1))
  {
    var g := f[..n - 1];
    assert f[..n][..n - 1] == g;
    TotalsTake(f, inputs, n);
    TotalsTake(f, inputs, n - 1);
    PathDistinct(f, Totals(f, inputs), s, path);
    UpBits(f, Totals(f, inputs), s, path, n - 1);
    var x := f[n - 1];
    assert FeedSource(x, false) == x.upper && FeedSource(x, true) == x.lower;
    CarriedStep(t, t', inputs, s, path, x.upper);
    CarriedStep(t, t', inputs, s, path, x.lower);
    FeedHot(f, Totals(f, inputs), s, path, n - 1);
  }

  /** On a walk, every balancer passed sent the token out by the port its
      count's parity chose, as the counts of any prefix of the arena show. */
  lemma UpBits(f: seq<Feed>, t: seq<nat>, s: nat, path: seq<Hop>, m: nat)
    requires Walk(f, t, s, path) && m <= |t|
    ensures forall i :: 0 <= i < |path| && path[i].balancer < m ==> path[i].up == (t[..m][path[i].balancer] % 2 == 1)
  {
    forall i | 0 <= i < |path| && path[i].balancer < m
      ensures path[i].up == (t[..m][path[i].balancer] % 2 == 1)
    {
      assert Passed(f, t, s, path, i);
    }
  }

  // ----- where the walk ends -----

  lemma {:induction false} CountAt<T>(s: seq<T>, p: nat)
    requires p < |s|
    ensures Count(s, s[p]) >= 1
    decreases p
  {
    if p > 0 {
      CountAt(s[1..], p - 1);
    }
  }

  lemma {:induction false} CountAtTwo<T>(s: seq<T>, p: nat, q: nat)
    requires p < q < |s| && s[p] == s[q]
    ensures Count(s, s[p]) >= 2
    decreases p
  {
    if p > 0 {
      CountAtTwo(s[1..], p - 1, q - 1);
    } else {
      CountAt(s[1..], q - 1);
    }
  }

  lemma HotSegHot(s: nat, path: seq<Hop>, i: nat)
    requires i <= |path|
    ensures Hot(s, path, HotSeg(s, path, i))
  {
    if i > 0 {
      assert path[i - 1] in path;
    }
  }

  /** Every segment is taken by a balancer or ends a wire, not both and
      not twice. */
  ghost predicate Unshared(f: seq<Feed>, ws: seq<Wire>)
  {
    forall src: Source {:trigger Count(Sources(ws), src)} :: Uses(f, src) + Count(Sources(ws), src) <= 1
  }

  /** One more token on input `s` is one more token on wire `k`, the one
      the walk ends on, and on no other wire `p`. */
  lemma WireStep(f: seq<Feed>, t: seq<nat>, t': seq<nat>, inputs: seq<nat>, s: nat, path: seq<Hop>, ws: seq<Wire>, k: nat, p: nat)
    requires Complete(f, t, s, path) && s < |inputs| && Unshared(f, ws)
    requires Raised(t, t', path)
    requires k < |ws| && WireSource(ws[k]) == HotSeg(s, path, |path|)
    requires p < |ws| && (WireSource(ws[p]).Out? ==> WireSource(ws[p]).hop.balancer < |t|)
    ensures Carried(t', Bump(inputs, s), WireSource(ws[p])) == Carried(t, inputs, WireSource(ws[p])) + Ind(p == k)
  {
    var src := WireSource(ws[p]);
    PathDistinct(f, t, s, path);
    forall i | 0 <= i < |path| && path[i].balancer < |t|
      ensures path[i].up == (t[path[i].balancer] % 2 == 1)
    {
      assert Passed(f, t, s, path, i);
    }
    CarriedStep(t, t', inputs, s, path, src);
    HotSegHot(s, path, |path|);
    assert Sources(ws)[p] == src;
    assert Count(Sources(ws), src) <= 1;
    CountAt(Sources(ws), p);
    if Hot(s, path, src) {
      var i := HotIndex(s, path, src);
      if i < |path| {
        assert Passed(f, t, s, path, i);
        UsesAtLeast(f, src, path[i].balancer);
        assert false;
      }
      if p < k {
        CountAtTwo(Sources(ws), p, k);
      } else if k < p {
        CountAtTwo(Sources(ws), k, p);
      }
    }
  }

  /** `PathTotals` over the whole arena. */
  lemma PathTotalsAll(f: seq<Feed>, inputs: seq<nat>, s: nat, path: seq<Hop>)
    requires Complete(f, Totals(f, inputs), s, path) && s < |inputs|
    ensures Raised(Totals(f, inputs), Totals(f, Bump(inputs, s)), path)
  {
    PathTotals(f, inputs, s, path, |f|);
    assert f[..|f|] == f;
  }

  /** What each wire carries when the balancers have counted `t`. */
  function Carries(t: seq<nat>, inputs: seq<nat>, ws: seq<Wire>): (r: seq<nat>)
    ensures |r| == |ws|
  {
    seq(|ws|, p requires 0 <= p < |ws| => Carried(t, inputs, WireSource(ws[p])))
  }

  lemma WireCountsCarries(a: Arena, inputs: seq<nat>, ws: seq<Wire>)
    ensures WireCounts(a, inputs, ws) == Carries(Totals(a.feeds, inputs), inputs, ws)
  {
  }

  /** One more token through the balancers of the walk is one more token
      on the wire the walk ends on, and on no other wire. */
  lemma CarriesStep(a: Arena, t: seq<nat>, t': seq<nat>, inputs: seq<nat>, bumped: seq<nat>, s: nat, path: seq<Hop>, ws: seq<Wire>, k: nat)
    requires Complete(a.feeds, t, s, path) && s < |inputs| && bumped == Bump(inputs, s) && Raised(t, t', path)
    requires Unshared(a.feeds, ws) && Bounded(a, ws)
    requires k < |ws| && WireSource(ws[k]) == HotSeg(s, path, |path|)
    ensures Carries(t', bumped, ws) == Carries(t, inputs, ws)[k := Carries(t, inputs, ws)[k] + 1]
  {
    var y, y' := Carries(t, inputs, ws), Carries(t', bumped, ws);
    forall p | 0 <= p < |ws|
      ensures y'[p] == y[p] + Ind(p == k)
    {
      WireStep(a.feeds, t, t', inputs, s, path, ws, k, p);
    }
    OneMore(y, y', k);
  }

  /** One more token on input `s` is one more token on the wire the walk
      ends on, and on no other wire (`t` and `t'` are the balancer counts
      before and after). */
  lemma PathWireCounts(a: Arena, inputs: seq<nat>, bumped: seq<nat>, s: nat, path: seq<Hop>, ws: seq<Wire>, k: nat, t: seq<nat>, t': seq<nat>)
    requires t == Totals(a.feeds, inputs) && t' == Totals(a.feeds, bumped)
    requires Complete(a.feeds, t, s, path) && s < |inputs| && bumped == Bump(inputs, s)
    requires Unshared(a.feeds, ws) && Bounded(a, ws)
    requires k < |ws| && WireSource(ws[k]) == HotSeg(s, path, |path|)
    ensures Carries(t', bumped, ws) == Carries(t, inputs, ws)[k := Carries(t, inputs, ws)[k] + 1]
  {
    PathTotalsAll(a.feeds, inputs, s, path);
    CarriesStep(a, t, t', inputs, bumped, s, path, ws, k);
  }

  lemma OneMore(y: seq<nat>, y': seq<nat>, k: nat)
    requires |y'| == |y| && k < |y|
    requires forall p :: 0 <= p < |y| ==> y'[p] == y[p] + Ind(p == k)
    ensures y' == y[k := y[k] + 1]
  {
  }

  /** The walk from input `s` ends on output `Sum(inputs) % |ws|`: the
      tokens counted so far have filled the outputs round robin, and this
      one takes the next. */
  lemma PathOutput(a: Arena, inputs: seq<nat>, s: nat, path: seq<Hop>, ws: seq<Wire>, k: nat)
    requires Complete(a.feeds, Totals(a.feeds, inputs), s, path) && s < |inputs|
    requires Unshared(a.feeds, ws) && Bounded(a, ws)
    requires k < |ws| && WireSource(ws[k]) == HotSeg(s, path, |path|)
    requires IsPow2(|ws|) && |inputs| == |ws| && CountsLike(a, ws, 0, |ws|)
    ensures k == Sum(inputs) % |ws|
  {
    PathWireCounts(a, inputs, Bump(inputs, s), s, path, ws, k, Totals(a.feeds, inputs), Totals(a.feeds, Bump(inputs, s)));
    BumpedOutput(a, ws, inputs, Bump(inputs, s), k,
      Carries(Totals(a.feeds, inputs), inputs, ws), Carries(Totals(a.feeds, Bump(inputs, s)), Bump(inputs, s), ws));
  }

  /** When one more token raises the count of output `k` alone, `k` is the
      output the round robin serves next. */
  lemma BumpedOutput(a: Arena, ws: seq<Wire>, inputs: seq<nat>, bumped: seq<nat>, k: nat, y: seq<nat>, y': seq<nat>)
    requires IsPow2(|ws|) && |inputs| == |ws| == |bumped| && CountsLike(a, ws, 0, |ws|) && k < |ws|
    requires y == Carries(Totals(a.feeds, inputs), inputs, ws) && y' == Carries(Totals(a.feeds, bumped), bumped, ws)
    requires y' == y[k := y[k] + 1]
    ensures k == Sum(inputs) % |ws|
  {
    CountsAt(a, ws, inputs, Totals(a.feeds, inputs), y);
    CountsAt(a, ws, bumped, Totals(a.feeds, bumped), y');
    StepNext(y, y', k);
  }

  /** What the wires of a network counting like `Bitonic[|ws|]` carry. */
  lemma CountsAt(a: Arena, ws: seq<Wire>, c: seq<nat>, t: seq<nat>, y: seq<nat>)
    requires IsPow2(|ws|) && |c| == |ws| && CountsLike(a, ws, 0, |ws|)
    requires t == Totals(a.feeds, c) && y == Carries(t, c, ws)
    ensures Step(y) && Sum(y) == Sum(c)
  {
    WireCountsCarries(a, c, ws);
    assert c[0..|ws|] == c;
    assert WireCounts(a, c, ws) == BitonicCounts(c);
    BitonicStep(c);
  }

  lemma StepNext(y: seq<nat>, y': seq<nat>, k: nat)
    requires k < |y| && y' == y[k := y[k] + 1] && Step(y) && Step(y')
    ensures k == Sum(y) % |y|
  {
    NextOutput(y, k);
  }
}
