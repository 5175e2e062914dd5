/** The shared counter of `src/counters.rs` (and its older copy
    `src/counter.rs`): a bitonic network whose outputs are buckets; bucket
    `i` starts at `i`, and every token that reaches it takes its value and
    raises it by the width. */
module Counters {
  import opened Balancing
  import opened BitonicNetworks

  // ----- the bucket invariant -----

  /** What bucket `i` of a width-`w` counter holds once `n` values have been
      handed out: the one number of `n .. n + w - 1` that is `i` modulo `w`,
      which is the next value this bucket hands out. */
  predicate Pending(v: nat, i: nat, n: nat, w: nat)
  {
    w > 0 && v % w == i && n <= v < n + w
  }

  /** Two numbers with the same remainder less than `w` apart are equal. */
  lemma SameResidue(v: nat, n: nat, w: nat)
    requires w > 0 && v % w == n % w && n <= v < n + w
    ensures v == n
  {
    var r, p := n % w, n / w;
    assert n == r + w * p;
    var d := v - n;
    if r + d < w {
      DivMod(v, w, p, r + d);
    } else {
      assert w * (p + 1) == w * p + w;
      DivMod(v, w, p + 1, r + d - w);
    }
  }

  /** The `n`-th value is taken from the bucket that holds exactly `n`: a
      pending bucket hands out `n` if and only if `n` falls on it. */
  lemma ServedIff(v: nat, i: nat, n: nat, w: nat)
    requires Pending(v, i, n, w)
    ensures v == n <==> n % w == i
  {
    if n % w == i {
      SameResidue(v, n, w);
    }
  }

  /** After the `n`-th value the bucket that handed it out holds `n + w`,
      every other bucket keeps its value, and all are pending for `n + 1`. */
  lemma NextPending(v: nat, i: nat, n: nat, w: nat)
    requires Pending(v, i, n, w)
    ensures n % w == i ==> Pending(v + w, i, n + 1, w)
    ensures n % w != i ==> Pending(v, i, n + 1, w)
  {
    ServedIff(v, i, n, w);
    if n % w == i {
      var p := v / w;
      assert v == i + w * p;
      assert w * (p + 1) == w * p + w;
      DivMod(v + w, w, p + 1, i);
    }
  }

  /** Before any call, bucket `i` holds `i`, the value it hands out first. */
  lemma StartPending(i: nat, w: nat)
    requires i < w
    ensures Pending(i, i, 0, w)
  {
    DivMod(i, w, 0, i);
  }

  /** `CountingBucket`: one output of the network, holding a number. */
  class CountingBucket {
    var value: nat

    /** `new(starting_value)`. */
    constructor (start: nat)
      ensures value == start
    {
      value := start;
    }

    /** `get()`: the number held. */
    method Get() returns (r: nat)
      ensures r == value
    {
      r := value;
    }

    /** `inc(increment)`: adds to the number held. */
    method Inc(increment: nat)
      modifies this
      ensures value == old(value) + increment
    {
      value := value + increment;
    }
  }

  /** `BitonicCountingNetwork`: a bitonic network over `width` buckets. */
  class BitonicCountingNetwork {
    const net: BitonicNetwork<CountingBucket>
    /** How many values `next` has handed out. */
    ghost var count: nat

    ghost predicate Valid()
      reads this, net, set b | b in net.outputs
    {
      && net.Valid()
      && Sum(net.tokens) == count
      && (forall i, j :: 0 <= i < j < |net.outputs| ==> net.outputs[i] != net.outputs[j])
      && (forall i :: 0 <= i < |net.outputs| ==> Pending(net.outputs[i].value, i, count, net.width))
    }

    /** `new(width)`: buckets `0 .. width - 1` behind a network of that
        width, which must be a power of two and at least two. */
    constructor (width: nat)
      requires IsPow2(width) && width >= 2
      ensures Valid() && count == 0 && net.width == width
    {
      var buckets := MakeBuckets(width);
      net := new BitonicNetwork(buckets);
      count := 0;
      new;
      SumZero(net.tokens);
      forall i | 0 <= i < width
        ensures Pending(net.outputs[i].value, i, 0, width)
      {
        StartPending(i, width);
      }
    }

    /** `new(width)` of `src/counter.rs`, which gives the width to the
        network alongside the buckets. */
    constructor Legacy(width: nat)
      requires IsPow2(width) && width >= 2
      ensures Valid() && count == 0 && net.width == width
    {
      var buckets := MakeBuckets(width);
      net := new BitonicNetwork.WithWidth(width, buckets);
      count := 0;
      new;
      SumZero(net.tokens);
      forall i | 0 <= i < width
        ensures Pending(net.outputs[i].value, i, 0, width)
      {
        StartPending(i, width);
      }
    }

    /** `width()`: the width of the network. */
    function Width(): (r: nat)
      requires Valid()
      reads this, net, set b | b in net.outputs
      ensures r == |net.outputs| && IsPow2(r)
    {
      net.Width()
    }

    /** `next()`: the token of the calling thread (its hash given as
        `hash`) runs through the network to a bucket, takes that bucket's
        number and raises it by the width. Whatever the hashes, the
        `n`-th call returns `n`. */
    method Next(hash: nat) returns (r: nat)
      requires Valid()
      modifies this, net, set b | b in net.outputs
      ensures Valid() && r == old(count) && count == old(count) + 1
    {
      ghost var n := count;
      ghost var before := net.tokens;
      var bucket := net.Traverse(hash);
      ghost var k := n % net.width;
      assert bucket == net.outputs[k];
      r := bucket.Get();
      ServedIff(r, k, n, net.width);
      bucket.Inc(net.Width());
      count := count + 1;
      SumUpdate(before, hash % net.width, before[hash % net.width] + 1);
      forall i | 0 <= i < |net.outputs|
        ensures Pending(net.outputs[i].value, i, count, net.width)
      {
        NextPending(old(net.outputs[i].value), i, n, net.width);
        if i != k {
          assert net.outputs[i] != net.outputs[k];
        }
      }
    }
  }

  /** The buckets `0 .. width - 1`, each a new object. */
  method MakeBuckets(width: nat) returns (buckets: seq<CountingBucket>)
    ensures |buckets| == width
    ensures forall i :: 0 <= i < width ==> fresh(buckets[i]) && buckets[i].value == i
    ensures forall i, j :: 0 <= i < j < width ==> buckets[i] != buckets[j]
  {
    buckets := [];
    for i := 0 to width
      invariant |buckets| == i
      invariant forall k :: 0 <= k < i ==> fresh(buckets[k]) && buckets[k].value == k
      invariant forall k, j :: 0 <= k < j < i ==> buckets[k] != buckets[j]
    {
      var b := new CountingBucket(i);
      buckets := buckets + [b];
    }
  }

  /** The values of `n` calls of `next`, with the hashes `hashes` of the
      calling threads in call order: the numbers `count .. count + n - 1`,
      each once and in order, whatever the hashes. */
  method NextMany(c: BitonicCountingNetwork, hashes: seq<nat>) returns (values: seq<nat>)
    requires c.Valid()
    modifies c, c.net, set b | b in c.net.outputs
    ensures c.Valid() && c.count == old(c.count) + |hashes|
    ensures |values| == |hashes|
    ensures forall i :: 0 <= i < |values| ==> values[i] == old(c.count) + i
  {
    values := [];
    for i := 0 to |hashes|
      invariant c.Valid() && c.count == old(c.count) + i
      invariant |values| == i
      invariant forall k :: 0 <= k < i ==> values[k] == old(c.count) + k
    {
      var v := c.Next(hashes[i]);
      values := values + [v];
    }
  }
}
