/** Cochains: the indices of a range whose low bits match one of a set of
    prefixes (the `generate_cochain` helper and its four prefix tables). */
module Cochain {

  /** 2^n. */
  function Pow2(n: nat): (r: nat)
    ensures r >= 1
  {
    if n == 0 then 1 else 2 * Pow2(n - 1)
  }

  /** The low `bits` bits of `idx`: what `idx & mask` keeps when
      `mask == 2^bits - 1`. */
  function Low(idx: nat, bits: nat): nat
  {
    idx % Pow2(bits)
  }

  /** The prefix tables. */
  const EvenCochain: seq<nat> := [0]
  const OddCochain: seq<nat> := [1]
  const ACochain: seq<nat> := [0, 3]
  const BCochain: seq<nat> := [1, 2]

  /** One copy of `idx` for every prefix in `prefixes` that its low bits
      match, in prefix order (the inner loop of `generate_cochain`). */
  function Hits(idx: nat, bits: nat, prefixes: seq<nat>): seq<nat>
  {
    if prefixes == [] then []
    else
      var front := Hits(idx, bits, prefixes[..|prefixes| - 1]);
      if Low(idx, bits) == prefixes[|prefixes| - 1] then front + [idx] else front
  }

  /** The output of `generate_cochain(start..end, prefixes)`. */
  function Cochain(start: nat, end: nat, prefixes: seq<nat>): seq<nat>
    decreases end
  {
    if end <= start then []
    else Cochain(start, end - 1, prefixes) + Hits(end - 1, |prefixes|, prefixes)
  }

  /** The nested loops of `generate_cochain`. The shift `1 << len` would
      overflow a 64-bit word for 64 or more prefixes. */
  method GenerateCochain(start: nat, end: nat, prefixes: seq<nat>) returns (output: seq<nat>)
    requires |prefixes| < 64
    ensures output == Cochain(start, end, prefixes)
  {
    var bits := |prefixes|;
    output := [];
    var idx := start;
    while idx < end
      invariant start <= idx
      invariant start < end ==> idx <= end
      invariant end <= start ==> idx == start
      invariant output == Cochain(start, idx, prefixes)
      decreases end - idx
    {
      var j := 0;
      var hits: seq<nat> := [];
      while j < |prefixes|
        invariant 0 <= j <= |prefixes|
        invariant hits == Hits(idx, bits, prefixes[..j])
      {
        assert prefixes[..j + 1][..j] == prefixes[..j];
        if Low(idx, bits) == prefixes[j] {
          hits := hits + [idx];
        }
        j := j + 1;
      }
      assert prefixes[..|prefixes|] == prefixes;
      output := output + hits;
      idx := idx + 1;
    }
  }

  /** Each prefix that matches contributes exactly one copy of `idx`. */
  lemma {:induction false} HitsCount(idx: nat, bits: nat, prefixes: seq<nat>, x: nat)
    ensures multiset(Hits(idx, bits, prefixes))[x]
         == if x == idx then multiset(prefixes)[Low(idx, bits)] else 0
  {
    if prefixes != [] {
      var n := |prefixes| - 1;
      HitsCount(idx, bits, prefixes[..n], x);
      assert prefixes == prefixes[..n] + [prefixes[n]];
    }
  }

  /** Occurrences in the output: `idx` appears once per matching prefix when
      it lies in the range, and never otherwise. */
  lemma {:induction false} CochainCount(start: nat, end: nat, prefixes: seq<nat>, x: nat)
    ensures multiset(Cochain(start, end, prefixes))[x]
         == if start <= x < end then multiset(prefixes)[Low(x, |prefixes|)] else 0
    decreases end
  {
    if start < end {
      CochainCount(start, end - 1, prefixes, x);
      HitsCount(end - 1, |prefixes|, prefixes, x);
    }
  }

  /** Membership: exactly the indices of the range whose low bits are one of
      the prefixes. */
  lemma CochainMembers(start: nat, end: nat, prefixes: seq<nat>, x: nat)
    ensures x in Cochain(start, end, prefixes)
        <==> start <= x < end && Low(x, |prefixes|) in prefixes
  {
    CochainCount(start, end, prefixes, x);
    assert x in Cochain(start, end, prefixes) <==> x in multiset(Cochain(start, end, prefixes));
  }

  /** With distinct prefixes no index is emitted twice. */
  lemma NoDuplicates(start: nat, end: nat, prefixes: seq<nat>, x: nat)
    requires forall i, j :: 0 <= i < j < |prefixes| ==> prefixes[i] != prefixes[j]
    ensures multiset(Cochain(start, end, prefixes))[x] <= 1
  {
    CochainCount(start, end, prefixes, x);
    DistinctCount(prefixes, Low(x, |prefixes|));
  }

  lemma {:induction false} DistinctCount(s: seq<nat>, v: nat)
    requires forall i, j :: 0 <= i < j < |s| ==> s[i] != s[j]
    ensures multiset(s)[v] <= 1
  {
    if s != [] {
      var n := |s| - 1;
      DistinctCount(s[..n], v);
      assert s == s[..n] + [s[n]];
      if s[n] == v {
        assert v !in s[..n];
      }
    }
  }

  /** Every element of `Hits(idx, ...)` is `idx`. */
  lemma {:induction false} HitsAll(idx: nat, bits: nat, prefixes: seq<nat>)
    ensures forall k :: 0 <= k < |Hits(idx, bits, prefixes)| ==> Hits(idx, bits, prefixes)[k] == idx
  {
    if prefixes != [] {
      HitsAll(idx, bits, prefixes[..|prefixes| - 1]);
    }
  }

  /** Every element of the output lies inside the range. */
  lemma {:induction false} CochainInRange(start: nat, end: nat, prefixes: seq<nat>)
    ensures forall k :: 0 <= k < |Cochain(start, end, prefixes)| ==> start <= Cochain(start, end, prefixes)[k] < end
    decreases end
  {
    if start < end {
      CochainInRange(start, end - 1, prefixes);
      HitsAll(end - 1, |prefixes|, prefixes);
      var front, hits := Cochain(start, end - 1, prefixes), Hits(end - 1, |prefixes|, prefixes);
      forall k | 0 <= k < |front + hits| ensures start <= (front + hits)[k] < end {
        if k >= |front| { assert (front + hits)[k] == hits[k - |front|]; }
        else { assert (front + hits)[k] == front[k]; }
      }
    }
  }

  /** The output is ascending. */
  lemma {:induction false} CochainSorted(start: nat, end: nat, prefixes: seq<nat>)
    ensures forall k, l :: 0 <= k < l < |Cochain(start, end, prefixes)| ==> Cochain(start, end, prefixes)[k] <= Cochain(start, end, prefixes)[l]
    decreases end
  {
    if start < end {
      CochainSorted(start, end - 1, prefixes);
      CochainInRange(start, end - 1, prefixes);
      HitsAll(end - 1, |prefixes|, prefixes);
      var front, hits := Cochain(start, end - 1, prefixes), Hits(end - 1, |prefixes|, prefixes);
      forall k, l | 0 <= k < l < |front + hits| ensures (front + hits)[k] <= (front + hits)[l] {
        if l >= |front| {
          assert (front + hits)[l] == hits[l - |front|];
          if k >= |front| { assert (front + hits)[k] == hits[k - |front|]; }
          else { assert (front + hits)[k] == front[k]; }
        } else {
          assert (front + hits)[k] == front[k] && (front + hits)[l] == front[l];
        }
      }
    }
  }

  /** Over `0..n` the even table keeps the ceil(n/2) even numbers and the
      odd table the floor(n/2) odd numbers. */
  lemma {:induction false} EvenOddCounts(n: nat)
    ensures |Cochain(0, n, EvenCochain)| == (n + 1) / 2
    ensures |Cochain(0, n, OddCochain)| == n / 2
    ensures forall k :: 0 <= k < |Cochain(0, n, EvenCochain)| ==> Cochain(0, n, EvenCochain)[k] % 2 == 0
    ensures forall k :: 0 <= k < |Cochain(0, n, OddCochain)| ==> Cochain(0, n, OddCochain)[k] % 2 == 1
  {
    if n > 0 {
      EvenOddCounts(n - 1);
      assert Pow2(1) == 2;
      assert EvenCochain[..0] == [] && OddCochain[..0] == [];
      assert Hits(n - 1, 1, EvenCochain) == if (n - 1) % 2 == 0 then [n - 1] else [];
      assert Hits(n - 1, 1, OddCochain) == if (n - 1) % 2 == 1 then [n - 1] else [];
    }
  }

  /** With two prefixes, `idx` is hit by each prefix equal to `idx % 4`. */
  lemma Extend(n: nat, prefixes: seq<nat>)
    requires |prefixes| == 2
    ensures Cochain(0, n + 1, prefixes) == Cochain(0, n, prefixes)
         + (if n % 4 == prefixes[0] then [n] else []) + (if n % 4 == prefixes[1] then [n] else [])
  {
    assert Pow2(2) == 4;
    assert prefixes[..1][..0] == [];
    assert Hits(n, 2, prefixes[..1]) == if n % 4 == prefixes[0] then [n] else [];
  }

  /** Four consecutive indices starting at a multiple of 4: the `A` table
      keeps the first and the last, the `B` table the middle two. */
  lemma {:induction false} ExtendFour(m: nat, a: seq<nat>, b: seq<nat>)
    requires a == ACochain && b == BCochain
    ensures Cochain(0, 4 * m + 4, a) == Cochain(0, 4 * m, a) + [4 * m, 4 * m + 3]
    ensures Cochain(0, 4 * m + 4, b) == Cochain(0, 4 * m, b) + [4 * m + 1, 4 * m + 2]
  {
    Residues(m);
    ExtendFourWith(m, a);
    ExtendFourWith(m, b);
  }

  /** The first two indices of a block of four: the `A` table keeps the
      first, the `B` table the second. */
  lemma ExtendTwo(m: nat, a: seq<nat>, b: seq<nat>)
    requires a == ACochain && b == BCochain
    ensures Cochain(0, 4 * m + 2, a) == Cochain(0, 4 * m, a) + [4 * m]
    ensures Cochain(0, 4 * m + 2, b) == Cochain(0, 4 * m, b) + [4 * m + 1]
  {
    Residues(m);
    Extend(4 * m, a);
    Extend(4 * m + 1, a);
    Extend(4 * m, b);
    Extend(4 * m + 1, b);
  }

  /** The four residues modulo 4 of a block of four starting at `4 * m`. */
  lemma Residues(m: nat)
    ensures (4 * m) % 4 == 0 && (4 * m + 1) % 4 == 1
    ensures (4 * m + 2) % 4 == 2 && (4 * m + 3) % 4 == 3
  {
  }

  /** A block of four indices against a two-prefix table. */
  lemma ExtendFourWith(m: nat, prefixes: seq<nat>)
    requires |prefixes| == 2
    ensures Cochain(0, 4 * m + 4, prefixes) == Cochain(0, 4 * m, prefixes)
         + (if 0 == prefixes[0] then [4 * m] else []) + (if 0 == prefixes[1] then [4 * m] else [])
         + (if 1 == prefixes[0] then [4 * m + 1] else []) + (if 1 == prefixes[1] then [4 * m + 1] else [])
         + (if 2 == prefixes[0] then [4 * m + 2] else []) + (if 2 == prefixes[1] then [4 * m + 2] else [])
         + (if 3 == prefixes[0] then [4 * m + 3] else []) + (if 3 == prefixes[1] then [4 * m + 3] else [])
  {
    Residues(m);
    Extend(4 * m, prefixes);
    Extend(4 * m + 1, prefixes);
    Extend(4 * m + 2, prefixes);
    Extend(4 * m + 3, prefixes);
  }

  /** The outputs the tests expect of the `A` and `B` tables, built four
      indices at a time. The tables come in as parameters equal to the
      constants, which keeps the verifier from evaluating the whole range
      at once. */
  lemma Tables4(a: seq<nat>, b: seq<nat>)
    requires a == ACochain && b == BCochain
    ensures Cochain(0, 4, a) == [0, 3]
    ensures Cochain(0, 4, b) == [1, 2]
  {
    ExtendFour(0, a, b);
  }

  lemma Tables8(a: seq<nat>, b: seq<nat>)
    requires a == ACochain && b == BCochain
    ensures Cochain(0, 8, a) == [0, 3, 4, 7]
    ensures Cochain(0, 8, b) == [1, 2, 5, 6]
  {
    Tables4(a, b);
    ExtendFour(1, a, b);
  }

  lemma Tables12(a: seq<nat>, b: seq<nat>)
    requires a == ACochain && b == BCochain
    ensures Cochain(0, 12, a) == [0, 3, 4, 7, 8, 11]
    ensures Cochain(0, 12, b) == [1, 2, 5, 6, 9, 10]
  {
    Tables8(a, b);
    ExtendFour(2, a, b);
  }

  lemma Tables16(a: seq<nat>, b: seq<nat>)
    requires a == ACochain && b == BCochain
    ensures Cochain(0, 16, a) == [0, 3, 4, 7, 8, 11, 12, 15]
    ensures Cochain(0, 16, b) == [1, 2, 5, 6, 9, 10, 13, 14]
  {
    Tables12(a, b);
    ExtendFour(3, a, b);
  }

  lemma Tables20(a: seq<nat>, b: seq<nat>)
    requires a == ACochain && b == BCochain
    ensures Cochain(0, 20, a) == [0, 3, 4, 7, 8, 11, 12, 15, 16, 19]
    ensures Cochain(0, 20, b) == [1, 2, 5, 6, 9, 10, 13, 14, 17, 18]
  {
    Tables16(a, b);
    ExtendFour(4, a, b);
  }

  lemma Tables1(a: seq<nat>, b: seq<nat>)
    requires a == ACochain && b == BCochain
    ensures Cochain(0, 1, a) == [0]
    ensures Cochain(0, 1, b) == []
  {
    Extend(0, a);
    Extend(0, b);
  }

  lemma Tables14(a: seq<nat>, b: seq<nat>)
    requires a == ACochain && b == BCochain
    ensures Cochain(0, 14, a) == [0, 3, 4, 7, 8, 11, 12]
    ensures Cochain(0, 14, b) == [1, 2, 5, 6, 9, 10, 13]
  {
    Tables12(a, b);
    ExtendTwo(3, a, b);
  }
}
