/** The open-addressing table of `src/hash_table.rs`: `capacity` slots of
    a key and a value, both `u32`, in one array of `2 * capacity` words
    (key of slot `j` at `2 * j`, value at `2 * j + 1`). Key 0 marks an
    empty slot; a key lives in the first slot free when it was inserted,
    probing linearly from its hash. Nothing is ever removed. */
module HashTable {
  import opened Balancing

  datatype Option<T> = None | Some(value: T)

  // ----- hashing and probing -----

  /** The `u32` words of the table: keys, values, and hashes. */
  newtype u32 = x: int | 0 <= x < 0x1_0000_0000

  /** `a ^ b`: exclusive or, bit by bit from the lowest. */
  function Xor(a: nat, b: nat): nat
    decreases a + b
  {
    if a == 0 && b == 0 then 0
    else (if a % 2 == b % 2 then 0 else 1) + 2 * Xor(a / 2, b / 2)
  }

  /** Exclusive or of two numbers below a power of two stays below it, so
      it never leaves a `u32`. */
  lemma {:induction false} XorBelow(a: nat, b: nat, m: nat)
    requires IsPow2(m) && a < m && b < m
    ensures Xor(a, b) < m
    decreases m
  {
    if m > 1 && !(a == 0 && b == 0) {
      XorBelow(a / 2, b / 2, m / 2);
    }
  }

  /** `2^32`, one more than the largest `u32`, is a power of two. */
  lemma WordPow2()
    ensures IsPow2(0x1_0000_0000)
  {
    assert IsPow2(0x100);
    assert IsPow2(0x1_0000);
    assert IsPow2(0x100_0000);
  }

  /** Exclusive or of two `u32` words is a `u32` word. */
  lemma XorWord(a: nat, b: nat)
    requires a < 0x1_0000_0000 && b < 0x1_0000_0000
    ensures Xor(a, b) < 0x1_0000_0000
  {
    WordPow2();
    XorBelow(a, b, 0x1_0000_0000);
  }

  /** `x.wrapping_shr(16) ^ x`. */
  function Shuffle(x: u32): u32
  {
    XorWord(x as nat / 0x1_0000, x as nat);
    Xor(x as nat / 0x1_0000, x as nat) as u32
  }

  /** `x.wrapping_mul(0x45d9f3b)`: the product modulo `2^32`. */
  function Scramble(x: u32): u32
  {
    (x as nat * 0x45d9f3b % 0x1_0000_0000) as u32
  }

  /** The lowest bit and the rest of an exclusive or. */
  lemma XorBits(a: nat, b: nat)
    ensures Xor(a, b) % 2 == (if a % 2 == b % 2 then 0 else 1)
    ensures Xor(a, b) / 2 == Xor(a / 2, b / 2)
  {
  }

  /** Exclusive or with zero changes nothing. */
  lemma {:induction false} XorZero(b: nat)
    ensures Xor(0, b) == b
    decreases b
  {
    if b != 0 {
      XorZero(b / 2);
    }
  }

  /** The order of the operands does not matter. */
  lemma {:induction false} XorSymmetric(a: nat, b: nat)
    ensures Xor(a, b) == Xor(b, a)
    decreases a + b
  {
    if !(a == 0 && b == 0) {
      XorSymmetric(a / 2, b / 2);
    }
  }

  /** Exclusive or with `b` twice gives back what it started from. */
  lemma {:induction false} XorCancel(a: nat, b: nat)
    ensures Xor(Xor(a, b), b) == a
    decreases a + b
  {
    var c := Xor(a, b);
    XorBits(a, b);
    if a == 0 && b == 0 {
    } else {
      XorCancel(a / 2, b / 2);
      XorBits(c, b);
      assert Xor(c, b) % 2 == a % 2;
      assert Xor(c, b) / 2 == a / 2;
    }
  }

  /** An exclusive or rebuilt from its lowest bit and the rest. */
  lemma XorParts(a: nat, x: nat)
    ensures Xor(a, x) == 2 * Xor(a / 2, x / 2) + (if a % 2 == x % 2 then 0 else 1)
  {
    XorBits(a, x);
  }

  /** `h` shifted left by `n` bits. */
  function Shl(h: nat, n: nat): nat
  {
    if n == 0 then h else 2 * Shl(h, n - 1)
  }

  /** Shifting left by 16 bits multiplies by `2^16`. */
  lemma Shl16(h: nat)
    ensures Shl(h, 16) == h * 0x1_0000
  {
    assert Shl(h, 1) == 2 * h;
    assert Shl(h, 2) == 4 * h;
    assert Shl(h, 3) == 8 * h;
    assert Shl(h, 4) == 16 * h;
    assert Shl(h, 5) == 32 * h;
    assert Shl(h, 6) == 64 * h;
    assert Shl(h, 7) == 128 * h;
    assert Shl(h, 8) == 256 * h;
    assert Shl(h, 9) == 512 * h;
    assert Shl(h, 10) == 1024 * h;
    assert Shl(h, 11) == 2048 * h;
    assert Shl(h, 12) == 4096 * h;
    assert Shl(h, 13) == 8192 * h;
    assert Shl(h, 14) == 16384 * h;
    assert Shl(h, 15) == 32768 * h;
    assert Shl(h, 16) == 65536 * h;
  }

  /** Exclusive or with a number of `n` bits leaves the bits above them
      alone. */
  lemma {:induction false} XorLow(a: nat, h: nat, l: nat, n: nat)
    requires a < Shl(1, n) && l < Shl(1, n)
    ensures Xor(a, Shl(h, n) + l) == Shl(h, n) + Xor(a, l)
    decreases n
  {
    if n == 0 {
      XorZero(h);
    } else {
      var x := Shl(h, n) + l;
      assert x / 2 == Shl(h, n - 1) + l / 2 && x % 2 == l % 2;
      XorLow(a / 2, h, l / 2, n - 1);
      XorParts(a, x);
      XorParts(a, l);
    }
  }

  /** `x.wrapping_shr(16) ^ x` undoes itself: the high half passes
      unchanged and the low half is xored with it, so a second round takes
      the same high half off again. */
  lemma ShuffleTwice(x: u32)
    ensures Shuffle(Shuffle(x)) == x
  {
    var p: nat := 0x1_0000;
    assert IsPow2(0x100);
    assert IsPow2(p);
    Shl16(1);
    var hi: nat, lo: nat := x as nat / p, x as nat % p;
    Shl16(hi);
    XorLow(hi, hi, lo, 16);
    XorBelow(hi, lo, p);
    var y: nat := Shuffle(x) as nat;
    assert y == hi * p + Xor(hi, lo);
    assert y / p == hi && y % p == Xor(hi, lo);
    XorLow(hi, hi, Xor(hi, lo), 16);
    XorSymmetric(hi, lo);
    XorSymmetric(hi, Xor(lo, hi));
    XorCancel(lo, hi);
    assert Shuffle(y as u32) as nat == hi * p + lo;
  }

  /** The inverse of `0x45d9f3b` modulo `2^32`. */
  const Inverse: nat := 0x119de1f3

  /** Multiplication by `Inverse` modulo `2^32`, which undoes `Scramble`. */
  function Unscramble(x: u32): u32
  {
    (x as nat * Inverse % 0x1_0000_0000) as u32
  }

  /** Odd multipliers are invertible modulo `2^32`: `Unscramble` undoes
      `Scramble`. */
  lemma ScrambleUndo(x: u32)
    ensures Unscramble(Scramble(x)) == x
  {
    var n := x as int;
    var r := Scramble(x) as int;
    var q := n * 0x45d9f3b / 0x1_0000_0000;
    WordDivision(n * 0x45d9f3b, q, r);
    var k := n * 5040344 - q * 0x119de1f3;
    assert r * 0x119de1f3 == n + 0x1_0000_0000 * k;
    WordRemainder(r * 0x119de1f3, n, k);
  }

  /** Division by `2^32` splits a number into its quotient and remainder. */
  lemma WordDivision(a: int, q: int, r: int)
    requires q == a / 0x1_0000_0000 && r == a % 0x1_0000_0000
    ensures a == q * 0x1_0000_0000 + r
  {
  }

  /** A word-sized `n` is the remainder of `n` plus any multiple of `2^32`. */
  lemma WordRemainder(a: int, n: int, k: int)
    requires 0 <= n < 0x1_0000_0000 && a == n + 0x1_0000_0000 * k
    ensures a % 0x1_0000_0000 == n
  {
  }

  /** `hash` run backwards. */
  function Unhash(h: u32): u32
  {
    Shuffle(Unscramble(Shuffle(Unscramble(Shuffle(h)))))
  }

  /** `hash`: two rounds of shuffle and wrapping multiplication, and a last
      shuffle. Every round can be undone, so `hash` is a bijection on
      `u32`: two different keys never get the same hash. */
  function Hash(key: u32): (r: u32)
    ensures Unhash(r) == key
  {
    var a := Shuffle(key);
    var b := Scramble(a);
    var c := Shuffle(b);
    var d := Scramble(c);
    ShuffleTwice(d);
    ScrambleUndo(c);
    ShuffleTwice(b);
    ScrambleUndo(a);
    ShuffleTwice(key);
    Shuffle(d)
  }

  /** Different keys have different hashes. */
  lemma HashInjective(k: u32, k': u32)
    requires Hash(k) == Hash(k')
    ensures k == k'
  {
  }

  /** The hash function a table probes with. */
  type Hasher = u32 -> u32

  /** `idx & (capacity - 1)`: for a power-of-two capacity, the remainder
      of `idx` by the capacity, here taken by repeated subtraction. */
  function Mask(idx: nat, cap: nat): (r: nat)
    requires cap > 0
    ensures r < cap
    decreases idx
  {
    if idx < cap then idx else Mask(idx - cap, cap)
  }

  /** `Mask` is the Euclidean remainder. */
  lemma {:induction false} MaskMod(idx: nat, cap: nat)
    requires cap > 0
    ensures Mask(idx, cap) == idx % cap
    decreases idx
  {
    if idx < cap {
      DivMod(idx, cap, 0, idx);
    } else {
      MaskMod(idx - cap, cap);
      var q := (idx - cap) / cap;
      assert idx - cap == Mask(idx - cap, cap) + cap * q;
      assert cap * (q + 1) == cap * q + cap;
      DivMod(idx, cap, q + 1, Mask(idx - cap, cap));
    }
  }

  /** The slot a key's probing starts from: its hash, masked. */
  function Home(hash: Hasher, key: u32, cap: nat): (r: nat)
    requires cap > 0
    ensures r < cap
  {
    Mask(hash(key) as nat, cap)
  }

  /** The slot `d` steps after `home`, wrapping around the end. */
  function Probe(home: nat, d: nat, cap: nat): (r: nat)
    requires home < cap && d < cap
    ensures r < cap
  {
    if home + d < cap then home + d else home + d - cap
  }

  /** How many steps probing from `home` takes to reach slot `j`. */
  function Dist(home: nat, j: nat, cap: nat): (r: nat)
    requires home < cap && j < cap
    ensures r < cap && Probe(home, r, cap) == j
  {
    if j >= home then j - home else j + cap - home
  }

  /** The step after a probe: one past the slot, masked again, is the next
      slot of the sequence. */
  lemma ProbeNext(home: nat, d: nat, cap: nat)
    requires home < cap && d + 1 < cap
    ensures Mask(Probe(home, d, cap) + 1, cap) == Probe(home, d + 1, cap)
  {
    var j := Probe(home, d, cap) + 1;
    if j >= cap {
      assert Mask(j - cap, cap) == 0;
    }
  }

  /** Probing reaches no slot twice within `cap` steps: the distance of the
      `d`-th slot from `home` is `d`. */
  lemma DistProbe(home: nat, d: nat, cap: nat)
    requires home < cap && d < cap
    ensures Dist(home, Probe(home, d, cap), cap) == d
  {
  }

  // ----- the table as data -----

  /** The key words of the slot array: key of slot `j` at `2 * j`. */
  function KeysOf(s: seq<u32>, cap: nat): (r: seq<u32>)
    requires |s| == 2 * cap
    ensures |r| == cap && forall j :: 0 <= j < cap ==> r[j] == s[2 * j]
  {
    seq(cap, j requires 0 <= j < cap => s[2 * j])
  }

  /** The value words of the slot array: value of slot `j` at `2 * j + 1`. */
  function ValuesOf(s: seq<u32>, cap: nat): (r: seq<u32>)
    requires |s| == 2 * cap
    ensures |r| == cap && forall j :: 0 <= j < cap ==> r[j] == s[2 * j + 1]
  {
    seq(cap, j requires 0 <= j < cap => s[2 * j + 1])
  }

  /** Storing a key and its value in slot `j` changes slot `j` only. */
  lemma StoreEntry(s: seq<u32>, cap: nat, j: nat, k: u32, v: u32)
    requires |s| == 2 * cap && j < cap
    ensures KeysOf(s[2 * j := k][2 * j + 1 := v], cap) == KeysOf(s, cap)[j := k]
    ensures ValuesOf(s[2 * j := k][2 * j + 1 := v], cap) == ValuesOf(s, cap)[j := v]
  {
    var s' := s[2 * j := k][2 * j + 1 := v];
    forall i | 0 <= i < cap
      ensures s'[2 * i] == (if i == j then k else s[2 * i])
      ensures s'[2 * i + 1] == (if i == j then v else s[2 * i + 1])
    {
      if i != j {
        assert 2 * i != 2 * j + 1 && 2 * i + 1 != 2 * j;
      }
    }
  }

  /** Storing a value in slot `j` changes that value only. */
  lemma StoreValue(s: seq<u32>, cap: nat, j: nat, v: u32)
    requires |s| == 2 * cap && j < cap
    ensures KeysOf(s[2 * j + 1 := v], cap) == KeysOf(s, cap)
    ensures ValuesOf(s[2 * j + 1 := v], cap) == ValuesOf(s, cap)[j := v]
  {
    var s' := s[2 * j + 1 := v];
    forall i | 0 <= i < cap
      ensures s'[2 * i] == s[2 * i]
      ensures s'[2 * i + 1] == (if i == j then v else s[2 * i + 1])
    {
      assert 2 * i != 2 * j + 1;
    }
  }

  /** The slots holding a key. */
  function Filled(keys: seq<u32>): (r: set<nat>)
    ensures forall j: nat :: j in r <==> j < |keys| && keys[j] != 0
  {
    set j: nat | j < |keys| && keys[j] != 0
  }

  /** The slot `d` steps from `home` holds a key. */
  ghost predicate Occupied(keys: seq<u32>, home: nat, d: nat)
    requires home < |keys| && d < |keys|
  {
    keys[Probe(home, d, |keys|)] != 0
  }

  /** Every slot probing from `home` passes before reaching slot `j`
      holds a key. */
  ghost predicate Reachable(keys: seq<u32>, home: nat, j: nat)
    requires home < |keys| && j < |keys|
  {
    forall d :: 0 <= d < Dist(home, j, |keys|) ==> Occupied(keys, home, d)
  }

  /** Slot `j` holds key `k` with value `v`, and probing for `k` reaches
      it without crossing an empty slot. */
  ghost predicate Entry(hash: Hasher, keys: seq<u32>, values: seq<u32>, k: u32, j: nat, v: u32)
  {
    && 0 < |keys| == |values| && j < |keys|
    && keys[j] == k && values[j] == v
    && Reachable(keys, Home(hash, k, |keys|), j)
  }

  /** Every key of `where` is non-zero and sits in slot `where[k]` with
      its value `contents[k]` beside it, reachable from its home slot. */
  ghost predicate Placed(hash: Hasher, keys: seq<u32>, values: seq<u32>, contents: map<u32, u32>, where: map<u32, nat>)
  {
    forall k :: k in where ==> k != 0 && k in contents && Entry(hash, keys, values, k, where[k], contents[k])
  }

  /** Slot `j` holds a key of `where` that sits in that slot. */
  ghost predicate Homed(keys: seq<u32>, where: map<u32, nat>, j: nat)
    requires j < |keys|
  {
    keys[j] in where && where[keys[j]] == j
  }

  /** Every filled slot holds a key of `where` that sits in that slot. */
  ghost predicate Indexed(keys: seq<u32>, where: map<u32, nat>)
  {
    forall j {:trigger Homed(keys, where, j)} :: 0 <= j < |keys| && keys[j] != 0 ==> Homed(keys, where, j)
  }

  /** The slots hold the map `contents`, key `k` in slot `where[k]`: the
      keys present are exactly the non-zero key words, each in one slot
      with its value beside it, and each reachable from its home slot
      without crossing an empty slot. */
  ghost predicate Table(hash: Hasher, keys: seq<u32>, values: seq<u32>, contents: map<u32, u32>, where: map<u32, nat>)
  {
    && 0 < |keys| == |values|
    && contents.Keys == where.Keys
    && Placed(hash, keys, values, contents, where)
    && Indexed(keys, where)
  }

  /** A set holding every slot number below `n` has at least `n`
      elements. */
  lemma {:induction false} SlotsAtLeast(a: set<nat>, n: nat)
    requires forall j: nat :: j < n ==> j in a
    ensures |a| >= n
    decreases n
  {
    if n > 0 {
      SlotsAtLeast(a - {n - 1}, n - 1);
    }
  }

  /** A set of slot numbers below `n` has at most `n` elements. */
  lemma {:induction false} SlotsAtMost(a: set<nat>, n: nat)
    requires forall j: nat :: j in a ==> j < n
    ensures |a| <= n
    decreases n
  {
    if n > 0 {
      SlotsAtMost(a - {n - 1}, n - 1);
    } else {
      assert a == {};
    }
  }

  /** A map from keys to slots that the key words invert, onto a set of
      slots, has as many keys as there are slots. */
  lemma {:induction false} Counted(keys: seq<u32>, where: map<u32, nat>, slots: set<nat>)
    requires forall k :: k in where ==> where[k] in slots && where[k] < |keys| && keys[where[k]] == k
    requires forall j :: j in slots ==> j < |keys| && keys[j] in where && where[keys[j]] == j
    ensures |where| == |slots|
    decreases |where|
  {
    if where == map[] {
      assert slots == {};
    } else {
      var k :| k in where;
      var j := where[k];
      var rest := where - {k};
      assert rest.Keys == where.Keys - {k};
      Counted(keys, rest, slots - {j});
    }
  }

  /** The table holds as many keys as there are filled slots. */
  lemma CountKeys(hash: Hasher, keys: seq<u32>, values: seq<u32>, contents: map<u32, u32>, where: map<u32, nat>)
    requires Table(hash, keys, values, contents, where)
    ensures |contents| == |Filled(keys)|
  {
    forall k | k in where
      ensures where[k] in Filled(keys) && where[k] < |keys| && keys[where[k]] == k
    {
      assert Entry(hash, keys, values, k, where[k], contents[k]);
    }
    forall j | j in Filled(keys)
      ensures j < |keys| && keys[j] in where && where[keys[j]] == j
    {
      assert Homed(keys, where, j);
    }
    Counted(keys, where, Filled(keys));
    assert |contents| == |contents.Keys| == |where.Keys| == |where|;
  }

  /** With fewer filled slots than slots, some slot is empty. */
  lemma EmptySlot(keys: seq<u32>)
    requires |Filled(keys)| < |keys|
    ensures exists j :: 0 <= j < |keys| && keys[j] == 0
  {
    if forall j :: 0 <= j < |keys| ==> keys[j] != 0 {
      SlotsAtLeast(Filled(keys), |keys|);
      assert false;
    }
  }

  /** Probing for a present key, before it passes the key's slot, finds
      every slot filled: the slots before are on the key's probe path, and
      the key's own slot holds it. */
  lemma Present(hash: Hasher, keys: seq<u32>, values: seq<u32>, contents: map<u32, u32>, where: map<u32, nat>, key: u32, steps: nat)
    requires Table(hash, keys, values, contents, where) && steps < |keys|
    requires key in where ==> steps <= Dist(Home(hash, key, |keys|), where[key], |keys|)
    ensures key in where ==> keys[Probe(Home(hash, key, |keys|), steps, |keys|)] != 0
  {
    if key in where {
      var h := Home(hash, key, |keys|);
      assert Entry(hash, keys, values, key, where[key], contents[key]);
      if steps < Dist(h, where[key], |keys|) {
        assert Reachable(keys, h, where[key]);
        assert Occupied(keys, h, steps);
      }
    }
  }

  /** Filling an empty slot with a key fills exactly that slot. */
  lemma FilledAdd(keys: seq<u32>, j: nat, key: u32)
    requires j < |keys| && keys[j] == 0 && key != 0
    ensures Filled(keys[j := key]) == Filled(keys) + {j} && j !in Filled(keys)
  {
    assert Filled(keys[j := key]) == Filled(keys) + {j};
  }

  /** Writing a new key and its value into an empty slot that probing for
      the key reaches keeps every key placed, the new one included. */
  lemma FillPlaced(hash: Hasher, keys: seq<u32>, values: seq<u32>, contents: map<u32, u32>, where: map<u32, nat>, key: u32, value: u32, steps: nat)
    requires Table(hash, keys, values, contents, where) && key != 0 && key !in contents
    requires FirstStop(hash, keys, key, steps) && keys[Probe(Home(hash, key, |keys|), steps, |keys|)] == 0
    ensures var j := Probe(Home(hash, key, |keys|), steps, |keys|);
      Placed(hash, keys[j := key], values[j := value], contents[key := value], where[key := j])
  {
    var cap := |keys|;
    var h := Home(hash, key, cap);
    var j := Probe(h, steps, cap);
    var keys', values' := keys[j := key], values[j := value];
    var contents', where' := contents[key := value], where[key := j];
    forall k | k in where'
      ensures k != 0 && k in contents' && Entry(hash, keys', values', k, where'[k], contents'[k])
    {
      if k == key {
        DistProbe(h, steps, cap);
        forall d | 0 <= d < steps
          ensures Occupied(keys', h, d)
        {
          assert Passes(hash, keys, key, d);
        }
      } else {
        var hk := Home(hash, k, cap);
        assert Entry(hash, keys, values, k, where[k], contents[k]);
        forall d | 0 <= d < Dist(hk, where[k], cap)
          ensures Occupied(keys', hk, d)
        {
          assert Occupied(keys, hk, d);
        }
      }
    }
  }

  /** Writing a new key into an empty slot keeps every filled slot
      indexed, the new one included. */
  lemma FillIndexed(keys: seq<u32>, where: map<u32, nat>, key: u32, j: nat)
    requires Indexed(keys, where) && key !in where && j < |keys| && keys[j] == 0
    ensures Indexed(keys[j := key], where[key := j])
  {
    var keys' := keys[j := key];
    forall i | 0 <= i < |keys'| && keys'[i] != 0
      ensures Homed(keys', where[key := j], i)
    {
      if i != j {
        assert Homed(keys, where, i);
      }
    }
  }

  /** Writing a new key and its value into an empty slot that probing for
      the key reaches keeps the table, now holding the key as well, and
      fills exactly that slot. */
  lemma Fill(hash: Hasher, keys: seq<u32>, values: seq<u32>, contents: map<u32, u32>, where: map<u32, nat>, key: u32, value: u32, steps: nat)
    requires Table(hash, keys, values, contents, where) && key != 0 && key !in contents
    requires FirstStop(hash, keys, key, steps) && keys[Probe(Home(hash, key, |keys|), steps, |keys|)] == 0
    ensures var j := Probe(Home(hash, key, |keys|), steps, |keys|);
      && Table(hash, keys[j := key], values[j := value], contents[key := value], where[key := j])
      && Filled(keys[j := key]) == Filled(keys) + {j} && j !in Filled(keys)
  {
    var j := Probe(Home(hash, key, |keys|), steps, |keys|);
    FillPlaced(hash, keys, values, contents, where, key, value, steps);
    FillIndexed(keys, where, key, j);
    FilledAdd(keys, j, key);
  }

  /** Overwriting the value of a present key keeps the table, with the new
      value, and the same filled slots. */
  lemma Overwrite(hash: Hasher, keys: seq<u32>, values: seq<u32>, contents: map<u32, u32>, where: map<u32, nat>, key: u32, value: u32)
    requires Table(hash, keys, values, contents, where) && key in where
    ensures where[key] < |values| && Table(hash, keys, values[where[key] := value], contents[key := value], where)
  {
    assert Entry(hash, keys, values, key, where[key], contents[key]);
    var values' := values[where[key] := value];
    var contents' := contents[key := value];
    forall k | k in where
      ensures k != 0 && k in contents' && Entry(hash, keys, values', k, where[k], contents'[k])
    {
      assert Entry(hash, keys, values, k, where[k], contents[k]);
    }
  }

  // ----- probing -----

  /** Probing for `key` goes on past the slot `d` steps from its home: the
      slot holds another key. */
  ghost predicate Passes(hash: Hasher, keys: seq<u32>, key: u32, d: nat)
    requires 0 < |keys| && d < |keys|
  {
    var j := Probe(Home(hash, key, |keys|), d, |keys|);
    keys[j] != key && keys[j] != 0
  }

  /** The `d`-th slot probing for `key` reaches is the first where it
      stops: it holds the key or is empty. */
  ghost predicate FirstStop(hash: Hasher, keys: seq<u32>, key: u32, d: nat)
    requires 0 < |keys|
  {
    && d < |keys| && !Passes(hash, keys, key, d)
    && forall e :: 0 <= e < d ==> Passes(hash, keys, key, e)
  }

  /** Where probing first stops decides the lookup: the key is present if
      and only if that slot holds it, and then it is the key's slot. */
  lemma Found(hash: Hasher, keys: seq<u32>, values: seq<u32>, contents: map<u32, u32>, where: map<u32, nat>, key: u32, d: nat)
    requires Table(hash, keys, values, contents, where) && key != 0 && FirstStop(hash, keys, key, d)
    ensures var j := Probe(Home(hash, key, |keys|), d, |keys|);
      && (key in where <==> keys[j] == key)
      && (key in where ==> where[key] == j)
  {
    var cap := |keys|;
    var h := Home(hash, key, cap);
    var j := Probe(h, d, cap);
    if key in where {
      var home := Dist(h, where[key], cap);
      assert Entry(hash, keys, values, key, where[key], contents[key]);
      assert !Passes(hash, keys, key, home);
      Present(hash, keys, values, contents, where, key, d);
    }
    if keys[j] != 0 {
      assert Homed(keys, where, j);
    }
  }

  /** The probing loop of `set` and `get`: from the key's hash, masked to
      the capacity, it steps one slot at a time until a slot holds the key
      or is empty, and returns that slot, the first where probing stops.
      Some slot `stop` steps away must stop it; otherwise it would go on
      forever. */
  method Seek(hash: Hasher, slots: array<u32>, cap: nat, key: u32, ghost stop: nat) returns (idx: nat, ghost d: nat)
    requires 0 < cap && slots.Length == 2 * cap && stop < cap
    requires !Passes(hash, KeysOf(slots[..], cap), key, stop)
    ensures d <= stop && idx == Probe(Home(hash, key, cap), d, cap)
    ensures FirstStop(hash, KeysOf(slots[..], cap), key, d)
  {
    ghost var keys := KeysOf(slots[..], cap);
    ghost var h := Home(hash, key, cap);
    idx := hash(key) as nat;
    d := 0;
    while true
      invariant d <= stop && Mask(idx, cap) == Probe(h, d, cap)
      invariant forall e :: 0 <= e < d ==> Passes(hash, keys, key, e)
      decreases stop - d
    {
      idx := Mask(idx, cap);
      var probed := slots[2 * idx];
      assert probed == keys[idx];
      if probed == key || probed == 0 {
        return;
      }
      ProbeNext(h, d, cap);
      idx := idx + 1;
      d := d + 1;
    }
  }

  /** The slot array `s` of a table of capacity `cap` holding `size` keys
      holds the map `contents`, key `k` in slot `where[k]`. The capacity is
      a power of two, at most `2^31` so that `2 * idx + 1` fits in a
      `u32`. */
  ghost predicate Good(hash: Hasher, s: seq<u32>, cap: nat, size: nat, contents: map<u32, u32>, where: map<u32, nat>)
  {
    && IsPow2(cap) && cap <= 0x8000_0000 && |s| == 2 * cap
    && Table(hash, KeysOf(s, cap), ValuesOf(s, cap), contents, where)
    && size == |Filled(KeysOf(s, cap))|
  }

  /** Where probing for a key first stops on a slot not holding it, the
      key is absent, and storing the key and its value there keeps the
      table, holding one key more. */
  lemma Insert(hash: Hasher, s: seq<u32>, cap: nat, size: nat, contents: map<u32, u32>, where: map<u32, nat>, key: u32, value: u32, d: nat)
    requires Good(hash, s, cap, size, contents, where) && key != 0
    requires FirstStop(hash, KeysOf(s, cap), key, d) && s[2 * Probe(Home(hash, key, cap), d, cap)] != key
    ensures var j := Probe(Home(hash, key, cap), d, cap);
      && key !in contents
      && Good(hash, s[2 * j := key][2 * j + 1 := value], cap, size + 1, contents[key := value], where[key := j])
  {
    var keys, values := KeysOf(s, cap), ValuesOf(s, cap);
    var j := Probe(Home(hash, key, cap), d, cap);
    Found(hash, keys, values, contents, where, key, d);
    Fill(hash, keys, values, contents, where, key, value, d);
    StoreEntry(s, cap, j, key, value);
    assert |Filled(keys[j := key])| == |Filled(keys)| + 1;
  }

  /** Where probing for a key first stops on a slot holding it, that slot
      is the key's, its value is the key's value, and overwriting the value
      keeps the table. */
  lemma Replace(hash: Hasher, s: seq<u32>, cap: nat, size: nat, contents: map<u32, u32>, where: map<u32, nat>, key: u32, value: u32, d: nat)
    requires Good(hash, s, cap, size, contents, where) && key != 0
    requires FirstStop(hash, KeysOf(s, cap), key, d) && s[2 * Probe(Home(hash, key, cap), d, cap)] == key
    ensures var j := Probe(Home(hash, key, cap), d, cap);
      && key in contents && s[2 * j + 1] == contents[key]
      && Good(hash, s[2 * j + 1 := value], cap, size, contents[key := value], where)
  {
    var keys, values := KeysOf(s, cap), ValuesOf(s, cap);
    var j := Probe(Home(hash, key, cap), d, cap);
    Found(hash, keys, values, contents, where, key, d);
    assert Entry(hash, keys, values, key, where[key], contents[key]);
    Overwrite(hash, keys, values, contents, where, key, value);
    StoreValue(s, cap, j, value);
  }

  /** An atomic store of one word of the slot array. */
  method Store(slots: array<u32>, i: nat, v: u32)
    requires i < slots.Length
    modifies slots
    ensures slots[..] == old(slots[..])[i := v]
  {
    slots[i] := v;
  }

}

/** The table object over the slot array. */
module HashTables {
  import opened Balancing
  import opened HashTable


  /** `IntegerHashTable`: the number of keys, the capacity and the slot
      array `slots`. */
  class IntegerHashTable {
    var size: nat
    const capacity: nat
    const slots: array<u32>
    /** The free function `hash`, which every probe starts from. */
    const hash: Hasher
    /** The map the table holds, and the slot of each key. */
    ghost var contents: map<u32, u32>
    ghost var where: map<u32, nat>

    ghost predicate Valid()
      reads this, slots
    {
      Good(hash, slots[..], capacity, size, contents, where)
    }

    /** `new(capacity)`: `capacity` empty slots (a zeroed array); the
        capacity must be a power of two (asserted), at most `2^31` so that
        `2 * idx + 1` fits in a `u32`. */
    constructor (capacity: nat)
      requires IsPow2(capacity) && capacity <= 0x8000_0000
      ensures Valid() && fresh(slots) && hash == Hash
      ensures this.capacity == capacity && contents == map[] && size == 0
    {
      this.capacity := capacity;
      hash := Hash;
      slots := new u32[2 * capacity](_ => 0);
      size := 0;
      contents := map[];
      where := map[];
      new;
      assert Filled(KeysOf(slots[..], capacity)) == {};
    }

    /** `size()`: the number of keys held. */
    function Size(): (r: nat)
      requires Valid()
      reads this, slots
      ensures r == |contents|
    {
      CountKeys(hash, KeysOf(slots[..], capacity), ValuesOf(slots[..], capacity), contents, where);
      size
    }

    /** `is_empty()`: whether no key is held. */
    function IsEmpty(): (r: bool)
      requires Valid()
      reads this, slots
      ensures r <==> contents == map[]
    {
      Size() == 0
    }

    /** `capacity()`: the number of slots, never fewer than the keys. */
    function Capacity(): (r: nat)
      requires Valid()
      reads this, slots
      ensures r == capacity && IsPow2(r) && |contents| <= r
    {
      CountKeys(hash, KeysOf(slots[..], capacity), ValuesOf(slots[..], capacity), contents, where);
      SlotsAtMost(Filled(KeysOf(slots[..], capacity)), capacity);
      capacity
    }

    /** `set(key, value)`: keys and values must be non-zero (asserted).
        Probing from the key's hash, it overwrites the value of the key if
        it finds it, returning the old value, and otherwise fills the first
        empty slot and counts one key more. With no empty slot and the key
        absent it would probe forever, so then it needs a free slot. */
    method Set(key: u32, value: u32) returns (r: Option<u32>)
      requires Valid() && key > 0 && value > 0
      requires key in contents || size < capacity
      modifies this, slots
      ensures Valid()
      ensures contents == old(contents)[key := value]
      ensures r == if key in old(contents) then Some(old(contents)[key]) else None
      ensures size == if key in old(contents) then old(size) else old(size) + 1
    {
      var idx, d := Seek(hash, slots, capacity, key, Stop(key));
      var probed := slots[2 * idx];
      if probed != key {
        Claim(key, value, idx, d);
        return None;
      }
      var oldValue := Swap(key, value, idx, d);
      return Some(oldValue);
    }

    /** The empty-slot branch of `set`: the key goes into the first empty
        slot of its probe sequence, its value beside it, and the size grows
        by one. */
    method Claim(key: u32, value: u32, idx: nat, ghost d: nat)
      requires Valid() && key > 0
      requires FirstStop(hash, KeysOf(slots[..], capacity), key, d)
      requires idx == Probe(Home(hash, key, capacity), d, capacity) && slots[2 * idx] != key
      modifies this, slots
      ensures Valid() && key !in old(contents)
      ensures contents == old(contents)[key := value] && size == old(size) + 1
    {
      ghost var s := slots[..];
      Insert(hash, s, capacity, size, contents, where, key, value, d);
      Store(slots, 2 * idx, key);
      size := size + 1;
      Store(slots, 2 * idx + 1, value);
      assert slots[..] == s[2 * idx := key][2 * idx + 1 := value];
      contents := contents[key := value];
      where := where[key := idx];
    }

    /** The found-key branch of `set`: the value beside the key is swapped
        for the new one and the old one returned. */
    method Swap(key: u32, value: u32, idx: nat, ghost d: nat) returns (oldValue: u32)
      requires Valid() && key > 0
      requires FirstStop(hash, KeysOf(slots[..], capacity), key, d)
      requires idx == Probe(Home(hash, key, capacity), d, capacity) && slots[2 * idx] == key
      modifies this, slots
      ensures Valid() && key in old(contents) && oldValue == old(contents)[key]
      ensures contents == old(contents)[key := value] && size == old(size)
    {
      ghost var s := slots[..];
      Replace(hash, s, capacity, size, contents, where, key, value, d);
      oldValue := slots[2 * idx + 1];
      Store(slots, 2 * idx + 1, value);
      assert slots[..] == s[2 * idx + 1 := value];
      contents := contents[key := value];
    }

    /** `get(key)`: the key must be non-zero (asserted). Probing from the
        key's hash, it returns the value beside the key, or nothing on
        reaching an empty slot. With no empty slot and the key absent it
        would probe forever, so then it needs a free slot. */
    method Get(key: u32) returns (r: Option<u32>)
      requires Valid() && key > 0
      requires key in contents || size < capacity
      ensures r == if key in contents then Some(contents[key]) else None
    {
      ghost var keys, values := KeysOf(slots[..], capacity), ValuesOf(slots[..], capacity);
      var idx, d := Seek(hash, slots, capacity, key, Stop(key));
      Found(hash, keys, values, contents, where, key, d);
      var probed := slots[2 * idx];
      assert probed == keys[idx];
      if probed == key {
        assert Entry(hash, keys, values, key, where[key], contents[key]);
        r := Some(slots[2 * idx + 1]);
      } else {
        r := None;
      }
    }

    /** A number of probes from the key's home slot at which probing for
        the key stops: the key's own slot, or an empty slot when the key is
        absent, of which there is one when the table is not full. */
    ghost function Stop(key: u32): (r: nat)
      requires Valid() && key != 0
      requires key in contents || size < capacity
      reads this, slots
      ensures r < capacity
      ensures !Passes(hash, KeysOf(slots[..], capacity), key, r)
    {
      var keys := KeysOf(slots[..], capacity);
      var h := Home(hash, key, capacity);
      if key in where then
        assert Entry(hash, keys, ValuesOf(slots[..], capacity), key, where[key], contents[key]);
        Dist(h, where[key], capacity)
      else
        EmptySlot(keys);
        var e :| 0 <= e < capacity && keys[e] == 0;
        Dist(h, e, capacity)
    }
  }

  /** The single-threaded scenario of the table's unit tests: a new table
      of 128 slots is empty with capacity 128; four new keys are each set
      to nothing before, after which the size is four, each key gives back
      its value, and setting each again hands back the value it had. */
  method InsertRetrieveUpdate() returns (empty: bool, cap: nat, size: nat, first: seq<Option<u32>>, got: seq<Option<u32>>, replaced: seq<Option<u32>>)
    ensures empty && cap == 128 && size == 4
    ensures first == [None, None, None, None]
    ensures got == [Some(20), Some(30), Some(40), Some(50)]
    ensures replaced == [Some(20), Some(30), Some(40), Some(50)]
  {
    assert IsPow2(128);
    var table := new IntegerHashTable(128);
    empty := table.IsEmpty();
    cap := table.Capacity();
    first := SetFour(table);
    size := table.Size();
    got := GetFour(table);
    replaced := UpdateFour(table);
  }

  /** The keys and values the tests set first. */
  ghost function Four(): map<u32, u32>
  {
    map[10 := 20, 20 := 30, 30 := 40, 40 := 50]
  }

  /** Which of the test keys each step of the scenario finds, and beside
      which value. */
  lemma ScenarioKeys()
    ensures 20 !in map[10 := 20 as u32]
    ensures 30 !in map[10 := 20 as u32, 20 := 30]
    ensures 40 !in map[10 := 20 as u32, 20 := 30, 30 := 40]
    ensures var m := Four(); 10 in m && m[10] == 20
    ensures var m := Four()[10 := 60]; 20 in m && m[20] == 30
    ensures var m := Four()[10 := 60][20 := 70]; 30 in m && m[30] == 40
    ensures var m := Four()[10 := 60][20 := 70][30 := 80]; 40 in m && m[40] == 50
    ensures Four()[10 := 60][20 := 70][30 := 80][40 := 90] == map[10 := 60, 20 := 70, 30 := 80, 40 := 90]
  {
  }

  /** Setting keys 10, 20, 30 and 40 in an empty table. */
  method SetFour(t: IntegerHashTable) returns (r: seq<Option<u32>>)
    requires t.Valid() && t.contents == map[] && t.size == 0 && t.capacity == 128
    modifies t, t.slots
    ensures t.Valid() && t.contents == Four() && t.size == 4
    ensures r == [None, None, None, None]
  {
    var a, b := SetTwo(t, 10, 20, 20, 30);
    var c, d := SetTwo(t, 30, 40, 40, 50);
    r := [a, b, c, d];
  }

  /** Setting two new keys: both are absent before, so both calls hand back
      nothing and the size grows by two. */
  method SetTwo(t: IntegerHashTable, k: u32, v: u32, k': u32, v': u32) returns (a: Option<u32>, b: Option<u32>)
    requires t.Valid() && 0 < k && 0 < v && 0 < k' && 0 < v' && k != k'
    requires k !in t.contents && k' !in t.contents && t.size + 2 <= t.capacity
    modifies t, t.slots
    ensures t.Valid() && t.contents == old(t.contents)[k := v][k' := v'] && t.size == old(t.size) + 2
    ensures a == None && b == None
  {
    a := t.Set(k, v);
    b := t.Set(k', v');
  }

  /** Getting the four keys back. */
  method GetFour(t: IntegerHashTable) returns (r: seq<Option<u32>>)
    requires t.Valid() && t.contents == Four()
    ensures r == [Some(20), Some(30), Some(40), Some(50)]
  {
    ScenarioKeys();
    var a := t.Get(10);
    var b := t.Get(20);
    var c := t.Get(30);
    var d := t.Get(40);
    r := [a, b, c, d];
  }

  /** Setting the four keys again, to new values. */
  method UpdateFour(t: IntegerHashTable) returns (r: seq<Option<u32>>)
    requires t.Valid() && t.contents == Four()
    modifies t, t.slots
    ensures t.Valid() && t.contents == map[10 := 60, 20 := 70, 30 := 80, 40 := 90]
    ensures r == [Some(20), Some(30), Some(40), Some(50)]
  {
    ScenarioKeys();
    var a := t.Set(10, 60);
    var b := t.Set(20, 70);
    var c := t.Set(30, 80);
    var d := t.Set(40, 90);
    r := [a, b, c, d];
  }
}
