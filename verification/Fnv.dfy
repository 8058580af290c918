/** The 32-bit FNV-1 hash of a key, and the shard index taken from it. */
module Fnv {
  type Byte = b: nat | b < 256
  type Word = w: nat | w < 0x1_0000_0000

  /** A Go string: a sequence of bytes. */
  type Key = seq<Byte>

  const SHARD_COUNT: nat := 32
  const OFFSET_BASIS: Word := 2166136261
  const PRIME: Word := 16777619
  const INVERSE: Word := 899433627

  function Differ(p: nat, q: nat): nat {
    if p == q then 0 else 1
  }

  /** Bitwise exclusive or. */
  function Xor(a: nat, b: nat): nat {
    if a == 0 && b == 0 then 0 else 2 * Xor(a / 2, b / 2) + Differ(a % 2, b % 2)
  }

  /** The 32-bit product with the FNV prime. */
  function Scale(h: Word): Word {
    (h * PRIME) % 0x1_0000_0000
  }

  function Mix(h: Word, b: Byte): Word {
    var scaled := Scale(h);
    XorByteBounds(scaled, b);
    Xor(scaled, b)
  }

  /** FNV-1 folds the bytes from left to right: multiply by the prime, then xor the byte in. */
  function Hash(key: Key): Word {
    if key == [] then OFFSET_BASIS else Mix(Hash(key[..|key| - 1]), key[|key| - 1])
  }

  method Fnv32(key: Key) returns (hash: Word)
    ensures hash == Hash(key)
  {
    hide Xor;
    hash := 2166136261;
    var prime32: Word := 16777619;
    for i := 0 to |key|
      invariant hash == Hash(key[..i])
    {
      assert key[..i + 1][..i] == key[..i];
      var scaled: Word := (hash * prime32) % 0x1_0000_0000;
      XorByteBounds(scaled, key[i]);
      hash := Xor(scaled, key[i]);
    }
    assert key[..|key|] == key;
  }

  /** The index of the shard that holds the key. */
  function Index(key: Key): (i: nat)
    ensures i < SHARD_COUNT
  {
    Hash(key) % SHARD_COUNT
  }

  // ---- Exclusive or ------------------------------------------------------

  lemma XorCons(x: nat, y: nat, p: nat, q: nat)
    requires p < 2 && q < 2
    ensures Xor(2 * x + p, 2 * y + q) == 2 * Xor(x, y) + Differ(p, q)
  {
    var a, b := 2 * x + p, 2 * y + q;
    assert a / 2 == x && a % 2 == p && b / 2 == y && b % 2 == q;
  }

  lemma {:induction false} XorZero(a: nat)
    ensures Xor(a, 0) == a
  {
    if a == 0 {
      assert Xor(0, 0) == 0;
    } else {
      hide Xor;
      XorZero(a / 2);
      XorCons(a / 2, 0, a % 2, 0);
    }
  }

  lemma {:induction false} XorCommutes(a: nat, b: nat)
    ensures Xor(a, b) == Xor(b, a)
  {
    if a != 0 || b != 0 {
      hide Xor;
      XorCommutes(a / 2, b / 2);
      XorCons(a / 2, b / 2, a % 2, b % 2);
      XorCons(b / 2, a / 2, b % 2, a % 2);
    }
  }

  lemma {:induction false} XorCancels(a: nat, b: nat)
    ensures Xor(Xor(a, b), b) == a
    decreases a + b
  {
    hide Xor;
    if a == 0 && b == 0 {
      XorZero(0);
    } else {
      var x, y, p, q := a / 2, b / 2, a % 2, b % 2;
      XorCons(x, y, p, q);
      XorCons(Xor(x, y), y, Differ(p, q), q);
      XorCancels(x, y);
    }
  }

  function Pow2(n: nat): (p: nat)
    ensures p > 0
  {
    if n == 0 then 1 else 2 * Pow2(n - 1)
  }

  /** The number with the low n bits of r below the bits of u. */
  function Join(u: nat, r: nat, n: nat): nat {
    if n == 0 then u else 2 * Join(u, r / 2, n - 1) + r % 2
  }

  lemma {:induction false} JoinIs(u: nat, r: nat, n: nat)
    requires r < Pow2(n)
    ensures Join(u, r, n) == Pow2(n) * u + r
  {
    if n > 0 {
      JoinIs(u, r / 2, n - 1);
    }
  }

  lemma {:induction false} XorBelow(r: nat, s: nat, n: nat)
    requires r < Pow2(n) && s < Pow2(n)
    ensures Xor(r, s) < Pow2(n)
  {
    hide Xor;
    if n == 0 {
      XorZero(0);
    } else {
      XorBelow(r / 2, s / 2, n - 1);
      XorCons(r / 2, s / 2, r % 2, s % 2);
    }
  }

  lemma JoinCons(u: nat, x: nat, p: nat, n: nat)
    requires p < 2
    ensures Join(u, 2 * x + p, n + 1) == 2 * Join(u, x, n) + p
  {
    assert (2 * x + p) / 2 == x && (2 * x + p) % 2 == p;
  }

  lemma JoinZero(u: nat, r: nat)
    ensures Join(u, r, 0) == u
  {
  }

  /** Xor acts on the high part and on the low n bits separately. */
  lemma {:induction false} XorJoin(u: nat, r: nat, v: nat, s: nat, n: nat)
    ensures Xor(Join(u, r, n), Join(v, s, n)) == Join(Xor(u, v), Xor(r, s), n)
  {
    hide Xor, Join;
    if n == 0 {
      JoinZero(u, r);
      JoinZero(v, s);
      JoinZero(Xor(u, v), Xor(r, s));
    } else {
      var x, y, p, q := r / 2, s / 2, r % 2, s % 2;
      XorJoin(u, x, v, y, n - 1);
      XorCons(x, y, p, q);
      JoinCons(u, x, p, n - 1);
      JoinCons(v, y, q, n - 1);
      JoinCons(Xor(u, v), Xor(x, y), Differ(p, q), n - 1);
      XorCons(Join(u, x, n - 1), Join(v, y, n - 1), p, q);
    }
  }

  lemma XorSplit(u: nat, r: nat, v: nat, s: nat, n: nat)
    requires r < Pow2(n) && s < Pow2(n)
    ensures Xor(Pow2(n) * u + r, Pow2(n) * v + s) == Pow2(n) * Xor(u, v) + Xor(r, s)
    ensures Xor(r, s) < Pow2(n)
  {
    hide Xor;
    XorBelow(r, s, n);
    XorJoin(u, r, v, s, n);
    JoinIs(u, r, n);
    JoinIs(v, s, n);
    JoinIs(Xor(u, v), Xor(r, s), n);
  }

  lemma XorMod32(a: nat, b: nat)
    ensures Xor(a, b) % 32 == Xor(a % 32, b % 32) < 32
  {
    hide Xor;
    assert Pow2(5) == 32;
    XorSplit(a / 32, a % 32, b / 32, b % 32, 5);
    ModShift(Xor(a, b), Xor(a % 32, b % 32), Xor(a / 32, b / 32));
  }

  lemma ModShift(x: nat, y: nat, d: int)
    requires x == 32 * d + y
    ensures x % 32 == y % 32
  {
  }

  /** Xor with a byte changes the low eight bits only, so a word stays a word. */
  lemma XorByteBounds(a: Word, b: Byte)
    ensures Xor(a, b) / 256 == a / 256
    ensures Xor(a, b) < 0x1_0000_0000
  {
    hide Xor;
    assert Pow2(8) == 256;
    XorSplit(a / 256, a % 256, 0, b, 8);
    XorZero(a / 256);
  }

  /** Bit n of a number. */
  function Bit(a: nat, n: nat): nat {
    if n == 0 then a % 2 else Bit(a / 2, n - 1)
  }

  /** A bit of the exclusive or is set exactly when that bit differs. */
  lemma {:induction false} XorBit(a: nat, b: nat, n: nat)
    ensures Bit(Xor(a, b), n) == if Bit(a, n) == Bit(b, n) then 0 else 1
  {
    hide Xor;
    XorHalves(a, b);
    if n > 0 {
      XorBit(a / 2, b / 2, n - 1);
    }
  }

  lemma XorHalves(a: nat, b: nat)
    ensures Xor(a, b) / 2 == Xor(a / 2, b / 2)
    ensures Xor(a, b) % 2 == if a % 2 == b % 2 then 0 else 1
  {
    hide Xor;
    XorCons(a / 2, b / 2, a % 2, b % 2);
  }

  /** The hash in figures: it starts from 2166136261, and each byte multiplies by 16777619 modulo 2^32 and
      is then xored in. */
  lemma HashInFigures(key: Key, b: Byte)
    ensures Hash([]) == 2166136261
    ensures Hash(key + [b]) == Xor((Hash(key) * 16777619) % 4294967296, b)
  {
    hide Xor;
    assert (key + [b])[..|key|] == key;
  }

  // ---- Injectivity -------------------------------------------------------

  lemma WordRemainder(x: int, d: int, h: Word)
    requires x == 0x1_0000_0000 * d + h
    ensures x % 0x1_0000_0000 == h
  {
  }

  /** The prime is odd, hence invertible modulo 2^32. */
  lemma ScaleInvertible(h: Word)
    ensures (Scale(h) * INVERSE) % 0x1_0000_0000 == h
  {
    var q := (h * PRIME) / 0x1_0000_0000;
    assert Scale(h) == h * PRIME - 0x1_0000_0000 * q;
    WordRemainder(Scale(h) * INVERSE, 3513497 * h - q * INVERSE, h);
  }

  lemma MixInjective(g: Word, h: Word, b: Byte)
    ensures Mix(g, b) == Mix(h, b) ==> g == h
  {
    XorCancels(Scale(g), b);
    XorCancels(Scale(h), b);
    ScaleInvertible(g);
    ScaleInvertible(h);
  }

  lemma MixSeparatesBytes(h: Word, a: Byte, b: Byte)
    ensures Mix(h, a) == Mix(h, b) ==> a == b
  {
    XorCommutes(Scale(h), a);
    XorCommutes(Scale(h), b);
    XorCancels(a, Scale(h));
    XorCancels(b, Scale(h));
  }

  lemma {:induction false} CommonSuffix(p: Key, q: Key, s: Key)
    ensures Hash(p + s) == Hash(q + s) <==> Hash(p) == Hash(q)
    decreases |s|
  {
    if s == [] {
      assert p + s == p && q + s == q;
    } else {
      var init, last := s[..|s| - 1], s[|s| - 1];
      assert (p + s)[..|p + s| - 1] == p + init && (q + s)[..|q + s| - 1] == q + init;
      CommonSuffix(p, q, init);
      MixInjective(Hash(p + init), Hash(q + init), last);
    }
  }

  /** Two keys of any length that differ in exactly one byte never collide. */
  lemma OneByteApart(x: Key, y: Key, i: nat)
    requires |x| == |y| && i < |x| && x[i] != y[i]
    requires forall j :: 0 <= j < |x| && j != i ==> x[j] == y[j]
    ensures Hash(x) != Hash(y)
  {
    var p, q, s := x[..i + 1], y[..i + 1], x[i + 1..];
    assert x == p + s && y == q + s;
    assert p[..i] == x[..i] == q[..i];
    MixSeparatesBytes(Hash(p[..i]), x[i], y[i]);
    CommonSuffix(p, q, s);
  }

  // ---- The shard index ---------------------------------------------------

  /** The low five bits evolve on their own: 16777619 is 19 modulo 32. */
  function Fold5(key: Key): nat {
    if key == [] then 5 else Xor((19 * Fold5(key[..|key| - 1])) % 32, key[|key| - 1] % 32)
  }

  lemma ScaleLowBits(h: Word)
    ensures Scale(h) % 32 == (19 * (h % 32)) % 32
  {
    var q, r, k := h / 32, h % 32, (h * PRIME) / 0x1_0000_0000;
    ModShift(Scale(h), 19 * r, q * PRIME + r * 524300 - 134217728 * k);
  }

  lemma MixLowBits(h: Word, b: Byte)
    ensures Mix(h, b) % 32 == Xor((19 * (h % 32)) % 32, b % 32)
  {
    hide Xor, Scale;
    ScaleLowBits(h);
    XorMod32(Scale(h), b);
  }

  lemma {:induction false} ShardIndexIsFiveBit(key: Key)
    ensures Index(key) == Fold5(key)
  {
    if key != [] {
      ShardIndexIsFiveBit(key[..|key| - 1]);
      MixLowBits(Hash(key[..|key| - 1]), key[|key| - 1]);
    }
  }

  lemma {:induction false} IndexIgnoresHighBits(x: Key, y: Key)
    requires |x| == |y|
    requires forall j :: 0 <= j < |x| ==> x[j] % 32 == y[j] % 32
    ensures Index(x) == Index(y)
  {
    if x != [] {
      IndexIgnoresHighBits(x[..|x| - 1], y[..|y| - 1]);
      ShardIndexIsFiveBit(x[..|x| - 1]);
      ShardIndexIsFiveBit(y[..|y| - 1]);
    }
    ShardIndexIsFiveBit(x);
    ShardIndexIsFiveBit(y);
  }

  ghost function Octet(low: nat): set<Byte>
    requires low < 32
  {
    {low, low + 32, low + 64, low + 96, low + 128, low + 160, low + 192, low + 224}
  }

  lemma OctetMembers(low: nat, b: Byte)
    requires low < 32
    ensures b in Octet(low) <==> b % 32 == low
  {
    assert b == 32 * (b / 32) + b % 32;
  }

  lemma OctetSize(low: nat)
    requires low < 32
    ensures |Octet(low)| == 8
  {
  }

  lemma LandsIn(prefix: Key, b: Byte, i: nat)
    requires i < SHARD_COUNT
    ensures Index(prefix + [b]) == i <==> b % 32 == Xor((19 * Index(prefix)) % 32, i)
  {
    hide Mix;
    var scaled := (19 * Index(prefix)) % 32;
    assert (prefix + [b])[..|prefix|] == prefix;
    MixLowBits(Hash(prefix), b);
    XorCommutes(scaled, i);
    XorCommutes(scaled, b % 32);
    XorCancels(i, scaled);
    XorCancels(b % 32, scaled);
  }

  /** The last bytes that send a key with the given prefix to shard i. */
  ghost function LastBytes(prefix: Key, i: nat): set<Byte> {
    set b: Byte | b < 256 && Index(prefix + [b]) == i
  }

  /** After any prefix, exactly 8 of the 256 possible last bytes land in each shard. */
  lemma IndexBalanced(prefix: Key, i: nat)
    requires i < SHARD_COUNT
    ensures |LastBytes(prefix, i)| == 8
  {
    hide Xor, Index, Octet;
    var low := Xor((19 * Index(prefix)) % 32, i);
    XorMod32((19 * Index(prefix)) % 32, i);
    forall b: Byte
      ensures b in Octet(low) <==> b in LastBytes(prefix, i)
    {
      LandsIn(prefix, b, i);
      OctetMembers(low, b);
    }
    assert LastBytes(prefix, i) == Octet(low);
    OctetSize(low);
  }
}
