/** Byte strings and their big-endian reading, as `intx::be::load` and
    `intx::be::store` treat a 32-byte buffer. */
module Bytes {

  type byte = x: int | 0 <= x < 256

  /** A 20-byte EVM address (`evmc::address`, `checksum160`). */
  type Address = s: seq<byte> | |s| == 20 witness seq(20, _ => 0)

  const TwoTo62: nat := 0x4000_0000_0000_0000
  const TwoTo64: nat := 0x1_0000_0000_0000_0000
  const TwoTo160: nat := 0x1_0000_0000_0000_0000_0000_0000_0000_0000_0000_0000
  const TwoTo256: nat := 0x1_0000_0000_0000_0000_0000_0000_0000_0000_0000_0000_0000_0000_0000_0000_0000_0000

  function Pow(b: nat, e: nat): nat {
    if e == 0 then 1 else b * Pow(b, e - 1)
  }

  /** `10^e`; never zero, so it can divide. */
  function Pow10(e: nat): (r: nat)
    ensures r >= 1
  {
    if e == 0 then 1 else 10 * Pow10(e - 1)
  }

  /** `n` zero bytes, as `insert(end, n, 0)` or a zero-initialised buffer. */
  function Zeros(n: nat): (z: seq<byte>)
    ensures |z| == n
    ensures forall i :: 0 <= i < n ==> z[i] == 0
  {
    seq(n, _ => 0)
  }

  /** The unsigned integer a byte string denotes, most significant byte first. */
  function BE(s: seq<byte>): nat {
    if s == [] then 0 else BE(s[..|s| - 1]) * 256 + s[|s| - 1]
  }

  /** The `n`-byte big-endian encoding of `v`. */
  function ToBE(v: nat, n: nat): (s: seq<byte>)
    ensures |s| == n
  {
    if n == 0 then [] else ToBE(v / 256, n - 1) + [v % 256]
  }

  lemma {:induction false} PowPositive(b: nat, e: nat)
    requires b > 0
    ensures Pow(b, e) > 0
  {
    if e > 0 {
      PowPositive(b, e - 1);
    }
  }

  lemma {:induction false} PowAdd(b: nat, m: nat, n: nat)
    ensures Pow(b, m + n) == Pow(b, m) * Pow(b, n)
  {
    if n > 0 {
      PowAdd(b, m, n - 1);
      assert Pow(b, m + n) == b * Pow(b, m + n - 1);
      MulSwap(b, Pow(b, m), Pow(b, n - 1));
    }
  }

  lemma MulSwap(b: nat, x: nat, y: nat)
    ensures b * (x * y) == x * (b * y)
  {
  }

  lemma Pow256Is2To160()
    ensures Pow(256, 20) == TwoTo160
  {
    assert Pow(256, 5) == 0x100_0000_0000;
    PowAdd(256, 5, 5);
    PowAdd(256, 10, 10);
  }

  lemma Pow256Is2To256()
    ensures Pow(256, 32) == TwoTo256
  {
    assert Pow(256, 4) == 0x1_0000_0000;
    PowAdd(256, 4, 4);
    assert Pow(256, 8) == TwoTo64;
    PowAdd(256, 8, 8);
    assert Pow(256, 16) == 0x1_0000_0000_0000_0000_0000_0000_0000_0000;
    PowAdd(256, 16, 16);
  }

  /** A 32-byte word decodes to the value it encodes. */
  lemma WordOfValue(v: nat)
    requires v < TwoTo256
    ensures BE(ToBE(v, 32)) == v
  {
    Pow256Is2To256();
    BEOfToBE(v, 32);
  }

  /** Any 32 bytes denote a value below 2^256 whose encoding they are. */
  lemma ValueOfWord(w: seq<byte>)
    requires |w| == 32
    ensures BE(w) < TwoTo256 && ToBE(BE(w), 32) == w
  {
    ToBEOfBE(w);
    Pow256Is2To256();
  }

  /** Reducing a number below the modulus leaves it unchanged. */
  lemma ModSmall(x: nat, m: nat)
    requires x < m
    ensures x % m == x
  {
  }

  /** A byte string of length n denotes a number below 256^n. */
  lemma {:induction false} BEBound(s: seq<byte>)
    ensures BE(s) < Pow(256, |s|)
  {
    if s != [] {
      BEBound(s[..|s| - 1]);
    }
  }

  /** Reading the bytes of `a + b` splits into the high part `a` and the low part `b`. */
  lemma {:induction false} BEAppend(a: seq<byte>, b: seq<byte>)
    ensures BE(a + b) == BE(a) * Pow(256, |b|) + BE(b)
  {
    if b == [] {
      assert a + b == a;
    } else {
      var b' := b[..|b| - 1];
      assert (a + b)[..|a + b| - 1] == a + b';
      BEAppend(a, b');
      var x, p, y, last := BE(a), Pow(256, |b'|), BE(b'), b[|b| - 1];
      assert BE(a + b) == (x * p + y) * 256 + last;
      ShiftByte(x, p, y, last);
      assert BE(b) == y * 256 + last;
    }
  }

  /** The arithmetic step of `BEAppend`: shifting the high part one more byte. */
  lemma ShiftByte(x: nat, p: nat, y: nat, last: nat)
    ensures (x * p + y) * 256 + last == x * (256 * p) + (y * 256 + last)
  {
  }

  /** A byte string denotes zero exactly when all of its bytes are zero. */
  lemma {:induction false} BEZero(s: seq<byte>)
    ensures BE(s) == 0 <==> forall i :: 0 <= i < |s| ==> s[i] == 0
  {
    if s != [] {
      BEZero(s[..|s| - 1]);
    }
  }

  /** Decoding an encoding returns the value. */
  lemma {:induction false} BEOfToBE(v: nat, n: nat)
    requires v < Pow(256, n)
    ensures BE(ToBE(v, n)) == v
  {
    if n > 0 {
      var s := ToBE(v, n);
      DivBelow(v, Pow(256, n - 1));
      assert s[..|s| - 1] == ToBE(v / 256, n - 1);
      BEOfToBE(v / 256, n - 1);
      assert BE(s) == BE(ToBE(v / 256, n - 1)) * 256 + v % 256;
    }
  }

  /** Dropping the last byte of a number below `256 q` leaves one below `q`. */
  lemma DivBelow(v: nat, q: nat)
    requires v < 256 * q
    ensures v / 256 < q
  {
  }

  /** Encoding a decoded byte string returns the byte string. */
  lemma {:induction false} ToBEOfBE(s: seq<byte>)
    ensures BE(s) < Pow(256, |s|)
    ensures ToBE(BE(s), |s|) == s
  {
    BEBound(s);
    if s != [] {
      var init := s[..|s| - 1];
      ToBEOfBE(init);
      assert BE(s) / 256 == BE(init);
      assert s == init + [s[|s| - 1]];
    }
  }

  /** The value of four bytes. */
  lemma BE4(b0: byte, b1: byte, b2: byte, b3: byte)
    ensures BE([b0, b1, b2, b3]) == 0x100_0000 * b0 + 0x1_0000 * b1 + 0x100 * b2 + b3
  {
    assert [b0][..0] == [];
    assert BE([b0]) == b0;
    assert [b0, b1][..1] == [b0];
    assert BE([b0, b1]) == 0x100 * b0 + b1;
    assert [b0, b1, b2][..2] == [b0, b1];
    assert BE([b0, b1, b2]) == 0x1_0000 * b0 + 0x100 * b1 + b2;
    assert [b0, b1, b2, b3][..3] == [b0, b1, b2];
  }

  lemma MulAtLeast(x: nat, p: nat)
    requires x >= 1
    ensures x * p >= p
  {
  }

  /** The leading `|a|` bytes of `a + b` are zero exactly when the whole number
      fits in `|b|` bytes. */
  lemma LeadingZeros(a: seq<byte>, b: seq<byte>)
    ensures BE(a + b) < Pow(256, |b|) <==> forall i :: 0 <= i < |a| ==> a[i] == 0
  {
    BEAppend(a, b);
    BEBound(b);
    BEZero(a);
    HighPartZero(BE(a), Pow(256, |b|), BE(b));
  }

  /** A number below the low part's bound has no high part. */
  lemma HighPartZero(x: nat, p: nat, y: nat)
    requires y < p
    ensures x * p + y < p <==> x == 0
  {
    if x > 0 {
      MulAtLeast(x, p);
    }
  }

  // ---------------------------------------------------------------- prefixes

  /** The bytes `w` that follow `p` at the start of `d` are the slice of `d`
      at `|p|`, and `p` starts `d` too. */
  lemma WordOfPrefix(p: seq<byte>, w: seq<byte>, d: seq<byte>)
    requires p + w <= d
    ensures p <= d && d[|p|..|p| + |w|] == w
  {
    assert d[..|p + w|] == p + w;
    assert d[|p|..|p| + |w|] == (p + w)[|p|..];
    assert d[..|p|] == (p + w)[..|p|];
  }

  /** Adjacent slices join into one. */
  lemma SliceJoin(d: seq<byte>, i: nat, j: nat, k: nat)
    requires i <= j <= k <= |d|
    ensures d[i..k] == d[i..j] + d[j..k]
  {
  }
}
