/** The Ethereum-ABI subset the bridge reads and writes: 32-byte big-endian
    words, addresses padded to a word, token amounts scaled by a power of ten,
    and dynamic byte strings (evmutil.cpp lines 31-69 and the `pack_*`
    lambdas of `deploy_stake_helper_proxy`). */
module Abi {
  import opened Wrappers
  import opened Bytes
  import opened Eosio
  import opened Host
  import opened Errors

  // ---------------------------------------------------------------- reading

  /** `readUint256`: the word at `offset`, if the buffer holds all 32 bytes. */
  function ReadUint256(data: seq<byte>, offset: nat): (r: Result<nat, Error>)
    ensures r.Failure? <==> |data| < offset + 32
    ensures r.Failure? ==> r.error == NotEnoughData
    ensures r.Success? ==> r.value < TwoTo256 && Uint256Word(r.value) == data[offset..offset + 32]
  {
    if |data| < offset + 32 then Failure(NotEnoughData)
    else
      var w := data[offset..offset + 32];
      ValueOfWord(w);
      Success(BE(w))
  }

  /** The word read at `offset` is the big-endian value of its 32 bytes. */
  lemma ReadUint256Value(data: seq<byte>, offset: nat)
    requires |data| >= offset + 32
    ensures ReadUint256(data, offset) == Success(BE(data[offset..offset + 32]))
  {
  }

  /** `readEvmAddress`: the low 20 bytes of the word at `offset`, which must be
      below 2^160, that is, whose 12 leading bytes must be zero. */
  function ReadEvmAddress(data: seq<byte>, offset: nat): (r: Result<Address, Error>)
    ensures |data| < offset + 32 ==> r == Failure(NotEnoughData)
    ensures |data| >= offset + 32 ==>
      (r.Success? <==> forall i :: offset <= i < offset + 12 ==> data[i] == 0)
    ensures r.Failure? ==> r.error in {NotEnoughData, InvalidEvmAddress}
    ensures r.Success? ==> data[offset..offset + 32] == Zeros(12) + r.value
  {
    var value :- ReadUint256(data, offset);
    var high, low := data[offset..offset + 12], data[offset + 12..offset + 32];
    assert data[offset..offset + 32] == high + low;
    ReadUint256Value(data, offset);
    LeadingZeros(high, low);
    BEZero(high);
    Pow256Is2To160();
    if value > TwoTo160 - 1 then Failure(InvalidEvmAddress)
    else
      assert high == Zeros(12);
      Success(low)
  }

  /** `readExSatAccount`: the native account whose reserved address is the
      address at `offset`. */
  function ReadExSatAccount(space: AddressSpace, data: seq<byte>, offset: nat): (r: Result<Name, Error>)
    ensures r.Success? <==> ReadEvmAddress(data, offset).Success? &&
                            space.extractReserved(ReadEvmAddress(data, offset).value).Some?
    ensures r.Success? ==> space.extractReserved(data[offset + 12..offset + 32]) == Some(r.value)
    ensures ReadEvmAddress(data, offset).Failure? ==> r.error == ReadEvmAddress(data, offset).error
    ensures ReadEvmAddress(data, offset).Success? && r.Failure? ==> r.error == NotReservedAddress
  {
    var dest :- ReadEvmAddress(data, offset);
    assert dest == data[offset + 12..offset + 32] by {
      assert data[offset..offset + 32][12..] == data[offset + 12..offset + 32];
    }
    match space.extractReserved(dest)
    case None => Failure(NotReservedAddress)
    case Some(acc) => Success(acc)
  }

  /** Lines 62-68 of `readTokenAmount`: an EVM amount in native units,
      `value / 10^delta`, which must lose no dust, fit below 2^62 - 1 after the
      `(uint64_t)` cast and be positive. */
  function ScaleDown(value: nat, delta: nat): (r: Result<nat, Error>)
    requires delta <= 77
    ensures value % Pow10(delta) != 0 <==> r == Failure(AmountHasDust)
    ensures r.Success? <==> value % Pow10(delta) == 0 && 0 < value / Pow10(delta) < TwoTo62 - 1
    ensures r.Success? ==> 0 < r.value < TwoTo62 - 1 && ToEvmAmount(r.value, delta) == value
  {
    var mult := Pow10(delta);
    if value % mult != 0 then Failure(AmountHasDust)
    else
      var q := value / mult;
      var output := q % TwoTo64;
      if !(output == q && output < TwoTo62 - 1) then Failure(AmountOverflow)
      else if output == 0 then Failure(AmountNotPositive)
      else
        DivExact(value, mult);
        Success(output)
  }

  lemma DivExact(v: nat, m: nat)
    requires m > 0 && v % m == 0
    ensures v / m * m == v
  {
  }

  /** `readTokenAmount`: the word at `offset` in native units. On success the
      amount, scaled back up, is exactly the word that was read. */
  function ReadTokenAmount(data: seq<byte>, offset: nat, delta: nat): (r: Result<nat, Error>)
    requires delta <= 77
    ensures |data| < offset + 32 ==> r == Failure(NotEnoughData)
    ensures |data| >= offset + 32 && BE(data[offset..offset + 32]) % Pow10(delta) != 0 ==>
      r == Failure(AmountHasDust)
    ensures r.Success? ==>
      && 0 < r.value < TwoTo62 - 1
      && ToEvmAmount(r.value, delta) < TwoTo256
      && Uint256Word(ToEvmAmount(r.value, delta)) == data[offset..offset + 32]
  {
    var value :- ReadUint256(data, offset);
    ReadUint256Value(data, offset);
    ScaleDown(value, delta)
  }

  /** The EVM amount of a native amount: scaling up by `10^delta`, which loses
      nothing. */
  function ToEvmAmount(amount: nat, delta: nat): nat {
    amount * Pow10(delta)
  }

  /** The selector as the code reads it: `memcpy` of `data[0..4]` into a
      `uint32_t` on a little-endian machine. This is why the constants in the
      handlers are the ABI selectors with their bytes reversed. */
  function AppType(data: seq<byte>): (t: nat)
    requires |data| >= 4
    ensures t < 0x1_0000_0000
  {
    data[0] as int + 0x100 * data[1] as int + 0x1_0000 * data[2] as int + 0x100_0000 * data[3] as int
  }

  // ---------------------------------------------------------------- writing

  /** A 32-byte big-endian word (`intx::be::store` into a `uint8_t[32]`). */
  function Uint256Word(v: nat): (w: seq<byte>)
    requires v < TwoTo256
    ensures |w| == 32
  {
    ToBE(v, 32)
  }

  /** An address left-padded with 12 zero bytes. */
  function AddressWord(a: Address): (w: seq<byte>)
    ensures |w| == 32
  {
    Zeros(12) + a
  }

  /** A Solidity `bool` argument. */
  function BoolWord(b: bool): (w: seq<byte>)
    ensures |w| == 32
  {
    Uint256Word(if b then 1 else 0)
  }

  /** `n` rounded up to a multiple of 32. */
  function RoundUp32(n: nat): (m: nat)
    ensures m % 32 == 0 && n <= m < n + 32
  {
    (n + 31) / 32 * 32
  }

  /** The ABI encoding of a dynamic `bytes` value: its length as a word, then
      its content zero-padded to a multiple of 32 bytes. The length word holds
      `size % 2^32`, the `(uint32_t)` cast of `pack_string`. */
  function DynamicBytes(s: seq<byte>): (d: seq<byte>)
    ensures |d| == 32 + RoundUp32(|s|)
  {
    Uint256Word(|s| % 0x1_0000_0000) + s + Zeros(RoundUp32(|s|) - |s|)
  }

  /** `pack_uint256`: appends `val` as one word. */
  method PackUint256(ds: seq<byte>, val: nat) returns (out: seq<byte>)
    requires val < TwoTo256
    ensures out == ds + Uint256Word(val)
  {
    var buffer := ToBE(val, 32);
    out := ds + buffer;
  }

  /** `pack_uint32`: fills bytes 28..31 of a zero word by shifting `val`. */
  method PackUint32(ds: seq<byte>, val: nat) returns (out: seq<byte>)
    requires val < 0x1_0000_0000
    ensures out == ds + Uint256Word(val)
  {
    var buffer := Zeros(28) + [val / 0x100_0000 % 0x100, val / 0x1_0000 % 0x100, val / 0x100 % 0x100, val % 0x100];
    Uint32WordIsWord(val);
    out := ds + buffer;
  }

  /** `pack_string`: appends the length word, then the content in 32-byte
      chunks, the last chunk padded with zeros. */
  function Chunk(str: seq<byte>, i: nat): (c: seq<byte>)
    requires i < |str|
    ensures |c| == 32
  {
    var len := if i + 32 > |str| then |str| - i else 32;
    str[i..i + len] + Zeros(32 - len)
  }

  method PackString(ds: seq<byte>, str: seq<byte>) returns (out: seq<byte>)
    ensures out == ds + DynamicBytes(str)
  {
    out := PackUint32(ds, |str| % 0x1_0000_0000);
    ghost var head := out;
    var n := |str|;
    var limit := (n + 31) / 32 * 32;
    ghost var padded := str + Zeros(limit - n);
    var i := 0;
    ghost var chunks := 0;
    while i < limit
      invariant i == 32 * chunks && i <= limit
      invariant out == head + padded[..i]
    {
      NextChunk(str, limit, i, chunks, head, out);
      out := out + Chunk(str, i);
      i, chunks := i + 32, chunks + 1;
    }
    PackStringDone(ds, str, head, out);
  }

  // ---------------------------------------------------------------- lemmas

  /** One step of `pack_string`: the chunk copied at `i` is the next 32 bytes
      of the zero-padded string. */
  lemma NextChunk(str: seq<byte>, limit: nat, i: nat, chunks: nat, head: seq<byte>, out: seq<byte>)
    requires limit == (|str| + 31) / 32 * 32 && i == 32 * chunks && i < limit
    requires out == head + (str + Zeros(limit - |str|))[..i]
    ensures i < |str| && i + 32 <= limit
    ensures out + Chunk(str, i) == head + (str + Zeros(limit - |str|))[..i + 32]
  {
    var len := if i + 32 > |str| then |str| - i else 32;
    var padded := str + Zeros(limit - |str|);
    assert i + 32 <= limit;
    assert i < |str|;
    var chunk := str[i..i + len] + Zeros(32 - len);
    forall k | 0 <= k < 32
      ensures chunk[k] == padded[i + k]
    {
      if k < len {
        assert chunk[k] == str[i + k];
      } else {
        assert chunk[k] == 0;
      }
    }
    assert padded[..i + 32] == padded[..i] + chunk;
  }

  lemma PackStringDone(ds: seq<byte>, str: seq<byte>, head: seq<byte>, out: seq<byte>)
    requires head == ds + Uint256Word(|str| % 0x1_0000_0000)
    requires out == head + (str + Zeros((|str| + 31) / 32 * 32 - |str|))[..(|str| + 31) / 32 * 32]
    ensures out == ds + DynamicBytes(str)
  {
    var padded := str + Zeros((|str| + 31) / 32 * 32 - |str|);
    assert padded[..(|str| + 31) / 32 * 32] == padded;
  }


  /** The shifted bytes of `pack_uint32` are the 32-byte encoding of the value. */
  lemma Uint32WordIsWord(val: nat)
    requires val < 0x1_0000_0000
    ensures Zeros(28) + [val / 0x100_0000 % 0x100, val / 0x1_0000 % 0x100, val / 0x100 % 0x100, val % 0x100]
            == Uint256Word(val)
  {
    var low: seq<byte> := [val / 0x100_0000 % 0x100, val / 0x1_0000 % 0x100, val / 0x100 % 0x100, val % 0x100];
    var w := Zeros(28) + low;
    assert BE(w) == val by {
      Uint32Bytes(val);
      BEAppend(Zeros(28), low);
      BEZero(Zeros(28));
    }
    ValueOfWord(w);
  }

  /** The four bytes `pack_uint32` writes are the big-endian digits of `val`. */
  lemma Uint32Bytes(val: nat)
    requires val < 0x1_0000_0000
    ensures BE([val / 0x100_0000 % 0x100, val / 0x1_0000 % 0x100, val / 0x100 % 0x100, val % 0x100]) == val
  {
    var q1 := val / 0x100;
    var q2 := q1 / 0x100;
    var b0, b1, b2, b3 := q2 / 0x100, q2 % 0x100, q1 % 0x100, val % 0x100;
    assert val == 0x100 * q1 + b3;
    assert q1 == 0x100 * q2 + b2;
    assert q2 == 0x100 * b0 + b1;
    assert b0 == val / 0x100_0000 % 0x100 && b1 == val / 0x1_0000 % 0x100 && b2 == val / 0x100 % 0x100;
    BE4(b0, b1, b2, b3);
  }

  /** Reading a written word returns its value, wherever it sits in a buffer. */
  lemma ReadWordAt(data: seq<byte>, offset: nat, v: nat)
    requires v < TwoTo256 && offset + 32 <= |data| && data[offset..offset + 32] == Uint256Word(v)
    ensures ReadUint256(data, offset) == Success(v)
  {
    WordOfValue(v);
  }

  /** Reading a written address returns the address. */
  lemma ReadAddressAt(data: seq<byte>, offset: nat, a: Address)
    requires offset + 32 <= |data| && data[offset..offset + 32] == AddressWord(a)
    ensures ReadEvmAddress(data, offset) == Success(a)
  {
    assert data[offset..offset + 32][12..] == a;
    assert data[offset + 12..offset + 32] == a;
  }

  /** A native account written as its reserved address is read back as that
      account. */
  lemma ReadAccountAt(space: AddressSpace, data: seq<byte>, offset: nat, account: Name)
    requires Coherent(space)
    requires offset + 32 <= |data| && data[offset..offset + 32] == AddressWord(space.makeReserved(account))
    ensures ReadExSatAccount(space, data, offset) == Success(account)
  {
    ReadAddressAt(data, offset, space.makeReserved(account));
  }

  /** The converse of `ReadAccountAt`: an account read successfully sits in
      its word as its reserved address, zero-padded. */
  lemma AccountWordOf(space: AddressSpace, data: seq<byte>, offset: nat)
    requires Coherent(space) && ReadExSatAccount(space, data, offset).Success?
    ensures data[offset..offset + 32] == AddressWord(space.makeReserved(ReadExSatAccount(space, data, offset).value))
  {
    var low := data[offset + 12..offset + 32];
    assert data[offset..offset + 32][12..] == low;
    assert data[offset..offset + 32] == Zeros(12) + low;
    assert space.makeReserved(space.extractReserved(low).value) == low;
  }

  /** The round trip of the unit conversion: a positive native amount below
      2^62 - 1, scaled up by `10^delta` and written as a word, reads back as
      itself. */
  lemma ReadAmountAt(data: seq<byte>, offset: nat, amount: nat, delta: nat)
    requires delta <= 77
    requires 0 < amount < TwoTo62 - 1 && ToEvmAmount(amount, delta) < TwoTo256
    requires offset + 32 <= |data| && data[offset..offset + 32] == Uint256Word(ToEvmAmount(amount, delta))
    ensures ReadTokenAmount(data, offset, delta) == Success(amount)
  {
    ReadWordAt(data, offset, ToEvmAmount(amount, delta));
    ScaleUpDown(amount, delta);
  }

  /** Scaling a valid native amount up and then down returns it. */
  lemma ScaleUpDown(amount: nat, delta: nat)
    requires delta <= 77
    requires 0 < amount < TwoTo62 - 1
    ensures ScaleDown(ToEvmAmount(amount, delta), delta) == Success(amount)
  {
    var m := Pow10(delta);
    MulDiv(amount, m);
  }

  lemma MulDiv(a: nat, m: nat)
    requires m > 0
    ensures (a * m) % m == 0 && (a * m) / m == a
  {
    var q, r := (a * m) / m, (a * m) % m;
    assert a * m == q * m + r && 0 <= r < m;
    if q < a {
      assert (a - q) * m == r;
      MulAtLeast(a - q, m);
    } else if q > a {
      assert (q - a) * m + r == 0;
      MulAtLeast(q - a, m);
    }
  }

  /** A scaled amount with a non-zero remainder is always refused as dust. */
  lemma DustIsRefused(data: seq<byte>, offset: nat, delta: nat)
    requires delta <= 77 && |data| >= offset + 32
    requires BE(data[offset..offset + 32]) % Pow10(delta) != 0
    ensures ReadTokenAmount(data, offset, delta) == Failure(AmountHasDust)
  {
  }

  /** The layout of a dynamic byte string: the length word reads back as the
      length, the content follows it and only zeros pad it. */
  lemma DynamicBytesLayout(s: seq<byte>)
    requires |s| < 0x1_0000_0000
    ensures ReadUint256(DynamicBytes(s), 0) == Success(|s|)
    ensures DynamicBytes(s)[32..32 + |s|] == s
    ensures forall i :: 32 + |s| <= i < |DynamicBytes(s)| ==> DynamicBytes(s)[i] == 0
    ensures |DynamicBytes(s)| % 32 == 0
  {
    var d, word, pad := DynamicBytes(s), Uint256Word(|s|), Zeros(RoundUp32(|s|) - |s|);
    ModSmall(|s|, 0x1_0000_0000);
    assert d == word + s + pad;
    var m := RoundUp32(|s|);
    assert |d| == 32 * (m / 32 + 1);
    ReadWordAt(d, 0, |s|);
    assert d[32..32 + |s|] == s;
    forall i | 32 + |s| <= i < |d|
      ensures d[i] == 0
    {
      assert d[i] == pad[i - 32 - |s|];
    }
  }
}
