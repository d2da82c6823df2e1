/** The call data the native side sends to EVM contracts: the constructor
    call of a stake-helper proxy (`deploy_stake_helper_proxy`) and the
    `setFee`, `setLockTime` and `upgradeToAndCall` calls on a deployed proxy.
    Each is specified by a function giving its bytes and built, as the code
    builds it, by a method appending to a buffer; the lemmas read every
    field back with the bridge's own word readers. */
module CallData {
  import opened Wrappers
  import opened Bytes
  import opened Eosio
  import opened Errors
  import opened Abi

  /** `initialize(address,address,address,uint256,bool,bool)` */
  const InitializeSelector: seq<byte> := [0x1d, 0x1e, 0x7e, 0x92]
  /** `setFee(uint256)` */
  const SetFeeSelector: seq<byte> := [0x69, 0xfe, 0x0e, 0x2d]
  /** `setLockTime(uint256)` */
  const SetLockTimeSelector: seq<byte> := [0xae, 0x04, 0xd4, 0x5d]
  /** `upgradeToAndCall(address,bytes)` */
  const UpgradeSelector: seq<byte> := [0x4f, 0x1e, 0xf2, 0x86]

  // ------------------------------------------------------------ fee words

  /** `get_minimum_natively_representable`: one native unit of the gas token
      in EVM units, `10^(evm_precision - p)` as a 256-bit number. When `p`
      exceeds the EVM precision the exponent wraps to at least 256, and a
      power of ten that large is 0 modulo 2^256. */
  function MinimumNative(evmPrecision: nat, p: nat): (m: nat)
    ensures m < TwoTo256
  {
    if p <= evmPrecision then Pow10(evmPrecision - p) % TwoTo256 else 0
  }

  /** A fee in EVM units: the `int64` amount converted to `uint256` (which
      wraps it as a `uint64`), times `mult`, modulo 2^256. */
  function FeeWord(amount: Int64, mult: nat): (w: nat)
    ensures w < TwoTo256
  {
    (amount % TwoTo64) * mult % TwoTo256
  }

  /** A non-negative fee that fits is scaled exactly: the fee word is the
      amount in EVM units. */
  lemma FeeExact(amount: Int64, evmPrecision: nat, p: nat)
    requires 0 <= amount && p <= evmPrecision
    requires amount * Pow10(evmPrecision - p) < TwoTo256
    ensures FeeWord(amount, MinimumNative(evmPrecision, p)) == ToEvmAmount(amount, evmPrecision - p)
  {
    var m := Pow10(evmPrecision - p);
    ModSmall(amount, TwoTo64);
    if amount == 0 {
      assert FeeWord(amount, MinimumNative(evmPrecision, p)) == 0;
    } else {
      MulAtLeast(amount, m);
      ModSmall(m, TwoTo256);
      ModSmall(amount * m, TwoTo256);
    }
  }

  /** The fee word of a valid bridge amount is read back by the bridge as
      the same native amount. */
  lemma FeeRoundTrip(amount: Int64, evmPrecision: nat, p: nat)
    requires 0 < amount < TwoTo62 - 1 && p <= evmPrecision && evmPrecision - p <= 77
    requires amount * Pow10(evmPrecision - p) < TwoTo256
    ensures ScaleDown(FeeWord(amount, MinimumNative(evmPrecision, p)), evmPrecision - p) == Success(amount as nat)
  {
    FeeExact(amount, evmPrecision, p);
    ScaleUpDown(amount, evmPrecision - p);
  }

  /** A negative fee is not refused: it wraps to `2^64 + amount` native
      units before scaling. */
  lemma NegativeFeeWraps(amount: Int64, mult: nat)
    requires amount < 0
    ensures FeeWord(amount, mult) == (TwoTo64 + amount) * mult % TwoTo256
  {
    assert amount % TwoTo64 == TwoTo64 + amount;
  }

  // ------------------------------------------------- proxy constructor call

  /** The argument of the proxy constructor: `initialize(owner, evm, erc20,
      fee, notBTC, isValidatorDeposits)`. */
  function ProxyInitData(owner: Address, evm: Address, erc20: Address, fee: nat, notBtc: bool, isValidator: bool): (d: seq<byte>)
    requires fee < TwoTo256
    ensures |d| == 196
  {
    InitializeSelector + AddressWord(owner) + AddressWord(evm) + AddressWord(erc20)
      + Uint256Word(fee) + BoolWord(notBtc) + BoolWord(isValidator)
  }

  /** The deployment call data: the proxy bytecode followed by the
      constructor arguments `(address impl, bytes init)`, the bytes argument
      at offset 64. */
  function ProxyCallData(code: seq<byte>, impl: Address, init: seq<byte>): (d: seq<byte>)
    ensures |d| == |code| + 64 + 32 + RoundUp32(|init|)
  {
    code + AddressWord(impl) + Uint256Word(64) + DynamicBytes(init)
  }

  /** `constructor_data`, built by appending to a buffer. */
  method BuildProxyInitData(owner: Address, evm: Address, erc20: Address, fee: nat, notBtc: bool, isValidator: bool)
    returns (data: seq<byte>)
    requires fee < TwoTo256
    ensures data == ProxyInitData(owner, evm, erc20, fee, notBtc, isValidator)
  {
    data := InitializeSelector;
    data := data + Zeros(12) + owner;
    data := data + Zeros(12) + evm;
    data := data + Zeros(12) + erc20;
    data := PackUint256(data, fee);
    data := PackUint256(data, if notBtc then 1 else 0);
    data := PackUint256(data, if isValidator then 1 else 0);
  }

  /** `call_data` of the deployment, built by appending to the bytecode. */
  method BuildProxyCallData(code: seq<byte>, impl: Address, init: seq<byte>) returns (callData: seq<byte>)
    ensures callData == ProxyCallData(code, impl, init)
  {
    callData := code;
    callData := callData + Zeros(12) + impl;
    callData := PackUint32(callData, 64);
    callData := PackString(callData, init);
  }

  /** The 196 bytes of constructor data sit behind the offset and length
      words and are padded with 28 zeros to 224 bytes. */
  lemma ProxyCallDataLayout(code: seq<byte>, impl: Address, init: seq<byte>)
    requires |init| == 196
    ensures ProxyCallData(code, impl, init) == code + Zeros(12) + impl + Uint256Word(64) + Uint256Word(196) + init + Zeros(28)
  {
    ModSmall(196, 0x1_0000_0000);
    assert RoundUp32(196) == 224;
    assert DynamicBytes(init) == Uint256Word(196) + init + Zeros(28);
  }

  /** An ABI decoder reading the deployment arguments behind the bytecode
      finds the implementation address, the offset 64 of the bytes argument,
      its length and its content. */
  lemma ProxyCallDataDecodes(code: seq<byte>, impl: Address, init: seq<byte>)
    requires |init| < 0x1_0000_0000
    ensures var d, n := ProxyCallData(code, impl, init), |code|;
            && d[..n] == code
            && ReadEvmAddress(d, n) == Success(impl)
            && ReadUint256(d, n + 32) == Success(64)
            && ReadUint256(d, n + 32 + 64 - 32) == Success(|init|)
            && d[n + 96..n + 96 + |init|] == init
            && (forall i :: n + 96 + |init| <= i < |d| ==> d[i] == 0)
  {
    var d, n := ProxyCallData(code, impl, init), |code|;
    var a, w, tail := AddressWord(impl), Uint256Word(64), DynamicBytes(init);
    WordOfPrefix(code + a, w, d);
    WordOfPrefix(code, a, d);
    assert d[n + 64..] == tail;
    ReadAddressAt(d, n, impl);
    ReadWordAt(d, n + 32, 64);
    DynamicBytesLayout(init);
    TailRead(d, n + 64, tail);
    assert d[n + 96..n + 96 + |init|] == tail[32..32 + |init|];
  }

  /** Reading within a suffix of a buffer reads the suffix. */
  lemma TailRead(d: seq<byte>, k: nat, tail: seq<byte>)
    requires k <= |d| && d[k..] == tail && 32 <= |tail|
    requires ReadUint256(tail, 0).Success?
    ensures ReadUint256(d, k) == ReadUint256(tail, 0)
    ensures |d| == k + |tail| && forall i :: 0 <= i < |tail| ==> d[k + i] == tail[i]
  {
    assert d[k..k + 32] == tail[..32];
  }

  /** The constructor data read back field by field. */
  lemma ProxyInitDecodes(owner: Address, evm: Address, erc20: Address, fee: nat, notBtc: bool, isValidator: bool)
    requires fee < TwoTo256
    ensures var d := ProxyInitData(owner, evm, erc20, fee, notBtc, isValidator);
            && d[..4] == InitializeSelector
            && ReadEvmAddress(d, 4) == Success(owner)
            && ReadEvmAddress(d, 36) == Success(evm)
            && ReadEvmAddress(d, 68) == Success(erc20)
            && ReadUint256(d, 100) == Success(fee)
            && ReadUint256(d, 132) == Success(if notBtc then 1 else 0)
            && ReadUint256(d, 164) == Success(if isValidator then 1 else 0)
  {
    var d := ProxyInitData(owner, evm, erc20, fee, notBtc, isValidator);
    var w1, w2, w3 := AddressWord(owner), AddressWord(evm), AddressWord(erc20);
    var w4, w5, w6 := Uint256Word(fee), BoolWord(notBtc), BoolWord(isValidator);
    var p := InitializeSelector;
    WordOfPrefix(p + w1 + w2 + w3 + w4 + w5, w6, d);
    WordOfPrefix(p + w1 + w2 + w3 + w4, w5, d);
    WordOfPrefix(p + w1 + w2 + w3, w4, d);
    WordOfPrefix(p + w1 + w2, w3, d);
    WordOfPrefix(p + w1, w2, d);
    WordOfPrefix(p, w1, d);
    ReadAddressAt(d, 4, owner);
    ReadAddressAt(d, 36, evm);
    ReadAddressAt(d, 68, erc20);
    ReadWordAt(d, 100, fee);
    ReadWordAt(d, 132, if notBtc then 1 else 0);
    ReadWordAt(d, 164, if isValidator then 1 else 0);
  }

  // ------------------------------------------------------ calls on a proxy

  /** `setFee(fee)` */
  function SetFeeData(fee: nat): (d: seq<byte>)
    requires fee < TwoTo256
    ensures |d| == 36
  {
    SetFeeSelector + Uint256Word(fee)
  }

  /** `setLockTime(locktime)` */
  function SetLockTimeData(locktime: Uint64): (d: seq<byte>)
    ensures |d| == 36
  {
    SetLockTimeSelector + Uint256Word(locktime)
  }

  /** `upgradeToAndCall(impl, "")`: the bytes argument at offset 64 is empty. */
  function UpgradeData(impl: Address): (d: seq<byte>)
    ensures |d| == 100
  {
    UpgradeSelector + AddressWord(impl) + Uint256Word(64) + Uint256Word(0)
  }

  method BuildSetFeeData(fee: nat) returns (data: seq<byte>)
    requires fee < TwoTo256
    ensures data == SetFeeData(fee)
  {
    data := SetFeeSelector;
    data := PackUint256(data, fee);
  }

  method BuildSetLockTimeData(locktime: Uint64) returns (data: seq<byte>)
    ensures data == SetLockTimeData(locktime)
  {
    data := SetLockTimeSelector;
    data := PackUint256(data, locktime);
  }

  method BuildUpgradeData(impl: Address) returns (data: seq<byte>)
    ensures data == UpgradeData(impl)
  {
    data := UpgradeSelector;
    data := data + Zeros(12) + impl;
    data := PackUint32(data, 64);
    data := PackUint32(data, 0);
  }

  /** The argument of `setFee` and `setLockTime` is the word after the
      selector. */
  lemma SetterDecodes(fee: nat, locktime: Uint64)
    requires fee < TwoTo256
    ensures SetFeeData(fee)[..4] == SetFeeSelector && ReadUint256(SetFeeData(fee), 4) == Success(fee)
    ensures SetLockTimeData(locktime)[..4] == SetLockTimeSelector
    ensures ReadUint256(SetLockTimeData(locktime), 4) == Success(locktime as nat)
  {
    assert SetFeeData(fee)[4..36] == Uint256Word(fee);
    ReadWordAt(SetFeeData(fee), 4, fee);
    assert SetLockTimeData(locktime)[4..36] == Uint256Word(locktime);
    ReadWordAt(SetLockTimeData(locktime), 4, locktime);
  }

  /** `upgradeToAndCall` decodes to the implementation address and an empty
      bytes argument: the offset word points at a zero length word. */
  lemma UpgradeDecodes(impl: Address)
    ensures var d := UpgradeData(impl);
            && d[..4] == UpgradeSelector
            && ReadEvmAddress(d, 4) == Success(impl)
            && ReadUint256(d, 36) == Success(64)
            && ReadUint256(d, 4 + 64) == Success(0)
            && |d| == 4 + 64 + 32
  {
    var d := UpgradeData(impl);
    assert d[4..36] == AddressWord(impl);
    ReadAddressAt(d, 4, impl);
    TwoWords(UpgradeSelector + AddressWord(impl), 64, 0);
  }

  /** Two words appended to a buffer read back at their offsets. */
  lemma TwoWords(head: seq<byte>, a: nat, b: nat)
    requires a < TwoTo256 && b < TwoTo256
    ensures ReadUint256(head + Uint256Word(a) + Uint256Word(b), |head|) == Success(a)
    ensures ReadUint256(head + Uint256Word(a) + Uint256Word(b), |head| + 32) == Success(b)
  {
    var d := head + Uint256Word(a) + Uint256Word(b);
    assert d[|head|..|head| + 32] == Uint256Word(a);
    assert d[|head| + 32..|head| + 64] == Uint256Word(b);
    ReadWordAt(d, |head|, a);
    ReadWordAt(d, |head| + 32, b);
  }
}
