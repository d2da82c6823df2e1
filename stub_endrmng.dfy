/** The staking-manager stub used to exercise the bridge in tests: one
    `config` singleton holding the proxy, the registered stakers, the
    validator, the stakes and the XSAT-mode flag, and actions that check
    their arguments against it and update the stakes or the validator. */
module StubEndrmng {
  import opened Wrappers
  import opened Bytes
  import opened Eosio

  type Checksum160 = Address

  type Checksum256 = s: seq<byte> | |s| == 32 witness seq(32, _ => 0)

  /** The messages of the stub's failed checks. */
  datatype StubError =
    | ConfigNotExist
    | OnlyNonXsat
    | OnlyXsat
    | XsatSymbolNotCorrect
    | ProxyNotFound
    | StakerNotFound
    | ValidatorNotFound
    | NoEnoughStake
    | DonateRateTooLarge
    | RestakeNotInDesign
    | StakeNotCorrect
    | ValidatorNotCorrect

  /** `symbol("XSAT", 8)` */
  const XsatSymbol: Symbol := Symbol("XSAT", 8)

  // ------------------------------------------------------------- vec_to_hex

  const HexDigits: string := "0123456789abcdef"

  /** The two lower-case hex digits of one byte, high nibble first. */
  function HexByte(b: byte): seq<char> {
    [HexDigits[b / 16], HexDigits[b % 16]]
  }

  function HexPrefix(withPrefix: bool): string {
    if withPrefix then "0x" else ""
  }

  /** The hex digits of a byte string. */
  function HexOf(a: seq<byte>): string
    decreases |a|
  {
    if a == [] then [] else HexOf(a[..|a| - 1]) + HexByte(a[|a| - 1])
  }

  /** `vec_to_hex` as a value. */
  function Hex(a: seq<byte>, withPrefix: bool): string {
    HexPrefix(withPrefix) + HexOf(a)
  }

  /** The digit loop of `vec_to_hex`: writes two digits per byte from
      `start` on, through an advancing position. */
  method FillHex(buf: array<char>, start: nat, bytes: seq<byte>)
    requires buf.Length == start + 2 * |bytes|
    modifies buf
    ensures buf[..start] == old(buf[..start]) && buf[start..] == HexOf(bytes)
  {
    var dest := start;
    var i := 0;
    while i < |bytes|
      invariant 0 <= i <= |bytes| && dest == start + 2 * i
      invariant buf[..start] == old(buf[..start])
      invariant buf[start..dest] == HexOf(bytes[..i])
    {
      var b := bytes[i];
      buf[dest] := HexDigits[b / 16];
      buf[dest + 1] := HexDigits[b % 16];
      assert buf[start..dest + 2] == buf[start..dest] + HexByte(b);
      HexOfPrefix(bytes, i);
      dest := dest + 2;
      i := i + 1;
    }
    assert bytes[..i] == bytes;
  }

  /** `vec_to_hex`: a buffer of the final length holding the optional `0x`
      prefix and then the digits. */
  method VecToHex(bytes: Checksum256, withPrefix: bool) returns (out: string)
    ensures out == Hex(bytes, withPrefix)
  {
    var buf := new char[|bytes| * 2 + (if withPrefix then 2 else 0)](_ => '\0');
    var start := 0;
    if withPrefix {
      buf[0] := '0';
      buf[1] := 'x';
      start := 2;
    }
    assert buf[..start] == HexPrefix(withPrefix);
    FillHex(buf, start, bytes);
    assert buf[..] == buf[..start] + buf[start..];
    out := buf[..];
  }

  /** One more byte of input appends its two digits. */
  lemma HexOfPrefix(a: seq<byte>, i: nat)
    requires i < |a|
    ensures HexOf(a[..i + 1]) == HexOf(a[..i]) + HexByte(a[i])
  {
    assert a[..i + 1][..i] == a[..i];
  }

  /** Two characters per byte. */
  lemma {:induction false} HexOfLength(a: seq<byte>)
    ensures |HexOf(a)| == 2 * |a| && |HexOf(a)| % 2 == 0
    decreases |a|
  {
    if a != [] {
      HexOfLength(a[..|a| - 1]);
    }
  }

  /** A 32-byte hash gives 64 digits, 66 characters with the prefix. */
  lemma HexLength(a: Checksum256, withPrefix: bool)
    ensures |Hex(a, withPrefix)| == if withPrefix then 66 else 64
  {
    HexOfLength(a);
  }

  /** Byte `i` becomes characters `2i` (its high nibble) and `2i + 1` (its low
      nibble) after the prefix. */
  lemma {:induction false} HexPlacement(a: seq<byte>, i: nat)
    requires i < |a|
    ensures |HexOf(a)| == 2 * |a|
    ensures HexOf(a)[2 * i] == HexDigits[a[i] / 16] && HexOf(a)[2 * i + 1] == HexDigits[a[i] % 16]
    decreases |a|
  {
    HexOfLength(a);
    var init := a[..|a| - 1];
    HexOfLength(init);
    if i < |a| - 1 {
      HexPlacement(init, i);
    }
  }

  /** The value of one lower-case hex digit. */
  function DigitValue(c: char): nat {
    if '0' <= c <= '9' then (c - '0') as nat
    else if 'a' <= c <= 'f' then (c - 'a') as nat + 10
    else 0
  }

  lemma DigitValueOfDigit(n: nat)
    requires n < 16
    ensures DigitValue(HexDigits[n]) == n
  {
  }

  /** The byte a pair of digits stands for. */
  function PairValue(hi: char, lo: char): byte {
    var v := DigitValue(hi) * 16 + DigitValue(lo);
    if v < 256 then v else 0
  }

  /** Reads pairs of hex digits back into bytes. */
  function HexDecode(s: string): (a: seq<byte>)
    requires |s| % 2 == 0
    ensures |a| == |s| / 2
    decreases |s|
  {
    if s == [] then []
    else
      var n := |s|;
      HexDecode(s[..n - 2]) + [PairValue(s[n - 2], s[n - 1])]
  }

  lemma PairOfByte(b: byte)
    ensures PairValue(HexDigits[b / 16], HexDigits[b % 16]) == b
  {
    DigitValueOfDigit(b / 16);
    DigitValueOfDigit(b % 16);
  }

  lemma DecodeSnoc(t: string, hi: char, lo: char)
    requires |t| % 2 == 0
    ensures HexDecode(t + [hi, lo]) == HexDecode(t) + [PairValue(hi, lo)]
  {
    var s := t + [hi, lo];
    assert s[..|s| - 2] == t;
  }

  lemma LastSplit(a: seq<byte>)
    requires a != []
    ensures a[..|a| - 1] + [a[|a| - 1]] == a
  {
  }

  /** The digits determine the bytes: decoding them gives the bytes back. */
  lemma {:induction false} HexRoundTrip(a: seq<byte>)
    ensures |HexOf(a)| % 2 == 0 && HexDecode(HexOf(a)) == a
    decreases |a|
  {
    HexOfLength(a);
    if a != [] {
      var init, b := a[..|a| - 1], a[|a| - 1];
      var t, hi, lo := HexOf(init), HexDigits[b / 16], HexDigits[b % 16];
      HexOfLength(init);
      HexRoundTrip(init);
      assert HexOf(a) == t + [hi, lo];
      DecodeSnoc(t, hi, lo);
      PairOfByte(b);
      LastSplit(a);
    }
  }

  // ----------------------------------------------------------- stake arithmetic

  /** `stakes[staker] += quantity.amount`: the signed amount is converted to
      `uint64_t` and the sum wraps modulo 2^64. */
  function Credit(stake: Uint64, amount: Int64): (r: Uint64)
    ensures 0 <= stake + amount < TwoTo64 ==> r == stake + amount
    ensures (r - stake - amount) % TwoTo64 == 0
  {
    (stake + amount) % TwoTo64
  }

  /** The `no enough stake` check and `stakes[staker] -= quantity.amount`:
      the comparison and the subtraction are done on the amount converted to
      `uint64_t`, so a negative amount is compared as a huge one. */
  function Debit(stake: Uint64, amount: Int64): (r: Option<Uint64>)
    ensures amount >= 0 ==> (r.Some? <==> amount <= stake)
    ensures amount >= 0 && r.Some? ==> r.value + amount == stake
    ensures amount < 0 ==> (r.Some? <==> amount + TwoTo64 <= stake)
  {
    var a := amount % TwoTo64;
    if stake >= a then Some(stake - a) else None
  }

  /** Crediting back what was debited restores the stake, for every amount. */
  lemma DebitThenCredit(stake: Uint64, amount: Int64)
    requires Debit(stake, amount).Some?
    ensures Credit(Debit(stake, amount).value, amount) == stake
  {
    var a := amount % TwoTo64;
    if amount < 0 {
      assert a == amount + TwoTo64;
      assert Debit(stake, amount).value + amount == stake - TwoTo64;
    }
  }

  /** A credit that does not wrap is undone by the matching debit. */
  lemma CreditThenDebit(stake: Uint64, amount: Int64)
    requires 0 <= amount && stake + amount < TwoTo64
    ensures Debit(Credit(stake, amount), amount) == Some(stake)
  {
  }

  /** No element occurs twice. */
  predicate NoDuplicates(s: seq<Checksum160>) {
    forall i, j :: 0 <= i < j < |s| ==> s[i] != s[j]
  }

  // ------------------------------------------------------------------ contract

  class StubLedger {
    /** Whether the `config` singleton exists. */
    var present: bool
    var proxy: Checksum160
    var stakers: seq<Checksum160>
    var validator: Name
    var stakes: map<Checksum160, Uint64>
    var testXsat: bool

    /** The stakers list and the keys of the stakes map name the same
        stakers, each once. */
    ghost predicate Valid()
      reads this
    {
      NoDuplicates(stakers) && forall s :: s in stakers <==> s in stakes
    }

    constructor()
      ensures Valid() && !present && stakers == [] && stakes == map[]
    {
      present := false;
      proxy := seq(20, _ => 0);
      stakers := [];
      validator := 0;
      stakes := map[];
      testXsat := false;
    }

    /** `config.stakes[staker]` read through `operator[]`: 0 for a staker
        without an entry. */
    function StakeOf(staker: Checksum160): (stake: Uint64)
      reads this
      ensures staker in stakes ==> stake == stakes[staker]
      ensures staker !in stakes ==> stake == 0
    {
      if staker in stakes then stakes[staker] else 0
    }

    /** The checks every staking action makes, in their order: the config
        exists, the XSAT mode (when `mode` names one) matches, the symbol (when
        given) is XSAT with 8 decimals, and the proxy, staker and validator
        are the configured ones. */
    function Guard(mode: Option<bool>, symbol: Option<Symbol>, proxy: Checksum160, staker: Checksum160, validator: Name)
      : (r: Outcome<StubError>)
      reads this
      ensures r.Pass? <==>
        && present
        && (mode.Some? ==> testXsat == mode.value)
        && (symbol.Some? ==> symbol.value == XsatSymbol)
        && proxy == this.proxy && staker in stakers && validator == this.validator
      ensures !present ==> r == Fail(ConfigNotExist)
      ensures present && mode.Some? && testXsat != mode.value ==> r == Fail(if mode.value then OnlyXsat else OnlyNonXsat)
    {
      if !present then Fail(ConfigNotExist)
      else if mode.Some? && testXsat != mode.value then Fail(if mode.value then OnlyXsat else OnlyNonXsat)
      else if symbol.Some? && symbol.value != XsatSymbol then Fail(XsatSymbolNotCorrect)
      else if proxy != this.proxy then Fail(ProxyNotFound)
      else if staker !in stakers then Fail(StakerNotFound)
      else if validator != this.validator then Fail(ValidatorNotFound)
      else Pass
    }

    /** `stakerExists`: a linear search of the stakers list. */
    method StakerExists(staker: Checksum160) returns (r: Result<bool, StubError>)
      ensures !present ==> r == Failure(ConfigNotExist)
      ensures present ==> r == Success(staker in stakers)
    {
      if !present {
        return Failure(ConfigNotExist);
      }
      var i := 0;
      while i < |stakers| && stakers[i] != staker
        invariant 0 <= i <= |stakers|
        invariant forall j :: 0 <= j < i ==> stakers[j] != staker
      {
        i := i + 1;
      }
      r := Success(i < |stakers|);
    }

    /** The shared checks, made the way the actions make them. */
    method Check(mode: Option<bool>, symbol: Option<Symbol>, proxy: Checksum160, staker: Checksum160, validator: Name)
      returns (r: Outcome<StubError>)
      ensures r == Guard(mode, symbol, proxy, staker, validator)
    {
      if !present {
        return Fail(ConfigNotExist);
      }
      if mode.Some? && testXsat != mode.value {
        return Fail(if mode.value then OnlyXsat else OnlyNonXsat);
      }
      if symbol.Some? && symbol.value != XsatSymbol {
        return Fail(XsatSymbolNotCorrect);
      }
      if proxy != this.proxy {
        return Fail(ProxyNotFound);
      }
      var found := StakerExists(staker);
      if !(found.Success? && found.value) {
        return Fail(StakerNotFound);
      }
      if validator != this.validator {
        return Fail(ValidatorNotFound);
      }
      r := Pass;
    }

    /** `evmstake` (`xsat` false, non-XSAT mode) and `evmstakexsat` (`xsat`
        true, XSAT mode and symbol): adds the amount to the staker's stake. */
    method Stake(xsat: bool, proxy: Checksum160, staker: Checksum160, validator: Name, quantity: Asset)
      returns (r: Outcome<StubError>)
      requires Valid()
      modifies this
      ensures Valid()
      ensures r.Fail? ==> r == old(Guard(Some(xsat), if xsat then Some(quantity.symbol) else None, proxy, staker, validator))
      ensures r.Fail? ==> unchanged(this)
      ensures r.Pass? <==> old(Guard(Some(xsat), if xsat then Some(quantity.symbol) else None, proxy, staker, validator)).Pass?
      ensures r.Pass? ==>
        && stakes == old(stakes)[staker := Credit(old(StakeOf(staker)), quantity.amount)]
        && present && this.proxy == old(this.proxy) && stakers == old(stakers) && this.validator == old(this.validator)
        && testXsat == old(testXsat)
    {
      r := Check(Some(xsat), if xsat then Some(quantity.symbol) else None, proxy, staker, validator);
      if r.Fail? {
        return;
      }
      stakes := stakes[staker := Credit(StakeOf(staker), quantity.amount)];
    }

    /** `evmunstake` and `evmunstkxsat`: subtracts the amount from the
        staker's stake, refusing when the stake is smaller. */
    method Unstake(xsat: bool, proxy: Checksum160, staker: Checksum160, validator: Name, quantity: Asset)
      returns (r: Outcome<StubError>)
      requires Valid()
      modifies this
      ensures Valid()
      ensures var g := old(Guard(Some(xsat), if xsat then Some(quantity.symbol) else None, proxy, staker, validator));
        && (g.Fail? ==> r == g)
        && (g.Pass? && old(Debit(StakeOf(staker), quantity.amount)).None? ==> r == Fail(NoEnoughStake))
        && (r.Pass? <==> g.Pass? && old(Debit(StakeOf(staker), quantity.amount)).Some?)
      ensures r.Fail? ==> unchanged(this)
      ensures r.Pass? ==>
        && stakes == old(stakes)[staker := old(Debit(StakeOf(staker), quantity.amount)).value]
        && present && this.proxy == old(this.proxy) && stakers == old(stakers) && this.validator == old(this.validator)
        && testXsat == old(testXsat)
    {
      r := Check(Some(xsat), if xsat then Some(quantity.symbol) else None, proxy, staker, validator);
      if r.Fail? {
        return;
      }
      var remaining := Debit(StakeOf(staker), quantity.amount);
      if remaining.None? {
        return Fail(NoEnoughStake);
      }
      stakes := stakes[staker := remaining.value];
    }

    /** `evmnewstake`: moves the stake to a new validator, which here only
        replaces the configured validator. */
    method NewStake(proxy: Checksum160, staker: Checksum160, validator: Name, newValidator: Name, quantity: Asset)
      returns (r: Outcome<StubError>)
      requires Valid()
      modifies this
      ensures Valid()
      ensures r == old(Guard(Some(false), None, proxy, staker, validator))
      ensures r.Fail? ==> unchanged(this)
      ensures r.Pass? ==>
        && this.validator == newValidator
        && present && this.proxy == old(this.proxy) && stakers == old(stakers) && stakes == old(stakes)
        && testXsat == old(testXsat)
    {
      r := Check(Some(false), None, proxy, staker, validator);
      if r.Fail? {
        return;
      }
      this.validator := newValidator;
    }

    /** `evmrestkxsat`: reads the config, then always refuses. */
    method RestakeXsat(proxy: Checksum160, staker: Checksum160, validator: Name, newValidator: Name, quantity: Asset)
      returns (r: Outcome<StubError>)
      ensures r.Fail?
      ensures r.error == if present then RestakeNotInDesign else ConfigNotExist
    {
      if !present {
        return Fail(ConfigNotExist);
      }
      r := Fail(RestakeNotInDesign);
    }

    /** `evmclaim`: the shared checks in either mode; nothing changes. */
    method Claim(proxy: Checksum160, staker: Checksum160, validator: Name) returns (r: Outcome<StubError>)
      ensures r == Guard(None, None, proxy, staker, validator)
    {
      r := Check(None, None, proxy, staker, validator);
    }

    /** `evmclaim2`: as `evmclaim`, and the donate rate is at most 100.00%. */
    method Claim2(proxy: Checksum160, staker: Checksum160, validator: Name, donateRate: Uint16)
      returns (r: Outcome<StubError>)
      ensures Guard(None, None, proxy, staker, validator).Fail? ==> r == Guard(None, None, proxy, staker, validator)
      ensures r.Pass? <==> Guard(None, None, proxy, staker, validator).Pass? && donateRate <= 10000
      ensures r.Fail? && Guard(None, None, proxy, staker, validator).Pass? ==> r == Fail(DonateRateTooLarge)
    {
      r := Check(None, None, proxy, staker, validator);
      if r.Fail? {
        return;
      }
      if donateRate > 10000 {
        return Fail(DonateRateTooLarge);
      }
    }

    /** `reset`: replaces the config with one holding the given proxy,
        validator and mode and the single staker with a zero stake. */
    method Reset(proxy: Checksum160, staker: Checksum160, validator: Name, testXsat: bool)
      modifies this
      ensures Valid()
      ensures present && this.proxy == proxy && this.validator == validator && this.testXsat == testXsat
      ensures stakers == [staker] && stakes == map[staker := 0]
    {
      var initial: map<Checksum160, Uint64> := map[];
      var list: seq<Checksum160> := [];
      if staker !in initial {
        list := list + [staker];
      }
      initial := initial[staker := 0];
      present, this.proxy, this.validator, stakers, stakes, this.testXsat := true, proxy, validator, list, initial, testXsat;
    }

    /** `addstaker`: registers a staker with a zero stake, unless already
        registered, in which case nothing changes; calling it twice is the
        same as calling it once. */
    method AddStaker(staker: Checksum160) returns (r: Outcome<StubError>)
      requires Valid()
      modifies this
      ensures Valid()
      ensures r.Fail? <==> !old(present)
      ensures r.Fail? ==> r == Fail(ConfigNotExist) && unchanged(this)
      ensures old(staker in stakes) ==> unchanged(this)
      ensures r.Pass? && old(staker !in stakes) ==> stakers == old(stakers) + [staker] && stakes == old(stakes)[staker := 0]
      ensures r.Pass? ==> staker in stakers && staker in stakes
      ensures present == old(present) && proxy == old(proxy) && validator == old(validator) && testXsat == old(testXsat)
    {
      if !present {
        return Fail(ConfigNotExist);
      }
      if staker !in stakes {
        stakes := stakes[staker := 0];
        stakers := stakers + [staker];
      }
      r := Pass;
    }

    /** `assertstake`: the staker's stake, 0 when it has no entry, is the
        given one. The entry `operator[]` would create belongs to a local copy
        that is never written back. */
    method AssertStake(stake: Uint64, staker: Checksum160) returns (r: Outcome<StubError>)
      ensures !present ==> r == Fail(ConfigNotExist)
      ensures r.Pass? <==> present && stake == StakeOf(staker)
      ensures present && stake != StakeOf(staker) ==> r == Fail(StakeNotCorrect)
    {
      if !present {
        return Fail(ConfigNotExist);
      }
      var local := stakes;
      if staker !in local {
        local := local[staker := 0];
      }
      if stake != local[staker] {
        return Fail(StakeNotCorrect);
      }
      r := Pass;
    }

    /** `assertval`: the configured validator is the given one. */
    method AssertVal(validator: Name) returns (r: Outcome<StubError>)
      ensures !present ==> r == Fail(ConfigNotExist)
      ensures r.Pass? <==> present && validator == this.validator
      ensures present && validator != this.validator ==> r == Fail(ValidatorNotCorrect)
    {
      if !present {
        return Fail(ConfigNotExist);
      }
      if validator != this.validator {
        return Fail(ValidatorNotCorrect);
      }
      r := Pass;
    }
  }
}
