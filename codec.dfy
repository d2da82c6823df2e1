/** The messages the EVM-side helpers send, written the way the bridge reads
    them: a four-byte selector followed by ABI words. Decoding an encoded
    message gives back the call it encodes, which is the round trip the
    handlers and the router of evmutil.cpp complete. */
module MessageCodec {
  import opened Wrappers
  import opened Bytes
  import opened Eosio
  import opened Host
  import opened Errors
  import opened Abi
  import opened EvmutilTypes
  import opened Bridge

  // --------------------------------------------------------------- selectors

  /** The four message bytes whose `AppType` is `t`. */
  function SelectorBytes(t: nat): (s: seq<byte>)
    requires t < 0x1_0000_0000
    ensures |s| == 4
  {
    [t % 0x100, t / 0x100 % 0x100, t / 0x1_0000 % 0x100, t / 0x100_0000]
  }

  /** Reading the selector of a message that starts with `SelectorBytes(t)`
      gives `t`, whatever follows. */
  lemma SelectorRoundTrip(t: nat, data: seq<byte>)
    requires t < 0x1_0000_0000 && SelectorBytes(t) <= data
    ensures |data| >= 4 && AppType(data) == t
  {
    var q1 := t / 0x100;
    var q2 := q1 / 0x100;
    var b0, b1, b2, b3 := t % 0x100, q1 % 0x100, q2 % 0x100, q2 / 0x100;
    assert t == b0 + 0x100 * q1;
    assert q1 == b1 + 0x100 * q2;
    assert q2 == b2 + 0x100 * b3;
    assert b1 == t / 0x100 % 0x100 && b2 == t / 0x1_0000 % 0x100 && b3 == t / 0x100_0000;
    assert data[0] == data[..4][0] == b0;
    assert data[1] == data[..4][1] == b1;
    assert data[2] == data[..4][2] == b2;
    assert data[3] == data[..4][3] == b3;
  }

  /** The converse: the first four bytes of a message are the bytes of the
      selector read from them. */
  lemma SelectorOfData(data: seq<byte>)
    requires |data| >= 4
    ensures SelectorBytes(AppType(data)) == data[..4]
  {
    var t := AppType(data);
    var b0: nat, b1: nat, b2: nat, b3: nat := data[0], data[1], data[2], data[3];
    var q2 := b2 + 0x100 * b3;
    var q1 := b1 + 0x100 * q2;
    assert t == b0 + 0x100 * q1;
    assert t % 0x100 == b0 && t / 0x100 == q1;
    assert q1 % 0x100 == b1;
    assert t == (b0 + 0x100 * b1) + 0x1_0000 * q2;
    assert t / 0x1_0000 == q2 && q2 % 0x100 == b2;
    assert t == (b0 + 0x100 * b1 + 0x1_0000 * b2) + 0x100_0000 * b3;
    assert t / 0x100_0000 == b3;
  }

  // ------------------------------------------------------ endorser messages

  /** A message for `handle_endorser_stakes`, with its arguments in the order
      of the Solidity signatures. */
  datatype EndorserCall =
    | ClaimCall(validator: Name, staker: Address)
    | Claim2Call(validator: Name, staker: Address, donateRate: nat)
    | DepositCall(validator: Name, amount: Int64, staker: Address)
    | WithdrawCall(validator: Name, amount: Int64, staker: Address)
    | RestakeCall(oldValidator: Name, newValidator: Name, amount: Int64, staker: Address)

  /** The words of a call can be written: amounts scale up to a word and rates
      fit in one. */
  predicate Encodable(c: EndorserCall, delta: nat) {
    match c
    case ClaimCall(_, _) => true
    case Claim2Call(_, _, rate) => rate < TwoTo256
    case DepositCall(_, amount, _) => 0 <= amount && ToEvmAmount(amount, delta) < TwoTo256
    case WithdrawCall(_, amount, _) => 0 <= amount && ToEvmAmount(amount, delta) < TwoTo256
    case RestakeCall(_, _, amount, _) => 0 <= amount && ToEvmAmount(amount, delta) < TwoTo256
  }

  /** A call the bridge accepts: amounts are positive, below 2^62 - 1 and
      scale up without wrapping; the donate rate is at most 10000. */
  predicate Acceptable(c: EndorserCall, delta: nat) {
    Encodable(c, delta) &&
    match c
    case ClaimCall(_, _) => true
    case Claim2Call(_, _, rate) => rate <= MaxDonateRate
    case DepositCall(_, amount, _) => 0 < amount < TwoTo62 - 1
    case WithdrawCall(_, amount, _) => 0 < amount < TwoTo62 - 1
    case RestakeCall(_, _, amount, _) => 0 < amount < TwoTo62 - 1
  }

  /** The message data an EVM proxy sends for `c`, native amounts scaled up by
      `10^delta`. */
  function EncodeEndorser(space: AddressSpace, c: EndorserCall, delta: nat): (data: seq<byte>)
    requires Encodable(c, delta)
  {
    match c
    case ClaimCall(v, staker) =>
      SelectorBytes(ClaimType) + AddressWord(space.makeReserved(v)) + AddressWord(staker)
    case Claim2Call(v, staker, rate) =>
      SelectorBytes(Claim2Type) + AddressWord(space.makeReserved(v)) + AddressWord(staker) + Uint256Word(rate)
    case DepositCall(v, amount, staker) =>
      SelectorBytes(DepositType) + AddressWord(space.makeReserved(v)) + Uint256Word(ToEvmAmount(amount, delta)) + AddressWord(staker)
    case WithdrawCall(v, amount, staker) =>
      SelectorBytes(WithdrawType) + AddressWord(space.makeReserved(v)) + Uint256Word(ToEvmAmount(amount, delta)) + AddressWord(staker)
    case RestakeCall(v, v', amount, staker) =>
      SelectorBytes(RestakeType) + AddressWord(space.makeReserved(v)) + AddressWord(space.makeReserved(v'))
        + Uint256Word(ToEvmAmount(amount, delta)) + AddressWord(staker)
  }

  /** The action the staking collaborator should receive for `c`, sent by
      proxy `proxy` through a channel that is (or is not) the XSAT one. */
  function EndorserAction(host: Host, cfg: Config, proxy: seq<byte>, c: EndorserCall, isXsat: bool): Action {
    var e, me := cfg.endrmngAccount, host.self;
    var token := if isXsat then host.xsatSymbol else cfg.gasSymbol;
    match c
    case ClaimCall(v, staker) => EvmClaim(e, me, proxy, staker, v)
    case Claim2Call(v, staker, rate) => EvmClaim2(e, me, proxy, staker, v, rate)
    case DepositCall(v, amount, staker) =>
      if isXsat then EvmStakeXsat(e, me, proxy, staker, v, Asset(amount, token))
      else EvmStake(e, me, proxy, staker, v, Asset(amount, token))
    case WithdrawCall(v, amount, staker) =>
      if isXsat then EvmUnstakeXsat(e, me, proxy, staker, v, Asset(amount, token))
      else EvmUnstake(e, me, proxy, staker, v, Asset(amount, token))
    case RestakeCall(v, v', amount, staker) => EvmNewStake(e, me, proxy, staker, v, v', Asset(amount, cfg.gasSymbol))
  }

  /** `data` starts with the encoding of `c`: what follows the encoded words
      is not read. */
  predicate EndorserEncoded(space: AddressSpace, c: EndorserCall, delta: nat, data: seq<byte>) {
    Encodable(c, delta) && EncodeEndorser(space, c, delta) <= data
  }

  /** Decoding what a proxy encodes: every acceptable call that the channel
      allows comes out as the action it asks for, whatever bytes follow it. A
      restake is the one call a deposit channel does not allow. */
  lemma {:induction false} EndorserRoundTrip(host: Host, cfg: Config, msg: BridgeMessage,
                                             c: EndorserCall, delta: nat, isDeposit: bool, isXsat: bool)
    requires Coherent(host.space) && delta <= 77 && Acceptable(c, delta)
    requires c.RestakeCall? ==> !isDeposit && !isXsat
    requires EncodeEndorser(host.space, c, delta) <= msg.data
    ensures HandleEndorserStakes(host, cfg, msg, delta, isDeposit, isXsat) == Success(EndorserAction(host, cfg, msg.sender, c, isXsat))
  {
    match c
    case ClaimCall(v, staker) =>
      ClaimDecodes(host, cfg, msg, v, staker);
    case Claim2Call(v, staker, rate) =>
      Claim2Decodes(host, cfg, msg, v, staker, rate);
    case DepositCall(v, amount, staker) =>
      TransferDecodes(host, cfg, msg, DepositType, v, amount, staker, delta, isXsat);
    case WithdrawCall(v, amount, staker) =>
      TransferDecodes(host, cfg, msg, WithdrawType, v, amount, staker, delta, isXsat);
    case RestakeCall(v, v', amount, staker) =>
      RestakeDecodes(host, cfg, msg, v, v', amount, staker, delta, false);
  }

  /** The converse of `EndorserRoundTrip`: whatever the staking handler
      accepts starts with the encoding of an acceptable call the channel
      allows, and the action is the one that call asks for. */
  lemma {:induction false} EndorserSound(host: Host, cfg: Config, msg: BridgeMessage, delta: nat, isDeposit: bool, isXsat: bool)
    requires Coherent(host.space) && delta <= 77
    ensures var r := HandleEndorserStakes(host, cfg, msg, delta, isDeposit, isXsat);
            r.Success? ==>
            exists c :: && EndorserEncoded(host.space, c, delta, msg.data) && Acceptable(c, delta)
                        && (c.RestakeCall? ==> !isDeposit && !isXsat)
                        && r.value == EndorserAction(host, cfg, msg.sender, c, isXsat)
  {
    var r := HandleEndorserStakes(host, cfg, msg, delta, isDeposit, isXsat);
    if r.Success? {
      var t := AppType(msg.data);
      if t == ClaimType {
        ClaimSound(host, cfg, msg, delta, isXsat);
      } else if t == Claim2Type {
        Claim2Sound(host, cfg, msg, delta, isXsat);
      } else if t == DepositType || t == WithdrawType {
        TransferSound(host, cfg, msg, delta, t == DepositType, isXsat);
      } else {
        RestakeSound(host, cfg, msg, delta, isDeposit || isXsat);
      }
    }
  }

  /** A restake through a deposit channel is decoded and then refused. */
  lemma RestakeRefused(host: Host, cfg: Config, msg: BridgeMessage, v: Name, v': Name, amount: Int64,
                       staker: Address, delta: nat, isDeposit: bool, isXsat: bool)
    requires Coherent(host.space) && delta <= 77 && Acceptable(RestakeCall(v, v', amount, staker), delta)
    requires isDeposit || isXsat
    requires EncodeEndorser(host.space, RestakeCall(v, v', amount, staker), delta) <= msg.data
    ensures HandleEndorserStakes(host, cfg, msg, delta, isDeposit, isXsat) == Failure(InvalidOperation)
  {
    RestakeDecodes(host, cfg, msg, v, v', amount, staker, delta, true);
  }

  /** A message that starts with a claim decodes to the claim it encodes. */
  lemma ClaimDecodes(host: Host, cfg: Config, msg: BridgeMessage, v: Name, staker: Address)
    requires Coherent(host.space)
    requires SelectorBytes(ClaimType) + AddressWord(host.space.makeReserved(v)) + AddressWord(staker) <= msg.data
    ensures |msg.data| >= 4 && AppType(msg.data) == ClaimType
    ensures EndorserClaim(host, cfg, msg) == Success(EvmClaim(cfg.endrmngAccount, host.self, msg.sender, staker, v))
  {
    var data, s, w1 := msg.data, SelectorBytes(ClaimType), AddressWord(host.space.makeReserved(v));
    WordOfPrefix(s + w1, AddressWord(staker), data);
    WordOfPrefix(s, w1, data);
    SelectorRoundTrip(ClaimType, data);
    ReadAccountAt(host.space, data, 4, v);
    ReadAddressAt(data, 36, staker);
  }

  /** A message that starts with a claim2 decodes to its claim exactly when
      its rate word is at most 10000, and the rate then reaches the
      collaborator unchanged. */
  lemma Claim2Decodes(host: Host, cfg: Config, msg: BridgeMessage, v: Name, staker: Address, rate: nat)
    requires Coherent(host.space) && rate < TwoTo256
    requires SelectorBytes(Claim2Type) + AddressWord(host.space.makeReserved(v)) + AddressWord(staker) + Uint256Word(rate) <= msg.data
    ensures |msg.data| >= 4 && AppType(msg.data) == Claim2Type
    ensures rate <= MaxDonateRate ==>
      EndorserClaim2(host, cfg, msg) == Success(EvmClaim2(cfg.endrmngAccount, host.self, msg.sender, staker, v, rate))
    ensures rate > MaxDonateRate ==> EndorserClaim2(host, cfg, msg) == Failure(DonateRateTooLarge)
  {
    var data, s, w1, w2 := msg.data, SelectorBytes(Claim2Type), AddressWord(host.space.makeReserved(v)), AddressWord(staker);
    WordOfPrefix(s + w1 + w2, Uint256Word(rate), data);
    WordOfPrefix(s + w1, w2, data);
    WordOfPrefix(s, w1, data);
    SelectorRoundTrip(Claim2Type, data);
    ReadAccountAt(host.space, data, 4, v);
    ReadAddressAt(data, 36, staker);
    ReadWordAt(data, 68, rate);
    if rate <= MaxDonateRate {
      ModSmall(rate, 0x1_0000);
    }
  }

  /** A message that starts with a deposit or withdraw decodes to the
      transfer it encodes. */
  lemma TransferDecodes(host: Host, cfg: Config, msg: BridgeMessage, t: nat,
                        v: Name, amount: Int64, staker: Address, delta: nat, isXsat: bool)
    requires Coherent(host.space) && delta <= 77 && t in {DepositType, WithdrawType}
    requires 0 < amount < TwoTo62 - 1 && ToEvmAmount(amount, delta) < TwoTo256
    requires SelectorBytes(t) + AddressWord(host.space.makeReserved(v))
             + Uint256Word(ToEvmAmount(amount, delta)) + AddressWord(staker) <= msg.data
    ensures |msg.data| >= 4 && AppType(msg.data) == t
    ensures var c := if t == DepositType then DepositCall(v, amount, staker) else WithdrawCall(v, amount, staker);
            EndorserTransfer(host, cfg, msg, delta, t == DepositType, isXsat)
            == Success(EndorserAction(host, cfg, msg.sender, c, isXsat))
  {
    TransferFields(host.space, msg.data, t, v, amount, staker, delta);
  }

  /** The three argument words of a message that starts with a deposit or
      withdraw read back as the values written into them. */
  lemma TransferFields(space: AddressSpace, data: seq<byte>, t: nat, v: Name, amount: Int64, staker: Address, delta: nat)
    requires Coherent(space) && delta <= 77 && t in {DepositType, WithdrawType}
    requires 0 < amount < TwoTo62 - 1 && ToEvmAmount(amount, delta) < TwoTo256
    requires SelectorBytes(t) + AddressWord(space.makeReserved(v))
             + Uint256Word(ToEvmAmount(amount, delta)) + AddressWord(staker) <= data
    ensures |data| >= 100 && AppType(data) == t
    ensures ReadExSatAccount(space, data, 4) == Success(v)
    ensures ReadTokenAmount(data, 36, delta) == Success(amount)
    ensures ReadEvmAddress(data, 68) == Success(staker)
  {
    var s, w1, w2 := SelectorBytes(t), AddressWord(space.makeReserved(v)), Uint256Word(ToEvmAmount(amount, delta));
    WordOfPrefix(s + w1 + w2, AddressWord(staker), data);
    WordOfPrefix(s + w1, w2, data);
    WordOfPrefix(s, w1, data);
    SelectorRoundTrip(t, data);
    ReadAccountAt(space, data, 4, v);
    ReadAmountAt(data, 36, amount, delta);
    ReadAddressAt(data, 68, staker);
  }

  /** A message that starts with a restake decodes to the new stake it
      encodes, unless the channel refuses restakes, in which case it fails
      once read. */
  lemma RestakeDecodes(host: Host, cfg: Config, msg: BridgeMessage, v: Name, v': Name,
                       amount: Int64, staker: Address, delta: nat, refused: bool)
    requires Coherent(host.space) && delta <= 77
    requires 0 < amount < TwoTo62 - 1 && ToEvmAmount(amount, delta) < TwoTo256
    requires SelectorBytes(RestakeType) + AddressWord(host.space.makeReserved(v))
             + AddressWord(host.space.makeReserved(v')) + Uint256Word(ToEvmAmount(amount, delta))
             + AddressWord(staker) <= msg.data
    ensures |msg.data| >= 4 && AppType(msg.data) == RestakeType
    ensures EndorserRestake(host, cfg, msg, delta, refused)
            == if refused then Failure(InvalidOperation)
               else Success(EvmNewStake(cfg.endrmngAccount, host.self, msg.sender, staker, v, v', Asset(amount, cfg.gasSymbol)))
  {
    var data, s := msg.data, SelectorBytes(RestakeType);
    var w1, w2 := AddressWord(host.space.makeReserved(v)), AddressWord(host.space.makeReserved(v'));
    var w3 := Uint256Word(ToEvmAmount(amount, delta));
    WordOfPrefix(s + w1 + w2 + w3, AddressWord(staker), data);
    WordOfPrefix(s + w1 + w2, w3, data);
    WordOfPrefix(s + w1, w2, data);
    WordOfPrefix(s, w1, data);
    SelectorRoundTrip(RestakeType, data);
    ReadAccountAt(host.space, data, 4, v);
    ReadAccountAt(host.space, data, 36, v');
    ReadAmountAt(data, 68, amount, delta);
    ReadAddressAt(data, 100, staker);
  }

  /** The claim case of `EndorserSound`: the two words read are those of the
      claim of the account and staker they hold. */
  lemma ClaimSound(host: Host, cfg: Config, msg: BridgeMessage, delta: nat, isXsat: bool)
    requires Coherent(host.space)
    requires |msg.data| >= 4 && AppType(msg.data) == ClaimType && EndorserClaim(host, cfg, msg).Success?
    ensures exists c: EndorserCall :: && c.ClaimCall? && EndorserEncoded(host.space, c, delta, msg.data) && Acceptable(c, delta)
                        && EndorserClaim(host, cfg, msg) == Success(EndorserAction(host, cfg, msg.sender, c, isXsat))
  {
    var data := msg.data;
    var c := ClaimCall(ReadExSatAccount(host.space, data, 4).value, ReadEvmAddress(data, 36).value);
    SelectorOfData(data);
    AccountWordOf(host.space, data, 4);
    SliceJoin(data, 0, 4, 36);
    SliceJoin(data, 0, 36, 68);
    assert EncodeEndorser(host.space, c, delta) == data[..68];
    assert EndorserEncoded(host.space, c, delta, data);
  }

  /** The claim2 case of `EndorserSound`: the rate read is at most 10000 and
      is the rate of the call. */
  lemma Claim2Sound(host: Host, cfg: Config, msg: BridgeMessage, delta: nat, isXsat: bool)
    requires Coherent(host.space)
    requires |msg.data| >= 4 && AppType(msg.data) == Claim2Type && EndorserClaim2(host, cfg, msg).Success?
    ensures exists c: EndorserCall :: && c.Claim2Call? && EndorserEncoded(host.space, c, delta, msg.data) && Acceptable(c, delta)
                        && EndorserClaim2(host, cfg, msg) == Success(EndorserAction(host, cfg, msg.sender, c, isXsat))
  {
    var data := msg.data;
    var v, staker, rate := ReadExSatAccount(host.space, data, 4).value, ReadEvmAddress(data, 36).value, ReadUint256(data, 68).value;
    assert EndorserClaim2(host, cfg, msg) == Success(EvmClaim2(cfg.endrmngAccount, host.self, msg.sender, staker, v, rate)) by {
      assert rate <= MaxDonateRate;
      ModSmall(rate, 0x1_0000);
    }
    var c := Claim2Call(v, staker, rate);
    SelectorOfData(data);
    AccountWordOf(host.space, data, 4);
    SliceJoin(data, 0, 4, 36);
    SliceJoin(data, 0, 36, 68);
    SliceJoin(data, 0, 68, 100);
    assert EncodeEndorser(host.space, c, delta) == data[..100];
    assert EndorserEncoded(host.space, c, delta, data);
  }

  /** The deposit and withdraw cases of `EndorserSound`: the amount read is
      a valid native amount whose scaled-up word is the one in the message. */
  lemma TransferSound(host: Host, cfg: Config, msg: BridgeMessage, delta: nat, deposit: bool, isXsat: bool)
    requires Coherent(host.space) && delta <= 77
    requires |msg.data| >= 4 && AppType(msg.data) == (if deposit then DepositType else WithdrawType)
    requires EndorserTransfer(host, cfg, msg, delta, deposit, isXsat).Success?
    ensures exists c: EndorserCall :: && (if deposit then c.DepositCall? else c.WithdrawCall?)
                        && EndorserEncoded(host.space, c, delta, msg.data) && Acceptable(c, delta)
                        && EndorserTransfer(host, cfg, msg, delta, deposit, isXsat)
                           == Success(EndorserAction(host, cfg, msg.sender, c, isXsat))
  {
    var data := msg.data;
    var v, staker := ReadExSatAccount(host.space, data, 4).value, ReadEvmAddress(data, 68).value;
    var amount: Int64 := ReadTokenAmount(data, 36, delta).value;
    var c := if deposit then DepositCall(v, amount, staker) else WithdrawCall(v, amount, staker);
    SelectorOfData(data);
    AccountWordOf(host.space, data, 4);
    SliceJoin(data, 0, 4, 36);
    SliceJoin(data, 0, 36, 68);
    SliceJoin(data, 0, 68, 100);
    assert EncodeEndorser(host.space, c, delta) == data[..100];
    assert EndorserEncoded(host.space, c, delta, data);
  }

  /** The restake case of `EndorserSound`: a restake succeeds only where it
      is not refused, and then its four words are those of the call. */
  lemma RestakeSound(host: Host, cfg: Config, msg: BridgeMessage, delta: nat, refused: bool)
    requires Coherent(host.space) && delta <= 77
    requires |msg.data| >= 4 && AppType(msg.data) == RestakeType && EndorserRestake(host, cfg, msg, delta, refused).Success?
    ensures !refused
    ensures exists c: EndorserCall :: && c.RestakeCall? && EndorserEncoded(host.space, c, delta, msg.data) && Acceptable(c, delta)
                        && EndorserRestake(host, cfg, msg, delta, refused) == Success(EndorserAction(host, cfg, msg.sender, c, false))
  {
    var data := msg.data;
    var v, v' := ReadExSatAccount(host.space, data, 4).value, ReadExSatAccount(host.space, data, 36).value;
    var amount: Int64 := ReadTokenAmount(data, 68, delta).value;
    var c := RestakeCall(v, v', amount, ReadEvmAddress(data, 100).value);
    SelectorOfData(data);
    AccountWordOf(host.space, data, 4);
    AccountWordOf(host.space, data, 36);
    SliceJoin(data, 0, 4, 36);
    SliceJoin(data, 0, 36, 68);
    SliceJoin(data, 0, 68, 100);
    SliceJoin(data, 0, 100, 132);
    assert EncodeEndorser(host.space, c, delta) == data[..132];
    assert EndorserEncoded(host.space, c, delta, data);
  }

  /** The donate-rate bound of claim2 as the whole handler applies it: a rate
      of at most 10000 (so 10000 itself) passes unchanged, anything above it
      (so 10001) fails. */
  lemma DonateRateBoundary(host: Host, cfg: Config, msg: BridgeMessage, v: Name, staker: Address,
                           rate: nat, delta: nat, isDeposit: bool, isXsat: bool)
    requires Coherent(host.space) && delta <= 77 && rate < TwoTo256
    requires EncodeEndorser(host.space, Claim2Call(v, staker, rate), delta) <= msg.data
    ensures HandleEndorserStakes(host, cfg, msg, delta, isDeposit, isXsat)
            == if rate <= MaxDonateRate then Success(EvmClaim2(cfg.endrmngAccount, host.self, msg.sender, staker, v, rate))
               else Failure(DonateRateTooLarge)
  {
    Claim2Decodes(host, cfg, msg, v, staker, rate);
  }

  // ------------------------------------------------------- rewards messages

  /** A message for `handle_rewards`. The claim messages carry the sender's
      address as a second argument, which the bridge does not use. */
  datatype RewardsCall =
    | PoolClaimCall(synchronizer: Name, from: Address)
    | VdrClaimCall(validator: Name, from: Address)
    | CreditClaimCall(validator: Name, proxy: Address, from: Address)

  /** The message data the reward helper sends for `c`: the length the
      handler asks for, two words for a claim, three for a credit claim. */
  function EncodeRewards(space: AddressSpace, c: RewardsCall): (data: seq<byte>)
    ensures |data| == if c.CreditClaimCall? then 100 else 68
  {
    match c
    case PoolClaimCall(syn, from) => SelectorBytes(ClaimType) + AddressWord(space.makeReserved(syn)) + AddressWord(from)
    case VdrClaimCall(v, from) => SelectorBytes(VdrClaimType) + AddressWord(space.makeReserved(v)) + AddressWord(from)
    case CreditClaimCall(v, proxy, from) =>
      SelectorBytes(CreditClaimType) + AddressWord(space.makeReserved(v)) + AddressWord(proxy) + AddressWord(from)
  }

  /** `data` is at least as long as the encoding of `c` and starts with the
      words of it the handler reads: all of them for a credit claim, the
      selector and the account for the two claims, whose second word the
      handler leaves unread. */
  predicate RewardsEncoded(space: AddressSpace, c: RewardsCall, data: seq<byte>) {
    var e := EncodeRewards(space, c);
    |e| <= |data| && (if c.CreditClaimCall? then e else e[..36]) <= data
  }

  /** The action the reward helper's message asks for. */
  function RewardsAction(host: Host, cfg: Config, c: RewardsCall): Action {
    match c
    case PoolClaimCall(syn, _) => PoolClaim(cfg.poolregAccount, syn)
    case VdrClaimCall(v, _) => VdrClaim(cfg.endrmngAccount, v)
    case CreditClaimCall(v, proxy, from) => EvmClaim(cfg.endrmngAccount, host.self, proxy, from, v)
  }

  /** Every message that starts with a rewards call decodes to the action it
      asks for, whatever follows. */
  lemma RewardsRoundTrip(host: Host, cfg: Config, msg: BridgeMessage, c: RewardsCall)
    requires Coherent(host.space) && EncodeRewards(host.space, c) <= msg.data
    ensures HandleRewards(host, cfg, msg) == Success(RewardsAction(host, cfg, c))
  {
    match c
    case PoolClaimCall(syn, from) => AccountClaimDecodes(host, cfg, msg, ClaimType, syn, from);
    case VdrClaimCall(v, from) => AccountClaimDecodes(host, cfg, msg, VdrClaimType, v, from);
    case CreditClaimCall(v, proxy, from) => CreditClaimDecodes(host, cfg, msg, v, proxy, from);
  }

  /** The converse of `RewardsRoundTrip`: whatever the rewards handler
      accepts starts with the words it reads of a rewards call, and the
      action is the one that call asks for. */
  lemma RewardsSound(host: Host, cfg: Config, msg: BridgeMessage)
    requires Coherent(host.space)
    ensures var r := HandleRewards(host, cfg, msg);
            r.Success? ==> exists c :: RewardsEncoded(host.space, c, msg.data) && r.value == RewardsAction(host, cfg, c)
  {
    var r := HandleRewards(host, cfg, msg);
    if r.Success? {
      var data := msg.data;
      var t := AppType(data);
      var v := ReadExSatAccount(host.space, data, 4).value;
      SelectorOfData(data);
      AccountWordOf(host.space, data, 4);
      SliceJoin(data, 0, 4, 36);
      if t == CreditClaimType {
        var c := CreditClaimCall(v, ReadEvmAddress(data, 36).value, ReadEvmAddress(data, 68).value);
        SliceJoin(data, 0, 36, 68);
        SliceJoin(data, 0, 68, 100);
        assert EncodeRewards(host.space, c) == data[..100];
        assert RewardsEncoded(host.space, c, data);
      } else {
        var c := if t == ClaimType then PoolClaimCall(v, Zeros(20)) else VdrClaimCall(v, Zeros(20));
        assert EncodeRewards(host.space, c)[..36] == data[..36];
        assert RewardsEncoded(host.space, c, data);
      }
    }
  }

  /** The pool claim and validator claim cases of `RewardsRoundTrip`: the
      account argument reaches the pool or staking collaborator. */
  lemma AccountClaimDecodes(host: Host, cfg: Config, msg: BridgeMessage, t: nat, account: Name, from: Address)
    requires Coherent(host.space) && t in {ClaimType, VdrClaimType}
    requires SelectorBytes(t) + AddressWord(host.space.makeReserved(account)) + AddressWord(from) <= msg.data
    ensures HandleRewards(host, cfg, msg)
            == Success(if t == ClaimType then PoolClaim(cfg.poolregAccount, account) else VdrClaim(cfg.endrmngAccount, account))
  {
    var data, s, w1 := msg.data, SelectorBytes(t), AddressWord(host.space.makeReserved(account));
    WordOfPrefix(s + w1, AddressWord(from), data);
    WordOfPrefix(s, w1, data);
    SelectorRoundTrip(t, data);
    ReadAccountAt(host.space, data, 4, account);
  }

  /** The credit claim case of `RewardsRoundTrip`. */
  lemma CreditClaimDecodes(host: Host, cfg: Config, msg: BridgeMessage, v: Name, proxy: Address, from: Address)
    requires Coherent(host.space)
    requires SelectorBytes(CreditClaimType) + AddressWord(host.space.makeReserved(v)) + AddressWord(proxy) + AddressWord(from) <= msg.data
    ensures HandleRewards(host, cfg, msg) == Success(EvmClaim(cfg.endrmngAccount, host.self, proxy, from, v))
  {
    var data, s, w1, w2 := msg.data, SelectorBytes(CreditClaimType), AddressWord(host.space.makeReserved(v)), AddressWord(proxy);
    WordOfPrefix(s + w1 + w2, AddressWord(from), data);
    WordOfPrefix(s + w1, w2, data);
    WordOfPrefix(s, w1, data);
    SelectorRoundTrip(CreditClaimType, data);
    ReadAccountAt(host.space, data, 4, v);
    ReadAddressAt(data, 36, proxy);
    ReadAddressAt(data, 68, from);
  }

  // ------------------------------------------------------ gas-fund messages

  /** A message for `handle_gasfunds`. */
  datatype GasCall =
    | GasClaimCall(receiver: Name, from: Address, receiverType: nat)
    | EnfClaimCall(from: Address)
    | RamsClaimCall(from: Address)

  function EncodeGas(space: AddressSpace, c: GasCall): seq<byte>
    requires c.GasClaimCall? ==> c.receiverType < TwoTo256
  {
    match c
    case GasClaimCall(rcv, from, t) =>
      SelectorBytes(GasClaimType) + AddressWord(space.makeReserved(rcv)) + AddressWord(from) + Uint256Word(t)
    case EnfClaimCall(from) => SelectorBytes(EnfClaimType) + AddressWord(from)
    case RamsClaimCall(from) => SelectorBytes(RamsClaimType) + AddressWord(from)
  }

  /** `data` starts with the encoding of `c`. */
  predicate GasEncoded(space: AddressSpace, c: GasCall, data: seq<byte>) {
    (c.GasClaimCall? ==> c.receiverType < TwoTo256) && EncodeGas(space, c) <= data
  }

  /** The action the gas-funds helper's message asks for, sent to the gas-fund
      account. The receiver type reaches it as its low eight bits. */
  function GasAction(host: Host, gasfund: Name, proxy: seq<byte>, c: GasCall): Action {
    match c
    case GasClaimCall(rcv, from, t) => GasFundsClaim(gasfund, host.self, proxy, from, rcv, t % 0x100)
    case EnfClaimCall(from) => GasFundsEnfClaim(gasfund, host.self, proxy, from)
    case RamsClaimCall(from) => GasFundsRamsClaim(gasfund, host.self, proxy, from)
  }

  /** Every message that starts with a gas-funds call decodes to the action
      it asks for once the gas-fund account is set, and fails without it. */
  lemma GasRoundTrip(host: Host, cfg: Config, msg: BridgeMessage, c: GasCall)
    requires Coherent(host.space)
    requires GasEncoded(host.space, c, msg.data)
    ensures var r := HandleGasfunds(host, cfg, msg);
            && (cfg.gasfundAccount.Some? ==> r == Success(GasAction(host, cfg.gasfundAccount.value, msg.sender, c)))
            && (cfg.gasfundAccount.None? ==> r == Failure(GasfundAccountUnset))
  {
    match c
    case GasClaimCall(rcv, from, t) => GasClaimDecodes(host, cfg, msg, rcv, from, t);
    case EnfClaimCall(from) => GasAddressDecodes(host, cfg, msg, EnfClaimType, from);
    case RamsClaimCall(from) => GasAddressDecodes(host, cfg, msg, RamsClaimType, from);
  }

  /** The converse of `GasRoundTrip`: whatever the gas-funds handler accepts
      comes with a gas-fund account and starts with the encoding of a
      gas-funds call, and the action is the one that call asks for. */
  lemma GasSound(host: Host, cfg: Config, msg: BridgeMessage)
    requires Coherent(host.space)
    ensures var r := HandleGasfunds(host, cfg, msg);
            r.Success? ==>
            && cfg.gasfundAccount.Some?
            && exists c :: GasEncoded(host.space, c, msg.data) && r.value == GasAction(host, cfg.gasfundAccount.value, msg.sender, c)
  {
    var r := HandleGasfunds(host, cfg, msg);
    if r.Success? {
      var data := msg.data;
      var t := AppType(data);
      SelectorOfData(data);
      SliceJoin(data, 0, 4, 36);
      if t == GasClaimType {
        var c := GasClaimCall(ReadExSatAccount(host.space, data, 4).value, ReadEvmAddress(data, 36).value,
                              ReadUint256(data, 68).value);
        AccountWordOf(host.space, data, 4);
        SliceJoin(data, 0, 36, 68);
        SliceJoin(data, 0, 68, 100);
        assert EncodeGas(host.space, c) == data[..100];
        assert GasEncoded(host.space, c, data);
      } else {
        var from := ReadEvmAddress(data, 4).value;
        var c := if t == EnfClaimType then EnfClaimCall(from) else RamsClaimCall(from);
        assert EncodeGas(host.space, c) == data[..36];
        assert GasEncoded(host.space, c, data);
      }
    }
  }

  /** The gas claim case of `GasRoundTrip`. */
  lemma GasClaimDecodes(host: Host, cfg: Config, msg: BridgeMessage, rcv: Name, from: Address, t: nat)
    requires Coherent(host.space) && t < TwoTo256
    requires SelectorBytes(GasClaimType) + AddressWord(host.space.makeReserved(rcv)) + AddressWord(from) + Uint256Word(t) <= msg.data
    ensures cfg.gasfundAccount.Some? ==>
      HandleGasfunds(host, cfg, msg) == Success(GasFundsClaim(cfg.gasfundAccount.value, host.self, msg.sender, from, rcv, t % 0x100))
    ensures cfg.gasfundAccount.None? ==> HandleGasfunds(host, cfg, msg) == Failure(GasfundAccountUnset)
  {
    var data, s, w1, w2 := msg.data, SelectorBytes(GasClaimType), AddressWord(host.space.makeReserved(rcv)), AddressWord(from);
    WordOfPrefix(s + w1 + w2, Uint256Word(t), data);
    WordOfPrefix(s + w1, w2, data);
    WordOfPrefix(s, w1, data);
    SelectorRoundTrip(GasClaimType, data);
    ReadAccountAt(host.space, data, 4, rcv);
    ReadAddressAt(data, 36, from);
    ReadWordAt(data, 68, t);
  }

  /** The enf and rams claim cases of `GasRoundTrip`, which differ only in
      their selector. */
  lemma GasAddressDecodes(host: Host, cfg: Config, msg: BridgeMessage, t: nat, from: Address)
    requires t in {EnfClaimType, RamsClaimType}
    requires SelectorBytes(t) + AddressWord(from) <= msg.data
    ensures cfg.gasfundAccount.Some? ==>
      HandleGasfunds(host, cfg, msg) == Success(
        if t == EnfClaimType then GasFundsEnfClaim(cfg.gasfundAccount.value, host.self, msg.sender, from)
        else GasFundsRamsClaim(cfg.gasfundAccount.value, host.self, msg.sender, from))
    ensures cfg.gasfundAccount.None? ==> HandleGasfunds(host, cfg, msg) == Failure(GasfundAccountUnset)
  {
    var data, s := msg.data, SelectorBytes(t);
    WordOfPrefix(s, AddressWord(from), data);
    SelectorRoundTrip(t, data);
    ReadAddressAt(data, 4, from);
  }
}
