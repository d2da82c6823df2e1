/** Decoding bridge messages into outbound actions: the three selector-keyed
    handlers and the sender router of evmutil.cpp (lines 418-639, 862-919). */
module Bridge {
  import opened Wrappers
  import opened Bytes
  import opened Eosio
  import opened Host
  import opened Errors
  import opened Abi
  import opened EvmutilTypes

  // The application types as `AppType` reads them, i.e. the ABI selectors with
  // their bytes reversed (the ABI selector of `deposit(address,uint256,address)`
  // is f45346dc).
  const ClaimType: nat := 0x42b3c021
  const Claim2Type: nat := 0xac2fd4fc
  const DepositType: nat := 0xdc4653f4
  const WithdrawType: nat := 0xec8d3269
  const RestakeType: nat := 0x2b7d501d
  const VdrClaimType: nat := 0xc16fb607
  const CreditClaimType: nat := 0x3d7bb560
  const GasClaimType: nat := 0x136f93b4
  const EnfClaimType: nat := 0x4380f533
  const RamsClaimType: nat := 0x031a7229

  /** The largest donate rate, 100.00% in basis points. */
  const MaxDonateRate: nat := 10000

  /** The delta precision of the BTC and XSAT deposit channels. */
  const DepositDelta: nat := 10

  // ------------------------------------------------------------ the handlers

  /** `handle_endorser_stakes`: claim, claim2, deposit, withdraw and restake
      messages for the staking collaborator. `isDeposit` and `isXsat` say
      which channel the message came through. */
  function HandleEndorserStakes(host: Host, cfg: Config, msg: BridgeMessage, delta: nat, isDeposit: bool, isXsat: bool)
    : (r: Result<Action, Error>)
    requires delta <= 77
    ensures |msg.data| < 4 ==> r == Failure(NotEnoughData)
    ensures |msg.data| >= 4 && AppType(msg.data) !in {ClaimType, Claim2Type, DepositType, WithdrawType, RestakeType} ==>
      r == Failure(UnsupportedMessage)
    ensures r.Success? ==> StakingAction(r.value, cfg.endrmngAccount, host.self, msg.sender)
    ensures r.Success? ==> EndorserFamily(r.value, AppType(msg.data), isXsat, cfg.gasSymbol, host.xsatSymbol)
    ensures (isDeposit || isXsat) && r.Success? ==> !r.value.EvmNewStake?
    ensures |msg.data| >= 4 && AppType(msg.data) == ClaimType && |msg.data| < 68 ==> r == Failure(NotEnoughData)
    ensures |msg.data| >= 4 && AppType(msg.data) in {Claim2Type, DepositType, WithdrawType} && |msg.data| < 100 ==>
      r == Failure(NotEnoughData)
    ensures |msg.data| >= 4 && AppType(msg.data) == RestakeType && |msg.data| < 132 ==> r == Failure(NotEnoughData)
  {
    if |msg.data| < 4 then Failure(NotEnoughData)
    else
      var appType := AppType(msg.data);
      if appType == ClaimType then EndorserClaim(host, cfg, msg)
      else if appType == Claim2Type then EndorserClaim2(host, cfg, msg)
      else if appType == DepositType || appType == WithdrawType then
        EndorserTransfer(host, cfg, msg, delta, appType == DepositType, isXsat)
      else if appType == RestakeType then EndorserRestake(host, cfg, msg, delta, isDeposit || isXsat)
      else Failure(UnsupportedMessage)
  }

  /** The `claim(address,address)` branch: recipient account, then EVM sender. */
  function EndorserClaim(host: Host, cfg: Config, msg: BridgeMessage): (r: Result<Action, Error>)
    ensures |msg.data| < 68 ==> r == Failure(NotEnoughData)
    ensures r.Success? ==> StakingAction(r.value, cfg.endrmngAccount, host.self, msg.sender) && r.value.EvmClaim?
  {
    if |msg.data| < 4 + 32 + 32 then Failure(NotEnoughData)
    else
      var dest :- ReadExSatAccount(host.space, msg.data, 4);
      var sender :- ReadEvmAddress(msg.data, 4 + 32);
      Success(EvmClaim(cfg.endrmngAccount, host.self, msg.sender, sender, dest))
  }

  /** The `claim2(address,address,uint256)` branch: a claim with a donate rate
      of at most 10000 basis points, narrowed to 16 bits. */
  function EndorserClaim2(host: Host, cfg: Config, msg: BridgeMessage): (r: Result<Action, Error>)
    ensures |msg.data| < 100 ==> r == Failure(NotEnoughData)
    ensures r.Success? ==>
      StakingAction(r.value, cfg.endrmngAccount, host.self, msg.sender) && r.value.EvmClaim2? && r.value.donateRate <= MaxDonateRate
  {
    if |msg.data| < 4 + 32 + 32 + 32 then Failure(NotEnoughData)
    else
      var dest :- ReadExSatAccount(host.space, msg.data, 4);
      var sender :- ReadEvmAddress(msg.data, 4 + 32);
      var value := ReadUint256(msg.data, 4 + 32 + 32).value;
      if value > MaxDonateRate then Failure(DonateRateTooLarge)
      else
        ModSmall(value, 0x1_0000);
        Success(EvmClaim2(cfg.endrmngAccount, host.self, msg.sender, sender, dest, value % 0x1_0000))
  }

  /** The `deposit` and `withdraw(address,uint256,address)` branches: recipient
      account, amount scaled down by `10^delta`, EVM sender. */
  function EndorserTransfer(host: Host, cfg: Config, msg: BridgeMessage, delta: nat, deposit: bool, isXsat: bool)
    : (r: Result<Action, Error>)
    requires delta <= 77
    ensures |msg.data| < 100 ==> r == Failure(NotEnoughData)
    ensures r.Success? ==> StakingAction(r.value, cfg.endrmngAccount, host.self, msg.sender)
    ensures r.Success? ==> EndorserFamily(r.value, if deposit then DepositType else WithdrawType, isXsat, cfg.gasSymbol, host.xsatSymbol)
  {
    if |msg.data| < 4 + 32 + 32 + 32 then Failure(NotEnoughData)
    else
      var dest :- ReadExSatAccount(host.space, msg.data, 4);
      var amount :- ReadTokenAmount(msg.data, 4 + 32, delta);
      var sender :- ReadEvmAddress(msg.data, 4 + 32 + 32);
      if deposit then
        if isXsat then Success(EvmStakeXsat(cfg.endrmngAccount, host.self, msg.sender, sender, dest, Asset(amount, host.xsatSymbol)))
        else Success(EvmStake(cfg.endrmngAccount, host.self, msg.sender, sender, dest, Asset(amount, cfg.gasSymbol)))
      else
        if isXsat then Success(EvmUnstakeXsat(cfg.endrmngAccount, host.self, msg.sender, sender, dest, Asset(amount, host.xsatSymbol)))
        else Success(EvmUnstake(cfg.endrmngAccount, host.self, msg.sender, sender, dest, Asset(amount, cfg.gasSymbol)))
  }

  /** The `restake(address,address,uint256,address)` branch: old and new
      validator accounts, amount, EVM sender. A deposit channel has no restake:
      `refused` makes the message fail once it has been read. */
  function EndorserRestake(host: Host, cfg: Config, msg: BridgeMessage, delta: nat, refused: bool)
    : (r: Result<Action, Error>)
    requires delta <= 77
    ensures r.Success? ==>
      StakingAction(r.value, cfg.endrmngAccount, host.self, msg.sender) && r.value.EvmNewStake? && r.value.quantity.symbol == cfg.gasSymbol
    ensures refused ==> r.Failure?
    ensures |msg.data| < 132 ==> r == Failure(NotEnoughData)
  {
    if |msg.data| < 4 + 32 + 32 + 32 + 32 then Failure(NotEnoughData)
    else
      var fromAcc :- ReadExSatAccount(host.space, msg.data, 4);
      var toAcc :- ReadExSatAccount(host.space, msg.data, 4 + 32);
      var amount :- ReadTokenAmount(msg.data, 4 + 32 + 32, delta);
      var sender :- ReadEvmAddress(msg.data, 4 + 32 + 32 + 32);
      if refused then Failure(InvalidOperation)
      else Success(EvmNewStake(cfg.endrmngAccount, host.self, msg.sender, sender, fromAcc, toAcc, Asset(amount, cfg.gasSymbol)))
  }

  /** `handle_rewards`: pool claim, validator claim and credit claim messages
      from the reward helper. */
  function HandleRewards(host: Host, cfg: Config, msg: BridgeMessage): (r: Result<Action, Error>)
    ensures |msg.data| < 4 ==> r == Failure(NotEnoughData)
    ensures |msg.data| >= 4 && AppType(msg.data) !in {ClaimType, VdrClaimType, CreditClaimType} ==>
      r == Failure(UnsupportedMessage)
    ensures r.Success? ==> RewardsFamily(r.value, AppType(msg.data), cfg, host.self)
    ensures |msg.data| >= 4 && AppType(msg.data) in {ClaimType, VdrClaimType} && |msg.data| < 68 ==> r == Failure(NotEnoughData)
    ensures |msg.data| >= 4 && AppType(msg.data) == CreditClaimType && |msg.data| < 100 ==> r == Failure(NotEnoughData)
  {
    if |msg.data| < 4 then Failure(NotEnoughData)
    else
      var appType := AppType(msg.data);
      if appType == ClaimType then
        if |msg.data| < 4 + 32 + 32 then Failure(NotEnoughData)
        else
          var dest :- ReadExSatAccount(host.space, msg.data, 4);
          Success(PoolClaim(cfg.poolregAccount, dest))
      else if appType == VdrClaimType then
        if |msg.data| < 4 + 32 + 32 then Failure(NotEnoughData)
        else
          var dest :- ReadExSatAccount(host.space, msg.data, 4);
          Success(VdrClaim(cfg.endrmngAccount, dest))
      else if appType == CreditClaimType then
        if |msg.data| < 4 + 32 + 32 + 32 then Failure(NotEnoughData)
        else
          var dest :- ReadExSatAccount(host.space, msg.data, 4);
          var proxy :- ReadEvmAddress(msg.data, 4 + 32);
          var sender :- ReadEvmAddress(msg.data, 4 + 32 + 32);
          Success(EvmClaim(cfg.endrmngAccount, host.self, proxy, sender, dest))
      else Failure(UnsupportedMessage)
  }

  /** `handle_gasfunds`: claim, enf claim and rams claim messages from the
      gas-funds helper. The gas claim checks for 68 bytes but then reads a
      third word, so 68 to 99 bytes fail: in `readUint256`, unless one of the
      first two words is already malformed. `receiver_type` is
      narrowed from 256 to 8 bits when the action is packed. */
  function HandleGasfunds(host: Host, cfg: Config, msg: BridgeMessage): (r: Result<Action, Error>)
    ensures |msg.data| < 4 ==> r == Failure(NotEnoughData)
    ensures |msg.data| >= 4 && AppType(msg.data) !in {GasClaimType, EnfClaimType, RamsClaimType} ==>
      r == Failure(UnsupportedMessage)
    ensures cfg.gasfundAccount.None? ==> r.Failure?
    ensures r.Success? ==> GasFamily(r.value, AppType(msg.data), cfg, host.self, msg.sender)
    ensures |msg.data| >= 4 && AppType(msg.data) == GasClaimType && |msg.data| < 68 ==> r == Failure(NotEnoughData)
    ensures |msg.data| >= 4 && AppType(msg.data) == GasClaimType && |msg.data| < 100 ==>
      r.Failure? &&
      (ReadExSatAccount(host.space, msg.data, 4).Success? && ReadEvmAddress(msg.data, 36).Success? ==> r == Failure(NotEnoughData))
    ensures |msg.data| >= 4 && AppType(msg.data) in {EnfClaimType, RamsClaimType} && |msg.data| < 36 ==> r == Failure(NotEnoughData)
  {
    if |msg.data| < 4 then Failure(NotEnoughData)
    else
      var appType := AppType(msg.data);
      if appType == GasClaimType then
        if |msg.data| < 4 + 32 + 32 then Failure(NotEnoughData)
        else
          var dest :- ReadExSatAccount(host.space, msg.data, 4);
          var sender :- ReadEvmAddress(msg.data, 4 + 32);
          var receiverType :- ReadUint256(msg.data, 4 + 32 + 32);
          if cfg.gasfundAccount.None? then Failure(GasfundAccountUnset)
          else Success(GasFundsClaim(cfg.gasfundAccount.value, host.self, msg.sender, sender, dest, receiverType % 0x100))
      else if appType == EnfClaimType || appType == RamsClaimType then
        if |msg.data| < 4 + 32 then Failure(NotEnoughData)
        else
          var dest :- ReadEvmAddress(msg.data, 4);
          if cfg.gasfundAccount.None? then Failure(GasfundAccountUnset)
          else if appType == EnfClaimType then Success(GasFundsEnfClaim(cfg.gasfundAccount.value, host.self, msg.sender, dest))
          else Success(GasFundsRamsClaim(cfg.gasfundAccount.value, host.self, msg.sender, dest))
      else Failure(UnsupportedMessage)
  }

  // -------------------------------------------------------------- the router

  /** The helper or registered proxy a message sender is recognised as. */
  datatype Channel =
    | RewardChannel
    | BtcChannel
    | XsatChannel
    | GasChannel
    | TokenChannel(row: TokenRow)
    | NoChannel

  /** The first row of the token table whose proxy address is `addr`: the
      `by.address` index lookup followed by the address comparison. */
  function FindByAddress(tokens: seq<TokenRow>, addr: seq<byte>): (r: Option<nat>)
    ensures r.Some? ==> r.value < |tokens| && tokens[r.value].address == addr
    ensures r.Some? ==> forall j :: 0 <= j < r.value ==> tokens[j].address != addr
    ensures r.None? ==> forall j :: 0 <= j < |tokens| ==> tokens[j].address != addr
  {
    if tokens == [] then None
    else if tokens[0].address == addr then Some(0)
    else
      var rest := FindByAddress(tokens[1..], addr);
      if rest.Some? then Some(rest.value + 1) else None
  }

  /** The channel of `sender`, in the router's fixed priority: reward helper,
      BTC deposit proxy, XSAT deposit proxy, gas-funds helper, token table. */
  function ChannelOf(helpers: Helpers, tokens: seq<TokenRow>, sender: seq<byte>): (ch: Channel)
    ensures ch.RewardChannel? <==> helpers.rewardHelper == sender
    ensures ch.BtcChannel? <==> helpers.rewardHelper != sender && helpers.btcDeposit == Some(sender)
    ensures ch.XsatChannel? <==>
      helpers.rewardHelper != sender && helpers.btcDeposit != Some(sender) && helpers.xsatDeposit == Some(sender)
    ensures ch.GasChannel? <==>
      && helpers.rewardHelper != sender && helpers.btcDeposit != Some(sender) && helpers.xsatDeposit != Some(sender)
      && helpers.gasFunds == Some(sender)
    ensures ch.TokenChannel? ==>
      exists i :: 0 <= i < |tokens| && tokens[i] == ch.row && tokens[i].address == sender &&
                  forall j :: 0 <= j < i ==> tokens[j].address != sender
    ensures ch.NoChannel? <==>
      && helpers.rewardHelper != sender && helpers.btcDeposit != Some(sender) && helpers.xsatDeposit != Some(sender)
      && helpers.gasFunds != Some(sender)
      && forall i :: 0 <= i < |tokens| ==> tokens[i].address != sender
  {
    if helpers.rewardHelper == sender then RewardChannel
    else if helpers.btcDeposit == Some(sender) then BtcChannel
    else if helpers.xsatDeposit == Some(sender) then XsatChannel
    else if helpers.gasFunds == Some(sender) then GasChannel
    else
      var i := FindByAddress(tokens, sender);
      if i.Some? then TokenChannel(tokens[i.value]) else NoChannel
  }

  /** Every registered token's decimals lie between the gas token's and 57
      more, as registration enforces. */
  predicate TokensInRange(tokens: seq<TokenRow>, p: nat) {
    forall i :: 0 <= i < |tokens| ==> p <= tokens[i].precision <= p + 57
  }

  /** `onbridgemsg`: checks the transport sender and the receiver, then hands
      the message to the handler of the sender's channel. */
  function Route(host: Host, config: Option<Config>, helpers: Option<Helpers>, tokens: seq<TokenRow>,
                 transportSender: Name, msg: BridgeMessage): (r: Result<Action, Error>)
    requires config.Some? ==> TokensInRange(tokens, config.value.gasSymbol.precision)
    ensures config.None? ==> r == Failure(ConfigMissing)
    ensures config.Some? && transportSender != config.value.evmAccount ==> r == Failure(InvalidTransportSender)
    ensures config.Some? && transportSender == config.value.evmAccount && msg.receiver != host.self ==>
      r == Failure(InvalidMessageReceiver)
    ensures config.Some? && transportSender == config.value.evmAccount && msg.receiver == host.self && helpers.None? ==>
      r == Failure(ConfigMissing)
    ensures r.Success? ==> config.Some? && helpers.Some? && ChannelOf(helpers.value, tokens, msg.sender) != NoChannel
  {
    if config.None? then Failure(ConfigMissing)
    else
      var cfg := config.value;
      if transportSender != cfg.evmAccount then Failure(InvalidTransportSender)
      else if msg.receiver != host.self then Failure(InvalidMessageReceiver)
      else if helpers.None? then Failure(ConfigMissing)
      else
        match ChannelOf(helpers.value, tokens, msg.sender)
        case RewardChannel => HandleRewards(host, cfg, msg)
        case BtcChannel => HandleEndorserStakes(host, cfg, msg, DepositDelta, true, false)
        case XsatChannel => HandleEndorserStakes(host, cfg, msg, DepositDelta, true, true)
        case GasChannel => HandleGasfunds(host, cfg, msg)
        case TokenChannel(row) =>
          assert row in tokens;
          HandleEndorserStakes(host, cfg, msg, row.precision - cfg.gasSymbol.precision, false, false)
        case NoChannel => Failure(Erc20NotRegistered)
  }

  // ------------------------------------------------------- what comes out

  /** An action for the staking collaborator, sent on behalf of this contract
      for the proxy that sent the message. */
  predicate StakingAction(a: Action, endrmng: Name, self: Name, proxy: seq<byte>) {
    match a
    case EvmClaim(acc, caller, p, _, _) => acc == endrmng && caller == self && p == proxy
    case EvmClaim2(acc, caller, p, _, _, _) => acc == endrmng && caller == self && p == proxy
    case EvmStake(acc, caller, p, _, _, _) => acc == endrmng && caller == self && p == proxy
    case EvmUnstake(acc, caller, p, _, _, _) => acc == endrmng && caller == self && p == proxy
    case EvmStakeXsat(acc, caller, p, _, _, _) => acc == endrmng && caller == self && p == proxy
    case EvmUnstakeXsat(acc, caller, p, _, _, _) => acc == endrmng && caller == self && p == proxy
    case EvmNewStake(acc, caller, p, _, _, _, _) => acc == endrmng && caller == self && p == proxy
    case _ => false
  }

  /** Which staking action each endorser selector asks for, and in which
      token. Deposits stake, withdrawals unstake; the XSAT channel uses the
      XSAT variants and symbol, every other channel the gas token. */
  predicate EndorserFamily(a: Action, appType: nat, isXsat: bool, gasSymbol: Symbol, xsatSymbol: Symbol) {
    if appType == ClaimType then a.EvmClaim?
    else if appType == Claim2Type then a.EvmClaim2? && a.donateRate <= MaxDonateRate
    else if appType == DepositType then
      if isXsat then a.EvmStakeXsat? && a.quantity.symbol == xsatSymbol
      else a.EvmStake? && a.quantity.symbol == gasSymbol
    else if appType == WithdrawType then
      if isXsat then a.EvmUnstakeXsat? && a.quantity.symbol == xsatSymbol
      else a.EvmUnstake? && a.quantity.symbol == gasSymbol
    else if appType == RestakeType then a.EvmNewStake? && a.quantity.symbol == gasSymbol
    else false
  }

  /** Which collaborator each rewards selector reaches. */
  predicate RewardsFamily(a: Action, appType: nat, cfg: Config, self: Name) {
    if appType == ClaimType then a.PoolClaim? && a.account == cfg.poolregAccount
    else if appType == VdrClaimType then a.VdrClaim? && a.account == cfg.endrmngAccount
    else if appType == CreditClaimType then a.EvmClaim? && a.account == cfg.endrmngAccount && a.caller == self
    else false
  }

  /** Which gas-fund action each gas-funds selector asks for. */
  predicate GasFamily(a: Action, appType: nat, cfg: Config, self: Name, proxy: seq<byte>) {
    cfg.gasfundAccount.Some? &&
    if appType == GasClaimType then
      a.GasFundsClaim? && a.account == cfg.gasfundAccount.value && a.caller == self && a.proxy == proxy && a.receiverType < 0x100
    else if appType == EnfClaimType then
      a.GasFundsEnfClaim? && a.account == cfg.gasfundAccount.value && a.caller == self && a.proxy == proxy
    else if appType == RamsClaimType then
      a.GasFundsRamsClaim? && a.account == cfg.gasfundAccount.value && a.caller == self && a.proxy == proxy
    else false
  }
}
