/** What `onbridgemsg` does with a message, end to end: which handler each
    sender reaches, what can come out of each channel, and that every message
    an EVM-side contract encodes for its channel comes out as the action it
    asks for. */
module Routing {
  import opened Wrappers
  import opened Bytes
  import opened Eosio
  import opened Host
  import opened Errors
  import opened Abi
  import opened EvmutilTypes
  import opened Bridge
  import opened MessageCodec

  /** The message passed the transport and receiver checks. */
  predicate Admitted(host: Host, config: Option<Config>, helpers: Option<Helpers>, transportSender: Name, msg: BridgeMessage) {
    config.Some? && helpers.Some? && transportSender == config.value.evmAccount && msg.receiver == host.self
  }

  /** The decimals by which a staking channel scales amounts: the fixed `10`
      of the deposit proxies, the token's extra decimals for a token proxy. */
  function ChannelDelta(cfg: Config, ch: Channel): (delta: nat)
    requires ch.TokenChannel? ==> cfg.gasSymbol.precision <= ch.row.precision <= cfg.gasSymbol.precision + 57
    ensures delta <= 77
    ensures ch.TokenChannel? ==> cfg.gasSymbol.precision + delta == ch.row.precision
    ensures !ch.TokenChannel? ==> delta == DepositDelta
  {
    match ch
    case TokenChannel(row) => row.precision - cfg.gasSymbol.precision
    case _ => DepositDelta
  }

  /** The row a token channel names is one of the table's rows. */
  lemma TokenChannelRow(h: Helpers, tokens: seq<TokenRow>, sender: seq<byte>)
    requires ChannelOf(h, tokens, sender).TokenChannel?
    ensures ChannelOf(h, tokens, sender).row in tokens
    ensures ChannelOf(h, tokens, sender).row.address == sender
  {
    var i := FindByAddress(tokens, sender);
    assert tokens[i.value] in tokens;
  }

  /** A sender known neither as a helper, a deposit proxy nor a token proxy
      is refused once the message is admitted; every known sender has a
      channel. */
  lemma UnknownSenderRefused(host: Host, config: Option<Config>, helpers: Option<Helpers>, tokens: seq<TokenRow>,
                             transportSender: Name, msg: BridgeMessage)
    requires config.Some? ==> TokensInRange(tokens, config.value.gasSymbol.precision)
    ensures Admitted(host, config, helpers, transportSender, msg) && ChannelOf(helpers.value, tokens, msg.sender) == NoChannel ==>
      Route(host, config, helpers, tokens, transportSender, msg) == Failure(Erc20NotRegistered)
    ensures Admitted(host, config, helpers, transportSender, msg) ==>
      (ChannelOf(helpers.value, tokens, msg.sender) != NoChannel <==>
       || helpers.value.rewardHelper == msg.sender
       || helpers.value.btcDeposit == Some(msg.sender)
       || helpers.value.xsatDeposit == Some(msg.sender)
       || helpers.value.gasFunds == Some(msg.sender)
       || exists i :: 0 <= i < |tokens| && tokens[i].address == msg.sender)
  {
    if Admitted(host, config, helpers, transportSender, msg) {
      var h := helpers.value;
      if exists i :: 0 <= i < |tokens| && tokens[i].address == msg.sender {
        var i :| 0 <= i < |tokens| && tokens[i].address == msg.sender;
        assert FindByAddress(tokens, msg.sender).Some?;
      }
    }
  }

  /** What can come out of each channel: the reward helper only reaches the
      pool and staking collaborators' claims, the gas-funds helper only the
      gas-fund claims, and a deposit proxy only claims, stakes and unstakes,
      never a restake. Only a token proxy can restake. */
  lemma {:induction false} ChannelOutcomes(host: Host, config: Option<Config>, helpers: Option<Helpers>, tokens: seq<TokenRow>,
                                           transportSender: Name, msg: BridgeMessage)
    requires config.Some? ==> TokensInRange(tokens, config.value.gasSymbol.precision)
    ensures var r := Route(host, config, helpers, tokens, transportSender, msg);
            r.Success? ==>
            && Admitted(host, config, helpers, transportSender, msg)
            && var cfg := config.value;
               var ch := ChannelOf(helpers.value, tokens, msg.sender);
               var t := AppType(msg.data);
               match ch
               case RewardChannel => RewardsFamily(r.value, t, cfg, host.self)
               case BtcChannel => EndorserFamily(r.value, t, false, cfg.gasSymbol, host.xsatSymbol) && !r.value.EvmNewStake?
               case XsatChannel => EndorserFamily(r.value, t, true, cfg.gasSymbol, host.xsatSymbol) && !r.value.EvmNewStake?
               case GasChannel => GasFamily(r.value, t, cfg, host.self, msg.sender)
               case TokenChannel(_) => EndorserFamily(r.value, t, false, cfg.gasSymbol, host.xsatSymbol)
               case NoChannel => false
  {
    var r := Route(host, config, helpers, tokens, transportSender, msg);
    if r.Success? {
      var cfg := config.value;
      var ch := ChannelOf(helpers.value, tokens, msg.sender);
      match ch
      case RewardChannel =>
        assert r == HandleRewards(host, cfg, msg);
      case BtcChannel =>
        assert r == HandleEndorserStakes(host, cfg, msg, DepositDelta, true, false);
      case XsatChannel =>
        assert r == HandleEndorserStakes(host, cfg, msg, DepositDelta, true, true);
      case GasChannel =>
        assert r == HandleGasfunds(host, cfg, msg);
      case TokenChannel(row) =>
        TokenChannelRow(helpers.value, tokens, msg.sender);
        assert r == HandleEndorserStakes(host, cfg, msg, row.precision - cfg.gasSymbol.precision, false, false);
      case NoChannel =>
    }
  }

  /** An admitted message from a deposit or token proxy goes to the staking
      handler with its channel's scaling; only a token proxy may restake. */
  lemma RouteStaking(host: Host, cfg: Config, h: Helpers, tokens: seq<TokenRow>, msg: BridgeMessage)
    requires TokensInRange(tokens, cfg.gasSymbol.precision) && msg.receiver == host.self
    requires ChannelOf(h, tokens, msg.sender).BtcChannel? || ChannelOf(h, tokens, msg.sender).XsatChannel? ||
             ChannelOf(h, tokens, msg.sender).TokenChannel?
    ensures ChannelOf(h, tokens, msg.sender).TokenChannel? ==>
      cfg.gasSymbol.precision <= ChannelOf(h, tokens, msg.sender).row.precision <= cfg.gasSymbol.precision + 57
    ensures var ch := ChannelOf(h, tokens, msg.sender);
            Route(host, Some(cfg), Some(h), tokens, cfg.evmAccount, msg)
            == HandleEndorserStakes(host, cfg, msg, ChannelDelta(cfg, ch), !ch.TokenChannel?, ch.XsatChannel?)
  {
    if ChannelOf(h, tokens, msg.sender).TokenChannel? {
      TokenChannelRow(h, tokens, msg.sender);
    }
  }

  /** An admitted message from the reward helper goes to the rewards
      handler. */
  lemma RouteRewards(host: Host, cfg: Config, h: Helpers, tokens: seq<TokenRow>, msg: BridgeMessage)
    requires TokensInRange(tokens, cfg.gasSymbol.precision) && msg.receiver == host.self
    requires ChannelOf(h, tokens, msg.sender) == RewardChannel
    ensures Route(host, Some(cfg), Some(h), tokens, cfg.evmAccount, msg) == HandleRewards(host, cfg, msg)
  {
  }

  /** An admitted message from the gas-funds helper goes to the gas-funds
      handler. */
  lemma RouteGas(host: Host, cfg: Config, h: Helpers, tokens: seq<TokenRow>, msg: BridgeMessage)
    requires TokensInRange(tokens, cfg.gasSymbol.precision) && msg.receiver == host.self
    requires ChannelOf(h, tokens, msg.sender) == GasChannel
    ensures Route(host, Some(cfg), Some(h), tokens, cfg.evmAccount, msg) == HandleGasfunds(host, cfg, msg)
  {
  }

  /** A message that starts with a staking call encoded by the proxy of a
      deposit or token channel, with the channel's scaling, reaches the
      staking collaborator as the call it encodes; the XSAT proxy's stakes are
      in XSAT. */
  lemma StakingRoundTrip(host: Host, cfg: Config, h: Helpers, tokens: seq<TokenRow>, proxy: seq<byte>, c: EndorserCall,
                         data: seq<byte>)
    requires Coherent(host.space) && TokensInRange(tokens, cfg.gasSymbol.precision)
    requires ChannelOf(h, tokens, proxy).BtcChannel? || ChannelOf(h, tokens, proxy).XsatChannel? ||
             ChannelOf(h, tokens, proxy).TokenChannel?
    ensures ChannelOf(h, tokens, proxy).TokenChannel? ==> ChannelOf(h, tokens, proxy).row in tokens
    ensures var ch := ChannelOf(h, tokens, proxy);
            var delta := ChannelDelta(cfg, ch);
            Acceptable(c, delta) && (c.RestakeCall? ==> ch.TokenChannel?) && EncodeEndorser(host.space, c, delta) <= data ==>
            Route(host, Some(cfg), Some(h), tokens, cfg.evmAccount, BridgeMessage(host.self, proxy, data))
            == Success(EndorserAction(host, cfg, proxy, c, ch.XsatChannel?))
  {
    var ch := ChannelOf(h, tokens, proxy);
    if ch.TokenChannel? {
      TokenChannelRow(h, tokens, proxy);
    }
    var delta := ChannelDelta(cfg, ch);
    if Acceptable(c, delta) && (c.RestakeCall? ==> ch.TokenChannel?) && EncodeEndorser(host.space, c, delta) <= data {
      var msg := BridgeMessage(host.self, proxy, data);
      RouteStaking(host, cfg, h, tokens, msg);
      EndorserRoundTrip(host, cfg, msg, c, delta, !ch.TokenChannel?, ch.XsatChannel?);
    }
  }

  /** The converse of `StakingRoundTrip`: what a deposit or token proxy gets
      through to the staking collaborator is an acceptable call, starting its
      message and scaled by the channel, and never a restake from a deposit
      proxy. */
  lemma StakingSound(host: Host, cfg: Config, h: Helpers, tokens: seq<TokenRow>, msg: BridgeMessage)
    requires Coherent(host.space) && TokensInRange(tokens, cfg.gasSymbol.precision) && msg.receiver == host.self
    requires ChannelOf(h, tokens, msg.sender).BtcChannel? || ChannelOf(h, tokens, msg.sender).XsatChannel? ||
             ChannelOf(h, tokens, msg.sender).TokenChannel?
    ensures ChannelOf(h, tokens, msg.sender).TokenChannel? ==>
      cfg.gasSymbol.precision <= ChannelOf(h, tokens, msg.sender).row.precision <= cfg.gasSymbol.precision + 57
    ensures var ch := ChannelOf(h, tokens, msg.sender);
            var delta := ChannelDelta(cfg, ch);
            var r := Route(host, Some(cfg), Some(h), tokens, cfg.evmAccount, msg);
            r.Success? ==>
            exists c :: && EndorserEncoded(host.space, c, delta, msg.data) && Acceptable(c, delta)
                        && (c.RestakeCall? ==> ch.TokenChannel?)
                        && r.value == EndorserAction(host, cfg, msg.sender, c, ch.XsatChannel?)
  {
    var ch := ChannelOf(h, tokens, msg.sender);
    RouteStaking(host, cfg, h, tokens, msg);
    EndorserSound(host, cfg, msg, ChannelDelta(cfg, ch), !ch.TokenChannel?, ch.XsatChannel?);
  }

  /** A message that starts with a restake, sent by a deposit proxy, is read
      and then refused. */
  lemma RestakeRefusedOnDeposit(host: Host, cfg: Config, h: Helpers, tokens: seq<TokenRow>, proxy: seq<byte>,
                                v: Name, v': Name, amount: Int64, staker: Address, data: seq<byte>)
    requires Coherent(host.space) && TokensInRange(tokens, cfg.gasSymbol.precision)
    requires ChannelOf(h, tokens, proxy).BtcChannel? || ChannelOf(h, tokens, proxy).XsatChannel?
    requires Acceptable(RestakeCall(v, v', amount, staker), DepositDelta)
    requires EncodeEndorser(host.space, RestakeCall(v, v', amount, staker), DepositDelta) <= data
    ensures Route(host, Some(cfg), Some(h), tokens, cfg.evmAccount, BridgeMessage(host.self, proxy, data))
            == Failure(InvalidOperation)
  {
    var msg := BridgeMessage(host.self, proxy, data);
    RouteStaking(host, cfg, h, tokens, msg);
    RestakeRefused(host, cfg, msg, v, v', amount, staker, DepositDelta, true, ChannelOf(h, tokens, proxy).XsatChannel?);
  }

  /** A message from the reward helper that starts with a rewards call
      reaches the collaborator it names. */
  lemma RewardsRouted(host: Host, cfg: Config, h: Helpers, tokens: seq<TokenRow>, c: RewardsCall, data: seq<byte>)
    requires Coherent(host.space) && TokensInRange(tokens, cfg.gasSymbol.precision)
    requires EncodeRewards(host.space, c) <= data
    ensures Route(host, Some(cfg), Some(h), tokens, cfg.evmAccount, BridgeMessage(host.self, h.rewardHelper, data))
            == Success(RewardsAction(host, cfg, c))
  {
    var msg := BridgeMessage(host.self, h.rewardHelper, data);
    RouteRewards(host, cfg, h, tokens, msg);
    RewardsRoundTrip(host, cfg, msg, c);
  }

  /** A message from the gas-funds helper that starts with a gas-funds call
      reaches the gas-fund collaborator, when one is configured. */
  lemma GasRouted(host: Host, cfg: Config, h: Helpers, tokens: seq<TokenRow>, proxy: seq<byte>, c: GasCall, data: seq<byte>)
    requires Coherent(host.space) && TokensInRange(tokens, cfg.gasSymbol.precision)
    requires ChannelOf(h, tokens, proxy) == GasChannel
    requires GasEncoded(host.space, c, data)
    ensures var r := Route(host, Some(cfg), Some(h), tokens, cfg.evmAccount, BridgeMessage(host.self, proxy, data));
            && (cfg.gasfundAccount.Some? ==> r == Success(GasAction(host, cfg.gasfundAccount.value, proxy, c)))
            && (cfg.gasfundAccount.None? ==> r == Failure(GasfundAccountUnset))
  {
    var msg := BridgeMessage(host.self, proxy, data);
    RouteGas(host, cfg, h, tokens, msg);
    GasRoundTrip(host, cfg, msg, c);
  }
}
