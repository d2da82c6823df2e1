/** The bridge contract's persistent state — the `config` and `helpers`
    singletons, the token table and the implementation-contract table — and
    its actions. Every action either fails and changes nothing, or changes
    the tables it names and appends the actions it sends to `sent`. */
module EvmutilContract {
  import opened Wrappers
  import opened Bytes
  import opened Eosio
  import opened Host
  import opened Errors
  import opened Abi
  import opened EvmutilTypes
  import opened Bridge
  import opened CallData

  // ---------------------------------------------------------- table helpers

  /** `token_symbol_key`: the contract name in the high 64 bits of a 128-bit
      key, the symbol code in the low 64 bits. */
  function TokenSymbolKey(contract: Name, code: Name): (k: nat)
    ensures k < 0x1_0000_0000_0000_0000_0000_0000_0000_0000
  {
    contract * TwoTo64 + code
  }

  /** The key determines both of its parts. */
  lemma TokenSymbolKeyParts(contract: Name, code: Name)
    ensures TokenSymbolKey(contract, code) / TwoTo64 == contract
    ensures TokenSymbolKey(contract, code) % TwoTo64 == code
  {
  }

  /** Distinct (contract, symbol) pairs have distinct keys. */
  lemma TokenSymbolKeyInjective(c1: Name, s1: Name, c2: Name, s2: Name)
    ensures TokenSymbolKey(c1, s1) == TokenSymbolKey(c2, s2) <==> c1 == c2 && s1 == s2
  {
    TokenSymbolKeyParts(c1, s1);
    TokenSymbolKeyParts(c2, s2);
  }

  /** A hex address argument: parsed by `from_hex`, then required to be 20
      bytes long, with the action's own two error messages. */
  function ParseAddress(fromHex: string -> Option<seq<byte>>, s: string, badHex: Error, badLength: Error)
    : (r: Result<Address, Error>)
    ensures fromHex(s).None? ==> r == Failure(badHex)
    ensures fromHex(s).Some? && |fromHex(s).value| != 20 ==> r == Failure(badLength)
    ensures r.Success? <==> fromHex(s).Some? && |fromHex(s).value| == 20
    ensures r.Success? ==> r.value == fromHex(s).value
  {
    var bytes := fromHex(s);
    if bytes.None? then Failure(badHex)
    else if |bytes.value| != 20 then Failure(badLength)
    else Success(bytes.value)
  }

  /** The first row whose ERC-20 address is `a`: the `by.tokenaddr` lookup. */
  function FindByTokenAddress(tokens: seq<TokenRow>, a: Address): (r: Option<nat>)
    ensures r.Some? ==> r.value < |tokens| && tokens[r.value].tokenAddress == a
    ensures r.Some? ==> forall j :: 0 <= j < r.value ==> tokens[j].tokenAddress != a
    ensures r.None? ==> forall j :: 0 <= j < |tokens| ==> tokens[j].tokenAddress != a
  {
    if tokens == [] then None
    else if tokens[0].tokenAddress == a then Some(0)
    else
      var rest := FindByTokenAddress(tokens[1..], a);
      if rest.Some? then Some(rest.value + 1) else None
  }

  /** `available_primary_key()` of the token table: one past the last key. */
  function NextTokenId(tokens: seq<TokenRow>): (id: nat)
    ensures forall i :: 0 <= i < |tokens| && TokenIdsAscending(tokens) ==> tokens[i].id < id
  {
    if tokens == [] then 0 else tokens[|tokens| - 1].id + 1
  }

  /** `available_primary_key()` of the implementation-contract table. */
  function NextImplId(impls: seq<ImplRow>): (id: nat)
    ensures forall i :: 0 <= i < |impls| && ImplIdsAscending(impls) ==> impls[i].id < id
  {
    if impls == [] then 0 else impls[|impls| - 1].id + 1
  }

  /** Rows are kept in primary-key order. */
  predicate TokenIdsAscending(tokens: seq<TokenRow>) {
    forall i, j :: 0 <= i < j < |tokens| ==> tokens[i].id < tokens[j].id
  }

  predicate ImplIdsAscending(impls: seq<ImplRow>) {
    forall i, j :: 0 <= i < j < |impls| ==> impls[i].id < impls[j].id
  }

  /** No ERC-20 token is registered twice. */
  predicate TokenAddressesDistinct(tokens: seq<TokenRow>) {
    forall i, j :: 0 <= i < j < |tokens| ==> tokens[i].tokenAddress != tokens[j].tokenAddress
  }

  /** The next nonce of the contract's reserved address in the EVM's nonce
      table, 0 when it has no row yet. */
  function NonceOf(nonces: map<Name, nat>, owner: Name): (n: nat)
    ensures owner in nonces ==> n == nonces[owner]
    ensures owner !in nonces ==> n == 0
  {
    if owner in nonces then nonces[owner] else 0
  }

  /** The deposit-proxy slot of the helpers singleton. */
  function DepositSlot(h: Helpers, xsat: bool): Option<seq<byte>> {
    if xsat then h.xsatDeposit else h.btcDeposit
  }

  function WithDeposit(h: Helpers, xsat: bool, a: seq<byte>): Helpers {
    if xsat then h.(xsatDeposit := Some(a)) else h.(btcDeposit := Some(a))
  }

  /** The checks `dpyvlddepbtc` and `dpyvlddepsat` make before deploying:
      the helpers exist, the slot is still empty, an implementation contract
      exists, and the token address is well formed. */
  function DepositPrecheck(fromHex: string -> Option<seq<byte>>, helpers: Option<Helpers>, impls: seq<ImplRow>,
                           xsat: bool, tokenAddress: string): (r: Result<Address, Error>)
    ensures helpers.None? ==> r == Failure(ConfigMissing)
    ensures helpers.Some? && DepositSlot(helpers.value, xsat).Some? && DepositSlot(helpers.value, xsat).value != [] ==>
      r == Failure(CannotDeployAgain)
    ensures r.Success? ==>
      helpers.Some? && impls != [] && (DepositSlot(helpers.value, xsat).None? || DepositSlot(helpers.value, xsat).value == []) &&
      r == ParseAddress(fromHex, tokenAddress, InvalidTokenAddress, InvalidTokenLength)
  {
    if helpers.None? then Failure(ConfigMissing)
    else
      var slot := DepositSlot(helpers.value, xsat);
      if slot.Some? && slot.value != [] then Failure(CannotDeployAgain)
      else if impls == [] then Failure(NoImplContract)
      else ParseAddress(fromHex, tokenAddress, InvalidTokenAddress, InvalidTokenLength)
  }

  /** A deposit slot filled by a deployment is never deployed into again. */
  lemma DeployOnce(fromHex: string -> Option<seq<byte>>, h: Helpers, impls: seq<ImplRow>, xsat: bool,
                   a: Address, tokenAddress: string)
    ensures DepositPrecheck(fromHex, Some(WithDeposit(h, xsat, a)), impls, xsat, tokenAddress) == Failure(CannotDeployAgain)
    ensures DepositSlot(WithDeposit(h, xsat, a), !xsat) == DepositSlot(h, !xsat)
  {
    assert DepositSlot(WithDeposit(h, xsat, a), xsat) == Some(a);
  }

  /** The checks of `deploy_stake_helper_proxy`, in its order: implementation
      address length, config, ERC-20 decimals within 57 of the fee's, fee in
      the gas token. */
  function DeployCheck(config: Option<Config>, impl: seq<byte>, fee: Asset, precision: nat): (r: Outcome<Error>)
    ensures |impl| != 20 ==> r == Fail(InvalidImplLength)
    ensures |impl| == 20 && config.None? ==> r == Fail(ConfigMissing)
    ensures r.Pass? <==>
      && |impl| == 20 && config.Some? && fee.symbol == config.value.gasSymbol
      && fee.symbol.precision <= precision <= fee.symbol.precision + 57
    ensures r.Fail? ==> r.error in {InvalidImplLength, ConfigMissing, PrecisionOutOfRange, FeeSymbolMismatch}
  {
    if |impl| != 20 then Fail(InvalidImplLength)
    else if config.None? then Fail(ConfigMissing)
    else if !(fee.symbol.precision <= precision <= fee.symbol.precision + 57) then Fail(PrecisionOutOfRange)
    else if fee.symbol != config.value.gasSymbol then Fail(FeeSymbolMismatch)
    else Pass
  }

  /** The row at index `i` taken out of the table. */
  function RemoveAt(tokens: seq<TokenRow>, i: nat): (t: seq<TokenRow>)
    requires i < |tokens|
    ensures |t| == |tokens| - 1
  {
    tokens[..i] + tokens[i + 1..]
  }

  /** The rows left after erasing index `i`, by position. */
  lemma RemoveAtIndex(tokens: seq<TokenRow>, i: nat)
    requires i < |tokens|
    ensures forall k :: 0 <= k < |RemoveAt(tokens, i)| ==>
      RemoveAt(tokens, i)[k] == if k < i then tokens[k] else tokens[k + 1]
  {
    var t := RemoveAt(tokens, i);
    forall k | 0 <= k < |t|
      ensures t[k] == if k < i then tokens[k] else tokens[k + 1]
    {
      if k < i {
        assert t[k] == tokens[..i][k];
      } else {
        assert t[k] == tokens[i + 1..][k - i];
      }
    }
  }

  /** The rows left after erasing index `i` are the rows at every other
      index. */
  lemma RemoveAtMembers(tokens: seq<TokenRow>, i: nat, row: TokenRow)
    requires i < |tokens|
    ensures row in RemoveAt(tokens, i) <==> exists k :: 0 <= k < |tokens| && k != i && tokens[k] == row
  {
    var t := RemoveAt(tokens, i);
    RemoveAtIndex(tokens, i);
    if row in t {
      var k :| 0 <= k < |t| && t[k] == row;
      var k' := if k < i then k else k + 1;
      assert tokens[k'] == row;
    }
    if exists k :: 0 <= k < |tokens| && k != i && tokens[k] == row {
      var k :| 0 <= k < |tokens| && k != i && tokens[k] == row;
      assert t[if k < i then k else k - 1] == row;
    }
  }

  /** Erasing a row keeps the remaining rows in the same relative order. */
  lemma RemoveAtKeepsOrder(tokens: seq<TokenRow>, i: nat)
    requires i < |tokens|
    ensures TokenAddressesDistinct(tokens) ==> TokenAddressesDistinct(RemoveAt(tokens, i))
    ensures TokenIdsAscending(tokens) ==> TokenIdsAscending(RemoveAt(tokens, i))
  {
    var t := RemoveAt(tokens, i);
    RemoveAtIndex(tokens, i);
    forall p, q | 0 <= p < q < |t|
      ensures exists p', q' :: 0 <= p' < q' < |tokens| && t[p] == tokens[p'] && t[q] == tokens[q']
    {
      var p', q' := if p < i then p else p + 1, if q < i then q else q + 1;
      assert t[p] == tokens[p'] && t[q] == tokens[q'];
    }
  }

  /** Erasing the row found for an ERC-20 address from a table without
      duplicate addresses removes exactly the rows with that address and
      keeps the others in order. */
  lemma {:induction false} UnregisterErasesOne(tokens: seq<TokenRow>, a: Address)
    requires TokenAddressesDistinct(tokens) && FindByTokenAddress(tokens, a).Some?
    ensures var t := RemoveAt(tokens, FindByTokenAddress(tokens, a).value);
            && (forall row :: row in t <==> row in tokens && row.tokenAddress != a)
            && TokenAddressesDistinct(t)
            && (TokenIdsAscending(tokens) ==> TokenIdsAscending(t))
            && FindByTokenAddress(t, a).None?
  {
    var i := FindByTokenAddress(tokens, a).value;
    var t := RemoveAt(tokens, i);
    forall row
      ensures row in t <==> row in tokens && row.tokenAddress != a
    {
      RemoveAtMembers(tokens, i, row);
      if row in tokens && row.tokenAddress != a {
        var k :| 0 <= k < |tokens| && tokens[k] == row;
        assert k != i;
      }
    }
    RemoveAtKeepsOrder(tokens, i);
    assert forall k :: 0 <= k < |t| ==> t[k] in t;
  }

  /** A registered ERC-20 address is found again, so it cannot be registered
      twice. */
  lemma RegisteredIsFound(tokens: seq<TokenRow>, row: TokenRow)
    ensures FindByTokenAddress(tokens + [row], row.tokenAddress).Some?
    ensures FindByTokenAddress(tokens, row.tokenAddress).None? ==>
      FindByTokenAddress(tokens + [row], row.tokenAddress) == Some(|tokens|)
  {
    var t := tokens + [row];
    assert t[|tokens|].tokenAddress == row.tokenAddress;
    if FindByTokenAddress(tokens, row.tokenAddress).None? {
      assert forall j :: 0 <= j < |tokens| ==> t[j] == tokens[j];
    }
  }

  // ---------------------------------------------------------------- contract

  class Evmutil {
    const host: Host
    var config: Option<Config>
    var helpers: Option<Helpers>
    var tokens: seq<TokenRow>
    var implContracts: seq<ImplRow>
    /** The actions sent so far, in order. */
    var sent: seq<Action>

    /** Helpers exist exactly when the config does; every token's decimals are
        within 57 above the gas token's (the native symbol's while there is
        no config); tables are in key order; no ERC-20 token is registered
        twice. */
    ghost predicate Valid()
      reads this
    {
      && helpers.Some? == config.Some?
      && TokensInRange(tokens, GasPrecision())
      && TokenIdsAscending(tokens)
      && ImplIdsAscending(implContracts)
      && TokenAddressesDistinct(tokens)
    }

    function GasPrecision(): nat
      reads this
    {
      if config.Some? then config.value.gasSymbol.precision else host.defaultNativeSymbol.precision
    }

    constructor(host: Host)
      ensures Valid() && this.host == host
      ensures config.None? && helpers.None? && tokens == [] && implContracts == [] && sent == []
    {
      this.host := host;
      config := None;
      helpers := None;
      tokens := [];
      implContracts := [];
      sent := [];
    }

    /** The address a CREATE from the contract's reserved address yields. */
    function Created(nonce: nat): Address {
      host.space.createAddress(host.space.makeReserved(host.self), nonce)
    }

    /** What a deployment sends: the nonce assertion, then the creating call
        from the contract to the empty address with zero value. */
    function DeployActions(cfg: Config, nonce: nat, code: seq<byte>): seq<Action> {
      [AssertNonce(cfg.evmAccount, host.self, nonce), EvmCall(cfg.evmAccount, host.self, [], Zeros(32), code, cfg.initGasLimit)]
    }

    /** The call data of a proxy deployment. */
    function ProxyDeployment(cfg: Config, erc20: Address, impl: Address, fee: Asset, notBtc: bool, isValidator: bool)
      : seq<byte>
    {
      var feeEvm := FeeWord(fee.amount, MinimumNative(host.evmPrecision, cfg.gasSymbol.precision));
      ProxyCallData(host.proxyCode, impl,
                    ProxyInitData(host.space.makeReserved(host.self), host.space.makeReserved(cfg.evmAccount), erc20,
                                  feeEvm, notBtc, isValidator))
    }

    /** One proxy deployment: its actions in terms of the nonce. */
    function ProxyActions(cfg: Config, erc20: Address, impl: Address, fee: Asset, notBtc: bool, isValidator: bool,
                          nonces: map<Name, nat>): seq<Action>
    {
      DeployActions(cfg, NonceOf(nonces, host.self), ProxyDeployment(cfg, erc20, impl, fee, notBtc, isValidator))
    }

    // ------------------------------------------------------------ config

    /** `init` */
    method Init(evmAccount: Name, gasSymbol: Symbol, gasLimit: Uint64, initGasLimit: Uint64) returns (r: Outcome<Error>)
      requires Valid()
      modifies this
      ensures Valid()
      ensures old(config).Some? ==> r == Fail(ConfigAlreadyInitialized)
      ensures old(config).None? && old(tokens) != [] && !(evmAccount == host.defaultEvmAccount && gasSymbol == host.defaultNativeSymbol) ==>
        r == Fail(OnlyNativeSymbol)
      ensures r.Pass? <==>
        old(config).None? && (old(tokens) == [] || (evmAccount == host.defaultEvmAccount && gasSymbol == host.defaultNativeSymbol))
      ensures r.Fail? ==> unchanged(this)
      ensures r.Pass? ==>
        && config == Some(Config(evmAccount, gasSymbol, gasLimit, initGasLimit, host.defaultEndrmngAccount, host.defaultPoolregAccount, None))
        && helpers == Some(Helpers([], None, None, None))
        && tokens == old(tokens) && implContracts == old(implContracts) && sent == old(sent)
    {
      if config.Some? {
        return Fail(ConfigAlreadyInitialized);
      }
      if tokens != [] && !(evmAccount == host.defaultEvmAccount && gasSymbol == host.defaultNativeSymbol) {
        return Fail(OnlyNativeSymbol);
      }
      config := Some(Config(evmAccount, gasSymbol, gasLimit, initGasLimit, host.defaultEndrmngAccount, host.defaultPoolregAccount, None));
      helpers := Some(Helpers([], None, None, None));
      r := Pass;
    }

    /** `setgaslimit`: each limit given replaces the configured one. */
    method SetGasLimit(gasLimit: Option<Uint64>, initGasLimit: Option<Uint64>) returns (r: Outcome<Error>)
      requires Valid()
      modifies this
      ensures Valid()
      ensures old(config).None? <==> r == Fail(ConfigMissing)
      ensures r.Pass? <==> old(config).Some?
      ensures r.Fail? ==> unchanged(this)
      ensures r.Pass? ==>
        && config.Some?
        && config.value.gasLimit == (if gasLimit.Some? then gasLimit.value else old(config).value.gasLimit)
        && config.value.initGasLimit == (if initGasLimit.Some? then initGasLimit.value else old(config).value.initGasLimit)
        && config.value.(gasLimit := 0, initGasLimit := 0) == old(config).value.(gasLimit := 0, initGasLimit := 0)
        && helpers == old(helpers) && tokens == old(tokens) && implContracts == old(implContracts) && sent == old(sent)
    {
      if config.None? {
        return Fail(ConfigMissing);
      }
      var cfg := config.value;
      if gasLimit.Some? {
        cfg := cfg.(gasLimit := gasLimit.value);
      }
      if initGasLimit.Some? {
        cfg := cfg.(initGasLimit := initGasLimit.value);
      }
      config := Some(cfg);
      r := Pass;
    }

    /** `initgasfund`: installs the default gas-fund account unless one is set. */
    method InitGasFund() returns (r: Outcome<Error>)
      requires Valid()
      modifies this
      ensures Valid()
      ensures old(config).None? <==> r == Fail(ConfigMissing)
      ensures r.Pass? <==> old(config).Some?
      ensures r.Fail? ==> unchanged(this)
      ensures r.Pass? ==>
        && config == Some(old(config).value.(gasfundAccount :=
             if old(config).value.gasfundAccount.Some? then old(config).value.gasfundAccount else Some(host.defaultGasfundAccount)))
        && helpers == old(helpers) && tokens == old(tokens) && implContracts == old(implContracts) && sent == old(sent)
    {
      if config.None? {
        return Fail(ConfigMissing);
      }
      var cfg := config.value;
      if cfg.gasfundAccount.None? {
        cfg := cfg.(gasfundAccount := Some(host.defaultGasfundAccount));
      }
      config := Some(cfg);
      r := Pass;
    }

    // ------------------------------------------------------- deployments

    /** `get_next_nonce`: reads the EVM's nonce table for the contract and
        sends the matching nonce assertion. */
    method GetNextNonce(nonces: map<Name, nat>) returns (r: Result<nat, Error>)
      requires Valid()
      modifies this
      ensures Valid()
      ensures old(config).None? ==> r == Failure(ConfigMissing) && unchanged(this)
      ensures old(config).Some? ==>
        && r == Success(NonceOf(nonces, host.self))
        && sent == old(sent) + [AssertNonce(old(config).value.evmAccount, host.self, r.value)]
        && config == old(config) && helpers == old(helpers) && tokens == old(tokens) && implContracts == old(implContracts)
    {
      if config.None? {
        return Failure(ConfigMissing);
      }
      var nextNonce := if host.self in nonces then nonces[host.self] else 0;
      sent := sent + [AssertNonce(config.value.evmAccount, host.self, nextNonce)];
      r := Success(nextNonce);
    }

    /** `dpystakeimpl`: deploys the stake-helper implementation and records
        its predicted address as a new implementation contract. */
    method DpyStakeImpl(nonces: map<Name, nat>) returns (r: Outcome<Error>)
      requires Valid()
      modifies this
      ensures Valid()
      ensures old(config).None? <==> r == Fail(ConfigMissing)
      ensures r.Pass? <==> old(config).Some?
      ensures r.Fail? ==> unchanged(this)
      ensures r.Pass? ==>
        && sent == old(sent) + DeployActions(old(config).value, NonceOf(nonces, host.self), host.stakeHelperCode)
        && implContracts == old(implContracts) + [ImplRow(NextImplId(old(implContracts)), Created(NonceOf(nonces, host.self)))]
        && config == old(config) && helpers == old(helpers) && tokens == old(tokens)
    {
      var callData := host.stakeHelperCode;
      var nextNonce := GetNextNonce(nonces);
      if nextNonce.Failure? {
        return Fail(nextNonce.error);
      }
      var cfg := config.value;
      sent := sent + [EvmCall(cfg.evmAccount, host.self, [], Zeros(32), callData, cfg.initGasLimit)];
      var implAddr := host.space.createAddress(host.space.makeReserved(host.self), nextNonce.value);
      implContracts := implContracts + [ImplRow(NextImplId(implContracts), implAddr)];
      r := Pass;
    }

    /** `dpyrwdhelper`: deploys the reward helper and records its address. */
    method DpyRwdHelper(nonces: map<Name, nat>) returns (r: Outcome<Error>)
      requires Valid()
      modifies this
      ensures Valid()
      ensures old(config).None? <==> r == Fail(ConfigMissing)
      ensures r.Pass? <==> old(config).Some?
      ensures r.Fail? ==> unchanged(this)
      ensures r.Pass? ==>
        && sent == old(sent) + DeployActions(old(config).value, NonceOf(nonces, host.self), host.rewardHelperCode)
        && helpers == Some(old(helpers).value.(rewardHelper := Created(NonceOf(nonces, host.self))))
        && config == old(config) && tokens == old(tokens) && implContracts == old(implContracts)
    {
      var callData := host.rewardHelperCode;
      var nextNonce := GetNextNonce(nonces);
      if nextNonce.Failure? {
        return Fail(nextNonce.error);
      }
      var cfg := config.value;
      sent := sent + [EvmCall(cfg.evmAccount, host.self, [], Zeros(32), callData, cfg.initGasLimit)];
      var implAddr := host.space.createAddress(host.space.makeReserved(host.self), nextNonce.value);
      helpers := Some(helpers.value.(rewardHelper := implAddr));
      r := Pass;
    }

    /** `dpygasfunds`: deploys the gas-funds helper and records its address. */
    method DpyGasFunds(nonces: map<Name, nat>) returns (r: Outcome<Error>)
      requires Valid()
      modifies this
      ensures Valid()
      ensures old(config).None? <==> r == Fail(ConfigMissing)
      ensures r.Pass? <==> old(config).Some?
      ensures r.Fail? ==> unchanged(this)
      ensures r.Pass? ==>
        && sent == old(sent) + DeployActions(old(config).value, NonceOf(nonces, host.self), host.gasFundsCode)
        && helpers == Some(old(helpers).value.(gasFunds := Some(Created(NonceOf(nonces, host.self)))))
        && config == old(config) && tokens == old(tokens) && implContracts == old(implContracts)
    {
      if config.None? {
        return Fail(ConfigMissing);
      }
      var cfg := config.value;
      var callData := host.gasFundsCode;
      var nextNonce := GetNextNonce(nonces);
      sent := sent + [EvmCall(cfg.evmAccount, host.self, [], Zeros(32), callData, cfg.initGasLimit)];
      var implAddr := host.space.createAddress(host.space.makeReserved(host.self), nextNonce.value);
      helpers := Some(helpers.value.(gasFunds := Some(implAddr)));
      r := Pass;
    }

    /** `deploy_stake_helper_proxy`: checks, then deploys a proxy whose
        constructor initializes it with the contract's and the EVM account's
        reserved addresses, the ERC-20 address, the fee in EVM units and the
        two flags; returns the proxy's predicted address. */
    method DeployStakeHelperProxy(erc20: Address, impl: seq<byte>, fee: Asset, precision: Uint8, notBtc: bool,
                                  isValidator: bool, nonces: map<Name, nat>) returns (r: Result<Address, Error>)
      requires Valid()
      modifies this
      ensures Valid()
      ensures old(DeployCheck(config, impl, fee, precision)).Fail? ==>
        r == Failure(old(DeployCheck(config, impl, fee, precision)).error) && unchanged(this)
      ensures old(DeployCheck(config, impl, fee, precision)).Pass? ==>
        && r == Success(Created(NonceOf(nonces, host.self)))
        && sent == old(sent) + ProxyActions(old(config).value, erc20, impl, fee, notBtc, isValidator, nonces)
        && config == old(config) && helpers == old(helpers) && tokens == old(tokens) && implContracts == old(implContracts)
    {
      if |impl| != 20 {
        return Failure(InvalidImplLength);
      }
      if config.None? {
        return Failure(ConfigMissing);
      }
      var cfg := config.value;
      if !(fee.symbol.precision <= precision <= fee.symbol.precision + 57) {
        return Failure(PrecisionOutOfRange);
      }
      if fee.symbol != cfg.gasSymbol {
        return Failure(FeeSymbolMismatch);
      }
      var feeEvm := FeeWord(fee.amount, MinimumNative(host.evmPrecision, cfg.gasSymbol.precision));
      var reserved := host.space.makeReserved(host.self);
      var evmReserved := host.space.makeReserved(cfg.evmAccount);
      var init := BuildProxyInitData(reserved, evmReserved, erc20, feeEvm, notBtc, isValidator);
      var callData := BuildProxyCallData(host.proxyCode, impl, init);
      var nextNonce := GetNextNonce(nonces);
      sent := sent + [EvmCall(cfg.evmAccount, host.self, [], Zeros(32), callData, cfg.initGasLimit)];
      r := Success(host.space.createAddress(reserved, nextNonce.value));
    }

    /** `dpyvlddepbtc` (`xsat` false) and `dpyvlddepsat` (`xsat` true):
        deploys the BTC or XSAT validator-deposit proxy on the latest
        implementation contract, once. */
    method DpyVldDep(xsat: bool, tokenAddress: string, fee: Asset, precision: Uint8, nonces: map<Name, nat>)
      returns (r: Outcome<Error>)
      requires Valid()
      modifies this
      ensures Valid()
      ensures var pre := old(DepositPrecheck(host.fromHex, helpers, implContracts, xsat, tokenAddress));
        pre.Failure? ==> r == Fail(pre.error) && unchanged(this)
      ensures var pre := old(DepositPrecheck(host.fromHex, helpers, implContracts, xsat, tokenAddress));
        pre.Success? ==>
        var impl := old(implContracts[|implContracts| - 1].address);
        var check := old(DeployCheck(config, impl, fee, precision));
        && (check.Fail? ==> r == Fail(check.error) && unchanged(this))
        && (check.Pass? ==>
              && r == Pass
              && helpers == Some(WithDeposit(old(helpers).value, xsat, Created(NonceOf(nonces, host.self))))
              && sent == old(sent) + ProxyActions(old(config).value, pre.value, impl, fee, xsat, true, nonces)
              && config == old(config) && tokens == old(tokens) && implContracts == old(implContracts))
    {
      var pre := DepositPrecheck(host.fromHex, helpers, implContracts, xsat, tokenAddress);
      if pre.Failure? {
        return Fail(pre.error);
      }
      var h := helpers.value;
      var impl := implContracts[|implContracts| - 1].address;
      var proxy := DeployStakeHelperProxy(pre.value, impl, fee, precision, xsat, true, nonces);
      if proxy.Failure? {
        return Fail(proxy.error);
      }
      helpers := Some(WithDeposit(h, xsat, proxy.value));
      r := Pass;
    }

    // ------------------------------------------------------ set addresses

    /** `setrwdhelper` */
    method SetRwdHelper(implAddress: string) returns (r: Outcome<Error>)
      requires Valid()
      modifies this
      ensures Valid()
      ensures var a := ParseAddress(host.fromHex, implAddress, InvalidImplAddress, InvalidImplLength);
        && (a.Failure? ==> r == Fail(a.error))
        && (a.Success? && old(helpers).None? ==> r == Fail(ConfigMissing))
        && (r.Pass? <==> a.Success? && old(helpers).Some?)
        && (r.Pass? ==> helpers == Some(old(helpers).value.(rewardHelper := a.value)))
      ensures r.Fail? ==> unchanged(this)
      ensures config == old(config) && tokens == old(tokens) && implContracts == old(implContracts) && sent == old(sent)
    {
      var a := ParseAddress(host.fromHex, implAddress, InvalidImplAddress, InvalidImplLength);
      if a.Failure? {
        return Fail(a.error);
      }
      if helpers.None? {
        return Fail(ConfigMissing);
      }
      helpers := Some(helpers.value.(rewardHelper := a.value));
      r := Pass;
    }

    /** `setgasfunds` */
    method SetGasFunds(implAddress: string) returns (r: Outcome<Error>)
      requires Valid()
      modifies this
      ensures Valid()
      ensures var a := ParseAddress(host.fromHex, implAddress, InvalidImplAddress, InvalidImplLength);
        && (a.Failure? ==> r == Fail(a.error))
        && (a.Success? && old(helpers).None? ==> r == Fail(ConfigMissing))
        && (r.Pass? <==> a.Success? && old(helpers).Some?)
        && (r.Pass? ==> helpers == Some(old(helpers).value.(gasFunds := Some(a.value))))
      ensures r.Fail? ==> unchanged(this)
      ensures config == old(config) && tokens == old(tokens) && implContracts == old(implContracts) && sent == old(sent)
    {
      var a := ParseAddress(host.fromHex, implAddress, InvalidImplAddress, InvalidImplLength);
      if a.Failure? {
        return Fail(a.error);
      }
      if helpers.None? {
        return Fail(ConfigMissing);
      }
      helpers := Some(helpers.value.(gasFunds := Some(a.value)));
      r := Pass;
    }

    /** `setstakeimpl`: records an implementation contract; needs no config. */
    method SetStakeImpl(implAddress: string) returns (r: Outcome<Error>)
      requires Valid()
      modifies this
      ensures Valid()
      ensures var a := ParseAddress(host.fromHex, implAddress, InvalidImplAddress, InvalidImplLength);
        && (a.Failure? ==> r == Fail(a.error))
        && (r.Pass? <==> a.Success?)
        && (r.Pass? ==> implContracts == old(implContracts) + [ImplRow(NextImplId(old(implContracts)), a.value)])
      ensures r.Fail? ==> unchanged(this)
      ensures config == old(config) && helpers == old(helpers) && tokens == old(tokens) && sent == old(sent)
    {
      var a := ParseAddress(host.fromHex, implAddress, InvalidImplAddress, InvalidImplLength);
      if a.Failure? {
        return Fail(a.error);
      }
      implContracts := implContracts + [ImplRow(NextImplId(implContracts), a.value)];
      r := Pass;
    }

    // ------------------------------------------------------- token table

    /** The outcome of registering `erc20`: refused if already registered,
        otherwise as the deployment's checks decide. */
    function RegisterOutcome(erc20: Address, impl: seq<byte>, fee: Asset, precision: nat): Outcome<Error>
      reads this
    {
      if FindByTokenAddress(tokens, erc20).Some? then Fail(TokenAlreadyRegistered)
      else DeployCheck(config, impl, fee, precision)
    }

    /** `regtokenwithcodebytes`: deploys a proxy for an ERC-20 token that is
        not yet registered and adds its row to the token table. */
    method RegTokenWithCodeBytes(erc20: Address, impl: seq<byte>, fee: Asset, precision: Uint8, nonces: map<Name, nat>)
      returns (r: Outcome<Error>)
      requires Valid()
      modifies this
      ensures Valid()
      ensures r == old(RegisterOutcome(erc20, impl, fee, precision))
      ensures r.Fail? ==> unchanged(this)
      ensures r.Pass? ==>
        && tokens == old(tokens) + [TokenRow(NextTokenId(old(tokens)), Created(NonceOf(nonces, host.self)), precision, erc20)]
        && sent == old(sent) + ProxyActions(old(config).value, erc20, impl, fee, false, false, nonces)
        && config == old(config) && helpers == old(helpers) && implContracts == old(implContracts)
    {
      if FindByTokenAddress(tokens, erc20).Some? {
        return Fail(TokenAlreadyRegistered);
      }
      var proxy := DeployStakeHelperProxy(erc20, impl, fee, precision, false, false, nonces);
      if proxy.Failure? {
        return Fail(proxy.error);
      }
      var row := TokenRow(NextTokenId(tokens), proxy.value, precision, erc20);
      tokens := tokens + [row];
      r := Pass;
    }

    /** `regwithcode`: both addresses given in hex. */
    method RegWithCode(tokenAddress: string, implAddress: string, fee: Asset, precision: Uint8, nonces: map<Name, nat>)
      returns (r: Outcome<Error>)
      requires Valid()
      modifies this
      ensures Valid()
      ensures var i := ParseAddress(host.fromHex, implAddress, InvalidImplAddress, InvalidImplLength);
              var t := ParseAddress(host.fromHex, tokenAddress, InvalidTokenAddress, InvalidTokenLength);
        && (i.Failure? ==> r == Fail(i.error))
        && (i.Success? && t.Failure? ==> r == Fail(t.error))
        && (i.Success? && t.Success? ==> r == old(RegisterOutcome(t.value, i.value, fee, precision)))
        && (r.Pass? ==>
              && tokens == old(tokens) + [TokenRow(NextTokenId(old(tokens)), Created(NonceOf(nonces, host.self)), precision, t.value)]
              && sent == old(sent) + ProxyActions(old(config).value, t.value, i.value, fee, false, false, nonces)
              && config == old(config) && helpers == old(helpers) && implContracts == old(implContracts))
      ensures r.Fail? ==> unchanged(this)
    {
      var i := ParseAddress(host.fromHex, implAddress, InvalidImplAddress, InvalidImplLength);
      if i.Failure? {
        return Fail(i.error);
      }
      var t := ParseAddress(host.fromHex, tokenAddress, InvalidTokenAddress, InvalidTokenLength);
      if t.Failure? {
        return Fail(t.error);
      }
      r := RegTokenWithCodeBytes(t.value, i.value, fee, precision, nonces);
    }

    /** `regtoken`: registers on the latest implementation contract. */
    method RegToken(tokenAddress: string, fee: Asset, precision: Uint8, nonces: map<Name, nat>) returns (r: Outcome<Error>)
      requires Valid()
      modifies this
      ensures Valid()
      ensures var t := ParseAddress(host.fromHex, tokenAddress, InvalidTokenAddress, InvalidTokenLength);
        && (old(implContracts) == [] ==> r == Fail(NoImplContract))
        && (old(implContracts) != [] && t.Failure? ==> r == Fail(t.error))
        && (old(implContracts) != [] && t.Success? ==>
              var impl := old(implContracts[|implContracts| - 1].address);
              && r == old(RegisterOutcome(t.value, impl, fee, precision))
              && (r.Pass? ==>
                    && tokens == old(tokens) + [TokenRow(NextTokenId(old(tokens)), Created(NonceOf(nonces, host.self)), precision, t.value)]
                    && sent == old(sent) + ProxyActions(old(config).value, t.value, impl, fee, false, false, nonces)
                    && config == old(config) && helpers == old(helpers) && implContracts == old(implContracts)))
      ensures r.Fail? ==> unchanged(this)
    {
      if implContracts == [] {
        return Fail(NoImplContract);
      }
      var impl := implContracts[|implContracts| - 1].address;
      var t := ParseAddress(host.fromHex, tokenAddress, InvalidTokenAddress, InvalidTokenLength);
      if t.Failure? {
        return Fail(t.error);
      }
      r := RegTokenWithCodeBytes(t.value, impl, fee, precision, nonces);
    }

    /** `unregtoken`: erases the row of the given ERC-20 address. */
    method UnregToken(tokenAddress: string) returns (r: Outcome<Error>)
      requires Valid()
      modifies this
      ensures Valid()
      ensures var t := ParseAddress(host.fromHex, tokenAddress, InvalidTokenAddress, InvalidTokenLength);
        && (t.Failure? ==> r == Fail(t.error))
        && (t.Success? ==> (r.Pass? <==> old(FindByTokenAddress(tokens, t.value)).Some?))
        && (t.Success? && r.Fail? ==> r == Fail(TokenNotRegistered))
        && (r.Pass? ==>
              && |tokens| == |old(tokens)| - 1
              && (forall row :: row in tokens <==> row in old(tokens) && row.tokenAddress != t.value))
      ensures r.Fail? ==> unchanged(this)
      ensures config == old(config) && helpers == old(helpers) && implContracts == old(implContracts) && sent == old(sent)
    {
      var t := ParseAddress(host.fromHex, tokenAddress, InvalidTokenAddress, InvalidTokenLength);
      if t.Failure? {
        return Fail(t.error);
      }
      var i := FindByTokenAddress(tokens, t.value);
      if i.None? {
        return Fail(TokenNotRegistered);
      }
      UnregisterErasesOne(tokens, t.value);
      tokens := RemoveAt(tokens, i.value);
      r := Pass;
    }

    // ------------------------------------------------ calls on a proxy

    /** Whether `a` may be configured through `setlocktime` and
        `upstakeimpl`: a deposit proxy, or a registered token proxy. */
    function KnownProxy(h: Helpers, a: Address): (known: bool)
      reads this
      ensures known <==>
        h.btcDeposit == Some(a) || h.xsatDeposit == Some(a) || exists i :: 0 <= i < |tokens| && tokens[i].address == a
    {
      h.btcDeposit == Some(a) || h.xsatDeposit == Some(a) || FindByAddress(tokens, a).Some?
    }

    /** `setdepfee`: sends `setFee` with the fee in EVM units to a
        registered token proxy. */
    method SetDepFee(proxyAddress: string, fee: Asset) returns (r: Outcome<Error>)
      requires Valid()
      modifies this
      ensures Valid()
      ensures old(config).None? ==> r == Fail(ConfigMissing)
      ensures old(config).Some? && fee.symbol != old(config).value.gasSymbol ==> r == Fail(FeeSymbolMismatch)
      ensures var a := ParseAddress(host.fromHex, proxyAddress, InvalidTokenAddress, InvalidTokenLength);
        old(config).Some? && fee.symbol == old(config).value.gasSymbol ==>
        && (a.Failure? ==> r == Fail(a.error))
        && (a.Success? && old(FindByAddress(tokens, a.value)).None? ==> r == Fail(Erc20NotRegistered))
        && (r.Pass? <==> a.Success? && old(FindByAddress(tokens, a.value)).Some?)
        && (r.Pass? ==>
              var cfg := old(config).value;
              var feeEvm := FeeWord(fee.amount, MinimumNative(host.evmPrecision, cfg.gasSymbol.precision));
              sent == old(sent) + [EvmCall(cfg.evmAccount, host.self, a.value, Zeros(32), SetFeeData(feeEvm), cfg.gasLimit)])
      ensures r.Fail? ==> unchanged(this)
      ensures config == old(config) && helpers == old(helpers) && tokens == old(tokens) && implContracts == old(implContracts)
    {
      if config.None? {
        return Fail(ConfigMissing);
      }
      var cfg := config.value;
      if fee.symbol != cfg.gasSymbol {
        return Fail(FeeSymbolMismatch);
      }
      var a := ParseAddress(host.fromHex, proxyAddress, InvalidTokenAddress, InvalidTokenLength);
      if a.Failure? {
        return Fail(a.error);
      }
      var i := FindByAddress(tokens, a.value);
      if i.None? {
        return Fail(Erc20NotRegistered);
      }
      var feeEvm := FeeWord(fee.amount, MinimumNative(host.evmPrecision, cfg.gasSymbol.precision));
      var callData := BuildSetFeeData(feeEvm);
      sent := sent + [EvmCall(cfg.evmAccount, host.self, tokens[i.value].address, Zeros(32), callData, cfg.gasLimit)];
      r := Pass;
    }

    /** `setlocktime`: sends `setLockTime` to a deposit or token proxy. */
    method SetLockTime(proxyAddress: string, locktime: Uint64) returns (r: Outcome<Error>)
      requires Valid()
      modifies this
      ensures Valid()
      ensures old(config).None? ==> r == Fail(ConfigMissing)
      ensures var a := ParseAddress(host.fromHex, proxyAddress, InvalidTokenAddress, InvalidTokenLength);
        old(config).Some? ==>
        && (a.Failure? ==> r == Fail(a.error))
        && (a.Success? && !old(KnownProxy(helpers.value, a.value)) ==> r == Fail(Erc20NotRegistered))
        && (r.Pass? <==> a.Success? && old(KnownProxy(helpers.value, a.value)))
        && (r.Pass? ==>
              var cfg := old(config).value;
              sent == old(sent) + [EvmCall(cfg.evmAccount, host.self, a.value, Zeros(32), SetLockTimeData(locktime), cfg.gasLimit)])
      ensures r.Fail? ==> unchanged(this)
      ensures config == old(config) && helpers == old(helpers) && tokens == old(tokens) && implContracts == old(implContracts)
    {
      if config.None? {
        return Fail(ConfigMissing);
      }
      var cfg := config.value;
      var a := ParseAddress(host.fromHex, proxyAddress, InvalidTokenAddress, InvalidTokenLength);
      if a.Failure? {
        return Fail(a.error);
      }
      var h := helpers.value;
      if !(h.btcDeposit == Some(a.value) || h.xsatDeposit == Some(a.value)) {
        var i := FindByAddress(tokens, a.value);
        if i.None? {
          return Fail(Erc20NotRegistered);
        }
      }
      var callData := BuildSetLockTimeData(locktime);
      sent := sent + [EvmCall(cfg.evmAccount, host.self, a.value, Zeros(32), callData, cfg.gasLimit)];
      r := Pass;
    }

    /** `upstakeimpl`: points a deposit or token proxy at the latest
        implementation contract. */
    method UpStakeImpl(proxyAddress: string) returns (r: Outcome<Error>)
      requires Valid()
      modifies this
      ensures Valid()
      ensures old(config).None? ==> r == Fail(ConfigMissing)
      ensures var a := ParseAddress(host.fromHex, proxyAddress, InvalidTokenAddress, InvalidTokenLength);
        old(config).Some? ==>
        && (a.Failure? ==> r == Fail(a.error))
        && (a.Success? && !old(KnownProxy(helpers.value, a.value)) ==> r == Fail(Erc20NotRegistered))
        && (a.Success? && old(KnownProxy(helpers.value, a.value)) && old(implContracts) == [] ==> r == Fail(NoImplContract))
        && (r.Pass? <==> a.Success? && old(KnownProxy(helpers.value, a.value)) && old(implContracts) != [])
        && (r.Pass? ==>
              var cfg := old(config).value;
              var impl := old(implContracts[|implContracts| - 1].address);
              sent == old(sent) + [EvmCall(cfg.evmAccount, host.self, a.value, Zeros(32), UpgradeData(impl), cfg.gasLimit)])
      ensures r.Fail? ==> unchanged(this)
      ensures config == old(config) && helpers == old(helpers) && tokens == old(tokens) && implContracts == old(implContracts)
    {
      if config.None? {
        return Fail(ConfigMissing);
      }
      var cfg := config.value;
      var a := ParseAddress(host.fromHex, proxyAddress, InvalidTokenAddress, InvalidTokenLength);
      if a.Failure? {
        return Fail(a.error);
      }
      var h := helpers.value;
      if !(h.btcDeposit == Some(a.value) || h.xsatDeposit == Some(a.value)) {
        var i := FindByAddress(tokens, a.value);
        if i.None? {
          return Fail(Erc20NotRegistered);
        }
      }
      if implContracts == [] {
        return Fail(NoImplContract);
      }
      var callData := BuildUpgradeData(implContracts[|implContracts| - 1].address);
      sent := sent + [EvmCall(cfg.evmAccount, host.self, a.value, Zeros(32), callData, cfg.gasLimit)];
      r := Pass;
    }

    // --------------------------------------------------------- messages

    /** `onbridgemsg`: routes the message and sends the one action it asks
        for. */
    method OnBridgeMsg(transportSender: Name, msg: BridgeMessage) returns (r: Outcome<Error>)
      requires Valid()
      modifies this
      ensures Valid()
      ensures var routed := old(Route(host, config, helpers, tokens, transportSender, msg));
        && (routed.Failure? ==> r == Fail(routed.error) && sent == old(sent))
        && (routed.Success? ==> r == Pass && sent == old(sent) + [routed.value])
      ensures config == old(config) && helpers == old(helpers) && tokens == old(tokens) && implContracts == old(implContracts)
    {
      var routed := Route(host, config, helpers, tokens, transportSender, msg);
      if routed.Failure? {
        return Fail(routed.error);
      }
      sent := sent + [routed.value];
      r := Pass;
    }

    /** `transfer` notification: the contract refuses tokens sent to it by
        anyone else, and ignores every other transfer. */
    method Transfer(from: Name, to: Name, quantity: Asset, memo: string) returns (r: Outcome<Error>)
      ensures r.Fail? <==> to == host.self && from != host.self
      ensures r.Fail? ==> r.error == TokensNotAccepted
    {
      if to != host.self || from == host.self {
        return Pass;
      }
      r := Fail(TokensNotAccepted);
    }
  }
}
