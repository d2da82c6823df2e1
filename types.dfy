/** The tables, singletons, messages and outbound actions of the bridge
    contract. */
module EvmutilTypes {
  import opened Wrappers
  import opened Bytes
  import opened Eosio

  /** The `config` singleton. */
  datatype Config = Config(
    evmAccount: Name,
    gasSymbol: Symbol,
    gasLimit: nat,
    initGasLimit: nat,
    endrmngAccount: Name,
    poolregAccount: Name,
    gasfundAccount: Option<Name>)

  /** The `helpers` singleton: the EVM addresses of the deployed helper
      contracts. The reward helper address is an empty byte string until one
      is deployed or set. */
  datatype Helpers = Helpers(
    rewardHelper: seq<byte>,
    btcDeposit: Option<seq<byte>>,
    xsatDeposit: Option<seq<byte>>,
    gasFunds: Option<seq<byte>>)

  /** A row of the token table: the proxy contract deployed for an ERC-20
      token, the token's address and its decimals. */
  datatype TokenRow = TokenRow(id: nat, address: Address, precision: nat, tokenAddress: Address)

  /** A row of the implementation-contract table. */
  datatype ImplRow = ImplRow(id: nat, address: Address)

  /** `bridge_message_v0`, the only version of a bridge message. */
  datatype BridgeMessage = BridgeMessage(receiver: Name, sender: seq<byte>, data: seq<byte>)

  /** The actions the contract sends. `account` is the contract that receives
      the action; `proxy` and `staker` are the `make_key160` keys of EVM
      addresses. */
  datatype Action =
    // staking collaborator (endrmng)
    | EvmClaim(account: Name, caller: Name, proxy: seq<byte>, staker: seq<byte>, validator: Name)
    | EvmClaim2(account: Name, caller: Name, proxy: seq<byte>, staker: seq<byte>, validator: Name, donateRate: nat)
    | EvmStake(account: Name, caller: Name, proxy: seq<byte>, staker: seq<byte>, validator: Name, quantity: Asset)
    | EvmUnstake(account: Name, caller: Name, proxy: seq<byte>, staker: seq<byte>, validator: Name, quantity: Asset)
    | EvmStakeXsat(account: Name, caller: Name, proxy: seq<byte>, staker: seq<byte>, validator: Name, quantity: Asset)
    | EvmUnstakeXsat(account: Name, caller: Name, proxy: seq<byte>, staker: seq<byte>, validator: Name, quantity: Asset)
    | EvmNewStake(account: Name, caller: Name, proxy: seq<byte>, staker: seq<byte>, oldValidator: Name, newValidator: Name, quantity: Asset)
    | VdrClaim(account: Name, validator: Name)
    // pool collaborator (poolreg)
    | PoolClaim(account: Name, synchronizer: Name)
    // gas-fund collaborator
    | GasFundsClaim(account: Name, caller: Name, proxy: seq<byte>, sender: seq<byte>, receiver: Name, receiverType: nat)
    | GasFundsEnfClaim(account: Name, caller: Name, proxy: seq<byte>, sender: seq<byte>)
    | GasFundsRamsClaim(account: Name, caller: Name, proxy: seq<byte>, sender: seq<byte>)
    // EVM runtime
    | AssertNonce(account: Name, owner: Name, nextNonce: nat)
    | EvmCall(account: Name, from: Name, to: seq<byte>, value: seq<byte>, data: seq<byte>, gasLimit: nat)
}
