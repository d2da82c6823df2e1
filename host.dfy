/** What the bridge code uses but does not define: the reserved-address
    convention and CREATE address derivation of the EVM library, the hex
    parser, the compiled helper contracts and the header constants. They are
    given to the model as values, so every property below holds for any
    choice of them (or for every choice meeting `Coherent`, where stated). */
module Host {
  import opened Wrappers
  import opened Bytes
  import opened Eosio

  /** An embedded contract bytecode array; the build asserts it is longer than
      128 bytes (`initialize_data`). */
  type Bytecode = s: seq<byte> | |s| > 128 witness seq(129, _ => 0)

  datatype AddressSpace = AddressSpace(
    /** `silkworm::make_reserved_address` */
    makeReserved: Name -> Address,
    /** `silkworm::extract_reserved_address` */
    extractReserved: Address -> Option<Name>,
    /** `silkworm::create_address`: the address a CREATE from `sender` with `nonce` yields */
    createAddress: (Address, nat) -> Address)

  /** Reserved addresses and 64-bit account names correspond one to one. */
  ghost predicate Coherent(space: AddressSpace) {
    && (forall n: Name :: space.extractReserved(space.makeReserved(n)) == Some(n))
    && (forall a: Address :: space.extractReserved(a).Some? ==> space.makeReserved(space.extractReserved(a).value) == a)
  }

  datatype Host = Host(
    /** `get_self()`, which is also `receiver_account()` */
    self: Name,
    /** `evm_precision`, the decimals of the EVM gas token (a header constant) */
    evmPrecision: nat,
    /** `default_xsat_token_symbol` */
    xsatSymbol: Symbol,
    /** `default_evm_account` and `default_native_token_symbol`, which `init` insists on when tokens exist */
    defaultEvmAccount: Name,
    defaultNativeSymbol: Symbol,
    /** `default_gasfund_account`, installed by `initgasfund` */
    defaultGasfundAccount: Name,
    /** the default `endrmng_account` and `poolreg_account` of a fresh `config_t` */
    defaultEndrmngAccount: Name,
    defaultPoolregAccount: Name,
    space: AddressSpace,
    /** `from_hex` of `hex.hpp`: the bytes a hex string denotes, if it is well formed */
    fromHex: string -> Option<seq<byte>>,
    stakeHelperCode: Bytecode,
    rewardHelperCode: Bytecode,
    gasFundsCode: Bytecode,
    proxyCode: Bytecode)
}
