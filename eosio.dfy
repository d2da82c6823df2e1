/** The native ledger's value types that the bridge code handles. */
module Eosio {

  /** The 64-bit value of an account name (`eosio::name::value`). */
  type Name = x: nat | x < 0x1_0000_0000_0000_0000

  /** An unsigned 64-bit integer (`uint64_t`). */
  type Uint64 = x: nat | x < 0x1_0000_0000_0000_0000

  /** An unsigned 16-bit integer (`uint16_t`). */
  type Uint16 = x: nat | x < 0x1_0000

  /** An unsigned 8-bit integer (`uint8_t`). */
  type Uint8 = x: nat | x < 0x100

  /** A signed 64-bit integer (`int64_t`). */
  type Int64 = x: int | -0x8000_0000_0000_0000 <= x < 0x8000_0000_0000_0000

  /** `eosio::symbol`: a symbol code with its decimal precision; two symbols are
      equal when both parts are. */
  datatype Symbol = Symbol(code: string, precision: nat)

  /** `eosio::asset`: a signed 64-bit amount in units of `10^-precision`. */
  datatype Asset = Asset(amount: Int64, symbol: Symbol)
}
