/** The failed `check`s of the bridge contract, one constructor per message. */
module Errors {

  datatype Error =
    // the ABI readers
    | NotEnoughData             // "not enough data in bridge_message_v0 ..."
    | InvalidEvmAddress         // "invalid evm address"
    | NotReservedAddress        // "destination address in bridge_message_v0 must be reserved address"
    | AmountHasDust             // "bridge amount can not have dust"
    | AmountOverflow            // "bridge amount value overflow"
    | AmountNotPositive         // "bridge amount must be positive"
    // the message handlers and the router
    | DonateRateTooLarge        // "donate rate must smaller than 10000"
    | InvalidOperation          // "invalid operation"
    | UnsupportedMessage        // "unsupported bridge_message version"
    | InvalidTransportSender    // "invalid sender of onbridgemsg"
    | InvalidMessageReceiver    // "invalid message receiver"
    | Erc20NotRegistered        // "ERC-20 token not registerred"
    | GasfundAccountUnset       // `config.gasfund_account.value()` on an empty optional
    // the administrative actions
    | ConfigMissing             // "evmutil config not exist"
    | ConfigAlreadyInitialized  // "evmutil config already initialized"
    | OnlyNativeSymbol          // "can only init with native EOS symbol"
    | CannotDeployAgain         // "cannot deploy again"
    | NoImplContract            // "no implementaion contract available"
    | InvalidImplAddress        // "implementation address must be valid 0x EVM address"
    | InvalidImplLength         // "invalid length of implementation address"
    | InvalidTokenAddress       // "token address must be valid 0x EVM address"
    | InvalidTokenLength        // "invalid length of token address"
    | PrecisionOutOfRange       // "evmutil precision out of range"
    | FeeSymbolMismatch         // "deposit_fee should have native token symbol"
    | TokenAlreadyRegistered    // "token already registered"
    | TokenNotRegistered        // "token not registered"
    | TokensNotAccepted         // "this address should not accept tokens"
}
