# evmutil bridge contract and staking-manager stub, in Dafny

This project models the `evmutil` Antelope contract, which bridges an EVM
runtime and native staking contracts. It also models `stub_endrmng`, the
staking-manager stub used to exercise that contract.

For `evmutil` the model covers:

- the Ethereum-ABI word readers (`readUint256`, `readEvmAddress`,
  `readExSatAccount`, `readTokenAmount`) and the little-endian selector they
  key on;
- the three bridge-message decoders (`handle_endorser_stakes`,
  `handle_rewards`, `handle_gasfunds`);
- the sender router `onbridgemsg`;
- the call data the contract sends to EVM contracts: the proxy constructor
  built by `pack_uint256`, `pack_uint32` and `pack_string`, and the
  `setFee`, `setLockTime` and `upgradeToAndCall` calls;
- the administrative actions over the `config` and `helpers` singletons, the
  token table and the implementation-contract table.

For `stub_endrmng` the model covers its ledger (a stakers list, a stakes map,
the validator, the proxy and a mode flag) and its hex encoder `vec_to_hex`.

The modules follow the program's structure:

| file | module | contents |
|---|---|---|
| `wrappers.dfy` | `Wrappers` | `Option`, `Result`, `Outcome` |
| `bytes.dfy` | `Bytes` | bytes, 20-byte addresses, big-endian values |
| `eosio.dfy` | `Eosio` | account names, fixed-width integers, symbols, assets |
| `host.dfy` | `Host` | what the contract takes from its environment (header constants, bytecode, address derivation, `from_hex`) |
| `errors.dfy` | `Errors` | the contract's `check` messages |
| `types.dfy` | `EvmutilTypes` | config and helpers rows, token and implementation rows, bridge messages, outbound actions |
| `abi.dfy` | `Abi` | ABI word readers and writers |
| `bridge.dfy` | `Bridge` | the three decoders and the router |
| `codec.dfy` | `MessageCodec` | the messages the EVM helpers send, written as the decoders read them, and the decoding round trips |
| `route.dfy` | `Routing` | end-to-end properties of `onbridgemsg` |
| `calldata.dfy` | `CallData` | call-data builders and their layout and decoding lemmas |
| `evmutil.dfy` | `EvmutilContract` | the contract's state as the class `Evmutil`, with one method per action |
| `stub_endrmng.dfy` | `StubEndrmng` | the stub's ledger as the class `StubLedger`, plus `vec_to_hex` |

Each `evmutil` action either fails and changes nothing, or updates the
tables it names. The actions it sends (EVM calls, nonce assertions, the
staking, pool and gas-fund collaborators' actions) are appended to the
`sent` field in order.

Behaviour of the code that the model keeps, which a reader might not expect:

- **Selector byte order.** The selector is read as the code reads it: the
  first four message bytes are copied into a `uint32_t`, so on the
  little-endian target it is `data[0] + 256*data[1] + 65536*data[2] +
  2^24*data[3]`. The constants the code compares it with are therefore the
  byte-reversed ABI selectors.
- **`unregtoken` lookup.** `unregtoken` looks the row up in the
  `by.tokenaddr` index, that is, by the ERC-20 token address. Its parameter
  is called `proxy_address`, but the proxy address is not what it searches.
- **Gas claim length check.** The gas-fund `claim` branch checks for 68
  bytes and then reads a word at offset 68. A 68- to 99-byte message is
  therefore refused by `readUint256`'s own length check, not by the
  branch's check, unless one of its first two words is already malformed.
- **`get_minimum_natively_representable` with a large precision.** When the
  gas token's precision exceeds the EVM precision, the `uint8` subtraction
  goes negative. As a `uint256` exponent it is then at least 256, and
  `10^n mod 2^256` is 0 for such `n`. `MinimumNative` gives 0 in that case.
- **Negative fees.** A negative fee is converted to `uint256` through its
  64-bit pattern. It is not refused.
- **The stub's stakes map.** `stakes[staker] += amount` and `-= amount`
  convert the signed amount to `uint64` and wrap modulo 2^64.
- **`assertstake`.** Its `operator[]` inserts a zero entry into a local
  copy of the config, which is never stored.
- **`evmclaim` and `evmclaim2`.** Neither checks the mode flag.

## Model

| member | source | states |
|---|---|---|
| Abi.ReadUint256 | antelope_contracts/contracts/evmutil/src/evmutil.cpp:31-39 | fails, with "not enough data", exactly when fewer than `offset + 32` bytes are present; otherwise yields a value below 2^256 whose 32-byte encoding is the word at `offset` |
| Abi.ReadUint256Value | antelope_contracts/contracts/evmutil/src/evmutil.cpp:31-39 | the value read is the big-endian value of `data[offset..offset+32]` |
| Abi.ReadEvmAddress | antelope_contracts/contracts/evmutil/src/evmutil.cpp:41-47 | a short buffer gives "not enough data"; a full word succeeds exactly when its 12 leading bytes are zero; on success the word is 12 zero bytes followed by the address; no other error occurs |
| Abi.ReadExSatAccount | antelope_contracts/contracts/evmutil/src/evmutil.cpp:49-56 | succeeds exactly when the address reads and is a reserved address; the account is the one the address was reserved for; otherwise the address error is passed on, or "not reserved address" is reported |
| Abi.ScaleDown | antelope_contracts/contracts/evmutil/src/evmutil.cpp:62-68 | dust (a non-zero remainder modulo `10^delta`) is reported exactly when present; succeeds exactly when dust-free and `0 < value/10^delta < 2^62-1`; the result scaled back up is the input |
| Abi.ReadTokenAmount | antelope_contracts/contracts/evmutil/src/evmutil.cpp:58-69 | short data, then dust, fail in that order; a result is positive, below 2^62-1, and times `10^delta` is exactly the word read |
| Abi.ReadAmountAt | antelope_contracts/contracts/evmutil/src/evmutil.cpp:58-69 | a valid native amount written scaled up by `10^delta` is read back as that amount |
| Abi.ScaleUpDown | antelope_contracts/contracts/evmutil/src/evmutil.cpp:62-68 | scaling a positive amount below 2^62-1 up and then down returns it |
| Abi.DustIsRefused | antelope_contracts/contracts/evmutil/src/evmutil.cpp:63 | a word with a non-zero remainder modulo `10^delta` is always refused as dust |
| Abi.AppType | antelope_contracts/contracts/evmutil/src/evmutil.cpp:423-424 | the selector is a 32-bit value read little-endian from the first four bytes |
| Abi.ReadWordAt | antelope_contracts/contracts/evmutil/src/evmutil.cpp:31-39 | a word written at any offset of a buffer reads back as its value |
| Abi.ReadAddressAt | antelope_contracts/contracts/evmutil/src/evmutil.cpp:41-47 | a zero-padded address written at any offset reads back as that address |
| Abi.ReadAccountAt | antelope_contracts/contracts/evmutil/src/evmutil.cpp:49-56 | an account written as its reserved address reads back as that account |
| Abi.AccountWordOf | antelope_contracts/contracts/evmutil/src/evmutil.cpp:49-56 | conversely, an account read successfully sits in its word as its zero-padded reserved address |
| Abi.Uint256Word | antelope_contracts/contracts/evmutil/src/evmutil.cpp:302-306 | a word is 32 bytes long |
| Abi.PackUint256 | antelope_contracts/contracts/evmutil/src/evmutil.cpp:302-306 | appends exactly the 32-byte big-endian word of the value to the buffer |
| Abi.PackUint32 | antelope_contracts/contracts/evmutil/src/evmutil.cpp:307-314 | the four shifted bytes on 28 zero bytes append the same word as `pack_uint256` of the value |
| Abi.Uint32WordIsWord | antelope_contracts/contracts/evmutil/src/evmutil.cpp:307-314 | 28 zero bytes followed by the four shifted bytes of a 32-bit value are that value's word |
| Abi.Uint32Bytes | antelope_contracts/contracts/evmutil/src/evmutil.cpp:309-312 | the four shifted bytes are the big-endian digits of the value |
| Abi.RoundUp32 | antelope_contracts/contracts/evmutil/src/evmutil.cpp:317 | the chunk limit is the least multiple of 32 not below the length |
| Abi.DynamicBytes | antelope_contracts/contracts/evmutil/src/evmutil.cpp:315-322 | the encoding of a byte string is a length word plus the content padded to whole words |
| Abi.Chunk | antelope_contracts/contracts/evmutil/src/evmutil.cpp:318-320 | one copied chunk is 32 bytes |
| Abi.PackString | antelope_contracts/contracts/evmutil/src/evmutil.cpp:315-322 | the chunk loop appends exactly the length word (the size narrowed to 32 bits) and the zero-padded content |
| Abi.NextChunk | antelope_contracts/contracts/evmutil/src/evmutil.cpp:317-321 | each loop step copies the next 32 bytes of the zero-padded content and stays within it |
| Abi.PackStringDone | antelope_contracts/contracts/evmutil/src/evmutil.cpp:315-322 | after the last chunk the buffer holds the dynamic-bytes encoding |
| Abi.DynamicBytesLayout | antelope_contracts/contracts/evmutil/src/evmutil.cpp:315-322 | the length word reads back as the length, the content follows it, the padding is zero and the whole is word-aligned |
| Bridge.HandleEndorserStakes | antelope_contracts/contracts/evmutil/src/evmutil.cpp:418-534 | fewer than 4 bytes is "not enough data", and so is a claim shorter than 68 bytes, a claim2, deposit or withdraw shorter than 100 and a restake shorter than 132; an unknown selector is "unsupported"; every result goes to the staking collaborator, is sent by this contract for the message's proxy, and is the action its selector names in the channel's mode; a deposit or XSAT channel never yields a restake |
| Bridge.EndorserClaim | antelope_contracts/contracts/evmutil/src/evmutil.cpp:431-443 | fewer than 68 bytes is "not enough data"; a claim yields a staking-collaborator claim |
| Bridge.EndorserClaim2 | antelope_contracts/contracts/evmutil/src/evmutil.cpp:444-462 | fewer than 100 bytes is "not enough data"; a claim2 yields a claim2 whose donate rate is at most 10000 |
| Bridge.EndorserTransfer | antelope_contracts/contracts/evmutil/src/evmutil.cpp:463-505 | fewer than 100 bytes is "not enough data"; a deposit or withdraw yields the stake or unstake of the channel's mode (native token or XSAT) |
| Bridge.EndorserRestake | antelope_contracts/contracts/evmutil/src/evmutil.cpp:506-530 | fewer than 132 bytes is "not enough data"; a restake yields a new-stake action, and always fails when the channel is a deposit or XSAT channel |
| Bridge.HandleRewards | antelope_contracts/contracts/evmutil/src/evmutil.cpp:540-597 | fewer than 4 bytes, a claim or validator claim shorter than 68 and a credit claim shorter than 100 are "not enough data"; unknown selectors are "unsupported"; a claim reaches the pool registry, a validator claim and a credit claim reach the staking collaborator |
| Bridge.HandleGasfunds | antelope_contracts/contracts/evmutil/src/evmutil.cpp:862-919 | fewer than 4 bytes, a gas claim shorter than 68 and an enf or rams claim shorter than 36 are "not enough data"; a gas claim shorter than 100 always fails, as "not enough data" when its first two words are well formed; unknown selectors are "unsupported"; no gas-fund account means failure; each selector yields its gas-fund action, sent for the message's sender |
| Bridge.FindByAddress | antelope_contracts/contracts/evmutil/src/evmutil.cpp:630-635 | finds the first token row whose proxy address is the sender, or reports that none has it |
| Bridge.ChannelOf | antelope_contracts/contracts/evmutil/src/evmutil.cpp:615-635 | the sender's channel in the router's priority: reward helper, then BTC deposit proxy, XSAT deposit proxy and gas-funds helper, each only when no earlier one matches; otherwise the first token row with that proxy address; no channel exactly when none of them matches |
| Bridge.Route | antelope_contracts/contracts/evmutil/src/evmutil.cpp:605-639 | no config, a wrong transport sender, a wrong receiver and missing helpers fail in that order; a success comes from a sender that has a channel |
| MessageCodec.SelectorBytes | antelope_contracts/contracts/evmutil/src/evmutil.cpp:424 | the selector of a message is four bytes |
| MessageCodec.SelectorRoundTrip | antelope_contracts/contracts/evmutil/src/evmutil.cpp:424 | the four bytes written for a selector read back as that selector |
| MessageCodec.SelectorOfData | antelope_contracts/contracts/evmutil/src/evmutil.cpp:424 | conversely, the first four bytes of any message are the bytes of the selector read from them |
| MessageCodec.EndorserRoundTrip | antelope_contracts/contracts/evmutil/src/evmutil.cpp:418-534 | every message that starts with an acceptable staking call, other than a restake through a deposit channel, decodes to the action the call asks for, whatever bytes follow |
| MessageCodec.EndorserSound | antelope_contracts/contracts/evmutil/src/evmutil.cpp:418-534 | conversely, every message the staking handler accepts starts with the encoding of an acceptable call the channel allows, and the result is that call's action |
| MessageCodec.RestakeRefused | antelope_contracts/contracts/evmutil/src/evmutil.cpp:522-526 | a message that starts with a well-formed restake, through a deposit or XSAT channel, is read and then refused as "invalid operation" |
| MessageCodec.ClaimDecodes | antelope_contracts/contracts/evmutil/src/evmutil.cpp:431-443 | a message that starts with a claim decodes to the claim of the account it names |
| MessageCodec.Claim2Decodes | antelope_contracts/contracts/evmutil/src/evmutil.cpp:444-462 | a message that starts with a claim2 decodes to its claim when the rate is at most 10000, and is refused when it is larger |
| MessageCodec.DonateRateBoundary | antelope_contracts/contracts/evmutil/src/evmutil.cpp:454-459 | a rate of exactly 10000 is accepted and passed on unchanged; 10001 is refused |
| MessageCodec.ClaimSound | antelope_contracts/contracts/evmutil/src/evmutil.cpp:431-443 | an accepted claim starts with the claim of the account and staker read from it |
| MessageCodec.Claim2Sound | antelope_contracts/contracts/evmutil/src/evmutil.cpp:444-462 | an accepted claim2 starts with a claim2 whose rate, at most 10000, is the one passed on |
| MessageCodec.TransferSound | antelope_contracts/contracts/evmutil/src/evmutil.cpp:463-505 | an accepted deposit or withdraw starts with the transfer of a valid native amount whose scaled word is the one read |
| MessageCodec.RestakeSound | antelope_contracts/contracts/evmutil/src/evmutil.cpp:506-530 | an accepted restake comes from a channel that allows it and starts with the restake of the accounts, amount and staker read |
| MessageCodec.TransferDecodes | antelope_contracts/contracts/evmutil/src/evmutil.cpp:463-505 | a message that starts with a deposit or withdraw decodes to the stake or unstake it encodes |
| MessageCodec.TransferFields | antelope_contracts/contracts/evmutil/src/evmutil.cpp:463-505 | the three argument words of a message that starts with a transfer read back as its account, amount and staker |
| MessageCodec.RestakeDecodes | antelope_contracts/contracts/evmutil/src/evmutil.cpp:506-530 | a message that starts with a restake decodes to the new stake it encodes, or is refused when the channel forbids it |
| MessageCodec.EncodeRewards | antelope_contracts/contracts/evmutil/src/evmutil.cpp:550-593 | a claim or validator claim is 68 bytes and a credit claim 100, the lengths the handler demands |
| MessageCodec.RewardsRoundTrip | antelope_contracts/contracts/evmutil/src/evmutil.cpp:540-597 | every message that starts with a rewards call decodes to the action it asks for, whatever bytes follow |
| MessageCodec.RewardsSound | antelope_contracts/contracts/evmutil/src/evmutil.cpp:540-597 | conversely, every message the rewards handler accepts is as long as a rewards call and starts with the words of it the handler reads (the claims' second word is left unread), and the result is that call's action |
| MessageCodec.AccountClaimDecodes | antelope_contracts/contracts/evmutil/src/evmutil.cpp:550-576 | a message that starts with a pool claim or validator claim decodes to the claim of the named account |
| MessageCodec.CreditClaimDecodes | antelope_contracts/contracts/evmutil/src/evmutil.cpp:578-593 | a message that starts with a credit claim decodes to the staking claim for its proxy, sender and account |
| MessageCodec.GasRoundTrip | antelope_contracts/contracts/evmutil/src/evmutil.cpp:862-919 | every message that starts with a gas-funds call decodes to the action it asks for when a gas-fund account is configured, and fails otherwise |
| MessageCodec.GasSound | antelope_contracts/contracts/evmutil/src/evmutil.cpp:862-919 | conversely, every message the gas-funds handler accepts has a gas-fund account configured and starts with the encoding of a gas-funds call, and the result is that call's action |
| MessageCodec.GasClaimDecodes | antelope_contracts/contracts/evmutil/src/evmutil.cpp:872-886 | a message that starts with a gas claim decodes to the gas-fund claim with its receiver type narrowed to 8 bits |
| MessageCodec.GasAddressDecodes | antelope_contracts/contracts/evmutil/src/evmutil.cpp:887-915 | a message that starts with an enf or rams claim decodes to its gas-fund action for the named address |
| Routing.ChannelDelta | antelope_contracts/contracts/evmutil/src/evmutil.cpp:618-637 | the scaling is 10 for the deposit proxies and the token's extra decimals over the gas token's for a token proxy |
| Routing.TokenChannelRow | antelope_contracts/contracts/evmutil/src/evmutil.cpp:630-637 | a token channel's row is a table row whose proxy address is the sender |
| Routing.UnknownSenderRefused | antelope_contracts/contracts/evmutil/src/evmutil.cpp:615-635 | an admitted message from a sender that is no helper and no registered proxy fails as "ERC-20 token not registered"; a sender has a channel exactly when it is one of them |
| Routing.ChannelOutcomes | antelope_contracts/contracts/evmutil/src/evmutil.cpp:605-639 | a routed success was admitted, and yields only what its channel's handler can produce; deposit channels never restake |
| Routing.RouteStaking | antelope_contracts/contracts/evmutil/src/evmutil.cpp:618-637 | an admitted message from a deposit or token proxy reaches the staking handler with that channel's scaling and flags |
| Routing.RouteRewards | antelope_contracts/contracts/evmutil/src/evmutil.cpp:615-616 | an admitted message from the reward helper goes to the rewards handler |
| Routing.RouteGas | antelope_contracts/contracts/evmutil/src/evmutil.cpp:626-627 | an admitted message from the gas-funds helper goes to the gas-funds handler |
| Routing.StakingRoundTrip | antelope_contracts/contracts/evmutil/src/evmutil.cpp:605-639 | a message from a deposit or token proxy that starts with an acceptable staking call, scaled by the channel, reaches the staking collaborator as that call |
| Routing.StakingSound | antelope_contracts/contracts/evmutil/src/evmutil.cpp:605-639 | conversely, what a deposit or token proxy gets through is the action of an acceptable call, scaled by the channel, that its message starts with, and never a restake from a deposit proxy |
| Routing.RestakeRefusedOnDeposit | antelope_contracts/contracts/evmutil/src/evmutil.cpp:618-625 | a message that starts with a restake, from the BTC or XSAT deposit proxy, is always refused |
| Routing.RewardsRouted | antelope_contracts/contracts/evmutil/src/evmutil.cpp:615-616 | a message from the reward helper that starts with a rewards call reaches the collaborator it names |
| Routing.GasRouted | antelope_contracts/contracts/evmutil/src/evmutil.cpp:626-627 | a message from the gas-funds helper that starts with a gas-funds call reaches the gas-fund collaborator, or fails when no gas-fund account is set |
| CallData.MinimumNative | antelope_contracts/contracts/evmutil/src/evmutil.cpp:107-109 | one native unit in EVM units is a 256-bit value |
| CallData.FeeWord | antelope_contracts/contracts/evmutil/src/evmutil.cpp:284-285 | the fee in EVM units is a 256-bit value |
| CallData.FeeExact | antelope_contracts/contracts/evmutil/src/evmutil.cpp:284-285 | a non-negative fee that fits is scaled exactly by `10^(evm precision - precision)` |
| CallData.FeeRoundTrip | antelope_contracts/contracts/evmutil/src/evmutil.cpp:284-285 | the fee word of a valid bridge amount is read back by the bridge's unit conversion as that amount |
| CallData.NegativeFeeWraps | antelope_contracts/contracts/evmutil/src/evmutil.cpp:284-285 | a negative fee is not refused: it becomes `(2^64 + amount) * multiplier mod 2^256` |
| CallData.ProxyInitData | antelope_contracts/contracts/evmutil/src/evmutil.cpp:298-334 | the constructor data is 196 bytes long |
| CallData.ProxyCallData | antelope_contracts/contracts/evmutil/src/evmutil.cpp:290-337 | the deployment call data is the bytecode, two words and the padded constructor data |
| CallData.BuildProxyInitData | antelope_contracts/contracts/evmutil/src/evmutil.cpp:298-334 | the appends build exactly the selector and the six constructor words |
| CallData.BuildProxyCallData | antelope_contracts/contracts/evmutil/src/evmutil.cpp:290-337 | the appends build exactly the deployment call data |
| CallData.ProxyCallDataLayout | antelope_contracts/contracts/evmutil/src/evmutil.cpp:290-337 | the call data is bytecode, 12 zero bytes, the implementation address, the words 64 and 196, the 196 bytes of constructor data and 28 zero bytes |
| CallData.ProxyCallDataDecodes | antelope_contracts/contracts/evmutil/src/evmutil.cpp:290-337 | an ABI decoder reading behind the bytecode finds the implementation address, the offset 64, the length 196 and the constructor data |
| CallData.TailRead | antelope_contracts/contracts/evmutil/src/evmutil.cpp:31-39 | reading within a suffix of a buffer reads the suffix |
| CallData.ProxyInitDecodes | antelope_contracts/contracts/evmutil/src/evmutil.cpp:298-334 | the constructor data reads back as the selector, the three addresses, the fee and the two flags |
| CallData.SetFeeData | antelope_contracts/contracts/evmutil/src/evmutil.cpp:698-702 | the `setFee` call data is 36 bytes long |
| CallData.SetLockTimeData | antelope_contracts/contracts/evmutil/src/evmutil.cpp:739-743 | the `setLockTime` call data is 36 bytes long |
| CallData.UpgradeData | antelope_contracts/contracts/evmutil/src/evmutil.cpp:788-798 | the `upgradeToAndCall` call data is 100 bytes long |
| CallData.BuildSetFeeData | antelope_contracts/contracts/evmutil/src/evmutil.cpp:698-702 | the appends build exactly the `setFee` call data |
| CallData.BuildSetLockTimeData | antelope_contracts/contracts/evmutil/src/evmutil.cpp:739-743 | the appends build exactly the `setLockTime` call data |
| CallData.BuildUpgradeData | antelope_contracts/contracts/evmutil/src/evmutil.cpp:788-798 | the appends build exactly the `upgradeToAndCall` call data |
| CallData.SetterDecodes | antelope_contracts/contracts/evmutil/src/evmutil.cpp:698-743 | `setFee` and `setLockTime` data start with their selectors, and their argument word reads back as the fee or lock time |
| CallData.UpgradeDecodes | antelope_contracts/contracts/evmutil/src/evmutil.cpp:788-798 | `upgradeToAndCall` data decodes to the implementation address and an empty bytes argument at offset 64 |
| CallData.TwoWords | antelope_contracts/contracts/evmutil/src/evmutil.cpp:797-798 | two words appended to a buffer read back at their offsets |
| EvmutilContract.TokenSymbolKey | antelope_contracts/contracts/evmutil/src/evmutil.cpp:81-86 | the key fits in 128 bits |
| EvmutilContract.TokenSymbolKeyParts | antelope_contracts/contracts/evmutil/src/evmutil.cpp:81-86 | the high 64 bits of the key are the contract name and the low 64 bits the symbol code |
| EvmutilContract.TokenSymbolKeyInjective | antelope_contracts/contracts/evmutil/src/evmutil.cpp:81-86 | two keys are equal exactly when both of their parts are |
| EvmutilContract.ParseAddress | antelope_contracts/contracts/evmutil/src/evmutil.cpp:203-205 | a string that is not hex gets the action's first message; hex of a length other than 20 gets its second; one of length 20 succeeds with those bytes |
| EvmutilContract.FindByTokenAddress | antelope_contracts/contracts/evmutil/src/evmutil.cpp:411-413 | finds the first row with the given ERC-20 address, or reports that no row has it |
| EvmutilContract.NextTokenId | antelope_contracts/contracts/evmutil/src/evmutil.cpp:366 | the next primary key is above every key of a table kept in key order |
| EvmutilContract.NextImplId | antelope_contracts/contracts/evmutil/src/evmutil.cpp:166 | the next primary key is above every key of a table kept in key order |
| EvmutilContract.NonceOf | antelope_contracts/contracts/evmutil/src/evmutil.cpp:132-134 | the nonce in the contract's row of the EVM's nonce table, 0 when it has no row |
| EvmutilContract.DepositPrecheck | antelope_contracts/contracts/evmutil/src/evmutil.cpp:230-243 | missing helpers, then a filled slot ("cannot deploy again"), refuse; a success means helpers exist, the slot is empty, an implementation contract exists and the token address parses |
| EvmutilContract.DeployOnce | antelope_contracts/contracts/evmutil/src/evmutil.cpp:234 | once a deposit slot has been filled, deploying into it again is refused; the other slot is left as it was |
| EvmutilContract.DeployCheck | antelope_contracts/contracts/evmutil/src/evmutil.cpp:275-283 | passes exactly when the implementation address has 20 bytes, a config exists, the token decimals lie within 57 above the fee's, and the fee is in the gas token |
| EvmutilContract.RemoveAt | antelope_contracts/contracts/evmutil/src/evmutil.cpp:415 | erasing a row leaves one row fewer |
| EvmutilContract.RemoveAtIndex | antelope_contracts/contracts/evmutil/src/evmutil.cpp:415 | after erasing, the rows before the index are unchanged and the rows after it move down one place |
| EvmutilContract.RemoveAtMembers | antelope_contracts/contracts/evmutil/src/evmutil.cpp:415 | the rows left are exactly the rows at the other indices |
| EvmutilContract.RemoveAtKeepsOrder | antelope_contracts/contracts/evmutil/src/evmutil.cpp:415 | erasing keeps the addresses distinct and the keys ascending |
| EvmutilContract.UnregisterErasesOne | antelope_contracts/contracts/evmutil/src/evmutil.cpp:410-415 | erasing the row found for an ERC-20 address removes exactly the rows with that address, keeps the table ordered and duplicate-free, and the address is then not found |
| EvmutilContract.RegisteredIsFound | antelope_contracts/contracts/evmutil/src/evmutil.cpp:359-372 | a registered ERC-20 address is found again, at the new row, so registering it twice is refused |
| EvmutilContract.Evmutil.constructor | antelope_contracts/contracts/evmutil/src/evmutil.cpp:641-660 | a fresh contract has no config, no helpers, empty tables and nothing sent |
| EvmutilContract.Evmutil.Init | antelope_contracts/contracts/evmutil/src/evmutil.cpp:641-660 | refused if already initialised; with tokens present, only the default EVM account and native symbol are accepted; succeeds exactly when neither check fails, and then stores the config, with no gas-fund account, and empty helpers |
| EvmutilContract.Evmutil.SetGasLimit | antelope_contracts/contracts/evmutil/src/evmutil.cpp:662-669 | succeeds exactly when a config exists (otherwise "config missing"); each limit given replaces the configured one, nothing else changes |
| EvmutilContract.Evmutil.InitGasFund | antelope_contracts/contracts/evmutil/src/evmutil.cpp:839-848 | succeeds exactly when a config exists (otherwise "config missing"); sets the default gas-fund account only when none is set |
| EvmutilContract.Evmutil.GetNextNonce | antelope_contracts/contracts/evmutil/src/evmutil.cpp:128-139 | needs a config; returns the contract's nonce, 0 when it has no row, and sends the matching nonce assertion |
| EvmutilContract.Evmutil.DpyStakeImpl | antelope_contracts/contracts/evmutil/src/evmutil.cpp:143-171 | succeeds exactly when a config exists (otherwise "config missing"); sends the deployment and appends the created address to the implementation table with the next key |
| EvmutilContract.Evmutil.DpyRwdHelper | antelope_contracts/contracts/evmutil/src/evmutil.cpp:173-199 | succeeds exactly when a config exists (otherwise "config missing"); sends the deployment and records the created address as the reward helper |
| EvmutilContract.Evmutil.DpyGasFunds | antelope_contracts/contracts/evmutil/src/evmutil.cpp:807-837 | succeeds exactly when a config exists (otherwise "config missing"); sends the deployment and records the created address as the gas-funds helper |
| EvmutilContract.Evmutil.DeployStakeHelperProxy | antelope_contracts/contracts/evmutil/src/evmutil.cpp:274-354 | refused, changing nothing, when the deployment checks fail; otherwise sends the nonce assertion and the proxy deployment and returns the address the create yields |
| EvmutilContract.Evmutil.DpyVldDep | antelope_contracts/contracts/evmutil/src/evmutil.cpp:230-272 | refused, changing nothing, when the precheck or the deployment checks fail; otherwise deploys a validator-deposit proxy on the latest implementation and records its address in the BTC or XSAT slot; nothing else changes |
| EvmutilContract.Evmutil.SetRwdHelper | antelope_contracts/contracts/evmutil/src/evmutil.cpp:201-212 | a malformed address, then missing helpers, refuse; otherwise only the reward helper address changes |
| EvmutilContract.Evmutil.SetGasFunds | antelope_contracts/contracts/evmutil/src/evmutil.cpp:850-860 | a malformed address, then missing helpers, refuse; otherwise only the gas-funds helper address changes |
| EvmutilContract.Evmutil.SetStakeImpl | antelope_contracts/contracts/evmutil/src/evmutil.cpp:214-228 | a malformed address is refused; otherwise the address is appended to the implementation table with the next key, and nothing else changes |
| EvmutilContract.Evmutil.RegTokenWithCodeBytes | antelope_contracts/contracts/evmutil/src/evmutil.cpp:356-373 | an ERC-20 address already registered, then failed deployment checks, refuse; otherwise deploys its proxy and appends one row with the next key, the proxy address, the decimals and the token address |
| EvmutilContract.Evmutil.RegWithCode | antelope_contracts/contracts/evmutil/src/evmutil.cpp:375-386 | both hex addresses must parse, the implementation's first; then registers as `regtokenwithcodebytes` does |
| EvmutilContract.Evmutil.RegToken | antelope_contracts/contracts/evmutil/src/evmutil.cpp:388-401 | needs an implementation contract and a well-formed token address; then registers on the latest implementation |
| EvmutilContract.Evmutil.UnregToken | antelope_contracts/contracts/evmutil/src/evmutil.cpp:403-416 | a malformed address, then an address no row has ("token not registered"), refuse; otherwise erases exactly the row with that ERC-20 address |
| EvmutilContract.Evmutil.SetDepFee | antelope_contracts/contracts/evmutil/src/evmutil.cpp:671-709 | no config, a fee not in the gas token, a malformed address and an unregistered proxy refuse in that order; otherwise sends `setFee` with the fee in EVM units to the token proxy |
| EvmutilContract.Evmutil.SetLockTime | antelope_contracts/contracts/evmutil/src/evmutil.cpp:711-750 | no config, a malformed address, missing helpers and a proxy that is neither a deposit proxy nor registered refuse; otherwise sends `setLockTime` to it |
| EvmutilContract.Evmutil.KnownProxy | antelope_contracts/contracts/evmutil/src/evmutil.cpp:723-731 | an address is accepted exactly when it is the BTC or XSAT deposit proxy or some token row's proxy address; `upstakeimpl` makes the same test at lines 763-771 |
| EvmutilContract.Evmutil.UpStakeImpl | antelope_contracts/contracts/evmutil/src/evmutil.cpp:752-805 | as `setlocktime`, and no implementation contract also refuses; otherwise sends `upgradeToAndCall` with the latest implementation |
| EvmutilContract.Evmutil.OnBridgeMsg | antelope_contracts/contracts/evmutil/src/evmutil.cpp:605-639 | sends exactly the one action the router yields, or fails as it does; the tables do not change |
| EvmutilContract.Evmutil.Transfer | antelope_contracts/contracts/evmutil/src/evmutil.cpp:599-603 | fails, with "should not accept tokens", exactly when tokens are sent to the contract by another account |
| StubEndrmng.FillHex | antelope_contracts/contracts/stubs/stub_endrmng.cpp:20-23 | the loop writes the hex digits of the bytes behind the prefix and leaves the prefix as it was |
| StubEndrmng.VecToHex | antelope_contracts/contracts/stubs/stub_endrmng.cpp:11-25 | the result is the optional `0x` followed by two lower-case digits per byte, high nibble first |
| StubEndrmng.HexOfPrefix | antelope_contracts/contracts/stubs/stub_endrmng.cpp:20-23 | one more byte of input appends its two digits |
| StubEndrmng.HexOfLength | antelope_contracts/contracts/stubs/stub_endrmng.cpp:11-25 | there are two characters per byte |
| StubEndrmng.HexLength | antelope_contracts/contracts/stubs/stub_endrmng.cpp:11-25 | a 32-byte hash gives 64 characters, 66 with the prefix |
| StubEndrmng.HexPlacement | antelope_contracts/contracts/stubs/stub_endrmng.cpp:20-23 | byte `i` becomes character `2i` (its high nibble) and `2i+1` (its low nibble) |
| StubEndrmng.DigitValueOfDigit | antelope_contracts/contracts/stubs/stub_endrmng.cpp:12 | each digit of the table reads back as its value |
| StubEndrmng.HexDecode | antelope_contracts/contracts/stubs/stub_endrmng.cpp:11-25 | decoding pairs of digits gives half as many bytes |
| StubEndrmng.PairOfByte | antelope_contracts/contracts/stubs/stub_endrmng.cpp:21-22 | the two digits written for a byte read back as the byte |
| StubEndrmng.DecodeSnoc | antelope_contracts/contracts/stubs/stub_endrmng.cpp:20-23 | decoding two more digits appends one byte |
| StubEndrmng.HexRoundTrip | antelope_contracts/contracts/stubs/stub_endrmng.cpp:11-25 | the digits determine the bytes: decoding them gives the bytes back |
| StubEndrmng.Credit | antelope_contracts/contracts/stubs/stub_endrmng.cpp:193 | adding the amount gives the sum when it fits in 64 bits, and the sum modulo 2^64 always |
| StubEndrmng.Debit | antelope_contracts/contracts/stubs/stub_endrmng.cpp:204-206 | a non-negative amount is refused exactly when it exceeds the stake, and is otherwise subtracted exactly; a negative amount is compared as its 64-bit pattern |
| StubEndrmng.DebitThenCredit | antelope_contracts/contracts/stubs/stub_endrmng.cpp:193-206 | adding back what was subtracted restores the stake, for every amount |
| StubEndrmng.CreditThenDebit | antelope_contracts/contracts/stubs/stub_endrmng.cpp:193-206 | a stake that did not wrap is undone by an unstake of the same amount |
| StubEndrmng.StubLedger.constructor | antelope_contracts/contracts/stubs/stub_endrmng.cpp:42-46 | a fresh stub has no config |
| StubEndrmng.StubLedger.Guard | antelope_contracts/contracts/stubs/stub_endrmng.cpp:187-273 | the config, mode, symbol, proxy, staker and validator checks fail in that order with their own messages; passes exactly when all hold |
| StubEndrmng.StubLedger.StakerExists | antelope_contracts/contracts/stubs/stub_endrmng.cpp:53-56 | needs the config; the search answers whether the staker is in the stakers list |
| StubEndrmng.StubLedger.StakeOf | antelope_contracts/contracts/stubs/stub_endrmng.cpp:314 | a staker's stake as `operator[]` reads it: its entry, or 0 when it has none |
| StubEndrmng.StubLedger.Check | antelope_contracts/contracts/stubs/stub_endrmng.cpp:187-273 | the checks as the actions make them agree with the guard |
| StubEndrmng.StubLedger.Stake | antelope_contracts/contracts/stubs/stub_endrmng.cpp:187-197 | refused, changing nothing, when a check fails; otherwise adds the amount to exactly that staker's stake; the lists stay in sync |
| StubEndrmng.StubLedger.Unstake | antelope_contracts/contracts/stubs/stub_endrmng.cpp:199-209 | refused when a check fails or the stake is too small; otherwise subtracts exactly the amount from that staker's stake |
| StubEndrmng.StubLedger.NewStake | antelope_contracts/contracts/stubs/stub_endrmng.cpp:234-243 | after the checks, changes only the validator |
| StubEndrmng.StubLedger.RestakeXsat | antelope_contracts/contracts/stubs/stub_endrmng.cpp:275-292 | always fails: "not in design", or "config not exist" when there is no config |
| StubEndrmng.StubLedger.Claim | antelope_contracts/contracts/stubs/stub_endrmng.cpp:211-219 | the checks of the guard without the mode, and no state changes |
| StubEndrmng.StubLedger.Claim2 | antelope_contracts/contracts/stubs/stub_endrmng.cpp:221-232 | passes exactly when the guard passes and the rate is at most 10000; a rate above that is refused |
| StubEndrmng.StubLedger.Reset | antelope_contracts/contracts/stubs/stub_endrmng.cpp:294-310 | stores a config with the given proxy, validator and mode, the one staker and a zero stake for it |
| StubEndrmng.StubLedger.AddStaker | antelope_contracts/contracts/stubs/stub_endrmng.cpp:316-323 | needs the config; an existing staker changes nothing (idempotent); otherwise the staker is appended with a zero stake; the lists stay in sync and duplicate-free |
| StubEndrmng.StubLedger.AssertStake | antelope_contracts/contracts/stubs/stub_endrmng.cpp:312-315 | passes exactly when the staker's stake, 0 when it has none, is the given one; no state changes |
| StubEndrmng.StubLedger.AssertVal | antelope_contracts/contracts/stubs/stub_endrmng.cpp:325-328 | passes exactly when the configured validator is the given one; no state changes |

## Left out

- Authorisation (`require_auth`) and the `caller` parameters of the stub's actions are not modelled: the model has no notion of signing accounts.
- Sending an action is modelled as appending it to `sent`. What the receiving contracts do with it, and the EVM's execution of deployed bytecode, are not modelled.
- The singleton and `multi_index` storage engine is modelled as `Option` fields and sequences kept in key order. Secondary indices are modelled as searches of those sequences.
- `make_key` (bytes to `checksum256`) is not part of this model. The `by.address` and `by.tokenaddr` lookups compare addresses directly.
- `silkworm::create_address`, `make_reserved_address` and `extract_reserved_address` are uninterpreted functions of the host. Only the fact that extraction inverts reservation is assumed, as the `Coherent` predicate that the round-trip lemmas require.
- `from_hex` is an uninterpreted function of the host, because its definition is not part of this model.
- The embedded bytecode arrays are opaque byte strings longer than 128 bytes. `evm_precision` and the default accounts and symbol are host parameters.
- The EVM's `next_nonce_table` (evmutil.cpp:132-134) is a `nonces` map the caller passes to each deploying action. Nothing relates that map to the tables in `config.evmAccount`'s scope, or carries it from one action to the next.
- `get_code_hash` (a host intrinsic) and the empty `handle_utxo_access` are not modelled.
- The gas-fund collaborator's action declarations appear only as the shapes of the gas-fund `Action` variants.
- Abi.ReadTokenAmount, Abi.ScaleDown: require `delta <= 77`. The router guarantees this for every channel, since a registered token's decimals are at most 57 above the gas token's.
- EvmutilContract.Evmutil.RegTokenWithCodeBytes: takes the ERC-20 address as 20 bytes. The action itself accepts any length: a shorter address makes the `memcpy` into the token row (evmutil.cpp:371) read past its buffer, which has no defined result to model, and a longer one goes whole into the constructor data (evmutil.cpp:329).
- EvmutilContract.TokenSymbolKey: the key function is modelled and proved about, but nothing in the core looks a row up by it.
