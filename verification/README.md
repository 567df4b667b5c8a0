# Solana proxy and OFT bridge: a verified model

This project models two programs of the repository and proves what they promise.

**The OFT bridge program.** One program, deployed as an *adapter* (tokens are locked in an escrow and
unlocked) or as a *native* token (tokens are burned and minted). `send` charges the token's transfer fee
and the bridge's own fee, removes dust, moves two token buckets, locks or burns, and encodes the amount
in a 32-byte word; `lz_receive` undoes this at the other end. The project proves that the charge is
exact, that the limiters bound the net flow of every window of every run by capacity plus what the
window's own clock earns, that an escrow always covers its locked value, that an adapter end and a native
end with messages in flight between them stay solvent in every run, and which pairs of deployments can
strand a message for ever.

**The proxy and ledger protocol.** Users send requests and reward claims from Solana to a ledger
contract, which orders USDC payouts back. The project proves Merkle soundness and completeness, the
two-step claim protocol over runs, exactly when paying a quoted fee is enough on either side, delivery
across the Rust/Solidity boundary in both directions, and that in every run what the ledger ordered is
paid out of the proxy's balance or still in flight, for every receiver, except for what orders of 2^64
and more lose.

Reading order: `Division`, `Totals`, `Base`, `Bytes` (numbers), `TransferFees`, `Charging`, `RateLimits`, `OftCodec`,
`Tokens`, `Oft` (instructions as functions), `OftProgram` (the same instructions updating accounts in
place), `OftSteps`, `OftRuns`, `OftSettings`, `NetFlow`, `Bridge`, `Stranded`; then `Merkle`, `ProxyMessages`, `SolanaProxy`,
`ProxyProgram`, `ProxyRuns`, `ProxySteps`, `Ledger`, `Delivery`.

## Assumptions

- Token-2022's `calculate_post_fee_amount` is not in the repository. It is taken to be
  `y - min(ceil(y * bps / 10000), cap)`, with `bps <= 10000` as Token-2022 enforces; the fee may change
  from one instruction to the next.
- A failing instruction has no effect: the runtime discards its writes. A program address (the OFT
  store, the proxy configuration) never signs for a transfer other than this program's own.
- Both programs are built with overflow checks, so `+ - *` that overflow abort; `as u64` truncates.
- The hash is an arbitrary function from byte strings to 32 bytes. It cannot be injective, so soundness
  is stated up to a collision between two explicit finite lists of inputs that were actually hashed.
- The LayerZero endpoint delivers a message at most once and only to its addressee. Its price is
  arbitrary and may differ between quote and send; when the proxy sends, it takes the price from the user
  and refuses a fee below it.
- A multisig of the token program mints for one signature exactly when its quorum is one and the signer
  belongs to it.

## Where the code and its promises part

- `refill` records the clock even when it went back, so time can be paid twice
  (`RateLimits.ClockGoingBackPaysTwice`; `RateLimits.RefillsMergeIff` says exactly when); all bounds
  therefore count the clock's forward moves.
- What `send` takes out through the limiters cannot come back when it exceeds the inbound capacity
  (`OftSteps.ReturnUndoesSend` says exactly when, `OftSteps.ReturnCanBeRefused` gives such a send).
- `quote_send` prices a message with the local amount and a zero sender, `send` sends the shared amount
  and the signer (`OftSteps.QuotedMessageAgreesIff` says when they agree, `OftSteps.QuotedMessageCanDiffer`
  gives a send where they do not).
- `ledgerOappSendQuote` does not apply the default gas that `ledgerOappSend` applies, so an order that
  pays its quote can be refused (`Ledger.QuoteCanFallShort`; `Ledger.QuotedPayoutIsAcceptedIff` says
  exactly when it is accepted).
- The proxy pays the ledger's 256-bit amount modulo 2^64 (`ProxyMessages.UsdcAmountTruncates`,
  `Delivery.EveryRunAccountsForPayouts`; by `Delivery.LargeOrderPaysNothing` an order of 2^64 pays nothing).
- The OFT wire decoder ignores the high 16 bytes of the amount word and truncates to 64 bits
  (`OftCodec.ReencodingIsIdentityIff`; `OftCodec.HighHalfIsIgnored` gives a second word for every amount).
- When the native end's units are finer than the adapter's, a message may not fit them and then stays in
  flight for ever (`Stranded.OversizedIsNeverDelivered`; `Stranded.StrandingIsReachableIff` and
  `Stranded.StrandingIffWiderGap` say for which deployments this can happen,
  `Stranded.NineteenDecimalsStrand` gives an instance).

## Model

| member | source | states |
|---|---|---|
| `TransferFees.PreFeeIsLowerAdjoint` | programs/oft/src/instructions/quote_send.rs:162-192 | for every fee and all u64 x, y: at least x arrives of y exactly when the pre-fee amount of x exists and is at most y |
| `TransferFees.PreFeeIsExact` | programs/oft/src/instructions/quote_send.rs:141-155 | sending the pre-fee amount of x delivers x, not a unit more |
| `TransferFees.PreFeeNoneIffUnreachable` | programs/oft/src/instructions/quote_send.rs:162-185 | the inverse is `None` exactly when no u64 transfer delivers x |
| `Charging.ChargeInWholeUnits` | programs/oft/src/instructions/quote_send.rs:76-123 | with k whole units offered, the bridge keeps floor(k*bps/10000) units and delivers the rest; below 100 percent no step of the charge fails |
| `Charging.OwnFeeGoesBeforeDefault` | programs/oft/src/instructions/quote_send.rs:110-123 | a peer's own fee is charged whatever the default, and the default where a peer has none, as floor(k*bps/10000) of the k whole units offered |
| `Charging.AdapterChargeIsExact` | programs/oft/src/instructions/quote_send.rs:82-95 | the user pays at most the offer, the escrow gains exactly delivery plus fee, no smaller payment would do, and less than one shared unit is left behind |
| `Charging.ReceivedRoundsUp` | programs/oft/src/instructions/quote_send.rs:88-105 | delivery is rate*ceil(k*(10000-bps)/10000), positive exactly when k is |
| `Charging.ReceivedIsMonotone` | programs/oft/src/instructions/quote_send.rs:76-108 | offering more never delivers less |
| `Charging.ChargeSplits` | programs/oft/src/instructions/quote_send.rs:76-108 | for every configuration, delivery plus fee never exceeds what is sent |
| `Charging.ListFees` | programs/oft/src/instructions/quote_oft.rs:37-52 | the token's fee first and the bridge's second, each only when positive and under its own name; they add up with the delivery to exactly what is sent |
| `Charging.QuoteOft` | programs/oft/src/instructions/quote_oft.rs:26-55 | pause, charge and slippage errors in order; otherwise limits 0 and 2^64-1 and a receipt whose named fee details and delivery sum to the sent amount |
| `RateLimits.RateLimiter.Refill` | programs/oft/src/state/peer_config.rs:39-51 | the nested saturating u64 sums compute min(capacity, tokens + extra + elapsed*rate) in unbounded integers; a negative clock aborts |
| `RateLimits.RateLimiter.TryConsume` | programs/oft/src/state/peer_config.rs:53-62 | after crediting elapsed time, takes the amount or reports the limit exceeded |
| `RateLimits.RateLimiter.SetRate` | programs/oft/src/state/peer_config.rs:26-30 | credits elapsed time at the old rate before changing it |
| `RateLimits.RateLimiter.SetCapacity` | programs/oft/src/state/peer_config.rs:32-37 | fills the bucket and restarts its clock |
| `RateLimits.UpdateRateLimiter` | programs/oft/src/instructions/set_peer_config.rs:60-77 | no parameters remove the limiter; otherwise a copy is resized first and re-rated second |
| `RateLimits.ConfiguredLevel` | programs/oft/src/instructions/set_peer_config.rs:60-77 | what a limiter holds at any later time after being configured: a given capacity in full; with a rate alone, what the old rate had earned plus the new rate from then on; a new limiter starts empty |
| `RateLimits.ConfiguringAbortsIff` | programs/oft/src/state/peer_config.rs:26-37 | configuring fails exactly when something is set at a negative clock |
| `RateLimits.RefillsCompose` | programs/oft/src/state/peer_config.rs:39-51 | two refills act as one credited with both forward moves of the clock |
| `RateLimits.RefillsMerge` | programs/oft/src/state/peer_config.rs:39-51 | on a monotone clock two refills equal one combined refill |
| `RateLimits.RefillsMergeIff` | programs/oft/src/state/peer_config.rs:39-51 | in general two refills equal the combined one exactly when the rate is zero, the first came between the other two times, or the bucket is full anyway |
| `RateLimits.ClockGoingBackPaysTwice` | programs/oft/src/state/peer_config.rs:42-49 | a bucket whose clock reads 100, 50 and 100 again earns fifty seconds twice |
| `RateLimits.TokensNeverExceedCapacity` | programs/oft/src/state/peer_config.rs:25-63 | tokens stay within capacity through every sequence of limiter operations |
| `OftCodec.AmountRoundTrip` | programs/oft/src/msg_codec.rs:52-74 | decoding an encoded amount gives a zero high half and the same amount, for every u64 |
| `OftCodec.ReencodingDropsDust` | programs/oft/src/msg_codec.rs:52-74 | below 2^64*10^8 re-encoding a decoded word gives the greatest multiple of 10^8 not above it |
| `OftCodec.ReencodingIsIdentityIff` | programs/oft/src/msg_codec.rs:52-74 | a word survives exactly when it is such a multiple below that limit |
| `OftCodec.HighHalfIsIgnored` | programs/oft/src/msg_codec.rs:52-74 | for every amount a word other than its own decodes to it |
| `OftCodec.DecodeEncode` | programs/oft/src/msg_codec.rs:9-50 | receiver, amount and composed part come back; `None` and an empty message stay apart |
| `OftCodec.WireLayout` | programs/oft/src/msg_codec.rs:3-57 | the bytes on the wire: 32 for the receiver, 32 for the amount times 10^8, then 32 for the sender and the attached bytes, if any |
| `ComposeCodec.ComposeChain` | programs/oft/src/compose_msg_codec.rs:7-51 | the attached bytes and the sender reach the composer beside nonce, source and amount |
| `ComposeCodec.ComposeLayout` | programs/oft/src/compose_msg_codec.rs:7-51 | the composer's bytes: 8 for the nonce, 4 for the source, 8 for the amount, the rest |
| `OftProgram.Send` | programs/oft/src/instructions/send.rs:53-175 | updates store, peer buckets and token accounts to the specified state and returns the specified message, or the specified error; on success the message spells receiver, delivery and attachment, the minimum is met, and the source pays what was charged, at most the offer, while no account but it and the escrow changes |
| `OftProgram.LzReceive` | programs/oft/src/instructions/lz_receive.rs:72-187 | the same for delivery, including the composed message; on success the peer sent it and the account of the wallet it names gains exactly the returned amount |
| `OftProgram.WithdrawFee` | programs/oft/src/instructions/withdraw_fee.rs:36-61 | the same for fee withdrawal; on success the admin asked for at most the surplus, the chosen account gains what arrives of it, the escrow pays it and no other account changes |
| `OftProgram.PeerConfig.LimitOutbound` | programs/oft/src/instructions/send.rs:70-75 | consumes the outbound bucket, then refills the inbound one |
| `OftProgram.PeerConfig.LimitInbound` | programs/oft/src/instructions/lz_receive.rs:104-111 | consumes the inbound bucket, then refills the outbound one |
| `OftProgram.PeerConfig.Configure` | programs/oft/src/instructions/set_peer_config.rs:26-58 | admin only; a peer fee must be below 100 percent |
| `OftProgram.OftStore.Configure` | programs/oft/src/instructions/set_oft_config.rs:17-49 | admin only; the default fee must be below 100 percent |
| `OftProgram.OftStore.Init` | programs/oft/src/instructions/init_oft.rs:40-63 | initial state and the rate, a power of ten |
| `OftSteps.InitOftIff` | programs/oft/src/instructions/init_oft.rs:43-48 | initialisation succeeds exactly when the shared decimals are at most 19 below the mint's, and which error it gives otherwise |
| `OftRuns.InitOftGivesInitial` | programs/oft/src/instructions/init_oft.rs:40-63 | with its empty escrow, what `init_oft` stores is the initial state of the run theorems, at a rate of ten to the gap of decimals, under the given admin, not paused and without pausers |
| `OftSteps.ReceivedIsWhole` | programs/oft/src/instructions/quote_send.rs:82-106 | whatever the configuration, the delivery is a whole number of shared units |
| `OftSteps.AmountIsDelivered` | programs/oft/src/instructions/send.rs:131-149 | the receiving end computes exactly the shared units sent; with equal rates, exactly the reported amount |
| `OftSteps.ComposeIsPredicted` | programs/oft/src/instructions/lz_receive_types.rs:112-135 | `lz_receive_types` predicts byte for byte what `lz_receive` hands to the composer |
| `OftSteps.PredictedComposeIs` | programs/oft/src/instructions/lz_receive_types.rs:112-135 | what it predicts for every message, deliverable or not |
| `OftSteps.ComposeReachesReceiver` | programs/oft/src/instructions/lz_receive.rs:159-177 | what a user attaches to `send` reaches the composer at the other end with the sender and the credited amount, and only then |
| `OftSteps.SendSucceedsIff` | programs/oft/src/instructions/send.rs:53-149 | exact condition for a send to succeed in a reachable configuration: ownership, pause, slippage, a clock that is not negative and an amount within the refilled outbound bucket, balances and overflows, never the charge |
| `OftSteps.WhySendFails` | programs/oft/src/instructions/send.rs:58-130 | the error of a send that fails, in the order in which the reasons count |
| `OftSteps.SendTouchesOnly` | programs/oft/src/instructions/send.rs:77-123 | the source pays exactly the sent amount and no account but it and the escrow changes |
| `OftSteps.ReceiveTouchesOnly` | programs/oft/src/instructions/lz_receive.rs:113-157 | the account of the named receiver gains exactly the reported amount and no other account but the escrow changes |
| `OftSteps.ReturnUndoesSend` | programs/oft/src/instructions/lz_receive.rs:104-111 | a sent amount returned at one clock reading passes the limiters exactly when it is within the inbound capacity; then the outbound bucket is as before, and the inbound one exactly while there was room |
| `OftSteps.ReturnCanBeRefused` | programs/oft/src/instructions/lz_receive.rs:104-111 | a send of 50 passes limiters of capacity 100 out and 10 in, and cannot be returned |
| `OftSteps.QuotedMessageAgreesIff` | programs/oft/src/instructions/quote_send.rs:37-73 | the priced message has the right length, and is the sent one exactly when units coincide and no sender is attached |
| `OftSteps.QuotedMessageCanDiffer` | programs/oft/src/instructions/quote_send.rs:37-73 | offering 20 at ten local units per shared unit prices 20 and sends 2 |
| `OftSteps.QuoteSendIff` | programs/oft/src/instructions/quote_send.rs:26-73 | when `quote_send` gives a price, for which message, and why not |
| `OftSteps.WithdrawFeeIff` | programs/oft/src/instructions/withdraw_fee.rs:37-59 | succeeds exactly for the admin within the surplus, pays it to the chosen account, touches no other and never the locked value; names both refusals |
| `OftRuns.RunsKeepInv` | programs/oft/src/instructions/set_oft_config.rs:34-37 | in every run all fees stay below 100 percent, buckets within capacity, and the locked value dust-free and covered by the escrow |
| `OftRuns.OnlyAdminChangesSettings` | programs/oft/src/instructions/set_peer_config.rs:16-58 | no step but the admin's changes fees, peers, limits or roles; only the admin, pauser or unpauser changes the pause |
| `OftSettings.PeerFeeIsCharged` | programs/oft/src/instructions/set_peer_config.rs:31-36 | the admin, and nobody else, gives a peer a fee below 100 percent, which its sends are charged from then on whatever the default |
| `OftSettings.DefaultFeeIsChargedWithoutOwn` | programs/oft/src/instructions/set_peer_config.rs:31-36 | taking the fee away leaves the peer to the default |
| `OftSettings.DefaultFeeIsCharged` | programs/oft/src/instructions/set_oft_config.rs:34-37 | a default set by the admin is charged for every peer without a fee of its own |
| `OftSettings.PeerAddressGoverns` | programs/oft/src/instructions/set_peer_config.rs:28-30 | once set, deliveries from that endpoint must come from the address and sends go to it; a new peer starts without limits or fee |
| `OftSettings.LimitsAreConfigured` | programs/oft/src/instructions/set_peer_config.rs:43-54 | each direction's limiter is configured on its own, by the admin only |
| `OftSettings.FreshLimitAllows` | programs/oft/src/state/peer_config.rs:32-37 | right after a capacity is set, an amount passes outward exactly when it is within it |
| `OftSettings.RolesAreNamed` | programs/oft/src/instructions/set_oft_config.rs:17-49 | only the admin names a successor, a pauser or an unpauser; whoever is named, and nobody else, then has the role |
| `OftSettings.PauseIsSetIff` | programs/oft/src/instructions/set_pause.rs:4-36 | the admin and the pauser set the pause, the admin and the unpauser lift it |
| `OftSettings.PauseHolds` | programs/oft/src/instructions/lz_receive.rs:74 | in every run in which nobody lifts the pause no send or delivery succeeds and the locked value stands still |
| `OftRuns.EscrowAccounting` | programs/oft/src/instructions/withdraw_fee.rs:37-59 | in every run the escrow holds the locked value plus fees collected and donations less fees withdrawn |
| `OftRuns.SendKeepsVault` | programs/oft/src/instructions/send.rs:77-123 | one send keeps the locked value whole and covered and raises the surplus by exactly the fee |
| `OftRuns.ReceiveKeepsVault` | programs/oft/src/instructions/lz_receive.rs:113-157 | one delivery keeps the locked value whole and covered and leaves the surplus unchanged |
| `NetFlow.NetFlowIsBounded` | programs/oft/src/instructions/send.rs:70-75 | over any window without reconfiguration, opened at any clock reading, the net amount sent to a peer, or received from it, is at most the level of the bucket at the opening plus rate times the window's forward clock moves, hence at most capacity plus those |
| `NetFlow.PotentialBound` | programs/oft/src/instructions/lz_receive.rs:104-111 | the inductive form: net flow plus the level at the end never exceeds the level at the opening plus what the window's clock earned |
| `NetFlow.StepConserves` | programs/oft/src/state/peer_config.rs:39-62 | a step leaves a limiter alone and moves nothing, or moves at most its level and takes exactly that off it, giving back what returns up to the capacity |
| `NetFlow.MonotoneClockTime` | programs/oft/src/state/peer_config.rs:41-46 | on a monotone clock the forward moves are the length of the window |
| `Bridge.EveryRunIsSolvent` | programs/oft/src/instructions/lz_receive.rs:100-158 | in every run of both ends the adapter's locked value equals, in shared units, the native program's net issue plus everything in flight, and that issue is the native supply plus what holders burned |
| `Bridge.RunsKeepSolvent` | programs/oft/src/instructions/lz_receive.rs:100-158 | the invariant behind it, kept by every run from every state that has it |
| `Bridge.EveryRunCanPay` | programs/oft/src/instructions/lz_receive.rs:113-129 | in every run all messages in flight together are covered by the locked value and that by the escrow |
| `Bridge.EverythingIsBacked` | programs/oft/src/instructions/send.rs:59-149 | in common units the locked value is exactly the native supply plus what holders burned plus the messages in flight, so supply and flight never exceed it |
| `Bridge.DeliveryToAdapterIff` | programs/oft/src/instructions/lz_receive.rs:25-158 | a delivery to the adapter never fails for want of funds or by overflow of its amount; exact condition for success: known source, accounts, pause, limiters, receiver's balance |
| `Bridge.DeliveryToNativeIff` | programs/oft/src/instructions/lz_receive.rs:25-158 | exact condition for a delivery to the native end, among it that the amount fits its units and that the store can mint by itself: it is the mint authority or a member of a one-of-n multisig that is |
| `OftSteps.CoveredReceiveIff` | programs/oft/src/instructions/lz_receive.rs:25-158 | when an adapter's receive succeeds whose amount the locked value covers |
| `OftSteps.MintedReceiveIff` | programs/oft/src/instructions/lz_receive.rs:25-158 | when a native receive succeeds |
| `OftSteps.WhyReceiveFails` | programs/oft/src/instructions/lz_receive.rs:25-158 | the error of a delivery that fails, in the order in which the reasons count |
| `Stranded.OversizedIsNeverDelivered` | programs/oft/src/instructions/lz_receive.rs:100-102 | a message for the native end alone whose amount does not fit its units stays in flight in every continuation of a run |
| `Stranded.StrandingIsReachableIff` | programs/oft/src/instructions/init_oft.rs:43-48 | for every pair of rates some run from fresh deployments strands a message exactly when the least amount that does not fit the native end still fits the adapter |
| `Stranded.StrandingIffWiderGap` | programs/oft/src/instructions/init_oft.rs:43-48 | for ends made by `init_oft` with common shared decimals, exactly when the native mint has more decimals than the adapter's |
| `Stranded.NineteenDecimalsStrand` | programs/oft/src/instructions/init_oft.rs:43-48 | an instance: adapter rate 1, native rate 10^19 |
| `BigEndian.LexLessIsNumeric` | programs/solana-proxy/src/instructions/send_claim.rs:210-216 | byte-wise order of equally long arrays is the order of their big-endian values |
| `Merkle.AddressIsLowBytes` | programs/solana-proxy/src/instructions/send_claim.rs:197-202 | the address of a key is its hash modulo 256^20 |
| `Merkle.LeafIsTwiceHashed` | programs/solana-proxy/src/instructions/send_claim.rs:188-195 | a leaf hashes twice the 64 bytes of address and amount |
| `Merkle.SmallerComesFirst` | programs/solana-proxy/src/instructions/send_claim.rs:210-223 | a pair is hashed in ascending order |
| `Merkle.FoldStartsAtLeaf` | programs/solana-proxy/src/instructions/send_claim.rs:204-208 | the first sibling of a proof is paired with the leaf |
| `Merkle.SiblingsProveLeaf` | programs/solana-proxy/src/instructions/send_claim.rs:204-223 | completeness: folding a leaf's siblings gives the root, whichever side each is on |
| `Merkle.ContainedClaimHasProof` | programs/solana-proxy/src/instructions/send_claim.rs:204-208 | every claim of a tree has an accepted proof |
| `Merkle.ProofIsSound` | programs/solana-proxy/src/instructions/send_claim.rs:188-223 | soundness: an accepted claim is in the tree, or a collision between an input of the check and an input of the tree is at hand |
| `ProxyProgram.ProxyAccounts.SubmitProof` | programs/solana-proxy/src/instructions/send_claim.rs:38-62 | stores the user's claim with the folded root in place |
| `ProxySteps.SubmitProofSucceedsIff` | programs/solana-proxy/src/instructions/send_claim.rs:38-62 | exactly while not paused, stores distribution, amount, user and root of that user, and touches nothing else |
| `ProxyProgram.ProxyAccounts.SendClaim` | programs/solana-proxy/src/instructions/send_claim.rs:126-177 | charges, checks the fee, sends the stored claim and closes it and no other; what the user offers splits into what the proxy gains and what is passed on |
| `ProxyProgram.ProxyAccounts.SendRequest` | programs/solana-proxy/src/instructions/send_request.rs:41-97 | checks fee and type, sends, charges; what the user offers splits likewise, and no claim changes |
| `ProxyProgram.ProxyAccounts.LzReceive` | programs/solana-proxy/src/instructions/lz_receive.rs:79-115 | checks the message and pays its amount out of the proxy's account to the receiver it names |
| `ProxyProgram.ProxyAccounts.WithdrawFee` | programs/solana-proxy/src/instructions/withdraw_fee.rs:21-34 | pays out lamports above the rent minimum |
| `ProxyRuns.ClaimIsLatestSubmission` | programs/solana-proxy/src/instructions/send_claim.rs:38-63 | in every run a user's stored claim is that user's latest unconsumed submission, whatever others do |
| `ProxyRuns.SentClaimIsLatestSubmission` | programs/solana-proxy/src/instructions/send_claim.rs:126-178 | a sent claim reads at the ledger as the sender with the distribution id, amount and folded root of the latest submission, which it consumes |
| `ProxyRuns.SendsNeverExceedSubmissions` | programs/solana-proxy/src/instructions/send_claim.rs:91-97 | a user's sends never exceed that user's submissions |
| `ProxyRuns.SentClaimIsEntitled` | programs/solana-proxy/src/instructions/send_claim.rs:41-46 | if the root a sent claim carries is a tree's root, the sender's address is entitled to the amount in that tree, or a collision is at hand |
| `SolanaProxy.RequestCollects` | programs/solana-proxy/src/instructions/send_request.rs:46-94 | a sent request costs the user the backward fee and the endpoint's price, no more; the proxy gains the former, and the fee passed on covers the latter |
| `SolanaProxy.ClaimCollects` | programs/solana-proxy/src/instructions/send_claim.rs:141-168 | the same for claims |
| `ProxySteps.SendRequestSucceedsIff` | programs/solana-proxy/src/instructions/send_request.rs:41-97 | exact condition in the protocol's numbers: types 2, 3, 4, 5, 6, 8, 9, 10, 15, peer, pause, fee by type, price and balances; the bytes sent |
| `ProxySteps.WhySendRequestFails` | programs/solana-proxy/src/instructions/send_request.rs:41-59 | the error of a refused request, in the order in which the reasons count |
| `ProxySteps.SendClaimSucceedsIff` | programs/solana-proxy/src/instructions/send_claim.rs:126-168 | the same for claims, of type 16, with the three stored words as payload |
| `ProxySteps.QuoteRequestSucceedsIff` | programs/solana-proxy/src/instructions/quote_request.rs:35-71 | when a request is priced, for which bytes, and at what fee |
| `ProxySteps.QuoteClaimSucceedsIff` | programs/solana-proxy/src/instructions/quote_claim.rs:39-72 | the same for claims |
| `ProxySteps.NothingWithoutFees` | programs/solana-proxy/src/instructions/send_request.rs:31-35 | before the fees are set nothing is sent or quoted |
| `ProxyRuns.QuotedRequestSucceedsIff` | programs/solana-proxy/src/instructions/quote_request.rs:35-71 | paying the quote passes the fee check exactly when the quoted price is positive; it is sent exactly when moreover the endpoint collects no more than it quoted and the user can pay both fees; then the priced message is sent and the proxy gains the backward fee |
| `ProxyRuns.QuotedClaimSucceedsIff` | programs/solana-proxy/src/instructions/quote_claim.rs:65-71 | the same for claims |
| `ProxyRuns.RentIsNeverSpent` | programs/solana-proxy/src/instructions/withdraw_fee.rs:21-34 | in every run the proxy keeps the rent minimum |
| `ProxyRuns.LamportAccounting` | programs/solana-proxy/src/instructions/withdraw_fee.rs:21-34 | in every run the proxy's lamports are the starting ones plus backward fees and deposits less withdrawals, which never reach into the rent minimum |
| `ProxyRuns.WithdrawFeeIff` | programs/solana-proxy/src/instructions/withdraw_fee.rs:21-34 | succeeds exactly for the admin within the surplus over the rent minimum and moves exactly the amount; names both refusals |
| `ProxyRuns.UsdcAccounting` | programs/solana-proxy/src/instructions/lz_receive.rs:104-113 | in every run the proxy's USDC changes only by deposits and payouts |
| `ProxySteps.ReceiptSucceedsIff` | programs/solana-proxy/src/instructions/lz_receive.rs:79-115 | for every message: paid exactly when the peer sent it, its bytes name the receiver, token 2 and type 14, 32 bytes follow, and the proxy is not paused and has the amount in their low 8 |
| `ProxySteps.WhyReceiptFails` | programs/solana-proxy/src/instructions/lz_receive.rs:79-103 | the error of a refused message, in the order in which the reasons count |
| `ProxySteps.FeesGovern` | programs/solana-proxy/src/instructions/set_backward_fee.rs:28-34 | the admin, and nobody else, sets the fees by which quotes then go |
| `ProxySteps.PeerGoverns` | programs/solana-proxy/src/instructions/set_peer_config.rs:29-34 | the admin, and nobody else, sets whom the proxy writes to and hears at an endpoint |
| `ProxySteps.PauseIsSetIff` | programs/solana-proxy/src/instructions/set_pause.rs:19-25 | the admin, and nobody else, sets and lifts the pause |
| `ProxySteps.PauseHolds` | programs/solana-proxy/src/instructions/lz_receive.rs:80 | in every run in which the pause is not lifted no proof, claim, request or payout gets through and every stored claim stays |
| `ProxySteps.OnlyAdminChangesSettings` | programs/solana-proxy/src/instructions/set_pause.rs:8-15 | no step but the admin's changes fees, peers or the pause |
| `ProxyMessages.UsdcAmountTruncates` | programs/solana-proxy/src/instructions/msg_codec.rs:93-97 | the proxy reads the ledger's amount modulo 2^64, exactly for the amounts below it |
| `ProxyMessages.PayloadTypeRoundTrip` | programs/solana-proxy/src/instructions/msg_codec.rs:157-209 | the payload codes agree on both sides; what the proxy may send the ledger accepts |
| `ProxyMessages.CodesOnTheWire` | contracts/lib/OCCTypes.sol:8-56 | the numbers of payload types and tokens that either side sends and accepts |
| `Ledger.LedgerOApp.LzReceive` | contracts/LedgerOApp.sol:74-100 | only the peer on Solana is heard, and what the OCC manager is told packs back into the message that came in |
| `Ledger.ReceiveIff` | contracts/LedgerOApp.sol:74-100 | a given OCC message is handed on exactly when it says what the wire says, has a type in 2 to 10, 15 or 16, and comes from the Solana peer while not paused |
| `Ledger.LedgerOApp.LedgerOappSend` | contracts/LedgerOApp.sol:106-134 | on success the caller is the manager, the value covers the price, the options are the configured ones with 500000 gas for none, and the message to the Solana peer names the receiver and spells the ordered amount |
| `Ledger.PayoutIsOrderedIff` | contracts/LedgerOApp.sol:106-134 | exact condition for an order to be sent, and exactly which 66 bytes, receiver and options go out |
| `Ledger.LedgerOApp.SetOptions` | contracts/LedgerOApp.sol:55-58 | succeeds exactly for the owner and type 14; then sends and quotes of that type, and of no other, read the new options; a refusal changes nothing |
| `Ledger.QuotedPayoutIsAcceptedIff` | contracts/LedgerOApp.sol:106-153 | an order that pays its quote is accepted exactly when caller, endpoint, chain, type, destination, token and peer are right and the type has a gas limit or the default gas costs no more than none |
| `Ledger.QuoteCanFallShort` | contracts/LedgerOApp.sol:136-153 | a fresh, wired contract whose order is refused at its quote and accepted at the price of the default gas |
| `Ledger.ConfiguringGasRepairsQuote` | contracts/LedgerOApp.sol:55-58 | once the owner sets a gas limit, paying the quote is accepted for every order that would be accepted at some price |
| `Delivery.VaultMessageIsReceivedIff` | contracts/lib/MsgCodec.sol:53-61 | a proxy message reads back unchanged; exact condition for its acceptance |
| `Delivery.RequestIsDelivered` | contracts/LedgerOApp.sol:81-96 | a sent request arrives with the call's user, type and payload and amount zero |
| `Delivery.ClaimIsDelivered` | contracts/LedgerOApp.sol:81-96 | a sent claim arrives with the stored distribution, amount and root |
| `Delivery.PayoutIsDeliveredIff` | programs/solana-proxy/src/instructions/lz_receive.rs:79-115 | an ordered payout pays its stated receiver only, exactly the ordered amount when below 2^64; exact condition for success |
| `Delivery.LargeOrderPaysNothing` | programs/solana-proxy/src/instructions/lz_receive.rs:79-115 | an order of 2^64 is accepted by a wired, unpaused proxy and pays zero |
| `Delivery.EveryRunAccountsForPayouts` | contracts/LedgerOApp.sol:106-133 | in every run, for each receiver and for all together, paid plus in flight plus lost is what was ordered; nothing is lost exactly when no accepted order was 2^64 or more; everything in flight is a message the proxy accepts |
| `Delivery.LinkRunsAreProxyRuns` | programs/solana-proxy/src/instructions/lz_receive.rs:79-115 | the proxy's part of such a run is a run of the proxy, which pays out exactly what the link records |
| `Delivery.PaymentsComeFromProxy` | programs/solana-proxy/src/instructions/lz_receive.rs:104-113 | over every run the proxy's USDC is the starting balance plus deposits less exactly the payments to others |

## Left out

- LayerZero endpoint, executor and library internals, and the option bytes (`combine_options`, `assert_type_3`, enforced options): not in the repository or opaque to these programs.
- Account plumbing: address derivation, associated-account creation costs, bumps, serialisation space, rent paid by users. The checks that gate a step are kept.
- Token-2022 and SPL internals beyond balances, owners, supply and the transfer fee; withheld fees leave the model.
- `lz_receive_types`: the account list itself; only the composed message it predicts is modelled, as a function.
- `msg_codec.rs`, `compose_msg_codec.rs`: buffers filled in place are modelled as concatenations.
- `OFTStore::remove_dust` and friends at rate zero: `init_oft` only ever stores a power of ten and nothing changes it later.
- The `RateLimiter` copy in the proxy's `peer_config.rs`: no proxy instruction consumes it.
- Upgradeable OApp base contracts: ownership transfer, native refunds, the endpoint-only caller check; the peer check is kept, a peer stored as zero being none.
- Proxy delegate, account-list and admin transfer setters, OFT delegate: single assignments or calls out.
- The OCC manager behind the ledger: its two views are parameters and the message handed to it is the result.
- Events and logging.
- OftProgram.PeerConfig.Configure: the `EnforcedOptions` arm; option bytes are opaque to this program, and the type check on them is not in the repository.
- OftProgram.OftStore.Configure: the `Delegate` arm, which changes nothing but the endpoint's records.
- OftProgram.OftStore.Init: the mint, endpoint-program and bump fields, the list account for `lz_receive_types`, and the registration call; nothing modelled reads them.
- Bridge.EveryRunIsSolvent: assumes that the native supply starts at zero and that only the program mints it; other signers of a multisig mint authority, which the source allows, are not modelled at that end. Holders may burn and transfer freely.
- NetFlow.NetFlowIsBounded: a bound on the net flow; the gross flow has none, because every delivery gives allowance back.
