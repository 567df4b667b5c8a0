/** What one OFT instruction guarantees, and how instructions relate to each other. */
module OftSteps {
  import opened Base
  import opened Division
  import opened TransferFees
  import opened Charging
  import opened RateLimits
  import opened Tokens
  import opened Oft
  import OftCodec
  import ComposeCodec

  /** Whatever the configuration, what is delivered is a whole number of shared units. */
  lemma ReceivedIsWhole(store: Store, peer: Peer, env: Env, amountLd: u64)
    ensures var r := ChargeFor(store, peer, env, amountLd);
            r.Ok? ==> r.value.receivedLd == store.rate * Ld2Sd(store.rate, r.value.receivedLd)
  {
    hide CalculateFee, GetPreFeeAmountLd, GetPostFeeAmountLd, RemoveDust, Ld2Sd;
    var r := ChargeFor(store, peer, env, amountLd);
    if r.Ok? {
      var offeredLd := if store.oftType.Adapter? then Arriving(env.mintFee, amountLd) else amountLd;
      var cleanLd := RemoveDust(store.rate, offeredLd);
      var rawFeeLd := CalculateFee(cleanLd, store.defaultFeeBps, peer.feeBps);
      RemoveDustIsWhole(store.rate, offeredLd);
      RemoveDustIsWhole(store.rate, rawFeeLd);
      DifferenceOfMultiples(store.rate, r.value.receivedLd, Ld2Sd(store.rate, offeredLd), Ld2Sd(store.rate, rawFeeLd));
    }
  }

  lemma DifferenceOfMultiples(rate: Rate, differenceLd: u64, a: u64, b: u64)
    requires differenceLd == rate * a - rate * b
    ensures differenceLd == rate * Ld2Sd(rate, differenceLd)
  {
    assert differenceLd == (a - b) * rate;
    MultipleQuotient(a - b, rate);
  }

  /** The amount survives the wire: the receiving end computes, in its own local units, exactly
      the shared units that were sent; with equal rates that is the amount `send` reported. */
  lemma AmountIsDelivered(store: Store, peer: Peer, tokens: TokenState, env: Env, accounts: SendAccounts,
          params: SendParams, remote: Store, received: LzReceiveParams)
    requires var sent := Send(store, peer, tokens, env, accounts, params);
             sent.Ok? && received.message == sent.value.message
    ensures var reportedLd := Send(store, peer, tokens, env, accounts, params).value.charge.receivedLd;
            var arrived := AmountLd(remote, received);
            && (arrived.Ok? ==> arrived.value * store.rate == reportedLd * remote.rate)
            && (arrived.Ok? <==> Ld2Sd(store.rate, reportedLd) * remote.rate < U64_LIMIT)
            && (remote.rate == store.rate ==> arrived == Ok(reportedLd))
  {
    hide OftCodec.Encode, OftCodec.AmountSd, OftCodec.SendTo, OftCodec.ComposeMsg;
    hide ComputeFeeAndAdjustAmount, TakeTokens, LimitOutbound, Ld2Sd;
    var charge := ChargeFor(store, peer, env, params.amountLd).value;
    var amountSd := Ld2Sd(store.rate, charge.receivedLd);
    OftCodec.DecodeEncode(params.to, amountSd, accounts.signer, params.composeMsg);
    ReceivedIsWhole(store, peer, env, params.amountLd);
    Regroup(amountSd, remote.rate, store.rate);
  }

  lemma Regroup(a: int, b: int, c: int)
    ensures (a * b) * c == (c * a) * b
  {
  }

  /** `lz_receive_types` predicts, byte for byte, what `lz_receive` hands to the composer. */
  lemma ComposeIsPredicted(store: Store, peer: Peer, tokens: TokenState, env: Env, accounts: ReceiveAccounts,
          params: LzReceiveParams)
    ensures var r := LzReceive(store, peer, tokens, env, accounts, params);
            r.Ok? ==> PredictedCompose(store, env, params) == Ok(r.value.compose)
  {
    hide OftCodec.AmountSd, OftCodec.SendTo, OftCodec.ComposeMsg, ComposeCodec.Encode, ReleaseTokens, LimitInbound;
  }

  /** What it predicts for every message, deliverable or not: nothing to compose unless bytes follow the
      amount, and otherwise the amount credited, unless that overflows. */
  lemma PredictedComposeIs(store: Store, env: Env, params: LzReceiveParams)
    ensures var r, length := PredictedCompose(store, env, params), |params.message|;
            && (length < 32 ==> r == Err(Abort))
            && (32 <= length <= 64 ==> r == Ok(None))
            && (64 < length ==>
                  match AmountLd(store, params)
                  case Err(_) => r == Err(Abort)
                  case Ok(amountLd) =>
                    && r.Ok? && r.value.Some?
                    && r.value.value.to == params.message[..32] && r.value.value.guid == params.guid
                    && r.value.value.message
                       == ComposeCodec.Encode(params.nonce, params.srcEid,
                                              if store.oftType.Adapter? then Arriving(env.mintFee, amountLd)
                                              else amountLd,
                                              params.message[64..]))
  {
    hide Arriving, PredictedLd, ComposeCodec.Encode, AmountLd;
    AmountErrors(store, params);
    if AmountLd(store, params).Ok? {
      PredictedLdIs(store, env, AmountLd(store, params).value);
    }
  }

  lemma PredictedLdIs(store: Store, env: Env, amountLd: u64)
    ensures PredictedLd(store, env, amountLd)
         == Ok(if store.oftType.Adapter? then Arriving(env.mintFee, amountLd) else amountLd)
  {
    hide Arriving, GetPostFeeAmountLd;
  }

  lemma AmountErrors(store: Store, params: LzReceiveParams)
    ensures AmountLd(store, params).Err? ==> AmountLd(store, params) == Err(Abort)
  {
    hide OftCodec.AmountSd;
  }

  /** What a user attaches to `send` reaches the composer at the other end, next to the amount that
      was actually credited; nothing is composed when nothing was attached. */
  lemma ComposeReachesReceiver(store: Store, peer: Peer, tokens: TokenState, env: Env, accounts: SendAccounts,
          params: SendParams, remote: Store, remotePeer: Peer, remoteTokens: TokenState, remoteEnv: Env,
          remoteAccounts: ReceiveAccounts, received: LzReceiveParams)
    requires var sent := Send(store, peer, tokens, env, accounts, params);
             sent.Ok? && received.message == sent.value.message
    requires LzReceive(remote, remotePeer, remoteTokens, remoteEnv, remoteAccounts, received).Ok?
    ensures var r := LzReceive(remote, remotePeer, remoteTokens, remoteEnv, remoteAccounts, received).value;
            && remoteAccounts.toAddress == params.to
            && (r.compose.Some? <==> params.composeMsg.Some?)
            && (params.composeMsg.Some? ==>
                  && r.compose.value.to == params.to && r.compose.value.guid == received.guid
                  && ComposeCodec.Nonce(r.compose.value.message) == Some(received.nonce)
                  && ComposeCodec.SrcEid(r.compose.value.message) == Some(received.srcEid)
                  && ComposeCodec.AmountLd(r.compose.value.message) == Some(r.amountReceivedLd)
                  && ComposeCodec.ComposeFrom(r.compose.value.message) == Some(accounts.signer)
                  && ComposeCodec.ComposeMsg(r.compose.value.message) == params.composeMsg.value)
  {
    hide OftCodec.Encode, OftCodec.AmountSd, OftCodec.SendTo, OftCodec.ComposeMsg, Ld2Sd;
    hide ComputeFeeAndAdjustAmount, TakeTokens, ReleaseTokens, LimitOutbound, LimitInbound;
    hide ComposeCodec.Encode, ComposeCodec.Nonce, ComposeCodec.SrcEid, ComposeCodec.AmountLd;
    hide ComposeCodec.ComposeFrom, ComposeCodec.ComposeMsg;
    var amountSd := Ld2Sd(store.rate, ChargeFor(store, peer, env, params.amountLd).value.receivedLd);
    var r := LzReceive(remote, remotePeer, remoteTokens, remoteEnv, remoteAccounts, received).value;
    OftCodec.DecodeEncode(params.to, amountSd, accounts.signer, params.composeMsg);
    if params.composeMsg.Some? {
      ComposeCodec.ComposeChain(params.to, amountSd, accounts.signer, params.composeMsg.value, received.nonce,
                                received.srcEid, r.amountReceivedLd);
    }
  }

  /** What two limiters ask before the first gives an amount away and the second gets it back: a
      clock that is not negative if there is either, and that the first, once the time passed is
      credited, holds the amount. */
  predicate Allow(spent: Option<Bucket>, refilled: Option<Bucket>, clock: i64, amountLd: u64) {
    && (spent.Some? || refilled.Some? ==> 0 <= clock)
    && (spent.Some? ==> amountLd <= spent.value.Level(clock))
  }

  lemma AllowIff(peer: Peer, clock: i64, amountLd: u64)
    ensures LimitOutbound(peer, clock, amountLd).Ok? <==> Allow(peer.outbound, peer.inbound, clock, amountLd)
    ensures LimitInbound(peer, clock, amountLd).Ok? <==> Allow(peer.inbound, peer.outbound, clock, amountLd)
  {
  }

  /** What a delivery asks of the accounts it is given: the message comes from the peer, names the
      wallet, the token account is new or that wallet's, and a mint authority, if given, is the mint's. */
  predicate AccountsFit(peerAddress: Word, tokens: TokenState, accounts: ReceiveAccounts, params: LzReceiveParams) {
    && peerAddress == params.sender && OftCodec.SendTo(params.message) == Some(accounts.toAddress)
    && (accounts.tokenDest in tokens.accounts ==> tokens.OwnedBy(accounts.tokenDest, accounts.toAddress))
    && (accounts.mintAuthority.Some? ==> accounts.mintAuthority == tokens.mintAuthority)
  }

  lemma AccountsFitIff(store: Store, peerAddress: Word, tokens: TokenState, accounts: ReceiveAccounts,
          params: LzReceiveParams)
    requires tokens.OwnedBy(store.tokenEscrow, store.key)
    ensures var r := CheckReceiveAccounts(store, peerAddress, tokens, accounts, params);
            && (r.Ok? <==> AccountsFit(peerAddress, tokens, accounts, params))
            && (r.Ok? ==> && accounts.tokenDest in r.value.accounts
                          && r.value.OwnedBy(store.tokenEscrow, store.key)
                          && r.value.supply == tokens.supply
                          && (r.value.MintsAlone(store.key) <==> tokens.MintsAlone(store.key))
                          && forall key :: r.value.Balance(key) == tokens.Balance(key))
  {
    hide OftCodec.SendTo;
  }

  /** When an adapter's receive succeeds whose amount is covered by the locked value, and that by the
      escrow: funds are no condition. */
  lemma CoveredReceiveIff(store: Store, peer: Peer, tokens: TokenState, env: Env, accounts: ReceiveAccounts,
          params: LzReceiveParams)
    requires store.oftType.Adapter? && tokens.OwnedBy(store.tokenEscrow, store.key)
    requires AmountLd(store, params).Ok?
    requires AmountLd(store, params).value <= store.tvlLd <= tokens.Balance(store.tokenEscrow)
    ensures var amountLd := AmountLd(store, params).value;
            (LzReceive(store, peer, tokens, env, accounts, params).Ok?
             <==> && AccountsFit(peer.peerAddress, tokens, accounts, params) && !store.paused
                  && Allow(peer.inbound, peer.outbound, env.clock, amountLd)
                  && (|| accounts.tokenDest == store.tokenEscrow
                      || tokens.Balance(accounts.tokenDest) + Arriving(env.mintFee, amountLd) < U64_LIMIT))
  {
    hide AmountLd, CheckReceiveAccounts, AccountsFit, Allow, LimitInbound, ComposeFor, Arriving;
    AccountsFitIff(store, peer.peerAddress, tokens, accounts, params);
    AllowIff(peer, env.clock, AmountLd(store, params).value);
  }

  /** When a native receive succeeds. */
  lemma MintedReceiveIff(store: Store, peer: Peer, tokens: TokenState, env: Env, accounts: ReceiveAccounts,
          params: LzReceiveParams)
    requires store.oftType.Native? && tokens.OwnedBy(store.tokenEscrow, store.key)
    ensures var amountLd := AmountLd(store, params);
            (LzReceive(store, peer, tokens, env, accounts, params).Ok?
             <==> && AccountsFit(peer.peerAddress, tokens, accounts, params) && !store.paused
                  && amountLd.Ok? && Allow(peer.inbound, peer.outbound, env.clock, amountLd.value)
                  && accounts.mintAuthority.Some? && tokens.mintAuthority.Some?
                  && (var authority := tokens.mintAuthority.value;
                      if authority in tokens.multisigs then
                        tokens.multisigs[authority].quorum == 1 && store.key in tokens.multisigs[authority].signers
                      else
                        authority == store.key)
                  && tokens.supply + amountLd.value < U64_LIMIT
                  && tokens.Balance(accounts.tokenDest) + amountLd.value < U64_LIMIT)
  {
    hide AmountLd, CheckReceiveAccounts, AccountsFit, Allow, LimitInbound, ComposeFor, Arriving;
    AccountsFitIff(store, peer.peerAddress, tokens, accounts, params);
    if AmountLd(store, params).Ok? {
      AllowIff(peer, env.clock, AmountLd(store, params).value);
    }
  }

  /** When a send succeeds, for every reachable configuration: the charge itself never fails, so only
      the pause, slippage, limiter, balance and overflow conditions remain. */
  lemma SendSucceedsIff(store: Store, peer: Peer, tokens: TokenState, env: Env, accounts: SendAccounts,
          params: SendParams)
    requires EffectiveBps(store.defaultFeeBps, peer.feeBps) < ONE_IN_BASIS_POINTS
    requires accounts.tokenSource != store.tokenEscrow
    ensures var charge := ChargeFor(store, peer, env, params.amountLd);
            var escrowLd := tokens.Balance(store.tokenEscrow);
            && charge.Ok?
            && (Send(store, peer, tokens, env, accounts, params).Ok?
                <==> && tokens.OwnedBy(accounts.tokenSource, accounts.signer)
                     && tokens.OwnedBy(store.tokenEscrow, store.key)
                     && !store.paused && accounts.messageSender == store.key
                     && params.minAmountLd <= charge.value.receivedLd
                     && Allow(peer.outbound, peer.inbound, env.clock, charge.value.receivedLd)
                     && charge.value.sentLd <= tokens.Balance(accounts.tokenSource)
                     && if store.oftType.Adapter? then
                          && store.tvlLd + charge.value.receivedLd < U64_LIMIT
                          && escrowLd + charge.value.receivedLd + charge.value.oftFeeLd < U64_LIMIT
                        else
                          && charge.value.receivedLd <= tokens.supply
                          && (charge.value.oftFeeLd > 0 ==>
                                escrowLd + Arriving(env.mintFee, charge.value.oftFeeLd) < U64_LIMIT))
  {
    hide OftCodec.Encode, ComputeFeeAndAdjustAmount, LimitOutbound, Ld2Sd, TakeTokens, Arriving, Allow;
    ChargeInWholeUnits(params.amountLd, store.oftType, store.rate, store.defaultFeeBps, env.mintFee, peer.feeBps);
    var charge := ChargeFor(store, peer, env, params.amountLd).value;
    if store.oftType.Adapter? {
      AdapterChargeIsExact(params.amountLd, store.rate, store.defaultFeeBps, env.mintFee, peer.feeBps);
    } else {
      NativeChargeSplits(params.amountLd, store.rate, store.defaultFeeBps, env.mintFee, peer.feeBps);
    }
    if tokens.OwnedBy(accounts.tokenSource, accounts.signer) && tokens.OwnedBy(store.tokenEscrow, store.key) {
      AllowIff(peer, env.clock, charge.receivedLd);
      TakeTokensIff(store, tokens, env, accounts.tokenSource, charge);
    }
  }

  /** Why a send fails, in the order in which the reasons count. */
  lemma WhySendFails(store: Store, peer: Peer, tokens: TokenState, env: Env, accounts: SendAccounts,
          params: SendParams)
    requires tokens.OwnedBy(accounts.tokenSource, accounts.signer) && tokens.OwnedBy(store.tokenEscrow, store.key)
    ensures var r := Send(store, peer, tokens, env, accounts, params);
            var charge := ChargeFor(store, peer, env, params.amountLd);
            && (store.paused ==> r == Err(Paused))
            && (!store.paused && charge.Ok? ==>
                  var receivedLd := charge.value.receivedLd;
                  && (receivedLd < params.minAmountLd ==> r == Err(SlippageExceeded))
                  && (params.minAmountLd <= receivedLd ==>
                        && (peer.outbound.Some? && 0 <= env.clock && peer.outbound.value.Level(env.clock) < receivedLd
                            ==> r == Err(RateLimitExceeded))
                        && (Allow(peer.outbound, peer.inbound, env.clock, receivedLd) ==>
                              match TakeTokens(store, tokens, env, accounts.tokenSource, charge.value)
                              case Err(_) => r == Err(Abort)
                              case Ok(_) => accounts.messageSender != store.key ==> r == Err(InvalidSender))))
  {
    hide ComputeFeeAndAdjustAmount, OftCodec.Encode, TakeTokens, LimitOutbound, Ld2Sd, Allow;
    var charge := ChargeFor(store, peer, env, params.amountLd);
    if charge.Ok? {
      LimitErrors(peer, env.clock, charge.value.receivedLd);
      TakeTokensErrors(store, tokens, env, accounts.tokenSource, charge.value);
    }
  }

  lemma TakeTokensErrors(store: Store, tokens: TokenState, env: Env, source: Pubkey, charge: Charge)
    ensures var r := TakeTokens(store, tokens, env, source, charge);
            r.Err? ==> r == Err(Abort)
  {
    hide Arriving;
  }

  /** A limiter refuses what it does not hold; there is nothing else it can report by name. */
  lemma LimitErrors(peer: Peer, clock: i64, amountLd: u64)
    ensures LimitOutbound(peer, clock, amountLd).Ok? <==> Allow(peer.outbound, peer.inbound, clock, amountLd)
    ensures LimitInbound(peer, clock, amountLd).Ok? <==> Allow(peer.inbound, peer.outbound, clock, amountLd)
    ensures 0 <= clock && peer.outbound.Some? && peer.outbound.value.Level(clock) < amountLd ==>
              LimitOutbound(peer, clock, amountLd) == Err(RateLimitExceeded)
    ensures 0 <= clock && peer.inbound.Some? && peer.inbound.value.Level(clock) < amountLd ==>
              LimitInbound(peer, clock, amountLd) == Err(RateLimitExceeded)
  {
  }

  /** Why a delivery fails, in the order in which the reasons count. */
  lemma WhyReceiveFails(store: Store, peer: Peer, tokens: TokenState, env: Env, accounts: ReceiveAccounts,
          params: LzReceiveParams)
    requires tokens.OwnedBy(store.tokenEscrow, store.key) && 32 <= |params.message|
    ensures var r := LzReceive(store, peer, tokens, env, accounts, params);
            && (peer.peerAddress != params.sender ==> r == Err(InvalidSender))
            && (peer.peerAddress == params.sender ==>
                  && (params.message[..32] != accounts.toAddress ==> r == Err(InvalidTokenDest))
                  && (params.message[..32] == accounts.toAddress && accounts.tokenDest !in tokens.accounts ==>
                        accounts.mintAuthority.Some? && accounts.mintAuthority != tokens.mintAuthority ==>
                          r == Err(InvalidMintAuthority)))
    ensures var r := LzReceive(store, peer, tokens, env, accounts, params);
            AccountsFit(peer.peerAddress, tokens, accounts, params) ==>
              && (store.paused ==> r == Err(Paused))
              && (!store.paused && AmountLd(store, params).Ok? ==>
                    var amountLd := AmountLd(store, params).value;
                    && (0 <= env.clock && peer.inbound.Some? && peer.inbound.value.Level(env.clock) < amountLd ==>
                          r == Err(RateLimitExceeded))
                    && (Allow(peer.inbound, peer.outbound, env.clock, amountLd) ==>
                          store.oftType.Native? && accounts.mintAuthority.None? ==> r == Err(InvalidMintAuthority)))
  {
    hide OftCodec.AmountSd, OftCodec.ComposeMsg, LimitInbound, ComposeFor, Arriving, Sd2Ld, Allow;
    if AmountLd(store, params).Ok? {
      LimitErrors(peer, env.clock, AmountLd(store, params).value);
    }
  }

  /** When `quote_send` gives a price, and why not. */
  lemma QuoteSendIff(store: Store, peer: Peer, env: Env, params: SendParams)
    requires (if peer.feeBps.Some? then peer.feeBps.value else store.defaultFeeBps) < 10_000
    ensures var r := QuotedMessage(store, peer, env, params);
            var charge := ChargeFor(store, peer, env, params.amountLd);
            && charge.Ok?
            && (r.Ok? <==> !store.paused && params.minAmountLd <= charge.value.receivedLd)
            && (store.paused ==> r == Err(Paused))
            && (!store.paused && r.Err? ==> r == Err(SlippageExceeded))
            && (r.Ok? ==> && OftCodec.SendTo(r.value) == Some(params.to)
                          && OftCodec.AmountSd(r.value) == Some(charge.value.receivedLd)
                          && OftCodec.ComposeMsg(r.value)
                             == if params.composeMsg.None? then None else Some(ZeroWord() + params.composeMsg.value))
  {
    hide ComputeFeeAndAdjustAmount, OftCodec.Encode, OftCodec.SendTo, OftCodec.AmountSd, OftCodec.ComposeMsg;
    hide EffectiveBps;
    ChargeInWholeUnits(params.amountLd, store.oftType, store.rate, store.defaultFeeBps, env.mintFee, peer.feeBps);
    var receivedLd := ChargeFor(store, peer, env, params.amountLd).value.receivedLd;
    OftCodec.DecodeEncode(params.to, receivedLd, ZeroWord(), params.composeMsg);
  }

  lemma TakeTokensIff(store: Store, tokens: TokenState, env: Env, source: Pubkey, charge: Charge)
    requires source != store.tokenEscrow && source in tokens.accounts && store.tokenEscrow in tokens.accounts
    requires charge.receivedLd + charge.oftFeeLd
          == if store.oftType.Adapter? then Arriving(env.mintFee, charge.sentLd) else charge.sentLd
    ensures TakeTokens(store, tokens, env, source, charge).Ok?
       <==> && charge.sentLd <= tokens.Balance(source)
            && if store.oftType.Adapter? then
                 && store.tvlLd + charge.receivedLd < U64_LIMIT
                 && tokens.Balance(store.tokenEscrow) + charge.receivedLd + charge.oftFeeLd < U64_LIMIT
               else
                 && charge.receivedLd <= tokens.supply
                 && (charge.oftFeeLd > 0 ==>
                       tokens.Balance(store.tokenEscrow) + Arriving(env.mintFee, charge.oftFeeLd) < U64_LIMIT)
  {
    hide Arriving;
  }

  /** One account besides the escrow changes, by `change`. */
  ghost predicate ChangesOnly(before: TokenState, after: TokenState, escrow: Pubkey, account: Pubkey, change: int) {
    && after.Balance(account) == before.Balance(account) + change
    && forall key :: key != account && key != escrow ==> after.Balance(key) == before.Balance(key)
  }

  /** The message names the receiver, the delivery in shared units, and what the sender attached. */
  ghost predicate Spells(message: Bytes, rate: Rate, accounts: SendAccounts, params: SendParams, receivedLd: u64) {
    && OftCodec.SendTo(message) == Some(params.to)
    && OftCodec.AmountSd(message) == Some(Ld2Sd(rate, receivedLd))
    && OftCodec.ComposeMsg(message)
       == if params.composeMsg.None? then None else Some(accounts.signer + params.composeMsg.value)
  }

  /** A send takes exactly `sentLd` from its source, at most what was offered, and touches no other
      account but the escrow. */
  lemma SendTouchesOnly(store: Store, peer: Peer, tokens: TokenState, env: Env, accounts: SendAccounts,
          params: SendParams)
    requires Send(store, peer, tokens, env, accounts, params).Ok? && accounts.tokenSource != store.tokenEscrow
    requires EffectiveBps(store.defaultFeeBps, peer.feeBps) < ONE_IN_BASIS_POINTS
    ensures var sent := Send(store, peer, tokens, env, accounts, params).value;
            && sent.charge.sentLd <= params.amountLd
            && ChangesOnly(tokens, sent.tokens, store.tokenEscrow, accounts.tokenSource, -(sent.charge.sentLd as int))
  {
    hide OftCodec.Encode, ComputeFeeAndAdjustAmount, LimitOutbound, Ld2Sd, TakeTokens, Arriving;
    var charge := ChargeFor(store, peer, env, params.amountLd).value;
    if store.oftType.Adapter? {
      AdapterChargeIsExact(params.amountLd, store.rate, store.defaultFeeBps, env.mintFee, peer.feeBps);
    } else {
      NativeChargeSplits(params.amountLd, store.rate, store.defaultFeeBps, env.mintFee, peer.feeBps);
    }
    TakeTokensTouchesOnly(store, tokens, env, accounts.tokenSource, charge);
  }

  lemma TakeTokensTouchesOnly(store: Store, tokens: TokenState, env: Env, source: Pubkey, charge: Charge)
    requires source != store.tokenEscrow
    requires store.oftType.Native? ==> charge.sentLd == charge.receivedLd + charge.oftFeeLd
    ensures var r := TakeTokens(store, tokens, env, source, charge);
            r.Ok? ==> ChangesOnly(tokens, r.value.tokens, store.tokenEscrow, source, -(charge.sentLd as int))
  {
  }

  /** A receive credits exactly the amount it reports to the account the message names, and touches
      no other account but the escrow. */
  lemma ReceiveTouchesOnly(store: Store, peer: Peer, tokens: TokenState, env: Env, accounts: ReceiveAccounts,
          params: LzReceiveParams)
    requires LzReceive(store, peer, tokens, env, accounts, params).Ok? && accounts.tokenDest != store.tokenEscrow
    ensures var r := LzReceive(store, peer, tokens, env, accounts, params).value;
            && peer.peerAddress == params.sender && !store.paused
            && OftCodec.SendTo(params.message) == Some(accounts.toAddress)
            && r.tokens.OwnedBy(accounts.tokenDest, accounts.toAddress)
            && ChangesOnly(tokens, r.tokens, store.tokenEscrow, accounts.tokenDest, r.amountReceivedLd)
  {
    hide OftCodec.AmountSd, OftCodec.SendTo, OftCodec.ComposeMsg, ComposeFor, LimitInbound, Arriving;
  }

  /** What the caller of `send` may rely on. */
  ghost predicate SendPromise(store: Store, peer: Peer, accounts: SendAccounts, params: SendParams,
          before: TokenState, after: TokenState, message: Bytes, charge: Charge)
  {
    && !store.paused && params.minAmountLd <= charge.receivedLd
    && Spells(message, store.rate, accounts, params, charge.receivedLd)
    && (accounts.tokenSource != store.tokenEscrow
        && EffectiveBps(store.defaultFeeBps, peer.feeBps) < ONE_IN_BASIS_POINTS ==>
          && charge.sentLd <= params.amountLd
          && ChangesOnly(before, after, store.tokenEscrow, accounts.tokenSource, -(charge.sentLd as int)))
  }

  lemma SendKeepsPromise(store: Store, peer: Peer, tokens: TokenState, env: Env, accounts: SendAccounts,
          params: SendParams)
    ensures var r := Send(store, peer, tokens, env, accounts, params);
            r.Ok? ==> SendPromise(store, peer, accounts, params, tokens, r.value.tokens, r.value.message,
                                  r.value.charge)
  {
    hide ComputeFeeAndAdjustAmount, OftCodec.Encode, TakeTokens, LimitOutbound, Ld2Sd;
    hide OftCodec.SendTo, OftCodec.AmountSd, OftCodec.ComposeMsg, ChangesOnly;
    var r := Send(store, peer, tokens, env, accounts, params);
    if r.Ok? {
      OftCodec.DecodeEncode(params.to, Ld2Sd(store.rate, r.value.charge.receivedLd), accounts.signer,
                            params.composeMsg);
      if accounts.tokenSource != store.tokenEscrow
          && EffectiveBps(store.defaultFeeBps, peer.feeBps) < ONE_IN_BASIS_POINTS {
        SendTouchesOnly(store, peer, tokens, env, accounts, params);
      }
    }
  }

  /** What the wallet a message names may rely on when `lz_receive` succeeds. */
  ghost predicate ReceivePromise(store: Store, peer: Peer, accounts: ReceiveAccounts, params: LzReceiveParams,
          before: TokenState, after: TokenState, amountLd: u64)
  {
    && !store.paused && peer.peerAddress == params.sender
    && OftCodec.SendTo(params.message) == Some(accounts.toAddress)
    && (accounts.tokenDest != store.tokenEscrow ==>
          && after.OwnedBy(accounts.tokenDest, accounts.toAddress)
          && ChangesOnly(before, after, store.tokenEscrow, accounts.tokenDest, amountLd))
  }

  lemma ReceiveKeepsPromise(store: Store, peer: Peer, tokens: TokenState, env: Env, accounts: ReceiveAccounts,
          params: LzReceiveParams)
    ensures var r := LzReceive(store, peer, tokens, env, accounts, params);
            r.Ok? ==> ReceivePromise(store, peer, accounts, params, tokens, r.value.tokens, r.value.amountReceivedLd)
  {
    hide OftCodec.AmountSd, OftCodec.SendTo, ReceiveAmount, ChangesOnly;
    if && LzReceive(store, peer, tokens, env, accounts, params).Ok?
       && accounts.tokenDest != store.tokenEscrow {
      ReceiveTouchesOnly(store, peer, tokens, env, accounts, params);
    }
  }

  /** Getting a sent amount back at the same clock reading: the limiters let it in exactly when it is
      within the inbound capacity, since sending has just given that much back. Then the outbound
      bucket is only credited for the time passed, and so is the inbound one while it has room. */
  lemma ReturnUndoesSend(peer: Peer, clock: i64, amountLd: u64)
    requires LimitOutbound(peer, clock, amountLd).Ok?
    requires peer.outbound.Some? && peer.outbound.value.Valid()
    requires peer.inbound.Some?
    ensures var sent := LimitOutbound(peer, clock, amountLd).value;
            var returned := LimitInbound(sent, clock, amountLd);
            var inbound := peer.inbound.value;
            && (returned.Ok? <==> amountLd <= inbound.capacity)
            && (returned.Ok? ==>
                  && returned.value.outbound == Some(peer.outbound.value.Refilled(clock, 0))
                  && (returned.value.inbound == Some(inbound.Refilled(clock, 0))
                      <==> || amountLd == 0
                           || inbound.tokens + inbound.Elapsed(clock) * inbound.refillPerSecond + amountLd
                              <= inbound.capacity))
  {
    ConsumeThenRefill(peer.outbound.value, clock, amountLd);
    RefillThenConsume(peer.inbound.value, clock, amountLd);
  }

  /** A send of 50 through an inbound limiter of capacity 10 cannot be returned. */
  lemma ReturnCanBeRefused(address: Word)
    ensures var peer := Peer(address, Some(Bucket(100, 100, 0, 0)), Some(Bucket(10, 10, 0, 0)), None);
            && LimitOutbound(peer, 0, 50).Ok?
            && LimitInbound(LimitOutbound(peer, 0, 50).value, 0, 50).Err?
  {
    hide LimitOutbound, LimitInbound;
    var peer := Peer(address, Some(Bucket(100, 100, 0, 0)), Some(Bucket(10, 10, 0, 0)), None);
    AllowIff(peer, 0, 50);
    ReturnUndoesSend(peer, 0, 50);
  }

  lemma ConsumeThenRefill(bucket: Bucket, now: u64, amount: u64)
    requires bucket.Valid() && bucket.Consumed(now, amount).Ok?
    ensures bucket.Consumed(now, amount).value.Refilled(now, amount) == bucket.Refilled(now, 0)
  {
    var accrued := bucket.Elapsed(now) * bucket.refillPerSecond;
    assert 0 <= accrued;
  }

  lemma RefillThenConsume(bucket: Bucket, now: u64, amount: u64)
    ensures var r := bucket.Refilled(now, amount).Consumed(now, amount);
            && (r.Ok? <==> amount <= bucket.capacity)
            && (r.Ok? ==> (r.value == bucket.Refilled(now, 0)
                           <==> || amount == 0
                                || bucket.tokens + bucket.Elapsed(now) * bucket.refillPerSecond + amount
                                   <= bucket.capacity))
  {
    hide Bucket.Refilled;
    RefilledIs(bucket, now, 0);
    RefilledIs(bucket, now, amount);
    RefilledAgain(bucket.Refilled(now, amount), now);
  }

  lemma RefilledIs(bucket: Bucket, now: u64, extra: u64)
    ensures bucket.Refilled(now, extra)
         == Bucket(bucket.capacity, Min(bucket.capacity, bucket.tokens + extra
                                                         + bucket.Elapsed(now) * bucket.refillPerSecond),
                   bucket.refillPerSecond, now)
  {
  }

  lemma RefilledAgain(bucket: Bucket, now: u64)
    requires bucket.Valid() && bucket.lastRefillTime == now
    ensures bucket.Refilled(now, 0) == bucket
  {
  }

  /** `quote_send` prices a message of the right length for every send that succeeds, but the same
      message only when local and shared units coincide and no sender is attached: it encodes the
      local amount and a zero sender. */
  lemma QuotedMessageAgreesIff(store: Store, peer: Peer, tokens: TokenState, env: Env, accounts: SendAccounts,
          params: SendParams)
    requires Send(store, peer, tokens, env, accounts, params).Ok?
    ensures var sent := Send(store, peer, tokens, env, accounts, params).value;
            var quoted := QuotedMessage(store, peer, env, params);
            && quoted.Ok? && |quoted.value| == |sent.message|
            && (quoted.value == sent.message
                <==> && (store.rate == 1 || sent.charge.receivedLd == 0)
                     && (params.composeMsg.Some? ==> accounts.signer == ZeroWord()))
  {
    hide OftCodec.AmountSd, OftCodec.SendTo, OftCodec.ComposeMsg;
    hide ComputeFeeAndAdjustAmount, TakeTokens, LimitOutbound, Ld2Sd;
    var charge := ChargeFor(store, peer, env, params.amountLd).value;
    var amountSd := Ld2Sd(store.rate, charge.receivedLd);
    OftCodec.DecodeEncode(params.to, amountSd, accounts.signer, params.composeMsg);
    OftCodec.DecodeEncode(params.to, charge.receivedLd, ZeroWord(), params.composeMsg);
    ReceivedIsWhole(store, peer, env, params.amountLd);
    EqualUnitsIff(store.rate, amountSd);
    if params.composeMsg.Some? {
      SamePrefix(accounts.signer, ZeroWord(), params.composeMsg.value);
    }
  }

  /** So it can price another message than is sent: at ten local units per shared unit, offering 20
      prices 20 and sends 2. */
  lemma QuotedMessageCanDiffer(store: Store, tokens: TokenState, env: Env, accounts: SendAccounts, to: Word)
    requires store.oftType.Native? && store.rate == 10 && store.defaultFeeBps == 0 && !store.paused
    requires tokens.OwnedBy(store.tokenEscrow, store.key) && tokens.OwnedBy(accounts.tokenSource, accounts.signer)
    requires accounts.tokenSource != store.tokenEscrow && accounts.messageSender == store.key
    requires 20 <= tokens.Balance(accounts.tokenSource) && 20 <= tokens.supply
    ensures var params := SendParams(to, 20, 20, None);
            var sent := Send(store, DefaultPeer(), tokens, env, accounts, params);
            var quoted := QuotedMessage(store, DefaultPeer(), env, params);
            && sent.Ok? && OftCodec.AmountSd(sent.value.message) == Some(2)
            && quoted.Ok? && OftCodec.AmountSd(quoted.value) == Some(20)
  {
    hide OftCodec.Encode, OftCodec.AmountSd, TakeTokens, ComputeFeeAndAdjustAmount, LimitOutbound;
    var params := SendParams(to, 20, 20, None);
    FreeCharge(store, env);
    SendSucceedsIff(store, DefaultPeer(), tokens, env, accounts, params);
    OftCodec.DecodeEncode(to, 2, accounts.signer, None);
    OftCodec.DecodeEncode(to, 20, ZeroWord(), None);
  }

  lemma FreeCharge(store: Store, env: Env)
    requires store.oftType.Native? && store.rate == 10 && store.defaultFeeBps == 0
    ensures ChargeFor(store, DefaultPeer(), env, 20) == Ok(Charge(20, 20, 0))
  {
    hide RemoveDust, Ld2Sd;
    DustFree(store.rate);
  }

  lemma DustFree(rate: Rate)
    requires rate == 10
    ensures RemoveDust(rate, 20) == 20 && RemoveDust(rate, 0) == 0
  {
    hide Ld2Sd;
    assert 20 % 10 == 0;
  }

  lemma EqualUnitsIff(rate: Rate, amountSd: u64)
    ensures rate * amountSd == amountSd <==> rate == 1 || amountSd == 0
    ensures rate * amountSd == 0 <==> amountSd == 0
  {
    assert rate * amountSd == amountSd + (rate - 1) * amountSd;
    if rate > 1 && amountSd > 0 {
      PositiveProduct(rate - 1, amountSd);
    }
  }

  lemma SamePrefix(a: Word, b: Word, msg: Bytes)
    ensures a + msg == b + msg <==> a == b
  {
    assert a == (a + msg)[..32] && b == (b + msg)[..32];
  }

  /** A withdrawal succeeds exactly for the admin, up to the surplus over the locked value; it pays
      the chosen account what arrives of the fee, out of the escrow, and touches no other. */
  lemma WithdrawFeeIff(store: Store, tokens: TokenState, env: Env, admin: Pubkey, tokenDest: Pubkey, feeLd: u64)
    requires tokens.OwnedBy(store.tokenEscrow, store.key) && store.tvlLd <= tokens.Balance(store.tokenEscrow)
    ensures var r := WithdrawFee(store, tokens, env, admin, tokenDest, feeLd);
            && (r.Ok? <==> && admin == store.admin && tokenDest in tokens.accounts
                           && store.tvlLd + feeLd <= tokens.Balance(store.tokenEscrow)
                           && (tokenDest == store.tokenEscrow
                               || tokens.Balance(tokenDest) + Arriving(env.mintFee, feeLd) < U64_LIMIT))
            && (r.Ok? ==> store.tvlLd <= r.value.Balance(store.tokenEscrow))
            && (r.Ok? && tokenDest != store.tokenEscrow ==>
                  r.value.Balance(store.tokenEscrow) == tokens.Balance(store.tokenEscrow) - feeLd)
    ensures var r := WithdrawFee(store, tokens, env, admin, tokenDest, feeLd);
            r.Ok? ==> WithdrawPromise(store, env, tokenDest, feeLd, tokens, r.value)
    ensures var r := WithdrawFee(store, tokens, env, admin, tokenDest, feeLd);
            && (admin != store.admin ==> r == Err(Unauthorized))
            && (admin == store.admin && tokenDest in tokens.accounts ==>
                  tokens.Balance(store.tokenEscrow) - store.tvlLd < feeLd ==> r == Err(InvalidFee))
  {
    hide Arriving;
  }

  /** What a withdrawal moves; paying the escrow itself moves nothing. */
  ghost predicate WithdrawPromise(store: Store, env: Env, tokenDest: Pubkey, feeLd: u64, before: TokenState,
          after: TokenState)
  {
    if tokenDest == store.tokenEscrow then
      after == before
    else
      && ChangesOnly(before, after, store.tokenEscrow, tokenDest, Arriving(env.mintFee, feeLd))
      && after.Balance(store.tokenEscrow) == before.Balance(store.tokenEscrow) - feeLd
      && after.supply == before.supply
  }

  /** `init_oft` succeeds exactly when the decimals can be shared and their power of ten fits. */
  lemma InitOftIff(key: Pubkey, oftType: OftType, admin: Pubkey, tokenEscrow: Pubkey, decimals: nat,
          sharedDecimals: nat)
    ensures var r := InitOft(key, oftType, admin, tokenEscrow, decimals, sharedDecimals);
            && (r.Ok? <==> sharedDecimals <= decimals <= sharedDecimals + 19)
            && (decimals < sharedDecimals ==> r == Err(InvalidDecimals))
            && (sharedDecimals + 19 < decimals ==> r == Err(Abort))
  {
    if sharedDecimals <= decimals {
      assert PowerOfTen(10) == 10_000_000_000;
      assert PowerOfTen(15) == 1_000_000_000_000_000;
      assert PowerOfTen(19) == 10_000_000_000_000_000_000;
      if decimals - sharedDecimals <= 19 {
        PowerOfTenIsMonotone(decimals - sharedDecimals, 19);
      } else {
        PowerOfTenIsMonotone(20, decimals - sharedDecimals);
      }
    }
  }

  lemma {:induction false} PowerOfTenIsMonotone(a: nat, b: nat)
    requires a <= b
    ensures PowerOfTen(a) <= PowerOfTen(b)
  {
    if a == b {
    } else {
      PowerOfTenIsMonotone(a, b - 1);
    }
  }
}
