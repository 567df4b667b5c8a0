/** What administration is for: how a setting, once accepted, governs the instructions after it. */
module OftSettings {
  import opened Base
  import opened Charging
  import opened RateLimits
  import opened Tokens
  import opened Oft
  import opened OftSteps
  import opened OftRuns
  import OftCodec

  // ----- fees -----

  /** The admin, and nobody else, gives a peer a fee of its own below 100 percent; sends to that peer
      are charged it from then on, whatever the default, and nothing else about the peer changes. */
  lemma PeerFeeIsCharged(store: Store, peer: Peer, env: Env, admin: Pubkey, bps: u16, later: Env, amountLd: u64)
    ensures var r := SetPeerConfig(store, peer, env, admin, FeeBps(Some(bps)));
            && (r.Ok? <==> admin == store.admin && bps < 10_000)
            && (admin == store.admin && 10_000 <= bps ==> r == Err(InvalidFee))
            && (r.Ok? ==>
                  && ChargesShare(ChargeFor(store, r.value, later, amountLd), store, later, amountLd, bps)
                  && SettingsOf(r.value).(feeBps := peer.feeBps) == SettingsOf(peer)
                  && r.value.outbound == peer.outbound && r.value.inbound == peer.inbound)
  {
    hide ComputeFeeAndAdjustAmount;
    if bps < 10_000 {
      OwnFeeGoesBeforeDefault(amountLd, store.oftType, store.rate, bps, store.defaultFeeBps, later.mintFee);
    }
  }

  /** `bps` out of 10000 of the whole units on offer. */
  ghost predicate ChargesShare(charge: Result<Charge>, store: Store, env: Env, amountLd: u64, bps: u16) {
    var k := (if store.oftType.Adapter? then Arriving(env.mintFee, amountLd) else amountLd) / store.rate;
    && charge.Ok?
    && charge.value.oftFeeLd == store.rate * (k * bps / 10_000)
    && charge.value.receivedLd == store.rate * (k - k * bps / 10_000)
  }

  /** Taking a peer's own fee away leaves it to the default. */
  lemma DefaultFeeIsChargedWithoutOwn(store: Store, peer: Peer, env: Env, admin: Pubkey, later: Env, amountLd: u64)
    requires store.defaultFeeBps < 10_000
    ensures var r := SetPeerConfig(store, peer, env, admin, FeeBps(None));
            && (r.Ok? <==> admin == store.admin)
            && (r.Ok? ==> ChargesShare(ChargeFor(store, r.value, later, amountLd), store, later, amountLd,
                                       store.defaultFeeBps))
  {
    hide ComputeFeeAndAdjustAmount;
    OwnFeeGoesBeforeDefault(amountLd, store.oftType, store.rate, store.defaultFeeBps, 0, later.mintFee);
  }

  /** The default is set likewise, and charged for every peer without a fee of its own. */
  lemma DefaultFeeIsCharged(store: Store, admin: Pubkey, bps: u16, peer: Peer, later: Env, amountLd: u64)
    requires peer.feeBps.None?
    ensures var r := SetOftConfig(store, admin, DefaultFee(bps));
            && (r.Ok? <==> admin == store.admin && bps < 10_000)
            && (admin == store.admin && 10_000 <= bps ==> r == Err(InvalidFee))
            && (r.Ok? ==> ChargesShare(ChargeFor(r.value, peer, later, amountLd), store, later, amountLd, bps))
  {
    hide ComputeFeeAndAdjustAmount;
    if bps < 10_000 {
      OwnFeeGoesBeforeDefault(amountLd, store.oftType, store.rate, bps, 0, later.mintFee);
    }
  }

  // ----- whom the program hears and writes to -----

  /** Once a peer's address is set, deliveries from that endpoint are refused unless that address sent
      them, and sends to it are addressed there. */
  lemma PeerAddressGoverns(o: OftState, wiring: Event, address: Word, eid: u32)
    requires wiring.action == DoSetPeer(o.store.admin, eid, PeerAddress(address))
    ensures var o' := After(o, wiring);
            && Step(o, wiring).Ok? && eid in o'.peers
            && (forall e: Event :: e.action.DoReceive? && e.action.receiveParams.srcEid == eid && Step(o', e).Ok? ==>
                  e.action.receiveParams.sender == address)
            && (forall e: Event :: e.action.DoSend? && e.action.dstEid == eid && Step(o', e).Ok? ==>
                  Step(o', e).value.output.Emitted? && Step(o', e).value.output.receiver == address)
            && (eid !in o.peers ==> o'.peers[eid] == Peer(address, None, None, None))
            && (eid in o.peers ==>
                  && o'.peers[eid].outbound == o.peers[eid].outbound && o'.peers[eid].inbound == o.peers[eid].inbound
                  && o'.peers[eid].feeBps == o.peers[eid].feeBps)
  {
    var o' := After(o, wiring);
    forall e: Event | e.action.DoReceive? && e.action.receiveParams.srcEid == eid && Step(o', e).Ok?
      ensures e.action.receiveParams.sender == address
    {
      ReceiveComesFromPeer(o', e);
    }
    forall e: Event | e.action.DoSend? && e.action.dstEid == eid && Step(o', e).Ok?
      ensures Step(o', e).value.output.Emitted? && Step(o', e).value.output.receiver == address
    {
      SendGoesToPeer(o', e);
    }
  }

  lemma ReceiveComesFromPeer(o: OftState, e: Event)
    requires e.action.DoReceive? && Step(o, e).Ok?
    ensures e.action.receiveParams.srcEid in o.peers
    ensures o.peers[e.action.receiveParams.srcEid].peerAddress == e.action.receiveParams.sender
  {
    hide OftCodec.AmountSd, OftCodec.SendTo, ReceiveAmount;
  }

  lemma SendGoesToPeer(o: OftState, e: Event)
    requires e.action.DoSend? && Step(o, e).Ok?
    ensures e.action.dstEid in o.peers && Step(o, e).value.output.Emitted?
    ensures Step(o, e).value.output.receiver == o.peers[e.action.dstEid].peerAddress
  {
    hide OftCodec.Encode, ComputeFeeAndAdjustAmount, TakeTokens, LimitOutbound, Ld2Sd;
    var DoSend(dstEid, accounts, params) := e.action;
    var charge := ChargeFor(o.store, o.peers[dstEid], e.env, params.amountLd).value;
    LimitKeepsAddress(o.peers[dstEid], e.env.clock, charge.receivedLd);
  }

  lemma LimitKeepsAddress(peer: Peer, clock: i64, amountLd: u64)
    ensures var r := LimitOutbound(peer, clock, amountLd); r.Ok? ==> r.value.peerAddress == peer.peerAddress
  {
  }

  // ----- limits -----

  /** The admin configures one direction at a time: that limiter becomes what `ConfiguredLevel` says of
      it, and the other limiter, the address and the fee stay. */
  lemma LimitsAreConfigured(store: Store, peer: Peer, env: Env, admin: Pubkey, params: Option<RateLimitParams>)
    ensures var r := SetPeerConfig(store, peer, env, admin, OutboundRateLimit(params));
            && (admin != store.admin ==> r == Err(Unauthorized))
            && (admin == store.admin ==>
                  match UpdatedLimiter(peer.outbound, params, env.clock)
                  case Ok(limiter) => r == Ok(Peer(peer.peerAddress, limiter, peer.inbound, peer.feeBps))
                  case Err(_) => r == Err(Abort))
    ensures var r := SetPeerConfig(store, peer, env, admin, InboundRateLimit(params));
            && (admin != store.admin ==> r == Err(Unauthorized))
            && (admin == store.admin ==>
                  match UpdatedLimiter(peer.inbound, params, env.clock)
                  case Ok(limiter) => r == Ok(Peer(peer.peerAddress, peer.outbound, limiter, peer.feeBps))
                  case Err(_) => r == Err(Abort))
  {
  }

  /** A fresh limit is open: right after the admin gives a peer a capacity, an amount passes outward
      exactly when it is within it. */
  lemma FreshLimitAllows(store: Store, peer: Peer, env: Env, capacity: u64, amountLd: u64)
    requires 0 <= env.clock && (peer.outbound.Some? ==> peer.outbound.value.Valid())
    ensures var r := SetPeerConfig(store, peer, env, store.admin,
                                   OutboundRateLimit(Some(RateLimitParams(None, Some(capacity)))));
            r.Ok? && (LimitOutbound(r.value, env.clock, amountLd).Ok? <==> amountLd <= capacity)
  {
    hide UpdatedLimiter, LimitOutbound;
    var params := RateLimitParams(None, Some(capacity));
    ConfiguredLevel(peer.outbound, params, env.clock, env.clock);
    LimitsAreConfigured(store, peer, env, store.admin, Some(params));
    var r := SetPeerConfig(store, peer, env, store.admin, OutboundRateLimit(Some(params)));
    AllowIff(r.value, env.clock, amountLd);
  }

  // ----- roles and the pause -----

  /** Only the admin names a new admin, a pauser or an unpauser; the named role is what changes. */
  lemma RolesAreNamed(store: Store, admin: Pubkey, someone: Pubkey, maybe: Option<Pubkey>)
    ensures forall config: OftConfigParam ::
              admin != store.admin ==> SetOftConfig(store, admin, config) == Err(Unauthorized)
    ensures admin == store.admin ==>
              && SetOftConfig(store, admin, Admin(someone)).Ok?
              && SetOftConfig(store, admin, Pauser(maybe)).Ok?
              && SetOftConfig(store, admin, Unpauser(maybe)).Ok?
              && var named := SetOftConfig(store, admin, Admin(someone)).value;
                 var guarded := SetOftConfig(store, admin, Pauser(maybe)).value;
                 var freed := SetOftConfig(store, admin, Unpauser(maybe)).value;
                 && (forall s, a, c: OftConfigParam ::
                       s == named && a != someone ==> SetOftConfig(s, a, c) == Err(Unauthorized))
                 && named.(admin := admin) == store && named.admin == someone
                 && (forall p :: SetPause(guarded, p, true).Ok? <==> maybe == Some(p))
                 && guarded.(pauser := store.pauser) == store
                 && (forall p :: SetPause(freed, p, false).Ok? <==> maybe == Some(p))
                 && freed.(unpauser := store.unpauser) == store
  {
  }

  /** The pause is set by the admin, by the pauser, and lifted by the admin or the unpauser. */
  lemma PauseIsSetIff(store: Store, signer: Pubkey, paused: bool)
    ensures var byAdmin := SetOftConfig(store, signer, SetPaused(paused));
            && (byAdmin.Ok? <==> signer == store.admin)
            && (byAdmin.Ok? ==> byAdmin.value.paused == paused && byAdmin.value.(paused := store.paused) == store)
    ensures var byRole := SetPause(store, signer, paused);
            && (byRole.Ok? <==> Some(signer) == if paused then store.pauser else store.unpauser)
            && (byRole.Ok? ==> byRole.value.paused == paused && byRole.value.(paused := store.paused) == store)
            && (byRole.Err? ==> byRole == Err(Unauthorized))
  {
  }

  predicate Unpauses(action: Action) {
    || (action.DoSetConfig? && action.oftConfig == SetPaused(false))
    || (action.DoSetPause? && !action.paused)
  }

  lemma PausedStep(o: OftState, e: Event)
    requires o.store.paused && !Unpauses(e.action)
    ensures After(o, e).store.paused && After(o, e).store.tvlLd == o.store.tvlLd
    ensures e.action.DoSend? || e.action.DoReceive? ==> Step(o, e).Err?
  {
    hide OftCodec.AmountSd, OftCodec.SendTo, OftCodec.Encode, SetPeerConfig, ReceiveAmount, SendCharged;
  }

  /** While nobody lifts the pause, no send and no delivery succeeds and the locked value stands still,
      whatever else happens. */
  lemma {:induction false} PauseHolds(o: OftState, events: seq<Event>, e: Event)
    requires o.store.paused && forall before :: before in events ==> !Unpauses(before.action)
    ensures Run(o, events).store.paused && Run(o, events).store.tvlLd == o.store.tvlLd
    ensures e.action.DoSend? || e.action.DoReceive? ==> Step(Run(o, events), e).Err?
  {
    hide Step, After;
    if events == [] {
    } else {
      PauseHolds(o, events[..|events| - 1], e);
      PausedStep(Run(o, events[..|events| - 1]), events[|events| - 1]);
    }
    if e.action.DoSend? || e.action.DoReceive? {
      PausedStep(Run(o, events), e);
    }
  }
}
