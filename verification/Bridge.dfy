/** Two ends of the bridge, an adapter and a native deployment of the same program, and the
    messages between them. The ends may use different rates and see different clocks. Messages are
    delivered in any order, at most once, and stay in flight when a delivery fails. */
module Bridge {
  import opened Base
  import opened Division
  import opened Totals
  import opened Charging
  import opened Tokens
  import opened Oft
  import opened OftSteps
  import opened OftRuns
  import OftCodec

  datatype Packet = Packet(srcEid: u32, sender: Word, dstEid: u32, receiver: Word, message: Bytes)

  datatype End = AdapterEnd | NativeEnd

  /** `issuedLd` counts what the native program has minted less what it has burned, `burnedLd` what
      native holders have burned on their own. */
  datatype Bridge = Bridge(
    adapter: OftState,
    native: OftState,
    adapterEid: u32,
    nativeEid: u32,
    inFlight: seq<Packet>,
    issuedLd: int,
    burnedLd: nat)
  {

    function At(end: End): OftState {
      if end.AdapterEnd? then adapter else native
    }

    function Eid(end: End): u32 {
      if end.AdapterEnd? then adapterEid else nativeEid
    }

    function With(end: End, oft: OftState): Bridge {
      if end.AdapterEnd? then this.(adapter := oft) else this.(native := oft)
    }

    predicate AddressedTo(end: End, index: nat) {
      && index < |inFlight|
      && inFlight[index].dstEid == Eid(end) && inFlight[index].receiver == At(end).store.key
    }
  }

  /** Anything one end can do by itself, or the delivery of a message in flight. Nobody but the
      native program mints on its side, and messages reach an end only out of the flight. */
  datatype BridgeEvent =
    | Local(end: End, event: Event)
    | Deliver(end: End, index: nat, env: Env, accounts: ReceiveAccounts, nonce: u64, guid: Word)

  predicate Admissible(end: End, action: Action) {
    !action.DoReceive? && (end.NativeEnd? ==> !action.OtherMint?)
  }

  function ReceiveEvent(b: Bridge, d: BridgeEvent): Event
    requires d.Deliver? && d.index < |b.inFlight|
  {
    var p := b.inFlight[d.index];
    Event(d.env, DoReceive(d.accounts, LzReceiveParams(p.srcEid, p.sender, d.nonce, d.guid, p.message)))
  }

  /** What a step of the native program issues. */
  function Issued(end: End, output: Output): int {
    if end.AdapterEnd? then 0
    else match output
      case Quiet => 0
      case Emitted(_, _, charge) => -(charge.receivedLd as int)
      case Delivered(amountLd) => amountLd as int
  }

  /** What a holder burns in a step. */
  function BurnedBy(action: Action): nat {
    if action.HolderBurn? then action.amount else 0
  }

  function Burned(end: End, action: Action): nat {
    if end.AdapterEnd? then 0 else BurnedBy(action)
  }

  function AfterLocal(b: Bridge, end: End, e: Event, outcome: Outcome): Bridge {
    var b' := b.With(end, outcome.oft).(issuedLd := b.issuedLd + Issued(end, outcome.output),
                                        burnedLd := b.burnedLd + Burned(end, e.action));
    if outcome.output.Emitted? && e.action.DoSend? then
      b'.(inFlight := b.inFlight + [Packet(b.Eid(end), b.At(end).store.key, e.action.dstEid,
                                           outcome.output.receiver, outcome.output.message)])
    else
      b'
  }

  function AfterDelivery(b: Bridge, end: End, index: nat, outcome: Outcome): Bridge
    requires index < |b.inFlight|
  {
    b.With(end, outcome.oft).(issuedLd := b.issuedLd + Issued(end, outcome.output),
                              inFlight := b.inFlight[..index] + b.inFlight[index + 1..])
  }

  function StepBridge(b: Bridge, event: BridgeEvent): Bridge {
    match event
    case Local(end, e) =>
      if Admissible(end, e.action) && Step(b.At(end), e).Ok? then
        AfterLocal(b, end, e, Step(b.At(end), e).value)
      else
        b
    case Deliver(end, index, _, _, _, _) =>
      if b.AddressedTo(end, index) && Step(b.At(end), ReceiveEvent(b, event)).Ok? then
        AfterDelivery(b, end, index, Step(b.At(end), ReceiveEvent(b, event)).value)
      else
        b
  }

  function RunBridge(b: Bridge, events: seq<BridgeEvent>): Bridge {
    if events == [] then b else StepBridge(RunBridge(b, events[..|events| - 1]), events[|events| - 1])
  }

  predicate InitialBridge(b: Bridge) {
    && Initial(b.adapter) && b.adapter.store.oftType.Adapter?
    && Initial(b.native) && b.native.store.oftType.Native?
    && b.native.tokens.supply == 0 && b.issuedLd == 0 && b.burnedLd == 0 && b.inFlight == []
  }

  // ----- shared units -----

  function PacketSd(p: Packet): nat {
    match OftCodec.AmountSd(p.message)
    case Some(amountSd) => amountSd
    case None => 0
  }

  function FlightSd(flight: seq<Packet>): nat {
    Total(PacketSd, flight)
  }

  function LockedSd(b: Bridge): nat {
    Ld2Sd(b.adapter.store.rate, b.adapter.store.tvlLd)
  }

  function IssuedSd(b: Bridge): int {
    b.issuedLd / b.native.store.rate
  }

  /** The solvency invariant. */
  ghost predicate Solvent(b: Bridge) {
    && Inv(b.adapter) && b.adapter.store.oftType.Adapter?
    && Inv(b.native) && b.native.store.oftType.Native?
    && b.issuedLd % b.native.store.rate == 0
    && b.native.tokens.supply + b.burnedLd == b.issuedLd
    && (forall p :: p in b.inFlight ==> OftCodec.AmountSd(p.message).Some?)
    && LockedSd(b) == IssuedSd(b) + FlightSd(b.inFlight)
  }

  // ----- what one step moves, in shared units -----

  /** The signed effect of one step on an end's locked value and supply. */
  ghost predicate Moves(before: OftState, after: OftState, action: Action, lockedLd: int, issuedLd: int) {
    && after.store.tvlLd == before.store.tvlLd + (if before.store.oftType.Adapter? then lockedLd else 0)
    && (before.store.oftType.Native? ==> after.tokens.supply == before.tokens.supply + issuedLd - BurnedBy(action))
  }

  lemma SendMoves(o: OftState, e: Event)
    requires Inv(o) && e.action.DoSend? && Step(o, e).Ok?
    ensures var out := Step(o, e).value;
            && out.output.Emitted?
            && var amountSd := OftCodec.AmountSd(out.output.message);
            && amountSd.Some? && out.output.charge.receivedLd == o.store.rate * amountSd.value
            && Moves(o, out.oft, e.action, out.output.charge.receivedLd, -(out.output.charge.receivedLd as int))
  {
    hide OftCodec.Encode, OftCodec.AmountSd, OftCodec.SendTo, OftCodec.ComposeMsg;
    hide ComputeFeeAndAdjustAmount, LimitOutbound, Ld2Sd, TakeTokens;
    var DoSend(dstEid, accounts, params) := e.action;
    var charge := ChargeFor(o.store, o.peers[dstEid], e.env, params.amountLd).value;
    assert PeerOk(o.peers[dstEid]);
    SendCharges(o.store, o.peers[dstEid], e.env, params.amountLd);
    TakeTokensMoves(o.store, o.tokens, e.env, accounts.tokenSource, charge);
    ReceivedIsWhole(o.store, o.peers[dstEid], e.env, params.amountLd);
    OftCodec.DecodeEncode(params.to, Ld2Sd(o.store.rate, charge.receivedLd), accounts.signer, params.composeMsg);
  }

  lemma TakeTokensMoves(store: Store, tokens: TokenState, env: Env, source: Pubkey, charge: Charge)
    requires store.oftType.Native? ==> charge.sentLd == charge.receivedLd + charge.oftFeeLd
    ensures var r := TakeTokens(store, tokens, env, source, charge);
            && (r.Ok? && store.oftType.Adapter? ==> r.value.tvlLd == store.tvlLd + charge.receivedLd)
            && (r.Ok? && store.oftType.Native? ==>
                  r.value.tvlLd == store.tvlLd && r.value.tokens.supply == tokens.supply - charge.receivedLd)
  {
  }

  lemma ReceiveMoves(o: OftState, e: Event)
    requires Inv(o) && e.action.DoReceive? && Step(o, e).Ok?
    ensures var out := Step(o, e).value;
            && out.output.Delivered?
            && var amountSd := OftCodec.AmountSd(e.action.receiveParams.message);
            && amountSd.Some? && out.output.amountLd == o.store.rate * amountSd.value
            && Moves(o, out.oft, e.action, -(out.output.amountLd as int), out.output.amountLd)
  {
    hide OftCodec.AmountSd, OftCodec.SendTo, OftCodec.ComposeMsg, ComposeFor, LimitInbound;
  }

  lemma OtherMoves(o: OftState, e: Event)
    requires Inv(o) && !e.action.DoSend? && !e.action.DoReceive? && Step(o, e).Ok?
    ensures var out := Step(o, e).value;
            && out.output.Quiet?
            && (!e.action.OtherMint? || o.store.oftType.Adapter? ==> Moves(o, out.oft, e.action, 0, 0))
  {
  }

  // ----- the invariant over runs -----

  lemma AddUnits(rate: Rate, ld: int, sd: int)
    requires ld % rate == 0
    ensures (ld + rate * sd) / rate == ld / rate + sd && (ld + rate * sd) % rate == 0
  {
    var q := ld / rate;
    assert ld == q * rate;
    assert ld + rate * sd == (q + sd) * rate;
    MultipleQuotient(q + sd, rate);
  }

  /** One end's step, booked in shared units. */
  lemma EndStep(b: Bridge, b': Bridge, end: End, e: Event, outcome: Outcome, sd: int)
    requires Solvent(b) && Step(b.At(end), e) == Ok(outcome)
    requires b' == b.With(end, outcome.oft).(issuedLd := b.issuedLd + Issued(end, outcome.output),
                                             burnedLd := b.burnedLd + Burned(end, e.action),
                                             inFlight := b'.inFlight)
    requires forall p :: p in b'.inFlight ==> p in b.inFlight || OftCodec.AmountSd(p.message).Some?
    requires FlightSd(b'.inFlight) == FlightSd(b.inFlight) + sd
    requires Moves(b.At(end), outcome.oft, e.action, b.At(end).store.rate * sd, -(b.At(end).store.rate * sd))
    requires end.NativeEnd? ==> Issued(end, outcome.output) == -(b.native.store.rate * sd)
    ensures Solvent(b')
  {
    hide Step, Inv, Total;
    StepKeepsInv(b.At(end), e);
    assert Inv(After(b.At(end), e)) && After(b.At(end), e) == outcome.oft;
    if end.AdapterEnd? {
      LockedIsWhole(b.adapter);
      AddUnits(b.adapter.store.rate, b.adapter.store.tvlLd, sd);
    } else {
      AddUnits(b.native.store.rate, b.issuedLd, -sd);
      assert b.native.store.rate * -sd == -(b.native.store.rate * sd);
    }
  }

  lemma EndIsInv(b: Bridge, end: End)
    requires Solvent(b)
    ensures Inv(b.At(end)) && (b.At(end).store.oftType.Adapter? <==> end.AdapterEnd?)
  {
  }

  lemma LocalSendKeepsSolvent(b: Bridge, end: End, e: Event)
    requires Solvent(b) && e.action.DoSend? && Step(b.At(end), e).Ok?
    ensures Solvent(AfterLocal(b, end, e, Step(b.At(end), e).value))
  {
    hide Step, Inv, Moves, Solvent, Total, OftCodec.AmountSd;
    var outcome := Step(b.At(end), e).value;
    var b' := AfterLocal(b, end, e, outcome);
    EndIsInv(b, end);
    SendMoves(b.At(end), e);
    var p := Packet(b.Eid(end), b.At(end).store.key, e.action.dstEid, outcome.output.receiver, outcome.output.message);
    TotalWith(PacketSd, b.inFlight, p);
    EndStep(b, b', end, e, outcome, PacketSd(p));
  }

  lemma OtherLocalKeepsSolvent(b: Bridge, end: End, e: Event)
    requires Solvent(b) && Admissible(end, e.action) && !e.action.DoSend? && Step(b.At(end), e).Ok?
    ensures Solvent(AfterLocal(b, end, e, Step(b.At(end), e).value))
  {
    hide Step, Inv, Moves, Solvent, Total, OftCodec.AmountSd;
    EndIsInv(b, end);
    OtherMoves(b.At(end), e);
    var outcome := Step(b.At(end), e).value;
    EndStep(b, AfterLocal(b, end, e, outcome), end, e, outcome, 0);
  }

  lemma DeliveryKeepsSolvent(b: Bridge, end: End, index: nat, e: Event)
    requires Solvent(b) && index < |b.inFlight|
    requires e.action.DoReceive? && e.action.receiveParams.message == b.inFlight[index].message
    requires Step(b.At(end), e).Ok?
    ensures Solvent(AfterDelivery(b, end, index, Step(b.At(end), e).value))
  {
    hide Step, Inv, Moves, Solvent, Total, OftCodec.AmountSd;
    var outcome := Step(b.At(end), e).value;
    var b' := AfterDelivery(b, end, index, outcome);
    EndIsInv(b, end);
    ReceiveMoves(b.At(end), e);
    var amountSd := PacketSd(b.inFlight[index]);
    TotalWithout(PacketSd, b.inFlight, index);
    assert forall p :: p in b'.inFlight ==> p in b.inFlight;
    NegatedProduct(b.At(end).store.rate, amountSd);
    EndStep(b, b', end, e, outcome, -(amountSd as int));
  }

  lemma NegatedProduct(a: int, b: int)
    ensures a * -b == -(a * b)
  {
  }

  /** Conservation in every reachable state: the adapter's locked value equals, in shared units,
      what the native program has issued plus everything in flight in either direction, and that issue
      is the native supply plus what holders burned. */
  lemma EveryRunIsSolvent(b: Bridge, events: seq<BridgeEvent>)
    requires InitialBridge(b)
    ensures Solvent(RunBridge(b, events))
  {
    hide RunBridge, Solvent;
    InitialIsSolvent(b);
    RunsKeepSolvent(b, events);
  }

  lemma {:induction false} RunsKeepSolvent(b: Bridge, events: seq<BridgeEvent>)
    requires Solvent(b)
    ensures Solvent(RunBridge(b, events))
  {
    hide StepBridge, Solvent;
    if events == [] {
    } else {
      RunsKeepSolvent(b, events[..|events| - 1]);
      StepKeepsSolvent(RunBridge(b, events[..|events| - 1]), events[|events| - 1]);
    }
  }

  lemma InitialIsSolvent(b: Bridge)
    requires InitialBridge(b)
    ensures Solvent(b)
  {
    MultipleQuotient(0, b.adapter.store.rate);
    MultipleQuotient(0, b.native.store.rate);
  }

  lemma StepKeepsSolvent(b: Bridge, event: BridgeEvent)
    requires Solvent(b)
    ensures Solvent(StepBridge(b, event))
  {
    hide Step, Solvent;
    match event
    case Local(end, e) =>
      if Admissible(end, e.action) && Step(b.At(end), e).Ok? {
        if e.action.DoSend? {
          LocalSendKeepsSolvent(b, end, e);
        } else {
          OtherLocalKeepsSolvent(b, end, e);
        }
      }
    case Deliver(end, index, _, _, _, _) =>
      if b.AddressedTo(end, index) && Step(b.At(end), ReceiveEvent(b, event)).Ok? {
        DeliveryKeepsSolvent(b, end, index, ReceiveEvent(b, event));
      }
  }

  // ----- consequences -----

  lemma LockedCoversFlight(b: Bridge, index: nat)
    requires Solvent(b) && index < |b.inFlight|
    ensures PacketSd(b.inFlight[index]) <= FlightSd(b.inFlight) <= LockedSd(b)
    ensures b.adapter.store.rate * PacketSd(b.inFlight[index]) <= b.adapter.store.tvlLd
  {
    TotalWithout(PacketSd, b.inFlight, index);
    var rate, tvlLd, sd := b.adapter.store.rate, b.adapter.store.tvlLd, PacketSd(b.inFlight[index]);
    FloorAdjoint(b.issuedLd, b.native.store.rate, 0);
    FloorAdjoint(tvlLd, rate, sd);
    assert sd * rate == rate * sd;
  }

  /** The headline, for every run of both ends: all messages in flight together are covered by the
      adapter's locked value, which its escrow covers, so each converts and unlocks without overflow
      or underflow. */
  lemma EveryRunCanPay(b0: Bridge, events: seq<BridgeEvent>)
    requires InitialBridge(b0)
    ensures var b := RunBridge(b0, events);
            && b.adapter.store.rate * FlightSd(b.inFlight) <= b.adapter.store.tvlLd
            && b.adapter.store.tvlLd <= b.adapter.tokens.Balance(b.adapter.store.tokenEscrow)
            && forall i :: 0 <= i < |b.inFlight| ==>
                 b.adapter.store.rate * PacketSd(b.inFlight[i]) <= b.adapter.store.tvlLd
  {
    EveryRunIsSolvent(b0, events);
    var b := RunBridge(b0, events);
    var rate, tvlLd := b.adapter.store.rate, b.adapter.store.tvlLd;
    FloorAdjoint(b.issuedLd, b.native.store.rate, 0);
    FloorAdjoint(tvlLd, rate, FlightSd(b.inFlight));
    forall i | 0 <= i < |b.inFlight|
      ensures rate * PacketSd(b.inFlight[i]) <= tvlLd
    {
      LockedCoversFlight(b, i);
    }
  }

  /** A message to the adapter is always payable: in every reachable state its amount converts
      without overflow, the locked value covers it, and the escrow covers the locked value. The
      delivery then succeeds exactly when the source is known, the accounts fit, the program is not paused, the limiters
      allow it and the receiver's balance does not overflow. */
  lemma DeliveryToAdapterIff(b: Bridge, d: BridgeEvent)
    requires Solvent(b) && d.Deliver? && d.end.AdapterEnd? && b.AddressedTo(AdapterEnd, d.index)
    ensures var o := b.adapter;
            var params := ReceiveEvent(b, d).action.receiveParams;
            var amountLd := AmountLd(o.store, params);
            && amountLd.Ok? && amountLd.value <= o.store.tvlLd <= o.tokens.Balance(o.store.tokenEscrow)
            && (Step(o, ReceiveEvent(b, d)).Ok?
                <==> && params.srcEid in o.peers && !o.store.paused
                     && var peer := o.peers[params.srcEid];
                     && AccountsFit(peer.peerAddress, o.tokens, d.accounts, params)
                     && Allow(peer.inbound, peer.outbound, d.env.clock, amountLd.value)
                     && (|| d.accounts.tokenDest == o.store.tokenEscrow
                         || o.tokens.Balance(d.accounts.tokenDest) + Arriving(d.env.mintFee, amountLd.value)
                            < U64_LIMIT))
  {
    hide OftCodec.AmountSd, FlightSd, Arriving, LzReceive, AccountsFit, Allow;
    var o := b.adapter;
    var params := ReceiveEvent(b, d).action.receiveParams;
    LockedCoversFlight(b, d.index);
    assert b.inFlight[d.index] in b.inFlight;
    assert OftCodec.AmountSd(b.inFlight[d.index].message).Some?;
    MonotoneProduct(0, PacketSd(b.inFlight[d.index]), o.store.rate);
    if params.srcEid in o.peers {
      CoveredReceiveIff(o.store, o.peers[params.srcEid], o.tokens, d.env, d.accounts, params);
    }
  }

  /** A delivery to the native end succeeds under the same conditions when the mint authority is
      given and lets the store mint alone, there is supply to spare, and the amount fits that end's
      own units. */
  lemma DeliveryToNativeIff(b: Bridge, d: BridgeEvent)
    requires Solvent(b) && d.Deliver? && d.end.NativeEnd? && b.AddressedTo(NativeEnd, d.index)
    ensures var o := b.native;
            var params := ReceiveEvent(b, d).action.receiveParams;
            var amount := PacketSd(b.inFlight[d.index]) * o.store.rate;
            && 0 <= amount
            && (Step(o, ReceiveEvent(b, d)).Ok?
                <==> && params.srcEid in o.peers && !o.store.paused && amount < U64_LIMIT
                     && var peer := o.peers[params.srcEid];
                     && AccountsFit(peer.peerAddress, o.tokens, d.accounts, params)
                     && Allow(peer.inbound, peer.outbound, d.env.clock, amount)
                     && d.accounts.mintAuthority.Some? && o.tokens.MintsAlone(o.store.key)
                     && o.tokens.supply + amount < U64_LIMIT
                     && o.tokens.Balance(d.accounts.tokenDest) + amount < U64_LIMIT)
  {
    hide OftCodec.AmountSd, FlightSd, LzReceive, AccountsFit, Allow;
    var o := b.native;
    var params := ReceiveEvent(b, d).action.receiveParams;
    assert b.inFlight[d.index] in b.inFlight;
    assert OftCodec.AmountSd(b.inFlight[d.index].message).Some?;
    MonotoneProduct(0, PacketSd(b.inFlight[d.index]), o.store.rate);
    if params.srcEid in o.peers {
      MintedReceiveIff(o.store, o.peers[params.srcEid], o.tokens, d.env, d.accounts, params);
    }
  }

  /** Every native token and every message in flight is backed, to the unit: with all of them turned
      into common units, the locked value is what circulates, plus what holders burned on their own,
      plus what is in flight; so what circulates and is in flight is never short. */
  lemma EverythingIsBacked(b: Bridge)
    requires Solvent(b)
    ensures (b.native.tokens.supply + b.burnedLd) * b.adapter.store.rate
            + FlightSd(b.inFlight) * b.adapter.store.rate * b.native.store.rate
         == b.adapter.store.tvlLd * b.native.store.rate
    ensures b.native.tokens.supply * b.adapter.store.rate
            + FlightSd(b.inFlight) * b.adapter.store.rate * b.native.store.rate
         <= b.adapter.store.tvlLd * b.native.store.rate
  {
    var ra, rn := b.adapter.store.rate, b.native.store.rate;
    var issued, flight := IssuedSd(b), FlightSd(b.inFlight);
    WholeQuotient(b.adapter.store.tvlLd, ra);
    WholeQuotient(b.issuedLd, rn);
    MonotoneProduct(b.native.tokens.supply, b.issuedLd, ra);
    Distribute(issued, flight, ra, rn);
  }

  lemma Distribute(a: int, b: int, c: int, d: int)
    ensures (a + b) * c * d == (a * d) * c + b * c * d
  {
    assert (a + b) * c == a * c + b * c;
    assert (a * c + b * c) * d == a * c * d + b * c * d;
    assert a * c * d == (a * d) * c;
  }

  lemma LockedIsWhole(o: OftState)
    requires Inv(o)
    ensures o.store.tvlLd % o.store.rate == 0
  {
  }
}
