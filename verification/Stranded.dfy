/** Messages that can never be delivered: their amount does not fit the native end's own units. */
module Stranded {
  import opened Base
  import opened Division
  import opened Charging
  import opened Tokens
  import opened Oft
  import opened OftSteps
  import opened OftRuns
  import opened Bridge
  import OftCodec

  /** Addressed to the native end alone, which cannot express the amount in a u64. */
  predicate Oversized(b: Bridge, p: Packet) {
    && p.dstEid == b.nativeEid && p.receiver == b.native.store.key
    && !(p.dstEid == b.adapterEid && p.receiver == b.adapter.store.key)
    && U64_LIMIT <= PacketSd(p) * b.native.store.rate
  }

  /** What no step changes. */
  predicate SameEnds(a: Bridge, b: Bridge) {
    && SameDeployment(a.adapter.store, b.adapter.store) && SameDeployment(a.native.store, b.native.store)
    && a.adapterEid == b.adapterEid && a.nativeEid == b.nativeEid
  }

  lemma StepKeepsEnds(b: Bridge, event: BridgeEvent)
    requires Solvent(b)
    ensures SameEnds(b, StepBridge(b, event))
  {
    hide Step, Inv, KeepsVault, Moves;
    match event
    case Local(end, e) =>
      EndIsInv(b, end);
      StepKeepsInv(b.At(end), e);
    case Deliver(end, index, _, _, _, _) =>
      if b.AddressedTo(end, index) {
        EndIsInv(b, end);
        StepKeepsInv(b.At(end), ReceiveEvent(b, event));
      }
  }

  lemma {:induction false} RunsKeepEnds(b: Bridge, events: seq<BridgeEvent>)
    requires Solvent(b)
    ensures SameEnds(b, RunBridge(b, events))
  {
    hide StepBridge, Solvent;
    if events == [] {
    } else {
      RunsKeepEnds(b, events[..|events| - 1]);
      RunsKeepSolvent(b, events[..|events| - 1]);
      StepKeepsEnds(RunBridge(b, events[..|events| - 1]), events[|events| - 1]);
    }
  }

  /** Nothing either end does gets an oversized message out of the flight. */
  lemma StepKeepsOversized(b: Bridge, event: BridgeEvent, p: Packet)
    requires Solvent(b) && p in b.inFlight && Oversized(b, p)
    ensures p in StepBridge(b, event).inFlight && Oversized(StepBridge(b, event), p)
  {
    hide Solvent, Step, PacketSd;
    StepKeepsEnds(b, event);
    match event
    case Local(_, _) =>
    case Deliver(end, index, _, _, _, _) =>
      if b.AddressedTo(end, index) {
        if b.inFlight[index] == p {
          OversizedIsRefused(b, event, p);
        } else {
          StaysWithout(b.inFlight, index, p);
        }
      }
  }

  lemma OversizedIsRefused(b: Bridge, d: BridgeEvent, p: Packet)
    requires Solvent(b) && d.Deliver? && b.AddressedTo(d.end, d.index)
    requires b.inFlight[d.index] == p && Oversized(b, p)
    ensures d.end.NativeEnd? && Step(b.native, ReceiveEvent(b, d)).Err?
  {
    hide Solvent, PacketSd, AccountsFit, Allow, LzReceive;
    DeliveryToNativeIff(b, d);
  }

  lemma StaysWithout<T>(items: seq<T>, i: nat, item: T)
    requires i < |items| && items[i] != item && item in items
    ensures item in items[..i] + items[i + 1..]
  {
    var k :| 0 <= k < |items| && items[k] == item;
    if k < i {
      assert items[..i][k] == item;
    } else {
      assert items[i + 1..][k - i - 1] == item;
    }
  }

  /** Once in flight, it stays there in every continuation of the run. */
  lemma {:induction false} OversizedIsNeverDelivered(b: Bridge, events: seq<BridgeEvent>, p: Packet)
    requires Solvent(b) && p in b.inFlight && Oversized(b, p)
    ensures p in RunBridge(b, events).inFlight && Oversized(RunBridge(b, events), p)
  {
    hide StepBridge, Solvent, Oversized;
    if events == [] {
    } else {
      OversizedIsNeverDelivered(b, events[..|events| - 1], p);
      RunsKeepSolvent(b, events[..|events| - 1]);
      StepKeepsOversized(RunBridge(b, events[..|events| - 1]), events[|events| - 1], p);
    }
  }

  // ----- which deployments can strand a message -----

  /** The least number of shared units that overflows at the native end. */
  function LeastOversized(nativeRate: Rate): nat {
    CeilAdjoint(U64_LIMIT, nativeRate, -1);
    (U64_LIMIT + nativeRate - 1) / nativeRate
  }

  ghost predicate Strands(b: Bridge, events: seq<BridgeEvent>, adapterRate: Rate, nativeRate: Rate) {
    && InitialBridge(b) && b.adapter.store.rate == adapterRate && b.native.store.rate == nativeRate
    && var final := RunBridge(b, events);
       exists p :: p in final.inFlight && Oversized(final, p)
  }

  /** A message can be stranded exactly when the adapter's u64 can hold an amount, in its own units,
      that the native end's cannot: with equal rates, or a finer adapter, it never happens. */
  lemma StrandingIsReachableIff(adapterRate: Rate, nativeRate: Rate)
    ensures (exists b, events :: Strands(b, events, adapterRate, nativeRate))
       <==> LeastOversized(nativeRate) * adapterRate < U64_LIMIT
  {
    hide Strands, LeastOversized;
    forall b, events | Strands(b, events, adapterRate, nativeRate)
      ensures LeastOversized(nativeRate) * adapterRate < U64_LIMIT
    {
      StrandedFitsAdapter(b, events, adapterRate, nativeRate);
    }
    if LeastOversized(nativeRate) * adapterRate < U64_LIMIT {
      var amountLd := LeastOversized(nativeRate) * adapterRate;
      assert 0 <= amountLd;
      SendingStrands(adapterRate, nativeRate, amountLd);
    }
  }

  /** For instance with whole tokens locked and nineteen decimals minted. */
  lemma NineteenDecimalsStrand()
    ensures exists b, events :: Strands(b, events, 1, 10_000_000_000_000_000_000)
  {
    hide Strands;
    QuotientIs(U64_LIMIT + 10_000_000_000_000_000_000 - 1, 10_000_000_000_000_000_000, 2);
    StrandingIsReachableIff(1, 10_000_000_000_000_000_000);
  }

  /** Deployments made by `init_oft`, with a gap of decimals between the mint and the shared units at
      either end: a message can be stranded exactly when the native end's gap is the larger one. */
  lemma StrandingIffWiderGap(adapterKey: Pubkey, nativeKey: Pubkey, admin: Pubkey,
          adapterEscrow: Pubkey, nativeEscrow: Pubkey, adapterDecimals: nat, nativeDecimals: nat, sharedDecimals: nat)
    requires InitOft(adapterKey, Adapter, admin, adapterEscrow, adapterDecimals, sharedDecimals).Ok?
    requires InitOft(nativeKey, Native, admin, nativeEscrow, nativeDecimals, sharedDecimals).Ok?
    ensures var ra := InitOft(adapterKey, Adapter, admin, adapterEscrow, adapterDecimals, sharedDecimals).value.rate;
            var rn := InitOft(nativeKey, Native, admin, nativeEscrow, nativeDecimals, sharedDecimals).value.rate;
            ((exists b, events :: Strands(b, events, ra, rn)) <==> adapterDecimals < nativeDecimals)
  {
    hide Strands, LeastOversized, PowerOfTen;
    InitOftIff(nativeKey, Native, admin, nativeEscrow, nativeDecimals, sharedDecimals);
    var x, y := adapterDecimals - sharedDecimals, nativeDecimals - sharedDecimals;
    StrandingIsReachableIff(PowerOfTen(x), PowerOfTen(y));
    WiderGapIff(x, y);
  }

  lemma WiderGapIff(x: nat, y: nat)
    requires y <= 19 && PowerOfTen(x) < U64_LIMIT && PowerOfTen(y) < U64_LIMIT
    ensures LeastOversized(PowerOfTen(y)) * PowerOfTen(x) < U64_LIMIT <==> x < y
  {
    hide LeastOversized, PowerOfTen;
    var least, ra, rn := LeastOversized(PowerOfTen(y)), PowerOfTen(x), PowerOfTen(y);
    LeastIsLeast(rn);
    if x < y {
      PowerOfTenIsMonotone(x, y - 1);
      PowerOfTenIsMonotone(y, 19);
      TenTimes(y);
      MonotoneProduct(ra, PowerOfTen(y - 1), least);
      assert least * rn == 10 * (least * PowerOfTen(y - 1));
    } else {
      PowerOfTenIsMonotone(y, x);
      MonotoneProduct(rn, ra, least);
    }
  }

  lemma TenTimes(y: nat)
    requires 0 < y <= 19
    ensures PowerOfTen(y) == 10 * PowerOfTen(y - 1)
    ensures PowerOfTen(19) == 10_000_000_000_000_000_000
  {
    assert PowerOfTen(10) == 10_000_000_000;
    assert PowerOfTen(15) == 1_000_000_000_000_000;
  }

  lemma LeastIsLeast(nativeRate: Rate)
    ensures U64_LIMIT <= LeastOversized(nativeRate) * nativeRate < U64_LIMIT + nativeRate
  {
    FloorAdjoint(U64_LIMIT + nativeRate - 1, nativeRate, LeastOversized(nativeRate));
    CeilAdjoint(U64_LIMIT, nativeRate, LeastOversized(nativeRate));
  }

  lemma StrandedFitsAdapter(b0: Bridge, events: seq<BridgeEvent>, adapterRate: Rate, nativeRate: Rate)
    requires Strands(b0, events, adapterRate, nativeRate)
    ensures LeastOversized(nativeRate) * adapterRate < U64_LIMIT
  {
    hide Solvent, RunBridge, PacketSd, InitialBridge;
    var b := RunBridge(b0, events);
    InitialIsSolvent(b0);
    RunsKeepSolvent(b0, events);
    RunsKeepEnds(b0, events);
    var p :| p in b.inFlight && Oversized(b, p);
    var i :| 0 <= i < |b.inFlight| && b.inFlight[i] == p;
    LockedCoversFlight(b, i);
    CeilAdjoint(U64_LIMIT, nativeRate, PacketSd(p));
    MonotoneProduct(LeastOversized(nativeRate), PacketSd(p), adapterRate);
  }

  // ----- the run that strands one: wire the adapter, send once -----

  function Key(n: byte): Word {
    seq(32, _ => n)
  }

  const ADAPTER := Key(1)
  const ADAPTER_ESCROW := Key(2)
  const ADMIN := Key(3)
  const SOURCE := Key(4)
  const HOLDER := Key(5)
  const NATIVE := Key(6)
  const NATIVE_ESCROW := Key(7)

  lemma KeysDiffer()
    ensures ADAPTER != NATIVE && SOURCE != ADAPTER_ESCROW && HOLDER != ADAPTER
  {
    assert ADAPTER[0] == 1 && ADAPTER_ESCROW[0] == 2 && SOURCE[0] == 4 && HOLDER[0] == 5 && NATIVE[0] == 6;
  }

  function FreshAdapter(rate: Rate, amountLd: u64): OftState {
    OftState(Store(ADAPTER, Adapter, rate, ADAPTER_ESCROW, 0, ADMIN, 0, false, None, None), map[],
             TokenState(map[ADAPTER_ESCROW := TokenAccount(ADAPTER, 0), SOURCE := TokenAccount(HOLDER, amountLd)],
                        amountLd, None, map[]))
  }

  function FreshNative(rate: Rate): OftState {
    OftState(Store(NATIVE, Native, rate, NATIVE_ESCROW, 0, ADMIN, 0, false, None, None), map[],
             TokenState(map[NATIVE_ESCROW := TokenAccount(NATIVE, 0)], 0, None, map[]))
  }

  function FreshBridge(adapterRate: Rate, nativeRate: Rate, amountLd: u64): Bridge {
    Bridge(FreshAdapter(adapterRate, amountLd), FreshNative(nativeRate), 1, 2, [], 0, 0)
  }

  const WIRE := Event(Env(0, None), DoSetPeer(ADMIN, 2, PeerAddress(NATIVE)))

  function SendAll(amountLd: u64): Event {
    Event(Env(0, None), DoSend(2, SendAccounts(HOLDER, SOURCE, ADAPTER), SendParams(HOLDER, amountLd, 0, None)))
  }

  lemma SendingStrands(adapterRate: Rate, nativeRate: Rate, amountLd: u64)
    requires amountLd == LeastOversized(nativeRate) * adapterRate
    ensures exists b, events :: Strands(b, events, adapterRate, nativeRate)
  {
    hide StepBridge, RunBridge, Oversized, InitialBridge, LeastOversized;
    var b := FreshBridge(adapterRate, nativeRate, amountLd);
    var wire, send := Local(AdapterEnd, WIRE), Local(AdapterEnd, SendAll(amountLd));
    FreshIsInitial(adapterRate, nativeRate, amountLd);
    SendIsOversized(adapterRate, nativeRate, amountLd);
    TwoSteps(b, wire, send);
    assert Strands(b, [wire, send], adapterRate, nativeRate);
  }

  lemma TwoSteps(b: Bridge, first: BridgeEvent, second: BridgeEvent)
    ensures RunBridge(b, [first, second]) == StepBridge(StepBridge(b, first), second)
  {
    hide StepBridge;
    assert [first, second][..1] == [first] && [first][..0] == [];
    assert RunBridge(b, [first]) == StepBridge(RunBridge(b, []), first);
  }

  lemma SendIsOversized(adapterRate: Rate, nativeRate: Rate, amountLd: u64)
    requires amountLd == LeastOversized(nativeRate) * adapterRate
    ensures var b := FreshBridge(adapterRate, nativeRate, amountLd);
            var final := StepBridge(StepBridge(b, Local(AdapterEnd, WIRE)), Local(AdapterEnd, SendAll(amountLd)));
            exists p :: p in final.inFlight && Oversized(final, p)
  {
    hide LeastOversized, Step;
    var b := FreshBridge(adapterRate, nativeRate, amountLd);
    Wired(adapterRate, amountLd);
    SentWhole(adapterRate, LeastOversized(nativeRate), amountLd);
    var b1 := StepBridge(b, Local(AdapterEnd, WIRE));
    assert b1.adapter == WiredAdapter(adapterRate, amountLd);
    var final := StepBridge(b1, Local(AdapterEnd, SendAll(amountLd)));
    var p := final.inFlight[0];
    LeastIsLeast(nativeRate);
    KeysDiffer();
    assert p in final.inFlight && Oversized(final, p);
  }

  lemma FreshIsInitial(adapterRate: Rate, nativeRate: Rate, amountLd: u64)
    ensures InitialBridge(FreshBridge(adapterRate, nativeRate, amountLd))
  {
    KeysDiffer();
  }

  function WiredAdapter(rate: Rate, amountLd: u64): OftState {
    FreshAdapter(rate, amountLd).(peers := map[2 := WIRED])
  }

  lemma Wired(rate: Rate, amountLd: u64)
    ensures Step(FreshAdapter(rate, amountLd), WIRE) == Ok(Outcome(WiredAdapter(rate, amountLd), Quiet))
  {
  }

  /** Wired to the native end, and nothing but the default settings. */
  const WIRED := DefaultPeer().(peerAddress := NATIVE)

  lemma ChargedWhole(rate: Rate, amountSd: nat, amountLd: u64)
    requires amountLd == amountSd * rate
    ensures var r := ChargeFor(FreshAdapter(rate, amountLd).store, WIRED, Env(0, None), amountLd);
            && r.Ok? && r.value.receivedLd == amountLd && r.value.oftFeeLd == 0 && r.value.sentLd <= amountLd
            && amountSd == Ld2Sd(rate, amountLd)
  {
    hide ComputeFeeAndAdjustAmount;
    MultipleQuotient(amountSd, rate);
    assert EffectiveBps(0, None) == 0 && Arriving(None, amountLd) == amountLd;
    ChargeInWholeUnits(amountLd, Adapter, rate, 0, None, None);
    AdapterChargeIsExact(amountLd, rate, 0, None, None);
  }

  lemma SentWhole(rate: Rate, amountSd: nat, amountLd: u64)
    requires amountLd == amountSd * rate
    ensures var r := Step(WiredAdapter(rate, amountLd), SendAll(amountLd));
            && r.Ok? && r.value.output.Emitted? && r.value.output.receiver == NATIVE
            && OftCodec.AmountSd(r.value.output.message) == Some(amountSd)
  {
    hide ComputeFeeAndAdjustAmount, ChargeFor, TakeTokens, OftCodec.Encode, OftCodec.AmountSd, OftCodec.SendTo;
    hide Ld2Sd;
    var store, tokens, env := FreshAdapter(rate, amountLd).store, FreshAdapter(rate, amountLd).tokens, Env(0, None);
    var DoSend(_, accounts, params) := SendAll(amountLd).action;
    KeysDiffer();
    ChargedWhole(rate, amountSd, amountLd);
    SendSucceedsIff(store, WIRED, tokens, env, accounts, params);
    assert WiredAdapter(rate, amountLd).peers[2] == WIRED;
    OftCodec.DecodeEncode(HOLDER, amountSd, HOLDER, None);
  }
}
