/** How much value a rate limiter lets through over a whole window of a run. */
module NetFlow {
  import opened Base
  import opened Division
  import opened Charging
  import opened RateLimits
  import opened Oft
  import opened OftRuns
  import OftCodec

  datatype Direction = Outbound | Inbound

  function Limiter(o: OftState, eid: u32, direction: Direction): Option<Bucket> {
    if eid !in o.peers then None
    else if direction.Outbound? then o.peers[eid].outbound
    else o.peers[eid].inbound
  }

  /** What the step moved in `direction` to or from the peer `eid`, counted negative when it moved
      the other way. */
  function Flow(o: OftState, e: Event, eid: u32, direction: Direction): int {
    var sign := if direction.Outbound? then 1 else -1;
    match e.action
    case DoSend(dstEid, _, _) => if dstEid == eid then sign * EmittedCharge(o, e).receivedLd else 0
    case DoReceive(_, params) => if params.srcEid == eid then -sign * DeliveredLd(o, e) else 0
    case _ => 0
  }

  function NetFlow(o: OftState, events: seq<Event>, eid: u32, direction: Direction): int {
    if events == [] then 0
    else
      NetFlow(o, events[..|events| - 1], eid, direction)
      + Flow(Run(o, events[..|events| - 1]), events[|events| - 1], eid, direction)
  }

  /** The clock reading of the last event, or `start` before the first. */
  function LastClock(start: int, events: seq<Event>): int {
    if events == [] then start else events[|events| - 1].env.clock
  }

  /** The sum of the clock's forward moves. */
  function ForwardTime(start: int, events: seq<Event>): nat {
    if events == [] then 0
    else
      ForwardTime(start, events[..|events| - 1])
      + Max(0, LastClock(start, events) - LastClock(start, events[..|events| - 1]))
  }

  predicate Reconfigures(e: Event, eid: u32, direction: Direction) {
    && e.action.DoSetPeer? && e.action.remoteEid == eid
    && (if direction.Outbound? then e.action.peerConfig.OutboundRateLimit? else e.action.peerConfig.InboundRateLimit?)
  }

  /** Either the step leaves the limiter alone and moves nothing, or it moves at most the level and
      takes exactly what it moved off it; what flows back is given back up to the capacity. */
  ghost predicate Conserves(before: Bucket, after: Bucket, flow: int, clock: int) {
    && after.capacity == before.capacity && after.refillPerSecond == before.refillPerSecond
    && (|| (after == before && flow == 0)
        || (&& after.lastRefillTime == clock && flow <= before.Level(clock)
            && after.tokens == Min(before.capacity, before.Level(clock) - flow)))
  }

  /** A step conserves a limiter, with the flow the step itself moved. */
  ghost predicate StepBooksFlow(o: OftState, e: Event, eid: u32, direction: Direction)
    requires Limiter(o, eid, direction).Some?
  {
    var after := Limiter(After(o, e), eid, direction);
    && after.Some?
    && Conserves(Limiter(o, eid, direction).value, after.value, Flow(o, e, eid, direction), e.env.clock)
  }

  lemma StepConserves(o: OftState, e: Event, eid: u32, direction: Direction)
    requires Limiter(o, eid, direction).Some? && !Reconfigures(e, eid, direction)
    ensures StepBooksFlow(o, e, eid, direction)
  {
    hide StepBooksFlow, Limiter, Reconfigures;
    if e.action.DoSend? {
      SendConserves(o, e, eid, direction);
    } else if e.action.DoReceive? {
      ReceiveConserves(o, e, eid, direction);
    } else {
      OtherStepsConserve(o, e, eid, direction);
    }
  }

  lemma SendConserves(o: OftState, e: Event, eid: u32, direction: Direction)
    requires Limiter(o, eid, direction).Some? && e.action.DoSend?
    ensures StepBooksFlow(o, e, eid, direction)
  {
    hide OftCodec.Encode, ComputeFeeAndAdjustAmount, TakeTokens, Ld2Sd;
  }

  lemma ReceiveConserves(o: OftState, e: Event, eid: u32, direction: Direction)
    requires Limiter(o, eid, direction).Some? && e.action.DoReceive?
    ensures StepBooksFlow(o, e, eid, direction)
  {
    hide OftCodec.AmountSd, OftCodec.SendTo, ReleaseTokens, ComposeFor, CheckReceiveAccounts, Sd2Ld, Arriving;
  }

  lemma OtherStepsConserve(o: OftState, e: Event, eid: u32, direction: Direction)
    requires Limiter(o, eid, direction).Some? && !Reconfigures(e, eid, direction)
    requires !e.action.DoSend? && !e.action.DoReceive?
    ensures StepBooksFlow(o, e, eid, direction)
  {
    hide UpdatedLimiter;
  }

  /** The invariant of the induction, for a window that opens at clock reading `opening`. */
  ghost predicate Bounded(start: Bucket, now: Bucket, net: int, opening: int, clock: int, forward: nat) {
    && now.capacity == start.capacity && now.refillPerSecond == start.refillPerSecond
    && net + now.Level(clock) <= start.Level(opening) + forward * start.refillPerSecond
  }

  lemma {:induction false} PotentialBound(o: OftState, opening: int, events: seq<Event>, eid: u32,
          direction: Direction)
    requires Limiter(o, eid, direction).Some?
    requires forall e :: e in events ==> !Reconfigures(e, eid, direction)
    ensures var start, end := Limiter(o, eid, direction).value, Limiter(Run(o, events), eid, direction);
            && end.Some?
            && Bounded(start, end.value, NetFlow(o, events, eid, direction), opening, LastClock(opening, events),
                       ForwardTime(opening, events))
  {
    hide After, Limiter, Flow, Bounded, Conserves, Reconfigures;
    var start := Limiter(o, eid, direction).value;
    if events == [] {
      NothingMoved(start, opening);
    } else {
      var front, last := events[..|events| - 1], events[|events| - 1];
      PotentialBound(o, opening, front, eid, direction);
      var mid := Run(o, front);
      StepConserves(mid, last, eid, direction);
      PotentialStep(start, Limiter(mid, eid, direction).value, Limiter(After(mid, last), eid, direction).value,
                    NetFlow(o, front, eid, direction), Flow(mid, last, eid, direction), opening,
                    LastClock(opening, front), last.env.clock, ForwardTime(opening, front));
    }
  }

  lemma NothingMoved(start: Bucket, opening: int)
    ensures Bounded(start, start, 0, opening, opening, 0)
  {
  }

  lemma PotentialStep(start: Bucket, before: Bucket, after: Bucket, net: int, flow: int, opening: int,
          previous: int, now: int, forward: nat)
    requires Conserves(before, after, flow, now) && Bounded(start, before, net, opening, previous, forward)
    ensures Bounded(start, after, net + flow, opening, now, forward + Max(0, now - previous))
  {
    CreditedTime(before.lastRefillTime, previous, now, forward, start.refillPerSecond);
  }

  lemma CreditedTime(refilled: int, previous: int, now: int, forward: nat, rate: nat)
    ensures Max(0, now - refilled) * rate - Max(0, previous - refilled) * rate
         <= (forward + Max(0, now - previous)) * rate - forward * rate
    ensures forward * rate <= (forward + Max(0, now - previous)) * rate
  {
    MonotoneProduct(Max(0, now - refilled), Max(0, previous - refilled) + Max(0, now - previous), rate);
    assert (Max(0, previous - refilled) + Max(0, now - previous)) * rate
        == Max(0, previous - refilled) * rate + Max(0, now - previous) * rate;
    assert (forward + Max(0, now - previous)) * rate == forward * rate + Max(0, now - previous) * rate;
  }

  /** The token bucket's promise. Whenever a window opens, however long the bucket was idle before,
      and whatever happens in it short of reconfiguring that limiter, the net amount moved is at
      most the level at the opening plus the rate times the clock's forward moves inside the window,
      hence at most the capacity plus those. */
  lemma NetFlowIsBounded(o: OftState, opening: int, events: seq<Event>, eid: u32, direction: Direction)
    requires Limiter(o, eid, direction).Some?
    requires forall e :: e in events ==> !Reconfigures(e, eid, direction)
    ensures var start := Limiter(o, eid, direction).value;
            var earned := ForwardTime(opening, events) * start.refillPerSecond;
            && NetFlow(o, events, eid, direction) <= start.Level(opening) + earned
            && NetFlow(o, events, eid, direction) <= start.capacity + earned
  {
    hide Limiter, Run, NetFlow, Reconfigures, ForwardTime, LastClock;
    PotentialBound(o, opening, events, eid, direction);
    var end := Limiter(Run(o, events), eid, direction).value;
    MonotoneProduct(0, Max(0, LastClock(opening, events) - end.lastRefillTime), end.refillPerSecond);
  }

  /** On a clock that never goes back the forward moves are just the length of the window. */
  lemma {:induction false} MonotoneClockTime(start: int, events: seq<Event>)
    requires forall i :: 0 <= i < |events| ==> start <= events[i].env.clock
    requires forall i, j :: 0 <= i < j < |events| ==> events[i].env.clock <= events[j].env.clock
    ensures ForwardTime(start, events) == LastClock(start, events) - start
  {
    if events == [] {
    } else {
      MonotoneClockTime(start, events[..|events| - 1]);
    }
  }
}
