/** Runs of one OFT deployment: every instruction of the program interleaved with whatever token
    holders do. Failed steps change nothing. */
module OftRuns {
  import opened Base
  import opened Division
  import opened TransferFees
  import opened Charging
  import opened RateLimits
  import opened Tokens
  import opened Oft
  import opened OftSteps
  import OftCodec

  datatype OftState = OftState(store: Store, peers: map<u32, Peer>, tokens: TokenState)

  datatype Action =
    | DoSend(dstEid: u32, sendAccounts: SendAccounts, sendParams: SendParams)
    | DoReceive(receiveAccounts: ReceiveAccounts, receiveParams: LzReceiveParams)
    | DoWithdrawFee(admin: Pubkey, tokenDest: Pubkey, feeLd: u64)
    | DoSetPeer(admin: Pubkey, remoteEid: u32, peerConfig: PeerConfigParam)
    | DoSetConfig(admin: Pubkey, oftConfig: OftConfigParam)
    | DoSetPause(signer: Pubkey, paused: bool)
    | HolderTransfer(signer: Pubkey, from: Pubkey, to: Pubkey, amount: u64)
    | HolderBurn(signer: Pubkey, from: Pubkey, amount: u64)
    | OpenAccount(key: Pubkey, owner: Pubkey)
    | OtherMint(to: Pubkey, amount: u64)

  datatype Event = Event(env: Env, action: Action)

  datatype Output =
    | Quiet
    | Emitted(receiver: Word, message: Bytes, charge: Charge)
    | Delivered(amountLd: u64)

  datatype Outcome = Outcome(oft: OftState, output: Output)

  function StepSend(o: OftState, env: Env, dstEid: u32, accounts: SendAccounts, params: SendParams): Result<Outcome> {
    if dstEid !in o.peers || accounts.signer == o.store.key then
      Err(Abort)
    else
      var sent :- Send(o.store, o.peers[dstEid], o.tokens, env, accounts, params);
      Ok(Outcome(OftState(sent.store, o.peers[dstEid := sent.peer], sent.tokens),
                 Emitted(sent.peer.peerAddress, sent.message, sent.charge)))
  }

  function StepReceive(o: OftState, env: Env, accounts: ReceiveAccounts, params: LzReceiveParams): Result<Outcome> {
    if params.srcEid !in o.peers then
      Err(Abort)
    else
      var received :- LzReceive(o.store, o.peers[params.srcEid], o.tokens, env, accounts, params);
      Ok(Outcome(OftState(received.store, o.peers[params.srcEid := received.peer], received.tokens),
                 Delivered(received.amountLd)))
  }

  /** A peer account is created with defaults the first time it is configured. */
  function StepSetPeer(o: OftState, env: Env, admin: Pubkey, remoteEid: u32, config: PeerConfigParam): Result<Outcome> {
    var before := if remoteEid in o.peers then o.peers[remoteEid] else DefaultPeer();
    var peer :- SetPeerConfig(o.store, before, env, admin, config);
    Ok(Outcome(o.(peers := o.peers[remoteEid := peer]), Quiet))
  }

  /** The store's key is a program address: only this program signs for it, so no holder's own
      transfer or burn can draw on the escrow. Whoever else the mint authority admits may mint. */
  function StepHolder(o: OftState, env: Env, action: Action): Result<TokenState> {
    match action
    case HolderTransfer(signer, from, to, amount) =>
      if signer == o.store.key || !o.tokens.OwnedBy(from, signer) then Err(Abort)
      else o.tokens.Transfer(env.mintFee, from, to, amount)
    case HolderBurn(signer, from, amount) =>
      if signer == o.store.key || !o.tokens.OwnedBy(from, signer) then Err(Abort)
      else o.tokens.Burn(from, amount)
    case OpenAccount(key, owner) => o.tokens.Open(key, owner)
    case OtherMint(to, amount) => o.tokens.Issue(to, amount)
    case _ => Err(Abort)
  }

  function Step(o: OftState, e: Event): Result<Outcome> {
    match e.action
    case DoSend(dstEid, accounts, params) => StepSend(o, e.env, dstEid, accounts, params)
    case DoReceive(accounts, params) => StepReceive(o, e.env, accounts, params)
    case DoWithdrawFee(admin, tokenDest, feeLd) =>
      var tokens :- WithdrawFee(o.store, o.tokens, e.env, admin, tokenDest, feeLd);
      Ok(Outcome(o.(tokens := tokens), Quiet))
    case DoSetPeer(admin, remoteEid, config) => StepSetPeer(o, e.env, admin, remoteEid, config)
    case DoSetConfig(admin, config) =>
      var store :- SetOftConfig(o.store, admin, config);
      Ok(Outcome(o.(store := store), Quiet))
    case DoSetPause(signer, paused) =>
      var store :- SetPause(o.store, signer, paused);
      Ok(Outcome(o.(store := store), Quiet))
    case _ =>
      var tokens :- StepHolder(o, e.env, e.action);
      Ok(Outcome(o.(tokens := tokens), Quiet))
  }

  function After(o: OftState, e: Event): OftState {
    match Step(o, e)
    case Ok(outcome) => outcome.oft
    case Err(_) => o
  }

  function Run(o: OftState, events: seq<Event>): OftState {
    if events == [] then o else After(Run(o, events[..|events| - 1]), events[|events| - 1])
  }

  /** A fresh deployment: `init_oft` has just created the store and its empty escrow. */
  predicate Initial(o: OftState) {
    && o.store.tvlLd == 0 && o.store.defaultFeeBps == 0 && o.peers == map[]
    && o.tokens.OwnedBy(o.store.tokenEscrow, o.store.key) && o.tokens.Balance(o.store.tokenEscrow) == 0
  }

  lemma InitOftGivesInitial(key: Pubkey, oftType: OftType, admin: Pubkey, tokenEscrow: Pubkey, decimals: nat,
          sharedDecimals: nat, tokens: TokenState)
    requires tokens.OwnedBy(tokenEscrow, key) && tokens.Balance(tokenEscrow) == 0
    ensures var r := InitOft(key, oftType, admin, tokenEscrow, decimals, sharedDecimals);
            r.Ok? ==> && Initial(OftState(r.value, map[], tokens)) && r.value.oftType == oftType
                      && r.value.rate == PowerOfTen(decimals - sharedDecimals)
                      && r.value.key == key && r.value.tokenEscrow == tokenEscrow && r.value.admin == admin
                      && !r.value.paused && r.value.pauser.None? && r.value.unpauser.None?
  {
  }

  // ----- the invariant of every run -----

  ghost predicate PeerOk(peer: Peer) {
    && (peer.feeBps.Some? ==> peer.feeBps.value < ONE_IN_BASIS_POINTS)
    && (peer.outbound.Some? ==> peer.outbound.value.Valid())
    && (peer.inbound.Some? ==> peer.inbound.value.Valid())
  }

  ghost predicate ConfigOk(o: OftState) {
    && o.store.defaultFeeBps < ONE_IN_BASIS_POINTS
    && forall eid :: eid in o.peers ==> PeerOk(o.peers[eid])
  }

  /** The locked value is a whole number of shared units, covered by an escrow the program owns. */
  ghost predicate VaultOk(o: OftState) {
    && o.tokens.OwnedBy(o.store.tokenEscrow, o.store.key)
    && o.store.tvlLd <= o.tokens.Balance(o.store.tokenEscrow)
    && o.store.tvlLd % o.store.rate == 0
    && (o.store.oftType.Native? ==> o.store.tvlLd == 0)
  }

  ghost predicate Inv(o: OftState) {
    ConfigOk(o) && VaultOk(o)
  }

  /** No step changes what `init_oft` fixed. */
  predicate SameDeployment(a: Store, b: Store) {
    a.key == b.key && a.oftType == b.oftType && a.rate == b.rate && a.tokenEscrow == b.tokenEscrow
  }

  lemma LimitsKeepPeerOk(peer: Peer, clock: i64, amountLd: u64)
    requires PeerOk(peer)
    ensures var r := LimitOutbound(peer, clock, amountLd);
            r.Ok? ==> PeerOk(r.value) && r.value.peerAddress == peer.peerAddress
    ensures var r := LimitInbound(peer, clock, amountLd);
            r.Ok? ==> PeerOk(r.value) && r.value.peerAddress == peer.peerAddress
  {
  }

  // ----- what each step does to the escrow -----

  /** Where the escrow's surplus over the locked value came from and went to. */
  datatype Books = Books(collected: nat, donated: nat, withdrawn: nat) {
    function Surplus(): int {
      collected + donated - withdrawn
    }
  }

  function Booked(o: OftState, e: Event, b: Books): Books {
    var escrow := o.store.tokenEscrow;
    match e.action
    case DoSend(_, _, _) =>
      var feeLd := EmittedCharge(o, e).oftFeeLd;
      b.(collected := b.collected + if o.store.oftType.Adapter? then feeLd else Arriving(e.env.mintFee, feeLd))
    case DoReceive(accounts, _) =>
      if accounts.tokenDest == escrow then b.(donated := b.donated + DeliveredLd(o, e)) else b
    case DoWithdrawFee(_, tokenDest, feeLd) =>
      if tokenDest != escrow then b.(withdrawn := b.withdrawn + feeLd) else b
    case HolderTransfer(_, _, to, amount) =>
      if to == escrow then b.(donated := b.donated + Arriving(e.env.mintFee, amount)) else b
    case OtherMint(to, amount) =>
      if to == escrow then b.(donated := b.donated + amount) else b
    case _ => b
  }

  /** The charge of a send that succeeds. */
  function EmittedCharge(o: OftState, e: Event): Charge {
    match Step(o, e)
    case Ok(Outcome(_, Emitted(_, _, charge))) => charge
    case _ => Charge(0, 0, 0)
  }

  /** The local amount of a receive that succeeds. */
  function DeliveredLd(o: OftState, e: Event): u64 {
    match Step(o, e)
    case Ok(Outcome(_, Delivered(amountLd))) => amountLd
    case _ => 0
  }

  /** One instruction: the vault stays sound and the books explain the surplus. */
  ghost predicate KeepsVault(o: OftState, e: Event) {
    match Step(o, e)
    case Err(_) => true
    case Ok(outcome) =>
      && VaultOk(outcome.oft) && SameDeployment(o.store, outcome.oft.store)
      && forall b: Books ::
           Booked(o, e, b).Surplus() - b.Surplus() == SurplusLd(outcome.oft) - SurplusLd(o)
  }

  function SurplusLd(o: OftState): int {
    o.tokens.Balance(o.store.tokenEscrow) - o.store.tvlLd
  }

  lemma SendKeepsVault(o: OftState, e: Event)
    requires Inv(o) && e.action.DoSend?
    ensures KeepsVault(o, e)
  {
    hide OftCodec.Encode, ComputeFeeAndAdjustAmount, LimitOutbound, Ld2Sd, Arriving;
    var r := Step(o, e);
    if r.Ok? {
      var DoSend(dstEid, accounts, params) := e.action;
      var peer := o.peers[dstEid];
      assert PeerOk(peer);
      var charge := ChargeFor(o.store, peer, e.env, params.amountLd).value;
      SendCharges(o.store, peer, e.env, params.amountLd);
      AddMultiples(o.store.rate, o.store.tvlLd, charge.receivedLd);
      assert accounts.tokenSource != o.store.tokenEscrow;
      assert EmittedCharge(o, e) == charge;
    }
  }

  /** Reachable configurations: the adapter's escrow gains the delivery and the fee, exactly. */
  lemma SendCharges(store: Store, peer: Peer, env: Env, amountLd: u64)
    requires store.defaultFeeBps < ONE_IN_BASIS_POINTS && PeerOk(peer)
    ensures var r := ChargeFor(store, peer, env, amountLd);
            && r.Ok? && r.value.receivedLd % store.rate == 0
            && (store.oftType.Adapter? ==>
                  Arriving(env.mintFee, r.value.sentLd) == r.value.receivedLd + r.value.oftFeeLd)
            && (store.oftType.Native? ==> r.value.sentLd == r.value.receivedLd + r.value.oftFeeLd)
  {
    hide ComputeFeeAndAdjustAmount, Ld2Sd, WholeUnits;
    ChargeInWholeUnits(amountLd, store.oftType, store.rate, store.defaultFeeBps, env.mintFee, peer.feeBps);
    ReceivedIsWhole(store, peer, env, amountLd);
    var charge := ChargeFor(store, peer, env, amountLd).value;
    MultipleQuotient(Ld2Sd(store.rate, charge.receivedLd), store.rate);
    if store.oftType.Adapter? {
      AdapterChargeIsExact(amountLd, store.rate, store.defaultFeeBps, env.mintFee, peer.feeBps);
    } else {
      NativeChargeSplits(amountLd, store.rate, store.defaultFeeBps, env.mintFee, peer.feeBps);
    }
  }

  lemma AddMultiples(rate: Rate, a: nat, b: nat)
    requires a % rate == 0 && b % rate == 0
    ensures (a + b) % rate == 0
    ensures b <= a ==> (a - b) % rate == 0
  {
    RemainderIs(a, rate);
    RemainderIs(b, rate);
    assert a + b == (a / rate + b / rate) * rate;
    assert a - b == (a / rate - b / rate) * rate;
    MultipleQuotient(a / rate + b / rate, rate);
    MultipleQuotient(a / rate - b / rate, rate);
  }

  lemma ReceiveKeepsVault(o: OftState, e: Event)
    requires Inv(o) && e.action.DoReceive?
    ensures KeepsVault(o, e)
  {
    hide OftCodec.SendTo, OftCodec.AmountSd, OftCodec.ComposeMsg, ComposeFor;
    hide LimitInbound, ReleaseTokens, Arriving, ConfigOk;
    var r := Step(o, e);
    if r.Ok? {
      var DoReceive(accounts, params) := e.action;
      var amountLd := AmountLd(o.store, params).value;
      var peerAddress := o.peers[params.srcEid].peerAddress;
      var prepared := CheckReceiveAccounts(o.store, peerAddress, o.tokens, accounts, params).value;
      MultipleQuotient(OftCodec.AmountSd(params.message).value, o.store.rate);
      AddMultiples(o.store.rate, o.store.tvlLd, amountLd);
      ReleaseFromEscrow(o.store, prepared, e.env, accounts, amountLd);
      assert DeliveredLd(o, e) == amountLd;
    }
  }

  /** The escrow pays what the locked value gives up, unless it pays itself or nothing is locked. */
  lemma ReleaseFromEscrow(store: Store, tokens: TokenState, env: Env, accounts: ReceiveAccounts, amountLd: u64)
    requires tokens.OwnedBy(store.tokenEscrow, store.key) && ReleaseTokens(store, tokens, env, accounts, amountLd).Ok?
    ensures var vault := ReleaseTokens(store, tokens, env, accounts, amountLd).value;
            && vault.tokens.OwnedBy(store.tokenEscrow, store.key)
            && vault.tvlLd == store.tvlLd - (if store.oftType.Adapter? then amountLd else 0)
            && vault.tokens.Balance(store.tokenEscrow) - vault.tvlLd
               == tokens.Balance(store.tokenEscrow) - store.tvlLd
                  + (if accounts.tokenDest == store.tokenEscrow then amountLd else 0)
  {
  }

  /** The escrow only shrinks by a withdrawal within the surplus. */
  lemma WithdrawalKeepsVault(o: OftState, e: Event)
    requires Inv(o) && e.action.DoWithdrawFee?
    ensures KeepsVault(o, e)
  {
    hide Arriving;
  }

  /** A holder's transfer touches neither the locked value nor, but for donations, the escrow. */
  lemma HolderTransferKeepsVault(o: OftState, e: Event)
    requires Inv(o) && e.action.HolderTransfer?
    ensures KeepsVault(o, e)
  {
    hide Arriving;
  }

  /** Nor do holders' burns, new accounts and other mints. */
  lemma HolderStepsKeepVault(o: OftState, e: Event)
    requires Inv(o) && (e.action.HolderBurn? || e.action.OpenAccount? || e.action.OtherMint?)
    ensures KeepsVault(o, e)
  {
    hide Arriving;
  }

  predicate IsConfiguration(action: Action) {
    action.DoSetPeer? || action.DoSetConfig? || action.DoSetPause?
  }

  lemma ConfigStepsKeepVault(o: OftState, e: Event)
    requires Inv(o) && IsConfiguration(e.action)
    ensures KeepsVault(o, e)
  {
    hide UpdatedLimiter;
  }

  lemma StepKeepsConfig(o: OftState, e: Event)
    requires ConfigOk(o)
    ensures ConfigOk(After(o, e))
  {
    hide OftCodec.Encode, OftCodec.AmountSd, OftCodec.SendTo, ComputeFeeAndAdjustAmount;
    hide LimitOutbound, LimitInbound, TakeTokens, ReleaseTokens, ComposeFor, UpdatedLimiter;
    match e.action
    case DoSend(dstEid, accounts, params) =>
      if dstEid in o.peers && ChargeFor(o.store, o.peers[dstEid], e.env, params.amountLd).Ok? {
        var charge := ChargeFor(o.store, o.peers[dstEid], e.env, params.amountLd).value;
        LimitsKeepPeerOk(o.peers[dstEid], e.env.clock, charge.receivedLd);
      }
    case DoReceive(accounts, params) =>
      if params.srcEid in o.peers && AmountLd(o.store, params).Ok? {
        LimitsKeepPeerOk(o.peers[params.srcEid], e.env.clock, AmountLd(o.store, params).value);
      }
    case DoSetPeer(admin, remoteEid, config) =>
      var before := if remoteEid in o.peers then o.peers[remoteEid] else DefaultPeer();
      match config {
        case OutboundRateLimit(params) => UpdatedLimiterIsValid(before.outbound, params, e.env.clock);
        case InboundRateLimit(params) => UpdatedLimiterIsValid(before.inbound, params, e.env.clock);
        case _ =>
      }
    case _ =>
  }

  lemma StepKeepsInv(o: OftState, e: Event)
    requires Inv(o)
    ensures Inv(After(o, e)) && KeepsVault(o, e) && SameDeployment(o.store, After(o, e).store)
  {
    hide Step, VaultOk, Booked;
    StepKeepsConfig(o, e);
    if e.action.DoSend? {
      SendKeepsVault(o, e);
    } else if e.action.DoReceive? {
      ReceiveKeepsVault(o, e);
    } else if IsConfiguration(e.action) {
      ConfigStepsKeepVault(o, e);
    } else if e.action.DoWithdrawFee? {
      WithdrawalKeepsVault(o, e);
    } else if e.action.HolderTransfer? {
      HolderTransferKeepsVault(o, e);
    } else {
      HolderStepsKeepVault(o, e);
    }
  }

  /** Every reachable state: fees below 100 percent, buckets within capacity, the locked value
      dust-free and covered. */
  lemma {:induction false} RunsKeepInv(o: OftState, events: seq<Event>)
    requires Inv(o)
    ensures Inv(Run(o, events)) && SameDeployment(o.store, Run(o, events).store)
  {
    if events == [] {
    } else {
      RunsKeepInv(o, events[..|events| - 1]);
      StepKeepsInv(Run(o, events[..|events| - 1]), events[|events| - 1]);
    }
  }

  /** What an administrator has chosen for a peer; the levels of its buckets are not part of it. */
  datatype Settings = Settings(
    peerAddress: Word,
    feeBps: Option<u16>,
    outbound: Option<(u64, u64)>,
    inbound: Option<(u64, u64)>)

  function SettingsOf(peer: Peer): Settings {
    Settings(peer.peerAddress, peer.feeBps, LimitOf(peer.outbound), LimitOf(peer.inbound))
  }

  function LimitOf(limiter: Option<Bucket>): Option<(u64, u64)> {
    if limiter.None? then None else Some((limiter.value.capacity, limiter.value.refillPerSecond))
  }

  predicate SameSettings(a: OftState, b: OftState) {
    && a.store.admin == b.store.admin && a.store.defaultFeeBps == b.store.defaultFeeBps
    && a.store.pauser == b.store.pauser && a.store.unpauser == b.store.unpauser
    && a.peers.Keys == b.peers.Keys
    && forall eid :: eid in a.peers ==> SettingsOf(a.peers[eid]) == SettingsOf(b.peers[eid])
  }

  /** Sends, deliveries, withdrawals and holders never change a setting; only the admin does, and
      only the admin, the pauser or the unpauser changes the pause. */
  lemma OnlyAdminChangesSettings(o: OftState, e: Event)
    ensures !SameSettings(o, After(o, e)) ==>
              (e.action.DoSetPeer? || e.action.DoSetConfig?) && e.action.admin == o.store.admin
    ensures After(o, e).store.paused != o.store.paused ==>
              || (e.action.DoSetConfig? && e.action.admin == o.store.admin)
              || (e.action.DoSetPause?
                  && Some(e.action.signer) == if e.action.paused then o.store.pauser else o.store.unpauser)
  {
    hide OftCodec.Encode, OftCodec.AmountSd, OftCodec.SendTo, ComputeFeeAndAdjustAmount, TakeTokens;
    hide ReleaseTokens, ComposeFor, UpdatedLimiter, CheckReceiveAccounts, Sd2Ld, Ld2Sd, Arriving;
    hide LimitOutbound, LimitInbound;
    match e.action
    case DoSend(dstEid, accounts, params) =>
      if dstEid in o.peers && ChargeFor(o.store, o.peers[dstEid], e.env, params.amountLd).Ok? {
        var charge := ChargeFor(o.store, o.peers[dstEid], e.env, params.amountLd).value;
        LimitsKeepSettings(o.peers[dstEid], e.env.clock, charge.receivedLd);
      }
    case DoReceive(accounts, params) =>
      if params.srcEid in o.peers && AmountLd(o.store, params).Ok? {
        LimitsKeepSettings(o.peers[params.srcEid], e.env.clock, AmountLd(o.store, params).value);
      }
    case _ =>
  }

  lemma LimitsKeepSettings(peer: Peer, clock: i64, amountLd: u64)
    ensures var r := LimitOutbound(peer, clock, amountLd); r.Ok? ==> SettingsOf(r.value) == SettingsOf(peer)
    ensures var r := LimitInbound(peer, clock, amountLd); r.Ok? ==> SettingsOf(r.value) == SettingsOf(peer)
  {
  }

  function RunBooks(o: OftState, events: seq<Event>): Books {
    if events == [] then Books(0, 0, 0)
    else
      var before := Run(o, events[..|events| - 1]);
      var books := RunBooks(o, events[..|events| - 1]);
      if Step(before, events[|events| - 1]).Ok? then Booked(before, events[|events| - 1], books) else books
  }

  /** In every run from a fresh deployment the escrow holds the locked value plus what was
      collected and donated, less what was withdrawn. */
  lemma {:induction false} EscrowAccounting(o: OftState, events: seq<Event>)
    requires Initial(o)
    ensures var final := Run(o, events);
            && final.tokens.Balance(final.store.tokenEscrow) == final.store.tvlLd + RunBooks(o, events).Surplus()
            && RunBooks(o, events).withdrawn <= RunBooks(o, events).collected + RunBooks(o, events).donated
  {
    InitialIsInv(o);
    RunsKeepInv(o, events);
    if events == [] {
    } else {
      var before, last := Run(o, events[..|events| - 1]), events[|events| - 1];
      RunsKeepInv(o, events[..|events| - 1]);
      EscrowAccounting(o, events[..|events| - 1]);
      StepKeepsInv(before, last);
      hide Step, Booked;
      assert SurplusLd(Run(o, events)) == RunBooks(o, events).Surplus();
    }
  }

  lemma InitialIsInv(o: OftState)
    requires Initial(o)
    ensures Inv(o)
  {
  }
}
