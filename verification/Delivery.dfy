/** Messages across the language boundary: what one side writes, the other side accepts and reads
    back unchanged, and payouts add up over whole runs. */
module Delivery {
  import opened Base
  import opened Totals
  import opened ProxyMessages
  import opened SolanaProxy
  import opened Ledger
  import ProxyRuns

  /** A proxy message reads back at the ledger, and is accepted exactly when the ledger is wired to
      the proxy, not paused, and knows Solana's endpoint and chain. */
  lemma VaultMessageIsReceivedIff(s: Storage, manager: OccManager, srcEid: u32, sender: Word, user: Pubkey,
          payloadType: PayloadType, payload: Bytes)
    requires payloadType.IsRequest() || payloadType.IsClaim()
    ensures var r := Receive(s, manager, srcEid, sender, EncodeVault(RequestMessage(user, payloadType, payload)));
            && (r.Ok? <==> && s.HasPeer(srcEid) && s.peers[srcEid] == sender && !s.paused
                           && srcEid == manager.solanaEid && manager.ChainId(srcEid) != 0)
            && (r.Ok? ==> r.value == OccVaultMessage(0, manager.ChainId(srcEid), TokenType.PLACEHOLDER, 0, user,
                                                     payloadType.Code(), payload))
  {
    UnpackPacked(payloadType.TokenFor().Code(), user, payloadType.Code(), payload);
    PayloadTypeRoundTrip(payloadType);
  }

  /** Forward delivery of requests: the OCC message has the user, the type and the payload of the call. */
  lemma RequestIsDelivered(p: Proxy, user: Pubkey, payloadCode: byte, payload: Bytes, nativeFee: u64, price: u64,
          s: Storage, manager: OccManager, srcEid: u32)
    requires SendRequest(p, user, payloadCode, payload, nativeFee, price).Ok?
    requires s.HasPeer(srcEid) && s.peers[srcEid] == p.key && !s.paused
    requires srcEid == manager.solanaEid && manager.ChainId(srcEid) != 0
    ensures var message := SendRequest(p, user, payloadCode, payload, nativeFee, price).value.send.message;
            Receive(s, manager, srcEid, p.key, message)
            == Ok(OccVaultMessage(0, manager.ChainId(srcEid), TokenType.PLACEHOLDER, 0, user, payloadCode, payload))
  {
    hide EncodeVault, Receive;
    var payloadType := PayloadTypeFromCode(payloadCode);
    assert payloadType.Code() == payloadCode;
    VaultMessageIsReceivedIff(s, manager, srcEid, p.key, user, payloadType, payload);
  }

  /** Forward delivery of claims: the payload is the stored distribution, amount and root. */
  lemma ClaimIsDelivered(p: Proxy, user: Pubkey, nativeFee: u64, price: u64, s: Storage, manager: OccManager,
          srcEid: u32)
    requires SendClaim(p, user, nativeFee, price).Ok?
    requires s.HasPeer(srcEid) && s.peers[srcEid] == p.key && !s.paused
    requires srcEid == manager.solanaEid && manager.ChainId(srcEid) != 0
    ensures var message := SendClaim(p, user, nativeFee, price).value.send.message;
            var r := Receive(s, manager, srcEid, p.key, message);
            && r.Ok? && r.value.sender == user && r.value.payloadType == ClaimRewardSolana.Code()
                && r.value.tokenAmount == 0
            && r.value.payload[..32] == p.claims[user].distributionId
            && r.value.payload[32..64] == p.claims[user].amount
            && r.value.payload[64..] == p.claims[user].root
  {
    hide EncodeVault, Receive;
    VaultMessageIsReceivedIff(s, manager, srcEid, p.key, user, ClaimRewardSolana, p.claims[user].Payload());
  }

  /** A payout message of `amount` for `receiver`, as the proxy reads it. */
  ghost predicate IsPayout(message: Bytes, receiver: Word, amount: u64) {
    && GetReceiver(message) == Ok(receiver)
    && var decoded := DecodeLedger(message);
       && decoded.Ok? && decoded.value.payloadType.IsFromLedger() && decoded.value.token.USDC?
       && |decoded.value.payload| == 32 && GetUsdcAmount(decoded.value.payload) == amount
  }

  lemma OrderedPayoutReadsBack(m: OccLedgerMessage)
    requires CheckLedgerPayloadType(m.payloadType) && m.token.USDC?
    ensures IsPayout(WireMessage(m), m.receiver, m.tokenAmount % U64_LIMIT)
  {
    hide GetUsdcAmount;
    UnpackPacked(m.token.Code(), m.receiver, m.payloadType, AbiEncode(m.tokenAmount));
    UsdcAmountTruncates(m.tokenAmount);
  }

  /** Backward delivery: an ordered payout passes every check on the message itself, pays only its
      stated receiver, and pays the ordered amount exactly when that is below 2^64. */
  lemma PayoutIsDeliveredIff(p: Proxy, srcEid: u32, sender: Word, receiver: Pubkey, m: OccLedgerMessage)
    requires CheckLedgerPayloadType(m.payloadType) && m.token.USDC?
    ensures var r := LzReceive(p, srcEid, sender, receiver, WireMessage(m));
            var amount := m.tokenAmount % U64_LIMIT;
            && (r.Ok? <==> && srcEid in p.peers && p.peers[srcEid] == sender && receiver == m.receiver && !p.paused
                           && amount <= Balance(p.usdc, p.key)
                           && (receiver == p.key || Balance(p.usdc, receiver) + amount < U64_LIMIT))
            && (r.Ok? ==> && r.value.receiver == m.receiver && r.value.amount == amount
                          && (r.value.amount == m.tokenAmount <==> m.tokenAmount < U64_LIMIT)
                          && (receiver != p.key ==>
                                && Balance(r.value.proxy.usdc, p.key) == Balance(p.usdc, p.key) - amount
                                && Balance(r.value.proxy.usdc, receiver) == Balance(p.usdc, receiver) + amount))
  {
    hide WireMessage, DecodeLedger, GetReceiver, GetUsdcAmount;
    OrderedPayoutReadsBack(m);
    var payload := DecodeLedger(WireMessage(m)).value.payload;
    assert payload[..32] == payload;
  }

  /** So an order of 2^64 that reaches its receiver pays nothing. */
  lemma LargeOrderPaysNothing(p: Proxy, srcEid: u32, sender: Word, m: OccLedgerMessage)
    requires CheckLedgerPayloadType(m.payloadType) && m.token.USDC? && m.tokenAmount == U64_LIMIT
    requires srcEid in p.peers && p.peers[srcEid] == sender && !p.paused
    ensures var r := LzReceive(p, srcEid, sender, m.receiver, WireMessage(m));
            r.Ok? && r.value.amount == 0
  {
    hide LzReceive, WireMessage;
    PayoutIsDeliveredIff(p, srcEid, sender, m.receiver, m);
  }

  // ----- payouts over runs of both ends -----

  datatype Payment = Payment(receiver: Word, amount: u64)

  /** The proxy, the messages the ledger has sent that the proxy has not yet paid, and the history: the
      orders the ledger accepted and the payments the proxy made. */
  datatype Link = Link(proxy: Proxy, inFlight: seq<Bytes>, orders: seq<OccLedgerMessage>, payments: seq<Payment>)

  datatype LinkAction =
    | Order(storage: Storage, manager: OccManager, price: Price, caller: Word, value: nat, m: OccLedgerMessage)
    | PayIndex(index: nat, srcEid: u32, sender: Word, receiver: Pubkey)
    | ProxyAction(action: ProxyRuns.Action)

  function StepLink(w: ProxyRuns.World, l: Link, a: LinkAction): Link {
    match a
    case Order(storage, manager, price, caller, value, m) =>
      var r := OrderPayout(storage, manager, price, caller, value, m);
      if r.Err? then l else l.(inFlight := l.inFlight + [r.value.message], orders := l.orders + [m])
    case PayIndex(index, srcEid, sender, receiver) =>
      if index >= |l.inFlight| then l
      else
        var r := LzReceive(l.proxy, srcEid, sender, receiver, l.inFlight[index]);
        if r.Err? then l
        else Link(r.value.proxy, l.inFlight[..index] + l.inFlight[index + 1..], l.orders,
                  l.payments + [Payment(receiver, r.value.amount)])
    case ProxyAction(action) =>
      if action.DoLzReceive? then l else l.(proxy := ProxyRuns.After(w, l.proxy, action))
  }

  function RunLink(w: ProxyRuns.World, l: Link, actions: seq<LinkAction>): Link {
    if actions == [] then l else StepLink(w, RunLink(w, l, actions[..|actions| - 1]), actions[|actions| - 1])
  }

  predicate InitialLink(l: Link) {
    l.inFlight == [] && l.orders == [] && l.payments == []
  }

  /** Everyone's money, or one receiver's. */
  predicate Concerns(who: Option<Word>, receiver: Word) {
    who.Some? ==> who.value == receiver
  }

  function OrderedBy(who: Option<Word>): OccLedgerMessage -> nat {
    (m: OccLedgerMessage) => if Concerns(who, m.receiver) then m.tokenAmount else 0
  }

  /** The multiple of 2^64 that the proxy does not read. */
  function LostBy(who: Option<Word>): OccLedgerMessage -> nat {
    (m: OccLedgerMessage) => if Concerns(who, m.receiver) then m.tokenAmount - m.tokenAmount % U64_LIMIT else 0
  }

  function PaidBy(who: Option<Word>): Payment -> nat {
    (payment: Payment) => if Concerns(who, payment.receiver) then payment.amount else 0
  }

  function OwedBy(who: Option<Word>): Bytes -> nat {
    message => Owed(who, message)
  }

  /** What the proxy will pay for a message, and to whom. */
  function Owed(who: Option<Word>, message: Bytes): nat {
    match DecodeLedger(message)
    case Err(_) => 0
    case Ok(decoded) =>
      if |decoded.payload| < 32 || !Concerns(who, decoded.receiver) then 0 else GetUsdcAmount(decoded.payload[..32])
  }

  /** Paid, in flight and lost make up what was ordered, and nothing is lost exactly when no order was
      2^64 or more. */
  ghost predicate Accounted(who: Option<Word>, l: Link) {
    var settled, lost := Total(PaidBy(who), l.payments) + Total(OwedBy(who), l.inFlight), Total(LostBy(who), l.orders);
    && settled + lost == Total(OrderedBy(who), l.orders)
    && (lost == 0 <==> forall m :: m in l.orders && Concerns(who, m.receiver) ==> m.tokenAmount < U64_LIMIT)
  }

  ghost predicate Payable(message: Bytes) {
    exists receiver: Word, amount: u64 :: IsPayout(message, receiver, amount)
  }

  /** Over every run, for every single receiver and for all together: what the ledger ordered is paid
      or still in flight, each message at most once, short by exactly what orders of 2^64 or more lose
      on the way; and every message in flight is one the proxy will accept. */
  lemma {:induction false} EveryRunAccountsForPayouts(w: ProxyRuns.World, l: Link, actions: seq<LinkAction>,
          who: Option<Word>)
    requires InitialLink(l)
    ensures Accounted(who, RunLink(w, l, actions))
    ensures forall message :: message in RunLink(w, l, actions).inFlight ==> Payable(message)
  {
    hide StepLink, Accounted, Payable;
    if actions == [] {
      NothingOrdered(who, l);
    } else {
      var front, last := actions[..|actions| - 1], actions[|actions| - 1];
      EveryRunAccountsForPayouts(w, l, front, who);
      StepAccounts(w, RunLink(w, l, front), last, who);
    }
  }

  lemma NothingOrdered(who: Option<Word>, l: Link)
    requires InitialLink(l)
    ensures Accounted(who, l)
  {
  }

  lemma StepAccounts(w: ProxyRuns.World, l: Link, a: LinkAction, who: Option<Word>)
    requires Accounted(who, l)
    requires forall message :: message in l.inFlight ==> Payable(message)
    ensures Accounted(who, StepLink(w, l, a))
    ensures forall message :: message in StepLink(w, l, a).inFlight ==> Payable(message)
  {
    hide Total, OrderPayout, LzReceive, Payable, Owed, ProxyRuns.After;
    match a
    case Order(storage, manager, price, caller, value, m) =>
      if OrderPayout(storage, manager, price, caller, value, m).Ok? {
        OrderIsWire(storage, manager, price, caller, value, m);
        OrderAccounts(l, m, who);
      }
    case PayIndex(index, srcEid, sender, receiver) =>
      if index < |l.inFlight| && LzReceive(l.proxy, srcEid, sender, receiver, l.inFlight[index]).Ok? {
        var amount := LzReceive(l.proxy, srcEid, sender, receiver, l.inFlight[index]).value.amount;
        PaymentIsOwed(l.proxy, srcEid, sender, receiver, l.inFlight[index], who);
        TotalWithout(OwedBy(who), l.inFlight, index);
        TotalWith(PaidBy(who), l.payments, Payment(receiver, amount));
        assert forall message :: message in StepLink(w, l, a).inFlight ==> message in l.inFlight;
      }
    case ProxyAction(_) =>
  }

  lemma OrderIsWire(storage: Storage, manager: OccManager, price: Price, caller: Word, value: nat, m: OccLedgerMessage)
    requires OrderPayout(storage, manager, price, caller, value, m).Ok?
    ensures OrderPayout(storage, manager, price, caller, value, m).value.message == WireMessage(m)
    ensures CheckLedgerPayloadType(m.payloadType) && m.token.USDC?
  {
    hide WireMessage;
  }

  lemma OrderAccounts(l: Link, m: OccLedgerMessage, who: Option<Word>)
    requires Accounted(who, l) && CheckLedgerPayloadType(m.payloadType) && m.token.USDC?
    ensures Accounted(who, l.(inFlight := l.inFlight + [WireMessage(m)], orders := l.orders + [m]))
    ensures Payable(WireMessage(m))
  {
    hide Total, WireMessage, IsPayout, Owed;
    var amount := m.tokenAmount % U64_LIMIT;
    OrderedPayoutReadsBack(m);
    PayoutIsOwed(WireMessage(m), m.receiver, amount, who);
    TotalWith(OwedBy(who), l.inFlight, WireMessage(m));
    TotalWith(OrderedBy(who), l.orders, m);
    TotalWith(LostBy(who), l.orders, m);
    assert amount <= m.tokenAmount && (amount == m.tokenAmount <==> m.tokenAmount < U64_LIMIT);
  }

  lemma PayoutIsOwed(message: Bytes, receiver: Word, amount: u64, who: Option<Word>)
    requires IsPayout(message, receiver, amount)
    ensures Owed(who, message) == if Concerns(who, receiver) then amount else 0
  {
    hide GetUsdcAmount;
    var payload := DecodeLedger(message).value.payload;
    assert payload[..32] == payload;
  }

  lemma PaymentIsOwed(p: Proxy, srcEid: u32, sender: Word, receiver: Pubkey, message: Bytes, who: Option<Word>)
    requires LzReceive(p, srcEid, sender, receiver, message).Ok?
    ensures Owed(who, message)
         == if Concerns(who, receiver) then LzReceive(p, srcEid, sender, receiver, message).value.amount else 0
  {
    hide GetUsdcAmount;
  }

  // ----- payments are the proxy's USDC -----

  /** The same run as the proxy alone sees it. */
  function ProxySide(w: ProxyRuns.World, l: Link, actions: seq<LinkAction>): seq<ProxyRuns.Action> {
    if actions == [] then []
    else
      var front, last := actions[..|actions| - 1], actions[|actions| - 1];
      ProxySide(w, l, front) + AsProxyActions(RunLink(w, l, front), last)
  }

  function AsProxyActions(l: Link, a: LinkAction): seq<ProxyRuns.Action> {
    match a
    case Order(_, _, _, _, _, _) => []
    case PayIndex(index, srcEid, sender, receiver) =>
      if index >= |l.inFlight| then []
      else [ProxyRuns.DoLzReceive(srcEid, sender, receiver, l.inFlight[index])]
    case ProxyAction(action) => if action.DoLzReceive? then [] else [action]
  }

  /** A payment to the proxy itself moves nothing. */
  function Outgoing(key: Pubkey): Payment -> nat {
    (payment: Payment) => if payment.receiver == key then 0 else payment.amount
  }

  /** A run of the link is a run of the proxy, so all that holds of those holds here; and what the
      proxy paid out is what the link recorded. */
  lemma {:induction false} LinkRunsAreProxyRuns(w: ProxyRuns.World, l: Link, actions: seq<LinkAction>)
    requires InitialLink(l)
    ensures var seen := ProxySide(w, l, actions);
            && RunLink(w, l, actions).proxy == ProxyRuns.Run(w, l.proxy, seen)
            && RunLink(w, l, actions).proxy.key == l.proxy.key
            && ProxyRuns.PaidOut(w, l.proxy, seen) == Total(Outgoing(l.proxy.key), RunLink(w, l, actions).payments)
  {
    hide ProxyRuns.Step, StepLink, AsProxyActions;
    if actions == [] {
    } else {
      var front, last := actions[..|actions| - 1], actions[|actions| - 1];
      LinkRunsAreProxyRuns(w, l, front);
      StepIsProxyStep(w, l.proxy, ProxySide(w, l, front), RunLink(w, l, front), last);
    }
  }

  lemma StepIsProxyStep(w: ProxyRuns.World, p: Proxy, before: seq<ProxyRuns.Action>, l: Link, a: LinkAction)
    requires l.proxy == ProxyRuns.Run(w, p, before) && l.proxy.key == p.key
    requires ProxyRuns.PaidOut(w, p, before) == Total(Outgoing(p.key), l.payments)
    ensures var seen := before + AsProxyActions(l, a);
            && StepLink(w, l, a).proxy == ProxyRuns.Run(w, p, seen)
            && StepLink(w, l, a).proxy.key == p.key
            && ProxyRuns.PaidOut(w, p, seen) == Total(Outgoing(p.key), StepLink(w, l, a).payments)
  {
    hide Total, StepLink, AsProxyActions, ProxyRuns.Run, ProxyRuns.PaidOut, ProxyRuns.After, ProxyRuns.StepPaidOut;
    StepIsSeen(w, l, a);
    var more := AsProxyActions(l, a);
    if more == [] {
      assert before + more == before;
    } else {
      ProxyRuns.StepMovesUsdc(w, l.proxy, more[0]);
      ProxyRuns.RunWith(w, p, before, more[0]);
      assert more == [more[0]];
    }
  }

  lemma StepIsSeen(w: ProxyRuns.World, l: Link, a: LinkAction)
    ensures var more, l' := AsProxyActions(l, a), StepLink(w, l, a);
            && |more| <= 1
            && l'.proxy == (if more == [] then l.proxy else ProxyRuns.After(w, l.proxy, more[0]))
            && Total(Outgoing(l.proxy.key), l'.payments)
               == Total(Outgoing(l.proxy.key), l.payments)
                  + (if more == [] then 0 else ProxyRuns.StepPaidOut(w, l.proxy, more[0]))
  {
    hide Total, OrderPayout, LzReceive;
    match a
    case Order(_, _, _, _, _, _) =>
    case PayIndex(index, srcEid, sender, receiver) =>
      if index < |l.inFlight| {
        var r := LzReceive(l.proxy, srcEid, sender, receiver, l.inFlight[index]);
        ProxyRuns.ReceiptMovesUsdc(l.proxy, srcEid, sender, receiver, l.inFlight[index]);
        if r.Ok? {
          TotalWith(Outgoing(l.proxy.key), l.payments, Payment(receiver, r.value.amount));
        }
      }
    case ProxyAction(action) =>
      if !action.DoLzReceive? {
        OnlyReceiptsPay(w, l.proxy, action);
      }
  }

  lemma OnlyReceiptsPay(w: ProxyRuns.World, p: Proxy, action: ProxyRuns.Action)
    requires !action.DoLzReceive?
    ensures ProxyRuns.StepPaidOut(w, p, action) == 0
  {
    hide SubmitProof, SendClaim, SendRequest, WithdrawFee, ProxyRuns.StepMove;
  }

  /** Over every run the proxy's USDC is what it started with, plus deposits, less exactly the payments
      made to others: no other action touches it. */
  lemma PaymentsComeFromProxy(w: ProxyRuns.World, l: Link, actions: seq<LinkAction>)
    requires InitialLink(l)
    ensures var final := RunLink(w, l, actions);
            Balance(final.proxy.usdc, l.proxy.key) + Total(Outgoing(l.proxy.key), final.payments)
            == Balance(l.proxy.usdc, l.proxy.key) + ProxyRuns.PaidIn(w, l.proxy, ProxySide(w, l, actions))
  {
    hide RunLink, ProxyRuns.Run, ProxyRuns.PaidIn, ProxyRuns.PaidOut, Total, ProxySide;
    LinkRunsAreProxyRuns(w, l, actions);
    ProxyRuns.UsdcAccounting(w, l.proxy, ProxySide(w, l, actions));
  }
}
