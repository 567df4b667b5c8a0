/** Runs of the proxy: claims, requests, payouts, fees and administration in any order. Failed steps
    change nothing. */
module ProxyRuns {
  import opened Base
  import opened BigEndian
  import opened Merkle
  import opened ProxyMessages
  import opened SolanaProxy

  datatype Action =
    | DoSubmitProof(user: Pubkey, params: SubmitProofParams)
    | DoSendClaim(user: Pubkey, nativeFee: u64, price: u64)
    | DoSendRequest(user: Pubkey, payloadCode: byte, payload: Bytes, nativeFee: u64, price: u64)
    | DoLzReceive(srcEid: u32, sender: Word, receiver: Pubkey, message: Bytes)
    | DoWithdrawFee(admin: Pubkey, feeCollector: Pubkey, amount: u64)
    | DoSetBackwardFee(admin: Pubkey, fees: BackwardFees)
    | DoSetPause(admin: Pubkey, paused: bool)
    | DoSetPeer(admin: Pubkey, eid: u32, peer: Word)
    | MoveLamports(from: Pubkey, to: Pubkey, amount: u64)
    | MoveUsdc(from: Pubkey, to: Pubkey, amount: u64)

  /** What never changes while the proxy runs. */
  datatype World = World(keccak: Hash, rentMinimum: u64)

  datatype Output = Quiet | Sends(send: EndpointSend) | Pays(receiver: Pubkey, amount: u64)

  datatype Outcome = Outcome(proxy: Proxy, output: Output)

  function Quietly(r: Result<Proxy>): Result<Outcome> {
    match r
    case Ok(p) => Ok(Outcome(p, Quiet))
    case Err(e) => Err(e)
  }

  function Sending(r: Result<Sent>): Result<Outcome> {
    match r
    case Ok(sent) => Ok(Outcome(sent.proxy, Sends(sent.send)))
    case Err(e) => Err(e)
  }

  /** The proxy's address is a program address: nobody else signs for it. */
  function StepMove(p: Proxy, action: Action): Result<Proxy> {
    match action
    case MoveLamports(from, to, amount) =>
      if from == p.key then Err(Abort)
      else
        var lamports :- Transfer(p.lamports, from, to, amount);
        Ok(p.(lamports := lamports))
    case MoveUsdc(from, to, amount) =>
      if from == p.key then Err(Abort)
      else
        var usdc :- Transfer(p.usdc, from, to, amount);
        Ok(p.(usdc := usdc))
    case _ => Err(Abort)
  }

  function Step(w: World, p: Proxy, action: Action): Result<Outcome> {
    match action
    case DoSubmitProof(user, params) => Quietly(SubmitProof(p, w.keccak, user, params))
    case DoSendClaim(user, nativeFee, price) =>
      if user == p.key then Err(Abort) else Sending(SendClaim(p, user, nativeFee, price))
    case DoSendRequest(user, payloadCode, payload, nativeFee, price) =>
      if user == p.key then Err(Abort) else Sending(SendRequest(p, user, payloadCode, payload, nativeFee, price))
    case DoLzReceive(srcEid, sender, receiver, message) =>
      var payout :- LzReceive(p, srcEid, sender, receiver, message);
      Ok(Outcome(payout.proxy, Pays(payout.receiver, payout.amount)))
    case DoWithdrawFee(admin, feeCollector, amount) =>
      Quietly(WithdrawFee(p, w.rentMinimum, admin, feeCollector, amount))
    case DoSetBackwardFee(admin, fees) => Quietly(SetBackwardFee(p, admin, fees))
    case DoSetPause(admin, paused) => Quietly(SetPause(p, admin, paused))
    case DoSetPeer(admin, eid, peer) => Quietly(SetPeer(p, admin, eid, peer))
    case _ => Quietly(StepMove(p, action))
  }

  function After(w: World, p: Proxy, action: Action): Proxy {
    match Step(w, p, action)
    case Ok(outcome) => outcome.proxy
    case Err(_) => p
  }

  function Run(w: World, p: Proxy, actions: seq<Action>): Proxy {
    if actions == [] then p else After(w, Run(w, p, actions[..|actions| - 1]), actions[|actions| - 1])
  }

  // ----- the claim protocol -----

  /** The user's last successful submission that no successful send has consumed since, read off the
      history alone. */
  function LatestSubmission(w: World, p: Proxy, actions: seq<Action>, user: Pubkey): Option<SubmitProofParams> {
    if actions == [] then None
    else
      var front, last := actions[..|actions| - 1], actions[|actions| - 1];
      if Step(w, Run(w, p, front), last).Err? then LatestSubmission(w, p, front, user)
      else if last.DoSubmitProof? && last.user == user then Some(last.params)
      else if last.DoSendClaim? && last.user == user then None
      else LatestSubmission(w, p, front, user)
  }

  lemma StepKeepsOtherClaims(w: World, p: Proxy, action: Action, user: Pubkey)
    requires Step(w, p, action).Ok?
    requires !((action.DoSubmitProof? || action.DoSendClaim?) && action.user == user)
    ensures var p' := After(w, p, action);
            (user in p'.claims <==> user in p.claims) && (user in p.claims ==> p'.claims[user] == p.claims[user])
  {
    hide EncodeVault, DecodeLedger, GetReceiver, ClaimDataFor, Transfer, PayEndpoint;
  }

  /** In every run a user's stored claim is that user's latest unconsumed submission, whatever other
      users and the admin do in between. */
  lemma {:induction false} ClaimIsLatestSubmission(w: World, p: Proxy, actions: seq<Action>, user: Pubkey)
    requires user !in p.claims
    ensures var final, latest := Run(w, p, actions), LatestSubmission(w, p, actions, user);
            && (user in final.claims <==> latest.Some?)
            && (latest.Some? ==> final.claims[user] == ClaimDataFor(w.keccak, user, latest.value))
  {
    if actions == [] {
    } else {
      var front, last := actions[..|actions| - 1], actions[|actions| - 1];
      ClaimIsLatestSubmission(w, p, front, user);
      var before := Run(w, p, front);
      if Step(w, before, last).Ok? && !((last.DoSubmitProof? || last.DoSendClaim?) && last.user == user) {
        StepKeepsOtherClaims(w, before, last, user);
      }
    }
  }

  /** So what a successful `send_claim` puts on the wire is the user's latest submission, as the ledger
      reads it: the sender, the distribution id, the amount and the root that the submitted proof folds
      to from the sender's own leaf; and the send consumes it. */
  lemma SentClaimIsLatestSubmission(w: World, p: Proxy, actions: seq<Action>, user: Pubkey, nativeFee: u64,
          price: u64)
    requires user !in p.claims
    requires Step(w, Run(w, p, actions), DoSendClaim(user, nativeFee, price)).Ok?
    ensures var latest := LatestSubmission(w, p, actions, user);
            var outcome := Step(w, Run(w, p, actions), DoSendClaim(user, nativeFee, price)).value;
            && latest.Some? && outcome.output.Sends? && user !in outcome.proxy.claims
            && var read := DecodeSolanaVaultMessage(outcome.output.send.message);
            && read.Ok? && read.value.sender == user && read.value.payloadType == ClaimRewardSolana.Code()
            && |read.value.payload| == 96
            && Value(read.value.payload[..32]) == latest.value.distributionId
            && read.value.payload[32..64] == latest.value.cumulativeAmount
            && var leaf := CalculateLeaf(w.keccak, ClaimOf(w.keccak, user, latest.value.cumulativeAmount));
               read.value.payload[64..] == ProcessProof(w.keccak, latest.value.merkleProof, leaf)
  {
    hide ProcessProof, CalculateLeaf, SolanaToEvmAddress, ToBytes32, EncodeVault, DecodeSolanaVaultMessage;
    ClaimIsLatestSubmission(w, p, actions, user);
    var params := LatestSubmission(w, p, actions, user).value;
    ClaimMessageReads(user, ClaimDataFor(w.keccak, user, params));
    PaddedValue(params.distributionId);
  }

  lemma ClaimMessageReads(user: Pubkey, claim: ClaimData)
    ensures DecodeSolanaVaultMessage(EncodeVault(ClaimMessage(user, claim)))
         == Ok(SolanaVaultMessage(TokenType.PLACEHOLDER, user, ClaimRewardSolana.Code(), claim.Payload()))
    ensures |claim.Payload()| == 96
    ensures claim.Payload()[..32] == claim.distributionId && claim.Payload()[32..64] == claim.amount
    ensures claim.Payload()[64..] == claim.root
  {
    UnpackPacked(ClaimRewardSolana.TokenFor().Code(), user, ClaimRewardSolana.Code(), claim.Payload());
  }

  lemma PaddedValue(id: u32)
    ensures Value(ToBytes32(ToBytes(id, 4))) == id
  {
    KnownPowers();
    ValueOfToBytes(id, 4);
    ValueOfZeros(28);
    ValueOfConcat(seq(28, _ => 0), ToBytes(id, 4));
  }

  /** Successful actions of one user of one kind. */
  function Count(w: World, p: Proxy, actions: seq<Action>, user: Pubkey, sends: bool): nat {
    if actions == [] then 0
    else
      var front, last := actions[..|actions| - 1], actions[|actions| - 1];
      Count(w, p, front, user, sends)
      + if && Step(w, Run(w, p, front), last).Ok?
           && (if sends then last.DoSendClaim? else last.DoSubmitProof?)
           && last.user == user then 1 else 0
  }

  /** A user never sends more claims than that user has submitted; one still stored has not been sent. */
  lemma {:induction false} SendsNeverExceedSubmissions(w: World, p: Proxy, actions: seq<Action>, user: Pubkey)
    requires user !in p.claims
    ensures Count(w, p, actions, user, true) + (if user in Run(w, p, actions).claims then 1 else 0)
         <= Count(w, p, actions, user, false)
  {
    if actions == [] {
    } else {
      var front, last := actions[..|actions| - 1], actions[|actions| - 1];
      SendsNeverExceedSubmissions(w, p, front, user);
      var before := Run(w, p, front);
      if Step(w, before, last).Ok? && !((last.DoSubmitProof? || last.DoSendClaim?) && last.user == user) {
        StepKeepsOtherClaims(w, before, last, user);
      }
    }
  }

  /** The root a claim message carries, as the ledger reads it. */
  function CarriedRoot(message: Bytes): Option<Bytes> {
    match DecodeSolanaVaultMessage(message)
    case Ok(vault) => if |vault.payload| == 96 then Some(vault.payload[64..]) else None
    case Err(_) => None
  }

  /** End to end: if the root a sent claim carries is the root of a published tree, the sender's own
      EVM address is entitled to the submitted amount in that tree, or the submitted proof made the
      proxy hash an input that collides with one the tree was built from. */
  lemma SentClaimIsEntitled(w: World, p: Proxy, actions: seq<Action>, user: Pubkey, nativeFee: u64, price: u64,
          tree: Tree)
    requires user !in p.claims
    requires var r := Step(w, Run(w, p, actions), DoSendClaim(user, nativeFee, price));
             r.Ok? && r.value.output.Sends? && CarriedRoot(r.value.output.send.message) == Some(Root(w.keccak, tree))
    ensures var latest := LatestSubmission(w, p, actions, user);
            && latest.Some?
            && var claim := ClaimOf(w.keccak, user, latest.value.cumulativeAmount);
            || Contains(tree, claim)
            || CollisionBetween(w.keccak, ProofPreimages(w.keccak, latest.value.merkleProof, claim),
                                TreePreimages(w.keccak, tree))
  {
    hide Step, DecodeSolanaVaultMessage, ClaimOf;
    SentClaimIsLatestSubmission(w, p, actions, user, nativeFee, price);
    var params := LatestSubmission(w, p, actions, user).value;
    ProofIsSound(w.keccak, tree, params.merkleProof, ClaimOf(w.keccak, user, params.cumulativeAmount));
  }

  // ----- fees -----

  /** Paying the quoted fee, when the endpoint was quoted at `price` and collects `collected` on
      sending: with the proxy's fees unchanged the request passes its fee check exactly when the
      quoted price is positive, and is sent exactly when moreover the endpoint collects no more than
      it quoted and the user can pay both. Then it is the very message that was priced, the endpoint
      is passed exactly the quoted price, and the proxy gains exactly the backward fee. */
  lemma QuotedRequestSucceedsIff(p: Proxy, user: Pubkey, payloadCode: byte, payload: Bytes, price: u64,
          collected: u64)
    requires QuoteRequest(p, user, payloadCode, payload, price).Ok? && user != p.key
    ensures var quote := QuoteRequest(p, user, payloadCode, payload, price).value;
            var r := SendRequest(p, user, payloadCode, payload, quote.nativeFee, collected);
            var backwardFee := quote.nativeFee - price;
            && (price == 0 <==> r == Err(InsufficientMessagingFee))
            && (r.Ok? <==> && 0 < price && collected <= price
                           && collected + backwardFee <= Balance(p.lamports, user)
                           && Balance(p.lamports, p.key) + backwardFee < U64_LIMIT)
            && (r.Ok? ==> && r.value.send.message == quote.message && r.value.send.nativeFee == price
                          && Balance(r.value.proxy.lamports, p.key) == Balance(p.lamports, p.key) + backwardFee
                          && Balance(r.value.proxy.lamports, user)
                             == Balance(p.lamports, user) - backwardFee - collected)
  {
    hide EncodeVault;
    var payloadType := PayloadTypeFromCode(payloadCode);
    assert payloadType.Code() == payloadCode;
    var fee := BackwardFeeFor(p.fees.value, payloadType);
    assert QuoteRequest(p, user, payloadCode, payload, price).value.nativeFee == price + fee;
  }

  /** The same for claims; here the user is charged before the fee is checked. */
  lemma QuotedClaimSucceedsIff(p: Proxy, user: Pubkey, price: u64, collected: u64)
    requires QuoteClaim(p, user, price).Ok? && user != p.key
    ensures var quote := QuoteClaim(p, user, price).value;
            var r := SendClaim(p, user, quote.nativeFee, collected);
            var backwardFee := quote.nativeFee - price;
            && (r == Err(InsufficientMessagingFee)
                <==> && price == 0 && backwardFee <= Balance(p.lamports, user)
                     && Balance(p.lamports, p.key) + backwardFee < U64_LIMIT)
            && (r.Ok? <==> && 0 < price && collected <= price
                           && collected + backwardFee <= Balance(p.lamports, user)
                           && Balance(p.lamports, p.key) + backwardFee < U64_LIMIT)
            && (r.Ok? ==> && r.value.send.message == quote.message && r.value.send.nativeFee == price
                          && Balance(r.value.proxy.lamports, p.key) == Balance(p.lamports, p.key) + backwardFee
                          && Balance(r.value.proxy.lamports, user)
                             == Balance(p.lamports, user) - backwardFee - collected)
  {
    hide EncodeVault;
  }

  /** Where the proxy's lamports came from and went to. */
  datatype LamportBooks = LamportBooks(fees: nat, deposits: nat, withdrawals: nat)

  /** The backward fee of a send is read off the outside: what the user offered less what was passed
      on to the endpoint. */
  function Booked(w: World, p: Proxy, action: Action, books: LamportBooks): LamportBooks {
    match Step(w, p, action)
    case Err(_) => books
    case Ok(outcome) =>
      if outcome.output.Sends? then
        var offered := if action.DoSendClaim? || action.DoSendRequest? then action.nativeFee else 0;
        books.(fees := books.fees + Max(0, offered - outcome.output.send.nativeFee))
      else if action.MoveLamports? && action.to == p.key then
        books.(deposits := books.deposits + action.amount)
      else if action.DoWithdrawFee? && action.feeCollector != p.key then
        books.(withdrawals := books.withdrawals + action.amount)
      else
        books
  }

  function RunLamports(w: World, p: Proxy, actions: seq<Action>): LamportBooks {
    if actions == [] then LamportBooks(0, 0, 0)
    else
      var front, last := actions[..|actions| - 1], actions[|actions| - 1];
      Booked(w, Run(w, p, front), last, RunLamports(w, p, front))
  }

  /** The step's own effect, whatever the books held before. */
  ghost predicate BooksLamports(w: World, p: Proxy, action: Action, books: LamportBooks) {
    var after := Booked(w, p, action, books);
    && After(w, p, action).key == p.key
    && Balance(After(w, p, action).lamports, p.key) - Balance(p.lamports, p.key)
       == (after.fees - books.fees) + (after.deposits - books.deposits) - (after.withdrawals - books.withdrawals)
  }

  lemma SendBooksLamports(w: World, p: Proxy, action: Action, books: LamportBooks)
    requires action.DoSendClaim? || action.DoSendRequest?
    ensures BooksLamports(w, p, action, books)
  {
    hide SendRequest, SendClaim;
    match action
    case DoSendRequest(user, payloadCode, payload, nativeFee, price) =>
      RequestCollects(p, user, payloadCode, payload, nativeFee, price);
    case DoSendClaim(user, nativeFee, price) =>
      ClaimCollects(p, user, nativeFee, price);
  }

  lemma TransferBooksLamports(w: World, p: Proxy, action: Action, books: LamportBooks)
    requires action.MoveLamports? || action.DoWithdrawFee?
    ensures BooksLamports(w, p, action, books)
  {
    hide Transfer;
    match action
    case MoveLamports(from, to, amount) => TransferChanges(p.lamports, from, to, amount, p.key);
    case DoWithdrawFee(_, feeCollector, amount) => TransferChanges(p.lamports, p.key, feeCollector, amount, p.key);
  }

  lemma OtherBooksLamports(w: World, p: Proxy, action: Action, books: LamportBooks)
    requires !action.DoSendClaim? && !action.DoSendRequest? && !action.MoveLamports? && !action.DoWithdrawFee?
    ensures BooksLamports(w, p, action, books)
  {
    hide DecodeLedger, GetReceiver, ClaimDataFor, Transfer;
  }

  lemma StepBooksLamports(w: World, p: Proxy, action: Action, books: LamportBooks)
    ensures BooksLamports(w, p, action, books)
  {
    hide BooksLamports;
    if action.DoSendClaim? || action.DoSendRequest? {
      SendBooksLamports(w, p, action, books);
    } else if action.MoveLamports? || action.DoWithdrawFee? {
      TransferBooksLamports(w, p, action, books);
    } else {
      OtherBooksLamports(w, p, action, books);
    }
  }

  /** In every run the proxy holds what it started with, plus the backward fees and deposits, less
      what the admin withdrew; so nobody ever withdraws into the rent minimum. */
  lemma {:induction false} LamportAccounting(w: World, p: Proxy, actions: seq<Action>)
    ensures var books := RunLamports(w, p, actions);
            && Run(w, p, actions).key == p.key
            && Balance(Run(w, p, actions).lamports, p.key) + books.withdrawals
               == Balance(p.lamports, p.key) + books.fees + books.deposits
            && (w.rentMinimum <= Balance(p.lamports, p.key) ==>
                  books.withdrawals + w.rentMinimum <= Balance(p.lamports, p.key) + books.fees + books.deposits)
  {
    if actions == [] {
    } else {
      var front, last := actions[..|actions| - 1], actions[|actions| - 1];
      LamportAccounting(w, p, front);
      StepBooksLamports(w, Run(w, p, front), last, RunLamports(w, p, front));
      if w.rentMinimum <= Balance(p.lamports, p.key) {
        RentIsNeverSpent(w, p, actions);
      }
    }
  }

  /** Over all runs the proxy keeps the lamports that keep its account alive. */
  lemma {:induction false} RentIsNeverSpent(w: World, p: Proxy, actions: seq<Action>)
    requires w.rentMinimum <= Balance(p.lamports, p.key)
    ensures Run(w, p, actions).key == p.key
    ensures w.rentMinimum <= Balance(Run(w, p, actions).lamports, p.key)
  {
    if actions == [] {
    } else {
      RentIsNeverSpent(w, p, actions[..|actions| - 1]);
      StepKeepsRent(w, Run(w, p, actions[..|actions| - 1]), actions[|actions| - 1]);
    }
  }

  lemma StepKeepsRent(w: World, p: Proxy, action: Action)
    requires w.rentMinimum <= Balance(p.lamports, p.key)
    ensures After(w, p, action).key == p.key
    ensures w.rentMinimum <= Balance(After(w, p, action).lamports, p.key)
  {
    if action.DoWithdrawFee? {
    } else {
      StepBooksLamports(w, p, action, LamportBooks(0, 0, 0));
      OnlyFeesAreWithdrawn(w, p, action);
    }
  }

  lemma OnlyFeesAreWithdrawn(w: World, p: Proxy, action: Action)
    requires !action.DoWithdrawFee?
    ensures Booked(w, p, action, LamportBooks(0, 0, 0)).withdrawals == 0
  {
    hide Step;
  }

  /** A fee withdrawal succeeds exactly for the admin, within the surplus over the rent minimum, and
      moves exactly the amount. */
  lemma WithdrawFeeIff(p: Proxy, rentMinimum: u64, admin: Pubkey, feeCollector: Pubkey, amount: u64)
    requires rentMinimum <= Balance(p.lamports, p.key) && feeCollector != p.key
    ensures var r := WithdrawFee(p, rentMinimum, admin, feeCollector, amount);
            && (r.Ok? <==> && admin == p.admin && rentMinimum + amount <= Balance(p.lamports, p.key)
                           && Balance(p.lamports, feeCollector) + amount < U64_LIMIT)
            && (r.Ok? ==> && Balance(r.value.lamports, p.key) == Balance(p.lamports, p.key) - amount
                          && Balance(r.value.lamports, feeCollector) == Balance(p.lamports, feeCollector) + amount
                          && r.value.(lamports := p.lamports) == p)
            && (admin != p.admin ==> r == Err(Unauthorized))
            && (admin == p.admin && Balance(p.lamports, p.key) - rentMinimum < amount ==> r == Err(InsufficientBalance))
  {
  }

  // ----- payouts -----

  /** What a step pays to others. */
  function StepPaidOut(w: World, p: Proxy, action: Action): nat {
    match Step(w, p, action)
    case Ok(Outcome(_, Pays(receiver, amount))) => if receiver == p.key then 0 else amount
    case _ => 0
  }

  function PaidOut(w: World, p: Proxy, actions: seq<Action>): nat {
    if actions == [] then 0
    else
      var front, last := actions[..|actions| - 1], actions[|actions| - 1];
      PaidOut(w, p, front) + StepPaidOut(w, Run(w, p, front), last)
  }

  lemma RunWith(w: World, p: Proxy, actions: seq<Action>, action: Action)
    ensures Run(w, p, actions + [action]) == After(w, Run(w, p, actions), action)
    ensures PaidOut(w, p, actions + [action])
         == PaidOut(w, p, actions) + StepPaidOut(w, Run(w, p, actions), action)
  {
    assert (actions + [action])[..|actions + [action]| - 1] == actions;
  }

  function PaidIn(w: World, p: Proxy, actions: seq<Action>): nat {
    if actions == [] then 0
    else
      var front, last := actions[..|actions| - 1], actions[|actions| - 1];
      PaidIn(w, p, front)
      + if last.MoveUsdc? && last.to == p.key && Step(w, Run(w, p, front), last).Ok? then last.amount else 0
  }

  /** The proxy's USDC changes only by deposits and by the payouts the ledger ordered. */
  lemma {:induction false} UsdcAccounting(w: World, p: Proxy, actions: seq<Action>)
    ensures Run(w, p, actions).key == p.key
    ensures Balance(Run(w, p, actions).usdc, p.key) + PaidOut(w, p, actions)
         == Balance(p.usdc, p.key) + PaidIn(w, p, actions)
  {
    if actions == [] {
    } else {
      UsdcAccounting(w, p, actions[..|actions| - 1]);
      StepMovesUsdc(w, Run(w, p, actions[..|actions| - 1]), actions[|actions| - 1]);
    }
  }

  lemma StepMovesUsdc(w: World, p: Proxy, action: Action)
    ensures After(w, p, action).key == p.key
    ensures Balance(After(w, p, action).usdc, p.key)
         == Balance(p.usdc, p.key)
            + (if action.MoveUsdc? && action.to == p.key && Step(w, p, action).Ok? then action.amount else 0)
            - StepPaidOut(w, p, action)
  {
    hide SendRequest, SendClaim, LzReceive, ClaimDataFor, Collects, Transfer;
    match action
    case MoveUsdc(from, to, amount) => TransferChanges(p.usdc, from, to, amount, p.key);
    case DoSendRequest(user, payloadCode, payload, nativeFee, price) =>
      RequestKeepsUsdc(p, user, payloadCode, payload, nativeFee, price);
    case DoSendClaim(user, nativeFee, price) =>
      ClaimKeepsUsdc(p, user, nativeFee, price);
    case DoLzReceive(srcEid, sender, receiver, message) =>
      ReceiptMovesUsdc(p, srcEid, sender, receiver, message);
    case _ =>
  }

  lemma RequestKeepsUsdc(p: Proxy, user: Pubkey, payloadCode: byte, payload: Bytes, nativeFee: u64, price: u64)
    ensures var r := SendRequest(p, user, payloadCode, payload, nativeFee, price);
            r.Ok? ==> r.value.proxy.key == p.key && r.value.proxy.usdc == p.usdc
  {
    hide SendRequest;
    RequestCollects(p, user, payloadCode, payload, nativeFee, price);
  }

  lemma ClaimKeepsUsdc(p: Proxy, user: Pubkey, nativeFee: u64, price: u64)
    ensures var r := SendClaim(p, user, nativeFee, price);
            r.Ok? ==> r.value.proxy.key == p.key && r.value.proxy.usdc == p.usdc
  {
    hide SendClaim;
    ClaimCollects(p, user, nativeFee, price);
  }

  lemma ReceiptMovesUsdc(p: Proxy, srcEid: u32, sender: Word, receiver: Pubkey, message: Bytes)
    ensures var r := LzReceive(p, srcEid, sender, receiver, message);
            r.Ok? ==> && r.value.proxy.key == p.key && r.value.receiver == receiver
                      && Balance(r.value.proxy.usdc, p.key)
                         == Balance(p.usdc, p.key) - (if receiver == p.key then 0 else r.value.amount)
  {
    hide DecodeLedger, GetReceiver, GetUsdcAmount;
  }
}
