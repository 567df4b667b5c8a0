/** When each instruction of the proxy succeeds, and what it puts on the wire, in the numbers of the
    protocol. */
module ProxySteps {
  import opened Base
  import opened BigEndian
  import opened Merkle
  import opened ProxyMessages
  import opened SolanaProxy
  import opened ProxyRuns

  /** The backward fee that a request of this type pays. */
  function FeeOf(fees: BackwardFees, code: byte): u64 {
    if code in {4, 8, 15} then fees.orderFee else if code == 10 then fees.usdcFee else 0
  }

  /** A request is sent exactly when its type is one the proxy serves, there is a peer, the proxy is not
      paused, the fee covers both the backward fee and the endpoint's price, and the user can pay. On the
      wire are the placeholder token, the user, the type and the payload. */
  lemma SendRequestSucceedsIff(p: Proxy, user: Pubkey, code: byte, payload: Bytes, nativeFee: u64, price: u64)
    requires user != p.key && p.fees.Some?
    ensures var r := SendRequest(p, user, code, payload, nativeFee, price);
            var fee := FeeOf(p.fees.value, code);
            && (r.Ok? <==> && p.orderlyEid in p.peers && !p.paused && code in {2, 3, 4, 5, 6, 8, 9, 10, 15}
                           && fee < nativeFee && price <= nativeFee - fee
                           && price + fee <= Balance(p.lamports, user)
                           && Balance(p.lamports, p.key) + fee < U64_LIMIT)
            && (r.Ok? ==> && r.value.send.dstEid == p.orderlyEid && r.value.send.receiver == p.peers[p.orderlyEid]
                          && r.value.send.nativeFee == nativeFee - fee
                          && r.value.send.message == [3] + user + [code] + payload)
  {
  }

  /** Why a request is refused, in the order in which the reasons count. */
  lemma WhySendRequestFails(p: Proxy, user: Pubkey, code: byte, payload: Bytes, nativeFee: u64, price: u64)
    requires p.fees.Some? && p.orderlyEid in p.peers
    ensures var r := SendRequest(p, user, code, payload, nativeFee, price);
            && (p.paused ==> r == Err(Paused))
            && (!p.paused ==>
                  && (nativeFee <= FeeOf(p.fees.value, code) ==> r == Err(InsufficientMessagingFee))
                  && (FeeOf(p.fees.value, code) < nativeFee && code !in {2, 3, 4, 5, 6, 8, 9, 10, 15} ==>
                        r == Err(InvalidPayloadType)))
  {
  }

  /** The same for the stored claim; its type is 16 and its payload the three stored words. */
  lemma SendClaimSucceedsIff(p: Proxy, user: Pubkey, nativeFee: u64, price: u64)
    requires user != p.key && p.fees.Some?
    ensures var r := SendClaim(p, user, nativeFee, price);
            var fee := p.fees.value.orderFee;
            && (r.Ok? <==> && user in p.claims && p.orderlyEid in p.peers && !p.paused
                           && fee < nativeFee && price <= nativeFee - fee
                           && price + fee <= Balance(p.lamports, user)
                           && Balance(p.lamports, p.key) + fee < U64_LIMIT)
            && (r.Ok? ==> && r.value.send.dstEid == p.orderlyEid && r.value.send.receiver == p.peers[p.orderlyEid]
                          && r.value.send.nativeFee == nativeFee - fee
                          && var claim := p.claims[user];
                             r.value.send.message
                             == [3] + user + [16] + (claim.distributionId + claim.amount + claim.root))
    ensures user in p.claims && p.orderlyEid in p.peers && p.paused ==>
              SendClaim(p, user, nativeFee, price) == Err(Paused)
  {
  }

  /** When a request is priced: the same types, pause and peer; the user is told the endpoint's price
      plus the backward fee of the type. */
  lemma QuoteRequestSucceedsIff(p: Proxy, user: Pubkey, code: byte, payload: Bytes, price: u64)
    requires p.fees.Some?
    ensures var r := QuoteRequest(p, user, code, payload, price);
            var fee := FeeOf(p.fees.value, code);
            && (r.Ok? <==> && p.orderlyEid in p.peers && !p.paused && code in {2, 3, 4, 5, 6, 8, 9, 10, 15}
                           && price + fee < U64_LIMIT)
            && (r.Ok? ==> r.value == Quote([3] + user + [code] + payload, price + fee))
            && (p.orderlyEid in p.peers && p.paused ==> r == Err(Paused))
            && (p.orderlyEid in p.peers && !p.paused && code !in {2, 3, 4, 5, 6, 8, 9, 10, 15} ==>
                  r == Err(InvalidPayloadType))
  {
  }

  lemma QuoteClaimSucceedsIff(p: Proxy, user: Pubkey, price: u64)
    requires p.fees.Some?
    ensures var r := QuoteClaim(p, user, price);
            && (r.Ok? <==> && user in p.claims && p.orderlyEid in p.peers && !p.paused
                           && price + p.fees.value.orderFee < U64_LIMIT)
            && (r.Ok? ==>
                  && r.value.nativeFee == price + p.fees.value.orderFee
                  && var claim := p.claims[user];
                     r.value.message == [3] + user + [16] + (claim.distributionId + claim.amount + claim.root))
            && (user in p.claims && p.orderlyEid in p.peers && p.paused ==> r == Err(Paused))
  {
  }

  /** Without a peer or before the fees are set, nothing is sent and nothing is quoted. */
  lemma NothingWithoutFees(p: Proxy, user: Pubkey, code: byte, payload: Bytes, nativeFee: u64, price: u64)
    requires p.fees.None?
    ensures SendRequest(p, user, code, payload, nativeFee, price) == Err(Abort)
    ensures SendClaim(p, user, nativeFee, price) == Err(Abort)
    ensures QuoteRequest(p, user, code, payload, price) == Err(Abort)
    ensures QuoteClaim(p, user, price) == Err(Abort)
  {
  }

  /** Submitting stores, exactly while the proxy is not paused, what the user gave and the root that
      the proof folds to; the same user's earlier claim is replaced, and nobody else's touched. */
  lemma SubmitProofSucceedsIff(p: Proxy, keccak: Hash, user: Pubkey, params: SubmitProofParams)
    ensures var r := SubmitProof(p, keccak, user, params);
            && (r.Ok? <==> !p.paused)
            && (r.Err? ==> r == Err(Paused))
            && (r.Ok? ==>
                  && user in r.value.claims
                  && var claim := r.value.claims[user];
                  && Value(claim.distributionId) == params.distributionId
                  && claim.amount == params.cumulativeAmount && claim.user == user
                  && (params.merkleProof == [] ==>
                        claim.root == CalculateLeaf(keccak, Claim(SolanaToEvmAddress(keccak, user),
                                                                  params.cumulativeAmount)))
                  && r.value == p.(claims := p.claims[user := claim]))
  {
    hide Value, CalculateLeaf, SolanaToEvmAddress, ToBytes32, ToBytes;
    PaddedValue(params.distributionId);
  }

  /** Whatever arrives: a message is paid exactly when the peer sent it, its bytes 1 to 33 name the
      receiver, its token is 2, its type is 14 and 32 bytes follow, whose low 8 are the amount, and the
      proxy is not paused and has that much. */
  lemma ReceiptSucceedsIff(p: Proxy, srcEid: u32, sender: Word, receiver: Pubkey, message: Bytes)
    ensures var r := LzReceive(p, srcEid, sender, receiver, message);
            && (r.Ok? <==> && srcEid in p.peers && p.peers[srcEid] == sender && !p.paused
                           && 66 <= |message| && message[1..33] == receiver && message[0] == 2 && message[33] == 14
                           && var amount := Value(message[58..66]);
                           && amount <= Balance(p.usdc, p.key)
                           && (receiver == p.key || Balance(p.usdc, receiver) + amount < U64_LIMIT))
            && (r.Ok? ==> r.value.amount == Value(message[58..66]) && r.value.receiver == receiver)
  {
    hide Value, Pow256;
    if 66 <= |message| {
      assert message[34..][..32][24..32] == message[58..66];
    }
  }

  /** Why a message is refused, in the order in which the reasons count. */
  lemma WhyReceiptFails(p: Proxy, srcEid: u32, sender: Word, receiver: Pubkey, message: Bytes)
    requires srcEid in p.peers
    ensures var r := LzReceive(p, srcEid, sender, receiver, message);
            && (p.peers[srcEid] != sender ==> r == Err(InvalidSender))
            && (p.peers[srcEid] == sender && |message| < 33 ==> r == Err(Abort))
            && (p.peers[srcEid] == sender && 33 <= |message| ==>
                  && (message[1..33] != receiver ==> r == Err(InvalidReceiver))
                  && (message[1..33] == receiver && p.paused ==> r == Err(Paused))
                  && (message[1..33] == receiver && !p.paused ==>
                        && (|message| == 33 ==> r == Err(Abort))
                        && (34 <= |message| && message[33] != 14 ==> r == Err(InvalidLedgerPayloadType))
                        && (34 <= |message| && message[33] == 14 && message[0] != 2 ==>
                              r == Err(InvalidLedgerTokenType))
                        && (34 <= |message| < 66 && message[33] == 14 && message[0] == 2 ==> r == Err(Abort))))
  {
    hide Value, Pow256;
  }

  // ----- administration -----

  /** The admin, and nobody else, sets the fees; quotes and sends then go by them. */
  lemma FeesGovern(p: Proxy, admin: Pubkey, fees: BackwardFees, user: Pubkey, code: byte, payload: Bytes, price: u64)
    ensures var r := SetBackwardFee(p, admin, fees);
            && (r.Ok? <==> admin == p.admin)
            && (r.Err? ==> r == Err(Unauthorized))
            && (r.Ok? ==>
                  && r.value.(fees := p.fees) == p
                  && (QuoteRequest(r.value, user, code, payload, price).Ok? ==>
                        QuoteRequest(r.value, user, code, payload, price).value.nativeFee
                        == price + FeeOf(fees, code))
                  && (QuoteClaim(r.value, user, price).Ok? ==>
                        QuoteClaim(r.value, user, price).value.nativeFee == price + fees.orderFee))
  {
  }

  /** The admin, and nobody else, sets whom the proxy writes to and hears at an endpoint. */
  lemma PeerGoverns(p: Proxy, admin: Pubkey, eid: u32, peer: Word, sender: Word, receiver: Pubkey, message: Bytes)
    ensures var r := SetPeer(p, admin, eid, peer);
            && (r.Ok? <==> admin == p.admin)
            && (r.Err? ==> r == Err(Unauthorized))
            && (r.Ok? ==>
                  && eid in r.value.peers && r.value.peers[eid] == peer
                  && (forall other :: other != eid ==> (other in r.value.peers <==> other in p.peers))
                  && (forall other :: other != eid && other in p.peers ==> r.value.peers[other] == p.peers[other])
                  && r.value.(peers := p.peers) == p
                  && (LzReceive(r.value, eid, sender, receiver, message).Ok? ==> sender == peer))
  {
    hide GetReceiver, PayOut;
  }

  lemma PauseIsSetIff(p: Proxy, admin: Pubkey, paused: bool)
    ensures var r := SolanaProxy.SetPause(p, admin, paused);
            && (r.Ok? <==> admin == p.admin)
            && (r.Err? ==> r == Err(Unauthorized))
            && (r.Ok? ==> r.value.paused == paused && r.value.(paused := p.paused) == p)
  {
  }

  predicate Served(action: Action) {
    action.DoSubmitProof? || action.DoSendClaim? || action.DoSendRequest? || action.DoLzReceive?
  }

  predicate Unpauses(action: Action) {
    action.DoSetPause? && !action.paused
  }

  lemma PausedStep(w: World, p: Proxy, action: Action)
    requires p.paused && !Unpauses(action)
    ensures After(w, p, action).paused && After(w, p, action).claims == p.claims
    ensures Served(action) ==> Step(w, p, action).Err?
  {
    hide EncodeVault, GetReceiver, PayOut, ClaimDataFor, Transfer;
  }

  /** While the admin does not lift the pause, no proof, claim, request or payout gets through and every
      stored claim stays, whatever else happens. */
  lemma {:induction false} PauseHolds(w: World, p: Proxy, actions: seq<Action>, action: Action)
    requires p.paused && forall before :: before in actions ==> !Unpauses(before)
    ensures Run(w, p, actions).paused && Run(w, p, actions).claims == p.claims
    ensures Served(action) ==> Step(w, Run(w, p, actions), action).Err?
  {
    hide Step, After;
    if actions == [] {
    } else {
      PauseHolds(w, p, actions[..|actions| - 1], action);
      PausedStep(w, Run(w, p, actions[..|actions| - 1]), actions[|actions| - 1]);
    }
    if Served(action) {
      PausedStep(w, Run(w, p, actions), action);
    }
  }

  // ----- the admin's settings stay the admin's -----

  predicate SameSettings(a: Proxy, b: Proxy) {
    && a.key == b.key && a.admin == b.admin && a.paused == b.paused && a.orderlyEid == b.orderlyEid
    && a.peers == b.peers && a.fees == b.fees
  }

  /** No step but the admin's changes fees, peers or the pause. */
  lemma OnlyAdminChangesSettings(w: World, p: Proxy, action: Action)
    ensures !SameSettings(p, After(w, p, action)) ==>
              (action.DoSetBackwardFee? || action.DoSetPause? || action.DoSetPeer?) && action.admin == p.admin
  {
    hide EncodeVault, DecodeLedger, GetReceiver, ClaimDataFor, Transfer, PayEndpoint;
  }
}
