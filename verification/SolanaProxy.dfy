/** The proxy program's instructions as functions of its accounts. A failing instruction has no effect. */
module SolanaProxy {
  import opened Base
  import opened BigEndian
  import opened Merkle
  import opened ProxyMessages

  datatype ClaimData = ClaimData(distributionId: Word, amount: Word, root: Word, user: Pubkey) {

    /** `encode_claim_payload` */
    function Payload(): Bytes {
      distributionId + amount + root
    }
  }

  datatype BackwardFees = BackwardFees(orderFee: u64, usdcFee: u64)

  /** The proxy's accounts: its configuration, one claim per user, lamports, and USDC by owner. */
  datatype Proxy = Proxy(
    key: Pubkey,
    admin: Pubkey,
    paused: bool,
    orderlyEid: u32,
    peers: map<u32, Word>,
    fees: Option<BackwardFees>,
    claims: map<Pubkey, ClaimData>,
    lamports: map<Pubkey, u64>,
    usdc: map<Pubkey, u64>)

  function Balance(balances: map<Pubkey, u64>, key: Pubkey): u64 {
    if key in balances then balances[key] else 0
  }

  /** A system-program or token transfer. */
  function Transfer(balances: map<Pubkey, u64>, from: Pubkey, to: Pubkey, amount: u64): Result<map<Pubkey, u64>> {
    if Balance(balances, from) < amount then
      Err(Abort)
    else
      var debited := balances[from := Balance(balances, from) - amount];
      var credited :- Add64(Balance(debited, to), amount);
      Ok(debited[to := credited])
  }

  lemma TransferChanges(balances: map<Pubkey, u64>, from: Pubkey, to: Pubkey, amount: u64, key: Pubkey)
    ensures var r := Transfer(balances, from, to, amount);
            r.Ok? ==> Balance(r.value, key) == Balance(balances, key)
                                               - (if key == from then amount else 0)
                                               + (if key == to then amount else 0)
  {
  }

  // ----- claims -----

  datatype SubmitProofParams = SubmitProofParams(distributionId: u32, cumulativeAmount: Word, merkleProof: seq<Word>)

  function ClaimOf(keccak: Hash, user: Pubkey, cumulativeAmount: Word): Claim {
    Claim(SolanaToEvmAddress(keccak, user), cumulativeAmount)
  }

  function ClaimDataFor(keccak: Hash, user: Pubkey, params: SubmitProofParams): ClaimData {
    var leaf := CalculateLeaf(keccak, ClaimOf(keccak, user, params.cumulativeAmount));
    ClaimData(ToBytes32(ToBytes(params.distributionId, 4)), params.cumulativeAmount,
              ProcessProof(keccak, params.merkleProof, leaf), user)
  }

  function SubmitProof(p: Proxy, keccak: Hash, user: Pubkey, params: SubmitProofParams): Result<Proxy> {
    if p.paused then
      Err(Paused)
    else
      Ok(p.(claims := p.claims[user := ClaimDataFor(keccak, user, params)]))
  }

  /** What the endpoint is asked to send. */
  datatype EndpointSend = EndpointSend(dstEid: u32, receiver: Word, message: Bytes, nativeFee: u64)

  datatype Sent = Sent(proxy: Proxy, send: EndpointSend)

  function ClaimMessage(user: Pubkey, claim: ClaimData): VaultMessage {
    VaultMessage(ClaimRewardSolana.TokenFor().Code(), user, ClaimRewardSolana.Code(), claim.Payload())
  }

  /** The endpoint collects its own price from the user, up to the fee it is passed. */
  function PayEndpoint(lamports: map<Pubkey, u64>, user: Pubkey, passedOn: u64,
          price: u64): Result<map<Pubkey, u64>> {
    if passedOn < price || Balance(lamports, user) < price then Err(Abort)
    else Ok(lamports[user := Balance(lamports, user) - price])
  }

  /** The backward fee is charged before the fee is checked. The stored claim is consumed: its
      account is closed. */
  function SendClaim(p: Proxy, user: Pubkey, nativeFee: u64, price: u64): Result<Sent> {
    if user !in p.claims || p.orderlyEid !in p.peers || p.fees.None? then
      Err(Abort)
    else if p.paused then
      Err(Paused)
    else
      var backwardFee := p.fees.value.orderFee;
      var charged :- if backwardFee > 0 then Transfer(p.lamports, user, p.key, backwardFee) else Ok(p.lamports);
      if nativeFee <= backwardFee then
        Err(InsufficientMessagingFee)
      else
        var lamports :- PayEndpoint(charged, user, nativeFee - backwardFee, price);
        Ok(Sent(p.(lamports := lamports, claims := p.claims - {user}),
                EndpointSend(p.orderlyEid, p.peers[p.orderlyEid], EncodeVault(ClaimMessage(user, p.claims[user])),
                             nativeFee - backwardFee)))
  }

  // ----- requests -----

  function BackwardFeeFor(fees: BackwardFees, payloadType: PayloadType): u64 {
    match payloadType
    case WithdrawOrder => fees.orderFee
    case ClaimVestingRequest => fees.orderFee
    case UnstakeOrderNow => fees.orderFee
    case ClaimUsdcRevenue => fees.usdcFee
    case _ => 0
  }

  function RequestMessage(user: Pubkey, payloadType: PayloadType, payload: Bytes): VaultMessage {
    VaultMessage(payloadType.TokenFor().Code(), user, payloadType.Code(), payload)
  }

  /** The endpoint is paid before the backward fee is charged. */
  function SendRequest(p: Proxy, user: Pubkey, payloadCode: byte, payload: Bytes, nativeFee: u64,
          price: u64): Result<Sent> {
    var payloadType := PayloadTypeFromCode(payloadCode);
    if p.orderlyEid !in p.peers || p.fees.None? then
      Err(Abort)
    else if p.paused then
      Err(Paused)
    else if nativeFee <= BackwardFeeFor(p.fees.value, payloadType) then
      Err(InsufficientMessagingFee)
    else if !payloadType.IsRequest() then
      Err(InvalidPayloadType)
    else
      var backwardFee := BackwardFeeFor(p.fees.value, payloadType);
      var paid :- PayEndpoint(p.lamports, user, nativeFee - backwardFee, price);
      var lamports :- if backwardFee > 0 then Transfer(paid, user, p.key, backwardFee) else Ok(paid);
      Ok(Sent(p.(lamports := lamports),
              EndpointSend(p.orderlyEid, p.peers[p.orderlyEid], EncodeVault(RequestMessage(user, payloadType, payload)),
                           nativeFee - backwardFee)))
  }

  // ----- what a send costs -----

  /** Whatever else a send does, what the user offers splits into what the proxy gains and what is
      passed on to the endpoint, which covers the endpoint's price; the user pays no more. */
  ghost predicate Collects(p: Proxy, user: Pubkey, offered: u64, price: u64, sent: Sent) {
    && sent.proxy.key == p.key && sent.proxy.usdc == p.usdc
    && price <= sent.send.nativeFee <= offered
    && (user != p.key ==>
          && Balance(sent.proxy.lamports, p.key) == Balance(p.lamports, p.key) + (offered - sent.send.nativeFee)
          && Balance(sent.proxy.lamports, user)
             == Balance(p.lamports, user) - (offered - sent.send.nativeFee) - price)
  }

  lemma RequestCollects(p: Proxy, user: Pubkey, payloadCode: byte, payload: Bytes, nativeFee: u64, price: u64)
    ensures var r := SendRequest(p, user, payloadCode, payload, nativeFee, price);
            r.Ok? ==> Collects(p, user, nativeFee, price, r.value) && r.value.proxy.claims == p.claims
  {
    hide EncodeVault;
  }

  lemma ClaimCollects(p: Proxy, user: Pubkey, nativeFee: u64, price: u64)
    ensures var r := SendClaim(p, user, nativeFee, price);
            r.Ok? ==> Collects(p, user, nativeFee, price, r.value) && r.value.proxy.claims == p.claims - {user}
  {
    hide EncodeVault;
  }

  // ----- quotes -----

  /** The message whose price is asked, and the fee returned when the endpoint answers `price`. */
  datatype Quote = Quote(message: Bytes, nativeFee: u64)

  function QuoteRequest(p: Proxy, user: Pubkey, payloadCode: byte, payload: Bytes, price: u64): Result<Quote> {
    if p.orderlyEid !in p.peers || p.fees.None? then
      Err(Abort)
    else if p.paused then
      Err(Paused)
    else if !PayloadTypeFromCode(payloadCode).IsRequest() then
      Err(InvalidPayloadType)
    else
      var backwardFee :=
        if payloadCode == WithdrawOrder.Code() || payloadCode == ClaimVestingRequest.Code()
           || payloadCode == UnstakeOrderNow.Code() then p.fees.value.orderFee
        else if payloadCode == ClaimUsdcRevenue.Code() then p.fees.value.usdcFee
        else 0;
      var nativeFee :- Add64(price, backwardFee);
      Ok(Quote(EncodeVault(VaultMessage(TokenType.PLACEHOLDER.Code(), user, payloadCode, payload)), nativeFee))
  }

  function QuoteClaim(p: Proxy, user: Pubkey, price: u64): Result<Quote> {
    if user !in p.claims || p.orderlyEid !in p.peers || p.fees.None? then
      Err(Abort)
    else if p.paused then
      Err(Paused)
    else
      var nativeFee :- Add64(price, p.fees.value.orderFee);
      Ok(Quote(EncodeVault(ClaimMessage(user, p.claims[user])), nativeFee))
  }

  // ----- payouts -----

  datatype Payout = Payout(proxy: Proxy, receiver: Pubkey, amount: u64)

  /** `LzReceive::apply` and the account constraints that gate it. */
  function LzReceive(p: Proxy, srcEid: u32, sender: Word, receiver: Pubkey, message: Bytes): Result<Payout> {
    if srcEid !in p.peers then
      Err(Abort)
    else if p.peers[srcEid] != sender then
      Err(InvalidSender)
    else
      var named :- GetReceiver(message);
      if named != receiver then
        Err(InvalidReceiver)
      else if p.paused then
        Err(Paused)
      else
        PayOut(p, receiver, message)
  }

  function PayOut(p: Proxy, receiver: Pubkey, message: Bytes): Result<Payout> {
    var decoded :- DecodeLedger(message);
    if !decoded.payloadType.IsFromLedger() then
      Err(InvalidLedgerPayloadType)
    else if !decoded.token.USDC? then
      Err(InvalidLedgerTokenType)
    else if |decoded.payload| < 32 then
      Err(Abort)
    else
      var amount := GetUsdcAmount(decoded.payload[..32]);
      var usdc :- Transfer(p.usdc, p.key, receiver, amount);
      Ok(Payout(p.(usdc := usdc), receiver, amount))
  }

  // ----- administration -----

  /** `WithdrawFee::apply`: lamports above the rent minimum go to the collector. */
  function WithdrawFee(p: Proxy, rentMinimum: u64, admin: Pubkey, feeCollector: Pubkey, amount: u64): Result<Proxy> {
    if admin != p.admin then
      Err(Unauthorized)
    else
      var surplus :- Sub64(Balance(p.lamports, p.key), rentMinimum);
      if surplus < amount then
        Err(InsufficientBalance)
      else
        var lamports :- Transfer(p.lamports, p.key, feeCollector, amount);
        Ok(p.(lamports := lamports))
  }

  function SetBackwardFee(p: Proxy, admin: Pubkey, fees: BackwardFees): Result<Proxy> {
    if admin != p.admin then Err(Unauthorized) else Ok(p.(fees := Some(fees)))
  }

  function SetPause(p: Proxy, admin: Pubkey, paused: bool): Result<Proxy> {
    if admin != p.admin then Err(Unauthorized) else Ok(p.(paused := paused))
  }

  function SetPeer(p: Proxy, admin: Pubkey, eid: u32, peer: Word): Result<Proxy> {
    if admin != p.admin then Err(Unauthorized) else Ok(p.(peers := p.peers[eid := peer]))
  }
}
