/** The proxy program as it runs, updating its accounts in place. After an error nothing is promised
    of them: the runtime discards the writes of a failed instruction. */
module ProxyProgram {
  import opened Base
  import opened BigEndian
  import opened Merkle
  import opened ProxyMessages
  import opened SolanaProxy

  class ProxyAccounts {
    const key: Pubkey
    var admin: Pubkey
    var paused: bool
    var orderlyEid: u32
    var peers: map<u32, Word>
    var fees: Option<BackwardFees>
    var claims: map<Pubkey, ClaimData>
    var lamports: map<Pubkey, u64>
    var usdc: map<Pubkey, u64>

    ghost function View(): Proxy
      reads this
    {
      Proxy(key, admin, paused, orderlyEid, peers, fees, claims, lamports, usdc)
    }

    constructor (p: Proxy)
      ensures View() == p
    {
      key, admin, paused, orderlyEid, peers := p.key, p.admin, p.paused, p.orderlyEid, p.peers;
      fees, claims, lamports, usdc := p.fees, p.claims, p.lamports, p.usdc;
    }

    /** `SubmitProof::apply` */
    method SubmitProof(keccak: Hash, user: Pubkey, params: SubmitProofParams) returns (r: Result<()>)
      modifies this
      ensures match SolanaProxy.SubmitProof(old(View()), keccak, user, params)
              case Ok(p) => r.Ok? && View() == p
              case Err(e) => r == Err(e)
    {
      if paused {
        return Err(Paused);
      }
      var evmAddress := SolanaToEvmAddress(keccak, user);
      var leaf := CalculateLeaf(keccak, Claim(evmAddress, params.cumulativeAmount));
      var root := ProcessProof(keccak, params.merkleProof, leaf);
      var distributionId := ToBytes32(ToBytes(params.distributionId, 4));
      claims := claims[user := ClaimData(distributionId, params.cumulativeAmount, root, user)];
      return Ok(());
    }

    /** `SendClaim::apply`: charge first, then check the fee, send, and close the claim account. */
    method SendClaim(user: Pubkey, nativeFee: u64, price: u64) returns (r: Result<EndpointSend>)
      modifies this
      ensures match SolanaProxy.SendClaim(old(View()), user, nativeFee, price)
              case Ok(sent) => r == Ok(sent.send) && View() == sent.proxy
              case Err(e) => r == Err(e)
      ensures r.Ok? ==>
                && user in old(claims) && claims == old(claims) - {user}
                && Collects(old(View()), user, nativeFee, price, Sent(View(), r.value))
    {
      hide EncodeVault, Collects;
      ClaimCollects(View(), user, nativeFee, price);
      if user !in claims || orderlyEid !in peers || fees.None? {
        return Err(Abort);
      }
      if paused {
        return Err(Paused);
      }
      var payload := claims[user].Payload();
      var message := VaultMessage(ClaimRewardSolana.TokenFor().Code(), user, ClaimRewardSolana.Code(), payload);
      var backwardFee := fees.value.orderFee;
      if backwardFee > 0 {
        lamports :- Transfer(lamports, user, key, backwardFee);
      }
      if nativeFee <= backwardFee {
        return Err(InsufficientMessagingFee);
      }
      var send := EndpointSend(orderlyEid, peers[orderlyEid], EncodeVault(message), nativeFee - backwardFee);
      lamports :- PayEndpoint(lamports, user, send.nativeFee, price);
      claims := claims - {user};
      return Ok(send);
    }

    /** `SendRequest::apply`: check the fee and the type, send, then charge. */
    method SendRequest(user: Pubkey, payloadCode: byte, payload: Bytes, nativeFee: u64, price: u64)
      returns (r: Result<EndpointSend>)
      modifies this
      ensures match SolanaProxy.SendRequest(old(View()), user, payloadCode, payload, nativeFee, price)
              case Ok(sent) => r == Ok(sent.send) && View() == sent.proxy
              case Err(e) => r == Err(e)
      ensures r.Ok? ==>
                claims == old(claims) && Collects(old(View()), user, nativeFee, price, Sent(View(), r.value))
    {
      hide EncodeVault, Collects;
      RequestCollects(View(), user, payloadCode, payload, nativeFee, price);
      if orderlyEid !in peers || fees.None? {
        return Err(Abort);
      }
      if paused {
        return Err(Paused);
      }
      var payloadType := PayloadTypeFromCode(payloadCode);
      var backwardFee: u64;
      if payloadType == WithdrawOrder || payloadType == ClaimVestingRequest || payloadType == UnstakeOrderNow {
        backwardFee := fees.value.orderFee;
      } else if payloadType == ClaimUsdcRevenue {
        backwardFee := fees.value.usdcFee;
      } else {
        backwardFee := 0;
      }
      if nativeFee <= backwardFee {
        return Err(InsufficientMessagingFee);
      }
      if !payloadType.IsRequest() {
        return Err(InvalidPayloadType);
      }
      var message := VaultMessage(payloadType.TokenFor().Code(), user, payloadType.Code(), payload);
      var send := EndpointSend(orderlyEid, peers[orderlyEid], EncodeVault(message), nativeFee - backwardFee);
      lamports :- PayEndpoint(lamports, user, send.nativeFee, price);
      if backwardFee > 0 {
        lamports :- Transfer(lamports, user, key, backwardFee);
      }
      return Ok(send);
    }

    /** `LzReceive::apply`, after the endpoint has cleared the message. */
    method LzReceive(srcEid: u32, sender: Word, receiver: Pubkey, message: Bytes) returns (r: Result<u64>)
      modifies this
      ensures match SolanaProxy.LzReceive(old(View()), srcEid, sender, receiver, message)
              case Ok(payout) => r == Ok(payout.amount) && View() == payout.proxy
              case Err(e) => r == Err(e)
      ensures r.Ok? ==>
                && srcEid in peers && peers[srcEid] == sender && GetReceiver(message) == Ok(receiver)
                && claims == old(claims) && lamports == old(lamports)
                && (receiver != key ==>
                      && Balance(usdc, key) == old(Balance(usdc, key)) - r.value
                      && Balance(usdc, receiver) == old(Balance(usdc, receiver)) + r.value)
    {
      if srcEid !in peers {
        return Err(Abort);
      }
      if peers[srcEid] != sender {
        return Err(InvalidSender);
      }
      var named :- GetReceiver(message);
      if named != receiver {
        return Err(InvalidReceiver);
      }
      if paused {
        return Err(Paused);
      }
      var decoded :- DecodeLedger(message);
      if !decoded.payloadType.IsFromLedger() {
        return Err(InvalidLedgerPayloadType);
      }
      if !decoded.token.USDC? {
        return Err(InvalidLedgerTokenType);
      }
      if |decoded.payload| < 32 {
        return Err(Abort);
      }
      var usdcAmount := GetUsdcAmount(decoded.payload[..32]);
      usdc :- Transfer(usdc, key, receiver, usdcAmount);
      return Ok(usdcAmount);
    }

    /** `WithdrawFee::apply` */
    method WithdrawFee(rentMinimum: u64, admin: Pubkey, feeCollector: Pubkey, amount: u64) returns (r: Result<()>)
      modifies this
      ensures match SolanaProxy.WithdrawFee(old(View()), rentMinimum, admin, feeCollector, amount)
              case Ok(p) => r.Ok? && View() == p
              case Err(e) => r == Err(e)
    {
      if admin != this.admin {
        return Err(Unauthorized);
      }
      var surplus :- Sub64(Balance(lamports, key), rentMinimum);
      if surplus < amount {
        return Err(InsufficientBalance);
      }
      lamports :- Transfer(lamports, key, feeCollector, amount);
      return Ok(());
    }
  }
}
