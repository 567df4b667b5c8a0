/** The messages between the Solana proxy and the ledger contract, as each side writes and reads them. */
module ProxyMessages {
  import opened Base
  import opened BigEndian

  type u256 = x: int | 0 <= x < U128_LIMIT * U128_LIMIT

  datatype TokenType = ORDER | ESORDER | USDC | PLACEHOLDER {

    /** The discriminant, alike in the Rust enum and Solidity's `LedgerToken`. */
    function Code(): byte {
      match this
      case ORDER => 0
      case ESORDER => 1
      case USDC => 2
      case PLACEHOLDER => 3
    }
  }

  /** Rust's reading: anything unknown is the placeholder. */
  function TokenTypeFromCode(code: byte): TokenType {
    match code
    case 0 => ORDER
    case 1 => ESORDER
    case 2 => USDC
    case _ => TokenType.PLACEHOLDER
  }

  /** Solidity's conversion to an enum: an unknown value reverts. */
  function LedgerToken(code: byte): Result<TokenType> {
    if code <= 3 then Ok(TokenTypeFromCode(code)) else Err(Revert)
  }

  datatype PayloadType =
    | ClaimReward
    | Stake
    | CreateOrderUnstakeRequest
    | CancelOrderUnstakeRequest
    | WithdrawOrder
    | EsOrderUnstakeAndVest
    | CancelVestingRequest
    | CancelAllVestingRequests
    | ClaimVestingRequest
    | RedeemValor
    | ClaimUsdcRevenue
    | ClaimRewardBackward
    | WithdrawOrderBackward
    | ClaimVestingRequestBackward
    | ClaimUsdcRevenueBackward
    | UnstakeOrderNow
    | ClaimRewardSolana
    | PLACEHOLDER
  {
    function Code(): byte {
      match this
      case ClaimReward => 0
      case Stake => 1
      case CreateOrderUnstakeRequest => 2
      case CancelOrderUnstakeRequest => 3
      case WithdrawOrder => 4
      case EsOrderUnstakeAndVest => 5
      case CancelVestingRequest => 6
      case CancelAllVestingRequests => 7
      case ClaimVestingRequest => 8
      case RedeemValor => 9
      case ClaimUsdcRevenue => 10
      case ClaimRewardBackward => 11
      case WithdrawOrderBackward => 12
      case ClaimVestingRequestBackward => 13
      case ClaimUsdcRevenueBackward => 14
      case UnstakeOrderNow => 15
      case ClaimRewardSolana => 16
      case PLACEHOLDER => 17
    }

    /** `check_request_payload_type` */
    predicate IsRequest() {
      || CreateOrderUnstakeRequest? || CancelOrderUnstakeRequest? || WithdrawOrder? || EsOrderUnstakeAndVest?
      || CancelVestingRequest? || ClaimVestingRequest? || RedeemValor? || ClaimUsdcRevenue? || UnstakeOrderNow?
    }

    /** `check_claim_payload_type` */
    predicate IsClaim() {
      ClaimRewardSolana?
    }

    /** `check_ledger_payload_type` */
    predicate IsFromLedger() {
      ClaimUsdcRevenueBackward?
    }

    /** `get_token_type` */
    function TokenFor(): TokenType {
      TokenType.PLACEHOLDER
    }
  }

  /** `from_u8` */
  function PayloadTypeFromCode(code: byte): PayloadType {
    match code
    case 0 => ClaimReward
    case 1 => Stake
    case 2 => CreateOrderUnstakeRequest
    case 3 => CancelOrderUnstakeRequest
    case 4 => WithdrawOrder
    case 5 => EsOrderUnstakeAndVest
    case 6 => CancelVestingRequest
    case 7 => CancelAllVestingRequests
    case 8 => ClaimVestingRequest
    case 9 => RedeemValor
    case 10 => ClaimUsdcRevenue
    case 11 => ClaimRewardBackward
    case 12 => WithdrawOrderBackward
    case 13 => ClaimVestingRequestBackward
    case 14 => ClaimUsdcRevenueBackward
    case 15 => UnstakeOrderNow
    case 16 => ClaimRewardSolana
    case _ => PayloadType.PLACEHOLDER
  }

  /** Solidity's `checkVaultPayloadType`: it still accepts type 7, which the proxy no longer sends. */
  predicate CheckVaultPayloadType(code: byte) {
    code in {2, 3, 4, 5, 6, 7, 8, 9, 10, 15, 16}
  }

  /** Solidity's `checkLedgerPayloadType`. */
  predicate CheckLedgerPayloadType(code: byte) {
    code == 14
  }

  const SENDER_OFFSET := 1
  const PAYLOAD_TYPE_OFFSET := 33
  const PAYLOAD_OFFSET := 34

  /** token byte, 32-byte account, payload type byte, payload: the layout in both directions. */
  function Pack(token: byte, account: Word, payloadType: byte, payload: Bytes): Bytes {
    [token] + account + [payloadType] + payload
  }

  lemma UnpackPacked(token: byte, account: Word, payloadType: byte, payload: Bytes)
    ensures var message := Pack(token, account, payloadType, payload);
            && |message| == PAYLOAD_OFFSET + |payload|
            && message[0] == token && message[SENDER_OFFSET..PAYLOAD_TYPE_OFFSET] == account
            && message[PAYLOAD_TYPE_OFFSET] == payloadType && message[PAYLOAD_OFFSET..] == payload
  {
  }

  // ----- proxy to ledger -----

  /** Rust's `SolanaVaultOCCMessage`. */
  datatype VaultMessage = VaultMessage(token: byte, sender: Pubkey, payloadType: byte, payload: Bytes)

  function EncodeVault(m: VaultMessage): Bytes {
    Pack(m.token, m.sender, m.payloadType, m.payload)
  }

  /** Solidity's `SolanaVaultMessage`. */
  datatype SolanaVaultMessage = SolanaVaultMessage(token: TokenType, sender: Word, payloadType: byte, payload: Bytes)

  /** `decodeSolanaVaultMessage`: a short message or an unknown token reverts. */
  function DecodeSolanaVaultMessage(message: Bytes): Result<SolanaVaultMessage> {
    if |message| < PAYLOAD_OFFSET then
      Err(Revert)
    else
      var token :- LedgerToken(message[0]);
      Ok(SolanaVaultMessage(token, message[SENDER_OFFSET..PAYLOAD_TYPE_OFFSET], message[PAYLOAD_TYPE_OFFSET],
                            message[PAYLOAD_OFFSET..]))
  }

  // ----- ledger to proxy -----

  /** `abi.encode(uint256)` */
  function AbiEncode(amount: u256): Word {
    ToBytes(amount, 32)
  }

  /** `encodeSolanaLedgerMessage` */
  function EncodeSolanaLedgerMessage(token: TokenType, receiver: Word, payloadType: byte, payload: Bytes): Bytes {
    Pack(token.Code(), receiver, payloadType, payload)
  }

  /** Rust's `SolanaLedgerOCCMessage`. */
  datatype LedgerMessage = LedgerMessage(token: TokenType, receiver: Pubkey, payloadType: PayloadType, payload: Bytes)

  /** `get_receiver`; a short message panics. */
  function GetReceiver(message: Bytes): Result<Pubkey> {
    if |message| < PAYLOAD_TYPE_OFFSET then Err(Abort) else Ok(message[SENDER_OFFSET..PAYLOAD_TYPE_OFFSET])
  }

  /** `decode`; a short message panics. */
  function DecodeLedger(message: Bytes): Result<LedgerMessage> {
    if |message| < PAYLOAD_OFFSET then
      Err(Abort)
    else
      Ok(LedgerMessage(TokenTypeFromCode(message[0]), message[SENDER_OFFSET..PAYLOAD_TYPE_OFFSET],
                       PayloadTypeFromCode(message[PAYLOAD_TYPE_OFFSET]), message[PAYLOAD_OFFSET..]))
  }

  /** `get_usdc_amount`: only the last eight bytes are read. */
  function GetUsdcAmount(amountBytes: Word): u64 {
    ValueBelowPow(amountBytes[24..32]);
    KnownPowers();
    Value(amountBytes[24..32])
  }

  /** The proxy pays the ledger's 256-bit amount modulo 2^64: exact for exactly the amounts below it. */
  lemma UsdcAmountTruncates(amount: u256)
    ensures GetUsdcAmount(AbiEncode(amount)) == amount % U64_LIMIT
    ensures GetUsdcAmount(AbiEncode(amount)) == amount <==> amount < U64_LIMIT
  {
    hide Pow256, Value, ToBytes;
    var word := AbiEncode(amount);
    KnownPowers();
    ValueOfToBytes(amount, 32);
    assert word == word[..24] + word[24..32];
    ValueOfConcat(word[..24], word[24..32]);
    ValueBelowPow(word[24..32]);
    assert amount == Value(word[..24]) * U64_LIMIT + Value(word[24..32]);
  }

  /** The numbers both sides go by. */
  lemma CodesOnTheWire(code: byte)
    ensures CheckVaultPayloadType(code) <==> code in {2, 3, 4, 5, 6, 7, 8, 9, 10, 15, 16}
    ensures CheckLedgerPayloadType(code) <==> code == 14
    ensures PayloadTypeFromCode(code).IsRequest() <==> code in {2, 3, 4, 5, 6, 8, 9, 10, 15}
    ensures PayloadTypeFromCode(code).IsClaim() <==> code == 16
    ensures PayloadTypeFromCode(code).IsFromLedger() <==> code == 14
    ensures LedgerToken(code).Err? <==> 3 < code
    ensures LedgerToken(code).Ok? ==> LedgerToken(code).value.Code() == code == TokenTypeFromCode(code).Code()
    ensures 3 < code ==> TokenTypeFromCode(code) == TokenType.PLACEHOLDER
    ensures ORDER.Code() == 0 && ESORDER.Code() == 1 && USDC.Code() == 2 && TokenType.PLACEHOLDER.Code() == 3
  {
  }

  lemma PayloadTypeRoundTrip(payloadType: PayloadType)
    ensures PayloadTypeFromCode(payloadType.Code()) == payloadType
    ensures payloadType.IsRequest() || payloadType.IsClaim() ==> CheckVaultPayloadType(payloadType.Code())
    ensures payloadType.IsFromLedger() <==> CheckLedgerPayloadType(payloadType.Code())
  {
  }
}
