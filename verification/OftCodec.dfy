/** The OFT wire message: receiver, amount as an EVM-style 32-byte word, and an optional composed
    part that starts with the sender. `None` from a reader means the source's slice panics. */
module OftCodec {
  import opened Base
  import opened Division
  import opened BigEndian

  const SEND_AMOUNT_SD_OFFSET := 32
  const COMPOSE_MSG_OFFSET := 64
  const DUST_FACTOR: int := 100_000_000

  function U64ToBytes32(amount: u64): Word {
    seq(16, _ => 0) + ToBytes(amount * DUST_FACTOR, 16)
  }

  /** The ignored high half and the amount in the low half. */
  function Bytes32ToU64(word: Word): (u128, u64) {
    ValueBelowPow(word[..16]);
    KnownPowers();
    (Value(word[..16]), Truncate64(Value(word[16..]) / DUST_FACTOR))
  }

  function Encode(sendTo: Word, amountSd: u64, sender: Pubkey, composeMsg: Option<Bytes>): Bytes {
    match composeMsg
    case Some(msg) => sendTo + U64ToBytes32(amountSd) + sender + msg
    case None => sendTo + U64ToBytes32(amountSd)
  }

  function SendTo(message: Bytes): Option<Word> {
    if SEND_AMOUNT_SD_OFFSET <= |message| then Some(message[..SEND_AMOUNT_SD_OFFSET]) else None
  }

  function AmountSd(message: Bytes): Option<u64> {
    if COMPOSE_MSG_OFFSET <= |message| then
      Some(Bytes32ToU64(message[SEND_AMOUNT_SD_OFFSET..COMPOSE_MSG_OFFSET]).1)
    else
      None
  }

  /** `compose_msg`; unlike the other readers it never panics. */
  function ComposeMsg(message: Bytes): Option<Bytes> {
    if COMPOSE_MSG_OFFSET < |message| then Some(message[COMPOSE_MSG_OFFSET..]) else None
  }

  /** The word of an amount spells the amount in units of 10^-8. */
  lemma WordValue(amount: u64)
    ensures Value(U64ToBytes32(amount)) == amount * 100_000_000
    ensures U64ToBytes32(amount)[..16] == seq(16, _ => 0)
    ensures Value(U64ToBytes32(amount)[16..]) == amount * 100_000_000
  {
    KnownPowers();
    ValueOfToBytes(amount * DUST_FACTOR, 16);
    ValueOfZeros(16);
    ValueOfConcat(seq(16, _ => 0), ToBytes(amount * DUST_FACTOR, 16));
  }

  lemma AmountRoundTrip(amount: u64)
    ensures Bytes32ToU64(U64ToBytes32(amount)) == (0, amount)
  {
    hide U64ToBytes32, ToBytes, Value;
    WordValue(amount);
    ValueOfZeros(16);
    MultipleQuotient(amount, DUST_FACTOR);
  }

  /** Decoding reads only the low 128 bits, drops eight decimals and keeps 64 bits. */
  lemma DecodedWord(word: Word)
    ensures Value(word) == Bytes32ToU64(word).0 * U128_LIMIT + Value(word[16..])
    ensures Value(word[16..]) < U128_LIMIT
  {
    KnownPowers();
    assert word == word[..16] + word[16..];
    ValueOfConcat(word[..16], word[16..]);
    ValueBelowPow(word[16..]);
  }

  /** Below 2^64 * 10^8 re-encoding a decoded word only rounds down to a multiple of 10^8. */
  lemma ReencodingDropsDust(word: Word)
    requires Value(word) < U64_LIMIT * 100_000_000
    ensures Value(U64ToBytes32(Bytes32ToU64(word).1)) == Value(word) - Value(word) % 100_000_000
  {
    hide Value, ToBytes, U64ToBytes32;
    DecodedWord(word);
    WordValue(Bytes32ToU64(word).1);
    assert Bytes32ToU64(word).1 == Value(word) / DUST_FACTOR;
  }

  /** A word survives decoding and re-encoding exactly when it is a dust-free amount below the limit. */
  lemma ReencodingIsIdentityIff(word: Word)
    ensures U64ToBytes32(Bytes32ToU64(word).1) == word
       <==> Value(word) % 100_000_000 == 0 && Value(word) < U64_LIMIT * 100_000_000
  {
    hide Value, ToBytes, U64ToBytes32;
    var amount := Bytes32ToU64(word).1;
    WordValue(amount);
    if Value(word) < U64_LIMIT * DUST_FACTOR {
      ReencodingDropsDust(word);
    }
    LexLessIsNumeric(U64ToBytes32(amount), word);
  }

  /** The decoder ignores the high half: with its first byte set, an amount's word is another word,
      yet decodes to the same amount. */
  lemma HighHalfIsIgnored(amount: u64)
    ensures var word: Word := U64ToBytes32(amount)[0 := 1];
            word != U64ToBytes32(amount) && Bytes32ToU64(word).1 == amount
  {
    hide ToBytes, Value;
    var word: Word := U64ToBytes32(amount)[0 := 1];
    assert word[0] != U64ToBytes32(amount)[0];
    assert word[16..] == U64ToBytes32(amount)[16..];
    AmountRoundTrip(amount);
  }

  /** The bytes on the wire, as the other end's contracts read them: 32 for the receiver, 32 for the
      amount in units of 10^-8 of a shared unit, then 32 for the sender and the attached bytes, if any. */
  lemma WireLayout(sendTo: Word, amountSd: u64, sender: Pubkey, composeMsg: Option<Bytes>)
    ensures var message := Encode(sendTo, amountSd, sender, composeMsg);
            && |message| == (if composeMsg.None? then 64 else 96 + |composeMsg.value|)
            && message[..32] == sendTo && Value(message[32..64]) == amountSd * 100_000_000
            && (composeMsg.Some? ==> message[64..96] == sender && message[96..] == composeMsg.value)
  {
    hide U64ToBytes32, Value;
    var message := Encode(sendTo, amountSd, sender, composeMsg);
    assert message[32..64] == U64ToBytes32(amountSd);
    WordValue(amountSd);
    if composeMsg.Some? {
      assert message[64..] == sender + composeMsg.value;
    }
  }

  /** Every field comes back; `None` and an empty composed message stay apart. */
  lemma DecodeEncode(sendTo: Word, amountSd: u64, sender: Pubkey, composeMsg: Option<Bytes>)
    ensures var message := Encode(sendTo, amountSd, sender, composeMsg);
            && SendTo(message) == Some(sendTo)
            && AmountSd(message) == Some(amountSd)
            && ComposeMsg(message) == (if composeMsg.None? then None else Some(sender + composeMsg.value))
  {
    var message := Encode(sendTo, amountSd, sender, composeMsg);
    assert message[..32] == sendTo;
    assert message[32..64] == U64ToBytes32(amountSd);
    AmountRoundTrip(amountSd);
    if composeMsg.Some? {
      assert message[64..] == sender + composeMsg.value;
    }
  }
}

/** The message handed to the composer: nonce, source endpoint, amount, sender, user bytes. */
module ComposeCodec {
  import opened Base
  import opened BigEndian
  import OftCodec

  const SRC_EID_OFFSET := 8
  const AMOUNT_LD_OFFSET := 12
  const COMPOSE_FROM_OFFSET := 20
  const COMPOSE_MSG_OFFSET := 52

  function Encode(nonce: u64, srcEid: u32, amountLd: u64, composeMsg: Bytes): Bytes {
    ToBytes(nonce, 8) + ToBytes(srcEid, 4) + ToBytes(amountLd, 8) + composeMsg
  }

  function Nonce(message: Bytes): Option<u64> {
    if SRC_EID_OFFSET <= |message| then
      KnownPowers();
      ValueBelowPow(message[..SRC_EID_OFFSET]);
      Some(Value(message[..SRC_EID_OFFSET]))
    else
      None
  }

  function SrcEid(message: Bytes): Option<u32> {
    if AMOUNT_LD_OFFSET <= |message| then
      KnownPowers();
      ValueBelowPow(message[SRC_EID_OFFSET..AMOUNT_LD_OFFSET]);
      Some(Value(message[SRC_EID_OFFSET..AMOUNT_LD_OFFSET]))
    else
      None
  }

  function AmountLd(message: Bytes): Option<u64> {
    if COMPOSE_FROM_OFFSET <= |message| then
      KnownPowers();
      ValueBelowPow(message[AMOUNT_LD_OFFSET..COMPOSE_FROM_OFFSET]);
      Some(Value(message[AMOUNT_LD_OFFSET..COMPOSE_FROM_OFFSET]))
    else
      None
  }

  function ComposeFrom(message: Bytes): Option<Word> {
    if COMPOSE_MSG_OFFSET <= |message| then Some(message[COMPOSE_FROM_OFFSET..COMPOSE_MSG_OFFSET]) else None
  }

  function ComposeMsg(message: Bytes): Bytes {
    if COMPOSE_MSG_OFFSET < |message| then message[COMPOSE_MSG_OFFSET..] else []
  }

  /** The bytes the composer gets: 8 for the nonce, 4 for the source, 8 for the amount, the rest. */
  lemma ComposeLayout(nonce: u64, srcEid: u32, amountLd: u64, composeMsg: Bytes)
    ensures var message := Encode(nonce, srcEid, amountLd, composeMsg);
            && |message| == 20 + |composeMsg|
            && Value(message[..8]) == nonce && Value(message[8..12]) == srcEid && Value(message[12..20]) == amountLd
            && message[20..] == composeMsg
  {
    hide ToBytes, Value;
    var message := Encode(nonce, srcEid, amountLd, composeMsg);
    KnownPowers();
    ValueOfToBytes(nonce, 8);
    ValueOfToBytes(srcEid, 4);
    ValueOfToBytes(amountLd, 8);
    assert message[..8] == ToBytes(nonce, 8) && message[8..12] == ToBytes(srcEid, 4);
    assert message[12..20] == ToBytes(amountLd, 8) && message[20..] == composeMsg;
  }

  /** What a user attaches to `send` reaches the composer: the sender as `compose_from`, the same
      bytes as `compose_msg`, next to the nonce, the source and the amount that was delivered. */
  lemma ComposeChain(sendTo: Word, amountSd: u64, sender: Pubkey, msg: Bytes, nonce: u64, srcEid: u32, amountLd: u64)
    ensures var inner := OftCodec.ComposeMsg(OftCodec.Encode(sendTo, amountSd, sender, Some(msg)));
            && inner.Some?
            && var message := Encode(nonce, srcEid, amountLd, inner.value);
            && Nonce(message) == Some(nonce)
            && SrcEid(message) == Some(srcEid)
            && AmountLd(message) == Some(amountLd)
            && ComposeFrom(message) == Some(sender)
            && ComposeMsg(message) == msg
  {
    hide OftCodec.Encode, ToBytes, Value;
    OftCodec.DecodeEncode(sendTo, amountSd, sender, Some(msg));
    KnownPowers();
    ValueOfToBytes(nonce, 8);
    ValueOfToBytes(srcEid, 4);
    ValueOfToBytes(amountLd, 8);
    Fields(ToBytes(nonce, 8), ToBytes(srcEid, 4), ToBytes(amountLd, 8), sender, msg);
  }

  lemma Fields(nonce: Bytes, srcEid: Bytes, amountLd: Bytes, sender: Word, msg: Bytes)
    requires |nonce| == 8 && |srcEid| == 4 && |amountLd| == 8
    ensures var message := nonce + srcEid + amountLd + (sender + msg);
            && message[..SRC_EID_OFFSET] == nonce && message[SRC_EID_OFFSET..AMOUNT_LD_OFFSET] == srcEid
            && message[AMOUNT_LD_OFFSET..COMPOSE_FROM_OFFSET] == amountLd
            && message[COMPOSE_FROM_OFFSET..COMPOSE_MSG_OFFSET] == sender
            && message[COMPOSE_MSG_OFFSET..] == msg
  {
  }
}
