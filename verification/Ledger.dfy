/** The ledger contract: it turns proxy messages into OCC messages and orders USDC payouts. */
module Ledger {
  import opened Base
  import opened ProxyMessages
  import BigEndian

  /** What the OCC manager's views answer; an unset chain id is zero. */
  datatype OccManager = OccManager(solanaEid: u32, chainIds: map<u32, u256>) {
    function ChainId(eid: u32): u256 {
      if eid in chainIds then chainIds[eid] else 0
    }
  }

  datatype OccVaultMessage = OccVaultMessage(
    chainedEventId: u256,
    srcChainId: u256,
    token: TokenType,
    tokenAmount: u256,
    sender: Word,
    payloadType: byte,
    payload: Bytes)

  datatype OccLedgerMessage = OccLedgerMessage(
    dstChainId: u256,
    token: TokenType,
    tokenAmount: u256,
    receiver: Word,
    payloadType: byte,
    payload: Bytes)

  datatype LzOptions = LzOptions(gas: u128, value: u128)

  const DEFAULT_GAS: u128 := 500_000

  /** The contract's storage. */
  datatype Storage = Storage(
    owner: Word,
    occManager: Word,
    paused: bool,
    peers: map<u32, Word>,
    options: map<byte, LzOptions>)
  {
    function Options(payloadType: byte): LzOptions {
      if payloadType in options then options[payloadType] else LzOptions(0, 0)
    }

    /** `_getPeerOrRevert`: a peer stored as zero is none. */
    predicate HasPeer(eid: u32) {
      eid in peers && peers[eid] != ZeroWord()
    }

    function SetOptions(caller: Word, payloadType: byte, lzOptions: LzOptions): Result<Storage> {
      if caller != owner || !CheckLedgerPayloadType(payloadType) then Err(Revert)
      else Ok(this.(options := options[payloadType := lzOptions]))
    }
  }

  /** `lzReceive` with its peer check, then `_lzReceive`: the message handed to the OCC manager. */
  function Receive(s: Storage, manager: OccManager, srcEid: u32, sender: Word,
          message: Bytes): Result<OccVaultMessage> {
    if !s.HasPeer(srcEid) || s.peers[srcEid] != sender || s.paused || srcEid != manager.solanaEid then
      Err(Revert)
    else
      var vault :- DecodeSolanaVaultMessage(message);
      if !CheckVaultPayloadType(vault.payloadType) || manager.ChainId(srcEid) == 0 then
        Err(Revert)
      else
        Ok(OccVaultMessage(0, manager.ChainId(srcEid), vault.token, 0, vault.sender, vault.payloadType, vault.payload))
  }

  datatype LedgerSend = LedgerSend(dstEid: u32, receiver: Word, message: Bytes, options: LzOptions)

  /** The endpoint's price for a message with given executor options. */
  type Price = (Bytes, LzOptions) -> nat

  function WireMessage(m: OccLedgerMessage): Bytes {
    EncodeSolanaLedgerMessage(m.token, m.receiver, m.payloadType, AbiEncode(m.tokenAmount))
  }

  /** `ledgerOappSend` */
  function OrderPayout(s: Storage, manager: OccManager, price: Price, caller: Word, value: nat,
          m: OccLedgerMessage): Result<LedgerSend> {
    var chainId := manager.ChainId(manager.solanaEid);
    var configured := s.Options(m.payloadType);
    var options := if configured.gas == 0 then configured.(gas := DEFAULT_GAS) else configured;
    if || caller != s.occManager || manager.solanaEid == 0 || chainId == 0 || !CheckLedgerPayloadType(m.payloadType)
       || m.dstChainId != chainId || !m.token.USDC? || value < price(WireMessage(m), options)
       || !s.HasPeer(manager.solanaEid) then
      Err(Revert)
    else
      Ok(LedgerSend(manager.solanaEid, s.peers[manager.solanaEid], WireMessage(m), options))
  }

  /** `ledgerOappSendQuote`: no default gas, and no check but that there is a peer to price. */
  function QuotePayout(s: Storage, manager: OccManager, price: Price, m: OccLedgerMessage): Result<nat> {
    if !s.HasPeer(manager.solanaEid) then Err(Revert)
    else Ok(price(WireMessage(m), s.Options(m.payloadType)))
  }

  /** `m` says what a message on the wire says, and adds nothing but the chain it came from. */
  predicate Relays(message: Bytes, srcChainId: u256, m: OccVaultMessage) {
    && message == Pack(m.token.Code(), m.sender, m.payloadType, m.payload)
    && m.srcChainId == srcChainId && m.chainedEventId == 0 && m.tokenAmount == 0
  }

  class LedgerOApp {
    var owner: Word
    var occManager: Word
    var paused: bool
    var peers: map<u32, Word>
    var options: map<byte, LzOptions>

    function View(): Storage
      reads this
    {
      Storage(owner, occManager, paused, peers, options)
    }

    constructor (s: Storage)
      ensures View() == s
    {
      owner, occManager, paused, peers, options := s.owner, s.occManager, s.paused, s.peers, s.options;
    }

    /** `setOptions`: the owner's choice is what sends and quotes of that type read, and no other
        type's, nor anything else, changes. */
    method SetOptions(caller: Word, payloadType: byte, gas: u128, value: u128) returns (r: Result<()>)
      modifies this`options
      ensures match old(View()).SetOptions(caller, payloadType, LzOptions(gas, value))
              case Ok(s) => r.Ok? && View() == s
              case Err(e) => r == Err(e) && View() == old(View())
      ensures r.Ok? <==> caller == old(owner) && payloadType == 14
      ensures r.Ok? ==> forall code: byte ::
                View().Options(code) == if code == payloadType then LzOptions(gas, value) else old(View().Options(code))
    {
      if caller != owner || !CheckLedgerPayloadType(payloadType) {
        return Err(Revert);
      }
      options := options[payloadType := LzOptions(gas, value)];
      return Ok(());
    }

    /** `lzReceive`: only the peer is heard, and the OCC manager is told what the wire says. */
    method LzReceive(manager: OccManager, srcEid: u32, sender: Word, message: Bytes)
      returns (r: Result<OccVaultMessage>)
      ensures r == Receive(View(), manager, srcEid, sender, message)
      ensures r.Ok? ==>
                && View().HasPeer(srcEid) && peers[srcEid] == sender && !paused && srcEid == manager.solanaEid
                && Relays(message, manager.ChainId(srcEid), r.value)
    {
      if !View().HasPeer(srcEid) || peers[srcEid] != sender || paused {
        return Err(Revert);
      }
      var solanaEid := manager.solanaEid;
      var solanaChainId := manager.ChainId(solanaEid);
      if srcEid != solanaEid {
        return Err(Revert);
      }
      var vault :- DecodeSolanaVaultMessage(message);
      if !CheckVaultPayloadType(vault.payloadType) || solanaChainId == 0 {
        return Err(Revert);
      }
      RepackedVault(message);
      return Ok(OccVaultMessage(0, solanaChainId, vault.token, 0, vault.sender, vault.payloadType, vault.payload));
    }

    /** `ledgerOappSend`: only the OCC manager orders, the price is covered, a gas limit is set, and
        the message names the receiver and spells the ordered amount. */
    method LedgerOappSend(manager: OccManager, price: Price, caller: Word, value: nat, m: OccLedgerMessage)
      returns (r: Result<LedgerSend>)
      ensures r == OrderPayout(View(), manager, price, caller, value, m)
      ensures r.Ok? ==>
                && caller == occManager && r.value.dstEid == manager.solanaEid
                && r.value.options.gas == (if View().Options(m.payloadType).gas == 0 then 500_000
                                           else View().Options(m.payloadType).gas)
                && r.value.options.value == View().Options(m.payloadType).value
                && price(r.value.message, r.value.options) <= value
                && View().HasPeer(r.value.dstEid) && r.value.receiver == peers[r.value.dstEid]
                && GetReceiver(r.value.message) == Ok(m.receiver)
                && |r.value.message| == PAYLOAD_OFFSET + 32
                && BigEndian.Value(r.value.message[PAYLOAD_OFFSET..]) == m.tokenAmount
    {
      hide BigEndian.ToBytes, BigEndian.Value;
      var solanaEid := manager.solanaEid;
      if caller != occManager || solanaEid == 0 {
        return Err(Revert);
      }
      var solanaChainId := manager.ChainId(solanaEid);
      if solanaChainId == 0 || !CheckLedgerPayloadType(m.payloadType) || m.dstChainId != solanaChainId
          || !m.token.USDC? {
        return Err(Revert);
      }
      var message := WireMessage(m);
      var typeOptions := View().Options(m.payloadType);
      if typeOptions.gas == 0 {
        typeOptions := typeOptions.(gas := DEFAULT_GAS);
      }
      if value < price(message, typeOptions) || !View().HasPeer(solanaEid) {
        return Err(Revert);
      }
      WireMessageSpells(m);
      return Ok(LedgerSend(solanaEid, peers[solanaEid], message, typeOptions));
    }
  }

  lemma RepackedVault(message: Bytes)
    ensures var r := DecodeSolanaVaultMessage(message);
            r.Ok? ==> message == Pack(r.value.token.Code(), r.value.sender, r.value.payloadType, r.value.payload)
  {
    if |message| >= PAYLOAD_OFFSET {
      assert message == [message[0]] + message[SENDER_OFFSET..PAYLOAD_TYPE_OFFSET] + [message[PAYLOAD_TYPE_OFFSET]]
                        + message[PAYLOAD_OFFSET..];
    }
  }

  lemma WireMessageSpells(m: OccLedgerMessage)
    ensures GetReceiver(WireMessage(m)) == Ok(m.receiver)
    ensures |WireMessage(m)| == PAYLOAD_OFFSET + 32
    ensures BigEndian.Value(WireMessage(m)[PAYLOAD_OFFSET..]) == m.tokenAmount
  {
    hide BigEndian.ToBytes, BigEndian.Value;
    BigEndian.KnownPowers();
    BigEndian.ValueOfToBytes(m.tokenAmount, 32);
    UnpackPacked(m.token.Code(), m.receiver, m.payloadType, AbiEncode(m.tokenAmount));
  }

  /** What the OCC manager is told is exactly what the wire says, and it is told exactly when an
      accepted type of message comes from the peer on Solana while the contract is not paused. */
  lemma ReceiveIff(s: Storage, manager: OccManager, srcEid: u32, sender: Word, message: Bytes, m: OccVaultMessage)
    ensures Receive(s, manager, srcEid, sender, message) == Ok(m)
       <==> && srcEid in s.peers && s.peers[srcEid] == sender && sender != ZeroWord() && !s.paused
            && srcEid == manager.solanaEid && manager.ChainId(srcEid) != 0
            && m.payloadType in {2, 3, 4, 5, 6, 7, 8, 9, 10, 15, 16} && Relays(message, manager.ChainId(srcEid), m)
  {
    RepackedVault(message);
    UnpackPacked(m.token.Code(), m.sender, m.payloadType, m.payload);
    assert LedgerToken(m.token.Code()) == Ok(m.token);
  }

  /** When paying the quote is enough: for the manager's well-formed order to a known destination,
      exactly when the type has a gas limit or the default gas costs no more than none. */
  lemma QuotedPayoutIsAcceptedIff(s: Storage, manager: OccManager, price: Price, caller: Word, m: OccLedgerMessage)
    ensures var configured := s.Options(m.payloadType);
            var chainId := manager.ChainId(manager.solanaEid);
            var quote := QuotePayout(s, manager, price, m);
            (quote.Ok? && OrderPayout(s, manager, price, caller, quote.value, m).Ok?
             <==> && caller == s.occManager && manager.solanaEid != 0 && chainId != 0
                  && m.payloadType == 14 && m.dstChainId == chainId && m.token.USDC?
                  && s.HasPeer(manager.solanaEid)
                  && (|| configured.gas != 0
                      || price(WireMessage(m), configured.(gas := 500_000)) <= price(WireMessage(m), configured)))
  {
    hide WireMessage;
  }

  /** An order is sent exactly when the manager gives it, for USDC and type 14, to the chain it knows
      Solana by, there is a peer, and the value covers the price; then to that peer, with the
      configured options or 500000 gas, as token 2, the receiver, type 14 and the amount in 32 bytes. */
  lemma PayoutIsOrderedIff(s: Storage, manager: OccManager, price: Price, caller: Word, value: nat,
          m: OccLedgerMessage, sent: LedgerSend)
    ensures var chainId := manager.ChainId(manager.solanaEid);
            var configured := s.Options(m.payloadType);
            (OrderPayout(s, manager, price, caller, value, m) == Ok(sent)
             <==> && caller == s.occManager && manager.solanaEid != 0 && chainId != 0
                  && m.payloadType == 14 && m.dstChainId == chainId && m.token.USDC?
                  && manager.solanaEid in s.peers && sent.receiver == s.peers[manager.solanaEid] != ZeroWord()
                  && sent.dstEid == manager.solanaEid
                  && sent.options == LzOptions(if configured.gas == 0 then 500_000 else configured.gas,
                                               configured.value)
                  && IsOrderOf(sent.message, m.receiver, m.tokenAmount)
                  && price(sent.message, sent.options) <= value)
  {
    hide WireMessage, IsOrderOf;
    if m.payloadType == 14 && m.token.USDC? {
      OnlyOrderOf(sent.message, m);
    }
  }

  /** The 66 bytes of an order. */
  predicate IsOrderOf(message: Bytes, receiver: Word, amount: u256) {
    && |message| == 66 && message[0] == 2 && message[1..33] == receiver && message[33] == 14
    && BigEndian.Value(message[34..]) == amount
  }

  lemma OnlyOrderOf(message: Bytes, m: OccLedgerMessage)
    requires m.payloadType == 14 && m.token.USDC?
    ensures IsOrderOf(message, m.receiver, m.tokenAmount) <==> message == WireMessage(m)
  {
    hide BigEndian.ToBytes, BigEndian.Value;
    BigEndian.KnownPowers();
    BigEndian.ValueOfToBytes(m.tokenAmount, 32);
    UnpackPacked(m.token.Code(), m.receiver, m.payloadType, AbiEncode(m.tokenAmount));
    if IsOrderOf(message, m.receiver, m.tokenAmount) {
      BigEndian.LexLessIsNumeric(message[34..], AbiEncode(m.tokenAmount));
      assert message == [message[0]] + message[1..33] + [message[33]] + message[34..];
    }
  }

  /** A fresh contract, wired but without options, at an endpoint that charges a unit per gas: the
      payout its manager orders is quoted at nothing, is refused at that, and passes at the price of
      the default gas. */
  lemma QuoteCanFallShort(owner: Word, occManager: Word, peer: Word, receiver: Word, amount: u256)
    requires peer != ZeroWord()
    ensures var s := Storage(owner, occManager, false, map[30168 := peer], map[]);
            var manager := OccManager(30168, map[30168 := 900900900]);
            var price: Price := (message: Bytes, options: LzOptions) => options.gas;
            var m := OccLedgerMessage(900900900, USDC, amount, receiver, 14, []);
            && QuotePayout(s, manager, price, m) == Ok(0)
            && OrderPayout(s, manager, price, occManager, 0, m).Err?
            && OrderPayout(s, manager, price, occManager, 500_000, m).Ok?
  {
    var s := Storage(owner, occManager, false, map[30168 := peer], map[]);
    assert s.Options(14) == LzOptions(0, 0);
  }

  /** Configuring a gas limit repairs the quote: afterwards paying it is accepted for whatever the
      manager may order at all, at any price. */
  lemma ConfiguringGasRepairsQuote(s: Storage, manager: OccManager, price: Price, value: nat, m: OccLedgerMessage,
          options: LzOptions)
    requires options.gas != 0 && CheckLedgerPayloadType(m.payloadType)
    ensures var s' := s.SetOptions(s.owner, m.payloadType, options);
            && s'.Ok?
            && (OrderPayout(s, manager, price, s.occManager, value, m).Ok? ==>
                  && QuotePayout(s'.value, manager, price, m).Ok?
                  && var quote := QuotePayout(s'.value, manager, price, m).value;
                     OrderPayout(s'.value, manager, price, s.occManager, quote, m).Ok?)
  {
    hide WireMessage;
  }
}
