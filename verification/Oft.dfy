/** The OFT program's instructions as functions of the accounts they are given. A failing
    instruction has no effect: the runtime discards every write it made. */
module Oft {
  import opened Base
  import opened TransferFees
  import opened Charging
  import opened RateLimits
  import opened Tokens
  import OftCodec
  import ComposeCodec

  datatype Store = Store(
    key: Pubkey,
    oftType: OftType,
    rate: Rate,
    tokenEscrow: Pubkey,
    tvlLd: u64,
    admin: Pubkey,
    defaultFeeBps: u16,
    paused: bool,
    pauser: Option<Pubkey>,
    unpauser: Option<Pubkey>)

  datatype Peer = Peer(peerAddress: Word, outbound: Option<Bucket>, inbound: Option<Bucket>, feeBps: Option<u16>)

  function DefaultPeer(): Peer {
    Peer(ZeroWord(), None, None, None)
  }

  /** What an instruction reads from its surroundings: the clock and this epoch's transfer fee. */
  datatype Env = Env(clock: i64, mintFee: MintFee)

  // ----- send -----

  datatype SendAccounts = SendAccounts(signer: Pubkey, tokenSource: Pubkey, messageSender: Pubkey)

  datatype SendParams = SendParams(to: Word, amountLd: u64, minAmountLd: u64, composeMsg: Option<Bytes>)

  datatype Sent = Sent(store: Store, peer: Peer, tokens: TokenState, message: Bytes, charge: Charge)

  function ChargeFor(store: Store, peer: Peer, env: Env, amountLd: u64): Result<Charge> {
    ComputeFeeAndAdjustAmount(amountLd, store.oftType, store.rate, store.defaultFeeBps, env.mintFee, peer.feeBps)
  }

  function ConsumeFrom(limiter: Option<Bucket>, clock: i64, amount: u64): Result<Option<Bucket>> {
    match limiter
    case None => Ok(None)
    case Some(bucket) =>
      var after :- bucket.TryConsume(clock, amount);
      Ok(Some(after))
  }

  function RefillInto(limiter: Option<Bucket>, clock: i64, amount: u64): Result<Option<Bucket>> {
    match limiter
    case None => Ok(None)
    case Some(bucket) =>
      var after :- bucket.Refill(clock, amount);
      Ok(Some(after))
  }

  /** Send: spend the outbound allowance and give the inbound one back. */
  function LimitOutbound(peer: Peer, clock: i64, amountLd: u64): Result<Peer> {
    var outbound :- ConsumeFrom(peer.outbound, clock, amountLd);
    var inbound :- RefillInto(peer.inbound, clock, amountLd);
    Ok(peer.(outbound := outbound, inbound := inbound))
  }

  /** Receive: the other way round. */
  function LimitInbound(peer: Peer, clock: i64, amountLd: u64): Result<Peer> {
    var inbound :- ConsumeFrom(peer.inbound, clock, amountLd);
    var outbound :- RefillInto(peer.outbound, clock, amountLd);
    Ok(peer.(inbound := inbound, outbound := outbound))
  }

  datatype Vault = Vault(tvlLd: u64, tokens: TokenState)

  /** Adapter: lock everything sent. Native: burn the delivery and keep the fee. */
  function TakeTokens(store: Store, tokens: TokenState, env: Env, source: Pubkey, charge: Charge): Result<Vault> {
    match store.oftType
    case Adapter =>
      var tvlLd :- Add64(store.tvlLd, charge.receivedLd);
      var locked :- tokens.Transfer(env.mintFee, source, store.tokenEscrow, charge.sentLd);
      Ok(Vault(tvlLd, locked))
    case Native =>
      var burntLd :- Sub64(charge.sentLd, charge.oftFeeLd);
      var burnt :- tokens.Burn(source, burntLd);
      if charge.oftFeeLd == 0 then
        Ok(Vault(store.tvlLd, burnt))
      else
        var paid :- burnt.Transfer(env.mintFee, source, store.tokenEscrow, charge.oftFeeLd);
        Ok(Vault(store.tvlLd, paid))
  }

  function Message(store: Store, accounts: SendAccounts, params: SendParams, receivedLd: u64): Bytes {
    OftCodec.Encode(params.to, Ld2Sd(store.rate, receivedLd), accounts.signer, params.composeMsg)
  }

  function SendCharged(store: Store, peer: Peer, tokens: TokenState, env: Env, accounts: SendAccounts,
          params: SendParams, charge: Charge): Result<Sent>
  {
    if charge.receivedLd < params.minAmountLd then
      Err(SlippageExceeded)
    else
      var peer' :- LimitOutbound(peer, env.clock, charge.receivedLd);
      var vault :- TakeTokens(store, tokens, env, accounts.tokenSource, charge);
      if accounts.messageSender != store.key then
        Err(InvalidSender)
      else
        Ok(Sent(store.(tvlLd := vault.tvlLd), peer', vault.tokens,
                Message(store, accounts, params, charge.receivedLd), charge))
  }

  function Send(store: Store, peer: Peer, tokens: TokenState, env: Env, accounts: SendAccounts,
          params: SendParams): Result<Sent> {
    if !tokens.OwnedBy(accounts.tokenSource, accounts.signer) || !tokens.OwnedBy(store.tokenEscrow, store.key) then
      Err(Abort)
    else if store.paused then
      Err(Paused)
    else
      var charge :- ChargeFor(store, peer, env, params.amountLd);
      SendCharged(store, peer, tokens, env, accounts, params, charge)
  }

  // ----- quote_send -----

  /** The message `quote_send` prices. */
  function QuotedMessage(store: Store, peer: Peer, env: Env, params: SendParams): Result<Bytes> {
    if store.paused then
      Err(Paused)
    else
      var charge :- ChargeFor(store, peer, env, params.amountLd);
      if charge.receivedLd < params.minAmountLd then
        Err(SlippageExceeded)
      else
        Ok(OftCodec.Encode(params.to, charge.receivedLd, ZeroWord(), params.composeMsg))
  }

  // ----- lz_receive -----

  datatype LzReceiveParams = LzReceiveParams(srcEid: u32, sender: Word, nonce: u64, guid: Word, message: Bytes)

  datatype ReceiveAccounts = ReceiveAccounts(toAddress: Pubkey, tokenDest: Pubkey, mintAuthority: Option<Pubkey>)

  datatype ComposeSend = ComposeSend(to: Pubkey, guid: Word, message: Bytes)

  datatype Received = Received(store: Store, peer: Peer, tokens: TokenState, amountLd: u64, amountReceivedLd: u64,
                               compose: Option<ComposeSend>)

  /** Adapter: unlock from the escrow. Native: mint, with nobody's signature but the store's. */
  function ReleaseTokens(store: Store, tokens: TokenState, env: Env, accounts: ReceiveAccounts,
          amountLd: u64): Result<Vault> {
    match store.oftType
    case Adapter =>
      var tvlLd :- Sub64(store.tvlLd, amountLd);
      var unlocked :- tokens.Transfer(env.mintFee, store.tokenEscrow, accounts.tokenDest, amountLd);
      Ok(Vault(tvlLd, unlocked))
    case Native =>
      if accounts.mintAuthority.None? then
        Err(InvalidMintAuthority)
      else
        var minted :- tokens.MintTo(store.key, accounts.tokenDest, amountLd);
        Ok(Vault(store.tvlLd, minted))
  }

  /** The amount that reaches the user: an adapter's unlock pays the token's own fee. */
  function ReachesUser(store: Store, env: Env, amountLd: u64): u64 {
    if store.oftType.Adapter? then Arriving(env.mintFee, amountLd) else amountLd
  }

  /** The account constraints that gate `lz_receive`; the destination account is created if missing. */
  function CheckReceiveAccounts(store: Store, peerAddress: Word, tokens: TokenState, accounts: ReceiveAccounts,
          params: LzReceiveParams): Result<TokenState>
  {
    if peerAddress != params.sender then
      Err(InvalidSender)
    else if !tokens.OwnedBy(store.tokenEscrow, store.key) || OftCodec.SendTo(params.message).None? then
      Err(Abort)
    else if OftCodec.SendTo(params.message).value != accounts.toAddress then
      Err(InvalidTokenDest)
    else
      var prepared :- tokens.Open(accounts.tokenDest, accounts.toAddress);
      if accounts.mintAuthority.Some? && accounts.mintAuthority != tokens.mintAuthority then
        Err(InvalidMintAuthority)
      else
        Ok(prepared)
  }

  function AmountLd(store: Store, params: LzReceiveParams): Result<u64> {
    match OftCodec.AmountSd(params.message)
    case None => Err(Abort)
    case Some(amountSd) => Sd2Ld(store.rate, amountSd)
  }

  function ComposeFor(to: Pubkey, params: LzReceiveParams, amountReceivedLd: u64): Option<ComposeSend> {
    match OftCodec.ComposeMsg(params.message)
    case None => None
    case Some(inner) =>
      Some(ComposeSend(to, params.guid, ComposeCodec.Encode(params.nonce, params.srcEid, amountReceivedLd, inner)))
  }

  function ReceiveAmount(store: Store, peer: Peer, tokens: TokenState, env: Env, accounts: ReceiveAccounts,
          params: LzReceiveParams, amountLd: u64): Result<Received>
  {
    var peer' :- LimitInbound(peer, env.clock, amountLd);
    var vault :- ReleaseTokens(store, tokens, env, accounts, amountLd);
    var receivedLd := ReachesUser(store, env, amountLd);
    Ok(Received(store.(tvlLd := vault.tvlLd), peer', vault.tokens, amountLd, receivedLd,
                ComposeFor(accounts.toAddress, params, receivedLd)))
  }

  function LzReceive(store: Store, peer: Peer, tokens: TokenState, env: Env, accounts: ReceiveAccounts,
          params: LzReceiveParams): Result<Received>
  {
    var prepared :- CheckReceiveAccounts(store, peer.peerAddress, tokens, accounts, params);
    if store.paused then
      Err(Paused)
    else
      var amountLd :- AmountLd(store, params);
      ReceiveAmount(store, peer, prepared, env, accounts, params, amountLd)
  }

  function PredictedLd(store: Store, env: Env, amountLd: u64): Result<u64> {
    if store.oftType.Native? then Ok(amountLd) else GetPostFeeAmountLd(env.mintFee, amountLd)
  }

  /** What `lz_receive_types` expects `lz_receive` to send to the composer. */
  function PredictedCompose(store: Store, env: Env, params: LzReceiveParams): Result<Option<ComposeSend>> {
    if OftCodec.SendTo(params.message).None? then
      Err(Abort)
    else if OftCodec.ComposeMsg(params.message).None? then
      Ok(None)
    else
      var amountLd :- AmountLd(store, params);
      var receivedLd :- PredictedLd(store, env, amountLd);
      Ok(ComposeFor(OftCodec.SendTo(params.message).value, params, receivedLd))
  }

  // ----- administration -----

  function WithdrawFee(store: Store, tokens: TokenState, env: Env, admin: Pubkey, tokenDest: Pubkey,
          feeLd: u64): Result<TokenState> {
    if admin != store.admin then
      Err(Unauthorized)
    else if !tokens.OwnedBy(store.tokenEscrow, store.key) || tokenDest !in tokens.accounts then
      Err(Abort)
    else
      var surplusLd :- Sub64(tokens.Balance(store.tokenEscrow), store.tvlLd);
      if surplusLd < feeLd then
        Err(InvalidFee)
      else
        tokens.Transfer(env.mintFee, store.tokenEscrow, tokenDest, feeLd)
  }

  datatype PeerConfigParam =
    | PeerAddress(peerAddress: Word)
    | FeeBps(feeBps: Option<u16>)
    | OutboundRateLimit(params: Option<RateLimitParams>)
    | InboundRateLimit(params: Option<RateLimitParams>)

  function SetPeerConfig(store: Store, peer: Peer, env: Env, admin: Pubkey, config: PeerConfigParam): Result<Peer> {
    if admin != store.admin then
      Err(Unauthorized)
    else
      match config
      case PeerAddress(peerAddress) => Ok(peer.(peerAddress := peerAddress))
      case FeeBps(feeBps) =>
        if feeBps.Some? && feeBps.value >= ONE_IN_BASIS_POINTS then Err(InvalidFee) else Ok(peer.(feeBps := feeBps))
      case OutboundRateLimit(params) =>
        var outbound :- UpdatedLimiter(peer.outbound, params, env.clock);
        Ok(peer.(outbound := outbound))
      case InboundRateLimit(params) =>
        var inbound :- UpdatedLimiter(peer.inbound, params, env.clock);
        Ok(peer.(inbound := inbound))
  }

  datatype OftConfigParam =
    | Admin(admin: Pubkey)
    | DefaultFee(feeBps: u16)
    | SetPaused(paused: bool)
    | Pauser(pauser: Option<Pubkey>)
    | Unpauser(unpauser: Option<Pubkey>)

  function SetOftConfig(store: Store, admin: Pubkey, config: OftConfigParam): Result<Store> {
    if admin != store.admin then
      Err(Unauthorized)
    else
      match config
      case Admin(newAdmin) => Ok(store.(admin := newAdmin))
      case DefaultFee(feeBps) =>
        if feeBps >= ONE_IN_BASIS_POINTS then Err(InvalidFee) else Ok(store.(defaultFeeBps := feeBps))
      case SetPaused(paused) => Ok(store.(paused := paused))
      case Pauser(pauser) => Ok(store.(pauser := pauser))
      case Unpauser(unpauser) => Ok(store.(unpauser := unpauser))
  }

  function SetPause(store: Store, signer: Pubkey, paused: bool): Result<Store> {
    if (if paused then store.pauser else store.unpauser) == Some(signer) then
      Ok(store.(paused := paused))
    else
      Err(Unauthorized)
  }

  function PowerOfTen(n: nat): (p: nat)
    ensures 1 <= p
  {
    if n == 0 then 1 else 10 * PowerOfTen(n - 1)
  }

  function InitOft(key: Pubkey, oftType: OftType, admin: Pubkey, tokenEscrow: Pubkey, decimals: nat,
          sharedDecimals: nat):
    Result<Store>
  {
    if decimals < sharedDecimals then
      Err(InvalidDecimals)
    else if PowerOfTen(decimals - sharedDecimals) >= U64_LIMIT then
      Err(Abort)
    else
      Ok(Store(key, oftType, PowerOfTen(decimals - sharedDecimals), tokenEscrow, 0, admin, 0, false, None, None))
  }
}
