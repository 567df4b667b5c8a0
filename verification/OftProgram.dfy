/** The OFT program as it runs: instructions that update the accounts they are given in place.
    Each is proved to do to the accounts' contents what its function in `Oft` says. After an error
    nothing is promised of the accounts: the runtime discards the writes of a failed instruction. */
module OftProgram {
  import opened Base
  import opened TransferFees
  import opened Charging
  import opened RateLimits
  import opened Tokens
  import opened Oft
  import opened OftSteps
  import OftCodec
  import ComposeCodec

  /** Token accounts and mint, changed only through the token program. */
  class Bank {
    var tokens: TokenState

    constructor (tokens: TokenState)
      ensures this.tokens == tokens
    {
      this.tokens := tokens;
    }
  }

  class PeerConfig {
    var peerAddress: Word
    var outbound: RateLimiter?
    var inbound: RateLimiter?
    var feeBps: Option<u16>

    ghost predicate Valid()
      reads this
    {
      outbound != null ==> outbound != inbound
    }

    ghost function Repr(): set<object>
      reads this
    {
      {this} + (if outbound == null then {} else {outbound}) + (if inbound == null then {} else {inbound})
    }

    ghost function View(): Peer
      reads Repr()
    {
      Peer(peerAddress,
           if outbound == null then None else Some(outbound.View()),
           if inbound == null then None else Some(inbound.View()),
           feeBps)
    }

    constructor ()
      ensures Valid() && fresh(Repr()) && View() == DefaultPeer()
    {
      peerAddress, outbound, inbound, feeBps := ZeroWord(), null, null, None;
    }

    /** The limiter steps of `send`. */
    method LimitOutbound(clock: i64, amountLd: u64) returns (r: Result<()>)
      requires Valid()
      modifies Repr()
      ensures Valid() && Repr() == old(Repr())
      ensures match Oft.LimitOutbound(old(View()), clock, amountLd)
              case Ok(peer) => r.Ok? && View() == peer
              case Err(e) => r == Err(e)
    {
      if outbound != null {
        var _ :- outbound.TryConsume(clock, amountLd);
      }
      if inbound != null {
        var _ :- inbound.Refill(clock, amountLd);
      }
      return Ok(());
    }

    /** The limiter steps of `lz_receive`. */
    method LimitInbound(clock: i64, amountLd: u64) returns (r: Result<()>)
      requires Valid()
      modifies Repr()
      ensures Valid() && Repr() == old(Repr())
      ensures match Oft.LimitInbound(old(View()), clock, amountLd)
              case Ok(peer) => r.Ok? && View() == peer
              case Err(e) => r == Err(e)
    {
      if inbound != null {
        var _ :- inbound.TryConsume(clock, amountLd);
      }
      if outbound != null {
        var _ :- outbound.Refill(clock, amountLd);
      }
      return Ok(());
    }

    /** `SetPeerConfig::apply` */
    method Configure(store: OftStore, env: Env, admin: Pubkey, config: PeerConfigParam) returns (r: Result<()>)
      requires Valid()
      modifies this
      ensures Valid() && fresh(Repr() - old(Repr()))
      ensures match SetPeerConfig(store.View(), old(View()), env, admin, config)
              case Ok(peer) => r.Ok? && View() == peer
              case Err(e) => r == Err(e)
    {
      if admin != store.admin {
        return Err(Unauthorized);
      }
      match config {
      case PeerAddress(address) =>
        peerAddress := address;
      case FeeBps(bps) =>
        if bps.Some? && bps.value >= ONE_IN_BASIS_POINTS {
          return Err(InvalidFee);
        }
        feeBps := bps;
      case OutboundRateLimit(params) =>
        var limiter :- UpdateRateLimiter(outbound, params, env.clock);
        outbound := limiter;
      case InboundRateLimit(params) =>
        var limiter :- UpdateRateLimiter(inbound, params, env.clock);
        inbound := limiter;
      }
      return Ok(());
    }
  }

  class OftStore {
    const key: Pubkey
    var oftType: OftType
    var rate: Rate
    var tokenEscrow: Pubkey
    var tvlLd: u64
    var admin: Pubkey
    var defaultFeeBps: u16
    var paused: bool
    var pauser: Option<Pubkey>
    var unpauser: Option<Pubkey>

    function View(): Store
      reads this
    {
      Store(key, oftType, rate, tokenEscrow, tvlLd, admin, defaultFeeBps, paused, pauser, unpauser)
    }

    constructor (key: Pubkey)
      ensures this.key == key
    {
      this.key := key;
      oftType, rate, tokenEscrow, tvlLd := Native, 1, key, 0;
      admin, defaultFeeBps, paused, pauser, unpauser := key, 0, false, None, None;
    }

    /** `InitOFT::apply` */
    method Init(oftType: OftType, admin: Pubkey, tokenEscrow: Pubkey, decimals: nat, sharedDecimals: nat)
      returns (r: Result<()>)
      modifies this
      ensures match InitOft(key, oftType, admin, tokenEscrow, decimals, sharedDecimals)
              case Ok(store) => r.Ok? && View() == store
              case Err(e) => r == Err(e)
    {
      this.oftType := oftType;
      if decimals < sharedDecimals {
        return Err(InvalidDecimals);
      }
      var power := PowerOfTen(decimals - sharedDecimals);
      if power >= U64_LIMIT {
        return Err(Abort);
      }
      rate := power;
      this.tokenEscrow := tokenEscrow;
      tvlLd := 0;
      this.admin := admin;
      defaultFeeBps := 0;
      paused := false;
      pauser := None;
      unpauser := None;
      return Ok(());
    }

    /** `SetOFTConfig::apply` */
    method Configure(admin: Pubkey, config: OftConfigParam) returns (r: Result<()>)
      modifies this
      ensures match SetOftConfig(old(View()), admin, config)
              case Ok(store) => r.Ok? && View() == store
              case Err(e) => r == Err(e)
    {
      if admin != this.admin {
        return Err(Unauthorized);
      }
      match config {
      case Admin(newAdmin) =>
        this.admin := newAdmin;
      case DefaultFee(feeBps) =>
        if feeBps >= ONE_IN_BASIS_POINTS {
          return Err(InvalidFee);
        }
        defaultFeeBps := feeBps;
      case SetPaused(newPaused) =>
        paused := newPaused;
      case Pauser(newPauser) =>
        pauser := newPauser;
      case Unpauser(newUnpauser) =>
        unpauser := newUnpauser;
      }
      return Ok(());
    }
  }

  /** `Send::apply`: charge, check slippage, move both buckets, lock or burn, encode. */
  method Send(store: OftStore, peer: PeerConfig, bank: Bank, env: Env, accounts: SendAccounts, params: SendParams)
    returns (r: Result<(Bytes, Charge)>)
    requires peer.Valid()
    modifies store, peer.Repr(), bank
    ensures peer.Valid() && peer.Repr() == old(peer.Repr())
    ensures match Oft.Send(old(store.View()), old(peer.View()), old(bank.tokens), env, accounts, params)
            case Ok(sent) =>
              && r == Ok((sent.message, sent.charge))
              && store.View() == sent.store && peer.View() == sent.peer && bank.tokens == sent.tokens
            case Err(e) => r == Err(e)
    ensures r.Ok? ==> SendPromise(old(store.View()), old(peer.View()), accounts, params, old(bank.tokens), bank.tokens,
                                  r.value.0, r.value.1)
  {
    hide ComputeFeeAndAdjustAmount, OftCodec.Encode, TakeTokens, Oft.LimitOutbound, Ld2Sd, SendPromise;
    SendKeepsPromise(store.View(), peer.View(), bank.tokens, env, accounts, params);
    if !bank.tokens.OwnedBy(accounts.tokenSource, accounts.signer)
        || !bank.tokens.OwnedBy(store.tokenEscrow, store.key) {
      return Err(Abort);
    }
    if store.paused {
      return Err(Paused);
    }
    var charge :- ComputeFeeAndAdjustAmount(params.amountLd, store.oftType, store.rate, store.defaultFeeBps,
                                            env.mintFee, peer.feeBps);
    if charge.receivedLd < params.minAmountLd {
      return Err(SlippageExceeded);
    }
    var _ :- peer.LimitOutbound(env.clock, charge.receivedLd);
    var _ :- LockOrBurn(store, bank, env, accounts.tokenSource, charge);
    if accounts.messageSender != store.key {
      return Err(InvalidSender);
    }
    var amountSd := Ld2Sd(store.rate, charge.receivedLd);
    var message := OftCodec.Encode(params.to, amountSd, accounts.signer, params.composeMsg);
    return Ok((message, charge));
  }

  method LockOrBurn(store: OftStore, bank: Bank, env: Env, source: Pubkey, charge: Charge) returns (r: Result<()>)
    modifies store`tvlLd, bank
    ensures match TakeTokens(old(store.View()), old(bank.tokens), env, source, charge)
            case Ok(vault) => r.Ok? && store.tvlLd == vault.tvlLd && bank.tokens == vault.tokens
            case Err(e) => r == Err(e)
  {
    if store.oftType == Adapter {
      store.tvlLd :- Add64(store.tvlLd, charge.receivedLd);
      bank.tokens :- bank.tokens.Transfer(env.mintFee, source, store.tokenEscrow, charge.sentLd);
    } else {
      var burntLd :- Sub64(charge.sentLd, charge.oftFeeLd);
      bank.tokens :- bank.tokens.Burn(source, burntLd);
      if charge.oftFeeLd > 0 {
        bank.tokens :- bank.tokens.Transfer(env.mintFee, source, store.tokenEscrow, charge.oftFeeLd);
      }
    }
    return Ok(());
  }

  /** `LzReceive::apply`, after the endpoint has cleared the message. */
  method LzReceive(store: OftStore, peer: PeerConfig, bank: Bank, env: Env, accounts: ReceiveAccounts,
          params: LzReceiveParams)
    returns (r: Result<(u64, Option<ComposeSend>)>)
    requires peer.Valid()
    modifies store, peer.Repr(), bank
    ensures peer.Valid() && peer.Repr() == old(peer.Repr())
    ensures match Oft.LzReceive(old(store.View()), old(peer.View()), old(bank.tokens), env, accounts, params)
            case Ok(received) =>
              && r == Ok((received.amountReceivedLd, received.compose))
              && store.View() == received.store && peer.View() == received.peer && bank.tokens == received.tokens
            case Err(e) => r == Err(e)
    ensures r.Ok? ==> ReceivePromise(old(store.View()), old(peer.View()), accounts, params, old(bank.tokens),
                                     bank.tokens, r.value.0)
  {
    hide OftCodec.AmountSd, OftCodec.SendTo, OftCodec.ComposeMsg, ComposeCodec.Encode, ReleaseTokens;
    hide Oft.LimitInbound, CheckReceiveAccounts, Sd2Ld, Arriving, ReceivePromise;
    ReceiveKeepsPromise(store.View(), peer.View(), bank.tokens, env, accounts, params);
    bank.tokens :- CheckReceiveAccounts(store.View(), peer.peerAddress, bank.tokens, accounts, params);
    if store.paused {
      return Err(Paused);
    }
    var amountSd := OftCodec.AmountSd(params.message);
    if amountSd.None? {
      return Err(Abort);
    }
    var amountReceivedLd :- Sd2Ld(store.rate, amountSd.value);
    var _ :- peer.LimitInbound(env.clock, amountReceivedLd);
    var _ :- UnlockOrMint(store, bank, env, accounts, amountReceivedLd);
    if store.oftType == Adapter {
      amountReceivedLd := Arriving(env.mintFee, amountReceivedLd);
    }
    var compose: Option<ComposeSend> := None;
    var inner := OftCodec.ComposeMsg(params.message);
    if inner.Some? {
      var message := ComposeCodec.Encode(params.nonce, params.srcEid, amountReceivedLd, inner.value);
      compose := Some(ComposeSend(accounts.toAddress, params.guid, message));
    }
    return Ok((amountReceivedLd, compose));
  }

  method UnlockOrMint(store: OftStore, bank: Bank, env: Env, accounts: ReceiveAccounts,
          amountLd: u64) returns (r: Result<()>)
    modifies store`tvlLd, bank
    ensures match ReleaseTokens(old(store.View()), old(bank.tokens), env, accounts, amountLd)
            case Ok(vault) => r.Ok? && store.tvlLd == vault.tvlLd && bank.tokens == vault.tokens
            case Err(e) => r == Err(e)
  {
    if store.oftType == Adapter {
      store.tvlLd :- Sub64(store.tvlLd, amountLd);
      bank.tokens :- bank.tokens.Transfer(env.mintFee, store.tokenEscrow, accounts.tokenDest, amountLd);
    } else if accounts.mintAuthority.Some? {
      bank.tokens :- bank.tokens.MintTo(store.key, accounts.tokenDest, amountLd);
    } else {
      return Err(InvalidMintAuthority);
    }
    return Ok(());
  }

  /** `WithdrawFee::apply` */
  method WithdrawFee(store: OftStore, bank: Bank, env: Env, admin: Pubkey, tokenDest: Pubkey,
          feeLd: u64) returns (r: Result<()>)
    modifies bank
    ensures match Oft.WithdrawFee(store.View(), old(bank.tokens), env, admin, tokenDest, feeLd)
            case Ok(tokens) => r.Ok? && bank.tokens == tokens
            case Err(e) => r == Err(e)
    ensures r.Ok? ==> && admin == store.admin && feeLd <= old(bank.tokens.Balance(store.tokenEscrow)) - store.tvlLd
                      && WithdrawPromise(store.View(), env, tokenDest, feeLd, old(bank.tokens), bank.tokens)
  {
    hide WithdrawPromise, Arriving;
    if && bank.tokens.OwnedBy(store.tokenEscrow, store.key)
       && store.tvlLd <= bank.tokens.Balance(store.tokenEscrow) {
      WithdrawFeeIff(store.View(), bank.tokens, env, admin, tokenDest, feeLd);
    }
    if admin != store.admin {
      return Err(Unauthorized);
    }
    if !bank.tokens.OwnedBy(store.tokenEscrow, store.key) || tokenDest !in bank.tokens.accounts {
      return Err(Abort);
    }
    var surplusLd :- Sub64(bank.tokens.Balance(store.tokenEscrow), store.tvlLd);
    if surplusLd < feeLd {
      return Err(InvalidFee);
    }
    bank.tokens :- bank.tokens.Transfer(env.mintFee, store.tokenEscrow, tokenDest, feeLd);
    return Ok(());
  }
}
