/** The token program as the bridge sees it: balances, owners, supply and the transfer fee. */
module Tokens {
  import opened Base
  import opened TransferFees
  import opened Charging

  type MintFee = f: Option<TransferFee> | Honest(f) witness None

  datatype TokenAccount = TokenAccount(owner: Pubkey, amount: u64)

  /** A multisig account: `quorum` of its signers must sign together. */
  datatype Multisig = Multisig(quorum: nat, signers: set<Pubkey>)

  datatype TokenState = TokenState(
    accounts: map<Pubkey, TokenAccount>,
    supply: u64,
    mintAuthority: Option<Pubkey>,
    multisigs: map<Pubkey, Multisig>)
  {

    function Balance(key: Pubkey): u64 {
      if key in accounts then accounts[key].amount else 0
    }

    predicate OwnedBy(key: Pubkey, owner: Pubkey) {
      key in accounts && accounts[key].owner == owner
    }

    function WithBalance(key: Pubkey, amount: u64): TokenState
      requires key in accounts
    {
      this.(accounts := accounts[key := accounts[key].(amount := amount)])
    }

    /** `transfer_checked`: the fee is withheld from what arrives; a self-transfer moves nothing. */
    function Transfer(mintFee: MintFee, from: Pubkey, to: Pubkey, amount: u64): Result<TokenState> {
      if from !in accounts || to !in accounts || accounts[from].amount < amount then
        Err(Abort)
      else if from == to then
        Ok(this)
      else
        var credited :- Add64(accounts[to].amount, Arriving(mintFee, amount));
        Ok(WithBalance(from, accounts[from].amount - amount).WithBalance(to, credited))
    }

    function Burn(from: Pubkey, amount: u64): Result<TokenState> {
      if from !in accounts || accounts[from].amount < amount then
        Err(Abort)
      else
        var left :- Sub64(supply, amount);
        Ok(WithBalance(from, accounts[from].amount - amount).(supply := left))
    }

    /** Whether `signer` can mint by itself: it is the mint authority, or that is a multisig which is
        content with any one of its signers and has it among them. */
    predicate MintsAlone(signer: Pubkey) {
      && mintAuthority.Some?
      && var authority := mintAuthority.value;
         if authority in multisigs then
           multisigs[authority].quorum == 1 && signer in multisigs[authority].signers
         else
           authority == signer
    }

    /** `mint_to`, signed by `signer` alone. */
    function MintTo(signer: Pubkey, to: Pubkey, amount: u64): Result<TokenState> {
      if MintsAlone(signer) then Issue(to, amount) else Err(Abort)
    }

    function Issue(to: Pubkey, amount: u64): Result<TokenState> {
      if to !in accounts then
        Err(Abort)
      else
        var issued :- Add64(supply, amount);
        var credited :- Add64(accounts[to].amount, amount);
        Ok(WithBalance(to, credited).(supply := issued))
    }

    /** `init_if_needed`: an existing account must already belong to `owner`. */
    function Open(key: Pubkey, owner: Pubkey): Result<TokenState> {
      if key !in accounts then
        Ok(this.(accounts := accounts[key := TokenAccount(owner, 0)]))
      else if accounts[key].owner == owner then
        Ok(this)
      else
        Err(Abort)
    }
  }
}
