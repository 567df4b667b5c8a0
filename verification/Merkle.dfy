/** The reward tree: leaves are hashed twice, inner nodes hash the sorted pair of their children,
    and a claim carries the siblings from the leaf up. The hash is any function to 32 bytes. */
module Merkle {
  import opened Base
  import opened BigEndian
  import Division

  type Hash = Bytes -> Word

  type EvmAddress = a: Bytes | |a| == 20 witness seq(20, _ => 0)

  datatype Claim = Claim(evmAddress: EvmAddress, cumulativeAmount: Word)

  /** `to_bytes32`: leading zeros; longer input panics in the source. */
  function ToBytes32(bytes: Bytes): Word
    requires |bytes| <= 32
  {
    seq(32 - |bytes|, _ => 0) + bytes
  }

  function SolanaToEvmAddress(keccak: Hash, key: Pubkey): EvmAddress {
    keccak(key)[12..32]
  }

  function LeafPreimage(claim: Claim): Bytes {
    ToBytes32(claim.evmAddress) + claim.cumulativeAmount
  }

  function CalculateLeaf(keccak: Hash, claim: Claim): Word {
    keccak(keccak(LeafPreimage(claim)))
  }

  /** An address is the low 20 bytes of the hashed key. */
  lemma AddressIsLowBytes(keccak: Hash, key: Pubkey)
    ensures Value(SolanaToEvmAddress(keccak, key)) == Value(keccak(key)) % Pow256(20)
  {
    hide Value, Pow256;
    var hash := keccak(key);
    assert hash == hash[..12] + hash[12..32];
    ValueOfConcat(hash[..12], hash[12..32]);
    ValueBelowPow(hash[12..32]);
    RemainderOfSum(Value(hash[..12]), Pow256(20), Value(hash[12..32]));
  }

  lemma RemainderOfSum(q: int, d: nat, r: int)
    requires 0 <= r < d
    ensures (q * d + r) % d == r
  {
    Division.QuotientIs(q * d + r, d, q);
  }

  /** A leaf hashes twice the 64 bytes of the address, as a number, and the amount. */
  lemma LeafIsTwiceHashed(keccak: Hash, claim: Claim)
    ensures exists data: Bytes ::
              && |data| == 64 && Value(data[..32]) == Value(claim.evmAddress) && data[32..] == claim.cumulativeAmount
              && CalculateLeaf(keccak, claim) == keccak(keccak(data))
  {
    hide Value, Pow256;
    var data := LeafPreimage(claim);
    assert data[..32] == seq(12, _ => 0) + claim.evmAddress && data[32..] == claim.cumulativeAmount;
    ValueOfZeros(12);
    ValueOfConcat(seq(12, _ => 0), claim.evmAddress);
  }

  function SortedPair(a: Word, b: Word): Bytes {
    if LexLess(a, b) then a + b else b + a
  }

  function HashPair(keccak: Hash, a: Word, b: Word): Word {
    keccak(SortedPair(a, b))
  }

  /** The two in ascending order, as numbers. */
  lemma SmallerComesFirst(a: Word, b: Word)
    ensures var s := SortedPair(a, b);
            && (s == a + b || s == b + a)
            && Value(s[..32]) <= Value(s[32..])
  {
    hide Value;
    var s := SortedPair(a, b);
    LexLessIsNumeric(a, b);
    assert s == a + b ==> s[..32] == a && s[32..] == b;
    assert s == b + a ==> s[..32] == b && s[32..] == a;
  }

  /** `process_proof`: a fold over the siblings. */
  function ProcessProof(keccak: Hash, proof: seq<Word>, leaf: Word): Word {
    if proof == [] then leaf
    else HashPair(keccak, ProcessProof(keccak, proof[..|proof| - 1], leaf), proof[|proof| - 1])
  }

  /** The first sibling of a proof is the leaf's own: the fold starts at the leaf. */
  lemma {:induction false} FoldStartsAtLeaf(keccak: Hash, sibling: Word, proof: seq<Word>, leaf: Word)
    ensures ProcessProof(keccak, [sibling] + proof, leaf)
         == ProcessProof(keccak, proof, keccak(SortedPair(leaf, sibling)))
  {
    var whole := [sibling] + proof;
    if proof == [] {
      assert whole[..|whole| - 1] == [];
    } else {
      assert whole[..|whole| - 1] == [sibling] + proof[..|proof| - 1];
      FoldStartsAtLeaf(keccak, sibling, proof[..|proof| - 1], leaf);
    }
  }

  datatype Tree = Leaf(claim: Claim) | Node(left: Tree, right: Tree)

  function Root(keccak: Hash, tree: Tree): Word {
    match tree
    case Leaf(claim) => CalculateLeaf(keccak, claim)
    case Node(left, right) => HashPair(keccak, Root(keccak, left), Root(keccak, right))
  }

  predicate Contains(tree: Tree, claim: Claim) {
    match tree
    case Leaf(c) => c == claim
    case Node(left, right) => Contains(left, claim) || Contains(right, claim)
  }

  /** The siblings along a path from the root, listed from the leaf up. */
  function SiblingsAlong(keccak: Hash, tree: Tree, path: seq<bool>): (r: Option<(Claim, seq<Word>)>)
    decreases tree
  {
    match tree
    case Leaf(claim) => if path == [] then Some((claim, [])) else None
    case Node(left, right) =>
      if path == [] then None
      else
        var next := if path[0] then left else right;
        var other := if path[0] then right else left;
        match SiblingsAlong(keccak, next, path[1..])
        case None => None
        case Some((claim, siblings)) => Some((claim, siblings + [Root(keccak, other)]))
  }

  lemma SortedPairCommutes(a: Word, b: Word)
    ensures SortedPair(a, b) == SortedPair(b, a)
  {
    LexLessIsNumeric(a, b);
    LexLessIsNumeric(b, a);
  }

  /** Completeness: for every leaf of every tree, folding its siblings gives the root, whichever
      side each sibling is on. */
  lemma {:induction false} SiblingsProveLeaf(keccak: Hash, tree: Tree, path: seq<bool>)
    ensures var r := SiblingsAlong(keccak, tree, path);
            r.Some? ==> Contains(tree, r.value.0)
                        && ProcessProof(keccak, r.value.1, CalculateLeaf(keccak, r.value.0)) == Root(keccak, tree)
    decreases tree
  {
    var r := SiblingsAlong(keccak, tree, path);
    if r.Some? && tree.Node? {
      var next := if path[0] then tree.left else tree.right;
      var other := if path[0] then tree.right else tree.left;
      SiblingsProveLeaf(keccak, next, path[1..]);
      var siblings := r.value.1;
      assert siblings[..|siblings| - 1] == SiblingsAlong(keccak, next, path[1..]).value.1;
      SortedPairCommutes(Root(keccak, tree.left), Root(keccak, tree.right));
    }
  }

  /** Every claim of the tree lies at the end of some path. */
  lemma {:induction false} PathToClaim(keccak: Hash, tree: Tree, claim: Claim) returns (path: seq<bool>)
    requires Contains(tree, claim)
    ensures SiblingsAlong(keccak, tree, path).Some? && SiblingsAlong(keccak, tree, path).value.0 == claim
    decreases tree
  {
    match tree
    case Leaf(_) =>
      path := [];
    case Node(left, right) =>
      var goLeft := Contains(left, claim);
      var rest := PathToClaim(keccak, if goLeft then left else right, claim);
      path := [goLeft] + rest;
      assert path[1..] == rest;
  }

  /** So every claim of the tree has a proof that is accepted. */
  lemma ContainedClaimHasProof(keccak: Hash, tree: Tree, claim: Claim) returns (proof: seq<Word>)
    requires Contains(tree, claim)
    ensures ProcessProof(keccak, proof, CalculateLeaf(keccak, claim)) == Root(keccak, tree)
  {
    var path := PathToClaim(keccak, tree, claim);
    SiblingsProveLeaf(keccak, tree, path);
    proof := SiblingsAlong(keccak, tree, path).value.1;
  }

  /** Everything the tree's construction fed to the hash. */
  function TreePreimages(keccak: Hash, tree: Tree): seq<Bytes> {
    match tree
    case Leaf(claim) => [LeafPreimage(claim), keccak(LeafPreimage(claim))]
    case Node(left, right) =>
      TreePreimages(keccak, left) + TreePreimages(keccak, right) + [SortedPair(Root(keccak, left), Root(keccak, right))]
  }

  /** Everything checking the proof feeds to the hash. */
  function ProofPreimages(keccak: Hash, proof: seq<Word>, claim: Claim): seq<Bytes> {
    if proof == [] then [LeafPreimage(claim), keccak(LeafPreimage(claim))]
    else
      var front := proof[..|proof| - 1];
      ProofPreimages(keccak, front, claim)
      + [SortedPair(ProcessProof(keccak, front, CalculateLeaf(keccak, claim)), proof[|proof| - 1])]
  }

  /** Two different inputs with one hash, one from each list. Some collision always exists for a
      32-byte hash; this one is among finitely many inputs that were actually hashed. */
  ghost predicate CollisionBetween(keccak: Hash, xs: seq<Bytes>, ys: seq<Bytes>) {
    exists x, y :: x in xs && y in ys && x != y && keccak(x) == keccak(y)
  }

  lemma LeafPreimageInjective(a: Claim, b: Claim)
    requires LeafPreimage(a) == LeafPreimage(b)
    ensures a == b
  {
    assert a.evmAddress == LeafPreimage(a)[12..32] && a.cumulativeAmount == LeafPreimage(a)[32..64];
    assert b.evmAddress == LeafPreimage(b)[12..32] && b.cumulativeAmount == LeafPreimage(b)[32..64];
  }

  lemma SortedPairMembers(a: Word, b: Word, c: Word, d: Word)
    requires SortedPair(a, b) == SortedPair(c, d)
    ensures a == c || a == d
  {
    var s := SortedPair(a, b);
    assert s[..32] == (if LexLess(a, b) then a else b) && s[32..] == (if LexLess(a, b) then b else a);
    assert s[..32] == (if LexLess(c, d) then c else d) && s[32..] == (if LexLess(c, d) then d else c);
  }

  lemma WidenCollision(keccak: Hash, xs: seq<Bytes>, ys: seq<Bytes>, xs': seq<Bytes>, ys': seq<Bytes>)
    requires CollisionBetween(keccak, xs, ys)
    requires (forall x :: x in xs ==> x in xs') && (forall y :: y in ys ==> y in ys')
    ensures CollisionBetween(keccak, xs', ys')
  {
  }

  /** Soundness: a proof that folds to the root of a tree proves a claim of that tree, or checking it
      has hashed an input that collides with one the tree was built from. A leaf's outer input has
      32 bytes and an inner node's 64, so a proof cannot stop at an inner node. */
  lemma {:induction false} ProofIsSound(keccak: Hash, tree: Tree, proof: seq<Word>, claim: Claim)
    requires ProcessProof(keccak, proof, CalculateLeaf(keccak, claim)) == Root(keccak, tree)
    ensures Contains(tree, claim)
         || CollisionBetween(keccak, ProofPreimages(keccak, proof, claim), TreePreimages(keccak, tree))
    decreases |proof|
  {
    var xs, ys := ProofPreimages(keccak, proof, claim), TreePreimages(keccak, tree);
    var x, y := xs[|xs| - 1], ys[|ys| - 1];
    assert x in xs && y in ys && keccak(x) == keccak(y);
    if x == y {
      match tree
      case Leaf(other) =>
        assert proof == [];
        var x', y' := xs[0], ys[0];
        assert x' in xs && y' in ys && keccak(x') == keccak(y');
        if x' == y' {
          LeafPreimageInjective(claim, other);
        }
      case Node(left, right) =>
        assert |x| == 64;
        var front := proof[..|proof| - 1];
        var folded := ProcessProof(keccak, front, CalculateLeaf(keccak, claim));
        SortedPairMembers(folded, proof[|proof| - 1], Root(keccak, left), Root(keccak, right));
        var child := if folded == Root(keccak, left) then left else right;
        ProofIsSound(keccak, child, front, claim);
        if !Contains(tree, claim) {
          WidenCollision(keccak, ProofPreimages(keccak, front, claim), TreePreimages(keccak, child), xs, ys);
        }
    }
  }
}
