/**
  The block tree every backend of an RPC gateway answers from.

  A block hash fixes the block's header, its transactions and their receipts, so the tree maps hashes to
  headers.  It holds every block of every fork; `Ancestor` picks out one chain.  A transaction's hash is
  identified with the signed transaction itself.
 */
module Ledger {
  type Hash = nat
  type Address = nat
  type Bytes = seq<bv8>

  /** A signed legacy transaction; `v` carries the chain ID (EIP-155). */
  datatype Tx = Tx(signer: Address, nonce: nat, gasPrice: nat, gas: nat, to: Address, value: nat, data: Bytes, v: nat)

  datatype Header = Header(number: nat, parent: Hash, txs: seq<Tx>, bloom: Bytes)

  type Tree = map<Hash, Header>

  ghost predicate Linked(t: Tree) {
    forall h :: h in t && t[h].number > 0 ==> t[h].parent in t && t[t[h].parent].number + 1 == t[h].number
  }

  /** The block at height `n` on the chain that ends in `h`. */
  ghost function AncestorAt(t: Tree, h: Hash, n: nat): (a: Hash)
    requires Linked(t) && h in t && n <= t[h].number
    ensures a in t && t[a].number == n
    decreases t[h].number
  {
    if n == t[h].number then h else AncestorAt(t, t[h].parent, n)
  }

  ghost predicate Ancestor(t: Tree, a: Hash, h: Hash)
    requires Linked(t)
  {
    a in t && h in t && t[a].number <= t[h].number && AncestorAt(t, h, t[a].number) == a
  }

  lemma {:induction false} AncestorAtComposes(t: Tree, h: Hash, m: nat, n: nat)
    requires Linked(t) && h in t && n <= m <= t[h].number
    ensures AncestorAt(t, AncestorAt(t, h, m), n) == AncestorAt(t, h, n)
    decreases t[h].number
  {
    if m != t[h].number {
      AncestorAtComposes(t, t[h].parent, m, n);
    }
  }

  lemma AncestorTransitive(t: Tree, a: Hash, b: Hash, c: Hash)
    requires Linked(t) && Ancestor(t, a, b) && Ancestor(t, b, c)
    ensures Ancestor(t, a, c)
  {
    AncestorAtComposes(t, c, t[b].number, t[a].number);
  }

  /**
    Whether a block at or below a finalized block is on its chain does not change when finality
    advances from `f` to `later`.
   */
  lemma AncestryIsStable(t: Tree, b: Hash, f: Hash, later: Hash)
    requires Linked(t) && Ancestor(t, f, later) && b in t && t[b].number <= t[f].number
    ensures Ancestor(t, b, f) <==> Ancestor(t, b, later)
  {
    AncestorAtComposes(t, later, t[f].number, t[b].number);
  }

  // ---- Account nonces --------------------------------------------------------------------------------

  ghost function CountOf(txs: seq<Tx>, key: Address): nat {
    if txs == [] then 0 else CountOf(txs[..|txs| - 1], key) + if txs[|txs| - 1].signer == key then 1 else 0
  }

  /** How many transactions of `key` the chain below block `h` holds. */
  ghost function NonceBefore(t: Tree, h: Hash, key: Address): nat
    requires Linked(t) && h in t
    decreases t[h].number, 0
  {
    if t[h].number == 0 then 0 else NonceAt(t, t[h].parent, key)
  }

  /** The account nonce of `key` in the state of block `h`. */
  ghost function NonceAt(t: Tree, h: Hash, key: Address): nat
    requires Linked(t) && h in t
    decreases t[h].number, 1
  {
    NonceBefore(t, h, key) + CountOf(t[h].txs, key)
  }

  /** The chain rule: a transaction enters a block only at its sender's next nonce. */
  ghost predicate NoncesInOrder(t: Tree)
    requires Linked(t)
  {
    forall h, i :: h in t && 0 <= i < |t[h].txs| ==>
      t[h].txs[i].nonce == NonceBefore(t, h, t[h].txs[i].signer) + CountOf(t[h].txs[..i], t[h].txs[i].signer)
  }

  ghost predicate ValidTree(t: Tree) {
    Linked(t) && NoncesInOrder(t)
  }

  /** The transaction is in a block of the chain that ends in `h`. */
  ghost predicate Mined(t: Tree, h: Hash, tx: Tx)
    requires Linked(t) && h in t
  {
    exists n: nat :: n <= t[h].number && tx in t[AncestorAt(t, h, n)].txs
  }

  lemma {:induction false} CountGrows(txs: seq<Tx>, i: nat, key: Address)
    requires i <= |txs|
    ensures CountOf(txs[..i], key) <= CountOf(txs, key)
    ensures i < |txs| && txs[i].signer == key ==> CountOf(txs[..i], key) < CountOf(txs, key)
    decreases |txs|
  {
    if i < |txs| {
      var init := txs[..|txs| - 1];
      assert init[..i] == txs[..i];
      CountGrows(init, i, key);
    } else {
      assert txs[..i] == txs;
    }
  }

  lemma {:induction false} CountSeparates(txs: seq<Tx>, i: nat, j: nat, key: Address)
    requires i < j < |txs| && txs[i].signer == key
    ensures CountOf(txs[..i], key) < CountOf(txs[..j], key)
  {
    assert txs[..j][..i] == txs[..i];
    CountGrows(txs[..j], i, key);
  }

  lemma {:induction false} NonceGrows(t: Tree, h: Hash, n: nat, key: Address)
    requires Linked(t) && h in t && n <= t[h].number
    ensures NonceAt(t, AncestorAt(t, h, n), key) <= NonceAt(t, h, key)
    ensures n < t[h].number ==> NonceAt(t, AncestorAt(t, h, n), key) <= NonceBefore(t, h, key)
    decreases t[h].number
  {
    if n != t[h].number {
      NonceGrows(t, t[h].parent, n, key);
    }
  }

  lemma BlockNonces(t: Tree, h: Hash, tx: Tx)
    requires ValidTree(t) && h in t && tx in t[h].txs
    ensures NonceBefore(t, h, tx.signer) <= tx.nonce < NonceAt(t, h, tx.signer)
  {
    var i :| 0 <= i < |t[h].txs| && t[h].txs[i] == tx;
    CountGrows(t[h].txs, i, tx.signer);
  }

  /** A mined transaction has used its nonce. */
  lemma MinedUsesNonce(t: Tree, h: Hash, tx: Tx)
    requires ValidTree(t) && h in t && Mined(t, h, tx)
    ensures tx.nonce < NonceAt(t, h, tx.signer)
  {
    var n: nat :| n <= t[h].number && tx in t[AncestorAt(t, h, n)].txs;
    BlockNonces(t, AncestorAt(t, h, n), tx);
    NonceGrows(t, h, n, tx.signer);
  }

  lemma SameBlockSameNonce(t: Tree, h: Hash, a: Tx, b: Tx)
    requires ValidTree(t) && h in t && a in t[h].txs && b in t[h].txs
    requires a.signer == b.signer && a.nonce == b.nonce
    ensures a == b
  {
    var i :| 0 <= i < |t[h].txs| && t[h].txs[i] == a;
    var j :| 0 <= j < |t[h].txs| && t[h].txs[j] == b;
    if i < j {
      CountSeparates(t[h].txs, i, j, a.signer);
    } else if j < i {
      CountSeparates(t[h].txs, j, i, a.signer);
    }
  }

  lemma LowerBlockLowerNonce(t: Tree, h: Hash, m: nat, n: nat, a: Tx, b: Tx)
    requires ValidTree(t) && h in t && m < n <= t[h].number && a.signer == b.signer
    requires a in t[AncestorAt(t, h, m)].txs && b in t[AncestorAt(t, h, n)].txs
    ensures a.nonce < b.nonce
  {
    var hi := AncestorAt(t, h, n);
    AncestorAtComposes(t, h, n, m);
    BlockNonces(t, AncestorAt(t, h, m), a);
    BlockNonces(t, hi, b);
    NonceGrows(t, hi, m, a.signer);
  }

  /** A nonce is mined at most once on a chain. */
  lemma MinedOncePerNonce(t: Tree, h: Hash, a: Tx, b: Tx)
    requires ValidTree(t) && h in t && Mined(t, h, a) && Mined(t, h, b)
    requires a.signer == b.signer && a.nonce == b.nonce
    ensures a == b
  {
    var m: nat :| m <= t[h].number && a in t[AncestorAt(t, h, m)].txs;
    var n: nat :| n <= t[h].number && b in t[AncestorAt(t, h, n)].txs;
    if m < n {
      LowerBlockLowerNonce(t, h, m, n, a, b);
    } else if n < m {
      LowerBlockLowerNonce(t, h, n, m, b, a);
    } else {
      SameBlockSameNonce(t, AncestorAt(t, h, m), a, b);
    }
  }

  /** Above a block whose state has used a nonce, no transaction at that nonce can be mined any more. */
  lemma UsedNonceIsClosed(t: Tree, f: Hash, h: Hash, tx: Tx)
    requires ValidTree(t) && Ancestor(t, f, h) && tx.nonce < NonceAt(t, f, tx.signer)
    requires Mined(t, h, tx)
    ensures Mined(t, f, tx)
  {
    var n: nat :| n <= t[h].number && tx in t[AncestorAt(t, h, n)].txs;
    var b := AncestorAt(t, h, n);
    if n > t[f].number {
      BlockNonces(t, b, tx);
      AncestorAtComposes(t, h, n, t[f].number);
      NonceGrows(t, b, t[f].number, tx.signer);
    } else {
      AncestorAtComposes(t, h, t[f].number, n);
    }
  }
}
