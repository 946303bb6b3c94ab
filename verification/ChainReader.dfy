/**
  Reading the finalized chain through a gateway that may answer each read from another backend.

  A backend can lag, can be on another fork or can answer nothing, but a block it answers is a block of the
  tree: the hash in the answer fixes the other fields.
 */
module ChainReader {
  import opened Common
  import opened Ledger

  const RECEIPT_TIMEOUT_SEC: nat := 300
  const RECEIPT_POLL_SEC: nat := 2

  /** A block as JSON-RPC answers it; a backend may leave out the transaction list or the bloom. */
  datatype Block = Block(hash: Hash, number: nat, parentHash: Hash, txs: Option<seq<Tx>>, bloom: Option<Bytes>)

  datatype Rpc<T> = Answer(value: T) | ReadError

  /**
    The answers one walk gets: `block(n)` to its read of block number n, and `refused(high)` when the batch
    whose first read is block `high` fails as a whole.  A walk reads each number at most once.
   */
  datatype Reads = Reads(block: nat -> Option<Block>, refused: nat -> bool)

  type Chain = map<nat, Block>

  ghost predicate Honest(t: Tree, b: Block) {
    b.hash in t && b.number == t[b.hash].number && b.parentHash == t[b.hash].parent &&
    (b.txs.Some? ==> b.txs.value == t[b.hash].txs) && (b.bloom.Some? ==> b.bloom.value == t[b.hash].bloom)
  }

  ghost predicate HonestReads(t: Tree, rpc: Reads) {
    forall n: nat :: rpc.block(n).Some? ==> Honest(t, rpc.block(n).value)
  }

  /** The walk one block at a time: block `n` must have the hash the block above names as its parent. */
  function Walk(rpc: Reads, chain: Chain, parent: Hash, n: int, lowest: nat): Option<Chain>
    decreases n
  {
    if n < lowest then Some(chain)
    else match rpc.block(n)
      case None => Some(chain)
      case Some(b) =>
        if b.hash != parent || b.number != n then None
        else Walk(rpc, chain[n := b], b.parentHash, n - 1, lowest)
  }

  function WalkDown(rpc: Reads, top: Block, lowest: nat): Option<Chain> {
    Walk(rpc, map[top.number := top], top.parentHash, top.number - 1, lowest)
  }

  function Max(a: int, b: int): int { if a < b then b else a }

  /** A batch fails only when the gateway refuses it. */
  ghost predicate SomeBatchRefused(rpc: Reads, top: nat, lowest: nat) {
    exists high: nat :: lowest <= high < top && rpc.refused(high)
  }

  /** `_chain_down_to` in batches of any size is the walk one block at a time. */
  method ChainDownTo(rpc: Reads, finalized: Block, lowest: nat, batch: nat) returns (r: Rpc<Option<Chain>>)
    requires batch > 0
    ensures r.Answer? ==> r.value == WalkDown(rpc, finalized, lowest)
    ensures r.ReadError? ==> SomeBatchRefused(rpc, finalized.number, lowest)
  {
    var chain: Chain := map[finalized.number := finalized];
    var parent := finalized.parentHash;
    var top: int := finalized.number;
    var high := top - 1;
    while high >= lowest
      invariant high < top
      invariant WalkDown(rpc, finalized, lowest) == Walk(rpc, chain, parent, high, lowest)
    {
      if rpc.refused(high) {
        return ReadError;
      }
      var stop := Max(high - batch, lowest - 1);
      var number := high;
      while number > stop
        invariant stop <= number <= high
        invariant WalkDown(rpc, finalized, lowest) == Walk(rpc, chain, parent, number, lowest)
      {
        match rpc.block(number)
        case None =>
          return Answer(Some(chain));
        case Some(block) =>
          if block.hash != parent || block.number != number {
            return Answer(None);
          }
          chain := chain[number := block];
          parent := block.parentHash;
        number := number - 1;
      }
      high := high - batch;
    }
    return Answer(Some(chain));
  }

  // ---- What a walk proves ----------------------------------------------------------------------------

  /** `chain` holds exactly the blocks from height `low` to `f`'s own height on the chain that ends in `f`. */
  ghost predicate IsChainOf(t: Tree, f: Hash, chain: Chain, low: nat)
    requires Linked(t) && f in t
  {
    low <= t[f].number &&
    forall n: nat :: (n in chain <==> low <= n <= t[f].number) &&
      (n in chain ==> Honest(t, chain[n]) && chain[n].hash == AncestorAt(t, f, n))
  }

  /** The range stops at `lowest` or just above a block the gateway did not answer. */
  ghost predicate EndsAt(rpc: Reads, low: nat, lowest: nat) {
    lowest <= low && (lowest < low ==> rpc.block(low - 1).None?)
  }

  ghost predicate IsWindow(t: Tree, f: Hash, rpc: Reads, chain: Chain, lowest: nat)
    requires Linked(t) && f in t
  {
    exists low: nat :: IsChainOf(t, f, chain, low) && EndsAt(rpc, low, lowest)
  }

  lemma {:induction false} WalkStaysOnChain(t: Tree, f: Hash, rpc: Reads, chain: Chain, n: int, lowest: nat)
    requires Linked(t) && f in t && HonestReads(t, rpc)
    requires -1 <= n < t[f].number && lowest <= n + 1 && IsChainOf(t, f, chain, n + 1)
    ensures var r := Walk(rpc, chain, chain[n + 1].parentHash, n, lowest);
      r.Some? ==> IsWindow(t, f, rpc, r.value, lowest)
    decreases n
  {
    if n < lowest {
      assert IsChainOf(t, f, chain, lowest) && EndsAt(rpc, lowest, lowest);
    } else if rpc.block(n).None? {
      assert IsChainOf(t, f, chain, n + 1) && EndsAt(rpc, n + 1, lowest);
    } else {
      var b := rpc.block(n).value;
      var parent := chain[n + 1].parentHash;
      if b.hash == parent && b.number == n {
        ParentIsAncestor(t, f, n);
        WalkStaysOnChain(t, f, rpc, chain[n := b], n - 1, lowest);
      }
    }
  }

  lemma ParentIsAncestor(t: Tree, f: Hash, n: nat)
    requires Linked(t) && f in t && n < t[f].number
    ensures t[AncestorAt(t, f, n + 1)].parent == AncestorAt(t, f, n)
  {
    AncestorAtComposes(t, f, n + 1, n);
  }

  /**
    Whichever backend answered each read, a walk that returns blocks returns a contiguous range of the
    chain below the finalized block, down to `lowest` or to just above a block nobody answered.
   */
  lemma WalkSound(t: Tree, rpc: Reads, top: Block, lowest: nat)
    requires Linked(t) && Honest(t, top) && HonestReads(t, rpc) && lowest <= top.number
    ensures var r := WalkDown(rpc, top, lowest);
      r.Some? ==> IsWindow(t, top.hash, rpc, r.value, lowest)
  {
    var chain: Chain := map[top.number := top];
    assert IsChainOf(t, top.hash, chain, top.number);
    WalkStaysOnChain(t, top.hash, rpc, chain, top.number - 1, lowest);
  }

  /** Every read in the range is answered with the block on the chain that ends in `f`. */
  ghost predicate AnswersChain(t: Tree, rpc: Reads, f: Hash, lowest: nat)
    requires Linked(t) && f in t
  {
    forall n: nat :: lowest <= n < t[f].number ==>
      rpc.block(n).Some? && Honest(t, rpc.block(n).value) && rpc.block(n).value.hash == AncestorAt(t, f, n)
  }

  lemma {:induction false} WalkReaches(t: Tree, f: Hash, rpc: Reads, chain: Chain, n: int, lowest: nat, kept: nat)
    requires Linked(t) && f in t && AnswersChain(t, rpc, f, kept) && EndsAt(rpc, kept, lowest)
    requires -1 <= n < t[f].number && kept <= n + 1 && IsChainOf(t, f, chain, n + 1)
    ensures var r := Walk(rpc, chain, chain[n + 1].parentHash, n, lowest);
      r.Some? && IsChainOf(t, f, r.value, kept)
    decreases n
  {
    if n >= kept {
      ParentIsAncestor(t, f, n);
      WalkReaches(t, f, rpc, chain[n := rpc.block(n).value], n - 1, lowest, kept);
    }
  }

  /** A walk whose reads reach the finalized chain down to `kept` returns exactly that range. */
  lemma WalkComplete(t: Tree, rpc: Reads, top: Block, lowest: nat, kept: nat)
    requires Linked(t) && Honest(t, top) && kept <= top.number && EndsAt(rpc, kept, lowest)
    requires AnswersChain(t, rpc, top.hash, kept)
    ensures WalkDown(rpc, top, lowest).Some? && IsChainOf(t, top.hash, WalkDown(rpc, top, lowest).value, kept)
  {
    var chain: Chain := map[top.number := top];
    assert IsChainOf(t, top.hash, chain, top.number);
    WalkReaches(t, top.hash, rpc, chain, top.number - 1, lowest, kept);
  }

  /** Two walks from two finalized blocks of one chain agree on every height both return. */
  lemma WalksAgree(t: Tree, f1: Hash, f2: Hash, chain1: Chain, chain2: Chain, low1: nat, low2: nat, n: nat)
    requires Linked(t) && Ancestor(t, f1, f2)
    requires IsChainOf(t, f1, chain1, low1) && IsChainOf(t, f2, chain2, low2)
    requires n in chain1 && n in chain2
    ensures chain1[n].hash == chain2[n].hash && chain1[n].parentHash == chain2[n].parentHash
  {
    AncestorAtComposes(t, f2, t[f1].number, n);
  }

  // ---- The finality verdict on a receipt -------------------------------------------------------------

  datatype Receipt = Receipt(tx: Tx, blockHash: Hash, blockNumber: nat, status: nat, started: seq<nat>)

  /** A receipt names a block that holds the transaction. */
  ghost predicate HonestReceipt(t: Tree, r: Receipt) {
    r.blockHash in t && r.blockNumber == t[r.blockHash].number && r.tx in t[r.blockHash].txs
  }

  /** One pass of the wait for finality: the finalized block answered, the walk below it, the time it took. */
  datatype Poll = Poll(finalized: Rpc<Option<Block>>, rpc: Reads, seconds: nat)

  /** Each finalized block a backend answers is `fin` or one that was final before it. */
  ghost predicate HonestPoll(t: Tree, fin: Hash, p: Poll)
    requires Linked(t)
  {
    HonestReads(t, p.rpc) &&
    (p.finalized.Answer? && p.finalized.value.Some? ==>
       Honest(t, p.finalized.value.value) && Ancestor(t, p.finalized.value.value.hash, fin))
  }

  datatype Verdict = OnChain | Orphaned | Unknown(why: Reason)
  datatype Reason = Unread | MoreThanOneChain | NotFinalYet | BlockNotKept

  /** The seconds that have passed when poll `i` is answered. */
  function Elapsed(polls: nat -> Poll, i: nat): nat {
    polls(i).seconds + if i == 0 then 0 else Elapsed(polls, i - 1) + RECEIPT_POLL_SEC
  }

  /** The finalized block answered is still below the receipt's. */
  predicate StillBelow(receipt: Receipt, p: Poll) {
    p.finalized.Answer? && (p.finalized.value.Some? ==> p.finalized.value.value.number < receipt.blockNumber)
  }

  /** The wait goes on to poll `i`: before it finality had not come, and there was time left. */
  ghost predicate WaitsTo(receipt: Receipt, polls: nat -> Poll, i: nat) {
    forall j: nat :: j < i ==> StillBelow(receipt, polls(j)) && Elapsed(polls, j) < RECEIPT_TIMEOUT_SEC
  }

  /**
    `_finalized_on_chain`.  A verdict is the truth about the finalized chain, and so the same for every later
    finalized block; an answer that cannot be trusted is never a verdict; and the first poll that reaches the
    receipt's block on the finalized chain gives one.
   */
  method FinalizedOnChain(ghost t: Tree, ghost fin: Hash, receipt: Receipt, polls: nat -> Poll, batch: nat)
    returns (v: Verdict)
    requires Linked(t) && fin in t && HonestReceipt(t, receipt) && batch > 0
    requires forall i: nat :: HonestPoll(t, fin, polls(i))
    ensures forall later :: Ancestor(t, fin, later) ==>
      (v.OnChain? ==> Ancestor(t, receipt.blockHash, later)) && (v.Orphaned? ==> !Ancestor(t, receipt.blockHash, later))
    ensures forall i: nat :: WaitsTo(receipt, polls, i) && PollSettles(t, receipt, polls(i)) ==> !v.Unknown?
    ensures v == Unknown(NotFinalYet) ==>
      exists i: nat :: WaitsTo(receipt, polls, i) && StillBelow(receipt, polls(i)) &&
                       Elapsed(polls, i) >= RECEIPT_TIMEOUT_SEC
  {
    var now := 0;
    var i: nat := 0;
    while true
      invariant WaitsTo(receipt, polls, i)
      invariant now == if i == 0 then 0 else Elapsed(polls, i - 1) + RECEIPT_POLL_SEC
      decreases RECEIPT_TIMEOUT_SEC - now
    {
      var poll := polls(i);
      if poll.finalized.ReadError? {
        return Unknown(Unread);
      }
      var finalized := poll.finalized.value;
      now := now + poll.seconds;
      if finalized.Some? && finalized.value.number >= receipt.blockNumber {
        v := PollVerdict(t, fin, receipt, poll, batch);
        return;
      }
      if now >= RECEIPT_TIMEOUT_SEC {
        return Unknown(NotFinalYet);
      }
      now := now + RECEIPT_POLL_SEC;
      i := i + 1;
    }
  }

  /** The verdict once the finalized block answered is at or above the receipt's. */
  method PollVerdict(ghost t: Tree, ghost fin: Hash, receipt: Receipt, poll: Poll, batch: nat) returns (v: Verdict)
    requires Linked(t) && fin in t && HonestReceipt(t, receipt) && batch > 0 && HonestPoll(t, fin, poll)
    requires poll.finalized.Answer? && poll.finalized.value.Some?
    requires poll.finalized.value.value.number >= receipt.blockNumber
    ensures forall later :: Ancestor(t, fin, later) ==>
      (v.OnChain? ==> Ancestor(t, receipt.blockHash, later)) && (v.Orphaned? ==> !Ancestor(t, receipt.blockHash, later))
    ensures PollSettles(t, receipt, poll) ==> !v.Unknown?
    ensures v != Unknown(NotFinalYet)
  {
    var finalized := poll.finalized.value.value;
    WalkCompleteIfSettles(t, receipt, poll);
    var walk := ChainDownTo(poll.rpc, finalized, receipt.blockNumber, batch);
    if walk.ReadError? {
      return Unknown(Unread);
    }
    if walk.value.None? {
      return Unknown(MoreThanOneChain);
    }
    WalkSound(t, poll.rpc, finalized, receipt.blockNumber);
    forall later | Ancestor(t, fin, later)
      ensures Ancestor(t, receipt.blockHash, finalized.hash) <==> Ancestor(t, receipt.blockHash, later)
    {
      AncestorTransitive(t, finalized.hash, fin, later);
      AncestryIsStable(t, receipt.blockHash, finalized.hash, later);
    }
    var chain := walk.value.value;
    if receipt.blockNumber !in chain {
      return Unknown(BlockNotKept);
    }
    return if chain[receipt.blockNumber].hash == receipt.blockHash then OnChain else Orphaned;
  }

  /** The poll's finalized block is at or above the receipt's, and all its reads reach that chain. */
  ghost predicate PollSettles(t: Tree, receipt: Receipt, p: Poll)
    requires Linked(t)
  {
    p.finalized.Answer? && p.finalized.value.Some? &&
    var f := p.finalized.value.value;
    Honest(t, f) && f.number >= receipt.blockNumber && (forall n: nat :: !p.rpc.refused(n)) &&
    AnswersChain(t, p.rpc, f.hash, receipt.blockNumber)
  }

  lemma WalkCompleteIfSettles(t: Tree, receipt: Receipt, p: Poll)
    requires Linked(t)
    ensures PollSettles(t, receipt, p) ==>
      var f := p.finalized.value.value;
      var r := WalkDown(p.rpc, f, receipt.blockNumber);
      r.Some? && IsChainOf(t, f.hash, r.value, receipt.blockNumber)
  {
    if PollSettles(t, receipt, p) {
      WalkComplete(t, p.rpc, p.finalized.value.value, receipt.blockNumber, receipt.blockNumber);
    }
  }
}
