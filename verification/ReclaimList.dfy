/**
  The list of open reclaim requests, read from the receipts of the finalized chain.

  `LogStore` holds the logs of every transaction in every block of the tree, and `State` the contract's
  `reclaims` mapping in the state of every block.  Backends may be on any fork and may answer any subset.
 */
module ReclaimList {
  import opened Common
  import opened Ledger
  import opened ChainReader
  import opened Bloom

  datatype Reclaim = Reclaim(executor: Bytes, miner: Address, amount: nat, expiration: nat)

  datatype Request = Request(id: nat, executor: Bytes, miner: Address, amount: nat, expiration: nat, url: string,
                             blockNumber: nat)

  type LogStore = map<(Hash, Tx), seq<Log>>
  type State = Hash -> nat -> Reclaim

  datatype WireReceipt = WireReceipt(tx: Tx, blockHash: Hash, logs: seq<Log>)

  /** The contract and the first topic of its ReclaimProcessStarted event. */
  datatype Event = Event(contract: Bytes, topic: Bytes)

  datatype Settings = Settings(lookback: nat, keptMin: nat, batch: nat)

  const RECLAIM_LOOKBACK_BLOCKS: nat := 1000
  const KEPT_BLOCKS_MIN: nat := 128
  const CHAIN_READ_BATCH: nat := 50
  const DEFAULTS := Settings(RECLAIM_LOOKBACK_BLOCKS, KEPT_BLOCKS_MIN, CHAIN_READ_BATCH)
  const RECLAIM_LIST_ATTEMPTS: nat := 3

  // ---- Logs on the chain -----------------------------------------------------------------------------

  ghost predicate HasLogs(store: LogStore, h: Hash, txs: seq<Tx>) {
    forall tx :: tx in txs ==> (h, tx) in store
  }

  ghost function LogsOfTx(store: LogStore, entry: (Hash, Tx)): seq<Log> {
    if entry in store then store[entry] else []
  }

  /** The logs of a block's transactions, in order. */
  ghost function LogsOf(store: LogStore, h: Hash, txs: seq<Tx>): seq<Log> {
    if txs == [] then [] else LogsOfTx(store, (h, txs[0])) + LogsOf(store, h, txs[1..])
  }

  predicate IsStarted(event: Event, log: Log) {
    log.address == event.contract && log.topics != [] && log.topics[0] == event.topic
  }

  function Started(event: Event, logs: seq<Log>): seq<Log> {
    if logs == [] then []
    else (if IsStarted(event, logs[0]) then [logs[0]] else []) + Started(event, logs[1..])
  }

  predicate Before(a: Log, b: Log) {
    a.blockNumber < b.blockNumber || (a.blockNumber == b.blockNumber && a.index < b.index)
  }

  ghost predicate Ordered(logs: seq<Log>) {
    forall i, j :: 0 <= i < j < |logs| ==> Before(logs[i], logs[j])
  }

  /** A block's logs name it, are numbered in order across its transactions, and make up its bloom. */
  ghost predicate ValidBlockLogs(t: Tree, keccak: Keccak, store: LogStore, h: Hash)
    requires h in t
  {
    HasLogs(store, h, t[h].txs) &&
    var logs := LogsOf(store, h, t[h].txs);
    IsBloom(keccak, logs, t[h].bloom) && Ordered(logs) &&
    forall log :: log in logs ==> log.blockHash == h && log.blockNumber == t[h].number && !log.removed
  }

  ghost predicate ValidLogs(t: Tree, keccak: Keccak, store: LogStore) {
    forall h {:trigger ValidBlockLogs(t, keccak, store, h)} :: h in t ==> ValidBlockLogs(t, keccak, store, h)
  }

  /** The started logs of one block. */
  ghost function StartedIn(t: Tree, store: LogStore, event: Event, h: Hash): seq<Log> {
    if h in t then Started(event, LogsOf(store, h, t[h].txs)) else []
  }

  /** The started logs of the chain that ends in `f`, heights `low` up to `n`, in block and log order. */
  ghost function StartedUpTo(t: Tree, store: LogStore, event: Event, f: Hash, low: nat, n: int): seq<Log>
    requires Linked(t) && f in t && n <= t[f].number
    decreases n
  {
    if n < low then []
    else
      StartedUpTo(t, store, event, f, low, n - 1) + StartedIn(t, store, event, AncestorAt(t, f, n))
  }

  function RequestOf(log: Log, reclaim: Reclaim): Request {
    Request(log.args.id, reclaim.executor, reclaim.miner, reclaim.amount, reclaim.expiration, log.args.url, log.blockNumber)
  }

  /** The requests among `logs` that are open in the given state, in the order of the logs. */
  ghost function OpenRequests(reclaims: nat -> Reclaim, logs: seq<Log>): seq<Request> {
    if logs == [] then []
    else
      var last := logs[|logs| - 1];
      OpenRequests(reclaims, logs[..|logs| - 1]) +
      if reclaims(last.args.id).amount == 0 then [] else [RequestOf(last, reclaims(last.args.id))]
  }

  /** The list the person should see: every open request of the window, at the finalized block. */
  ghost function Expected(t: Tree, store: LogStore, state: State, event: Event, f: Hash, low: nat): seq<Request>
    requires Linked(t) && f in t
  {
    OpenRequests(state(f), StartedUpTo(t, store, event, f, low, t[f].number))
  }

  // ---- State pinned to a block hash ------------------------------------------------------------------

  /** A Substrate block, the EVM block it built, and the contract's mapping in its own state. */
  datatype Substrate = Substrate(built: Option<Hash>, reclaims: nat -> Reclaim)

  datatype StorageReads = StorageReads(block: Rpc<Option<Block>>, substrate: Rpc<Option<Hash>>,
                                       built: Rpc<Option<Hash>>, reclaim: Rpc<Reclaim>)

  /** A Substrate node answers a state query at a hash from that block's own state or not at all. */
  ghost predicate HonestStorage(nodes: map<Hash, Substrate>, state: State, id: nat, s: StorageReads) {
    (forall n, h :: n in nodes && nodes[n].built == Some(h) ==> nodes[n].reclaims == state(h)) &&
    (s.substrate.Answer? && s.substrate.value.Some? ==>
       var n := s.substrate.value.value;
       (s.built.Answer? ==> n in nodes && s.built.value == nodes[n].built) &&
       (s.reclaim.Answer? ==> n in nodes && s.reclaim.value == nodes[n].reclaims(id)))
  }

  predicate StorageServed(h: Hash, s: StorageReads) {
    s.block.Answer? && s.block.value.Some? && s.block.value.value.hash == h &&
    s.substrate.Answer? && s.substrate.value.Some? && s.built == Answer(Some(h)) && s.reclaim.Answer?
  }

  /** `_reclaim_at_block_hash`: an answer is the state of the block named, whichever backend served it. */
  method ReclaimAtBlockHash(ghost nodes: map<Hash, Substrate>, ghost state: State, h: Hash, ghost id: nat, s: StorageReads)
    returns (r: Rpc<Reclaim>)
    requires HonestStorage(nodes, state, id, s)
    ensures r.Answer? <==> StorageServed(h, s)
    ensures r.Answer? ==> r.value == state(h)(id)
  {
    if s.block.ReadError? || s.block.value.None? || s.block.value.value.hash != h {
      return ReadError;
    }
    if s.substrate.ReadError? || s.substrate.value.None? {
      return ReadError;
    }
    if s.built.ReadError? || s.reclaim.ReadError? || s.built.value != Some(h) {
      return ReadError;
    }
    return s.reclaim;
  }

  // ---- Sorting ---------------------------------------------------------------------------------------

  function Insert(log: Log, logs: seq<Log>): (r: seq<Log>)
    ensures multiset(r) == multiset([log]) + multiset(logs)
  {
    if logs == [] then [log]
    else if Before(logs[0], log) then
      assert logs == [logs[0]] + logs[1..];
      [logs[0]] + Insert(log, logs[1..])
    else [log] + logs
  }

  /** The logs by block number, then log index. */
  function Sorted(logs: seq<Log>): (r: seq<Log>)
    ensures multiset(r) == multiset(logs)
  {
    if logs == [] then []
    else
      assert logs == [logs[0]] + logs[1..];
      Insert(logs[0], Sorted(logs[1..]))
  }

  lemma {:induction false} InsertOrders(log: Log, logs: seq<Log>)
    requires Ordered(logs) && forall x :: x in logs ==> Before(x, log) || Before(log, x)
    ensures Ordered(Insert(log, logs))
    decreases |logs|
  {
    if logs != [] && Before(logs[0], log) {
      var rest := logs[1..];
      InsertOrders(log, rest);
      var r := Insert(log, rest);
      forall i | 0 <= i < |r| ensures Before(logs[0], r[i]) {
        assert r[i] in multiset(r);
        assert r[i] == log || r[i] in rest;
      }
    } else if logs != [] {
      forall i | 0 <= i < |logs| ensures Before(log, logs[i]) {
        assert Before(log, logs[0]);
      }
    }
  }

  ghost predicate KeysDiffer(logs: seq<Log>) {
    forall i, j :: 0 <= i < j < |logs| ==> Before(logs[i], logs[j]) || Before(logs[j], logs[i])
  }

  lemma {:induction false} SortedOrders(logs: seq<Log>)
    requires KeysDiffer(logs)
    ensures Ordered(Sorted(logs))
    decreases |logs|
  {
    if logs != [] {
      SortedOrders(logs[1..]);
      forall x | x in Sorted(logs[1..]) ensures Before(x, logs[0]) || Before(logs[0], x) {
        assert x in multiset(Sorted(logs[1..]));
        assert x in logs[1..];
      }
      InsertOrders(logs[0], Sorted(logs[1..]));
    }
  }

  lemma HeadIsFirst(a: seq<Log>, x: Log)
    requires Ordered(a) && a != [] && x in multiset(a)
    ensures x == a[0] || Before(a[0], x)
  {
    var i :| 0 <= i < |a| && a[i] == x;
  }

  lemma SameHead(a: seq<Log>, b: seq<Log>)
    requires Ordered(a) && Ordered(b) && multiset(a) == multiset(b) && a != [] && b != []
    ensures a[0] == b[0]
  {
    var x, y := a[0], b[0];
    HeadIsFirst(a, y);
    HeadIsFirst(b, x);
  }

  lemma {:induction false} OrderedUnique(a: seq<Log>, b: seq<Log>)
    requires Ordered(a) && Ordered(b) && multiset(a) == multiset(b)
    ensures a == b
    decreases |a|
  {
    assert |multiset(a)| == |a| && |multiset(b)| == |b|;
    if a != [] {
      SameHead(a, b);
      assert a == [a[0]] + a[1..] && b == [b[0]] + b[1..];
      assert multiset(a[1..]) == multiset(a) - multiset{a[0]};
      assert multiset(b[1..]) == multiset(b) - multiset{b[0]};
      OrderedUnique(a[1..], b[1..]);
    }
  }

  // ---- From the newest block down, then sorted, is chain order ------------------------------------------

  /** The started logs block by block from height `n` down to `low`, as the walk finds them. */
  ghost function StartedDown(t: Tree, store: LogStore, event: Event, f: Hash, low: nat, n: int): seq<Log>
    requires Linked(t) && f in t && n <= t[f].number
    decreases n
  {
    if n < low then []
    else
      StartedIn(t, store, event, AncestorAt(t, f, n)) + StartedDown(t, store, event, f, low, n - 1)
  }

  lemma {:induction false} StartedSelects(event: Event, logs: seq<Log>)
    ensures forall x :: x in Started(event, logs) ==> x in logs && IsStarted(event, x)
    ensures Ordered(logs) ==> Ordered(Started(event, logs))
    decreases |logs|
  {
    if logs != [] {
      StartedSelects(event, logs[1..]);
      if Ordered(logs) {
        var rest := Started(event, logs[1..]);
        forall i | 0 <= i < |rest| ensures Before(logs[0], rest[i]) {
          assert rest[i] in logs[1..];
        }
      }
    }
  }

  lemma StartedAt(t: Tree, keccak: Keccak, store: LogStore, event: Event, h: Hash)
    requires ValidLogs(t, keccak, store) && h in t
    ensures var s := StartedIn(t, store, event, h);
      Ordered(s) && forall x :: x in s ==> x.blockNumber == t[h].number
  {
    assert ValidBlockLogs(t, keccak, store, h);
    StartedSelects(event, LogsOf(store, h, t[h].txs));
  }

  lemma {:induction false} UpAndDown(t: Tree, keccak: Keccak, store: LogStore, event: Event, f: Hash, low: nat, n: int)
    requires Linked(t) && f in t && n <= t[f].number && ValidLogs(t, keccak, store)
    ensures multiset(StartedUpTo(t, store, event, f, low, n)) == multiset(StartedDown(t, store, event, f, low, n))
    ensures Ordered(StartedUpTo(t, store, event, f, low, n))
    ensures forall x :: x in StartedUpTo(t, store, event, f, low, n) ==> x.blockNumber <= n
    decreases n
  {
    if n >= low {
      UpAndDown(t, keccak, store, event, f, low, n - 1);
      StartedAt(t, keccak, store, event, AncestorAt(t, f, n));
    }
  }

  lemma OrderedKeysDiffer(a: seq<Log>, b: seq<Log>)
    requires Ordered(a) && multiset(a) == multiset(b)
    ensures KeysDiffer(b)
  {
    forall i, j | 0 <= i < j < |b| ensures Before(b[i], b[j]) || Before(b[j], b[i]) {
      assert b[i] in multiset(a) && b[j] in multiset(a);
      if b[i] == b[j] {
        assert b == b[..i] + [b[i]] + b[i + 1..j] + [b[j]] + b[j + 1..];
        assert multiset(b)[b[i]] >= 2;
        OrderedOnce(a, b[i]);
      }
    }
  }

  lemma {:induction false} OrderedOnce(a: seq<Log>, x: Log)
    requires Ordered(a)
    ensures multiset(a)[x] <= 1
    decreases |a|
  {
    if a != [] {
      assert a == [a[0]] + a[1..];
      OrderedOnce(a[1..], x);
      if x == a[0] {
        assert x !in a[1..];
      }
    }
  }

  lemma SortedDownIsChainOrder(t: Tree, keccak: Keccak, store: LogStore, event: Event, f: Hash, low: nat)
    requires Linked(t) && f in t && ValidLogs(t, keccak, store)
    ensures Sorted(StartedDown(t, store, event, f, low, t[f].number)) ==
      StartedUpTo(t, store, event, f, low, t[f].number)
  {
    var up := StartedUpTo(t, store, event, f, low, t[f].number);
    var down := StartedDown(t, store, event, f, low, t[f].number);
    UpAndDown(t, keccak, store, event, f, low, t[f].number);
    OrderedKeysDiffer(up, down);
    SortedOrders(down);
    OrderedUnique(Sorted(down), up);
  }

  // ---- Which blocks are read, and their logs ----------------------------------------------------------

  function LowestKey(chain: Chain, n: nat): (low: nat)
    requires n in chain
    ensures low <= n && (forall k: nat :: low <= k <= n ==> k in chain) && (low > 0 ==> low - 1 !in chain)
  {
    if n > 0 && n - 1 in chain then LowestKey(chain, n - 1) else n
  }

  predicate MayStart(keccak: Keccak, event: Event, b: Block) {
    BloomMayHold(keccak, b.bloom, [event.contract, event.topic])
  }

  /** The blocks, newest first, that may hold this contract's event. */
  function Candidates(may: Block -> bool, chain: Chain, n: int, low: nat): seq<Block>
    requires forall k: nat :: low <= k <= n ==> k in chain
    decreases n
  {
    if n < low then []
    else (if may(chain[n]) then [chain[n]] else []) + Candidates(may, chain, n - 1, low)
  }

  ghost predicate AllHonest(t: Tree, blocks: seq<Block>) {
    forall i :: 0 <= i < |blocks| ==> Honest(t, blocks[i])
  }

  ghost predicate AllOnChain(t: Tree, f: Hash, blocks: seq<Block>)
    requires Linked(t)
  {
    forall i :: 0 <= i < |blocks| ==> Ancestor(t, blocks[i].hash, f)
  }

  /** Blocks of the tree, none of them twice. */
  ghost predicate HonestBlocks(t: Tree, blocks: seq<Block>) {
    AllHonest(t, blocks) && forall i, j :: 0 <= i < j < |blocks| ==> blocks[i].hash != blocks[j].hash
  }

  /** The started logs of the first `k` blocks. */
  ghost function StartedFirst(t: Tree, store: LogStore, event: Event, blocks: seq<Block>, k: nat): seq<Log>
    requires k <= |blocks|
  {
    if k == 0 then []
    else StartedFirst(t, store, event, blocks, k - 1) + StartedIn(t, store, event, blocks[k - 1].hash)
  }

  ghost function StartedOf(t: Tree, store: LogStore, event: Event, blocks: seq<Block>): seq<Log> {
    StartedFirst(t, store, event, blocks, |blocks|)
  }

  lemma {:induction false} StartedOfHead(t: Tree, store: LogStore, event: Event, b: Block, rest: seq<Block>, k: nat)
    requires k <= |rest|
    ensures StartedFirst(t, store, event, [b] + rest, k + 1) ==
      StartedIn(t, store, event, b.hash) + StartedFirst(t, store, event, rest, k)
    decreases k
  {
    if k > 0 {
      StartedOfHead(t, store, event, b, rest, k - 1);
    } else {
      assert StartedFirst(t, store, event, [b] + rest, 0) == [];
    }
  }

  ghost function HashesFirst(blocks: seq<Block>, k: nat): set<Hash>
    requires k <= |blocks|
  {
    set i | 0 <= i < k :: blocks[i].hash
  }

  ghost function Hashes(blocks: seq<Block>): set<Hash> {
    HashesFirst(blocks, |blocks|)
  }

  lemma {:induction false} NothingStarted(event: Event, logs: seq<Log>)
    requires forall log :: log in logs ==> !IsStarted(event, log)
    ensures Started(event, logs) == []
    decreases |logs|
  {
    if logs != [] {
      NothingStarted(event, logs[1..]);
    }
  }

  /** A block the bloom rules out started nothing. */
  lemma SkippedBlockIsEmpty(t: Tree, keccak: Keccak, store: LogStore, event: Event, b: Block)
    requires ValidLogs(t, keccak, store) && Honest(t, b)
    requires !MayStart(keccak, event, b)
    ensures StartedIn(t, store, event, b.hash) == []
  {
    assert ValidBlockLogs(t, keccak, store, b.hash);
    var logs := LogsOf(store, b.hash, t[b.hash].txs);
    forall log | log in logs ensures !IsStarted(event, log) {
      if IsStarted(event, log) {
        assert LogValues(log)[0] == event.contract && LogValues(log)[1] == event.topic;
        NoFalseNegatives(keccak, logs, t[b.hash].bloom, log, [event.contract, event.topic]);
      }
    }
    NothingStarted(event, logs);
  }

  lemma {:induction false} CandidatesOnChain(t: Tree, may: Block -> bool, f: Hash, chain: Chain, n: int, low: nat)
    requires Linked(t) && f in t && IsChainOf(t, f, chain, low) && n <= t[f].number
    ensures var blocks := Candidates(may, chain, n, low);
      HonestBlocks(t, blocks) && AllOnChain(t, f, blocks) &&
      forall i :: 0 <= i < |blocks| ==> blocks[i].number <= n && blocks[i] in chain.Values
    decreases n
  {
    if n >= low {
      CandidatesOnChain(t, may, f, chain, n - 1, low);
      assert Honest(t, chain[n]) && chain[n].hash == AncestorAt(t, f, n);
    }
  }

  /** A block adds its own started logs whether or not it is read, if none of those left out started anything. */
  lemma CandidateStep(t: Tree, store: LogStore, event: Event, may: bool, b: Block, rest: seq<Block>)
    requires !may ==> StartedIn(t, store, event, b.hash) == []
    ensures StartedOf(t, store, event, (if may then [b] else []) + rest) ==
      StartedIn(t, store, event, b.hash) + StartedOf(t, store, event, rest)
  {
    if may {
      StartedOfHead(t, store, event, b, rest, |rest|);
    } else {
      assert [] + rest == rest;
    }
  }

  /** The candidates hold every started log of the range, in the order of the walk. */
  lemma {:induction false} CandidatesSuffice(t: Tree, store: LogStore, event: Event, may: Block -> bool, f: Hash,
                                             chain: Chain, n: int, low: nat)
    requires Linked(t) && f in t && IsChainOf(t, f, chain, low) && n <= t[f].number
    requires forall b :: Honest(t, b) && !may(b) ==> StartedIn(t, store, event, b.hash) == []
    ensures StartedOf(t, store, event, Candidates(may, chain, n, low)) == StartedDown(t, store, event, f, low, n)
    decreases n
  {
    if n >= low {
      CandidatesSuffice(t, store, event, may, f, chain, n - 1, low);
      assert n in chain && Honest(t, chain[n]) && chain[n].hash == AncestorAt(t, f, n);
      CandidateStep(t, store, event, may(chain[n]), chain[n], Candidates(may, chain, n - 1, low));
    }
  }

  // ---- Receipts ----------------------------------------------------------------------------------------

  type Entries = seq<(Hash, Tx)>

  ghost predicate HonestReceipts(store: LogStore, answer: (Hash, Tx) -> Option<WireReceipt>) {
    forall h, tx :: answer(h, tx).Some? ==>
      var w := answer(h, tx).value;
      (w.blockHash, w.tx) in store && w.logs == store[(w.blockHash, w.tx)]
  }

  /** The logs of block `h` among the receipts of `entries`. */
  ghost function LogsAmong(store: LogStore, entries: Entries, h: Hash): seq<Log>
  {
    if entries == [] then []
    else
      var last := entries[|entries| - 1];
      LogsAmong(store, entries[..|entries| - 1], h) + if last.0 == h then LogsOfTx(store, last) else []
  }

  function EntriesOf(h: Hash, txs: seq<Tx>): (r: Entries)
    ensures |r| == |txs| && forall i :: 0 <= i < |r| ==> r[i] == (h, txs[i])
  {
    seq(|txs|, i requires 0 <= i < |txs| => (h, txs[i]))
  }

  lemma {:induction false} LogsAmongAppends(store: LogStore, a: Entries, b: Entries, h: Hash)
    ensures LogsAmong(store, a + b, h) == LogsAmong(store, a, h) + LogsAmong(store, b, h)
    decreases |b|
  {
    if b == [] {
      assert a + b == a;
    } else {
      var init := b[..|b| - 1];
      assert (a + b)[..|a + b| - 1] == a + init;
      LogsAmongAppends(store, a, init, h);
    }
  }

  lemma {:induction false} LogsAmongBlock(store: LogStore, h: Hash, txs: seq<Tx>, other: Hash)
    ensures LogsAmong(store, EntriesOf(h, txs), other) == if other == h then LogsOf(store, h, txs) else []
    decreases |txs|
  {
    if txs != [] {
      var head := [(h, txs[0])];
      LogsAmongBlock(store, h, txs[1..], other);
      assert EntriesOf(h, txs) == head + EntriesOf(h, txs[1..]);
      LogsAmongAppends(store, head, EntriesOf(h, txs[1..]), other);
      assert head[..0] == [];
      assert LogsAmong(store, head, other) == if other == h then LogsOfTx(store, (h, txs[0])) else [];
    }
  }

  ghost predicate AllName(blocks: seq<Block>) {
    forall i :: 0 <= i < |blocks| ==> blocks[i].txs.Some?
  }

  function TxsOf(b: Block): seq<Tx> {
    if b.txs.Some? then b.txs.value else []
  }

  /** Every transaction each of the first `k` blocks names. */
  function EntriesFirst(blocks: seq<Block>, k: nat): Entries
    requires k <= |blocks|
  {
    if k == 0 then [] else EntriesFirst(blocks, k - 1) + EntriesOf(blocks[k - 1].hash, TxsOf(blocks[k - 1]))
  }

  function EntriesFor(blocks: seq<Block>): Entries {
    EntriesFirst(blocks, |blocks|)
  }

  lemma {:induction false} EntriesAreOfBlocks(blocks: seq<Block>, k: nat)
    requires k <= |blocks|
    ensures forall i :: 0 <= i < |EntriesFirst(blocks, k)| ==> EntriesFirst(blocks, k)[i].0 in HashesFirst(blocks, k)
    decreases k
  {
    if k > 0 {
      EntriesAreOfBlocks(blocks, k - 1);
      HashesNext(blocks, k);
    }
  }

  /** The entry is a transaction on the chain that ends in `f`. */
  ghost predicate EntryOnChain(t: Tree, f: Hash, entry: (Hash, Tx))
    requires Linked(t)
  {
    Ancestor(t, entry.0, f) && entry.1 in t[entry.0].txs
  }

  /** Every receipt asked for is of a transaction on the finalized chain. */
  lemma {:induction false} EntriesOnChain(t: Tree, f: Hash, blocks: seq<Block>, k: nat)
    requires Linked(t) && k <= |blocks| && AllHonest(t, blocks) && AllOnChain(t, f, blocks)
    ensures forall i :: 0 <= i < |EntriesFirst(blocks, k)| ==> EntryOnChain(t, f, EntriesFirst(blocks, k)[i])
    decreases k
  {
    if k > 0 {
      EntriesOnChain(t, f, blocks, k - 1);
      var b, before := blocks[k - 1], EntriesFirst(blocks, k - 1);
      var entries, more := EntriesFirst(blocks, k), EntriesOf(b.hash, TxsOf(b));
      assert Honest(t, b) && Ancestor(t, b.hash, f);
      forall i | 0 <= i < |entries| ensures EntryOnChain(t, f, entries[i]) {
        if i < |before| {
          assert entries[i] == before[i];
        } else {
          assert entries[i] == more[i - |before|];
        }
      }
    }
  }

  lemma ServedReceipts(t: Tree, f: Hash, store: LogStore, g: Gateway, blocks: seq<Block>)
    requires Linked(t) && AllHonest(t, blocks) && AllOnChain(t, f, blocks) && ReceiptsAll(t, f, store, g)
    ensures ReceiptsServed(store, EntriesFor(blocks), g.receipt) && forall n: nat :: !g.receiptsRefused(n)
  {
    EntriesOnChain(t, f, blocks, |blocks|);
    var entries := EntriesFor(blocks);
    forall i | 0 <= i < |entries|
      ensures g.receipt(entries[i].0, entries[i].1) ==
        Some(WireReceipt(entries[i].1, entries[i].0, LogsOfTx(store, entries[i])))
    {
      assert EntryOnChain(t, f, entries[i]);
      assert entries[i] == (entries[i].0, entries[i].1);
    }
  }

  lemma HashesNext(blocks: seq<Block>, k: nat)
    requires 0 < k <= |blocks|
    ensures HashesFirst(blocks, k) == HashesFirst(blocks, k - 1) + {blocks[k - 1].hash}
  {
  }

  /** Grouping all receipts by block hash gives each block exactly its own logs, in transaction order. */
  lemma {:induction false} EntriesGroup(store: LogStore, blocks: seq<Block>, k: nat, h: Hash, txs: seq<Tx>)
    requires k <= |blocks|
    requires forall i :: 0 <= i < |blocks| && blocks[i].hash == h ==> TxsOf(blocks[i]) == txs
    requires forall i, j :: 0 <= i < j < |blocks| && blocks[j].hash == h ==> blocks[i].hash != h
    ensures LogsAmong(store, EntriesFirst(blocks, k), h) ==
      if h in HashesFirst(blocks, k) then LogsOf(store, h, txs) else []
    decreases k
  {
    if k > 0 {
      var last := blocks[k - 1];
      EntriesGroup(store, blocks, k - 1, h, txs);
      EntriesGroupStep(store, EntriesFirst(blocks, k - 1), last, h);
      HashesNext(blocks, k);
    }
  }

  lemma EntriesGroupStep(store: LogStore, before: Entries, last: Block, h: Hash)
    ensures LogsAmong(store, before + EntriesOf(last.hash, TxsOf(last)), h) ==
      LogsAmong(store, before, h) + if h == last.hash then LogsOf(store, h, TxsOf(last)) else []
  {
    LogsAmongAppends(store, before, EntriesOf(last.hash, TxsOf(last)), h);
    LogsAmongBlock(store, last.hash, TxsOf(last), h);
  }

  /** The receipts to ask for, or None when a candidate does not name its transactions. */
  method ReceiptRequests(blocks: seq<Block>) returns (r: Option<Entries>)
    ensures r.Some? <==> AllName(blocks)
    ensures r.Some? ==> r.value == EntriesFor(blocks)
  {
    var entries: Entries := [];
    for k := 0 to |blocks|
      invariant forall i :: 0 <= i < k ==> blocks[i].txs.Some?
      invariant entries == EntriesFirst(blocks, k)
    {
      if blocks[k].txs.None? {
        return None;
      }
      entries := entries + EntriesOf(blocks[k].hash, blocks[k].txs.value);
    }
    return Some(entries);
  }

  /** Every receipt asked for is answered with the receipt in that block. */
  ghost predicate ReceiptsServed(store: LogStore, entries: Entries, answer: (Hash, Tx) -> Option<WireReceipt>) {
    forall i :: 0 <= i < |entries| ==>
      answer(entries[i].0, entries[i].1) == Some(WireReceipt(entries[i].1, entries[i].0, LogsOfTx(store, entries[i])))
  }

  /** `logsOf` holds, for each of the blocks, its logs among the first `k` receipts. */
  ghost predicate Grouped(store: LogStore, entries: Entries, k: nat, logsOf: map<Hash, seq<Log>>)
    requires k <= |entries|
  {
    forall h :: h in logsOf ==> logsOf[h] == LogsAmong(store, entries[..k], h)
  }

  lemma GroupedExtends(store: LogStore, entries: Entries, k: nat, logsOf: map<Hash, seq<Log>>)
    requires k < |entries| && Grouped(store, entries, k, logsOf) && entries[k].0 in logsOf
    ensures Grouped(store, entries, k + 1, logsOf[entries[k].0 := logsOf[entries[k].0] + LogsOfTx(store, entries[k])])
  {
    assert entries[..k + 1][..k] == entries[..k];
  }

  /** The logs of each candidate, from the receipts of all its transactions, read in batches. */
  method ReadLogs(ghost store: LogStore, blocks: seq<Block>, entries: Entries, batch: nat,
                  answer: (Hash, Tx) -> Option<WireReceipt>, refused: nat -> bool)
    returns (r: Rpc<Option<map<Hash, seq<Log>>>>)
    requires batch > 0 && HonestReceipts(store, answer)
    requires forall i :: 0 <= i < |entries| ==> entries[i].0 in Hashes(blocks)
    ensures r.Answer? && r.value.Some? ==>
      r.value.value.Keys == Hashes(blocks) && Grouped(store, entries, |entries|, r.value.value)
    ensures ReceiptsServed(store, entries, answer) ==> r.ReadError? || r.value.Some?
    ensures r.ReadError? ==> exists start: nat :: refused(start)
  {
    var logsOf: map<Hash, seq<Log>> := map i | 0 <= i < |blocks| :: blocks[i].hash := [];
    assert logsOf.Keys == Hashes(blocks);
    var start: nat := 0;
    while start < |entries|
      invariant start <= |entries|
      invariant logsOf.Keys == Hashes(blocks) && Grouped(store, entries, start, logsOf)
    {
      if refused(start) {
        return ReadError;
      }
      var end := if start + batch < |entries| then start + batch else |entries|;
      var more := ReadBatch(store, entries, start, end, answer, logsOf);
      if more.None? {
        return Answer(None);
      }
      logsOf := more.value;
      start := end;
    }
    return Answer(Some(logsOf));
  }

  /** One batch of receipts; a missing receipt, or one of another transaction or block, ends the read. */
  method ReadBatch(ghost store: LogStore, entries: Entries, start: nat, end: nat,
                   answer: (Hash, Tx) -> Option<WireReceipt>, before: map<Hash, seq<Log>>)
    returns (r: Option<map<Hash, seq<Log>>>)
    requires start <= end <= |entries| && HonestReceipts(store, answer) && Grouped(store, entries, start, before)
    requires forall i :: 0 <= i < |entries| ==> entries[i].0 in before
    ensures r.Some? ==> r.value.Keys == before.Keys && Grouped(store, entries, end, r.value)
    ensures ReceiptsServed(store, entries, answer) ==> r.Some?
  {
    var logsOf := before;
    for k := start to end
      invariant logsOf.Keys == before.Keys && Grouped(store, entries, k, logsOf)
    {
      var (h, tx) := entries[k];
      var receipt := answer(h, tx);
      if receipt.None? || receipt.value.tx != tx || receipt.value.blockHash != h {
        return None;
      }
      GroupedExtends(store, entries, k, logsOf);
      logsOf := logsOf[h := logsOf[h] + receipt.value.logs];
    }
    return Some(logsOf);
  }

  /** Each block's logs are the block's own. */
  ghost predicate OwnLogs(t: Tree, store: LogStore, blocks: seq<Block>, logsOf: map<Hash, seq<Log>>) {
    forall i :: 0 <= i < |blocks| ==> OwnLogsAt(t, store, blocks[i], logsOf)
  }

  ghost predicate OwnLogsAt(t: Tree, store: LogStore, b: Block, logsOf: map<Hash, seq<Log>>) {
    b.hash in t && b.hash in logsOf && logsOf[b.hash] == LogsOf(store, b.hash, t[b.hash].txs)
  }

  ghost predicate AllBloom(blocks: seq<Block>) {
    forall i :: 0 <= i < |blocks| ==> blocks[i].bloom.Some?
  }

  /** The started logs of all candidates, or None when a log is not its block's or the bloom is not made up. */
  method CheckedLogs(ghost t: Tree, ghost store: LogStore, keccak: Keccak, event: Event, blocks: seq<Block>,
                     logsOf: map<Hash, seq<Log>>)
    returns (r: Option<seq<Log>>)
    requires AllHonest(t, blocks) && ValidLogs(t, keccak, store) && OwnLogs(t, store, blocks, logsOf)
    ensures r.Some? <==> AllBloom(blocks)
    ensures r.Some? ==> r.value == StartedOf(t, store, event, blocks)
  {
    var raw: seq<Log> := [];
    for k := 0 to |blocks|
      invariant BloomFirst(blocks, k) && raw == StartedFirst(t, store, event, blocks, k)
    {
      var more := BlockStarted(t, store, keccak, event, blocks, k, raw, logsOf);
      if more.None? {
        return None;
      }
      raw := more.value;
    }
    return Some(raw);
  }

  ghost predicate BloomFirst(blocks: seq<Block>, k: nat)
    requires k <= |blocks|
  {
    forall i :: 0 <= i < k ==> blocks[i].bloom.Some?
  }

  /** The started logs of one more block, once its logs name the block and make up its bloom exactly. */
  method BlockStarted(ghost t: Tree, ghost store: LogStore, keccak: Keccak, event: Event, blocks: seq<Block>, k: nat,
                      raw: seq<Log>, logsOf: map<Hash, seq<Log>>)
    returns (r: Option<seq<Log>>)
    requires AllHonest(t, blocks) && ValidLogs(t, keccak, store) && OwnLogs(t, store, blocks, logsOf) && k < |blocks|
    requires BloomFirst(blocks, k) && raw == StartedFirst(t, store, event, blocks, k)
    ensures if r.Some? then BloomFirst(blocks, k + 1) && r.value == StartedFirst(t, store, event, blocks, k + 1)
      else !AllBloom(blocks)
  {
    var block := blocks[k];
    assert OwnLogsAt(t, store, block, logsOf) && Honest(t, block);
    var answer := logsOf[block.hash];
    assert ValidBlockLogs(t, keccak, store, block.hash);
    if exists i :: 0 <= i < |answer| && (answer[i].removed || answer[i].blockHash != block.hash) {
      return None;
    }
    var bloom := LogsBloom(keccak, answer);
    BloomIsUnique(keccak, answer, bloom, t[block.hash].bloom);
    if block.bloom != Some(bloom) {
      return None;
    }
    return Some(raw + Started(event, answer));
  }

  predicate MatchesLog(reclaim: Reclaim, log: Log) {
    reclaim == Reclaim(log.args.executor, log.args.miner, log.args.amount, log.args.expiration)
  }

  /** Each request's state at the finalized block; None when an open one does not match its log. */
  method ReadOpen(ghost nodes: map<Hash, Substrate>, ghost state: State, f: Hash, logs: seq<Log>,
                  storage: (nat, nat) -> StorageReads)
    returns (r: Rpc<Option<seq<Request>>>)
    requires forall i, id :: HonestStorage(nodes, state, id, storage(i, id))
    ensures r.Answer? && r.value.Some? ==> r.value.value == OpenRequests(state(f), logs)
    ensures r == Answer(None) ==>
      exists log :: log in logs && state(f)(log.args.id).amount != 0 && !MatchesLog(state(f)(log.args.id), log)
    ensures r.ReadError? ==> exists i, id :: !StorageServed(f, storage(i, id))
  {
    var requests: seq<Request> := [];
    for k := 0 to |logs|
      invariant requests == OpenRequests(state(f), logs[..k])
    {
      var log := logs[k];
      var answer := ReclaimAtBlockHash(nodes, state, f, log.args.id, storage(k, log.args.id));
      if answer.ReadError? {
        return ReadError;
      }
      assert logs[..k + 1][..k] == logs[..k];
      var reclaim := answer.value;
      if reclaim.amount != 0 {
        if !MatchesLog(reclaim, log) {
          return Answer(None);
        }
        requests := requests + [RequestOf(log, reclaim)];
      }
    }
    assert logs[..|logs|] == logs;
    return Answer(Some(requests));
  }

  // ---- The list ----------------------------------------------------------------------------------------

  /** Everything the gateway answers while one list is read. */
  datatype Gateway = Gateway(
    blocks: Reads,
    receipt: (Hash, Tx) -> Option<WireReceipt>,
    receiptsRefused: nat -> bool,
    storage: (nat, nat) -> StorageReads)

  ghost predicate HonestGateway(t: Tree, store: LogStore, nodes: map<Hash, Substrate>, state: State, g: Gateway) {
    HonestReads(t, g.blocks) && HonestReceipts(store, g.receipt) &&
    forall i, id :: HonestStorage(nodes, state, id, g.storage(i, id))
  }

  /** The window below the finalized block; a range that stops nearer than `keptMin` blocks is a lagging backend. */
  ghost predicate IsWindowFrom(t: Tree, f: Hash, g: Gateway, cfg: Settings, low: nat)
    requires f in t
  {
    var lowest := Max(t[f].number - cfg.lookback, 0);
    EndsAt(g.blocks, low, lowest) && low <= t[f].number && (low == lowest || t[f].number - low >= cfg.keptMin)
  }

  /** The receipt of every transaction on the chain that ends in `f` is served. */
  ghost predicate ReceiptsAll(t: Tree, f: Hash, store: LogStore, g: Gateway)
    requires Linked(t)
  {
    (forall n: nat :: !g.receiptsRefused(n)) &&
    forall h, tx :: Ancestor(t, h, f) && tx in t[h].txs ==>
      g.receipt(h, tx) == Some(WireReceipt(tx, h, LogsOfTx(store, (h, tx))))
  }

  ghost predicate StorageAll(h: Hash, g: Gateway) {
    forall i, id :: StorageServed(h, g.storage(i, id))
  }

  ghost predicate Full(b: Block) {
    b.txs.Some? && b.bloom.Some?
  }

  ghost predicate FullChain(chain: Chain) {
    forall n :: n in chain ==> Full(chain[n])
  }

  /** Every open request among the logs has the state its log says. */
  ghost predicate StateMatches(reclaims: nat -> Reclaim, logs: seq<Log>) {
    forall log :: log in logs && reclaims(log.args.id).amount != 0 ==> MatchesLog(reclaims(log.args.id), log)
  }

  /** The window from `low` is answered in full from the finalized chain; below it a gateway may have pruned. */
  ghost predicate BlocksServed(t: Tree, f: Block, g: Gateway, cfg: Settings, low: nat)
    requires Linked(t) && Honest(t, f)
  {
    IsWindowFrom(t, f.hash, g, cfg, low) && Full(f) && AnswersChain(t, g.blocks, f.hash, low) &&
    (forall n: nat :: g.blocks.block(n).Some? ==> Full(g.blocks.block(n).value)) &&
    forall n: nat :: !g.blocks.refused(n)
  }

  /** Every read reaches the finalized chain and every answer is complete. */
  ghost predicate AllServed(t: Tree, store: LogStore, state: State, event: Event, f: Block, g: Gateway, cfg: Settings, low: nat)
    requires Linked(t) && Honest(t, f)
  {
    BlocksServed(t, f, g, cfg, low) && ReceiptsAll(t, f.hash, store, g) && StorageAll(f.hash, g) &&
    StateMatches(state(f.hash), StartedUpTo(t, store, event, f.hash, low, f.number))
  }

  lemma {:induction false} WalkIsFull(rpc: Reads, chain: Chain, parent: Hash, n: int, lowest: nat)
    requires FullChain(chain) && forall n: nat :: rpc.block(n).Some? ==> Full(rpc.block(n).value)
    ensures var r := Walk(rpc, chain, parent, n, lowest); r.Some? ==> FullChain(r.value)
    decreases n
  {
    if n >= lowest && rpc.block(n).Some? {
      var b := rpc.block(n).value;
      WalkIsFull(rpc, chain[n := b], b.parentHash, n - 1, lowest);
    }
  }

  lemma ServedWalk(t: Tree, f: Block, g: Gateway, cfg: Settings, low: nat)
    requires Linked(t) && Honest(t, f) && BlocksServed(t, f, g, cfg, low)
    ensures var walk := WalkDown(g.blocks, f, Max(f.number - cfg.lookback, 0));
      walk.Some? && FullChain(walk.value) && f.number in walk.value && LowestKey(walk.value, f.number) == low
  {
    var lowest := Max(f.number - cfg.lookback, 0);
    WalkComplete(t, g.blocks, f, lowest, low);
    WalkIsFull(g.blocks, map[f.number := f], f.parentHash, f.number - 1, lowest);
    LowestIsLow(t, f.hash, WalkDown(g.blocks, f, lowest).value, low);
  }

  lemma LowestIsLow(t: Tree, f: Hash, chain: Chain, low: nat)
    requires Linked(t) && f in t && IsChainOf(t, f, chain, low)
    ensures LowestKey(chain, t[f].number) == low
  {
    var lowest := LowestKey(chain, t[f].number);
    assert lowest in chain && low in chain;
    assert lowest > 0 ==> (lowest - 1 in chain <==> low <= lowest - 1);
  }

  /**
    `_reclaim_events_at`.  A list that is returned is exactly the expected one for its window, whichever fork's
    backend answered each read; and when every read down to block `kept`, where the lookback ends or pruning
    begins, is served from the finalized chain, the list of that window is returned.
   */
  method ReclaimEventsAt(ghost t: Tree, ghost store: LogStore, ghost nodes: map<Hash, Substrate>, ghost state: State,
                         keccak: Keccak, event: Event, cfg: Settings, finalized: Block, g: Gateway,
                         ghost kept: nat)
    returns (r: Rpc<Option<seq<Request>>>, low: nat)
    requires Linked(t) && ValidLogs(t, keccak, store) && Honest(t, finalized) && cfg.batch > 0
    requires HonestGateway(t, store, nodes, state, g)
    ensures r.Answer? && r.value.Some? ==>
      IsWindowFrom(t, finalized.hash, g, cfg, low) &&
      r.value.value == Expected(t, store, state, event, finalized.hash, low)
    ensures AllServed(t, store, state, event, finalized, g, cfg, kept) ==> r.Answer? && r.value.Some? && low == kept
  {
    var logs;
    logs, low := ReadWindowLogs(t, store, keccak, event, cfg, finalized, g, kept);
    if logs.ReadError? {
      return ReadError, low;
    }
    if logs.value.None? {
      return Answer(None), low;
    }
    r := ReadOpen(nodes, state, finalized.hash, logs.value.value, g.storage);
  }

  /** The started logs of the window, in chain order; `low` is its lowest block. */
  method ReadWindowLogs(ghost t: Tree, ghost store: LogStore, keccak: Keccak, event: Event, cfg: Settings,
                        finalized: Block, g: Gateway, ghost kept: nat)
    returns (r: Rpc<Option<seq<Log>>>, low: nat)
    requires Linked(t) && ValidLogs(t, keccak, store) && Honest(t, finalized) && cfg.batch > 0
    requires HonestReads(t, g.blocks) && HonestReceipts(store, g.receipt)
    ensures r.Answer? && r.value.Some? ==>
      IsWindowFrom(t, finalized.hash, g, cfg, low) &&
      r.value.value == StartedUpTo(t, store, event, finalized.hash, low, finalized.number)
    ensures BlocksServed(t, finalized, g, cfg, kept) && ReceiptsAll(t, finalized.hash, store, g) ==>
      r.Answer? && r.value.Some? && low == kept
  {
    low := 0;
    var window := ReadWindow(t, cfg, finalized, g, kept);
    if window.ReadError? {
      return ReadError, low;
    }
    if window.value.None? {
      return Answer(None), low;
    }
    var (chain, bottom) := window.value.value;
    low := bottom;
    r := ReadStarted(t, store, keccak, event, cfg, finalized, g, chain, bottom);
  }

  /** The blocks of the finalized chain the list is read from, and the lowest of them. */
  method ReadWindow(ghost t: Tree, cfg: Settings, finalized: Block, g: Gateway, ghost kept: nat)
    returns (r: Rpc<Option<(Chain, nat)>>)
    requires Linked(t) && Honest(t, finalized) && cfg.batch > 0 && HonestReads(t, g.blocks)
    ensures r.Answer? && r.value.Some? ==>
      IsChainOf(t, finalized.hash, r.value.value.0, r.value.value.1) &&
      IsWindowFrom(t, finalized.hash, g, cfg, r.value.value.1)
    ensures BlocksServed(t, finalized, g, cfg, kept) ==>
      r.Answer? && r.value.Some? && FullChain(r.value.value.0) && r.value.value.1 == kept
  {
    var top := finalized.number;
    var lowest := Max(top - cfg.lookback, 0);
    var walk := ChainDownTo(g.blocks, finalized, lowest, cfg.batch);
    if BlocksServed(t, finalized, g, cfg, kept) {
      ServedWalk(t, finalized, g, cfg, kept);
    }
    if walk.ReadError? {
      return ReadError;
    }
    if walk.value.None? {
      return Answer(None);
    }
    var chain := walk.value.value;
    WalkSound(t, g.blocks, finalized, lowest);
    ghost var l: nat :| IsChainOf(t, finalized.hash, chain, l) && EndsAt(g.blocks, l, lowest);
    LowestIsLow(t, finalized.hash, chain, l);
    var low := LowestKey(chain, top);
    if low > lowest && top - low < cfg.keptMin {
      return Answer(None);
    }
    return Answer(Some((chain, low)));
  }

  /** The started logs of the blocks from `low` up to the finalized block, in chain order. */
  method ReadStarted(ghost t: Tree, ghost store: LogStore, keccak: Keccak, event: Event, cfg: Settings,
                     finalized: Block, g: Gateway, chain: Chain, low: nat)
    returns (r: Rpc<Option<seq<Log>>>)
    requires Linked(t) && ValidLogs(t, keccak, store) && Honest(t, finalized) && cfg.batch > 0
    requires HonestReceipts(store, g.receipt) && IsChainOf(t, finalized.hash, chain, low)
    ensures r.Answer? && r.value.Some? ==>
      r.value.value == StartedUpTo(t, store, event, finalized.hash, low, finalized.number)
    ensures ReceiptsAll(t, finalized.hash, store, g) && FullChain(chain) ==> r.Answer? && r.value.Some?
  {
    var may := (b: Block) => MayStart(keccak, event, b);
    var blocks := Candidates(may, chain, finalized.number, low);
    CandidatesOnChain(t, may, finalized.hash, chain, finalized.number, low);
    var entries := ReceiptRequests(blocks);
    if entries.None? {
      return Answer(None);
    }
    EntriesAreOfBlocks(blocks, |blocks|);
    if ReceiptsAll(t, finalized.hash, store, g) {
      ServedReceipts(t, finalized.hash, store, g, blocks);
    }
    var read := ReadLogs(store, blocks, entries.value, cfg.batch, g.receipt, g.receiptsRefused);
    if read.ReadError? {
      return ReadError;
    }
    if read.value.None? {
      return Answer(None);
    }
    GroupedIsOwn(t, store, blocks, read.value.value);
    var raw := CheckedLogs(t, store, keccak, event, blocks, read.value.value);
    if raw.None? {
      return Answer(None);
    }
    forall b | Honest(t, b) && !may(b) ensures StartedIn(t, store, event, b.hash) == [] {
      SkippedBlockIsEmpty(t, keccak, store, event, b);
    }
    CandidatesSuffice(t, store, event, may, finalized.hash, chain, finalized.number, low);
    SortedDownIsChainOrder(t, keccak, store, event, finalized.hash, low);
    return Answer(Some(Sorted(raw.value)));
  }

  lemma GroupedIsOwn(t: Tree, store: LogStore, blocks: seq<Block>, logsOf: map<Hash, seq<Log>>)
    requires HonestBlocks(t, blocks) && AllName(blocks) && logsOf.Keys == Hashes(blocks)
    requires Grouped(store, EntriesFor(blocks), |EntriesFor(blocks)|, logsOf)
    ensures OwnLogs(t, store, blocks, logsOf)
  {
    var entries := EntriesFor(blocks);
    assert entries[..|entries|] == entries;
    forall i | 0 <= i < |blocks|
      ensures blocks[i].hash in logsOf && logsOf[blocks[i].hash] == LogsOf(store, blocks[i].hash, t[blocks[i].hash].txs)
    {
      assert blocks[i].hash in Hashes(blocks);
      EntriesGroup(store, blocks, |blocks|, blocks[i].hash, t[blocks[i].hash].txs);
    }
  }

  // ---- Attempts ------------------------------------------------------------------------------------------

  /** One attempt: the finalized block answered and everything the gateway answers after it. */
  datatype Try = Try(finalized: Block, gateway: Gateway)

  ghost predicate HonestTry(t: Tree, store: LogStore, nodes: map<Hash, Substrate>, state: State, a: Try) {
    Honest(t, a.finalized) && HonestGateway(t, store, nodes, state, a.gateway)
  }

  /** Everything the attempt reads, down to block `kept`, is served from the finalized chain. */
  ghost predicate ServedTry(t: Tree, store: LogStore, state: State, event: Event, a: Try, kept: nat) {
    Linked(t) && Honest(t, a.finalized) && AllServed(t, store, state, event, a.finalized, a.gateway, DEFAULTS, kept)
  }

  /** The list is exact at the finalized block of the attempt, for the window from `low`. */
  ghost predicate ExactAt(t: Tree, store: LogStore, state: State, event: Event, a: Try, low: nat, requests: seq<Request>) {
    Linked(t) && a.finalized.hash in t && IsWindowFrom(t, a.finalized.hash, a.gateway, DEFAULTS, low) &&
    requests == Expected(t, store, state, event, a.finalized.hash, low)
  }

  method TryOnce(ghost t: Tree, ghost store: LogStore, ghost nodes: map<Hash, Substrate>, ghost state: State,
                 keccak: Keccak, event: Event, tries: nat -> Try, k: nat, ghost kept: nat -> nat)
    returns (r: Rpc<Option<seq<Request>>>, low: nat)
    requires Linked(t) && ValidLogs(t, keccak, store)
    requires forall i: nat {:trigger HonestTry(t, store, nodes, state, tries(i))} :: HonestTry(t, store, nodes, state, tries(i))
    ensures r.Answer? && r.value.Some? ==> ExactAt(t, store, state, event, tries(k), low, r.value.value)
    ensures ServedTry(t, store, state, event, tries(k), kept(k)) ==> r.Answer? && r.value.Some?
  {
    var a := tries(k);
    assert HonestTry(t, store, nodes, state, tries(k));
    r, low := ReclaimEventsAt(t, store, nodes, state, keccak, event, DEFAULTS, a.finalized, a.gateway, kept(k));
  }

  datatype Listing = Listed(requests: seq<Request>) | Unanswered | GivenUp

  /**
    `get_reclaim_events`: a list returned is exact at the finalized block of its attempt, and comes at the latest
    with the first attempt that is served in full; it is given up only after `RECLAIM_LIST_ATTEMPTS`.
   */
  method GetReclaimEvents(ghost t: Tree, ghost store: LogStore, ghost nodes: map<Hash, Substrate>, ghost state: State,
                          keccak: Keccak, event: Event, tries: nat -> Try, ghost kept: nat -> nat)
    returns (r: Listing, which: nat, low: nat)
    requires Linked(t) && ValidLogs(t, keccak, store)
    requires forall i: nat {:trigger HonestTry(t, store, nodes, state, tries(i))} :: HonestTry(t, store, nodes, state, tries(i))
    ensures which < RECLAIM_LIST_ATTEMPTS
    ensures r.Listed? ==> ExactAt(t, store, state, event, tries(which), low, r.requests)
    ensures forall i: nat {:trigger ServedTry(t, store, state, event, tries(i), kept(i))} ::
      i < which || (i == which && !r.Listed?) ==> !ServedTry(t, store, state, event, tries(i), kept(i))
    ensures r.GivenUp? ==> which == RECLAIM_LIST_ATTEMPTS - 1
  {
    low := 0;
    for k := 0 to RECLAIM_LIST_ATTEMPTS
      invariant forall i: nat {:trigger ServedTry(t, store, state, event, tries(i), kept(i))} ::
        i < k ==> !ServedTry(t, store, state, event, tries(i), kept(i))
    {
      var answer;
      answer, low := TryOnce(t, store, nodes, state, keccak, event, tries, k, kept);
      if answer.ReadError? {
        return Unanswered, k, low;
      }
      if answer.value.Some? {
        return Listed(answer.value.value), k, low;
      }
    }
    return GivenUp, RECLAIM_LIST_ATTEMPTS - 1, low;
  }

  // ---- A served gateway ------------------------------------------------------------------------------------

  function OneBlock(txs: seq<Tx>, bloom: Bytes): Block {
    Block(0, 0, 0, Some(txs), Some(bloom))
  }

  /** A gateway that has one block with one transaction, and the state of the block. */
  function OneBlockGateway(tx: Tx, bloom: Bytes, logs: seq<Log>, reclaims: nat -> Reclaim): Gateway {
    Gateway(
      Reads(n => None, n => false),
      (h, x) => if h == 0 && x == tx then Some(WireReceipt(tx, 0, logs)) else None,
      n => false,
      (i: nat, id: nat) => StorageReads(Answer(Some(OneBlock([tx], bloom))), Answer(Some(0)), Answer(Some(0)), Answer(reclaims(id))))
  }

  ghost function OneBlockTree(tx: Tx, bloom: Bytes): Tree {
    map[0 := Header(0, 0, [tx], bloom)]
  }

  ghost function OneBlockStore(tx: Tx, logs: seq<Log>): LogStore {
    map[(0, tx) := logs]
  }

  lemma OneBlockIsValid(keccak: Keccak, event: Event, tx: Tx, logs: seq<Log>, bloom: Bytes)
    requires IsBloom(keccak, logs, bloom) && Ordered(logs)
    requires forall log :: log in logs ==> log.blockHash == 0 && log.blockNumber == 0 && !log.removed
    ensures var t, store := OneBlockTree(tx, bloom), OneBlockStore(tx, logs);
      Linked(t) && ValidLogs(t, keccak, store) && Honest(t, OneBlock([tx], bloom)) &&
      StartedUpTo(t, store, event, 0, 0, 0) == Started(event, logs)
  {
    var t, store := OneBlockTree(tx, bloom), OneBlockStore(tx, logs);
    assert [tx][1..] == [];
    assert LogsOf(store, 0, [tx]) == logs;
    assert ValidBlockLogs(t, keccak, store, 0);
    assert AncestorAt(t, 0, 0) == 0;
    assert StartedUpTo(t, store, event, 0, 0, -1) == [];
  }

  lemma OneBlockIsHonest(tx: Tx, logs: seq<Log>, bloom: Bytes, reclaims: nat -> Reclaim)
    ensures HonestGateway(OneBlockTree(tx, bloom), OneBlockStore(tx, logs), map[0 := Substrate(Some(0), reclaims)],
                          h => reclaims, OneBlockGateway(tx, bloom, logs, reclaims))
  {
  }

  /**
    A fully served gateway exists, whatever the block logged: the promise that a list is returned then is about
    real gateways.  The logs are any that a block can hold, open requests among them.
   */
  lemma OneBlockIsServed(keccak: Keccak, event: Event, tx: Tx, logs: seq<Log>, bloom: Bytes, reclaims: nat -> Reclaim,
                         cfg: Settings)
    requires IsBloom(keccak, logs, bloom) && Ordered(logs) && StateMatches(reclaims, Started(event, logs))
    requires forall log :: log in logs ==> log.blockHash == 0 && log.blockNumber == 0 && !log.removed
    ensures var t, store, state: State := OneBlockTree(tx, bloom), OneBlockStore(tx, logs), h => reclaims;
      var f, g := OneBlock([tx], bloom), OneBlockGateway(tx, bloom, logs, reclaims);
      Linked(t) && ValidLogs(t, keccak, store) && Honest(t, f) &&
      HonestGateway(t, store, map[0 := Substrate(Some(0), reclaims)], state, g) &&
      AllServed(t, store, state, event, f, g, cfg, 0) &&
      Expected(t, store, state, event, 0, 0) == OpenRequests(reclaims, Started(event, logs))
  {
    OneBlockIsValid(keccak, event, tx, logs, bloom);
    OneBlockIsHonest(tx, logs, bloom, reclaims);
    OneBlockReads(tx, logs, bloom, reclaims, cfg);
  }

  lemma OneBlockReads(tx: Tx, logs: seq<Log>, bloom: Bytes, reclaims: nat -> Reclaim, cfg: Settings)
    requires Linked(OneBlockTree(tx, bloom))
    ensures var t, f, g := OneBlockTree(tx, bloom), OneBlock([tx], bloom), OneBlockGateway(tx, bloom, logs, reclaims);
      Honest(t, f) && BlocksServed(t, f, g, cfg, 0) && ReceiptsAll(t, 0, OneBlockStore(tx, logs), g) && StorageAll(0, g)
  {
  }
}
