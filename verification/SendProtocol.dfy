/**
  Sending, settling and replacing collateral transactions, as a machine of interleaved processes.

  Every statement of the source that touches the record file, the lock, the network or the log is one step.
  The answers of the RPC are arguments of the steps.  A process may leave at any point (it returns, raises or
  is killed; the kernel then drops its lock), finality may advance at any point, and any number of processes
  with any keys share one record file.
 */
module SendProtocol {
  import opened Common
  import opened Ledger
  import opened ChainReader

  const GAS_LIMIT: nat := 200_000
  const PRICE_BUMP: nat := 9
  const PRICE_BASE: nat := 8

  type Pid = nat

  /** The function selectors are the first four bytes of the signature hashes of the two calls this client signs. */
  datatype Config = Config(chainId: nat, ceiling: nat, contracts: set<Address>, reclaim: Bytes, finalize: Bytes)

  datatype Raw = Undecodable | Legacy(tx: Tx)

  /** `hashes` is empty in a record an older release wrote. */
  datatype Record = Record(nonce: nat, hash: Tx, raw: Raw, hashes: seq<Tx>)

  datatype Op =
    | Send(to: Address, data: Bytes, gasPrice: nat)
    | Settle
    | Replace(quote: nat)

  /** Which wait a scan for receipts belongs to: before any broadcast, after broadcasting again, after a new send. */
  datatype Phase = Before | Again | Fresh

  datatype Pc =
    | WantLock
    | AtRecord
    | Scan(record: Record, i: nat, phase: Phase)
    | AtNonce(record: Record)
    | PickNonce
    | AtWrite(record: Record, phase: Phase)
    | AtBroadcast(record: Record, phase: Phase)
    | Outcome(record: Record, receipt: Receipt, phase: Phase)
    | AtClear(record: Record, receipt: Receipt)
    | Finished

  datatype Proc = Proc(key: Address, op: Op, pc: Pc)

  datatype Line = Line(tx: Tx, request: Option<nat>)

  /**
    `sent` holds every transaction ever handed to the network, `log` every outcome line, and `closed` the
    receipts on which a record was dropped.
   */
  datatype World = World(
    fin: Hash,
    file: map<Address, Record>,
    lock: Option<Pid>,
    procs: map<Pid, Proc>,
    sent: set<Tx>,
    log: set<Line>,
    closed: set<Receipt>)

  datatype Action =
    | Finalize(block: Hash)
    | Begin(p: Pid, key: Address, op: Op)
    | Acquire(p: Pid)
    | Leave(p: Pid)
    | Look(p: Pid)
    | Miss(p: Pid)
    | Dropped(p: Pid, receipt: Receipt)
    | Found(p: Pid, receipt: Receipt)
    | EndScan(p: Pid)
    | NonceUnused(p: Pid, latest: nat, parity: nat)
    | Pick(p: Pid, latest: nat, pending: nat, parity: nat)
    | WriteRecord(p: Pid)
    | Broadcast(p: Pid, reached: bool)
    | LogOutcome(p: Pid)
    | ClearRecord(p: Pid, written: bool)

  // ---- Records ---------------------------------------------------------------------------------------

  /** Every signed transaction of a record at its nonce: the first send and each replacement. */
  function RecordHashes(r: Record): (hs: seq<Tx>)
    ensures hs != []
  {
    if r.hashes == [] then [r.hash] else r.hashes
  }

  /** The price of a replacement: the quote, or 9/8 of the last price rounded up if that is more. */
  function BumpedPrice(price: nat, quote: nat): (r: nat)
    ensures PRICE_BASE * r >= PRICE_BUMP * price && r >= quote
    ensures r == quote || PRICE_BASE * (r - 1) < PRICE_BUMP * price
  {
    var bumped: int := -((-(price as int) * PRICE_BUMP) / PRICE_BASE);
    if quote < bumped then bumped else quote
  }

  function SignatureV(chainId: nat, parity: nat): nat {
    35 + 2 * chainId + parity % 2
  }

  predicate CallsSentFunction(cfg: Config, data: Bytes) {
    |data| >= 4 && (data[..4] == cfg.reclaim || data[..4] == cfg.finalize)
  }

  predicate CallsReclaim(cfg: Config, raw: Raw) {
    raw.Legacy? && cfg.reclaim <= raw.tx.data
  }

  /** `_verified_earlier_send`: whether the recorded bytes are a collateral call this key signed. */
  predicate Verified(cfg: Config, key: Address, r: Record) {
    r.raw.Legacy? &&
    var tx := r.raw.tx;
    tx == r.hash && tx.signer == key && tx.nonce == r.nonce &&
    !(tx.v < 35 || (tx.v - 35) / 2 != cfg.chainId) &&
    tx.to in cfg.contracts && tx.value == 0 && tx.gas <= GAS_LIMIT && CallsSentFunction(cfg, tx.data)
  }

  predicate SameCall(a: Tx, b: Tx) {
    a.to == b.to && a.value == b.value && a.data == b.data && a.gas == b.gas
  }

  /** The record a run writes before it broadcasts a new send. */
  function NewRecord(cfg: Config, key: Address, op: Op, nonce: nat, parity: nat): Record
    requires op.Send?
  {
    var tx := Tx(key, nonce, op.gasPrice, GAS_LIMIT, op.to, 0, op.data, SignatureV(cfg.chainId, parity));
    Record(nonce, tx, Legacy(tx), [tx])
  }

  /** The record a run writes before it broadcasts a replacement. */
  function ReplacedRecord(cfg: Config, key: Address, r: Record, quote: nat, parity: nat): Record
    requires r.raw.Legacy?
  {
    var earlier := r.raw.tx;
    var tx := Tx(key, r.nonce, BumpedPrice(earlier.gasPrice, quote), earlier.gas, earlier.to, earlier.value,
                 earlier.data, SignatureV(cfg.chainId, parity));
    Record(r.nonce, tx, Legacy(tx), RecordHashes(r) + [tx])
  }

  // ---- Steps -----------------------------------------------------------------------------------------

  function At(w: World, p: Pid, pc: Pc): World
    requires p in w.procs
  {
    w.(procs := w.procs[p := w.procs[p].(pc := pc)])
  }

  /** A run that waits for its only transaction raises on a receipt that is off the finalized chain. */
  predicate WaitsForOne(pc: Pc)
    requires pc.Scan?
  {
    !pc.phase.Before? && |RecordHashes(pc.record)| == 1
  }

  /** What the outcome line says; it names the first request the receipt's events started. */
  function OutcomeLine(receipt: Receipt): Line {
    Line(receipt.tx, if receipt.status == 1 && receipt.started != [] then Some(receipt.started[0]) else None)
  }

  /** The next state, or None when the process is not at that statement or raises there instead. */
  ghost function Next(t: Tree, cfg: Config, w: World, a: Action): Option<World>
    requires Linked(t)
  {
    match a
    case Finalize(block) =>
      if Ancestor(t, w.fin, block) then Some(w.(fin := block)) else None
    case Begin(p, key, op) =>
      if p !in w.procs &&
         (op.Send? ==> op.gasPrice <= cfg.ceiling && op.to in cfg.contracts && CallsSentFunction(cfg, op.data))
      then Some(w.(procs := w.procs[p := Proc(key, op, WantLock)])) else None
    case _ => if a.p in w.procs then StepOf(t, cfg, w, a, w.procs[a.p].key, w.procs[a.p].op, w.procs[a.p].pc) else None
  }

  /** One statement of process `a.p`, which is at `pc`. */
  ghost function StepOf(t: Tree, cfg: Config, w: World, a: Action, key: Address, op: Op, pc: Pc): Option<World>
    requires Linked(t) && !a.Finalize? && !a.Begin? && a.p in w.procs
  {
    match a
    case Leave(p) =>
      Some(w.(procs := w.procs - {p}, lock := if w.lock == Some(p) then None else w.lock))
    case Acquire(p) =>
      if pc.WantLock? && w.lock.None? then Some(At(w, p, AtRecord).(lock := Some(p))) else None
    case Look(p) =>
      if !pc.AtRecord? then None
      else if key !in w.file then (if op.Send? then Some(At(w, p, PickNonce)) else None)
      else if op.Replace? && !Verified(cfg, key, w.file[key]) then None
      else Some(At(w, p, Scan(w.file[key], 0, Before)))
    case Miss(p) =>
      if pc.Scan? && pc.i < |RecordHashes(pc.record)| then Some(At(w, p, pc.(i := pc.i + 1))) else None
    case Dropped(p, receipt) =>
      if pc.Scan? && IsReceiptOf(t, pc, receipt) && !Ancestor(t, receipt.blockHash, w.fin) && !WaitsForOne(pc)
      then Some(At(w, p, pc.(i := pc.i + 1))) else None
    case Found(p, receipt) =>
      if pc.Scan? && IsReceiptOf(t, pc, receipt) && Ancestor(t, receipt.blockHash, w.fin)
      then Some(At(w, p, Outcome(pc.record, receipt, pc.phase))) else None
    case EndScan(p) =>
      if !pc.Scan? || pc.i != |RecordHashes(pc.record)| then None
      else if pc.phase.Before? then Some(At(w, p, AtNonce(pc.record)))
      else Some(At(w, p, pc.(i := 0)))
    case NonceUnused(p, latest, parity) =>
      if !pc.AtNonce? || latest > pc.record.nonce then None
      else if !op.Replace? then Some(At(w, p, AtBroadcast(pc.record, Again)))
      else if pc.record.raw.Legacy? && BumpedPrice(pc.record.raw.tx.gasPrice, op.quote) <= cfg.ceiling
      then Some(At(w, p, AtWrite(ReplacedRecord(cfg, key, pc.record, op.quote, parity), Again)))
      else None
    case Pick(p, latest, pending, parity) =>
      if !pc.PickNonce? || pending > latest || !op.Send? then None
      else Some(At(w, p, AtWrite(NewRecord(cfg, key, op, latest, parity), Fresh)))
    case WriteRecord(p) =>
      if !pc.AtWrite? then None
      else Some(At(w, p, AtBroadcast(pc.record, pc.phase)).(file := w.file[key := pc.record]))
    case Broadcast(p, reached) =>
      if !pc.AtBroadcast? then None
      else Some(At(w, p, Scan(pc.record, 0, pc.phase)).(sent := w.sent + SentBy(pc.record, reached)))
    case LogOutcome(p) =>
      if !pc.Outcome? || (pc.receipt.status == 1 && CallsReclaim(cfg, pc.record.raw) && pc.receipt.started == []) then None
      else Some(At(w, p, AtClear(pc.record, pc.receipt)).(log := w.log + LoggedBy(pc.receipt, pc.phase)))
    case ClearRecord(p, written) =>
      if !pc.AtClear? then None
      else if written && key in w.file && w.file[key].hash == pc.record.hash
      then Some(At(w, p, Finished).(file := w.file - {key}, closed := w.closed + {pc.receipt}))
      else Some(At(w, p, Finished))
  }

  /** The receipt is of the transaction the scan is at, and names a block that holds it. */
  ghost predicate IsReceiptOf(t: Tree, pc: Pc, receipt: Receipt)
    requires pc.Scan?
  {
    pc.i < |RecordHashes(pc.record)| && receipt.tx == RecordHashes(pc.record)[pc.i] && HonestReceipt(t, receipt)
  }

  /** What a broadcast may put on the network: the recorded bytes, if the request reached any node. */
  function SentBy(r: Record, reached: bool): set<Tx> {
    if reached && r.raw.Legacy? then {r.raw.tx} else {}
  }

  /** A run that sent a new transaction reports its revert in the error only. */
  function LoggedBy(receipt: Receipt, phase: Phase): set<Line> {
    if phase.Fresh? && receipt.status == 0 then {} else {OutcomeLine(receipt)}
  }

  ghost function Run(t: Tree, cfg: Config, w: World, actions: seq<Action>): Option<World>
    requires Linked(t)
    decreases |actions|
  {
    if actions == [] then Some(w)
    else match Next(t, cfg, w, actions[0])
      case None => None
      case Some(next) => Run(t, cfg, next, actions[1..])
  }

  /**
    The verdicts of the chain reader are what the scan's two steps ask for: a receipt found to be on the finalized
    chain enables `Found`, and one found to be off it enables `Dropped`, unless the run waits for it alone.
   */
  method ReadVerdict(ghost t: Tree, ghost cfg: Config, ghost w: World, ghost p: Pid, receipt: Receipt,
                     polls: nat -> Poll, batch: nat)
    returns (v: Verdict)
    requires Linked(t) && w.fin in t && p in w.procs && w.procs[p].pc.Scan? && IsReceiptOf(t, w.procs[p].pc, receipt)
    requires batch > 0 && forall i: nat :: HonestPoll(t, w.fin, polls(i))
    ensures v.OnChain? ==> Next(t, cfg, w, Found(p, receipt)).Some? && Next(t, cfg, w, Dropped(p, receipt)).None?
    ensures v.Orphaned? ==>
      Next(t, cfg, w, Found(p, receipt)).None? &&
      (Next(t, cfg, w, Dropped(p, receipt)).Some? <==> !WaitsForOne(w.procs[p].pc))
  {
    v := FinalizedOnChain(t, w.fin, receipt, polls, batch);
    assert Ancestor(t, w.fin, w.fin);
  }

  // ---- What every step keeps -------------------------------------------------------------------------

  ghost predicate ClientCall(cfg: Config, tx: Tx) {
    tx.value == 0 && tx.gas <= GAS_LIMIT && tx.to in cfg.contracts && CallsSentFunction(cfg, tx.data) &&
    35 <= tx.v && (tx.v - 35) / 2 == cfg.chainId && tx.gasPrice <= cfg.ceiling
  }

  /** One nonce, one call, and prices that each outbid the one before by the pools' minimum. */
  ghost predicate Bids(cfg: Config, key: Address, nonce: nat, hs: seq<Tx>) {
    (forall i :: 0 <= i < |hs| ==>
       hs[i].signer == key && hs[i].nonce == nonce && SameCall(hs[i], hs[0]) && ClientCall(cfg, hs[i])) &&
    (forall i :: 0 < i < |hs| ==> PRICE_BASE * hs[i].gasPrice >= PRICE_BUMP * hs[i - 1].gasPrice)
  }

  ghost predicate GoodRecord(cfg: Config, key: Address, r: Record) {
    var hs := RecordHashes(r);
    r.raw == Legacy(r.hash) && hs[|hs| - 1] == r.hash && Bids(cfg, key, r.nonce, hs)
  }

  predicate Holds(pc: Pc) {
    !pc.WantLock?
  }

  ghost predicate GoodProc(t: Tree, cfg: Config, fin: Hash, file: map<Address, Record>, log: set<Line>, proc: Proc)
    requires Linked(t) && fin in t
  {
    var key := proc.key;
    (proc.op.Send? ==>
       proc.op.gasPrice <= cfg.ceiling && proc.op.to in cfg.contracts && CallsSentFunction(cfg, proc.op.data)) &&
    match proc.pc
    case Scan(r, i, _) => key in file && file[key] == r && i <= |RecordHashes(r)|
    case AtNonce(r) => key in file && file[key] == r
    case AtBroadcast(r, _) => key in file && file[key] == r
    case PickNonce => key !in file
    case AtWrite(r, _) =>
      GoodRecord(cfg, key, r) && (key in file ==> forall tx :: tx in RecordHashes(file[key]) ==> tx in RecordHashes(r))
    case Outcome(r, receipt, _) => key in file && file[key] == r && SettlesRecord(t, fin, r, receipt)
    case AtClear(r, receipt) =>
      key in file && file[key] == r && SettlesRecord(t, fin, r, receipt) && Reported(cfg, log, receipt)
    case _ => true
  }

  /** The receipt is of a transaction of the record, in a block of the finalized chain. */
  ghost predicate SettlesRecord(t: Tree, fin: Hash, r: Record, receipt: Receipt)
    requires Linked(t) && fin in t
  {
    receipt.tx in RecordHashes(r) && Mined(t, fin, receipt.tx)
  }

  /** A successful reclaim has a log line with a request ID from its receipt. */
  ghost predicate Reported(cfg: Config, log: set<Line>, receipt: Receipt) {
    receipt.status == 1 && cfg.reclaim <= receipt.tx.data ==>
      exists id :: id in receipt.started && Line(receipt.tx, Some(id)) in log
  }

  /** The transaction is in the record of its key, or its nonce is used on the finalized chain. */
  ghost predicate Covered(t: Tree, fin: Hash, file: map<Address, Record>, tx: Tx)
    requires Linked(t) && fin in t
  {
    (tx.signer in file && tx in RecordHashes(file[tx.signer])) || tx.nonce < NonceAt(t, fin, tx.signer)
  }

  ghost predicate GoodLock(w: World) {
    forall p :: p in w.procs && Holds(w.procs[p].pc) ==> w.lock == Some(p)
  }

  ghost predicate Inv(t: Tree, cfg: Config, w: World)
    requires ValidTree(t)
  {
    w.fin in t && GoodLock(w) &&
    (forall key :: key in w.file ==> GoodRecord(cfg, key, w.file[key])) &&
    (forall p :: p in w.procs ==> GoodProc(t, cfg, w.fin, w.file, w.log, w.procs[p])) &&
    (forall tx :: tx in w.sent ==> Covered(t, w.fin, w.file, tx)) &&
    (forall receipt :: receipt in w.closed ==> Reported(cfg, w.log, receipt))
  }

  /** No process runs; each key has no record or one of this client's, of the older form or the current one. */
  ghost predicate Init(t: Tree, cfg: Config, w: World)
    requires ValidTree(t)
  {
    w.fin in t && w.lock.None? && w.procs == map[] && w.log == {} && w.closed == {} &&
    (forall key :: key in w.file ==> GoodRecord(cfg, key, w.file[key])) &&
    (forall tx :: tx in w.sent ==> tx.signer in w.file && tx in RecordHashes(w.file[tx.signer]))
  }

  lemma MinedThroughReceipt(t: Tree, fin: Hash, receipt: Receipt)
    requires Linked(t) && HonestReceipt(t, receipt) && Ancestor(t, receipt.blockHash, fin)
    ensures Mined(t, fin, receipt.tx)
  {
    assert receipt.tx in t[AncestorAt(t, fin, t[receipt.blockHash].number)].txs;
  }

  lemma StaysMined(t: Tree, f: Hash, h: Hash, tx: Tx)
    requires Linked(t) && Ancestor(t, f, h) && Mined(t, f, tx)
    ensures Mined(t, h, tx)
  {
    var n: nat :| n <= t[f].number && tx in t[AncestorAt(t, f, n)].txs;
    AncestorAtComposes(t, h, t[f].number, n);
  }

  lemma FinalizeKeeps(t: Tree, cfg: Config, w: World, block: Hash)
    requires ValidTree(t) && Inv(t, cfg, w) && Ancestor(t, w.fin, block)
    ensures Inv(t, cfg, w.(fin := block))
  {
    forall tx | tx in w.sent ensures Covered(t, block, w.file, tx) {
      NonceGrows(t, block, t[w.fin].number, tx.signer);
    }
    forall tx | Mined(t, w.fin, tx) ensures Mined(t, block, tx) {
      StaysMined(t, w.fin, block, tx);
    }
  }

  lemma ReplacementIsGood(cfg: Config, key: Address, r: Record, quote: nat, parity: nat)
    requires GoodRecord(cfg, key, r) && BumpedPrice(r.raw.tx.gasPrice, quote) <= cfg.ceiling
    ensures GoodRecord(cfg, key, ReplacedRecord(cfg, key, r, quote, parity))
  {
    var next := ReplacedRecord(cfg, key, r, quote, parity);
    var hs, more := RecordHashes(r), RecordHashes(next);
    assert forall i :: 0 <= i < |hs| ==> more[i] == hs[i];
    assert SameCall(hs[|hs| - 1], hs[0]) && ClientCall(cfg, hs[|hs| - 1]);
    assert hs[0] == more[0];
  }

  /**
    A step of the process that holds the lock.  Every other process waits for the lock, so only the acting
    process's own view has to be checked against the new file.
   */
  lemma LockedStepKeeps(t: Tree, cfg: Config, w: World, v: World, p: Pid)
    requires ValidTree(t) && Inv(t, cfg, w) && p in w.procs && Holds(w.procs[p].pc)
    requires v.fin == w.fin && v.lock == w.lock && p in v.procs && v.procs == w.procs[p := v.procs[p]]
    requires GoodProc(t, cfg, v.fin, v.file, v.log, v.procs[p])
    requires forall key :: key in v.file ==> GoodRecord(cfg, key, v.file[key])
    requires forall tx :: tx in v.sent ==> Covered(t, v.fin, v.file, tx)
    requires forall receipt :: receipt in v.closed ==> Reported(cfg, v.log, receipt)
    ensures Inv(t, cfg, v)
  {
    forall q | q in v.procs ensures GoodProc(t, cfg, v.fin, v.file, v.log, v.procs[q]) {
      if q != p {
        assert GoodProc(t, cfg, w.fin, w.file, w.log, w.procs[q]);
        assert w.procs[q].pc.WantLock?;
      }
    }
  }

  /** A statement that changes only the place of the process that holds the lock. */
  lemma MoveKeeps(t: Tree, cfg: Config, w: World, p: Pid, pc: Pc)
    requires ValidTree(t) && Inv(t, cfg, w) && p in w.procs && Holds(w.procs[p].pc)
    requires GoodProc(t, cfg, w.fin, w.file, w.log, w.procs[p].(pc := pc))
    ensures Inv(t, cfg, At(w, p, pc))
  {
    LockedStepKeeps(t, cfg, w, At(w, p, pc), p);
  }

  lemma WriteKeeps(t: Tree, cfg: Config, w: World, p: Pid)
    requires ValidTree(t) && Inv(t, cfg, w) && p in w.procs && w.procs[p].pc.AtWrite?
    ensures Inv(t, cfg, Next(t, cfg, w, WriteRecord(p)).value)
  {
    var v := Next(t, cfg, w, WriteRecord(p)).value;
    var proc := w.procs[p];
    assert GoodProc(t, cfg, w.fin, w.file, w.log, proc);
    forall tx | tx in v.sent ensures Covered(t, v.fin, v.file, tx) {
      assert Covered(t, w.fin, w.file, tx);
    }
    LockedStepKeeps(t, cfg, w, v, p);
  }

  lemma ClearNext(t: Tree, cfg: Config, w: World, p: Pid, written: bool)
    requires Linked(t) && p in w.procs && w.procs[p].pc.AtClear?
    requires w.procs[p].key in w.file && w.file[w.procs[p].key] == w.procs[p].pc.record
    ensures var done := At(w, p, Finished);
      Next(t, cfg, w, ClearRecord(p, written)) ==
      Some(if written then done.(file := w.file - {w.procs[p].key}, closed := w.closed + {w.procs[p].pc.receipt}) else done)
  {
  }

  lemma ClearKeeps(t: Tree, cfg: Config, w: World, p: Pid, written: bool)
    requires ValidTree(t) && Inv(t, cfg, w) && p in w.procs && w.procs[p].pc.AtClear?
    ensures Inv(t, cfg, Next(t, cfg, w, ClearRecord(p, written)).value)
  {
    var proc := w.procs[p];
    assert GoodProc(t, cfg, w.fin, w.file, w.log, proc);
    ClearNext(t, cfg, w, p, written);
    MoveKeeps(t, cfg, w, p, Finished);
    if written {
      DropKeeps(t, cfg, At(w, p, Finished), p, proc.key, proc.pc.receipt);
    }
  }

  lemma DropKeeps(t: Tree, cfg: Config, w: World, p: Pid, key: Address, receipt: Receipt)
    requires ValidTree(t) && Inv(t, cfg, w) && p in w.procs && w.procs[p].pc == Finished && key in w.file
    requires SettlesRecord(t, w.fin, w.file[key], receipt) && Reported(cfg, w.log, receipt)
    ensures Inv(t, cfg, w.(file := w.file - {key}, closed := w.closed + {receipt}))
  {
    forall tx | tx in w.sent ensures Covered(t, w.fin, w.file - {key}, tx) {
      ClearedIsClosed(t, cfg, w.fin, w.file, key, receipt, tx);
    }
    var v := w.(file := w.file - {key}, closed := w.closed + {receipt});
    assert v.procs == w.procs[p := w.procs[p]];
    LockedStepKeeps(t, cfg, w, v, p);
  }

  /** Dropping a record on a final receipt leaves none of its transactions open: they share the used nonce. */
  lemma ClearedIsClosed(t: Tree, cfg: Config, fin: Hash, file: map<Address, Record>, key: Address, receipt: Receipt, tx: Tx)
    requires ValidTree(t) && fin in t && key in file && GoodRecord(cfg, key, file[key])
    requires SettlesRecord(t, fin, file[key], receipt) && Covered(t, fin, file, tx)
    ensures Covered(t, fin, file - {key}, tx)
  {
    MinedUsesNonce(t, fin, receipt.tx);
  }

  lemma LogKeeps(t: Tree, cfg: Config, w: World, p: Pid)
    requires ValidTree(t) && Inv(t, cfg, w) && p in w.procs && w.procs[p].pc.Outcome?
    requires Next(t, cfg, w, LogOutcome(p)).Some?
    ensures Inv(t, cfg, Next(t, cfg, w, LogOutcome(p)).value)
  {
    var v := Next(t, cfg, w, LogOutcome(p)).value;
    var proc := w.procs[p];
    var receipt := proc.pc.receipt;
    assert GoodProc(t, cfg, w.fin, w.file, w.log, proc);
    assert GoodRecord(cfg, proc.key, proc.pc.record);
    assert receipt.tx.data == proc.pc.record.raw.tx.data;
    assert Reported(cfg, v.log, receipt) by {
      if receipt.started != [] {
        assert receipt.started[0] in receipt.started;
      }
    }
    LockedStepKeeps(t, cfg, w, v, p);
  }

  lemma BroadcastKeeps(t: Tree, cfg: Config, w: World, p: Pid, reached: bool)
    requires ValidTree(t) && Inv(t, cfg, w) && p in w.procs && w.procs[p].pc.AtBroadcast?
    ensures Inv(t, cfg, Next(t, cfg, w, Broadcast(p, reached)).value)
  {
    var v := Next(t, cfg, w, Broadcast(p, reached)).value;
    var proc := w.procs[p];
    assert GoodProc(t, cfg, w.fin, w.file, w.log, proc);
    assert GoodRecord(cfg, proc.key, proc.pc.record);
    LockedStepKeeps(t, cfg, w, v, p);
  }

  lemma LookKeeps(t: Tree, cfg: Config, w: World, p: Pid)
    requires ValidTree(t) && Inv(t, cfg, w) && Next(t, cfg, w, Look(p)).Some?
    ensures Inv(t, cfg, Next(t, cfg, w, Look(p)).value)
  {
    var proc := w.procs[p];
    assert GoodProc(t, cfg, w.fin, w.file, w.log, proc);
    MoveKeeps(t, cfg, w, p, if proc.key in w.file then Scan(w.file[proc.key], 0, Before) else PickNonce);
  }

  lemma ScanKeeps(t: Tree, cfg: Config, w: World, a: Action)
    requires ValidTree(t) && Inv(t, cfg, w) && Next(t, cfg, w, a).Some?
    requires a.Miss? || a.Dropped? || a.EndScan?
    ensures Inv(t, cfg, Next(t, cfg, w, a).value)
  {
    var proc := w.procs[a.p];
    assert GoodProc(t, cfg, w.fin, w.file, w.log, proc);
    MoveKeeps(t, cfg, w, a.p, Next(t, cfg, w, a).value.procs[a.p].pc);
  }

  lemma FoundKeeps(t: Tree, cfg: Config, w: World, p: Pid, receipt: Receipt)
    requires ValidTree(t) && Inv(t, cfg, w) && Next(t, cfg, w, Found(p, receipt)).Some?
    ensures Inv(t, cfg, Next(t, cfg, w, Found(p, receipt)).value)
  {
    var pc := w.procs[p].pc;
    assert GoodProc(t, cfg, w.fin, w.file, w.log, w.procs[p]);
    MinedThroughReceipt(t, w.fin, receipt);
    MoveKeeps(t, cfg, w, p, Outcome(pc.record, receipt, pc.phase));
  }

  lemma SignKeeps(t: Tree, cfg: Config, w: World, a: Action)
    requires ValidTree(t) && Inv(t, cfg, w) && Next(t, cfg, w, a).Some?
    requires a.NonceUnused? || a.Pick?
    ensures Inv(t, cfg, Next(t, cfg, w, a).value)
  {
    var proc := w.procs[a.p];
    assert GoodProc(t, cfg, w.fin, w.file, w.log, proc);
    if a.NonceUnused? && proc.op.Replace? {
      ReplacementIsGood(cfg, proc.key, proc.pc.record, proc.op.quote, a.parity);
    }
    MoveKeeps(t, cfg, w, a.p, Next(t, cfg, w, a).value.procs[a.p].pc);
  }

  lemma EnterLeaveKeeps(t: Tree, cfg: Config, w: World, a: Action)
    requires ValidTree(t) && Inv(t, cfg, w) && Next(t, cfg, w, a).Some?
    requires a.Begin? || a.Acquire? || a.Leave?
    ensures Inv(t, cfg, Next(t, cfg, w, a).value)
  {
    var v := Next(t, cfg, w, a).value;
    forall q | q in v.procs ensures GoodProc(t, cfg, v.fin, v.file, v.log, v.procs[q]) {
      assert q in w.procs ==> GoodProc(t, cfg, w.fin, w.file, w.log, w.procs[q]);
    }
  }

  lemma StepKeeps(t: Tree, cfg: Config, w: World, a: Action)
    requires ValidTree(t) && Inv(t, cfg, w) && Next(t, cfg, w, a).Some?
    ensures Inv(t, cfg, Next(t, cfg, w, a).value)
  {
    match a
    case Finalize(block) => FinalizeKeeps(t, cfg, w, block);
    case Begin(_, _, _) => EnterLeaveKeeps(t, cfg, w, a);
    case Acquire(_) => EnterLeaveKeeps(t, cfg, w, a);
    case Leave(_) => EnterLeaveKeeps(t, cfg, w, a);
    case WriteRecord(p) => WriteKeeps(t, cfg, w, p);
    case Broadcast(p, reached) => BroadcastKeeps(t, cfg, w, p, reached);
    case LogOutcome(p) => LogKeeps(t, cfg, w, p);
    case ClearRecord(p, written) => ClearKeeps(t, cfg, w, p, written);
    case Look(p) => LookKeeps(t, cfg, w, p);
    case Found(p, receipt) => FoundKeeps(t, cfg, w, p, receipt);
    case NonceUnused(_, _, _) => SignKeeps(t, cfg, w, a);
    case Pick(_, _, _, _) => SignKeeps(t, cfg, w, a);
    case _ => ScanKeeps(t, cfg, w, a);
  }

  /** Every state of every run meets the invariant. */
  lemma {:induction false} RunKeeps(t: Tree, cfg: Config, w: World, actions: seq<Action>)
    requires ValidTree(t) && Inv(t, cfg, w) && Run(t, cfg, w, actions).Some?
    ensures Inv(t, cfg, Run(t, cfg, w, actions).value)
    decreases |actions|
  {
    if actions != [] {
      StepKeeps(t, cfg, w, actions[0]);
      RunKeeps(t, cfg, Next(t, cfg, w, actions[0]).value, actions[1..]);
    }
  }

  ghost predicate Reachable(t: Tree, cfg: Config, w: World)
    requires ValidTree(t)
  {
    w.fin in t && exists w0, actions :: Init(t, cfg, w0) && Run(t, cfg, w0, actions) == Some(w)
  }

  lemma ReachableInv(t: Tree, cfg: Config, w: World)
    requires ValidTree(t) && Reachable(t, cfg, w)
    ensures Inv(t, cfg, w)
  {
    var w0, actions :| Init(t, cfg, w0) && Run(t, cfg, w0, actions) == Some(w);
    RunKeeps(t, cfg, w0, actions);
  }

  // ---- The promises ----------------------------------------------------------------------------------

  /** Each transaction ever broadcast is in its key's record or at a nonce a finalized transaction used. */
  lemma EverySendIsRecordedOrClosed(t: Tree, cfg: Config, w: World, tx: Tx)
    requires ValidTree(t) && Reachable(t, cfg, w) && tx in w.sent
    ensures Covered(t, w.fin, w.file, tx)
  {
    ReachableInv(t, cfg, w);
  }

  /** With no record, whatever was broadcast is either final already or on no block above the finalized one. */
  lemma NoRecordNothingPending(t: Tree, cfg: Config, w: World, tx: Tx, h: Hash)
    requires ValidTree(t) && Reachable(t, cfg, w) && tx in w.sent && tx.signer !in w.file
    requires Ancestor(t, w.fin, h) && Mined(t, h, tx)
    ensures Mined(t, w.fin, tx)
  {
    ReachableInv(t, cfg, w);
    UsedNonceIsClosed(t, w.fin, h, tx);
  }

  /** Transactions of a key that can still be mined all sit at one nonce, and all make the same call. */
  lemma OneOpenNonce(t: Tree, cfg: Config, w: World, a: Tx, b: Tx)
    requires ValidTree(t) && Reachable(t, cfg, w) && a in w.sent && b in w.sent && a.signer == b.signer
    requires a.nonce >= NonceAt(t, w.fin, a.signer) && b.nonce >= NonceAt(t, w.fin, b.signer)
    ensures a.nonce == b.nonce && SameCall(a, b)
  {
    ReachableInv(t, cfg, w);
    assert Covered(t, w.fin, w.file, a) && Covered(t, w.fin, w.file, b);
    assert GoodRecord(cfg, a.signer, w.file[a.signer]);
  }

  /** Of a record's transactions at most one is ever mined, on any chain, and it makes the recorded call. */
  lemma RecordMinedOnce(t: Tree, cfg: Config, w: World, key: Address, h: Hash, a: Tx, b: Tx)
    requires ValidTree(t) && Reachable(t, cfg, w) && key in w.file && h in t
    requires a in RecordHashes(w.file[key]) && b in RecordHashes(w.file[key])
    ensures SameCall(a, RecordHashes(w.file[key])[0])
    ensures Mined(t, h, a) && Mined(t, h, b) ==> a == b
  {
    ReachableInv(t, cfg, w);
    assert GoodRecord(cfg, key, w.file[key]);
    if Mined(t, h, a) && Mined(t, h, b) {
      MinedOncePerNonce(t, h, a, b);
    }
  }

  /** A record is dropped on a successful reclaim only after the log names its request. */
  lemma ReclaimIsLoggedBeforeClear(t: Tree, cfg: Config, w: World, receipt: Receipt)
    requires ValidTree(t) && Reachable(t, cfg, w) && receipt in w.closed
    requires receipt.status == 1 && cfg.reclaim <= receipt.tx.data
    ensures exists id :: id in receipt.started && Line(receipt.tx, Some(id)) in w.log
  {
    ReachableInv(t, cfg, w);
    assert Reported(cfg, w.log, receipt);
  }

  /** What one step may do to the record of a key: nothing, add a transaction, or drop it on a final receipt. */
  ghost predicate RecordStep(t: Tree, w: World, v: World, key: Address)
    requires Linked(t) && w.fin in t && key in w.file
  {
    if key in v.file then forall tx :: tx in RecordHashes(w.file[key]) ==> tx in RecordHashes(v.file[key])
    else exists receipt :: receipt in v.closed && SettlesRecord(t, w.fin, w.file[key], receipt)
  }

  /** No step loses a record's transactions: a record goes only on a final receipt of one of them. */
  lemma OnlyClearDropsRecords(t: Tree, cfg: Config, w: World, a: Action, key: Address)
    requires ValidTree(t) && Inv(t, cfg, w) && Next(t, cfg, w, a).Some? && key in w.file
    ensures RecordStep(t, w, Next(t, cfg, w, a).value, key)
  {
    if a.WriteRecord? {
      assert GoodProc(t, cfg, w.fin, w.file, w.log, w.procs[a.p]);
    } else if a.ClearRecord? {
      assert GoodProc(t, cfg, w.fin, w.file, w.log, w.procs[a.p]);
      ClearNext(t, cfg, w, a.p, a.written);
      assert a.written ==> w.procs[a.p].pc.receipt in Next(t, cfg, w, a).value.closed;
    } else {
      FileKept(t, cfg, w, a);
    }
  }

  lemma FileKept(t: Tree, cfg: Config, w: World, a: Action)
    requires Linked(t) && Next(t, cfg, w, a).Some? && !a.WriteRecord? && !a.ClearRecord?
    ensures Next(t, cfg, w, a).value.file == w.file
  {
  }

  // ---- Replacement prices ----------------------------------------------------------------------------

  /** The k-th price is at least (9/8)^k times the first. */
  lemma {:induction false} PricesGrow(cfg: Config, key: Address, nonce: nat, hs: seq<Tx>, k: nat)
    requires Bids(cfg, key, nonce, hs) && k < |hs|
    ensures Pow(8, k) * hs[k].gasPrice >= Pow(9, k) * hs[0].gasPrice
  {
    if k > 0 {
      PricesGrow(cfg, key, nonce, hs, k - 1);
      GrowStep(Pow(8, k - 1), Pow(9, k - 1), hs[k - 1].gasPrice, hs[k].gasPrice, hs[0].gasPrice);
    }
  }

  lemma GrowStep(a: nat, b: nat, p: nat, q: nat, first: nat)
    requires PRICE_BASE * q >= PRICE_BUMP * p && a * p >= b * first
    ensures (8 * a) * q >= (9 * b) * first
  {
    calc {
      (8 * a) * q;
      a * (8 * q);
      >= { Scale(a, 9 * p, 8 * q); }
      a * (9 * p);
      9 * (a * p);
      >=
      9 * (b * first);
      (9 * b) * first;
    }
  }

  lemma {:induction false} PricesRise(cfg: Config, key: Address, nonce: nat, hs: seq<Tx>, k: nat)
    requires Bids(cfg, key, nonce, hs) && k < |hs| && hs[0].gasPrice > 0
    ensures hs[k].gasPrice >= hs[0].gasPrice + k
  {
    if k > 0 {
      PricesRise(cfg, key, nonce, hs, k - 1);
    }
  }

  /** Under a fixed ceiling a send with a positive price can be replaced only finitely often. */
  lemma ReplacementsAreBounded(t: Tree, cfg: Config, w: World, key: Address)
    requires ValidTree(t) && Reachable(t, cfg, w) && key in w.file
    requires RecordHashes(w.file[key])[0].gasPrice > 0
    ensures var hs := RecordHashes(w.file[key]);
      |hs| - 1 <= cfg.ceiling - hs[0].gasPrice &&
      Pow(9, |hs| - 1) * hs[0].gasPrice <= Pow(8, |hs| - 1) * cfg.ceiling
  {
    ReachableInv(t, cfg, w);
    var r := w.file[key];
    assert GoodRecord(cfg, key, r);
    var hs := RecordHashes(r);
    var last := |hs| - 1;
    PricesRise(cfg, key, r.nonce, hs, last);
    PricesGrow(cfg, key, r.nonce, hs, last);
    assert hs[last].gasPrice <= cfg.ceiling;
    Scale(Pow(8, last), hs[last].gasPrice, cfg.ceiling);
  }

  lemma Scale(k: nat, a: nat, b: nat)
    requires a <= b
    ensures k * a <= k * b
  {
  }

  /** Every record this client wrote passes the checks made before a replacement is signed. */
  lemma OwnRecordsVerify(t: Tree, cfg: Config, w: World, key: Address)
    requires ValidTree(t) && Reachable(t, cfg, w) && key in w.file
    ensures Verified(cfg, key, w.file[key])
  {
    ReachableInv(t, cfg, w);
    var r := w.file[key];
    assert GoodRecord(cfg, key, r);
    var hs := RecordHashes(r);
    assert hs[|hs| - 1] == r.hash;
  }

  /**
    The record sits where others can write, so no check relies on who wrote it: whatever the record says, a
    replacement signed from it repeats a call this key signed at the same nonce, to a collateral contract, with
    no value, on this chain and under the ceiling, and outbids it.
   */
  lemma AnyReplacementIsOwnCall(cfg: Config, key: Address, r: Record, quote: nat, parity: nat)
    requires Verified(cfg, key, r) && BumpedPrice(r.raw.tx.gasPrice, quote) <= cfg.ceiling
    ensures var tx := ReplacedRecord(cfg, key, r, quote, parity).raw.tx;
      ClientCall(cfg, tx) && SameCall(tx, r.raw.tx) && tx.signer == r.raw.tx.signer == key &&
      tx.nonce == r.raw.tx.nonce && (r.raw.tx.gasPrice > 0 ==> tx.gasPrice > r.raw.tx.gasPrice)
  {
  }

  // ---- What a run can do -----------------------------------------------------------------------------

  function Misses(p: Pid, n: nat): seq<Action> {
    seq(n, _ => Miss(p))
  }

  lemma {:induction false} RunAppends(t: Tree, cfg: Config, w: World, first: seq<Action>, second: seq<Action>)
    requires Linked(t) && Run(t, cfg, w, first).Some?
    ensures Run(t, cfg, w, first + second) == Run(t, cfg, Run(t, cfg, w, first).value, second)
    decreases |first|
  {
    if first == [] {
      assert first + second == second;
    } else {
      assert (first + second)[1..] == first[1..] + second;
      RunAppends(t, cfg, Next(t, cfg, w, first[0]).value, first[1..], second);
    }
  }

  lemma {:induction false} MissesAdvance(t: Tree, cfg: Config, w: World, p: Pid, r: Record, i: nat, n: nat)
    requires Linked(t) && p in w.procs && w.procs[p].pc == Scan(r, i, Before) && i + n <= |RecordHashes(r)|
    ensures Run(t, cfg, w, Misses(p, n)) == Some(At(w, p, Scan(r, i + n, Before)))
    decreases n
  {
    if n == 0 {
      assert At(w, p, Scan(r, i, Before)) == w;
    } else {
      var next := At(w, p, Scan(r, i + 1, Before));
      MissesAdvance(t, cfg, next, p, r, i + 1, n - 1);
      assert Misses(p, n)[1..] == Misses(p, n - 1);
      assert At(next, p, Scan(r, i + n, Before)) == At(w, p, Scan(r, i + n, Before));
    }
  }

  lemma SettleReaches(t: Tree, cfg: Config, w: World, p: Pid, key: Address)
    requires Linked(t) && w.lock.None? && p !in w.procs && key in w.file
    ensures Run(t, cfg, w, [Begin(p, key, Settle), Acquire(p), Look(p)]) ==
      Some(w.(lock := Some(p), procs := w.procs[p := Proc(key, Settle, Scan(w.file[key], 0, Before))]))
  {
    var begun := Next(t, cfg, w, Begin(p, key, Settle)).value;
    var locked := Next(t, cfg, begun, Acquire(p)).value;
    var looked := Next(t, cfg, locked, Look(p)).value;
    var want := w.(lock := Some(p), procs := w.procs[p := Proc(key, Settle, Scan(w.file[key], 0, Before))]);
    assert looked == want;
    assert Run(t, cfg, looked, []) == Some(looked);
    assert Run(t, cfg, locked, [Look(p)]) == Some(looked);
    assert Run(t, cfg, begun, [Acquire(p), Look(p)]) == Some(looked) by {
      assert [Acquire(p), Look(p)][1..] == [Look(p)];
    }
    assert [Begin(p, key, Settle), Acquire(p), Look(p)][1..] == [Acquire(p), Look(p)];
  }

  lemma RunTwo(t: Tree, cfg: Config, w: World, a: Action, b: Action)
    requires Linked(t) && Next(t, cfg, w, a).Some?
    ensures Run(t, cfg, w, [a, b]) == Next(t, cfg, Next(t, cfg, w, a).value, b)
  {
    var next := Next(t, cfg, w, a).value;
    assert [a, b][1..] == [b] && [b][1..] == [];
    assert Run(t, cfg, next, [b]) == match Next(t, cfg, next, b) case None => None case Some(v) => Run(t, cfg, v, []);
  }

  lemma FoundLogs(t: Tree, cfg: Config, w: World, p: Pid, key: Address, i: nat, receipt: Receipt)
    requires Linked(t) && p in w.procs && key in w.file
    requires w.procs[p] == Proc(key, Settle, Scan(w.file[key], i, Before))
    requires i < |RecordHashes(w.file[key])| && receipt.tx == RecordHashes(w.file[key])[i]
    requires HonestReceipt(t, receipt) && Ancestor(t, receipt.blockHash, w.fin)
    requires receipt.status == 1 && CallsReclaim(cfg, w.file[key].raw) ==> receipt.started != []
    ensures Run(t, cfg, w, [Found(p, receipt), LogOutcome(p)]) ==
      Some(At(w, p, AtClear(w.file[key], receipt)).(log := w.log + {OutcomeLine(receipt)}))
  {
    RunTwo(t, cfg, w, Found(p, receipt), LogOutcome(p));
    var found := At(w, p, Outcome(w.file[key], receipt, Before));
    assert At(found, p, AtClear(w.file[key], receipt)) == At(w, p, AtClear(w.file[key], receipt));
  }

  lemma ClearLeaves(t: Tree, cfg: Config, w: World, p: Pid, key: Address, receipt: Receipt)
    requires Linked(t) && p in w.procs && key in w.file && w.lock == Some(p)
    requires w.procs[p] == Proc(key, Settle, AtClear(w.file[key], receipt))
    ensures Run(t, cfg, w, [ClearRecord(p, true), Leave(p)]) ==
      Some(w.(lock := None, procs := w.procs - {p}, file := w.file - {key}, closed := w.closed + {receipt}))
  {
    RunTwo(t, cfg, w, ClearRecord(p, true), Leave(p));
    assert At(w, p, Finished).procs - {p} == w.procs - {p};
  }

  lemma FoundClears(t: Tree, cfg: Config, w: World, p: Pid, key: Address, i: nat, receipt: Receipt)
    requires Linked(t) && p in w.procs && key in w.file && w.lock == Some(p)
    requires w.procs[p] == Proc(key, Settle, Scan(w.file[key], i, Before))
    requires i < |RecordHashes(w.file[key])| && receipt.tx == RecordHashes(w.file[key])[i]
    requires HonestReceipt(t, receipt) && Ancestor(t, receipt.blockHash, w.fin)
    requires receipt.status == 1 && CallsReclaim(cfg, w.file[key].raw) ==> receipt.started != []
    ensures Run(t, cfg, w, [Found(p, receipt), LogOutcome(p), ClearRecord(p, true), Leave(p)]) ==
      Some(w.(lock := None, procs := w.procs - {p}, file := w.file - {key},
              log := w.log + {OutcomeLine(receipt)}, closed := w.closed + {receipt}))
  {
    FoundLogs(t, cfg, w, p, key, i, receipt);
    var logged := At(w, p, AtClear(w.file[key], receipt)).(log := w.log + {OutcomeLine(receipt)});
    ClearLeaves(t, cfg, logged, p, key, receipt);
    assert logged.procs - {p} == w.procs - {p};
    RunAppends(t, cfg, w, [Found(p, receipt), LogOutcome(p)], [ClearRecord(p, true), Leave(p)]);
    assert [Found(p, receipt), LogOutcome(p)] + [ClearRecord(p, true), Leave(p)] ==
      [Found(p, receipt), LogOutcome(p), ClearRecord(p, true), Leave(p)];
  }

  /**
    A recorded transaction that is final can be settled: a run that reads its receipt ends with the outcome
    logged, this record gone, and every other key's record as it was.
   */
  lemma FinalSendCanBeSettled(t: Tree, cfg: Config, w: World, p: Pid, key: Address, i: nat, receipt: Receipt)
    returns (actions: seq<Action>)
    requires Linked(t) && w.lock.None? && p !in w.procs && key in w.file
    requires i < |RecordHashes(w.file[key])| && receipt.tx == RecordHashes(w.file[key])[i]
    requires HonestReceipt(t, receipt) && Ancestor(t, receipt.blockHash, w.fin)
    requires receipt.status == 1 && CallsReclaim(cfg, w.file[key].raw) ==> receipt.started != []
    ensures Run(t, cfg, w, actions) ==
      Some(w.(file := w.file - {key}, log := w.log + {OutcomeLine(receipt)}, closed := w.closed + {receipt}))
  {
    var first := [Begin(p, key, Settle), Acquire(p), Look(p)];
    var last := [Found(p, receipt), LogOutcome(p), ClearRecord(p, true), Leave(p)];
    SettleReaches(t, cfg, w, p, key);
    var looked := Run(t, cfg, w, first).value;
    MissesAdvance(t, cfg, looked, p, w.file[key], 0, i);
    var scanned := Run(t, cfg, looked, Misses(p, i)).value;
    FoundClears(t, cfg, scanned, p, key, i, receipt);
    RunAppends(t, cfg, looked, Misses(p, i), last);
    actions := first + (Misses(p, i) + last);
    RunAppends(t, cfg, w, first, Misses(p, i) + last);
    assert scanned.procs - {p} == w.procs;
  }
}
