/** A router with its replay log and transactions as a state machine, and what
    holds over all of its runs. */
module ReplayRuns {
  import opened Bytes
  import opened Primitives
  import opened Packet
  import opened Peel
  import opened ReplayModel

  type BatchID = seq<byte>
  type Handle = nat

  /** What a router makes of a packet by itself: its hash prefix and contents, or
      the reason it is refused. */
  type Inspected = Result<(HashPrefix, ProcessedPacket), Error>

  datatype LogState = Stopped | Started(entries: Entries, batches: map<BatchID, set<uint16>>)

  /** A transaction; `puts` is what its batch has been offered. */
  datatype TxState = TxState(
    id: BatchID,
    batch: BatchState,
    packets: seq<Option<ProcessedPacket>>,
    puts: seq<Put>)

  datatype World = World(log: LogState, txs: map<Handle, TxState>)

  /** The router: its primitives and its private key. */
  datatype Node = Node(S: Suite, priv: nat) {
    function PrefixOf(key: Point): HashPrefix {
      S.HashSharedSecret(S.SharedSecret(key, priv))
    }

    /** What both entry points do before they consult the log or the batch. */
    function Inspect(pkt: OnionPacket, assoc: seq<byte>): Inspected {
      var secret :- RouterSecret(S, priv, pkt.ephemeralKey);
      var packet :- ProcessOnionPacket(S, pkt, secret, assoc);
      Ok((S.HashSharedSecret(secret), packet))
    }
  }

  datatype Op =
    | Start
    | Stop
    | Delete(prefix: HashPrefix)
    | Route(pkt: Inspected, cltv: uint32)
    | Begin(t: Handle, id: BatchID, nels: nat)
    | Add(t: Handle, seqNum: uint16, pkt: Inspected, cltv: uint32)
    | CommitTx(t: Handle)

  /** What the source asks of its callers: transactions exist before they are
      used and sequence numbers stay below the announced size. */
  predicate Enabled(w: World, op: Op) {
    match op
    case Begin(t, _, _) => t !in w.txs
    case Add(t, s, _, _) => t in w.txs && s < |w.txs[t].packets|
    case CommitTx(t) => t in w.txs
    case _ => true
  }

  /** Router.ProcessOnionPacket: the answer. */
  function RouteResult(log: LogState, pkt: Inspected): Result<ProcessedPacket, Error> {
    var (prefix, packet) :- pkt;
    if log.Stopped? then Err(LogNotStarted)
    else if prefix in log.entries then Err(ReplayedPacket)
    else Ok(packet)
  }

  function RouteLog(log: LogState, pkt: Inspected, cltv: uint32): LogState {
    if pkt.Err? || log.Stopped? then log
    else log.(entries := LogPut(log.entries, pkt.value.0, cltv).0)
  }

  /** Tx.ProcessOnionPacket: the answer and the transaction afterwards. */
  function AddResult(tx: TxState, pkt: Inspected): Option<Error> {
    if pkt.Err? then Some(pkt.error)
    else if tx.batch.isCommitted then Some(AlreadyCommitted)
    else None
  }

  function AddTx(tx: TxState, seqNum: uint16, pkt: Inspected, cltv: uint32): TxState
    requires seqNum < |tx.packets|
  {
    if pkt.Err? || tx.batch.isCommitted then tx
    else
      var put := Put(seqNum, pkt.value.0, cltv);
      tx.(batch := BatchPut(tx.batch, put),
          packets := tx.packets[seqNum := Some(pkt.value.1)],
          puts := tx.puts + [put])
  }

  /** MemoryReplayLog.PutBatch: the answer, the log and the batch afterwards. */
  ghost function PutBatchResult(log: LogState, id: BatchID, b: BatchState): Result<set<uint16>, Error> {
    if log.Stopped? then Err(LogNotStarted)
    else if id in log.batches then Ok(log.batches[id])
    else Ok(Commit(b, log.entries).replays)
  }

  ghost function PutBatchLog(log: LogState, id: BatchID, b: BatchState): LogState {
    if log.Stopped? || id in log.batches then log
    else
      var c := Commit(b, log.entries);
      Started(c.log, log.batches[id := c.replays])
  }

  ghost function PutBatchBatch(log: LogState, id: BatchID, b: BatchState): BatchState {
    var r := PutBatchResult(log, id, b);
    if r.Err? then b else b.(isCommitted := true, replays := r.value)
  }

  /** Tx.Commit: the answer. */
  ghost function CommitResult(log: LogState, tx: TxState): Result<set<uint16>, Error> {
    if tx.batch.isCommitted then Ok(tx.batch.replays) else PutBatchResult(log, tx.id, tx.batch)
  }

  // ---- The steps ----

  function StartStep(w: World): World {
    w.(log := Started(map[], map[]))
  }

  function StopStep(w: World): World {
    w.(log := Stopped)
  }

  function DeleteStep(w: World, prefix: HashPrefix): World {
    if w.log.Stopped? then w else w.(log := w.log.(entries := w.log.entries - {prefix}))
  }

  function RouteStep(w: World, pkt: Inspected, cltv: uint32): World {
    w.(log := RouteLog(w.log, pkt, cltv))
  }

  function BeginStep(w: World, t: Handle, id: BatchID, nels: nat): World {
    w.(txs := w.txs[t := TxState(id, EmptyBatch, seq(nels, _ => None), [])])
  }

  function AddStep(w: World, t: Handle, seqNum: uint16, pkt: Inspected, cltv: uint32): World
    requires t in w.txs && seqNum < |w.txs[t].packets|
  {
    w.(txs := w.txs[t := AddTx(w.txs[t], seqNum, pkt, cltv)])
  }

  ghost function CommitTxStep(w: World, t: Handle): World
    requires t in w.txs
  {
    var tx := w.txs[t];
    if tx.batch.isCommitted then w
    else World(PutBatchLog(w.log, tx.id, tx.batch),
               w.txs[t := tx.(batch := PutBatchBatch(w.log, tx.id, tx.batch))])
  }

  ghost function Step(w: World, op: Op): World
    requires Enabled(w, op)
  {
    match op
    case Start => StartStep(w)
    case Stop => StopStep(w)
    case Delete(prefix) => DeleteStep(w, prefix)
    case Route(pkt, cltv) => RouteStep(w, pkt, cltv)
    case Begin(t, id, nels) => BeginStep(w, t, id, nels)
    case Add(t, s, pkt, cltv) => AddStep(w, t, s, pkt, cltv)
    case CommitTx(t) => CommitTxStep(w, t)
  }

  // ---- Runs ----

  /** The worlds visited by a run. */
  ghost predicate Run(ws: seq<World>, ops: seq<Op>) {
    && |ws| == |ops| + 1
    && forall i :: 0 <= i < |ops| ==> Enabled(ws[i], ops[i]) && ws[i + 1] == Step(ws[i], ops[i])
  }

  lemma RunExtends(ws: seq<World>, ops: seq<Op>, op: Op)
    requires Run(ws, ops) && Enabled(ws[|ops|], op)
    ensures Run(ws + [Step(ws[|ops|], op)], ops + [op])
  {
    var ws', ops' := ws + [Step(ws[|ops|], op)], ops + [op];
    forall i | 0 <= i < |ops'| ensures Enabled(ws'[i], ops'[i]) && ws'[i + 1] == Step(ws'[i], ops'[i]) {
      assert i < |ops| ==> Enabled(ws[i], ops[i]) && ws[i + 1] == Step(ws[i], ops[i]);
    }
  }

  /** A batch is what its puts made of it, up to what committing changes. */
  ghost predicate TxOk(tx: TxState) {
    var b := Fill(tx.puts);
    && tx.batch.entries == b.entries
    && tx.batch.replayCache == b.replayCache
    && (!tx.batch.isCommitted ==> tx.batch == b)
  }

  ghost predicate AllTxOk(w: World) {
    forall t :: t in w.txs ==> TxOk(w.txs[t])
  }

  lemma StepKeepsTxOk(w: World, op: Op)
    requires Enabled(w, op) && AllTxOk(w)
    ensures AllTxOk(Step(w, op))
  {
    match op {
      case Add(t, s, pkt, cltv) =>
        AddKeepsTxOk(w.txs[t], s, pkt, cltv);
      case CommitTx(t) =>
        FillWellFormed(w.txs[t].puts);
      case _ =>
    }
  }

  lemma AddKeepsTxOk(tx: TxState, s: uint16, pkt: Inspected, cltv: uint32)
    requires TxOk(tx) && s < |tx.packets|
    ensures TxOk(AddTx(tx, s, pkt, cltv))
  {
    if pkt.Ok? && !tx.batch.isCommitted {
      FillAppend(tx.puts, Put(s, pkt.value.0, cltv));
    }
  }

  lemma {:induction false} FillAppend(puts: seq<Put>, put: Put)
    ensures Fill(puts + [put]) == BatchPut(Fill(puts), put)
  {
    assert (puts + [put])[..|puts|] == puts;
  }

  lemma {:induction false} RunKeepsTxOk(ws: seq<World>, ops: seq<Op>, i: nat)
    requires Run(ws, ops) && AllTxOk(ws[0]) && i <= |ops|
    ensures AllTxOk(ws[i])
  {
    if i > 0 {
      RunKeepsTxOk(ws, ops, i - 1);
      StepKeepsTxOk(ws[i - 1], ops[i - 1]);
    }
  }

  /** No operation restarts the log. */
  predicate NoRestart(ops: seq<Op>) {
    forall i :: 0 <= i < |ops| ==> !ops[i].Start? && !ops[i].Stop?
  }

  /** The entry of this prefix is not deleted. */
  predicate NotDeleted(ops: seq<Op>, prefix: HashPrefix) {
    forall i :: 0 <= i < |ops| ==> ops[i] != Delete(prefix)
  }

  // ---- Commits are idempotent ----

  lemma {:induction false} BatchesPersist(ws: seq<World>, ops: seq<Op>, i: nat, j: nat, id: BatchID)
    requires Run(ws, ops) && NoRestart(ops)
    requires i <= j <= |ops| && ws[i].log.Started? && id in ws[i].log.batches
    ensures ws[j].log.Started? && id in ws[j].log.batches && ws[j].log.batches[id] == ws[i].log.batches[id]
    decreases j
  {
    if i < j {
      BatchesPersist(ws, ops, i, j - 1, id);
      assert ws[j] == Step(ws[j - 1], ops[j - 1]);
    }
  }

  /** A transaction that commits after its ID has been stored holds the stored set
      from then on. */
  lemma {:induction false} CommittedHoldsStored(ws: seq<World>, ops: seq<Op>, i: nat, j: nat, id: BatchID, t: Handle)
    requires Run(ws, ops) && NoRestart(ops)
    requires i <= j <= |ops| && ws[i].log.Started? && id in ws[i].log.batches
    requires t in ws[i].txs && ws[i].txs[t].id == id && ws[i].txs[t].batch.isCommitted ==>
               ws[i].txs[t].batch.replays == ws[i].log.batches[id]
    ensures ws[j].log.Started? && id in ws[j].log.batches
    ensures t in ws[j].txs && ws[j].txs[t].id == id && ws[j].txs[t].batch.isCommitted ==>
              ws[j].txs[t].batch.replays == ws[j].log.batches[id]
    decreases j
  {
    if i < j {
      CommittedHoldsStored(ws, ops, i, j - 1, id, t);
      BatchesPersist(ws, ops, j - 1, j, id);
      assert ws[j] == Step(ws[j - 1], ops[j - 1]);
    }
  }

  /** Once a batch ID is committed, every later commit under that ID, by the same
      or another transaction and whatever happened in between (deletions and
      other commits included), returns the same replay set and leaves the log as
      it is, until the log is restarted. Only transactions that were committed
      before, possibly to an earlier incarnation of the log, are set aside. */
  lemma IdempotentCommit(ws: seq<World>, ops: seq<Op>, i: nat, j: nat)
    requires Run(ws, ops) && NoRestart(ops)
    requires i < j < |ops| && ops[i].CommitTx? && ops[j].CommitTx?
    requires var tx := ws[i].txs[ops[i].t]; var later := ws[j].txs[ops[j].t];
             && !tx.batch.isCommitted && later.id == tx.id
             && (ops[j].t in ws[i].txs ==> !ws[i].txs[ops[j].t].batch.isCommitted)
    requires ws[i].log.Started?
    ensures CommitResult(ws[i].log, ws[i].txs[ops[i].t]).Ok?
    ensures CommitResult(ws[j].log, ws[j].txs[ops[j].t]) == CommitResult(ws[i].log, ws[i].txs[ops[i].t])
    ensures ws[j + 1].log == ws[j].log
  {
    var t := ops[i].t;
    var id := ws[i].txs[t].id;
    assert ws[i + 1] == Step(ws[i], ops[i]);
    assert ws[j + 1] == Step(ws[j], ops[j]);
    BatchesPersist(ws, ops, i + 1, j, id);
    CommittedHoldsStored(ws, ops, i + 1, j, id, ops[j].t);
  }

  // ---- At most one acceptance ----

  /** The prefix of the packet last processed for a slot. */
  function LastPrefix(puts: seq<Put>, slot: uint16): Option<HashPrefix> {
    if puts == [] then None
    else
      var p := puts[|puts| - 1];
      if p.seqNum == slot then Some(p.prefix) else LastPrefix(puts[..|puts| - 1], slot)
  }

  /** A slot with a packet that was not flagged holds that packet's entry. */
  lemma {:induction false} UnflaggedEntry(puts: seq<Put>, slot: uint16)
    requires LastPrefix(puts, slot).Some? && slot !in Fill(puts).replays
    ensures slot in Fill(puts).entries && Fill(puts).entries[slot].prefix == LastPrefix(puts, slot).value
  {
    var init, p := puts[..|puts| - 1], puts[|puts| - 1];
    if p.seqNum != slot {
      UnflaggedEntry(init, slot);
    }
  }

  /** The packet a slot holds is the one last processed for it, and unless the slot
      was flagged, the entry the batch has for it carries that packet's prefix. */
  lemma PacketBehindSlot(ws: seq<World>, ops: seq<Op>, j: nat, t: Handle, slot: uint16) returns (i: nat)
    requires Run(ws, ops) && ws[0].txs == map[] && j <= |ops|
    requires t in ws[j].txs && LastPrefix(ws[j].txs[t].puts, slot).Some?
    ensures i < j && ops[i].Add? && ops[i].t == t && ops[i].seqNum == slot && ops[i].pkt.Ok?
    ensures LastPrefix(ws[j].txs[t].puts, slot) == Some(ops[i].pkt.value.0)
    ensures slot < |ws[j].txs[t].packets| && ws[j].txs[t].packets[slot] == Some(ops[i].pkt.value.1)
    ensures slot !in ws[j].txs[t].batch.replays && !ws[j].txs[t].batch.isCommitted ==>
              var e := ws[j].txs[t].batch.entries;
              slot in e && e[slot].prefix == ops[i].pkt.value.0
  {
    i := LastProcessed(ws, ops, j, t, slot);
    RunKeepsTxOk(ws, ops, j);
    var tx := ws[j].txs[t];
    if slot !in tx.batch.replays && !tx.batch.isCommitted {
      UnflaggedEntry(tx.puts, slot);
    }
  }

  lemma {:induction false} LastProcessed(ws: seq<World>, ops: seq<Op>, j: nat, t: Handle, slot: uint16)
    returns (i: nat)
    requires Run(ws, ops) && ws[0].txs == map[] && j <= |ops|
    requires t in ws[j].txs && LastPrefix(ws[j].txs[t].puts, slot).Some?
    ensures i < j && ops[i].Add? && ops[i].t == t && ops[i].seqNum == slot && ops[i].pkt.Ok?
    ensures LastPrefix(ws[j].txs[t].puts, slot) == Some(ops[i].pkt.value.0)
    ensures slot < |ws[j].txs[t].packets| && ws[j].txs[t].packets[slot] == Some(ops[i].pkt.value.1)
    decreases j
  {
    var op := ops[j - 1];
    assert ws[j] == Step(ws[j - 1], op);
    assert t in ws[j - 1].txs;
    var before, after := ws[j - 1].txs[t].puts, ws[j].txs[t].puts;
    assert after == before || (op.Add? && op.t == t && op.pkt.Ok? && after[..|before|] == before);
    if after != before && op.seqNum == slot {
      i := j - 1;
    } else {
      i := LastProcessed(ws, ops, j - 1, t, slot);
    }
  }

  /** Operation `op` hands the packet with this prefix to the caller: the router
      answers with it, or a transaction is committed, for the first time or again,
      and the slot is not in the replay set. */
  ghost predicate Accepts(w: World, op: Op, slot: uint16, prefix: HashPrefix)
    requires Enabled(w, op)
  {
    match op
    case Route(pkt, cltv) =>
      slot == 0 && RouteResult(w.log, pkt).Ok? && prefix == pkt.value.0
    case CommitTx(t) =>
      var tx := w.txs[t];
      var r := CommitResult(w.log, tx);
      r.Ok? && slot !in r.value && LastPrefix(tx.puts, slot) == Some(prefix)
    case _ => false
  }

  /** Where an acceptance comes from. Repeated commits under one batch ID count
      once. */
  datatype Origin = RouterCall(step: nat) | TxSlot(id: BatchID, slot: uint16)

  ghost function OriginOf(ws: seq<World>, ops: seq<Op>, i: nat, slot: uint16): Origin
    requires i < |ops| && i < |ws| && Enabled(ws[i], ops[i])
  {
    match ops[i]
    case CommitTx(t) => TxSlot(ws[i].txs[t].id, slot)
    case _ => RouterCall(i)
  }

  /** The operation commits a batch ID the log has not seen. */
  ghost predicate FirstCommit(w: World, op: Op)
    requires Enabled(w, op)
  {
    && op.CommitTx? && !w.txs[op.t].batch.isCommitted
    && w.log.Started? && w.txs[op.t].id !in w.log.batches
  }

  /** A run of one incarnation of the log: it starts just after Start with
      transactions in any state. */
  ghost predicate LiveRun(ws: seq<World>, ops: seq<Op>) {
    && Run(ws, ops) && NoRestart(ops)
    && AllTxOk(ws[0]) && ws[0].log == Started(map[], map[])
  }

  /** A transaction with packets `q` may reuse the ID of one with packets `p`: for
      every slot it fills that `p` did not flag itself, `p` ended with the same
      packet. */
  ghost predicate Agree(p: seq<Put>, q: seq<Put>) {
    forall slot :: LastPrefix(q, slot).Some? && slot !in Fill(p).replays ==>
      LastPrefix(p, slot) == LastPrefix(q, slot)
  }

  /** Operation `j` commits a transaction under the ID that operation `i` stored. */
  ghost predicate Reuses(ws: seq<World>, ops: seq<Op>, i: int, j: int)
    requires |ws| == |ops| + 1
  {
    && 0 <= i < j < |ops| && Enabled(ws[i], ops[i]) && Enabled(ws[j], ops[j])
    && FirstCommit(ws[i], ops[i]) && ops[j].CommitTx? && !ws[j].txs[ops[j].t].batch.isCommitted
    && ws[i].txs[ops[i].t].id == ws[j].txs[ops[j].t].id
  }

  ghost predicate ReusedIdsAgree(ws: seq<World>, ops: seq<Op>)
    requires |ws| == |ops| + 1
  {
    forall i, j :: Reuses(ws, ops, i, j) ==> Agree(ws[i].txs[ops[i].t].puts, ws[j].txs[ops[j].t].puts)
  }

  /** A committed transaction that still hands out a packet, without asking any
      log. */
  ghost predicate Stale(tx: TxState) {
    tx.batch.isCommitted && exists slot :: LastPrefix(tx.puts, slot).Some? && slot !in tx.batch.replays
  }

  ghost predicate NothingStale(w: World) {
    forall t :: t in w.txs ==> !Stale(w.txs[t])
  }

  /** A committed transaction never changes again. */
  lemma {:induction false} CommittedTxPersists(ws: seq<World>, ops: seq<Op>, j: nat, t: Handle)
    requires Run(ws, ops) && j <= |ops| && t in ws[0].txs && ws[0].txs[t].batch.isCommitted
    ensures t in ws[j].txs && ws[j].txs[t] == ws[0].txs[t]
  {
    if j > 0 {
      CommittedTxPersists(ws, ops, j - 1, t);
      assert ws[j] == Step(ws[j - 1], ops[j - 1]);
    }
  }

  /** A transaction was committed by a commit of the run, unless it had been when
      the run began. */
  lemma {:induction false} FindOwnCommit(ws: seq<World>, ops: seq<Op>, j: nat, t: Handle) returns (i: nat)
    requires Run(ws, ops) && j <= |ops| && t in ws[j].txs && ws[j].txs[t].batch.isCommitted
    requires t in ws[0].txs ==> !ws[0].txs[t].batch.isCommitted
    ensures i < j && ops[i] == CommitTx(t) && !ws[i].txs[t].batch.isCommitted
    ensures ws[i].txs[t].puts == ws[j].txs[t].puts && ws[i].txs[t].id == ws[j].txs[t].id
    ensures CommitResult(ws[i].log, ws[i].txs[t]) == Ok(ws[j].txs[t].batch.replays)
    decreases j
  {
    assert ws[j] == Step(ws[j - 1], ops[j - 1]);
    if t in ws[j - 1].txs && ws[j - 1].txs[t].batch.isCommitted {
      i := FindOwnCommit(ws, ops, j - 1, t);
    } else {
      i := j - 1;
    }
  }

  /** An entry stays until it is deleted or the log restarted, and its CLTV is never
      overwritten. */
  lemma {:induction false} EntriesPersist(ws: seq<World>, ops: seq<Op>, i: nat, j: nat, prefix: HashPrefix)
    requires Run(ws, ops) && i <= j <= |ops| && ws[i].log.Started? && prefix in ws[i].log.entries
    requires forall k :: i <= k < j ==> !ops[k].Start? && !ops[k].Stop? && ops[k] != Delete(prefix)
    ensures ws[j].log.Started? && prefix in ws[j].log.entries
    ensures ws[j].log.entries[prefix] == ws[i].log.entries[prefix]
    decreases j
  {
    if i < j {
      EntriesPersist(ws, ops, i, j - 1, prefix);
      assert ws[j] == Step(ws[j - 1], ops[j - 1]);
    }
  }

  lemma {:induction false} StaysStarted(ws: seq<World>, ops: seq<Op>, i: nat)
    requires Run(ws, ops) && NoRestart(ops) && ws[0].log.Started? && i <= |ops|
    ensures ws[i].log.Started?
  {
    if i > 0 {
      StaysStarted(ws, ops, i - 1);
      assert ws[i] == Step(ws[i - 1], ops[i - 1]);
    }
  }

  /** A router call or a first commit accepts only what the log does not have,
      and logs it. */
  lemma FreshAcceptance(w: World, op: Op, slot: uint16, prefix: HashPrefix)
    requires Enabled(w, op) && AllTxOk(w) && w.log.Started?
    requires Accepts(w, op, slot, prefix) && (op.CommitTx? ==> FirstCommit(w, op))
    ensures prefix !in w.log.entries && prefix in Step(w, op).log.entries
    ensures op.CommitTx? ==>
              var e := w.txs[op.t].batch.entries; slot in e && e[slot].prefix == prefix
  {
    if op.CommitTx? {
      var tx := w.txs[op.t];
      UnflaggedEntry(tx.puts, slot);
      FillWellFormed(tx.puts);
      CltvAt(tx.batch.entries, slot);
    }
  }

  /** Two slots of one first commit never carry the same prefix. */
  lemma OnePerCommit(w: World, op: Op, s: uint16, t: uint16, prefix: HashPrefix)
    requires Enabled(w, op) && AllTxOk(w) && w.log.Started?
    requires Accepts(w, op, s, prefix) && Accepts(w, op, t, prefix) && (op.CommitTx? ==> FirstCommit(w, op))
    ensures s == t
  {
    FreshAcceptance(w, op, s, prefix);
    FreshAcceptance(w, op, t, prefix);
    if op.CommitTx? {
      FillWellFormed(w.txs[op.t].puts);
      assert SamePrefix(w.txs[op.t].batch.entries, s, t);
    }
  }

  /** A stored batch ID was stored by a first commit. */
  lemma {:induction false} FindFirstCommit(ws: seq<World>, ops: seq<Op>, j: nat, id: BatchID)
    returns (i: nat)
    requires LiveRun(ws, ops) && j <= |ops|
    requires ws[j].log.Started? && id in ws[j].log.batches
    ensures i < j && ops[i].CommitTx? && FirstCommit(ws[i], ops[i]) && ws[i].txs[ops[i].t].id == id
    ensures CommitResult(ws[i].log, ws[i].txs[ops[i].t]) == Ok(ws[j].log.batches[id])
    decreases j
  {
    StaysStarted(ws, ops, j - 1);
    assert ws[j] == Step(ws[j - 1], ops[j - 1]);
    if id in ws[j - 1].log.batches {
      i := FindFirstCommit(ws, ops, j - 1, id);
      BatchesPersist(ws, ops, j - 1, j, id);
    } else {
      i := j - 1;
    }
  }

  /** Every acceptance repeats one by a router call or by a transaction that was
      still open. */
  lemma OpenSource(ws: seq<World>, ops: seq<Op>, j: nat, slot: uint16, prefix: HashPrefix)
    returns (i: nat)
    requires LiveRun(ws, ops) && NothingStale(ws[0])
    requires j < |ops| && Accepts(ws[j], ops[j], slot, prefix)
    ensures i <= j && Accepts(ws[i], ops[i], slot, prefix)
    ensures ops[i].CommitTx? ==> !ws[i].txs[ops[i].t].batch.isCommitted
    ensures OriginOf(ws, ops, i, slot) == OriginOf(ws, ops, j, slot)
  {
    i := j;
    if ops[j].CommitTx? && ws[j].txs[ops[j].t].batch.isCommitted {
      var t := ops[j].t;
      if t in ws[0].txs && ws[0].txs[t].batch.isCommitted {
        CommittedTxPersists(ws, ops, j, t);
        assert false;
      }
      i := FindOwnCommit(ws, ops, j, t);
    }
  }

  /** Every acceptance repeats a fresh one of the same origin. */
  lemma FreshSource(ws: seq<World>, ops: seq<Op>, j: nat, slot: uint16, prefix: HashPrefix)
    returns (i: nat)
    requires LiveRun(ws, ops) && NothingStale(ws[0]) && ReusedIdsAgree(ws, ops)
    requires j < |ops| && Accepts(ws[j], ops[j], slot, prefix)
    ensures i <= j && Accepts(ws[i], ops[i], slot, prefix)
    ensures ws[i].log.Started? && (ops[i].CommitTx? ==> FirstCommit(ws[i], ops[i]))
    ensures OriginOf(ws, ops, i, slot) == OriginOf(ws, ops, j, slot)
  {
    var k := OpenSource(ws, ops, j, slot, prefix);
    StaysStarted(ws, ops, k);
    i := k;
    if ops[k].CommitTx? && !FirstCommit(ws[k], ops[k]) {
      i := FindFirstCommit(ws, ops, k, ws[k].txs[ops[k].t].id);
      RunKeepsTxOk(ws, ops, i);
      assert Reuses(ws, ops, i, k);
      assert slot !in Fill(ws[i].txs[ops[i].t].puts).replays;
    }
  }

  /** Each hash prefix that is not deleted is accepted at most once between two
      starts of the log: two acceptances of the same prefix are the same router
      call, or the same slot under the same batch ID. Commits repeated by the
      caller are included. */
  lemma AtMostOnce(ws: seq<World>, ops: seq<Op>, i: nat, s: uint16, j: nat, t: uint16, prefix: HashPrefix)
    requires LiveRun(ws, ops) && NothingStale(ws[0]) && ReusedIdsAgree(ws, ops)
    requires i < |ops| && Accepts(ws[i], ops[i], s, prefix)
    requires j < |ops| && Accepts(ws[j], ops[j], t, prefix)
    requires NotDeleted(ops, prefix)
    ensures OriginOf(ws, ops, i, s) == OriginOf(ws, ops, j, t)
  {
    var i' := FreshSource(ws, ops, i, s, prefix);
    var j' := FreshSource(ws, ops, j, t, prefix);
    RunKeepsTxOk(ws, ops, i');
    RunKeepsTxOk(ws, ops, j');
    FreshAcceptance(ws[i'], ops[i'], s, prefix);
    FreshAcceptance(ws[j'], ops[j'], t, prefix);
    if i' < j' {
      EntriesPersist(ws, ops, i' + 1, j', prefix);
      assert false;
    } else if j' < i' {
      EntriesPersist(ws, ops, j' + 1, i', prefix);
      assert false;
    } else {
      OnePerCommit(ws[i'], ops[i'], s, t, prefix);
    }
  }

  /** A packet's hash prefix depends only on its ephemeral key. */
  lemma PrefixFromKey(n: Node, pkt: OnionPacket, assoc: seq<byte>)
    ensures n.Inspect(pkt, assoc).Ok? ==> n.Inspect(pkt, assoc).value.0 == n.PrefixOf(pkt.ephemeralKey)
  {
  }

  /** After a packet has been accepted, no packet with the same ephemeral key,
      whatever its routing info and associated data, gets past the router again,
      none is accepted by a first commit, and an acceptance by a later commit is a
      repetition of the first. */
  lemma EphemeralKeyIsSpent(n: Node, ws: seq<World>, ops: seq<Op>, i: nat, s: uint16, j: nat, key: Point, t: uint16,
                            pkt: OnionPacket, assoc: seq<byte>)
    requires LiveRun(ws, ops) && NothingStale(ws[0]) && ReusedIdsAgree(ws, ops)
    requires i < j < |ops| && Accepts(ws[i], ops[i], s, n.PrefixOf(key)) && NotDeleted(ops, n.PrefixOf(key))
    ensures ops[j].Route? && ops[j].pkt == n.Inspect(pkt, assoc) && pkt.ephemeralKey == key ==>
              RouteResult(ws[j].log, ops[j].pkt).Err? && ws[j + 1] == ws[j]
    ensures FirstCommit(ws[j], ops[j]) ==> !Accepts(ws[j], ops[j], t, n.PrefixOf(key))
    ensures Accepts(ws[j], ops[j], t, n.PrefixOf(key)) ==> OriginOf(ws, ops, j, t) == OriginOf(ws, ops, i, s)
  {
    PrefixIsSpent(ws, ops, i, s, j, n.PrefixOf(key), t);
    if Accepts(ws[j], ops[j], t, n.PrefixOf(key)) {
      AtMostOnce(ws, ops, i, s, j, t, n.PrefixOf(key));
    }
    PrefixFromKey(n, pkt, assoc);
  }

  lemma PrefixIsSpent(ws: seq<World>, ops: seq<Op>, i: nat, s: uint16, j: nat, prefix: HashPrefix, t: uint16)
    requires LiveRun(ws, ops) && NothingStale(ws[0]) && ReusedIdsAgree(ws, ops)
    requires i < j < |ops| && Accepts(ws[i], ops[i], s, prefix) && NotDeleted(ops, prefix)
    ensures ops[j].Route? && (ops[j].pkt.Ok? ==> ops[j].pkt.value.0 == prefix) ==>
              RouteResult(ws[j].log, ops[j].pkt).Err? && ws[j + 1] == ws[j]
    ensures FirstCommit(ws[j], ops[j]) ==> !Accepts(ws[j], ops[j], t, prefix)
  {
    var i' := FreshSource(ws, ops, i, s, prefix);
    RunKeepsTxOk(ws, ops, i');
    FreshAcceptance(ws[i'], ops[i'], s, prefix);
    EntriesPersist(ws, ops, i' + 1, j, prefix);
    assert ws[j + 1] == Step(ws[j], ops[j]);
    if FirstCommit(ws[j], ops[j]) && Accepts(ws[j], ops[j], t, prefix) {
      RunKeepsTxOk(ws, ops, j);
      FreshAcceptance(ws[j], ops[j], t, prefix);
      assert false;
    }
  }
}
