/** What the log holds and what is answered, told from the operations so far and
    the primitives alone. */
module ReplayHistory {
  import opened Bytes
  import opened Primitives
  import opened Packet
  import opened Peel
  import opened ReplayModel
  import opened ReplayRuns

  // ---- Single answers ----

  /** Inspecting a packet is reconstructing it, with the prefix it is logged under:
      the first 20 bytes of the hash of the secret shared with its sender. */
  lemma InspectOverPrimitives(n: Node, pkt: OnionPacket, assoc: seq<byte>)
    ensures n.Inspect(pkt, assoc)
            == match ReconstructOnionPacket(n.S, n.priv, pkt, assoc)
               case Err(e) => Err(e)
               case Ok(p) => Ok((n.PrefixOf(pkt.ephemeralKey), p))
    ensures n.PrefixOf(pkt.ephemeralKey)
            == n.S.sha256(n.S.sha256(n.S.compress(n.S.scalarMult(pkt.ephemeralKey, n.priv))))[..20]
  {
  }

  /** Tx.ProcessOnionPacket answers with the packet's own error, or that the batch is
      committed; there is no error exactly when the transaction has taken the packet,
      and after an error it is as before. */
  lemma AddExactly(n: Node, tx: TxState, s: uint16, pkt: OnionPacket, assoc: seq<byte>, cltv: uint32)
    requires s < |tx.packets|
    ensures var r := ReconstructOnionPacket(n.S, n.priv, pkt, assoc);
            var err := AddResult(tx, n.Inspect(pkt, assoc));
            var after := AddTx(tx, s, n.Inspect(pkt, assoc), cltv);
            && err == (if r.Err? then Some(r.error) else if tx.batch.isCommitted then Some(AlreadyCommitted) else None)
            && (err.Some? ==> after == tx)
            && (err.None? ==>
                  && after.puts == tx.puts + [Put(s, n.PrefixOf(pkt.ephemeralKey), cltv)]
                  && after.packets == tx.packets[s := Some(r.value)]
                  && after.id == tx.id && !after.batch.isCommitted)
  {
    InspectOverPrimitives(n, pkt, assoc);
  }

  /** The k-th packet is the last new one for its slot. */
  ghost predicate LastNewAt(puts: seq<Put>, s: uint16, k: int) {
    NewAt(puts, s, k) && forall i :: k < i < |puts| ==> !NewAt(puts, s, i)
  }

  /** What a first commit flags: the slots that were offered a prefix twice, and those
      whose last new prefix the log has. */
  lemma {:induction false} FlaggedByCommit(puts: seq<Put>, log: Entries, s: uint16)
    ensures s in Commit(Fill(puts), log).replays
            <==> || (exists k :: RepeatAt(puts, s, k))
                 || (exists k :: LastNewAt(puts, s, k) && puts[k].prefix in log)
  {
    FlaggedExactly(puts, s);
    var k := EntryExactly(puts, s);
    if s in Fill(puts).entries {
      assert LastNewAt(puts, s, k);
      forall i | LastNewAt(puts, s, i) ensures i == k {
        assert i < k ==> !NewAt(puts, s, k);
      }
    } else {
      assert forall i :: !LastNewAt(puts, s, i);
    }
  }

  /** Tx.Commit, whatever the state: a committed transaction answers as before; a
      stopped log refuses; a known ID gives the stored set; otherwise the flagged
      slots are stored under the ID. */
  lemma CommitExactly(w: World, t: Handle)
    requires t in w.txs && TxOk(w.txs[t])
    ensures var tx := w.txs[t]; var r := CommitResult(w.log, tx); var after := Step(w, CommitTx(t));
            if tx.batch.isCommitted then r == Ok(tx.batch.replays) && after == w
            else if w.log.Stopped? then r == Err(LogNotStarted) && after == w
            else
              && r.Ok? && after.log.Started? && after.txs[t].batch.isCommitted && after.txs[t].batch.replays == r.value
              && after.txs == w.txs[t := after.txs[t]]
              && after.txs[t].id == tx.id && after.txs[t].puts == tx.puts && after.txs[t].packets == tx.packets
              && if tx.id in w.log.batches then r.value == w.log.batches[tx.id] && after.log == w.log
                 else
                   && after.log.batches == w.log.batches[tx.id := r.value]
                   && forall s :: s in r.value <==>
                        || (exists k :: RepeatAt(tx.puts, s, k))
                        || (exists k :: LastNewAt(tx.puts, s, k) && tx.puts[k].prefix in w.log.entries)
  {
    var tx := w.txs[t];
    if !tx.batch.isCommitted && w.log.Started? && tx.id !in w.log.batches {
      forall s
        ensures s in Commit(tx.batch, w.log.entries).replays
                <==> || (exists k :: RepeatAt(tx.puts, s, k))
                     || (exists k :: LastNewAt(tx.puts, s, k) && tx.puts[k].prefix in w.log.entries)
      {
        FlaggedByCommit(tx.puts, w.log.entries, s);
      }
    }
  }

  /** A first commit hands out the packet of a slot exactly when nothing offered for
      the slot repeated a prefix of the batch, and the log lacks its prefix. */
  lemma {:induction false} AcceptedExactly(w: World, t: Handle, s: uint16, prefix: HashPrefix)
    requires t in w.txs && TxOk(w.txs[t]) && FirstCommit(w, CommitTx(t))
    ensures Accepts(w, CommitTx(t), s, prefix)
            <==> && LastPrefix(w.txs[t].puts, s) == Some(prefix)
                 && (forall k :: !RepeatAt(w.txs[t].puts, s, k))
                 && prefix !in w.log.entries
  {
    var puts := w.txs[t].puts;
    FlaggedExactly(puts, s);
    if LastPrefix(puts, s).Some? && s !in Fill(puts).replays {
      UnflaggedEntry(puts, s);
    }
  }

  // ---- What the log holds ----

  predicate Logged(log: LogState, prefix: HashPrefix) {
    log.Started? && prefix in log.entries
  }

  /** The operation brings this prefix and CLTV to a running log. */
  ghost predicate Brings(w: World, op: Op, prefix: HashPrefix, cltv: uint32)
    requires Enabled(w, op)
  {
    && w.log.Started?
    && match op
       case Route(pkt, c) => pkt.Ok? && pkt.value.0 == prefix && c == cltv
       case CommitTx(t) =>
         && FirstCommit(w, op)
         && exists s :: s in w.txs[t].batch.entries && w.txs[t].batch.entries[s] == Entry(prefix, cltv)
       case _ => false
  }

  /** The operation removes the prefix, alone or with everything else. */
  predicate Clears(op: Op, prefix: HashPrefix) {
    op.Start? || op.Stop? || op == Delete(prefix)
  }

  lemma LogStep(w: World, op: Op, prefix: HashPrefix)
    requires Enabled(w, op) && AllTxOk(w)
    ensures Logged(Step(w, op).log, prefix)
            <==> !Clears(op, prefix) && (Logged(w.log, prefix) || exists cltv :: Brings(w, op, prefix, cltv))
    ensures Logged(w.log, prefix) && !Clears(op, prefix) ==>
              Step(w, op).log.entries[prefix] == w.log.entries[prefix]
    ensures !Logged(w.log, prefix) && Logged(Step(w, op).log, prefix) ==>
              Brings(w, op, prefix, Step(w, op).log.entries[prefix])
  {
    match op {
      case Route(pkt, cltv) =>
        assert Brings(w, op, prefix, cltv) <==> w.log.Started? && pkt.Ok? && pkt.value.0 == prefix;
        assert forall c :: Brings(w, op, prefix, c) ==> c == cltv;
      case CommitTx(t) =>
        CommitLogs(w, t, prefix);
      case _ =>
    }
  }

  lemma CommitLogs(w: World, t: Handle, prefix: HashPrefix)
    requires t in w.txs && AllTxOk(w)
    ensures var op := CommitTx(t);
            && (Logged(Step(w, op).log, prefix)
                <==> Logged(w.log, prefix) || exists cltv :: Brings(w, op, prefix, cltv))
            && (Logged(w.log, prefix) ==> Step(w, op).log.entries[prefix] == w.log.entries[prefix])
            && (!Logged(w.log, prefix) && Logged(Step(w, op).log, prefix) ==>
                  Brings(w, op, prefix, Step(w, op).log.entries[prefix]))
  {
    var op, e := CommitTx(t), w.txs[t].batch.entries;
    if FirstCommit(w, op) {
      FillWellFormed(w.txs[t].puts);
      if s :| s in e && e[s].prefix == prefix {
        CltvAt(e, s);
        assert Brings(w, op, prefix, e[s].cltv);
      } else {
        assert prefix !in PrefixesOf(e, e.Keys);
      }
    }
  }

  /** Operation `i` brought the prefix and nothing has removed it since. */
  ghost predicate BroughtAt(ws: seq<World>, ops: seq<Op>, i: int, j: int, prefix: HashPrefix)
    requires Run(ws, ops) && j <= |ops|
  {
    && 0 <= i < j && (exists cltv :: Brings(ws[i], ops[i], prefix, cltv))
    && forall k :: i < k < j ==> !Clears(ops[k], prefix)
  }

  /** The log holds a prefix exactly when some operation brought it and nothing has
      removed it since. */
  lemma {:induction false} LoggedExactly(ws: seq<World>, ops: seq<Op>, j: nat, prefix: HashPrefix)
    requires Run(ws, ops) && AllTxOk(ws[0]) && !Logged(ws[0].log, prefix) && j <= |ops|
    ensures Logged(ws[j].log, prefix) <==> exists i :: BroughtAt(ws, ops, i, j, prefix)
  {
    if j > 0 {
      var m := j - 1;
      LoggedExactly(ws, ops, m, prefix);
      RunKeepsTxOk(ws, ops, m);
      LogStep(ws[m], ops[m], prefix);
      if Logged(ws[j].log, prefix) {
        if i :| BroughtAt(ws, ops, i, m, prefix) {
          assert BroughtAt(ws, ops, i, j, prefix);
        } else {
          assert BroughtAt(ws, ops, m, j, prefix);
        }
      }
      forall i | BroughtAt(ws, ops, i, j, prefix) ensures Logged(ws[j].log, prefix) {
        if i < m {
          assert BroughtAt(ws, ops, i, m, prefix);
        }
      }
    }
  }

  /** And the CLTV it is logged with came with the operation that put it there. */
  lemma {:induction false} LoggedBy(ws: seq<World>, ops: seq<Op>, j: nat, prefix: HashPrefix) returns (i: nat)
    requires Run(ws, ops) && AllTxOk(ws[0]) && !Logged(ws[0].log, prefix) && j <= |ops|
    requires Logged(ws[j].log, prefix)
    ensures i < j && !Logged(ws[i].log, prefix) && Brings(ws[i], ops[i], prefix, ws[j].log.entries[prefix])
    ensures forall k :: i < k < j ==> !Clears(ops[k], prefix)
  {
    RunKeepsTxOk(ws, ops, j - 1);
    LogStep(ws[j - 1], ops[j - 1], prefix);
    if Logged(ws[j - 1].log, prefix) {
      i := LoggedBy(ws, ops, j - 1, prefix);
    } else {
      i := j - 1;
    }
  }

  predicate StartedAt(ops: seq<Op>, i: int, j: int)
    requires j <= |ops|
  {
    0 <= i < j && ops[i].Start? && forall k :: i < k < j ==> !ops[k].Stop?
  }

  /** The log is running exactly when it was started and not stopped since. */
  lemma {:induction false} RunningExactly(ws: seq<World>, ops: seq<Op>, j: nat)
    requires Run(ws, ops) && ws[0].log.Stopped? && j <= |ops|
    ensures ws[j].log.Started? <==> exists i :: StartedAt(ops, i, j)
  {
    if j > 0 {
      var m := j - 1;
      RunningExactly(ws, ops, m);
      assert ws[j] == Step(ws[m], ops[m]);
      if ops[m].Start? {
        assert StartedAt(ops, m, j);
      } else if i :| StartedAt(ops, i, m) {
        assert ops[m].Stop? || StartedAt(ops, i, j);
      }
      if i :| StartedAt(ops, i, j) {
        assert i < m ==> StartedAt(ops, i, m);
      }
    }
  }

  /** Router.ProcessOnionPacket, at any point of any run: a packet the router itself
      refuses is refused for that reason; otherwise it is routed if and only if the
      log is running and no operation brought its prefix since it was last removed. */
  lemma RouteExactly(n: Node, ws: seq<World>, ops: seq<Op>, j: nat, pkt: OnionPacket, assoc: seq<byte>)
    requires Run(ws, ops) && AllTxOk(ws[0]) && j <= |ops|
    requires !Logged(ws[0].log, n.PrefixOf(pkt.ephemeralKey))
    ensures RouteResult(ws[j].log, n.Inspect(pkt, assoc))
            == match ReconstructOnionPacket(n.S, n.priv, pkt, assoc)
               case Err(e) => Err(e)
               case Ok(p) =>
                 if ws[j].log.Stopped? then Err(LogNotStarted)
                 else if exists i :: BroughtAt(ws, ops, i, j, n.PrefixOf(pkt.ephemeralKey))
                 then Err(ReplayedPacket)
                 else Ok(p)
  {
    InspectOverPrimitives(n, pkt, assoc);
    LoggedExactly(ws, ops, j, n.PrefixOf(pkt.ephemeralKey));
  }

  /** In particular, of two packets that the router accepts by themselves, the second
      is routed after the first if and only if their prefixes differ. */
  lemma SecondPacketRouted(n: Node, a: OnionPacket, b: OnionPacket, assoc: seq<byte>, assoc': seq<byte>, cltv: uint32)
    ensures var first := ReconstructOnionPacket(n.S, n.priv, a, assoc);
            var second := ReconstructOnionPacket(n.S, n.priv, b, assoc');
            var empty := Started(map[], map[]);
            first.Ok? && second.Ok? ==>
              && RouteResult(empty, n.Inspect(a, assoc)) == first
              && RouteResult(RouteLog(empty, n.Inspect(a, assoc), cltv), n.Inspect(b, assoc'))
                 == if n.PrefixOf(a.ephemeralKey) == n.PrefixOf(b.ephemeralKey) then Err(ReplayedPacket) else second
  {
    InspectOverPrimitives(n, a, assoc);
    InspectOverPrimitives(n, b, assoc');
    if n.Inspect(a, assoc).Ok? && n.Inspect(b, assoc').Ok? {
      SecondPrefix(n.Inspect(a, assoc).value, n.Inspect(b, assoc').value, cltv);
    }
  }

  lemma SecondPrefix(a: (HashPrefix, ProcessedPacket), b: (HashPrefix, ProcessedPacket), cltv: uint32)
    ensures RouteResult(RouteLog(Started(map[], map[]), Ok(a), cltv), Ok(b))
            == if a.0 == b.0 then Err(ReplayedPacket) else Ok(b.1)
  {
  }

  // ---- What transactions hold ----

  /** A transaction is committed exactly when a Commit of it met a running log. */
  lemma {:induction false} CommittedExactly(ws: seq<World>, ops: seq<Op>, j: nat, t: Handle)
    requires Run(ws, ops) && ws[0].txs == map[] && j <= |ops| && t in ws[j].txs
    ensures ws[j].txs[t].batch.isCommitted
            <==> exists i :: 0 <= i < j && ops[i] == CommitTx(t) && ws[i].log.Started?
  {
    assert ws[j] == Step(ws[j - 1], ops[j - 1]);
    if t in ws[j - 1].txs {
      CommittedExactly(ws, ops, j - 1, t);
    } else {
      NeverBefore(ws, ops, j - 1, t);
    }
  }

  lemma {:induction false} NeverBefore(ws: seq<World>, ops: seq<Op>, j: nat, t: Handle)
    requires Run(ws, ops) && j <= |ops| && t !in ws[j].txs
    ensures forall i :: 0 <= i <= j ==> t !in ws[i].txs
  {
    if j > 0 {
      assert ws[j] == Step(ws[j - 1], ops[j - 1]);
      NeverBefore(ws, ops, j - 1, t);
    }
  }

  /** A slot holds a packet exactly when the batch was offered one for it. */
  lemma {:induction false} FilledExactly(ws: seq<World>, ops: seq<Op>, j: nat, t: Handle, s: uint16)
    requires Run(ws, ops) && ws[0].txs == map[] && j <= |ops| && t in ws[j].txs && s < |ws[j].txs[t].packets|
    ensures ws[j].txs[t].packets[s].Some? <==> LastPrefix(ws[j].txs[t].puts, s).Some?
  {
    var op := ops[j - 1];
    assert ws[j] == Step(ws[j - 1], op);
    if t in ws[j - 1].txs {
      FilledExactly(ws, ops, j - 1, t, s);
      var before, after := ws[j - 1].txs[t].puts, ws[j].txs[t].puts;
      assert after == before || (op.Add? && op.t == t && op.pkt.Ok? && after[..|before|] == before);
    }
  }

  /** The operation is a packet for this slot that the transaction takes. */
  ghost predicate Takes(w: World, op: Op, t: Handle, s: uint16) {
    op.Add? && op.t == t && op.seqNum == s && t in w.txs && AddResult(w.txs[t], op.pkt).None?
  }

  /** A slot holds the packet of the last such operation, `i`, or there was none. */
  lemma {:induction false} SlotExactly(ws: seq<World>, ops: seq<Op>, j: nat, t: Handle, s: uint16) returns (i: nat)
    requires Run(ws, ops) && ws[0].txs == map[] && j <= |ops| && t in ws[j].txs && s < |ws[j].txs[t].packets|
    ensures ws[j].txs[t].packets[s].None? <==> forall k :: 0 <= k < j ==> !Takes(ws[k], ops[k], t, s)
    ensures ws[j].txs[t].packets[s].Some? ==>
              && i < j && Takes(ws[i], ops[i], t, s) && (forall k :: i < k < j ==> !Takes(ws[k], ops[k], t, s))
              && ws[j].txs[t].packets[s] == Some(ops[i].pkt.value.1)
  {
    var m := j - 1;
    assert ws[j] == Step(ws[m], ops[m]);
    if t !in ws[m].txs {
      NeverBefore(ws, ops, m, t);
      i := 0;
    } else if Takes(ws[m], ops[m], t, s) {
      i := m;
    } else {
      i := SlotExactly(ws, ops, m, t, s);
    }
  }

  /** A transaction has the ID and the number of slots it was begun with. */
  lemma {:induction false} BegunBy(ws: seq<World>, ops: seq<Op>, j: nat, t: Handle) returns (i: nat)
    requires Run(ws, ops) && ws[0].txs == map[] && j <= |ops| && t in ws[j].txs
    ensures i < j && ops[i] == Begin(t, ws[j].txs[t].id, |ws[j].txs[t].packets|)
  {
    var m := j - 1;
    assert ws[j] == Step(ws[m], ops[m]);
    if t in ws[m].txs {
      i := BegunBy(ws, ops, m, t);
    } else {
      i := m;
    }
  }

  /** Every packet a transaction's batch was offered came with an operation. */
  lemma {:induction false} PutSource(ws: seq<World>, ops: seq<Op>, j: nat, t: Handle, k: nat) returns (i: nat)
    requires Run(ws, ops) && ws[0].txs == map[] && j <= |ops| && t in ws[j].txs && k < |ws[j].txs[t].puts|
    ensures i < j && ops[i].Add? && ops[i].t == t && ops[i].pkt.Ok?
    ensures ws[j].txs[t].puts[k] == Put(ops[i].seqNum, ops[i].pkt.value.0, ops[i].cltv)
  {
    var m := j - 1;
    assert ws[j] == Step(ws[m], ops[m]);
    if t in ws[m].txs && k < |ws[m].txs[t].puts| {
      i := PutSource(ws, ops, m, t, k);
    } else {
      i := m;
    }
  }

  /** The operation carries this prefix and CLTV. */
  predicate Carries(op: Op, prefix: HashPrefix, cltv: uint32) {
    (op.Route? || op.Add?) && op.pkt.Ok? && op.pkt.value.0 == prefix && op.cltv == cltv
  }

  /** Every entry of the log came with an operation, with that CLTV. */
  lemma EntryCarried(ws: seq<World>, ops: seq<Op>, j: nat, prefix: HashPrefix) returns (i: nat)
    requires Run(ws, ops) && ws[0].txs == map[] && !Logged(ws[0].log, prefix) && j <= |ops|
    requires Logged(ws[j].log, prefix)
    ensures i < j && Carries(ops[i], prefix, ws[j].log.entries[prefix])
  {
    i := LoggedBy(ws, ops, j, prefix);
    if ops[i].CommitTx? {
      var cltv, tx := ws[j].log.entries[prefix], ws[i].txs[ops[i].t];
      RunKeepsTxOk(ws, ops, i);
      var s :| s in tx.batch.entries && tx.batch.entries[s] == Entry(prefix, cltv);
      var k := EntryExactly(tx.puts, s);
      i := PutSource(ws, ops, i, ops[i].t, k);
    }
  }
}
