/** What breaks replay protection: the exact conditions under which reusing a batch
    ID, and keeping transactions across a restart of the log, leave every hash
    prefix accepted at most once. */
module ReplaySafety {
  import opened Bytes
  import opened Primitives
  import opened Packet
  import opened Peel
  import opened ReplayModel
  import opened ReplayRuns

  /** Any two acceptances of one prefix that is not deleted have the same origin. */
  ghost predicate AcceptsOnce(ws: seq<World>, ops: seq<Op>)
    requires Run(ws, ops)
  {
    forall i, s, j, t, prefix ::
      && 0 <= i < |ops| && Accepts(ws[i], ops[i], s, prefix)
      && 0 <= j < |ops| && Accepts(ws[j], ops[j], t, prefix)
      && NotDeleted(ops, prefix) ==>
        OriginOf(ws, ops, i, s) == OriginOf(ws, ops, j, t)
  }

  lemma AgreementSuffices(ws: seq<World>, ops: seq<Op>)
    requires LiveRun(ws, ops) && NothingStale(ws[0]) && ReusedIdsAgree(ws, ops)
    ensures AcceptsOnce(ws, ops)
  {
    forall i, s, j, t, prefix | && 0 <= i < |ops| && Accepts(ws[i], ops[i], s, prefix)
                                && 0 <= j < |ops| && Accepts(ws[j], ops[j], t, prefix)
                                && NotDeleted(ops, prefix)
      ensures OriginOf(ws, ops, i, s) == OriginOf(ws, ops, j, t)
    {
      AtMostOnce(ws, ops, i, s, j, t, prefix);
    }
  }

  // ---- Reusing a batch ID ----

  /** Whenever an ID is reused in the run, it was stored with packets `p` and is
      used again with packets `q`. */
  ghost predicate ReusesOnly(ws: seq<World>, ops: seq<Op>, p: seq<Put>, q: seq<Put>)
    requires |ws| == |ops| + 1
  {
    forall i, j :: Reuses(ws, ops, i, j) ==> ws[i].txs[ops[i].t].puts == p && ws[j].txs[ops[j].t].puts == q
  }

  ghost predicate SafeReuse(p: seq<Put>, q: seq<Put>) {
    forall ws, ops :: LiveRun(ws, ops) && NothingStale(ws[0]) && ReusesOnly(ws, ops, p, q) ==> AcceptsOnce(ws, ops)
  }

  /** Reusing the ID of a batch with packets `p` for packets `q` keeps acceptance
      at most once in every run, if and only if the two agree. */
  lemma ReuseIsSafeExactly(p: seq<Put>, q: seq<Put>)
    ensures SafeReuse(p, q) <==> Agree(p, q)
  {
    if Agree(p, q) {
      forall ws, ops | LiveRun(ws, ops) && NothingStale(ws[0]) && ReusesOnly(ws, ops, p, q)
        ensures AcceptsOnce(ws, ops)
      {
        AgreementSuffices(ws, ops);
      }
    } else {
      var slot: uint16 :|
        LastPrefix(q, slot).Some? && slot !in Fill(p).replays && LastPrefix(p, slot) != LastPrefix(q, slot);
      var ws, ops := DisagreementBreaks(p, q, slot, []);
    }
  }

  // ---- A run that accepts twice, for every disagreement ----

  const FreshWorld := World(Started(map[], map[]), map[])

  /** A run from a freshly started log without transactions, with the last world. */
  ghost predicate Reaches(ws: seq<World>, ops: seq<Op>, w: World) {
    && Run(ws, ops) && NoRestart(ops) && NoDelete(ops)
    && ws[0] == FreshWorld && ws[|ops|] == w
  }

  predicate NoDelete(ops: seq<Op>) {
    forall i :: 0 <= i < |ops| ==> !ops[i].Delete?
  }

  predicate NoCommits(ops: seq<Op>) {
    forall i :: 0 <= i < |ops| ==> !ops[i].CommitTx?
  }

  lemma Extend(ws: seq<World>, ops: seq<Op>, w: World, op: Op) returns (ws': seq<World>, ops': seq<Op>)
    requires Reaches(ws, ops, w) && Enabled(w, op) && !op.Start? && !op.Stop? && !op.Delete?
    ensures ws' == ws + [Step(w, op)] && ops' == ops + [op]
    ensures Reaches(ws', ops', Step(w, op))
  {
    ws', ops' := ws + [Step(w, op)], ops + [op];
    RunExtends(ws, ops, op);
  }

  /** The content of the packets is immaterial. */
  const AnyPacket := ProcessedPacket(ExitNode, HopData(0, Zeros(8), 0, 0, Zeros(12), Zeros(32)),
                                     OnionPacket(0, Infinity, Zeros(RoutingInfoSize), Zeros(32)))

  function Packeted(put: Put): Inspected {
    Ok((put.prefix, AnyPacket))
  }

  /** Begin a transaction and offer it the packets `puts`, one by one. */
  lemma LoadTx(ws: seq<World>, ops: seq<Op>, w: World, t: Handle, id: BatchID, puts: seq<Put>)
    returns (ws': seq<World>, ops': seq<Op>, w': World)
    requires Reaches(ws, ops, w) && NoCommits(ops) && t !in w.txs
    ensures Reaches(ws', ops', w') && NoCommits(ops')
    ensures w'.log == w.log && t in w'.txs && w'.txs == w.txs[t := w'.txs[t]]
    ensures w'.txs[t].id == id && w'.txs[t].puts == puts && !w'.txs[t].batch.isCommitted
  {
    var begin := Begin(t, id, 0x1_0000);
    ws', ops' := Extend(ws, ops, w, begin);
    w' := Step(w, begin);
    for k := 0 to |puts|
      invariant Reaches(ws', ops', w') && NoCommits(ops')
      invariant w'.log == w.log && t in w'.txs && w'.txs == w.txs[t := w'.txs[t]]
      invariant w'.txs[t].id == id && w'.txs[t].puts == puts[..k] && !w'.txs[t].batch.isCommitted
      invariant |w'.txs[t].packets| == 0x1_0000
    {
      var add := Add(t, puts[k].seqNum, Packeted(puts[k]), puts[k].cltv);
      ws', ops' := Extend(ws', ops', w', add);
      w' := Step(w', add);
      assert puts[..k + 1] == puts[..k] + [puts[k]];
    }
    assert puts[..|puts|] == puts;
  }

  /** A slot with an entry was offered a packet. */
  lemma {:induction false} EntryHasLastPrefix(puts: seq<Put>, slot: uint16)
    requires slot in Fill(puts).entries
    ensures LastPrefix(puts, slot).Some?
  {
    var init, p := puts[..|puts| - 1], puts[|puts| - 1];
    if p.seqNum != slot {
      EntryHasLastPrefix(init, slot);
    }
  }

  /** A slot `p` did not flag and did not fill with `prefix` last is not flagged
      by committing `p` to a log that holds nothing but `prefix`. */
  lemma {:induction false} NotFlagged(p: seq<Put>, slot: uint16, prefix: HashPrefix, cltv: uint32)
    requires slot !in Fill(p).replays && LastPrefix(p, slot) != Some(prefix)
    ensures slot !in Commit(Fill(p), map[prefix := cltv]).replays
  {
    if slot in Fill(p).entries {
      EntryHasLastPrefix(p, slot);
      UnflaggedEntry(p, slot);
    }
  }

  /** Two open transactions under one ID that the log has not seen. */
  ghost predicate Loaded(w: World, id: BatchID, p: seq<Put>, q: seq<Put>) {
    && w.log == FreshWorld.log && AllTxOk(w) && 0 in w.txs && 1 in w.txs
    && w.txs[0].id == id && w.txs[0].puts == p && !w.txs[0].batch.isCommitted
    && w.txs[1].id == id && w.txs[1].puts == q && !w.txs[1].batch.isCommitted
  }

  lemma LoadBoth(id: BatchID, p: seq<Put>, q: seq<Put>)
    returns (ws: seq<World>, ops: seq<Op>, w: World)
    ensures Reaches(ws, ops, w) && NoCommits(ops) && Loaded(w, id, p, q)
  {
    ws, ops, w := LoadTx([FreshWorld], [], FreshWorld, 0, id, p);
    ws, ops, w := LoadTx(ws, ops, w, 1, id, q);
    RunKeepsTxOk(ws, ops, |ops|);
  }

  /** The router accepts the packet of a slot the two disagree on, the first
      transaction is committed, and the second, which is not checked against the
      log any more, accepts that packet again. */
  lemma {:induction false} AcceptsTwice(w: World, id: BatchID, p: seq<Put>, q: seq<Put>, slot: uint16, pkt: Inspected)
    requires Loaded(w, id, p, q) && slot !in Fill(p).replays && pkt.Ok?
    requires LastPrefix(q, slot) == Some(pkt.value.0) && LastPrefix(p, slot) != Some(pkt.value.0)
    ensures Accepts(w, Route(pkt, 0), 0, pkt.value.0)
    ensures var v := Step(w, Route(pkt, 0)); var u := Step(v, CommitTx(0));
            && v.txs == w.txs && 1 in u.txs && u.txs[1] == w.txs[1]
            && Accepts(u, CommitTx(1), slot, pkt.value.0)
  {
    NotFlagged(p, slot, pkt.value.0, 0);
  }

  lemma DisagreementBreaks(p: seq<Put>, q: seq<Put>, slot: uint16, id: BatchID) returns (ws: seq<World>, ops: seq<Op>)
    requires LastPrefix(q, slot).Some? && slot !in Fill(p).replays && LastPrefix(p, slot) != LastPrefix(q, slot)
    ensures LiveRun(ws, ops) && ws[0] == FreshWorld && ReusesOnly(ws, ops, p, q)
    ensures !AcceptsOnce(ws, ops)
  {
    var pkt := Ok((LastPrefix(q, slot).value, AnyPacket));
    var route := Route(pkt, 0);
    var w: World;
    ws, ops, w := LoadBoth(id, p, q);
    AcceptsTwice(w, id, p, q, slot, pkt);
    var n := |ops|;
    ws, ops := Extend(ws, ops, w, route);
    var v := Step(w, route);
    ws, ops := Extend(ws, ops, v, CommitTx(0));
    var u := Step(v, CommitTx(0));
    ws, ops := Extend(ws, ops, u, CommitTx(1));
    OnlyLastReuses(ws, ops, n, p, q);
    AcceptedTwice(ws, ops, n, 0, n + 2, slot, pkt.value.0);
  }

  lemma OnlyLastReuses(ws: seq<World>, ops: seq<Op>, n: nat, p: seq<Put>, q: seq<Put>)
    requires Run(ws, ops) && |ops| == n + 3 && forall i :: 0 <= i < n ==> !ops[i].CommitTx?
    requires ops[n].Route? && ops[n + 1] == CommitTx(0) && ops[n + 2] == CommitTx(1)
    requires ws[n + 1].txs[0].puts == p && ws[n + 2].txs[1].puts == q
    ensures ReusesOnly(ws, ops, p, q)
  {
  }

  lemma AcceptedTwice(ws: seq<World>, ops: seq<Op>, i: nat, s: uint16, j: nat, t: uint16, prefix: HashPrefix)
    requires Run(ws, ops) && NotDeleted(ops, prefix)
    requires i < |ops| && Accepts(ws[i], ops[i], s, prefix)
    requires j < |ops| && Accepts(ws[j], ops[j], t, prefix)
    requires OriginOf(ws, ops, i, s) != OriginOf(ws, ops, j, t)
    ensures !AcceptsOnce(ws, ops)
  {
  }

  /** An instance: an ID stored with no packets, then reused with one. */
  lemma ReusedIdCounterexample(put: Put, id: BatchID) returns (ws: seq<World>, ops: seq<Op>)
    ensures LiveRun(ws, ops) && ws[0] == FreshWorld && ReusesOnly(ws, ops, [], [put])
    ensures !AcceptsOnce(ws, ops)
  {
    assert [put][..0] == [];
    ws, ops := DisagreementBreaks([], [put], put.seqNum, id);
  }

  // ---- Restarting the log ----

  ghost predicate SafeFrom(w: World) {
    forall ws, ops :: LiveRun(ws, ops) && ws[0] == w && ReusedIdsAgree(ws, ops) ==> AcceptsOnce(ws, ops)
  }

  /** From a freshly started log, acceptance is at most once in every run whose
      reused IDs agree, if and only if no transaction committed to an earlier
      incarnation of the log still hands out a packet. */
  lemma RestartIsSafeExactly(w: World)
    requires AllTxOk(w) && w.log == FreshWorld.log
    ensures SafeFrom(w) <==> NothingStale(w)
  {
    if NothingStale(w) {
      forall ws, ops | LiveRun(ws, ops) && ws[0] == w && ReusedIdsAgree(ws, ops) ensures AcceptsOnce(ws, ops) {
        AgreementSuffices(ws, ops);
      }
    } else {
      var t :| t in w.txs && Stale(w.txs[t]);
      var slot: uint16 :| LastPrefix(w.txs[t].puts, slot).Some? && slot !in w.txs[t].batch.replays;
      StaleBreaks(w, t, slot);
    }
  }

  /** The stale transaction is committed again, and then the router accepts the
      same packet. */
  lemma {:induction false} StaleBreaks(w: World, t: Handle, slot: uint16)
    requires AllTxOk(w) && w.log == FreshWorld.log && t in w.txs && w.txs[t].batch.isCommitted
    requires LastPrefix(w.txs[t].puts, slot).Some? && slot !in w.txs[t].batch.replays
    ensures !SafeFrom(w)
  {
    var prefix := LastPrefix(w.txs[t].puts, slot).value;
    var route := Route(Ok((prefix, AnyPacket)), 0);
    var ws, ops := [w, w, Step(w, route)], [CommitTx(t), route];
    assert Step(w, CommitTx(t)) == w;
    assert LiveRun(ws, ops) && ReusedIdsAgree(ws, ops);
    AcceptedTwice(ws, ops, 0, slot, 1, 0, prefix);
  }

  /** Such worlds are reached: any packets of which one is not flagged, processed in
      a transaction and committed, followed by a restart of the log. */
  lemma RestartBreaks(puts: seq<Put>, slot: uint16, id: BatchID) returns (ws: seq<World>, ops: seq<Op>)
    requires LastPrefix(puts, slot).Some? && slot !in Fill(puts).replays
    ensures Run(ws, ops) && ws[0] == FreshWorld
    ensures AllTxOk(ws[|ops|]) && ws[|ops|].log == FreshWorld.log && !SafeFrom(ws[|ops|])
  {
    var w: World;
    ws, ops, w := LoadTx([FreshWorld], [], FreshWorld, 0, id, puts);
    RunKeepsTxOk(ws, ops, |ops|);
    StaleAfterRestart(w, slot);
    ws, ops := Extend(ws, ops, w, CommitTx(0));
    var v := Step(w, CommitTx(0));
    ws, ops := ws + [Step(v, Start)], ops + [Start];
    StaleBreaks(Step(v, Start), 0, slot);
  }

  lemma {:induction false} StaleAfterRestart(w: World, slot: uint16)
    requires AllTxOk(w) && w.log == FreshWorld.log && 0 in w.txs && !w.txs[0].batch.isCommitted
    requires LastPrefix(w.txs[0].puts, slot).Some? && slot !in w.txs[0].batch.replays
    ensures var u := Step(Step(w, CommitTx(0)), Start);
            && AllTxOk(u) && u.log == FreshWorld.log && 0 in u.txs && u.txs[0].batch.isCommitted
            && u.txs[0].puts == w.txs[0].puts && slot !in u.txs[0].batch.replays
  {
    StepKeepsTxOk(w, CommitTx(0));
    StepKeepsTxOk(Step(w, CommitTx(0)), Start);
  }
}
