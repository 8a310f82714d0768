/** Router and Tx over the shared, mutable replay log. Every operation is proved
    to take the step of the state machine in ReplayRuns, whose values share
    nothing: the aliasing of replay sets never shows. */
module Router {
  import opened Bytes
  import opened Primitives
  import opened Packet
  import opened Peel
  import opened ReplayModel
  import opened ReplayRuns
  import opened ReplayLog

  class Tx {
    const batch: Batch
    const router: Router
    var packets: seq<Option<ProcessedPacket>>
    ghost const handle: Handle
    ghost var puts: seq<Put>

    constructor (router: Router, id: BatchID, nels: nat, ghost handle: Handle)
      ensures this.router == router && this.handle == handle
      ensures fresh(batch) && fresh(batch.replaySet)
      ensures View() == TxState(id, EmptyBatch, seq(nels, _ => None), [])
    {
      batch := new Batch(id);
      this.router := router;
      packets := seq(nels, _ => None);
      this.handle := handle;
      puts := [];
    }

    ghost function View(): TxState
      reads this, batch, batch.replaySet
    {
      TxState(batch.id, batch.View(), packets, puts)
    }

    /** A transaction of its router in good standing. */
    ghost predicate Valid()
      reads *
    {
      router.Valid() && handle in router.txs && router.txs[handle] == this
    }

    /** Put an inspected packet into the batch and remember what it unwrapped to. */
    method Offer(seqNum: uint16, pkt: Inspected, incomingCltv: uint32) returns (err: Option<Error>)
      requires seqNum < |packets|
      modifies `puts, `packets, batch`entries, batch`replayCache, batch.replaySet
      ensures err == AddResult(old(View()), pkt)
      ensures View() == AddTx(old(View()), seqNum, pkt, incomingCltv)
    {
      if pkt.Err? {
        return Some(pkt.error);
      }
      err := batch.Put(seqNum, pkt.value.0, incomingCltv);
      if err.Some? {
        return;
      }
      packets := packets[seqNum := Some(pkt.value.1)];
      puts := puts + [Put(seqNum, pkt.value.0, incomingCltv)];
    }

    /** Offering a packet disturbs neither the log nor any other transaction. */
    method OfferAlone(seqNum: uint16, pkt: Inspected, incomingCltv: uint32) returns (err: Option<Error>)
      requires Valid() && seqNum < |packets|
      modifies `puts, `packets, batch`entries, batch`replayCache, batch.replaySet
      ensures err == AddResult(old(View()), pkt)
      ensures View() == AddTx(old(View()), seqNum, pkt, incomingCltv)
      ensures router.log.Valid() && forall h :: h in router.txs && h != handle ==> router.Mirrors(h)
    {
      assert router.Mirrors(handle);
      err := Offer(seqNum, pkt, incomingCltv);
      forall h | h in router.txs && h != handle ensures router.Mirrors(h) {
        assert old(router.Mirrors(h));
      }
    }

    /** Tx.ProcessOnionPacket, once the packet has been inspected. */
    method Process(seqNum: uint16, pkt: Inspected, incomingCltv: uint32) returns (err: Option<Error>)
      requires Valid() && seqNum < |packets|
      modifies `puts, `packets, batch`entries, batch`replayCache, batch.replaySet, router`world
      ensures Valid()
      ensures router.world == AddStep(old(router.world), handle, seqNum, pkt, incomingCltv)
      ensures err == AddResult(old(router.world).txs[handle], pkt)
    {
      assert router.Mirrors(handle);
      AddOwned(handle, router.batchOwner, router.setOwner, batch, batch.replaySet, View(), seqNum, pkt, incomingCltv);
      err := OfferAlone(seqNum, pkt, incomingCltv);
      router.AdvanceTx(this);
    }

    /** Tx.ProcessOnionPacket. A packet off the curve or with a bad MAC changes
        nothing. */
    method ProcessOnionPacket(seqNum: uint16, pkt: OnionPacket, assoc: seq<byte>, incomingCltv: uint32)
      returns (err: Option<Error>)
      requires Valid() && seqNum < |packets|
      modifies `puts, `packets, batch`entries, batch`replayCache, batch.replaySet, router`world
      ensures Valid()
      ensures router.world == AddStep(old(router.world), handle, seqNum, router.node.Inspect(pkt, assoc), incomingCltv)
      ensures err == AddResult(old(router.world).txs[handle], router.node.Inspect(pkt, assoc))
    {
      var inspected := InspectPacket(router.node, pkt, assoc);
      err := Process(seqNum, inspected, incomingCltv);
    }

    /** Write the batch to the log. No other transaction notices, and the set the
        batch is left holding is no open transaction's. */
    method Write() returns (r: Result<ReplaySet, Error>)
      requires Valid() && !batch.isCommitted
      modifies router.log, batch`isCommitted, batch`replaySet
      ensures router.Unsettled(this, old(batch.replaySet))
      ensures router.log.state == PutBatchLog(old(router.log.state), batch.id, old(batch.View()))
      ensures batch.View() == PutBatchBatch(old(router.log.state), batch.id, old(batch.View()))
      ensures r == if old(router.log.state).Started? then Ok(batch.replaySet) else Err(LogNotStarted)
      ensures batch.replaySet in old(router.repr) || fresh(batch.replaySet)
      ensures batch.replaySet == old(batch.replaySet) || batch.replaySet in router.log.stored
      ensures router.log.stored <= old(router.log.stored) + {batch.replaySet}
    {
      assert router.Mirrors(handle);
      WrittenWellFormed(router.log.state, batch.id, batch.View());
      r := router.log.PutBatch(batch);
      forall h | h in router.txs && h != handle ensures router.Mirrors(h) {
        assert old(router.Mirrors(h)) && router.txs[h].batch != batch;
      }
    }

    /** Tx.Commit; the processed packets are the field `packets`. */
    method Commit() returns (r: Result<ReplaySet, Error>)
      requires Valid()
      modifies router.log, batch`isCommitted, batch`replaySet, router`setOwner, router`world, router`repr
      ensures Valid() && router.world == CommitTxStep(old(router.world), handle)
      ensures CommitResult(old(router.world).log, old(router.world).txs[handle])
              == if r.Ok? then Ok(r.value.replays) else Err(r.error)
      ensures r.Ok? ==> r.value == batch.replaySet
      ensures router.repr <= old(router.repr) + {batch.replaySet}
      ensures batch.replaySet in old(router.repr) || fresh(batch.replaySet)
      ensures batch.replaySet == old(batch.replaySet) || batch.replaySet in router.log.stored
      ensures router.log.stored <= old(router.log.stored) + {batch.replaySet}
    {
      assert router.Mirrors(handle);
      if batch.isCommitted {
        return Ok(batch.replaySet);
      }
      ghost var own := batch.replaySet;
      r := Write();
      CommitStepOf(router.world, handle, router.log.state, View());
      router.Settle(this, own, CommitTxStep(router.world, handle));
    }
  }

  lemma WrittenWellFormed(log: LogState, id: BatchID, b: BatchState)
    requires WellFormed(b)
    ensures WellFormed(PutBatchBatch(log, id, b))
    ensures PutBatchBatch(log, id, b).isCommitted <==> b.isCommitted || log.Started?
  {
  }

  /** Writing the batch is the commit step. */
  lemma CommitStepOf(w: World, h: Handle, log: LogState, after: TxState)
    requires h in w.txs && !w.txs[h].batch.isCommitted
    requires var tx := w.txs[h];
             && log == PutBatchLog(w.log, tx.id, tx.batch)
             && after == tx.(batch := PutBatchBatch(w.log, tx.id, tx.batch))
    ensures CommitTxStep(w, h) == World(log, w.txs[h := after])
    ensures CommitResult(w.log, w.txs[h])
            == if w.log.Started? then Ok(after.batch.replays) else Err(LogNotStarted)
  {
  }

  /** The curve check, the shared secret and the layer, in the order of the source. */
  method InspectPacket(node: Node, pkt: OnionPacket, assoc: seq<byte>) returns (r: Inspected)
    ensures r == node.Inspect(pkt, assoc)
  {
    var secret := RouterSecret(node.S, node.priv, pkt.ephemeralKey);
    if secret.Err? {
      return Err(secret.error);
    }
    var hashPrefix := node.S.HashSharedSecret(secret.value);
    var packet := ProcessOnionPacket(node.S, pkt, secret.value, assoc);
    if packet.Err? {
      return Err(packet.error);
    }
    return Ok((hashPrefix, packet.value));
  }

  /** The batch belongs to transaction `h` alone, and so does its replay set until
      it is committed. */
  ghost predicate Owned(h: Handle, batchOwner: map<Batch, Handle>, setOwner: map<ReplaySet, Handle>,
                        batch: Batch, replaySet: ReplaySet, b: BatchState)
  {
    && WellFormed(b)
    && batch in batchOwner && batchOwner[batch] == h
    && if b.isCommitted then replaySet !in setOwner
       else replaySet in setOwner && setOwner[replaySet] == h
  }

  lemma AddOwned(h: Handle, batchOwner: map<Batch, Handle>, setOwner: map<ReplaySet, Handle>, batch: Batch,
                 replaySet: ReplaySet, view: TxState, seqNum: uint16, pkt: Inspected, cltv: uint32)
    requires Owned(h, batchOwner, setOwner, batch, replaySet, view.batch) && seqNum < |view.packets|
    ensures Owned(h, batchOwner, setOwner, batch, replaySet, AddTx(view, seqNum, pkt, cltv).batch)
  {
    if pkt.Ok? {
      PutKeepsWellFormed(view.batch, Put(seqNum, pkt.value.0, cltv));
    }
  }

  class Router {
    const node: Node
    const log: MemoryReplayLog
    ghost var txs: map<Handle, Tx>
    ghost var nextHandle: Handle
    /** Which transaction a batch belongs to, and which open transaction a replay
        set does. */
    ghost var batchOwner: map<Batch, Handle>
    ghost var setOwner: map<ReplaySet, Handle>
    /** The state as a value of the state machine. */
    ghost var world: World
    /** The objects the router and its transactions work on. */
    ghost var repr: set<object>

    /** The transaction is one of this router's and owns what it works on. */
    ghost predicate Keeps(tx: Tx)
      reads this, tx, tx.batch, tx.batch.replaySet
    {
      && tx.handle < nextHandle && tx.router == this
      && Owned(tx.handle, batchOwner, setOwner, tx.batch, tx.batch.replaySet, tx.View().batch)
      && tx in repr && tx.batch in repr && tx.batch.replaySet in repr
    }

    /** Transaction `h` of the state machine is the object's. */
    ghost predicate Mirrors(h: Handle)
      requires h in txs
      reads this, txs[h], txs[h].batch, txs[h].batch.replaySet
    {
      var tx := txs[h];
      tx.handle == h && Keeps(tx) && h in world.txs && world.txs[h] == tx.View()
    }

    /** What keeps sharing harmless: no open transaction's replay set is stored. */
    ghost predicate Valid()
      reads *
    {
      && log.Valid() && world.log == log.state
      && this in repr && log in repr && log.stored <= repr
      && world.txs.Keys == txs.Keys
      && (forall h :: h in txs ==> Mirrors(h))
      && (forall rs :: rs in log.stored ==> rs !in setOwner)
    }

    /** Let the state machine catch up with the log, when only the log has changed. */
    ghost method AdvanceLog()
      requires log.Valid() && world.txs.Keys == txs.Keys
      requires this in repr && log in repr && log.stored <= repr
      requires forall rs :: rs in log.stored ==> rs !in setOwner
      requires forall h :: h in txs ==> Mirrors(h)
      modifies `world
      ensures Valid() && world == World(log.state, old(world).txs)
    {
      world := World(log.state, world.txs);
      forall h | h in txs ensures Mirrors(h) {
        assert old(Mirrors(h));
      }
    }

    /** Let it catch up with the log and one transaction. */
    ghost method AdvanceTx(tx: Tx)
      requires log.Valid() && tx.handle in txs && txs[tx.handle] == tx && Keeps(tx)
      requires txs.Keys == world.txs.Keys + {tx.handle}
      requires this in repr && log in repr && log.stored <= repr
      requires forall rs :: rs in log.stored ==> rs !in setOwner
      requires forall h :: h in txs && h != tx.handle ==> Mirrors(h)
      modifies `world
      ensures Valid() && world == World(log.state, old(world).txs[tx.handle := tx.View()])
    {
      world := World(log.state, world.txs[tx.handle := tx.View()]);
      forall h | h in txs ensures Mirrors(h) {
        if h != tx.handle {
          assert old(Mirrors(h));
        }
      }
    }

    ghost method Admit(objects: set<object>)
      requires forall h :: h in txs ==> Mirrors(h)
      modifies `repr
      ensures repr == old(repr) + objects
      ensures forall h :: h in txs ==> Mirrors(h)
    {
      repr := repr + objects;
      forall h | h in txs ensures Mirrors(h) {
        assert old(Mirrors(h));
      }
    }

    /** A new transaction claims its batch and its replay set. */
    ghost method Claim(tx: Tx)
      requires tx.batch !in batchOwner && tx.batch.replaySet !in setOwner
      requires forall h :: h in txs ==> Mirrors(h) && txs[h].batch.replaySet != tx.batch.replaySet
      modifies `batchOwner, `setOwner
      ensures batchOwner == old(batchOwner)[tx.batch := tx.handle]
      ensures setOwner == old(setOwner)[tx.batch.replaySet := tx.handle]
      ensures forall h :: h in txs ==> Mirrors(h)
    {
      batchOwner := batchOwner[tx.batch := tx.handle];
      setOwner := setOwner[tx.batch.replaySet := tx.handle];
      forall h | h in txs ensures Mirrors(h) {
        assert old(Mirrors(h));
      }
    }

    /** It is listed under the next handle. */
    ghost method Register(tx: Tx)
      requires tx.handle == nextHandle && forall h :: h in txs ==> Mirrors(h)
      modifies `txs, `nextHandle
      ensures txs == old(txs)[tx.handle := tx] && nextHandle == tx.handle + 1 && tx.handle !in old(txs)
      ensures forall h :: h in old(txs) ==> h != tx.handle && Mirrors(h)
    {
      txs := txs[tx.handle := tx];
      nextHandle := nextHandle + 1;
      forall h | h in old(txs) ensures h != tx.handle && Mirrors(h) {
        assert old(Mirrors(h));
        assert txs[h] == old(txs)[h];
      }
    }

    /** Transaction `t` gives up its claim on its replay set `own` and works with
        `rs` instead. */
    ghost method Exchange(t: Handle, own: ReplaySet, rs: ReplaySet)
      requires own in setOwner && setOwner[own] == t
      requires forall h :: h in txs && h != t ==> Mirrors(h)
      modifies `setOwner, `repr
      ensures setOwner == old(setOwner) - {own} && repr == old(repr) + {rs}
      ensures forall h :: h in txs && h != t ==> Mirrors(h)
    {
      setOwner := setOwner - {own};
      repr := repr + {rs};
      forall h | h in txs && h != t ensures Mirrors(h) {
        assert old(Mirrors(h));
      }
    }

    /** All is in order but for transaction `tx`, whose batch has just been written
        and whose replay set was `own`. */
    ghost predicate Unsettled(tx: Tx, own: ReplaySet)
      reads *
    {
      && log.Valid() && tx.handle in txs && txs[tx.handle] == tx && txs.Keys == world.txs.Keys
      && tx.handle < nextHandle && tx.router == this && WellFormed(tx.View().batch)
      && this in repr && log in repr && tx in repr && tx.batch in repr
      && log.stored <= repr + {tx.batch.replaySet}
      && tx.batch in batchOwner && batchOwner[tx.batch] == tx.handle
      && own in setOwner && setOwner[own] == tx.handle && own in repr
      && (if tx.batch.isCommitted then tx.batch.replaySet !in setOwner else tx.batch.replaySet == own)
      && (forall rs :: rs in log.stored ==> rs !in setOwner)
      && (forall h :: h in txs && h != tx.handle ==> Mirrors(h))
    }

    /** Let the state machine catch up with a transaction whose replay set was `own`,
        which it gives up if it has been committed. */
    ghost method Settle(tx: Tx, own: ReplaySet, w: World)
      requires Unsettled(tx, own)
      requires w == World(log.state, world.txs[tx.handle := tx.View()])
      modifies `setOwner, `world, `repr
      ensures Valid() && world == w && repr <= old(repr) + {tx.batch.replaySet}
    {
      if tx.batch.isCommitted {
        Exchange(tx.handle, own, tx.batch.replaySet);
      }
      assert unchanged(`txs, `world);
      label Exchanged:
      AdvanceTx(tx);
      assert unchanged@Exchanged(`repr);
    }

    constructor (node: Node, log: MemoryReplayLog)
      requires log.Valid()
      ensures Valid() && this.node == node && this.log == log && world == World(log.state, map[])
      ensures txs == map[] && nextHandle == 0 && repr == {this, log} + log.stored
    {
      this.node := node;
      this.log := log;
      txs := map[];
      nextHandle := 0;
      batchOwner := map[];
      setOwner := map[];
      world := World(log.state, map[]);
      repr := {this, log} + log.stored;
    }

    method Start()
      requires Valid()
      modifies log, `world
      ensures Valid() && world == StartStep(old(world)) && log.stored == {}
    {
      log.Start();
      forall h | h in txs ensures Mirrors(h) {
        assert old(Mirrors(h));
      }
      AdvanceLog();
    }

    method Stop()
      requires Valid()
      modifies log, `world
      ensures Valid() && world == StopStep(old(world)) && log.stored == {}
    {
      var _ := log.Stop();
      forall h | h in txs ensures Mirrors(h) {
        assert old(Mirrors(h));
      }
      AdvanceLog();
    }

    /** Router.ProcessOnionPacket once the packet has been inspected. */
    method Accept(pkt: Inspected, incomingCltv: uint32) returns (r: Result<ProcessedPacket, Error>)
      requires Valid()
      modifies log`entries, log`state, `world
      ensures Valid()
      ensures r == RouteResult(old(log.state), pkt)
      ensures world == RouteStep(old(world), pkt, incomingCltv)
    {
      if pkt.Err? {
        return Err(pkt.error);
      }
      var err := log.Put(pkt.value.0, incomingCltv);
      forall h | h in txs ensures Mirrors(h) {
        assert old(Mirrors(h));
      }
      AdvanceLog();
      if err.Some? {
        return Err(err.value);
      }
      return Ok(pkt.value.1);
    }

    /** Router.ProcessOnionPacket. A packet off the curve or with a bad MAC changes
        nothing. */
    method ProcessOnionPacket(pkt: OnionPacket, assoc: seq<byte>, incomingCltv: uint32)
      returns (r: Result<ProcessedPacket, Error>)
      requires Valid()
      modifies log`entries, log`state, `world
      ensures Valid()
      ensures r == RouteResult(old(log.state), node.Inspect(pkt, assoc))
      ensures world == RouteStep(old(world), node.Inspect(pkt, assoc), incomingCltv)
    {
      var inspected := InspectPacket(node, pkt, assoc);
      r := Accept(inspected, incomingCltv);
    }

    /** An entry leaves the log behind the router's back, as a garbage collector
        makes it. */
    method Expire(hash: HashPrefix)
      requires Valid()
      modifies log`entries, log`state, `world
      ensures Valid() && world == DeleteStep(old(world), hash)
    {
      var _ := log.Delete(hash);
      forall h | h in txs ensures Mirrors(h) {
        assert old(Mirrors(h));
      }
      AdvanceLog();
    }

    method BeginTxn(id: BatchID, nels: nat) returns (tx: Tx)
      requires Valid()
      modifies `txs, `nextHandle, `batchOwner, `setOwner, `world, `repr
      ensures fresh(tx) && fresh(tx.batch) && fresh(tx.batch.replaySet)
      ensures tx.Valid() && tx.router == this && txs == old(txs)[tx.handle := tx]
      ensures repr <= old(repr) + {tx, tx.batch, tx.batch.replaySet}
      ensures tx.handle == old(nextHandle) && nextHandle == tx.handle + 1
      ensures tx.handle !in old(world).txs && world == BeginStep(old(world), tx.handle, id, nels)
    {
      tx := new Tx(this, id, nels, nextHandle);
      Claim(tx);
      assert unchanged(`txs, `world, `repr);
      Admit({tx, tx.batch, tx.batch.replaySet});
      assert unchanged(`txs, `world);
      label Admitted:
      Register(tx);
      assert unchanged(`world) && unchanged@Admitted(`repr);
      AdvanceTx(tx);
      assert unchanged@Admitted(`repr);
    }
  }
}
