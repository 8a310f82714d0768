/** A router at work: it is created with its log, executes any commands, and what
    it does and answers is a run of the state machine. This is what carries the
    results of ReplayRuns and ReplaySafety over to the objects. */
module Sessions {
  import opened Bytes
  import opened Primitives
  import opened Packet
  import opened Peel
  import opened ReplayModel
  import opened ReplayRuns
  import opened ReplayHistory
  import opened ReplayLog
  import R = Router

  /** What a caller can ask for; transactions go by the order they were begun in. */
  datatype Command =
    | StartLog
    | StopLog
    | Expire(prefix: HashPrefix)
    | RoutePacket(pkt: OnionPacket, assoc: seq<byte>, cltv: uint32)
    | BeginTxn(id: BatchID, nels: nat)
    | AddPacket(tx: nat, seqNum: uint16, pkt: OnionPacket, assoc: seq<byte>, cltv: uint32)
    | CommitTxn(tx: nat)

  /** What the caller gets. */
  datatype Answer =
    | Done
    | Routed(packet: Result<ProcessedPacket, Error>)
    | Added(err: Option<Error>)
    | Committed(packets: seq<Option<ProcessedPacket>>, replays: Result<set<uint16>, Error>)

  /** The operation of the state machine, when `begun` transactions have been begun. */
  function OpOf(node: Node, begun: Handle, c: Command): Op {
    match c
    case StartLog => Start
    case StopLog => Stop
    case Expire(prefix) => Delete(prefix)
    case RoutePacket(pkt, assoc, cltv) => Route(node.Inspect(pkt, assoc), cltv)
    case BeginTxn(id, nels) => Begin(begun, id, nels)
    case AddPacket(t, s, pkt, assoc, cltv) => Add(t, s, node.Inspect(pkt, assoc), cltv)
    case CommitTxn(t) => CommitTx(t)
  }

  /** What the state machine answers. */
  ghost function AnswerOf(w: World, op: Op): Answer
    requires Enabled(w, op)
  {
    match op
    case Route(pkt, cltv) => Routed(RouteResult(w.log, pkt))
    case Add(t, s, pkt, cltv) => Added(AddResult(w.txs[t], pkt))
    case CommitTx(t) => Committed(w.txs[t].packets, CommitResult(w.log, w.txs[t]))
    case _ => Done
  }

  /** The router's transactions in the order they were begun. */
  ghost predicate Lists(txs: seq<R.Tx>, registered: map<Handle, R.Tx>, next: Handle) {
    && next == |txs|
    && forall k :: 0 <= k < |txs| ==> k in registered && registered[k] == txs[k]
  }

  lemma ListsNext(txs: seq<R.Tx>, registered: map<Handle, R.Tx>, tx: R.Tx)
    requires Lists(txs, registered, |txs|)
    ensures Lists(txs + [tx], registered[|txs| := tx], |txs| + 1)
  {
  }

  /** Whether the command is one the source can carry out, rather than panic on an
      index. */
  method Ready(router: R.Router, txs: seq<R.Tx>, c: Command) returns (b: bool)
    requires router.Valid() && Lists(txs, router.txs, router.nextHandle)
    ensures b == Enabled(router.world, OpOf(router.node, |txs|, c))
  {
    assert forall h :: h in router.txs ==> router.Mirrors(h) && h < |txs|;
    match c {
      case AddPacket(t, s, _, _, _) =>
        b := t < |txs| && s < |txs[t].packets|;
      case CommitTxn(t) =>
        b := t < |txs|;
      case _ =>
        b := true;
    }
  }

  method DoAdd(router: R.Router, txs: seq<R.Tx>,
               t: nat, seqNum: uint16, pkt: OnionPacket, assoc: seq<byte>, cltv: uint32)
    returns (err: Option<Error>)
    requires router.Valid() && Lists(txs, router.txs, router.nextHandle)
    requires Enabled(router.world, Add(t, seqNum, router.node.Inspect(pkt, assoc), cltv))
    modifies router.repr
    ensures router.Valid() && unchanged(router`txs, router`nextHandle, router`repr)
    ensures router.world == AddStep(old(router.world), t, seqNum, router.node.Inspect(pkt, assoc), cltv)
    ensures err == AddResult(old(router.world).txs[t], router.node.Inspect(pkt, assoc))
  {
    assert router.Mirrors(t);
    err := txs[t].ProcessOnionPacket(seqNum, pkt, assoc, cltv);
  }

  /** A commit, with the replay set as a value. */
  method CommitTo(tx: R.Tx) returns (r: Result<set<uint16>, Error>, ghost left: object)
    requires tx.Valid()
    modifies tx.router.repr
    ensures tx.router.Valid() && unchanged(tx.router`txs, tx.router`nextHandle)
    ensures tx.router.repr <= old(tx.router.repr) + {left} && (left in old(tx.router.repr) || fresh(left))
    ensures tx.router.world == CommitTxStep(old(tx.router.world), tx.handle)
    ensures r == CommitResult(old(tx.router.world).log, old(tx.router.world).txs[tx.handle])
  {
    assert tx.router.Mirrors(tx.handle);
    var replays := tx.Commit();
    left := tx.batch.replaySet;
    r := if replays.Ok? then Ok(replays.value.replays) else Err(replays.error);
  }

  method DoCommit(router: R.Router, txs: seq<R.Tx>, t: nat)
    returns (packets: seq<Option<ProcessedPacket>>, r: Result<set<uint16>, Error>, ghost left: object)
    requires router.Valid() && Lists(txs, router.txs, router.nextHandle) && Enabled(router.world, CommitTx(t))
    modifies router.repr
    ensures router.Valid() && Lists(txs, router.txs, router.nextHandle)
    ensures router.repr <= old(router.repr) + {left} && (left in old(router.repr) || fresh(left))
    ensures router.world == CommitTxStep(old(router.world), t)
    ensures packets == old(router.world).txs[t].packets
    ensures r == CommitResult(old(router.world).log, old(router.world).txs[t])
  {
    assert router.Mirrors(t);
    packets := txs[t].packets;
    r, left := CommitTo(txs[t]);
  }

  method DoBegin(router: R.Router, txs: seq<R.Tx>, id: BatchID, nels: nat)
    returns (txs': seq<R.Tx>)
    requires router.Valid() && Lists(txs, router.txs, router.nextHandle)
    modifies router.repr
    ensures router.Valid() && Lists(txs', router.txs, router.nextHandle)
    ensures forall o :: o in router.repr ==> o in old(router.repr) || fresh(o)
    ensures |txs'| == |txs| + 1
    ensures router.world == BeginStep(old(router.world), |txs|, id, nels)
  {
    ghost var registered := router.txs;
    var tx := router.BeginTxn(id, nels);
    ListsNext(txs, registered, tx);
    txs' := txs + [tx];
  }

  /** One command is one step, and its answer is the step's. */
  method Execute(router: R.Router, txs: seq<R.Tx>, c: Command, ghost op: Op)
    returns (a: Answer, txs': seq<R.Tx>)
    requires router.Valid() && Lists(txs, router.txs, router.nextHandle)
    requires op == OpOf(router.node, |txs|, c) && Enabled(router.world, op)
    modifies router.repr
    ensures router.Valid() && Lists(txs', router.txs, router.nextHandle)
    ensures forall o :: o in router.repr ==> o in old(router.repr) || fresh(o)
    ensures |txs'| == |txs| + if c.BeginTxn? then 1 else 0
    ensures router.world == Step(old(router.world), op) && a == AnswerOf(old(router.world), op)
  {
    a, txs' := Done, txs;
    match c {
      case StartLog => router.Start();
      case StopLog => router.Stop();
      case Expire(prefix) => router.Expire(prefix);
      case RoutePacket(pkt, assoc, cltv) =>
        var r := router.ProcessOnionPacket(pkt, assoc, cltv);
        a := Routed(r);
      case BeginTxn(id, nels) =>
        txs' := DoBegin(router, txs, id, nels);
      case AddPacket(t, s, pkt, assoc, cltv) =>
        var err := DoAdd(router, txs, t, s, pkt, assoc, cltv);
        a := Added(err);
      case CommitTxn(t) =>
        var packets, r;
        ghost var left;
        packets, r, left := DoCommit(router, txs, t);
        a := Committed(packets, r);
    }
  }

  /** One command, if the source can carry it out. */
  method Turn(router: R.Router, txs: seq<R.Tx>, c: Command, ghost op: Op)
    returns (done: bool, a: Answer, txs': seq<R.Tx>)
    requires router.Valid() && Lists(txs, router.txs, router.nextHandle) && op == OpOf(router.node, |txs|, c)
    modifies router.repr
    ensures router.Valid() && Lists(txs', router.txs, router.nextHandle)
    ensures forall o :: o in router.repr ==> o in old(router.repr) || fresh(o)
    ensures done == Enabled(old(router.world), op)
    ensures done ==> |txs'| == |txs| + if c.BeginTxn? then 1 else 0
    ensures done ==> router.world == Step(old(router.world), op) && a == AnswerOf(old(router.world), op)
  {
    a, txs' := Done, txs;
    done := Ready(router, txs, c);
    if done {
      a, txs' := Execute(router, txs, c, op);
    }
  }

  /** How many transactions the commands begin. */
  function Begun(commands: seq<Command>): nat {
    if commands == [] then 0
    else Begun(commands[..|commands| - 1]) + if commands[|commands| - 1].BeginTxn? then 1 else 0
  }

  /** The operation that the i-th command is. */
  function OpAt(node: Node, commands: seq<Command>, i: nat): Op
    requires i < |commands|
  {
    OpOf(node, Begun(commands[..i]), commands[i])
  }

  /** The run that the first |answers| commands make, with its answers. */
  ghost predicate Served(node: Node, commands: seq<Command>, answers: seq<Answer>, ws: seq<World>, ops: seq<Op>) {
    && Run(ws, ops) && ws[0] == World(Stopped, map[])
    && |answers| == |ops| <= |commands|
    && forall i :: 0 <= i < |ops| ==> ops[i] == OpAt(node, commands, i) && answers[i] == AnswerOf(ws[i], ops[i])
  }

  lemma ServedNext(node: Node, commands: seq<Command>, answers: seq<Answer>, ws: seq<World>, ops: seq<Op>)
    requires Served(node, commands, answers, ws, ops) && |ops| < |commands|
    requires Enabled(ws[|ops|], OpAt(node, commands, |ops|))
    ensures var op := OpAt(node, commands, |ops|); var w := ws[|ops|];
            Served(node, commands, answers + [AnswerOf(w, op)], ws + [Step(w, op)], ops + [op])
  {
    var op, w := OpAt(node, commands, |ops|), ws[|ops|];
    RunExtends(ws, ops, op);
    var answers', ws', ops' := answers + [AnswerOf(w, op)], ws + [Step(w, op)], ops + [op];
    forall i | 0 <= i < |ops'| ensures ops'[i] == OpAt(node, commands, i) && answers'[i] == AnswerOf(ws'[i], ops'[i]) {
      if i < |ops| {
        assert ops'[i] == ops[i] && ws'[i] == ws[i] && answers'[i] == answers[i];
      }
    }
  }

  lemma BegunNext(commands: seq<Command>, i: nat)
    requires i < |commands|
    ensures Begun(commands[..i + 1]) == Begun(commands[..i]) + if commands[i].BeginTxn? then 1 else 0
  {
    assert commands[..i + 1][..i] == commands[..i];
  }

  /** What the state machine answers to the commands, from a world with `begun`
      transactions on. */
  ghost function Replies(node: Node, w: World, begun: Handle, commands: seq<Command>): seq<Answer>
    decreases |commands|
  {
    if commands == [] then []
    else
      var op := OpOf(node, begun, commands[0]);
      if !Enabled(w, op) then []
      else
        [AnswerOf(w, op)]
        + Replies(node, Step(w, op), if commands[0].BeginTxn? then begun + 1 else begun, commands[1..])
  }

  lemma {:induction false} ServedReplies(node: Node, commands: seq<Command>, answers: seq<Answer>, ws: seq<World>,
                                         ops: seq<Op>, i: nat)
    requires Served(node, commands, answers, ws, ops) && i <= |ops|
    requires |ops| < |commands| ==> !Enabled(ws[|ops|], OpAt(node, commands, |ops|))
    ensures answers[i..] == Replies(node, ws[i], Begun(commands[..i]), commands[i..])
    decreases |ops| - i
  {
    if i < |ops| {
      ServedReplies(node, commands, answers, ws, ops, i + 1);
      BegunNext(commands, i);
      assert ops[i] == OpAt(node, commands, i) && ws[i + 1] == Step(ws[i], ops[i]);
      assert commands[i..][1..] == commands[i + 1..];
      assert answers[i..] == [answers[i]] + answers[i + 1..];
    }
  }

  /** Execute the commands in turn, up to the first one the source would panic on. */
  method ServeOn(router: R.Router, node: Node, commands: seq<Command>)
    returns (answers: seq<Answer>, ghost ws: seq<World>, ghost ops: seq<Op>)
    requires router.Valid() && router.world == World(Stopped, map[]) && router.nextHandle == 0 && router.node == node
    modifies router.repr
    ensures Served(node, commands, answers, ws, ops)
    ensures |ops| < |commands| ==> !Enabled(ws[|ops|], OpAt(node, commands, |ops|))
  {
    var txs: seq<R.Tx> := [];
    answers, ws, ops := [], [router.world], [];
    for i := 0 to |commands|
      invariant router.Valid() && Lists(txs, router.txs, router.nextHandle) && router.node == node
      invariant forall o :: o in router.repr ==> o in old(router.repr) || fresh(o)
      invariant Served(node, commands, answers, ws, ops) && ws[|ops|] == router.world
      invariant |ops| == i && |txs| == Begun(commands[..i])
    {
      ghost var op := OpAt(node, commands, i);
      var done, a;
      done, a, txs := Turn(router, txs, commands[i], op);
      if !done {
        return;
      }
      ServedNext(node, commands, answers, ws, ops);
      BegunNext(commands, i);
      answers, ws, ops := answers + [a], ws + [router.world], ops + [op];
    }
  }

  /** A new router with a new log executes the commands in turn, up to the first one
      the source would panic on. Whatever the commands are, it makes a run of the
      state machine, with the answers of that run, which the commands determine. */
  method Serve(node: Node, commands: seq<Command>)
    returns (answers: seq<Answer>, ghost ws: seq<World>, ghost ops: seq<Op>)
    ensures answers == Replies(node, World(Stopped, map[]), 0, commands)
    ensures Served(node, commands, answers, ws, ops)
    ensures |ops| < |commands| ==> !Enabled(ws[|ops|], OpAt(node, commands, |ops|))
  {
    var log := new MemoryReplayLog();
    var router := new R.Router(node, log);
    answers, ws, ops := ServeOn(router, node, commands);
    ServedReplies(node, commands, answers, ws, ops, 0);
    assert answers[0..] == answers && commands[0..] == commands;
  }

  /** What the caller sees of replay protection: once a packet has been routed, no
      packet with the same ephemeral key is, whatever else it carries, until the log
      is restarted or the entry expires. */
  lemma RoutedOnce(node: Node, commands: seq<Command>, answers: seq<Answer>, ws: seq<World>, ops: seq<Op>,
                   i: nat, j: nat)
    requires Served(node, commands, answers, ws, ops) && i < j < |ops|
    requires commands[i].RoutePacket? && commands[j].RoutePacket?
    requires commands[i].pkt.ephemeralKey == commands[j].pkt.ephemeralKey
    requires answers[i].Routed? && answers[i].packet.Ok?
    requires forall k :: i < k < j ==>
               && !commands[k].StartLog? && !commands[k].StopLog?
               && commands[k] != Expire(node.PrefixOf(commands[i].pkt.ephemeralKey))
    ensures answers[j].Routed? && answers[j].packet.Err?
  {
    RoutedPrefix(node, commands, answers, ws, ops, i);
    RoutedPrefix(node, commands, answers, ws, ops, j);
    assert ws[i + 1] == Step(ws[i], ops[i]);
    var prefix := node.PrefixOf(commands[i].pkt.ephemeralKey);
    forall k | i + 1 <= k < j ensures !ops[k].Start? && !ops[k].Stop? && ops[k] != Delete(prefix) {
      assert ops[k] == OpAt(node, commands, k);
    }
    EntriesPersist(ws, ops, i + 1, j, prefix);
  }

  lemma RoutedPrefix(node: Node, commands: seq<Command>, answers: seq<Answer>, ws: seq<World>, ops: seq<Op>, i: nat)
    requires Served(node, commands, answers, ws, ops) && i < |ops| && commands[i].RoutePacket?
    ensures ops[i].Route? && answers[i] == Routed(RouteResult(ws[i].log, ops[i].pkt))
    ensures ops[i].pkt.Ok? ==> ops[i].pkt.value.0 == node.PrefixOf(commands[i].pkt.ephemeralKey)
  {
    assert ops[i] == OpAt(node, commands, i);
    PrefixFromKey(node, commands[i].pkt, commands[i].assoc);
  }

  // ---- The answers, told from the commands ----

  /** The log was started by command `i` and not stopped before command `j`. */
  predicate RunningSince(commands: seq<Command>, i: int, j: int)
    requires j <= |commands|
  {
    0 <= i < j && commands[i].StartLog? && forall k :: i < k < j ==> !commands[k].StopLog?
  }

  lemma LogRunning(node: Node, commands: seq<Command>, answers: seq<Answer>, ws: seq<World>, ops: seq<Op>, j: nat)
    requires Served(node, commands, answers, ws, ops) && j <= |ops|
    ensures ws[j].log.Started? <==> exists i :: RunningSince(commands, i, j)
  {
    RunningExactly(ws, ops, j);
    forall i | 0 <= i < j ensures ops[i].Start? == commands[i].StartLog? && ops[i].Stop? == commands[i].StopLog? {
      assert ops[i] == OpAt(node, commands, i);
    }
    forall i ensures StartedAt(ops, i, j) == RunningSince(commands, i, j) {
    }
  }

  /** Command `i` brought the prefix to a running log, with a packet that the router
      accepted by itself or with a first commit, and no command has removed it since. */
  ghost predicate BroughtBy(node: Node, commands: seq<Command>, ws: seq<World>, i: int, j: int, prefix: HashPrefix)
    requires j <= |commands| && j < |ws|
  {
    && 0 <= i < j && ws[i].log.Started?
    && (match commands[i]
        case RoutePacket(pkt, assoc, _) =>
          ReconstructOnionPacket(node.S, node.priv, pkt, assoc).Ok? && node.PrefixOf(pkt.ephemeralKey) == prefix
        case CommitTxn(t) => t in ws[i].txs && exists cltv :: Brings(ws[i], CommitTx(t), prefix, cltv)
        case _ => false)
    && forall k :: i < k < j ==> !commands[k].StartLog? && !commands[k].StopLog? && commands[k] != Expire(prefix)
  }

  lemma BroughtByCommand(node: Node, commands: seq<Command>, answers: seq<Answer>, ws: seq<World>, ops: seq<Op>,
                         i: int, j: nat, prefix: HashPrefix)
    requires Served(node, commands, answers, ws, ops) && j <= |ops|
    ensures BroughtAt(ws, ops, i, j, prefix) <==> BroughtBy(node, commands, ws, i, j, prefix)
  {
    if 0 <= i < j {
      assert ops[i] == OpAt(node, commands, i);
      CommandBrings(node, commands, i, ws[i], prefix);
      forall k | i < k < j
        ensures Clears(ops[k], prefix)
                <==> commands[k].StartLog? || commands[k].StopLog? || commands[k] == Expire(prefix)
      {
        assert ops[k] == OpAt(node, commands, k);
        CommandClears(node, commands, k, prefix);
      }
    }
  }

  lemma CommandClears(node: Node, commands: seq<Command>, k: nat, prefix: HashPrefix)
    requires k < |commands|
    ensures var c := commands[k];
            Clears(OpAt(node, commands, k), prefix) <==> c.StartLog? || c.StopLog? || c == Expire(prefix)
  {
  }

  lemma CommandBrings(node: Node, commands: seq<Command>, i: nat, w: World, prefix: HashPrefix)
    requires i < |commands| && Enabled(w, OpAt(node, commands, i))
    ensures (exists cltv :: Brings(w, OpAt(node, commands, i), prefix, cltv))
            <==> && w.log.Started?
                 && match commands[i]
                    case RoutePacket(pkt, assoc, _) =>
                      && ReconstructOnionPacket(node.S, node.priv, pkt, assoc).Ok?
                      && node.PrefixOf(pkt.ephemeralKey) == prefix
                    case CommitTxn(t) => t in w.txs && exists cltv :: Brings(w, CommitTx(t), prefix, cltv)
                    case _ => false
  {
    var op := OpAt(node, commands, i);
    if commands[i].RoutePacket? {
      InspectOverPrimitives(node, commands[i].pkt, commands[i].assoc);
      assert Brings(w, op, prefix, op.cltv) <==> w.log.Started? && op.pkt.Ok? && op.pkt.value.0 == prefix;
    }
  }

  /** Whatever the commands were, a packet is routed if and only if the router accepts
      it by itself, the log is running, and nothing that was routed or committed since
      the last start or the expiry of the entry had the same prefix. */
  lemma RoutedExactly(node: Node, commands: seq<Command>, answers: seq<Answer>, ws: seq<World>, ops: seq<Op>, j: nat)
    requires Served(node, commands, answers, ws, ops) && j < |ops| && commands[j].RoutePacket?
    ensures var c := commands[j];
            answers[j] == Routed(
              match ReconstructOnionPacket(node.S, node.priv, c.pkt, c.assoc)
              case Err(e) => Err(e)
              case Ok(p) =>
                if !exists i :: RunningSince(commands, i, j) then Err(LogNotStarted)
                else if exists i :: BroughtBy(node, commands, ws, i, j, node.PrefixOf(c.pkt.ephemeralKey))
                then Err(ReplayedPacket)
                else Ok(p))
  {
    assert ops[j] == OpAt(node, commands, j);
    LogRunning(node, commands, answers, ws, ops, j);
    var prefix := node.PrefixOf(commands[j].pkt.ephemeralKey);
    forall i ensures BroughtAt(ws, ops, i, j, prefix) <==> BroughtBy(node, commands, ws, i, j, prefix) {
      BroughtByCommand(node, commands, answers, ws, ops, i, j, prefix);
    }
    RouteExactly(node, ws, ops, j, commands[j].pkt, commands[j].assoc);
  }

  /** A packet is added to a transaction if and only if the router accepts it by itself
      and no Commit of the transaction has met a running log. */
  lemma AddedExactly(node: Node, commands: seq<Command>, answers: seq<Answer>, ws: seq<World>, ops: seq<Op>, j: nat)
    requires Served(node, commands, answers, ws, ops) && j < |ops| && commands[j].AddPacket?
    ensures var c := commands[j];
            answers[j] == Added(
              match ReconstructOnionPacket(node.S, node.priv, c.pkt, c.assoc)
              case Err(e) => Some(e)
              case Ok(_) =>
                if exists i :: 0 <= i < j && commands[i] == CommitTxn(c.tx) && ws[i].log.Started?
                then Some(AlreadyCommitted) else None)
  {
    var c := commands[j];
    assert ops[j] == OpAt(node, commands, j);
    AddExactly(node, ws[j].txs[c.tx], c.seqNum, c.pkt, c.assoc, c.cltv);
    CommittedBefore(node, commands, answers, ws, ops, j, c.tx);
  }

  lemma CommittedBefore(node: Node, commands: seq<Command>, answers: seq<Answer>, ws: seq<World>, ops: seq<Op>,
                        j: nat, t: nat)
    requires Served(node, commands, answers, ws, ops) && j <= |ops| && t in ws[j].txs
    ensures ws[j].txs[t].batch.isCommitted
            <==> exists i :: 0 <= i < j && commands[i] == CommitTxn(t) && ws[i].log.Started?
  {
    CommittedExactly(ws, ops, j, t);
    forall i | 0 <= i < j ensures commands[i] == CommitTxn(t) <==> ops[i] == CommitTx(t) {
      assert ops[i] == OpAt(node, commands, i);
    }
  }

  /** Command `i` added a packet to this slot of the transaction. */
  predicate AddedAt(commands: seq<Command>, answers: seq<Answer>, i: int, t: nat, s: uint16)
    requires |answers| <= |commands|
  {
    && 0 <= i < |answers| && commands[i].AddPacket? && commands[i].tx == t && commands[i].seqNum == s
    && answers[i] == Added(None)
  }

  /** A Commit hands out, for each slot, what the packet last added to it unwraps to. */
  lemma HandedOutExactly(node: Node, commands: seq<Command>, answers: seq<Answer>, ws: seq<World>, ops: seq<Op>,
                         j: nat, s: uint16)
    returns (i: nat)
    requires Served(node, commands, answers, ws, ops) && j < |ops| && commands[j].CommitTxn?
    requires answers[j].Committed? && s < |answers[j].packets|
    ensures var t := commands[j].tx; var packet := answers[j].packets[s];
            && (packet.None? <==> forall k :: 0 <= k < j ==> !AddedAt(commands, answers, k, t, s))
            && (packet.Some? ==>
                  && i < j && AddedAt(commands, answers, i, t, s)
                  && (forall k :: i < k < j ==> !AddedAt(commands, answers, k, t, s))
                  && ReconstructOnionPacket(node.S, node.priv, commands[i].pkt, commands[i].assoc) == Ok(packet.value))
  {
    var t := commands[j].tx;
    assert ops[j] == OpAt(node, commands, j);
    i := SlotExactly(ws, ops, j, t, s);
    forall k | 0 <= k < j ensures AddedAt(commands, answers, k, t, s) <==> Takes(ws[k], ops[k], t, s) {
      TakenCommand(node, commands, answers, ws, ops, k, t, s);
    }
    if answers[j].packets[s].Some? {
      assert ops[i] == OpAt(node, commands, i);
      InspectOverPrimitives(node, commands[i].pkt, commands[i].assoc);
    }
  }

  lemma TakenCommand(node: Node, commands: seq<Command>, answers: seq<Answer>, ws: seq<World>, ops: seq<Op>,
                     k: nat, t: nat, s: uint16)
    requires Served(node, commands, answers, ws, ops) && k < |ops|
    ensures AddedAt(commands, answers, k, t, s) <==> Takes(ws[k], ops[k], t, s)
  {
    assert ops[k] == OpAt(node, commands, k) && answers[k] == AnswerOf(ws[k], ops[k]);
  }

  /** The answer to a Commit: the slots announced when the transaction was begun, and
      the replay set; refused exactly for a log that is not running, unless an earlier
      Commit was not. */
  lemma CommitAnswered(node: Node, commands: seq<Command>, answers: seq<Answer>, ws: seq<World>, ops: seq<Op>, j: nat)
    returns (i: nat)
    requires Served(node, commands, answers, ws, ops) && j < |ops| && commands[j].CommitTxn?
    ensures var t := commands[j].tx;
            && i < j && commands[i].BeginTxn? && Begun(commands[..i]) == t
            && t in ws[j].txs && ws[j].txs[t].id == commands[i].id
            && answers[j].Committed? && |answers[j].packets| == commands[i].nels
            && answers[j].replays == CommitResult(ws[j].log, ws[j].txs[t])
            && (answers[j].replays == Err(LogNotStarted)
                <==> && !(exists k :: RunningSince(commands, k, j))
                     && !(exists k :: 0 <= k < j && commands[k] == CommitTxn(t) && ws[k].log.Started?))
  {
    var t := commands[j].tx;
    assert ops[j] == OpAt(node, commands, j);
    i := BegunBy(ws, ops, j, t);
    assert ops[i] == OpAt(node, commands, i);
    LogRunning(node, commands, answers, ws, ops, j);
    CommittedBefore(node, commands, answers, ws, ops, j, t);
  }

  /** Every entry of the log came with a command: a packet routed or added whose key
      has that prefix, and the CLTV it came with. */
  lemma EntryFromCommand(node: Node, commands: seq<Command>, answers: seq<Answer>, ws: seq<World>, ops: seq<Op>,
                         j: nat, prefix: HashPrefix)
    returns (i: nat)
    requires Served(node, commands, answers, ws, ops) && j <= |ops|
    requires Logged(ws[j].log, prefix)
    ensures i < j && (commands[i].RoutePacket? || commands[i].AddPacket?)
    ensures node.PrefixOf(commands[i].pkt.ephemeralKey) == prefix && commands[i].cltv == ws[j].log.entries[prefix]
  {
    i := EntryCarried(ws, ops, j, prefix);
    assert ops[i] == OpAt(node, commands, i);
    InspectOverPrimitives(node, commands[i].pkt, commands[i].assoc);
  }
}
