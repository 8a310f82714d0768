/** ReplaySet, Batch and MemoryReplayLog as the mutable objects of the source.
    Replay sets are shared by reference between the log and the batches. */
module ReplayLog {
  import opened Bytes
  import opened Primitives
  import opened Packet
  import opened ReplayModel
  import opened ReplayRuns

  class ReplaySet {
    var replays: set<uint16>

    constructor ()
      ensures replays == {}
    {
      replays := {};
    }

    method Add(idx: uint16)
      modifies this
      ensures replays == old(replays) + {idx}
    {
      replays := replays + {idx};
    }

    method Merge(rs2: ReplaySet)
      modifies this
      ensures replays == old(replays) + old(rs2.replays)
    {
      var remaining := rs2.replays;
      while remaining != {}
        invariant remaining <= old(rs2.replays)
        invariant replays == old(replays) + (old(rs2.replays) - remaining)
        decreases remaining
      {
        var seqNum :| seqNum in remaining;
        Add(seqNum);
        remaining := remaining - {seqNum};
      }
    }

    /** The words of the set, in the order the map happened to be visited. */
    method Encode() returns (w: seq<byte>)
      ensures IsEncoding(w, replays)
    {
      w := [];
      ghost var order: seq<uint16> := [];
      var remaining := replays;
      while remaining != {}
        invariant remaining <= replays
        invariant NoRepeats(order) && Slots(order) == replays - remaining && w == WordBytes(order)
        decreases remaining
      {
        var seqNum :| seqNum in remaining;
        w := w + PutUint16(seqNum);
        WordBytesAppend(order, seqNum);
        order := order + [seqNum];
        remaining := remaining - {seqNum};
      }
    }

    /** Adds every complete word of the stream; a trailing odd byte is an error. */
    method Decode(r: seq<byte>) returns (err: Option<Error>)
      modifies this
      ensures replays == old(replays) + Words(r)
      ensures err == if |r| % 2 == 0 then None else Some(UnexpectedEOF)
    {
      var rest := r;
      while true
        invariant replays + Words(rest) == old(replays) + Words(r)
        invariant |rest| % 2 == |r| % 2
        decreases |rest|
      {
        var read := ReadFull(rest, 2);
        match read {
          case Err(EOF) =>
            return None;
          case Err(e) =>
            return Some(e);
          case Ok((word, left)) =>
            Add(GetUint16(word));
            rest := left;
        }
      }
    }
  }

  /** The 16-bit words of a stream, ignoring a trailing odd byte. */
  function Words(r: seq<byte>): set<uint16> {
    if |r| < 2 then {} else {GetUint16(r[..2])} + Words(r[2..])
  }

  /** They are the pairs of bytes at even positions, the high byte first. */
  lemma {:induction false} WordsExactly(r: seq<byte>, s: uint16)
    ensures s in Words(r) <==> exists i :: WordAt(r, s, i)
  {
    if |r| >= 2 {
      var rest := r[2..];
      WordsExactly(rest, s);
      assert s == GetUint16(r[..2]) <==> WordAt(r, s, 0);
      if i :| WordAt(r, s, i) && i > 0 {
        assert WordAt(rest, s, i - 1);
      }
      if i :| WordAt(rest, s, i) {
        assert WordAt(r, s, i + 1);
      }
    }
  }

  predicate WordAt(r: seq<byte>, s: uint16, i: int) {
    0 <= i && 2 * i + 1 < |r| && s == 256 * NatOf(r[2 * i]) + NatOf(r[2 * i + 1])
  }

  function WordBytes(order: seq<uint16>): seq<byte> {
    if order == [] then [] else WordBytes(order[..|order| - 1]) + PutUint16(order[|order| - 1])
  }

  lemma {:induction false} WordBytesAppend(order: seq<uint16>, s: uint16)
    ensures WordBytes(order + [s]) == WordBytes(order) + PutUint16(s)
    ensures Slots(order + [s]) == Slots(order) + {s}
  {
    assert (order + [s])[..|order|] == order;
  }

  /** `w` is the members of the set, each once, in some order. */
  ghost predicate IsEncoding(w: seq<byte>, replays: set<uint16>) {
    exists order :: NoRepeats(order) && Slots(order) == replays && w == WordBytes(order)
  }

  /** Whatever the visiting order was, an encoded set has two bytes for each
      member and decodes without error to its union with what was there. */
  lemma {:induction false} DecodeEncodedSet(w: seq<byte>, replays: set<uint16>)
    requires IsEncoding(w, replays)
    ensures |w| == 2 * |replays| && Words(w) == replays
  {
    var order :| NoRepeats(order) && Slots(order) == replays && w == WordBytes(order);
    WordsOfEncoding(order);
    SlotCount(order);
  }

  lemma {:induction false} SlotCount(order: seq<uint16>)
    requires NoRepeats(order)
    ensures |Slots(order)| == |order|
  {
    if order != [] {
      var init, s := order[..|order| - 1], order[|order| - 1];
      SlotCount(init);
      assert s !in init;
      assert Slots(order) == Slots(init) + {s} by {
        assert order == init + [s];
      }
    }
  }

  lemma {:induction false} WordsAppend(a: seq<byte>, b: seq<byte>)
    requires |a| % 2 == 0
    ensures Words(a + b) == Words(a) + Words(b)
  {
    if a == [] {
      assert a + b == b;
    } else {
      assert (a + b)[..2] == a[..2] && (a + b)[2..] == a[2..] + b;
      WordsAppend(a[2..], b);
    }
  }

  lemma {:induction false} WordsOfEncoding(order: seq<uint16>)
    ensures |WordBytes(order)| == 2 * |order| && Words(WordBytes(order)) == Slots(order)
  {
    if order != [] {
      var init, s := order[..|order| - 1], order[|order| - 1];
      WordsOfEncoding(init);
      WordsAppend(WordBytes(init), PutUint16(s));
      assert PutUint16(s)[..2] == PutUint16(s) && PutUint16(s)[2..] == [];
      assert Words(PutUint16(s)) == {s};
      assert order == init + [s];
    }
  }

  class Batch {
    const id: BatchID
    var isCommitted: bool
    var replaySet: ReplaySet
    var entries: map<uint16, Entry>
    var replayCache: set<HashPrefix>

    ghost function View(): BatchState
      reads this, replaySet
    {
      BatchState(isCommitted, replaySet.replays, entries, replayCache)
    }

    constructor (id: BatchID)
      ensures this.id == id && View() == EmptyBatch && fresh(replaySet)
    {
      this.id := id;
      isCommitted := false;
      replaySet := new ReplaySet();
      entries := map[];
      replayCache := {};
    }

    /** A committed batch, whose replay set the log may share, is not touched. */
    method Put(seqNum: uint16, hashPrefix: HashPrefix, cltv: uint32) returns (err: Option<Error>)
      modifies `entries, `replayCache, replaySet
      ensures err == if isCommitted then Some(AlreadyCommitted) else None
      ensures View() == if isCommitted then old(View())
                        else BatchPut(old(View()), ReplayModel.Put(seqNum, hashPrefix, cltv))
    {
      if isCommitted {
        return Some(AlreadyCommitted);
      }
      if hashPrefix in replayCache {
        replaySet.Add(seqNum);
        return None;
      }
      entries := entries[seqNum := Entry(hashPrefix, cltv)];
      replayCache := replayCache + {hashPrefix};
      return None;
    }
  }

  class MemoryReplayLog {
    var batches: Option<map<BatchID, ReplaySet>>
    var entries: Option<Entries>
    /** The log as a value, and the replay sets it holds on to. */
    ghost var state: LogState
    ghost var stored: set<ReplaySet>

    ghost predicate Valid()
      reads this, stored
    {
      match state
      case Stopped => batches.None? && entries.None? && stored == {}
      case Started(e, b) =>
        && entries == Some(e) && batches.Some? && batches.value.Keys == b.Keys
        && forall id :: id in b ==> batches.value[id] in stored && batches.value[id].replays == b[id]
    }

    constructor ()
      ensures Valid() && state == Stopped && stored == {}
    {
      batches := None;
      entries := None;
      state := Stopped;
      stored := {};
    }

    method Start()
      modifies this
      ensures Valid() && state == Started(map[], map[]) && stored == {}
    {
      batches := Some(map[]);
      entries := Some(map[]);
      state := Started(map[], map[]);
      stored := {};
    }

    method Stop() returns (err: Option<Error>)
      requires Valid()
      modifies this
      ensures Valid() && state == Stopped && stored == {}
      ensures err == if old(state).Stopped? then Some(LogNotStarted) else None
    {
      if entries.None? || batches.None? {
        return Some(LogNotStarted);
      }
      batches := None;
      entries := None;
      state := Stopped;
      stored := {};
      return None;
    }

    method Get(hash: HashPrefix) returns (r: Result<uint32, Error>)
      requires Valid()
      ensures r == if state.Stopped? then Err(LogNotStarted)
                   else if hash in state.entries then Ok(state.entries[hash])
                   else Err(LogEntryNotFound)
    {
      if entries.None? || batches.None? {
        return Err(LogNotStarted);
      }
      if hash !in entries.value {
        return Err(LogEntryNotFound);
      }
      return Ok(entries.value[hash]);
    }

    method Put(hash: HashPrefix, cltv: uint32) returns (err: Option<Error>)
      requires Valid()
      modifies `entries, `state
      ensures Valid()
      ensures old(state).Stopped? ==> err == Some(LogNotStarted) && state == Stopped
      ensures old(state).Started? ==>
                var (log', replay) := LogPut(old(state).entries, hash, cltv);
                && state == old(state).(entries := log')
                && err == if replay then Some(ReplayedPacket) else None
    {
      if entries.None? || batches.None? {
        return Some(LogNotStarted);
      }
      if hash in entries.value {
        return Some(ReplayedPacket);
      }
      entries := Some(entries.value[hash := cltv]);
      state := state.(entries := entries.value);
      return None;
    }

    method Delete(hash: HashPrefix) returns (err: Option<Error>)
      requires Valid()
      modifies `entries, `state
      ensures Valid()
      ensures err == if old(state).Stopped? then Some(LogNotStarted) else None
      ensures state == if old(state).Stopped? then Stopped
                       else old(state).(entries := old(state).entries - {hash})
    {
      if entries.None? || batches.None? {
        return Some(LogNotStarted);
      }
      entries := Some(entries.value - {hash});
      state := state.(entries := entries.value);
      return None;
    }

    /** The callback of PutBatch. */
    method PutEntry(seqNum: uint16, entry: Entry, replays: ReplaySet)
      requires Valid() && state.Started? && replays !in stored
      modifies `entries, `state, replays
      ensures Valid()
      ensures var (log, replay) := LogPut(old(state).entries, entry.prefix, entry.cltv);
              && state == old(state).(entries := log)
              && replays.replays == if replay then old(replays.replays) + {seqNum} else old(replays.replays)
    {
      var err := Put(entry.prefix, entry.cltv);
      if err == Some(ReplayedPacket) {
        replays.Add(seqNum);
      }
    }

    /** Batch.ForEach with the callback of PutBatch; the map is visited in an
        arbitrary order, which does not show in the result. */
    method PutEach(batch: Batch) returns (replays: ReplaySet)
      requires Valid() && state.Started? && DistinctPrefixes(batch.entries)
      modifies `entries, `state
      ensures Valid() && fresh(replays)
      ensures var d := batch.entries.Keys;
              && state == old(state).(entries := Written(batch.entries, d, old(state).entries))
              && replays.replays == Flagged(batch.entries, d, old(state).entries)
    {
      replays := new ReplaySet();
      var remaining := batch.entries.Keys;
      ghost var order: seq<uint16> := [];
      while remaining != {}
        invariant Valid() && fresh(replays)
        invariant remaining <= batch.entries.Keys
        invariant NoRepeats(order) && Slots(order) == batch.entries.Keys - remaining
        invariant state == old(state).(entries := Visit(batch.entries, order, old(state).entries).log)
        invariant replays.replays == Visit(batch.entries, order, old(state).entries).replays
        decreases remaining
      {
        var seqNum :| seqNum in remaining;
        PutEntry(seqNum, batch.entries[seqNum], replays);
        VisitNext(batch.entries, order, seqNum, old(state).entries);
        order := order + [seqNum];
        remaining := remaining - {seqNum};
      }
      assert Slots(order) == batch.entries.Keys;
      VisitClosedForm(batch.entries, order, old(state).entries);
    }

    static lemma {:induction false} VisitNext(e: map<uint16, Entry>, order: seq<uint16>, s: uint16, log: Entries)
      requires s in e && s !in order && NoRepeats(order) && forall t :: t in order ==> t in e
      ensures NoRepeats(order + [s]) && Slots(order + [s]) == Slots(order) + {s}
      ensures Visit(e, order + [s], log)
              == var v := Visit(e, order, log);
                 var (log', replay) := LogPut(v.log, e[s].prefix, e[s].cltv);
                 Visited(log', if replay then v.replays + {s} else v.replays)
    {
      assert (order + [s])[..|order|] == order;
    }

    /** The part of PutBatch for an ID that the log has not seen. */
    method PutNew(batch: Batch) returns (replays: ReplaySet)
      requires Valid() && state.Started? && batch.id !in state.batches && DistinctPrefixes(batch.entries)
      modifies this
      ensures Valid() && fresh(replays) && stored == old(stored) + {replays}
      ensures state == PutBatchLog(old(state), batch.id, old(batch.View()))
      ensures replays.replays == Commit(old(batch.View()), old(state).entries).replays
    {
      replays := PutEach(batch);
      replays.Merge(batch.replaySet);
      batches := Some(batches.value[batch.id := replays]);
      state := state.(batches := state.batches[batch.id := replays.replays]);
      stored := stored + {replays};
    }

    /** PutBatch. The returned set is the one the log keeps under the batch's ID,
        and the batch is left holding it. */
    method PutBatch(batch: Batch) returns (r: Result<ReplaySet, Error>)
      requires Valid() && DistinctPrefixes(batch.entries)
      modifies this, batch`isCommitted, batch`replaySet
      ensures Valid()
      ensures state == PutBatchLog(old(state), batch.id, old(batch.View()))
      ensures batch.View() == PutBatchBatch(old(state), batch.id, old(batch.View()))
      ensures old(state).Stopped? ==>
                r == Err(LogNotStarted) && stored == old(stored) && batch.replaySet == old(batch.replaySet)
      ensures old(state).Started? ==>
                && r.Ok? && batch.replaySet == r.value
                && stored == old(stored) + {r.value}
                && (r.value !in old(stored) ==> fresh(r.value))
    {
      if entries.None? || batches.None? {
        return Err(LogNotStarted);
      }
      var replays: ReplaySet;
      if batch.id in batches.value {
        replays := batches.value[batch.id];
      } else {
        replays := PutNew(batch);
      }
      batch.replaySet := replays;
      batch.isCommitted := true;
      return Ok(replays);
    }
  }
}
