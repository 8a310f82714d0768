/** The replay log and its batches as values: what batching computes, why the
    visiting order does not matter, and when it refines one-by-one insertion. */
module ReplayModel {
  import opened Bytes
  import opened Primitives

  type Entries = map<HashPrefix, uint32>

  datatype Entry = Entry(prefix: HashPrefix, cltv: uint32)

  /** A packet offered to a batch. */
  datatype Put = Put(seqNum: uint16, prefix: HashPrefix, cltv: uint32)

  datatype BatchState = BatchState(
    isCommitted: bool,
    replays: set<uint16>,
    entries: map<uint16, Entry>,
    replayCache: set<HashPrefix>)

  const EmptyBatch := BatchState(false, {}, map[], {})

  /** Batch.Put on a batch that is not committed. */
  function BatchPut(b: BatchState, p: Put): BatchState {
    if p.prefix in b.replayCache then b.(replays := b.replays + {p.seqNum})
    else b.(entries := b.entries[p.seqNum := Entry(p.prefix, p.cltv)], replayCache := b.replayCache + {p.prefix})
  }

  function Fill(puts: seq<Put>): BatchState {
    if puts == [] then EmptyBatch else BatchPut(Fill(puts[..|puts| - 1]), puts[|puts| - 1])
  }

  /** MemoryReplayLog.Put on a started log: the entries afterwards, and whether
      the prefix was a replay. */
  function LogPut(log: Entries, prefix: HashPrefix, cltv: uint32): (Entries, bool) {
    if prefix in log then (log, true) else (log[prefix := cltv], false)
  }

  // ---- Invariants of every batch ----

  predicate SamePrefix(e: map<uint16, Entry>, s: uint16, t: uint16) {
    s in e && t in e && e[s].prefix == e[t].prefix
  }

  ghost predicate DistinctPrefixes(e: map<uint16, Entry>) {
    forall s, t :: SamePrefix(e, s, t) ==> s == t
  }

  /** Entry prefixes are pairwise distinct and all in the cache. */
  ghost predicate WellFormed(b: BatchState) {
    DistinctPrefixes(b.entries) && forall s :: s in b.entries ==> b.entries[s].prefix in b.replayCache
  }

  lemma PutKeepsWellFormed(b: BatchState, p: Put)
    requires WellFormed(b)
    ensures WellFormed(BatchPut(b, p))
  {
    var e, e' := b.entries, BatchPut(b, p).entries;
    forall s, t | SamePrefix(e', s, t) ensures s == t {
      assert s != p.seqNum && t != p.seqNum ==> SamePrefix(e, s, t);
    }
  }

  lemma {:induction false} FillWellFormed(puts: seq<Put>)
    ensures WellFormed(Fill(puts)) && !Fill(puts).isCommitted
    ensures Fill(puts).replayCache == set p | p in puts :: p.prefix
  {
    if puts != [] {
      var init, last := puts[..|puts| - 1], puts[|puts| - 1];
      FillWellFormed(init);
      PutKeepsWellFormed(Fill(init), last);
      assert puts == init + [last];
    }
  }

  // ---- Visiting the entries in any order ----

  /** A log and the slots found to be replays. */
  datatype Visited = Visited(log: Entries, replays: set<uint16>)

  /** Batch.ForEach with the callback of PutBatch, visiting `order`. */
  function Visit(e: map<uint16, Entry>, order: seq<uint16>, log: Entries): Visited
    requires forall s :: s in order ==> s in e
  {
    if order == [] then Visited(log, {})
    else
      var s := order[|order| - 1];
      var v := Visit(e, order[..|order| - 1], log);
      var (log', replay) := LogPut(v.log, e[s].prefix, e[s].cltv);
      Visited(log', if replay then v.replays + {s} else v.replays)
  }

  ghost function PrefixesOf(e: map<uint16, Entry>, d: set<uint16>): set<HashPrefix> {
    set s | s in d && s in e :: e[s].prefix
  }

  ghost function CltvOf(e: map<uint16, Entry>, prefix: HashPrefix): uint32
    requires prefix in PrefixesOf(e, e.Keys)
  {
    var s :| s in e && e[s].prefix == prefix;
    e[s].cltv
  }

  lemma CltvAt(e: map<uint16, Entry>, s: uint16)
    requires DistinctPrefixes(e) && s in e
    ensures e[s].prefix in PrefixesOf(e, e.Keys)
    ensures CltvOf(e, e[s].prefix) == e[s].cltv
  {
    assert e[s].prefix in PrefixesOf(e, e.Keys);
    assert forall t :: t in e && e[t].prefix == e[s].prefix ==> SamePrefix(e, s, t);
  }

  /** The log with the entries of the slots `d` that are new to it. */
  ghost function Written(e: map<uint16, Entry>, d: set<uint16>, log: Entries): Entries
    requires d <= e.Keys
  {
    map h | h in log.Keys + PrefixesOf(e, d) :: if h in log then log[h] else CltvOf(e, h)
  }

  /** The slots among `d` whose prefix the log already has. */
  ghost function Flagged(e: map<uint16, Entry>, d: set<uint16>, log: Entries): set<uint16> {
    set s | s in d && s in e && e[s].prefix in log
  }

  lemma PrefixesStep(e: map<uint16, Entry>, d: set<uint16>, s: uint16)
    requires DistinctPrefixes(e) && s in e && s !in d
    ensures PrefixesOf(e, d + {s}) == PrefixesOf(e, d) + {e[s].prefix}
    ensures e[s].prefix !in PrefixesOf(e, d)
  {
    assert forall t :: t in e && e[t].prefix == e[s].prefix ==> SamePrefix(e, s, t);
  }

  lemma WrittenStep(e: map<uint16, Entry>, d: set<uint16>, s: uint16, log: Entries)
    requires DistinctPrefixes(e) && d <= e.Keys && s in e && s !in d
    ensures e[s].prefix in Written(e, d, log) <==> e[s].prefix in log
    ensures Written(e, d + {s}, log)
            == if e[s].prefix in log then Written(e, d, log) else Written(e, d, log)[e[s].prefix := e[s].cltv]
  {
    PrefixesStep(e, d, s);
    CltvAt(e, s);
  }

  lemma FlaggedStep(e: map<uint16, Entry>, d: set<uint16>, s: uint16, log: Entries)
    requires s in e
    ensures Flagged(e, d + {s}, log)
            == if e[s].prefix in log then Flagged(e, d, log) + {s} else Flagged(e, d, log) - {s}
  {
  }

  ghost predicate NoRepeats(order: seq<uint16>) {
    forall i, j :: 0 <= i < j < |order| ==> order[i] != order[j]
  }

  function Slots(order: seq<uint16>): (d: set<uint16>)
    ensures forall s :: s in order <==> s in d
  {
    set s | s in order
  }

  lemma {:induction false} VisitClosedForm(e: map<uint16, Entry>, order: seq<uint16>, log: Entries)
    requires DistinctPrefixes(e) && NoRepeats(order) && Slots(order) <= e.Keys
    ensures Visit(e, order, log) == Visited(Written(e, Slots(order), log), Flagged(e, Slots(order), log))
  {
    if order == [] {
      assert Written(e, {}, log) == log;
    } else {
      var init, s := order[..|order| - 1], order[|order| - 1];
      assert order == init + [s] && s !in init;
      assert Slots(order) == Slots(init) + {s};
      VisitClosedForm(e, init, log);
      WrittenStep(e, Slots(init), s, log);
      FlaggedStep(e, Slots(init), s, log);
      assert s !in Flagged(e, Slots(init), log);
    }
  }

  /** Every visiting order of a batch gives the same log and the same replays. */
  lemma {:induction false} VisitOrderIrrelevant(puts: seq<Put>, order1: seq<uint16>, order2: seq<uint16>, log: Entries)
    requires NoRepeats(order1) && NoRepeats(order2)
    requires Slots(order1) == Slots(order2) == Fill(puts).entries.Keys
    ensures Visit(Fill(puts).entries, order1, log) == Visit(Fill(puts).entries, order2, log)
  {
    FillWellFormed(puts);
    VisitClosedForm(Fill(puts).entries, order1, log);
    VisitClosedForm(Fill(puts).entries, order2, log);
  }

  /** What committing a batch to a log that has not seen its ID does. */
  ghost function Commit(b: BatchState, log: Entries): Visited {
    var d := b.entries.Keys;
    Visited(Written(b.entries, d, log), Flagged(b.entries, d, log) + b.replays)
  }

  // ---- Batching against one-by-one insertion ----

  /** Insert one packet, flagging its slot if it is a replay. */
  function InsertOne(v: Visited, p: Put): Visited {
    var (log', replay) := LogPut(v.log, p.prefix, p.cltv);
    Visited(log', if replay then v.replays + {p.seqNum} else v.replays)
  }

  /** Insert the packets one by one. */
  function Sequential(puts: seq<Put>, log: Entries): Visited {
    if puts == [] then Visited(log, {}) else InsertOne(Sequential(puts[..|puts| - 1], log), puts[|puts| - 1])
  }

  ghost predicate RefinesSequential(puts: seq<Put>) {
    forall log :: Commit(Fill(puts), log) == Sequential(puts, log)
  }

  /** The i-th packet is the first with its prefix. */
  predicate FirstUse(puts: seq<Put>, i: nat)
    requires i < |puts|
  {
    forall j :: 0 <= j < i ==> puts[j].prefix != puts[i].prefix
  }

  /** No slot is used for two different new prefixes. */
  predicate SlotsDistinct(puts: seq<Put>) {
    forall i, j :: 0 <= i < j < |puts| && FirstUse(puts, i) && FirstUse(puts, j) ==> puts[i].seqNum != puts[j].seqNum
  }

  lemma {:induction false} SequentialKeys(puts: seq<Put>, log: Entries)
    ensures Sequential(puts, log).log.Keys == log.Keys + set p | p in puts :: p.prefix
  {
    if puts != [] {
      var init, last := puts[..|puts| - 1], puts[|puts| - 1];
      SequentialKeys(init, log);
      assert puts == init + [last];
    }
  }

  /** An entry was put there by the first use of its prefix. */
  lemma {:induction false} EntrySource(puts: seq<Put>, s: uint16) returns (i: nat)
    requires s in Fill(puts).entries
    ensures i < |puts| && FirstUse(puts, i)
    ensures puts[i] == Put(s, Fill(puts).entries[s].prefix, Fill(puts).entries[s].cltv)
  {
    var init, last := puts[..|puts| - 1], puts[|puts| - 1];
    FillWellFormed(init);
    if last.prefix !in Fill(init).replayCache && last.seqNum == s {
      i := |puts| - 1;
      forall j | 0 <= j < i ensures puts[j].prefix != last.prefix {
        assert init[j] in init;
      }
    } else {
      i := EntrySource(init, s);
      assert init[i] == puts[i];
      assert forall j :: 0 <= j < i ==> init[j] == puts[j];
    }
  }

  lemma FirstUseOfInit(puts: seq<Put>, k: nat)
    requires k < |puts| - 1
    ensures FirstUse(puts, k) == FirstUse(puts[..|puts| - 1], k)
  {
    var init := puts[..|puts| - 1];
    assert forall j :: 0 <= j <= k ==> puts[j] == init[j];
  }

  /** The cache tells whether a prefix is new. */
  lemma FirstUseOfLast(puts: seq<Put>)
    requires puts != []
    ensures var n := |puts| - 1; FirstUse(puts, n) <==> puts[n].prefix !in Fill(puts[..n]).replayCache
  {
    var n := |puts| - 1;
    var init, prefix := puts[..n], puts[n].prefix;
    FillWellFormed(init);
    if prefix in Fill(init).replayCache {
      var p :| p in init && p.prefix == prefix;
      var j :| 0 <= j < n && init[j] == p;
      assert puts[j].prefix == prefix;
    } else {
      forall j | 0 <= j < n ensures puts[j].prefix != prefix {
        assert init[j] in init;
      }
    }
  }

  /** The k-th packet is for this slot and brings a prefix that was used before. */
  predicate RepeatAt(puts: seq<Put>, s: uint16, k: int) {
    0 <= k < |puts| && puts[k].seqNum == s && !FirstUse(puts, k)
  }

  /** A batch flags exactly the slots that were offered a prefix it had seen. */
  lemma {:induction false} FlaggedExactly(puts: seq<Put>, s: uint16)
    ensures s in Fill(puts).replays <==> exists k :: RepeatAt(puts, s, k)
  {
    if puts != [] {
      var n := |puts| - 1;
      var init := puts[..n];
      FlaggedExactly(init, s);
      FirstUseOfLast(puts);
      if k :| RepeatAt(puts, s, k) && k < n {
        FirstUseOfInit(puts, k);
        assert RepeatAt(init, s, k);
      } else if k :| RepeatAt(init, s, k) {
        FirstUseOfInit(puts, k);
        assert RepeatAt(puts, s, k);
      } else {
        assert forall k :: RepeatAt(puts, s, k) ==> k == n;
      }
      assert RepeatAt(puts, s, n) <==> puts[n].seqNum == s && !FirstUse(puts, n);
    }
  }

  /** The k-th packet is for this slot and brings a new prefix. */
  predicate NewAt(puts: seq<Put>, s: uint16, k: int) {
    0 <= k < |puts| && puts[k].seqNum == s && FirstUse(puts, k)
  }

  /** A batch has an entry for exactly the slots that were offered a new prefix, and
      it is the last of them: at `k`, if there is one. */
  lemma {:induction false} EntryExactly(puts: seq<Put>, s: uint16) returns (k: nat)
    ensures s in Fill(puts).entries <==> exists i :: NewAt(puts, s, i)
    ensures s in Fill(puts).entries ==>
              && NewAt(puts, s, k) && (forall i :: k < i < |puts| ==> !NewAt(puts, s, i))
              && Fill(puts).entries[s] == Entry(puts[k].prefix, puts[k].cltv)
  {
    k := 0;
    if puts != [] {
      var n := |puts| - 1;
      var init := puts[..n];
      FirstUseOfLast(puts);
      forall i | 0 <= i < n ensures NewAt(puts, s, i) == NewAt(init, s, i) {
        FirstUseOfInit(puts, i);
      }
      assert NewAt(puts, s, n) <==> puts[n].seqNum == s && FirstUse(puts, n);
      if NewAt(puts, s, n) {
        k := n;
      } else {
        k := EntryExactly(init, s);
      }
    }
  }

  lemma SlotsDistinctPrefix(puts: seq<Put>, n: nat)
    requires SlotsDistinct(puts) && n <= |puts|
    ensures SlotsDistinct(puts[..n])
  {
    forall i, j | 0 <= i < j < n && FirstUse(puts[..n], i) && FirstUse(puts[..n], j)
      ensures puts[..n][i].seqNum != puts[..n][j].seqNum
    {
      assert forall k :: 0 <= k < n ==> puts[..n][k] == puts[k];
      assert FirstUse(puts, i) && FirstUse(puts, j);
    }
  }

  /** A new prefix then goes to an unused slot. */
  lemma {:induction false} NewSlot(init: seq<Put>, last: Put)
    requires SlotsDistinct(init + [last])
    requires last.prefix !in Fill(init).replayCache
    ensures last.seqNum !in Fill(init).entries
  {
    FillWellFormed(init);
    if last.seqNum in Fill(init).entries {
      var puts := init + [last];
      var i := EntrySource(init, last.seqNum);
      assert forall j :: 0 <= j < |init| ==> puts[j] == init[j];
      assert FirstUse(puts, i);
      forall j | 0 <= j < |init| ensures puts[j].prefix != last.prefix {
        assert init[j] in init;
      }
      assert FirstUse(puts, |init|);
      assert false;
    }
  }

  lemma {:induction false} DistinctSlotsRefine(puts: seq<Put>, log: Entries)
    requires SlotsDistinct(puts)
    ensures Commit(Fill(puts), log) == Sequential(puts, log)
  {
    if puts == [] {
      assert Written(map[], {}, log) == log;
    } else {
      var init, last := puts[..|puts| - 1], puts[|puts| - 1];
      assert puts == init + [last];
      SlotsDistinctPrefix(puts, |init|);
      DistinctSlotsRefine(init, log);
      FillWellFormed(init);
      FillWellFormed(puts);
      SequentialKeys(init, log);
      if last.prefix !in Fill(init).replayCache {
        NewSlot(init, last);
      }
      CommitStep(Fill(init), last, log);
    }
  }

  lemma WrittenSame(e: map<uint16, Entry>, s: uint16, entry: Entry, log: Entries)
    requires s !in e && DistinctPrefixes(e) && DistinctPrefixes(e[s := entry])
    ensures Written(e[s := entry], e.Keys, log) == Written(e, e.Keys, log)
  {
    var e' := e[s := entry];
    assert PrefixesOf(e', e.Keys) == PrefixesOf(e, e.Keys);
    forall h | h in PrefixesOf(e, e.Keys)
      ensures h in PrefixesOf(e', e'.Keys) && CltvOf(e', h) == CltvOf(e, h)
    {
      var t :| t in e && e[t].prefix == h;
      CltvAt(e, t);
      CltvAt(e', t);
    }
  }

  lemma CommitNew(b: BatchState, p: Put, log: Entries)
    requires WellFormed(b) && p.prefix !in b.replayCache && p.seqNum !in b.entries
    requires WellFormed(BatchPut(b, p))
    ensures Commit(BatchPut(b, p), log)
            == var c := Commit(b, log);
               if p.prefix in log then Visited(c.log, c.replays + {p.seqNum})
               else Visited(c.log[p.prefix := p.cltv], c.replays)
  {
    var e, s := b.entries, p.seqNum;
    var e' := BatchPut(b, p).entries;
    WrittenSame(e, s, Entry(p.prefix, p.cltv), log);
    assert e'.Keys == e.Keys + {s};
    WrittenStep(e', e.Keys, s, log);
    FlaggedStep(e', e.Keys, s, log);
    assert Flagged(e', e.Keys, log) == Flagged(e, e.Keys, log);
    assert s !in Flagged(e, e.Keys, log);
  }

  /** Adding a packet to a batch that has lost nothing commits like inserting it. */
  lemma CommitStep(b: BatchState, p: Put, log: Entries)
    requires WellFormed(b) && WellFormed(BatchPut(b, p))
    requires p.prefix !in b.replayCache ==> p.seqNum !in b.entries
    requires Commit(b, log).log.Keys == log.Keys + b.replayCache
    ensures Commit(BatchPut(b, p), log) == InsertOne(Commit(b, log), p)
  {
    if p.prefix !in b.replayCache {
      CommitNew(b, p, log);
    }
  }

  /** The prefix has been used, but no entry carries it any more. */
  ghost predicate Lost(b: BatchState, prefix: HashPrefix) {
    prefix in b.replayCache && forall s :: s in b.entries ==> b.entries[s].prefix != prefix
  }

  lemma {:induction false} StaysLost(puts: seq<Put>, n: nat, prefix: HashPrefix)
    requires n <= |puts| && Lost(Fill(puts[..n]), prefix)
    ensures Lost(Fill(puts), prefix)
    decreases |puts|
  {
    if n == |puts| {
      assert puts[..n] == puts;
    } else {
      assert puts[..|puts| - 1][..n] == puts[..n];
      StaysLost(puts[..|puts| - 1], n, prefix);
    }
  }

  /** After its first use, a prefix can only be found in the slot it was put in. */
  lemma {:induction false} OnlySlot(puts: seq<Put>, i: nat, s: uint16)
    requires i < |puts| && FirstUse(puts, i)
    requires s in Fill(puts).entries && Fill(puts).entries[s].prefix == puts[i].prefix
    ensures s == puts[i].seqNum
  {
    var k := EntrySource(puts, s);
    assert i <= k && k <= i;
  }

  lemma OverwriteLoses(b: BatchState, prefix: HashPrefix, p: Put)
    requires prefix in b.replayCache && p.prefix !in b.replayCache
    requires forall s :: s in b.entries && b.entries[s].prefix == prefix ==> s == p.seqNum
    ensures Lost(BatchPut(b, p), prefix)
  {
  }

  /** Reusing the slot of a new prefix for another loses the first. */
  lemma {:induction false} ReusedSlotLoses(puts: seq<Put>, i: nat, j: nat)
    requires i < j < |puts| && FirstUse(puts, i) && FirstUse(puts, j) && puts[i].seqNum == puts[j].seqNum
    ensures Lost(Fill(puts), puts[i].prefix)
  {
    var init := puts[..j];
    FillWellFormed(init);
    assert init[i] in init;
    assert FirstUse(init, i);
    forall s | s in Fill(init).entries && Fill(init).entries[s].prefix == puts[i].prefix
      ensures s == puts[j].seqNum
    {
      OnlySlot(init, i, s);
    }
    OverwriteLoses(Fill(init), puts[i].prefix, puts[j]);
    assert puts[..j + 1][..j] == init;
    StaysLost(puts, j + 1, puts[i].prefix);
  }

  /** Batching gives the same replays and the same log as inserting the packets
      one by one, whatever the log held before, if and only if no slot is used
      for two different new prefixes. */
  lemma BatchRefinesSequential(puts: seq<Put>)
    ensures RefinesSequential(puts) <==> SlotsDistinct(puts)
  {
    FillWellFormed(puts);
    if SlotsDistinct(puts) {
      forall log ensures Commit(Fill(puts), log) == Sequential(puts, log) {
        DistinctSlotsRefine(puts, log);
      }
    } else {
      var i, j :| 0 <= i < j < |puts| && FirstUse(puts, i) && FirstUse(puts, j) && puts[i].seqNum == puts[j].seqNum;
      ReusedSlotLoses(puts, i, j);
      var none: Entries := map[];
      SequentialKeys(puts, none);
      assert puts[i] in puts;
      assert puts[i].prefix in Sequential(puts, none).log;
      assert puts[i].prefix !in Commit(Fill(puts), none).log;
    }
  }

  /** In particular it does when every packet has its own sequence number. */
  lemma DistinctSequenceNumbersRefine(puts: seq<Put>)
    requires forall i, j :: 0 <= i < j < |puts| ==> puts[i].seqNum != puts[j].seqNum
    ensures RefinesSequential(puts)
  {
    BatchRefinesSequential(puts);
  }
}
