/** Delivery and replay protection together: the routers of a route, each with its
    own replay log. */
module GuardedDelivery {
  import opened Bytes
  import opened Primitives
  import opened Packet
  import opened Secrets
  import opened Construction
  import opened Peel
  import opened Delivery
  import opened ReplayModel
  import opened ReplayRuns

  /** A router of a route: its private key, its log, and the CLTV under which the
      packet reaches it. */
  datatype Hop = Hop(priv: nat, log: LogState, cltv: uint32) {
    function Answer(S: Suite, pkt: OnionPacket, assoc: seq<byte>): Result<ProcessedPacket, Error> {
      RouteResult(log, Node(S, priv).Inspect(pkt, assoc))
    }

    function After(S: Suite, pkt: OnionPacket, assoc: seq<byte>): Hop {
      this.(log := RouteLog(log, Node(S, priv).Inspect(pkt, assoc), cltv))
    }

    /** The log is running and does not know the packet that brings this key. */
    predicate Admits(S: Suite, key: Point) {
      log.Started? && Node(S, priv).PrefixOf(key) !in log.entries
    }
  }

  /** Hand a packet from router to router, as Travel does, through the entry point
      that consults the replay log; with the routers as they are afterwards. */
  function Journey(S: Suite, hops: seq<Hop>, pkt: OnionPacket, assoc: seq<byte>)
    : (r: (Result<seq<ProcessedPacket>, Error>, seq<Hop>))
    ensures |r.1| == |hops|
  {
    if hops == [] then (Ok([]), [])
    else
      var here, hop := hops[0].Answer(S, pkt, assoc), hops[0].After(S, pkt, assoc);
      if here.Err? then (Err(here.error), [hop] + hops[1..])
      else if here.value.action == ExitNode then (Ok([here.value]), [hop] + hops[1..])
      else
        var (rest, others) := Journey(S, hops[1..], here.value.nextPacket, assoc);
        (if rest.Ok? then Ok([here.value] + rest.value) else Err(rest.error), [hop] + others)
  }

  /** What a router answers, in terms of what it makes of the packet by itself. */
  lemma AnswerFromPacket(h: Hop, S: Suite, pkt: OnionPacket, assoc: seq<byte>)
    ensures var r := ReconstructOnionPacket(S, h.priv, pkt, assoc);
            && (r.Err? ==> h.Answer(S, pkt, assoc) == r && h.After(S, pkt, assoc) == h)
            && (r.Ok? && h.Admits(S, pkt.ephemeralKey) ==>
                  && h.Answer(S, pkt, assoc) == r
                  && h.After(S, pkt, assoc).log.Started?
                  && Node(S, h.priv).PrefixOf(pkt.ephemeralKey) in h.After(S, pkt, assoc).log.entries
                  && h.After(S, pkt, assoc).log.entries[Node(S, h.priv).PrefixOf(pkt.ephemeralKey)] == h.cltv)
            && (r.Ok? && !h.Admits(S, pkt.ephemeralKey) ==>
                  && h.Answer(S, pkt, assoc) == Err(if h.log.Started? then ReplayedPacket else LogNotStarted)
                  && h.After(S, pkt, assoc) == h)
  {
  }

  /** The routers are those of the sending. */
  ghost predicate OnRoute(s: Sending, hops: seq<Hop>) {
    && s.Valid() && |hops| == |s.privs|
    && forall j :: 0 <= j < |hops| ==> hops[j].priv == s.privs[j]
  }

  ghost function JourneyFrom(s: Sending, hops: seq<Hop>, j: nat): Result<seq<ProcessedPacket>, Error>
    requires OnRoute(s, hops) && j < |hops|
  {
    Journey(s.S, hops[j..], s.HopPacket(j), s.assoc).0
  }

  /** The journey from hop j on, in terms of the journey from the next hop. */
  lemma JourneyUnfolds(s: Sending, hops: seq<Hop>, j: nat) returns (here: ProcessedPacket)
    requires OnRoute(s, hops) && j < |hops|
    ensures !s.S.isOnCurve(s.Key(j)) || !hops[j].Admits(s.S, s.Key(j)) ==> JourneyFrom(s, hops, j).Err?
    ensures s.S.isOnCurve(s.Key(j)) ==>
              var exit := j == |hops| - 1 || s.ThePlan().MacAt(j + 1) == Zeros(32);
              && s.Recovers(j, here) && (here.action == ExitNode <==> exit)
              && (hops[j].Admits(s.S, s.Key(j)) ==>
                    JourneyFrom(s, hops, j) == if exit then Ok([here])
                                               else var rest := JourneyFrom(s, hops, j + 1);
                                                    if rest.Ok? then Ok([here] + rest.value) else Err(rest.error))
  {
    here := HopRelays(s, j);
    ProcessHop(s, j);
    TravelUnfolds(s, j);
    AnswerFromPacket(hops[j], s.S, s.HopPacket(j), s.assoc);
    assert hops[j..][1..] == if j < |hops| - 1 then hops[j + 1..] else [];
  }

  /** The route as a chain of relays, of which one works if it accepts the key it
      receives and its log admits it. */
  lemma GuardedChain(s: Sending, hops: seq<Hop>)
    returns (journeys: seq<Result<seq<ProcessedPacket>, Error>>, on: seq<bool>, zero: seq<bool>)
    requires OnRoute(s, hops)
    ensures |journeys| == |on| == |zero| == |hops|
    ensures forall j :: 0 <= j < |hops| ==> journeys[j] == JourneyFrom(s, hops, j)
    ensures forall j :: 0 <= j < |hops| ==> on[j] == (s.S.isOnCurve(s.Key(j)) && hops[j].Admits(s.S, s.Key(j)))
    ensures forall j :: 0 <= j < |hops| ==> zero[j] == (s.ThePlan().MacAt(j) == Zeros(32))
    ensures IsChain(s.Recovers, journeys, on, zero)
  {
    var n := |hops|;
    journeys := seq(n, j requires 0 <= j < n => JourneyFrom(s, hops, j));
    on := seq(n, j requires 0 <= j < n => s.S.isOnCurve(s.Key(j)) && hops[j].Admits(s.S, s.Key(j)));
    zero := seq(n, j requires 0 <= j < n => s.ThePlan().MacAt(j) == Zeros(32));
    forall j | 0 <= j < n ensures Link(s.Recovers, journeys, on, zero, j) {
      GuardedLink(s, hops, journeys, on, zero, j);
    }
  }

  lemma GuardedLink(s: Sending, hops: seq<Hop>, journeys: seq<Result<seq<ProcessedPacket>, Error>>, on: seq<bool>,
                    zero: seq<bool>, j: nat)
    requires OnRoute(s, hops) && j < |journeys| == |on| == |zero| == |hops|
    requires forall i :: j <= i <= j + 1 && i < |hops| ==>
               && journeys[i] == JourneyFrom(s, hops, i)
               && on[i] == (s.S.isOnCurve(s.Key(i)) && hops[i].Admits(s.S, s.Key(i)))
               && zero[i] == (s.ThePlan().MacAt(i) == Zeros(32))
    ensures Link(s.Recovers, journeys, on, zero, j)
  {
    var here := JourneyUnfolds(s, hops, j);
    assert Relays(s.Recovers, journeys, on, zero, j, here);
  }

  /** With replay protection, a sending delivers to every hop exactly its payload if
      and only if it does without, and every router's log is running and does not
      know the packet. */
  lemma {:induction false} GuardedDelivers(s: Sending, hops: seq<Hop>)
    requires OnRoute(s, hops)
    ensures var packet := PlanFor(s.S, s.path, s.x, s.assoc).PacketAt(0, s.S.PublicKey(s.x));
            AllReport(s.Recovers, 0, |hops|, Journey(s.S, hops, packet, s.assoc).0)
            <==> && UsableSession(s.S, RouteKeys(s.path), s.x, |s.privs| - 1)
                 && (forall j :: 0 < j < |s.privs| ==> s.ThePlan().MacAt(j) != Zeros(32))
                 && forall j :: 0 <= j < |hops| ==> hops[j].Admits(s.S, s.Key(j))
  {
    WholeJourney(s, hops);
    ChainDelivers(s, hops);
    ClearExactly(s, hops);
  }

  lemma {:induction false} ChainDelivers(s: Sending, hops: seq<Hop>)
    requires OnRoute(s, hops)
    ensures AllReport(s.Recovers, 0, |hops|, JourneyFrom(s, hops, 0))
            <==> forall j :: 0 <= j < |hops| ==> Clear(s, hops, j)
  {
    var journeys, on, zero := GuardedChain(s, hops);
    RelayDelivers(s.Recovers, journeys, on, zero, 0);
    forall j | 0 <= j < |hops| ensures Clear(s, hops, j) <==> on[j] && (j > 0 ==> !zero[j]) {
    }
  }

  lemma {:induction false} ClearExactly(s: Sending, hops: seq<Hop>)
    requires OnRoute(s, hops)
    ensures (forall j :: 0 <= j < |hops| ==> Clear(s, hops, j))
            <==> && UsableSession(s.S, RouteKeys(s.path), s.x, |s.privs| - 1)
                 && (forall j :: 0 < j < |s.privs| ==> s.ThePlan().MacAt(j) != Zeros(32))
                 && forall j :: 0 <= j < |hops| ==> hops[j].Admits(s.S, s.Key(j))
  {
    KeysUpTo(s, |s.privs| - 1);
    if forall j :: 0 <= j < |hops| ==> Clear(s, hops, j) {
      forall j | 0 <= j < |hops|
        ensures s.S.isOnCurve(s.Key(j)) && hops[j].Admits(s.S, s.Key(j))
        ensures j > 0 ==> s.ThePlan().MacAt(j) != Zeros(32)
      {
        assert Clear(s, hops, j);
      }
    }
  }

  /** Nothing stops the packet at hop j. */
  ghost predicate Clear(s: Sending, hops: seq<Hop>, j: nat)
    requires OnRoute(s, hops) && j < |hops|
  {
    && s.S.isOnCurve(s.Key(j)) && hops[j].Admits(s.S, s.Key(j))
    && (j > 0 ==> s.ThePlan().MacAt(j) != Zeros(32))
  }

  lemma {:induction false} WholeJourney(s: Sending, hops: seq<Hop>)
    requires OnRoute(s, hops)
    ensures var packet := PlanFor(s.S, s.path, s.x, s.assoc).PacketAt(0, s.S.PublicKey(s.x));
            JourneyFrom(s, hops, 0) == Journey(s.S, hops, packet, s.assoc).0
  {
    assert hops[0..] == hops;
  }

  /** A second packet with the same ephemeral key, whatever it carries and wherever
      its first hop would send it, is refused by a first hop that has accepted the
      first, and no log changes; the same packet is refused as a replay. */
  lemma {:induction false} SecondSendingRefused(S: Suite, hops: seq<Hop>, pkt: OnionPacket, assoc: seq<byte>,
                             again: OnionPacket, assoc': seq<byte>)
    requires hops != [] && hops[0].Answer(S, pkt, assoc).Ok?
    requires again.ephemeralKey == pkt.ephemeralKey
    ensures var after := Journey(S, hops, pkt, assoc).1;
            && Journey(S, after, again, assoc').0.Err? && Journey(S, after, again, assoc').1 == after
            && (again == pkt && assoc' == assoc ==> Journey(S, after, again, assoc').0 == Err(ReplayedPacket))
  {
    AnswerFromPacket(hops[0], S, pkt, assoc);
    var after := Journey(S, hops, pkt, assoc).1;
    assert after[0] == hops[0].After(S, pkt, assoc);
    AnswerFromPacket(after[0], S, again, assoc');
    assert [after[0]] + after[1..] == after;
  }
}
