/** The end-to-end theorem: what NewOnionPacket builds is what the routers along
    the route recover, each with only its own private key. */
module Delivery {
  import opened Bytes
  import opened Primitives
  import opened Packet
  import opened Secrets
  import opened Header
  import opened Construction
  import opened Peel

  /** Hand a packet from router to router; each processes it with its own key and
      forwards what it unwrapped, until one of them takes itself for the exit. */
  function Travel(S: Suite, privs: seq<nat>, pkt: OnionPacket, assoc: seq<byte>)
    : Result<seq<ProcessedPacket>, Error>
  {
    if privs == [] then Ok([])
    else
      var here :- ReconstructOnionPacket(S, privs[0], pkt, assoc);
      if here.action == ExitNode then Ok([here])
      else
        var rest :- Travel(S, privs[1..], here.nextPacket, assoc);
        Ok([here] + rest)
  }

  /** One sending: a route whose hops are the routers holding `privs`, a session
      key and associated data. */
  datatype Sending = Sending(S: Suite, privs: seq<nat>, path: seq<OnionHop>, x: nat, assoc: seq<byte>) {
    ghost predicate Valid() {
      && S.GroupLaws()
      && RouteKeys(path) == PublicKeys(S, privs)
      && 1 <= |privs| <= NumMaxHops
    }

    ghost function ThePlan(): (p: Plan)
      requires Valid()
      ensures p.Valid() && |p.data| == |privs| && p.S == S && p.assoc == assoc
      ensures p.secrets == AllSecrets(S, PublicKeys(S, privs), x)
    {
      PlanFor(S, path, x, assoc)
    }

    ghost function Key(j: nat): Point
      requires Valid() && j < |privs|
    {
      EphemeralKey(S, PublicKeys(S, privs), x, j)
    }

    /** The packet addressed to hop j. */
    ghost function HopPacket(j: nat): OnionPacket
      requires Valid() && j < |privs|
    {
      ThePlan().PacketAt(j, Key(j))
    }

    /** What hop j should report: the payload the caller put into the path for it,
        with the HMAC filled in, and, before the exit, the next hop's packet. */
    ghost predicate Recovers(j: int, report: ProcessedPacket) {
      && Valid() && 0 <= j < |privs|
      && report.forwardingInstructions
         == path[j].hopData.(hmac := if j == |privs| - 1 then Zeros(32) else ThePlan().MacAt(j + 1))
      && (j < |privs| - 1 ==> report.nextPacket == HopPacket(j + 1))
    }

    /** What hop j makes of the packet addressed to it. */
    ghost function Outcome(j: nat): Result<ProcessedPacket, Error>
      requires Valid() && j < |privs|
    {
      ReconstructOnionPacket(S, privs[j], HopPacket(j), assoc)
    }

    /** The journey from hop j on. */
    ghost function TravelFrom(j: nat): Result<seq<ProcessedPacket>, Error>
      requires Valid() && j < |privs|
    {
      Travel(S, privs[j..], HopPacket(j), assoc)
    }
  }

  /** `r` holds one good report for each of the hops lo, ..., hi - 1, of which the
      last and no other takes itself for the exit. */
  ghost predicate AllReport(good: (int, ProcessedPacket) -> bool, lo: int, hi: int,
                            r: Result<seq<ProcessedPacket>, Error>)
  {
    && r.Ok?
    && |r.value| == hi - lo
    && forall i :: 0 <= i < |r.value| ==>
         good(lo + i, r.value[i]) && (r.value[i].action == ExitNode <==> lo + i == hi - 1)
  }

  lemma AllReportStep(good: (int, ProcessedPacket) -> bool, lo: int, hi: int, here: ProcessedPacket,
                      rest: Result<seq<ProcessedPacket>, Error>, r: Result<seq<ProcessedPacket>, Error>)
    requires good(lo, here) && here.action == MoreHops && lo < hi - 1
    requires r == if rest.Ok? then Ok([here] + rest.value) else Err(rest.error)
    ensures AllReport(good, lo, hi, r) <==> AllReport(good, lo + 1, hi, rest)
  {
    if AllReport(good, lo, hi, r) {
      forall i | 0 <= i < |rest.value|
        ensures good(lo + 1 + i, rest.value[i]) && (rest.value[i].action == ExitNode <==> lo + 1 + i == hi - 1)
      {
        assert r.value[i + 1] == rest.value[i];
      }
    }
  }

  /** A chain of hops, the last one an exit: hop j refuses the packet unless
      `on[j]`, takes itself for the exit if the next hop's MAC is zero, and
      otherwise its journey is its own report followed by the next hop's journey. */
  ghost predicate Relays(good: (int, ProcessedPacket) -> bool, journeys: seq<Result<seq<ProcessedPacket>, Error>>,
                         on: seq<bool>, zero: seq<bool>, j: nat, here: ProcessedPacket)
    requires j < |journeys| == |on| == |zero|
  {
    var exit := j == |journeys| - 1 || zero[j + 1];
    && (!on[j] ==> journeys[j].Err?)
    && (on[j] ==> good(j, here) && (here.action == ExitNode <==> exit))
    && (on[j] && exit ==> journeys[j] == Ok([here]))
    && (on[j] && !exit ==> journeys[j] == var rest := journeys[j + 1];
                                          if rest.Ok? then Ok([here] + rest.value) else Err(rest.error))
  }

  ghost predicate Link(good: (int, ProcessedPacket) -> bool, journeys: seq<Result<seq<ProcessedPacket>, Error>>,
                       on: seq<bool>, zero: seq<bool>, j: nat)
    requires j < |journeys| == |on| == |zero|
  {
    exists here :: Relays(good, journeys, on, zero, j, here)
  }

  ghost predicate IsChain(good: (int, ProcessedPacket) -> bool, journeys: seq<Result<seq<ProcessedPacket>, Error>>,
                          on: seq<bool>, zero: seq<bool>)
  {
    && |journeys| == |on| == |zero|
    && forall j :: 0 <= j < |journeys| ==> Link(good, journeys, on, zero, j)
  }

  lemma {:induction false} RelayDelivers(good: (int, ProcessedPacket) -> bool,
                                         journeys: seq<Result<seq<ProcessedPacket>, Error>>, on: seq<bool>,
                                         zero: seq<bool>, j: nat)
    requires j < |journeys| && IsChain(good, journeys, on, zero)
    ensures AllReport(good, j, |journeys|, journeys[j])
            <==> on[j] && forall i :: j < i < |journeys| ==> on[i] && !zero[i]
    decreases |journeys| - j
  {
    assert Link(good, journeys, on, zero, j);
    var here :| Relays(good, journeys, on, zero, j, here);
    if on[j] && j < |journeys| - 1 && !zero[j + 1] {
      RelayDelivers(good, journeys, on, zero, j + 1);
      AllReportStep(good, j, |journeys|, here, journeys[j + 1], journeys[j]);
    }
  }

  /** Hop `stop` is the first that the packet does not get past: either it refuses
      the packet, or the hop before it takes itself for the exit. */
  lemma {:induction false} RelayStops(good: (int, ProcessedPacket) -> bool,
                                      journeys: seq<Result<seq<ProcessedPacket>, Error>>, on: seq<bool>,
                                      zero: seq<bool>, j: nat, stop: nat)
    requires j < stop < |journeys| && IsChain(good, journeys, on, zero)
    requires forall i :: j <= i < stop ==> on[i] && (j < i ==> !zero[i])
    ensures zero[stop] ==> AllReport(good, j, stop, journeys[j])
    ensures !zero[stop] && !on[stop] ==> journeys[j] == journeys[stop] && journeys[j].Err?
    decreases stop - j
  {
    assert Link(good, journeys, on, zero, j);
    var here :| Relays(good, journeys, on, zero, j, here);
    if j + 1 < stop {
      RelayStops(good, journeys, on, zero, j + 1, stop);
      AllReportStep(good, j, stop, here, journeys[j + 1], journeys[j]);
    } else {
      assert Link(good, journeys, on, zero, stop);
    }
  }

  /** One hop: a key off the curve is refused, otherwise the payload and the next
      packet are recovered. */
  lemma ProcessHop(s: Sending, j: nat)
    requires s.Valid() && j < |s.privs|
    ensures s.Outcome(j).Ok? <==> s.S.isOnCurve(s.Key(j))
    ensures s.Outcome(j).Err? ==> s.Outcome(j).error == InvalidOnionKey
    ensures s.Outcome(j).Ok? ==>
              var report := s.Outcome(j).value;
              && s.Recovers(j, report)
              && (report.action == ExitNode <==> report.forwardingInstructions.hmac == Zeros(32))
  {
    HopSecret(s, j);
    PayloadIsCallers(s.S, s.path, s.x, s.assoc, j);
    if s.S.isOnCurve(s.Key(j)) {
      HopUnwraps(s.ThePlan(), j, s.Key(j));
    }
  }

  /** From its own private key and the key it receives, hop j derives the sender's
      secret, and from that the next hop's key. */
  lemma HopSecret(s: Sending, j: nat)
    requires s.Valid() && j < |s.privs|
    ensures var secret := s.ThePlan().secrets[j];
            && s.S.SharedSecret(s.Key(j), s.privs[j]) == secret
            && (j < |s.privs| - 1 ==> s.S.scalarMult(s.Key(j), s.S.BlindingFactor(s.Key(j), secret)) == s.Key(j + 1))
  {
    KeyAgreement(s.S, s.privs, s.x, j);
    if j < |s.privs| - 1 {
      KeyAgreement(s.S, s.privs, s.x, j + 1);
    }
  }

  /** The journey from hop j on, in terms of the journey from the next hop. */
  lemma TravelUnfolds(s: Sending, j: nat)
    requires s.Valid() && j < |s.privs|
    ensures s.Outcome(j).Err? ==> s.TravelFrom(j) == Err(s.Outcome(j).error)
    ensures s.Outcome(j).Ok? ==>
              var here := s.Outcome(j).value;
              && (here.action == ExitNode ==> s.TravelFrom(j) == Ok([here]))
              && (here.action == MoreHops && j < |s.privs| - 1 ==>
                    s.TravelFrom(j) == var rest := s.TravelFrom(j + 1);
                                       if rest.Ok? then Ok([here] + rest.value) else Err(rest.error))
  {
    ProcessHop(s, j);
    assert s.privs[j..][1..] == if j < |s.privs| - 1 then s.privs[j + 1..] else [];
  }

  /** Sending a packet around its route delivers to every hop exactly the payload
      the sender prepared, passes every MAC check and stops at the last hop, if
      and only if no scalar of the session vanishes modulo the group order and no
      intermediate MAC is all zeroes. */
  lemma EndToEndDelivery(s: Sending)
    requires s.Valid()
    ensures var packet := PlanFor(s.S, s.path, s.x, s.assoc).PacketAt(0, s.S.PublicKey(s.x));
            AllReport(s.Recovers, 0, |s.privs|, Travel(s.S, s.privs, packet, s.assoc))
            <==> && UsableSession(s.S, RouteKeys(s.path), s.x, |s.privs| - 1)
                 && forall j :: 0 < j < |s.privs| ==> s.ThePlan().MacAt(j) != Zeros(32)
  {
    var journeys, on, zero := Chain(s);
    RelayDelivers(s.Recovers, journeys, on, zero, 0);
    KeysUpTo(s, |s.privs| - 1);
    FirstJourney(s);
  }

  lemma FirstJourney(s: Sending)
    requires s.Valid()
    ensures s.TravelFrom(0)
            == Travel(s.S, s.privs, PlanFor(s.S, s.path, s.x, s.assoc).PacketAt(0, s.S.PublicKey(s.x)), s.assoc)
  {
    assert s.privs[0..] == s.privs;
  }

  /** What happens in the other cases, where hop `stop` is the first whose key has
      vanished or whose MAC is all zeroes: with a zero MAC the journey ends one hop
      early, at a hop that takes itself for the exit, and otherwise hop `stop`
      refuses the packet. */
  lemma EarlyEnd(s: Sending, stop: nat)
    requires s.Valid() && 0 < stop < |s.privs|
    requires UsableSession(s.S, RouteKeys(s.path), s.x, stop - 1)
    requires forall j :: 0 < j < stop ==> s.ThePlan().MacAt(j) != Zeros(32)
    ensures s.ThePlan().MacAt(stop) == Zeros(32) ==> AllReport(s.Recovers, 0, stop, s.TravelFrom(0))
    ensures s.ThePlan().MacAt(stop) != Zeros(32) && !s.S.isOnCurve(s.Key(stop)) ==>
              s.TravelFrom(0) == Err(InvalidOnionKey)
  {
    var journeys, on, zero := Chain(s);
    KeysUpTo(s, stop - 1);
    RelayStops(s.Recovers, journeys, on, zero, 0, stop);
    var _ := HopRelays(s, stop);
  }

  /** A session key that is a multiple of the group order is refused by the first
      hop. */
  lemma ZeroSessionKeyRefused(s: Sending)
    requires s.Valid() && s.x % s.S.order == 0
    ensures s.TravelFrom(0) == Err(InvalidOnionKey)
  {
    EphemeralOnCurve(s.S, PublicKeys(s.S, s.privs), s.x, 0);
    ProcessHop(s, 0);
    TravelUnfolds(s, 0);
  }

  /** The route as a chain of relays. */
  lemma Chain(s: Sending)
    returns (journeys: seq<Result<seq<ProcessedPacket>, Error>>, on: seq<bool>, zero: seq<bool>)
    requires s.Valid()
    ensures |journeys| == |on| == |zero| == |s.privs|
    ensures forall j :: 0 <= j < |s.privs| ==> journeys[j] == s.TravelFrom(j)
    ensures forall j :: 0 <= j < |s.privs| ==> on[j] == s.S.isOnCurve(s.Key(j))
    ensures forall j :: 0 <= j < |s.privs| ==> zero[j] == (s.ThePlan().MacAt(j) == Zeros(32))
    ensures IsChain(s.Recovers, journeys, on, zero)
  {
    var n := |s.privs|;
    journeys := seq(n, j requires 0 <= j < n => s.TravelFrom(j));
    on := seq(n, j requires 0 <= j < n => s.S.isOnCurve(s.Key(j)));
    zero := seq(n, j requires 0 <= j < n => s.ThePlan().MacAt(j) == Zeros(32));
    forall j | 0 <= j < n ensures Link(s.Recovers, journeys, on, zero, j) {
      HopLink(s, journeys, on, zero, j);
    }
  }

  lemma HopLink(s: Sending, journeys: seq<Result<seq<ProcessedPacket>, Error>>, on: seq<bool>, zero: seq<bool>, j: nat)
    requires s.Valid() && j < |journeys| == |on| == |zero| == |s.privs|
    requires forall i :: j <= i <= j + 1 && i < |s.privs| ==>
               && journeys[i] == s.TravelFrom(i)
               && on[i] == s.S.isOnCurve(s.Key(i))
               && zero[i] == (s.ThePlan().MacAt(i) == Zeros(32))
    ensures Link(s.Recovers, journeys, on, zero, j)
  {
    var here := HopRelays(s, j);
    assert Relays(s.Recovers, journeys, on, zero, j, here);
  }

  /** One hop as a relay. */
  lemma HopRelays(s: Sending, j: nat) returns (here: ProcessedPacket)
    requires s.Valid() && j < |s.privs|
    ensures !s.S.isOnCurve(s.Key(j)) ==> s.TravelFrom(j) == Err(InvalidOnionKey)
    ensures s.S.isOnCurve(s.Key(j)) ==>
              var exit := j == |s.privs| - 1 || s.ThePlan().MacAt(j + 1) == Zeros(32);
              && s.Recovers(j, here) && (here.action == ExitNode <==> exit)
              && s.TravelFrom(j) == if exit then Ok([here])
                                    else var rest := s.TravelFrom(j + 1);
                                         if rest.Ok? then Ok([here] + rest.value) else Err(rest.error)
  {
    ProcessHop(s, j);
    TravelUnfolds(s, j);
    here := if s.Outcome(j).Ok? then s.Outcome(j).value
            else ProcessedPacket(ExitNode, s.ThePlan().Payload(j), s.HopPacket(j));
    assert s.ThePlan().Payload(j).hmac == if j == |s.privs| - 1 then Zeros(32) else s.ThePlan().MacAt(j + 1);
  }

  lemma KeysUpTo(s: Sending, last: nat)
    requires s.Valid() && last < |s.privs|
    ensures UsableSession(s.S, RouteKeys(s.path), s.x, last)
            <==> forall j :: 0 <= j <= last ==> s.S.isOnCurve(s.Key(j))
  {
    var keys := PublicKeys(s.S, s.privs);
    EphemeralOnCurve(s.S, keys, s.x, last);
    if UsableSession(s.S, keys, s.x, last) {
      forall j | 0 <= j <= last ensures s.S.isOnCurve(s.Key(j)) {
        EphemeralOnCurve(s.S, keys, s.x, j);
      }
    } else {
      assert !s.S.isOnCurve(s.Key(last));
    }
  }

  // ---- Delivery over the wire ----

  /** As Travel, with every packet serialised by the hop that sends it and parsed
      by the hop that receives it. */
  function WireTravel(S: Suite, privs: seq<nat>, wire: seq<byte>, assoc: seq<byte>)
    : Result<seq<ProcessedPacket>, Error>
  {
    if privs == [] then Ok([])
    else
      var (pkt, _) :- DecodePacket(S, wire);
      var here :- ReconstructOnionPacket(S, privs[0], pkt, assoc);
      if here.action == ExitNode then Ok([here])
      else
        var rest :- WireTravel(S, privs[1..], EncodePacket(S, here.nextPacket), assoc);
        Ok([here] + rest)
  }

  /** What a router forwards keeps the version, and its key is a group element. */
  lemma ForwardedKey(S: Suite, priv: nat, pkt: OnionPacket, assoc: seq<byte>)
    requires S.GroupLaws()
    ensures var r := ReconstructOnionPacket(S, priv, pkt, assoc);
            r.Ok? ==> r.value.nextPacket.version == pkt.version && S.Element(r.value.nextPacket.ephemeralKey)
  {
    assert S.Closed(pkt.ephemeralKey, S.BlindingFactor(pkt.ephemeralKey, S.SharedSecret(pkt.ephemeralKey, priv)));
  }

  /** A packet parses back if its key is on the curve; the point at infinity is
      refused as a router refuses it. */
  lemma PacketOnWire(S: Suite, pkt: OnionPacket)
    requires S.WireLaws() && pkt.version == BaseVersion && S.Element(pkt.ephemeralKey)
    ensures DecodePacket(S, EncodePacket(S, pkt))
            == if S.isOnCurve(pkt.ephemeralKey) then Ok((pkt, [])) else Err(InvalidOnionKey)
  {
    DecodeEncodedPacket(S, pkt, []);
    assert EncodePacket(S, pkt) + [] == EncodePacket(S, pkt);
  }

  /** Serialising the packets makes no difference to any journey, of an honestly
      built packet or of any other. */
  lemma {:induction false} WireTravelAgrees(S: Suite, privs: seq<nat>, pkt: OnionPacket, assoc: seq<byte>)
    requires S.GroupLaws() && S.WireLaws()
    requires pkt.version == BaseVersion && S.Element(pkt.ephemeralKey)
    ensures WireTravel(S, privs, EncodePacket(S, pkt), assoc) == Travel(S, privs, pkt, assoc)
    decreases |privs|
  {
    if privs != [] {
      PacketOnWire(S, pkt);
      var r := ReconstructOnionPacket(S, privs[0], pkt, assoc);
      if r.Ok? {
        ForwardedKey(S, privs[0], pkt, assoc);
        WireTravelAgrees(S, privs[1..], r.value.nextPacket, assoc);
      }
    }
  }

  /** Delivery, unchanged, when all that passes between the hops is bytes. */
  lemma WireDelivery(s: Sending)
    requires s.Valid() && s.S.WireLaws()
    ensures var packet := PlanFor(s.S, s.path, s.x, s.assoc).PacketAt(0, s.S.PublicKey(s.x));
            AllReport(s.Recovers, 0, |s.privs|, WireTravel(s.S, s.privs, EncodePacket(s.S, packet), s.assoc))
            <==> && UsableSession(s.S, RouteKeys(s.path), s.x, |s.privs| - 1)
                 && forall j :: 0 < j < |s.privs| ==> s.ThePlan().MacAt(j) != Zeros(32)
  {
    EndToEndDelivery(s);
    assert s.S.Closed(s.S.base, s.x);
    WireTravelAgrees(s.S, s.privs, PlanFor(s.S, s.path, s.x, s.assoc).PacketAt(0, s.S.PublicKey(s.x)), s.assoc);
  }
}
