/** Payment paths and NewOnionPacket. */
module Construction {
  import opened Bytes
  import opened Primitives
  import opened Packet
  import opened Secrets
  import opened Header

  /** A hop of a payment path; `None` stands for a key without coordinates. */
  datatype OnionHop = OnionHop(nodePub: Option<Point>, hopData: HopData) {
    predicate IsEmpty() {
      nodePub.None?
    }
  }

  /** `n` is the number of hops before the first empty one. */
  predicate IsRouteLength(path: seq<OnionHop>, n: nat) {
    && n <= |path|
    && (forall i :: 0 <= i < n ==> !path[i].IsEmpty())
    && (n < |path| ==> path[n].IsEmpty())
  }

  function RouteLength(path: seq<OnionHop>): (n: nat)
    ensures IsRouteLength(path, n)
  {
    if path == [] || path[0].IsEmpty() then 0 else 1 + RouteLength(path[1..])
  }

  method TrueRouteLength(path: array<OnionHop>) returns (routeLength: nat)
    ensures routeLength == RouteLength(path[..])
  {
    routeLength := 0;
    while routeLength < path.Length
      invariant routeLength <= path.Length
      invariant forall i :: 0 <= i < routeLength ==> !path[i].IsEmpty()
    {
      if path[routeLength].IsEmpty() {
        break;
      }
      routeLength := routeLength + 1;
    }
    RouteLengthUnique(path[..], routeLength);
  }

  lemma {:induction false} RouteLengthUnique(path: seq<OnionHop>, n: nat)
    requires IsRouteLength(path, n)
    ensures n == RouteLength(path)
  {
  }

  function RouteKeys(path: seq<OnionHop>): (keys: seq<Point>)
    ensures |keys| == RouteLength(path)
    ensures forall i :: 0 <= i < |keys| ==> path[i].nodePub == Some(keys[i])
  {
    seq(RouteLength(path), i requires 0 <= i < RouteLength(path) => path[i].nodePub.value)
  }

  function RouteData(path: seq<OnionHop>): (data: seq<HopData>)
    ensures |data| == RouteLength(path)
    ensures forall i :: 0 <= i < |data| ==> data[i] == path[i].hopData
  {
    seq(RouteLength(path), i requires 0 <= i < RouteLength(path) => path[i].hopData)
  }

  method NodeKeys(path: array<OnionHop>) returns (keys: seq<Point>)
    ensures keys == RouteKeys(path[..])
  {
    var routeLen := TrueRouteLength(path);
    var nodeKeys := new Point[routeLen](_ => Infinity);
    for i := 0 to routeLen
      invariant forall j :: 0 <= j < i ==> nodeKeys[j] == RouteKeys(path[..])[j]
    {
      nodeKeys[i] := path[i].nodePub.value;
    }
    keys := nodeKeys[..];
  }

  /** What NewOnionPacket is determined by. */
  function PlanFor(S: Suite, path: seq<OnionHop>, x: nat, assoc: seq<byte>): (p: Plan)
    requires S.order > 0
    requires 1 <= RouteLength(path) <= NumMaxHops
    ensures p.Valid()
  {
    Plan(S, AllSecrets(S, RouteKeys(path), x), RouteData(path), assoc)
  }

  /** The path afterwards: the HMAC fields of the route are filled in. */
  function Stamped(path: seq<OnionHop>, p: Plan): (r: seq<OnionHop>)
    requires p.Valid() && |p.data| <= |path|
    ensures |r| == |path|
    ensures forall i :: 0 <= i < |path| ==>
              r[i] == if i <= p.Last() then path[i].(hopData := p.Payload(i)) else path[i]
  {
    seq(|path|, i requires 0 <= i < |path| =>
      if i <= p.Last() then path[i].(hopData := p.Payload(i)) else path[i])
  }

  /** What the buffer holds before hop `i` is layered on. */
  function HeaderBelow(p: Plan, i: nat): RoutingInfo
    requires p.Valid() && i <= |p.data|
  {
    if i == |p.data| then Zeros(RoutingInfoSize) else p.HeaderAt(i)
  }

  function MacBelow(p: Plan, i: nat): Hash256
    requires p.Valid() && i <= |p.data|
  {
    if i == |p.data| then Zeros(32) else p.MacAt(i)
  }

  /** Wrap one hop around the header, working in place on the buffer that holds
      it. */
  method AddLayer(S: Suite, header: RoutingInfo, secret: Hash256, hd: HopData) returns (layer: RoutingInfo)
    ensures layer == Layer(S, secret, hd, header)
  {
    var mixHeader := new byte[RoutingInfoSize](i requires 0 <= i < RoutingInfoSize => header[i]);
    assert mixHeader[..] == header;
    RightShift(mixHeader, HopDataSize);
    CopyInto(mixHeader, 0, EncodeHopData(hd));
    assert mixHeader[..] == EncodeHopData(hd) + header[..RoutingInfoSize - HopDataSize];
    XorPrefix(mixHeader, Stream(S, secret)[..RoutingInfoSize]);
    layer := mixHeader[..];
  }

  /** One iteration of NewOnionPacket on the header: the last hop's tail is
      overwritten with the filler. */
  method WrapHop(ghost p: Plan, S: Suite, below: RoutingInfo, i: nat, isLast: bool, secret: Hash256, hd: HopData,
                 filler: seq<byte>)
    returns (header: RoutingInfo)
    requires p.Valid() && p.S == S && i < |p.data| && isLast == (i == p.Last())
    requires secret == p.secrets[i] && hd == p.Payload(i) && filler == Filler(S, p.secrets, p.Last())
    requires below == HeaderBelow(p, i + 1)
    ensures header == p.HeaderAt(i)
  {
    header := AddLayer(S, below, secret, hd);
    if isLast {
      header := WithTail(header, filler);
    }
  }

  lemma StampHop(before: seq<OnionHop>, p: Plan, i: nat)
    requires p.Valid() && i < |p.data| <= |before|
    ensures var stamped := Stamped(before, p);
            && (before[..i + 1] + stamped[i + 1..])[i := before[i].(hopData := p.Payload(i))]
               == before[..i] + stamped[i..]
            && (before[..i + 1] + stamped[i + 1..])[i] == before[i]
  {
  }

  method SetHopData(path: array<OnionHop>, i: nat, hd: HopData)
    requires i < path.Length
    modifies path
    ensures path[..] == old(path[..])[i := old(path[i]).(hopData := hd)]
  {
    path[i] := path[i].(hopData := hd);
  }

  /** The loop of NewOnionPacket, from the last hop to the first. */
  method WrapRoute(ghost p: Plan, S: Suite, path: array<OnionHop>, numHops: nat, secrets: seq<Hash256>,
                   filler: seq<byte>, assoc: seq<byte>)
    returns (mixHeader: RoutingInfo, nextHmac: Hash256)
    requires p.Valid() && p.S == S && p.secrets == secrets && p.assoc == assoc
    requires numHops == |p.data| <= path.Length
    requires forall i :: 0 <= i < numHops ==> p.data[i] == path[i].hopData
    requires filler == Filler(S, secrets, p.Last())
    modifies path
    ensures mixHeader == p.HeaderAt(0) && nextHmac == p.MacAt(0)
    ensures path[..] == Stamped(old(path[..]), p)
  {
    ghost var before := path[..];
    mixHeader := Zeros(RoutingInfoSize);
    nextHmac := Zeros(32);
    for i := numHops downto 0
      invariant mixHeader == HeaderBelow(p, i)
      invariant nextHmac == MacBelow(p, i)
      invariant path[..] == before[..i] + Stamped(before, p)[i..]
    {
      StampHop(before, p, i);
      assert path[i] == path[..][i];
      var hd := path[i].hopData.(hmac := nextHmac);
      SetHopData(path, i, hd);
      mixHeader := WrapHop(p, S, mixHeader, i, i == numHops - 1, secrets[i], hd, filler);
      nextHmac := HeaderMac(S, secrets[i], mixHeader, assoc);
    }
  }

  /** NewOnionPacket. The path is the source's fixed-size array; an empty route
      is excluded as in the source, which would index its first key. */
  method NewOnionPacket(S: Suite, path: array<OnionHop>, sessionKey: nat, assoc: seq<byte>)
    returns (packet: OnionPacket)
    requires S.order > 0
    requires path.Length == NumMaxHops
    requires RouteLength(path[..]) >= 1
    modifies path
    ensures var p := PlanFor(S, old(path[..]), sessionKey, assoc);
            && packet == p.PacketAt(0, S.PublicKey(sessionKey))
            && path[..] == Stamped(old(path[..]), p)
    ensures packet.version == 0 && packet.ephemeralKey == S.scalarMult(S.base, sessionKey)
    ensures forall i :: 0 <= i < path.Length ==>
              && path[i].nodePub == old(path[i].nodePub)
              && path[i].hopData.(hmac := old(path[i].hopData.hmac)) == old(path[i].hopData)
  {
    var numHops := TrueRouteLength(path);
    var keys := NodeKeys(path);
    var secrets := GenerateSharedSecrets(S, keys, sessionKey);
    assert secrets == AllSecrets(S, keys, sessionKey);
    var filler := GenerateHeaderPadding(S, numHops, secrets);
    var mixHeader, headerMac := WrapRoute(PlanFor(S, path[..], sessionKey, assoc),
                                          S, path, numHops, secrets, filler, assoc);
    packet := OnionPacket(BaseVersion, S.PublicKey(sessionKey), mixHeader, headerMac);
    ghost var p := PlanFor(S, old(path[..]), sessionKey, assoc);
    forall i | 0 <= i < path.Length
      ensures path[i].nodePub == old(path[i].nodePub)
      ensures path[i].hopData.(hmac := old(path[i].hopData.hmac)) == old(path[i].hopData)
    {
      assert path[i] == path[..][i] && old(path[..])[i] == old(path[i]);
      if i <= p.Last() {
        PayloadIsCallers(S, old(path[..]), sessionKey, assoc, i);
      }
    }
  }

  /** A hop's payload is the caller's but for the HMAC: zeroes for the last hop, the
      next header's for the others. */
  lemma {:induction false} PayloadIsCallers(S: Suite, path: seq<OnionHop>, x: nat, assoc: seq<byte>, i: nat)
    requires S.order > 0
    requires i < RouteLength(path) <= NumMaxHops
    ensures var p := PlanFor(S, path, x, assoc);
            && i <= p.Last() == RouteLength(path) - 1
            && p.Payload(i) == path[i].hopData.(hmac := if i == p.Last() then Zeros(32) else p.MacAt(i + 1))
  {
  }

  // ---- Construction depends only on the route ----

  /** Same route: the same keys and payloads up to the first empty hop, HMAC
      fields aside. */
  predicate SameRoute(a: seq<OnionHop>, b: seq<OnionHop>) {
    && RouteLength(a) == RouteLength(b)
    && forall i :: 0 <= i < RouteLength(a) ==>
         && a[i].nodePub == b[i].nodePub
         && a[i].hopData.(hmac := Zeros(32)) == b[i].hopData.(hmac := Zeros(32))
  }

  lemma SameUpToHmac(a: HopData, b: HopData, mac: Hash256)
    requires a.(hmac := Zeros(32)) == b.(hmac := Zeros(32))
    ensures a.(hmac := mac) == b.(hmac := mac)
  {
  }

  lemma {:induction false} HeaderIgnoresHmac(p: Plan, q: Plan, j: nat)
    requires p.Valid() && q.Valid()
    requires p.S == q.S && p.secrets == q.secrets && p.assoc == q.assoc
    requires forall i :: 0 <= i < |p.data| ==> p.data[i].(hmac := Zeros(32)) == q.data[i].(hmac := Zeros(32))
    requires j <= p.Last()
    ensures p.HeaderAt(j) == q.HeaderAt(j)
    decreases |p.data| - j
  {
    if j < p.Last() {
      HeaderIgnoresHmac(p, q, j + 1);
    }
    SameUpToHmac(p.data[j], q.data[j], p.Payload(j).hmac);
    assert p.Payload(j) == q.Payload(j);
  }

  /** Paths with the same route give the same packet. */
  lemma {:induction false} PacketDependsOnRouteOnly(S: Suite, a: seq<OnionHop>, b: seq<OnionHop>, x: nat,
                                                    assoc: seq<byte>, key: Point)
    requires S.order > 0
    requires 1 <= RouteLength(a) <= NumMaxHops
    requires SameRoute(a, b)
    ensures PlanFor(S, a, x, assoc).PacketAt(0, key) == PlanFor(S, b, x, assoc).PacketAt(0, key)
  {
    assert RouteKeys(a) == RouteKeys(b);
    HeaderIgnoresHmac(PlanFor(S, a, x, assoc), PlanFor(S, b, x, assoc), 0);
  }

  lemma StampedSameRoute(path: seq<OnionHop>, p: Plan)
    requires p.Valid() && p.data == RouteData(path)
    ensures SameRoute(path, Stamped(path, p))
  {
    RouteLengthUnique(Stamped(path, p), RouteLength(path));
  }

  /** Building again from the path the first construction filled in gives the
      same packet and fills in the same path. */
  lemma {:induction false} RebuildIsStable(S: Suite, path: seq<OnionHop>, x: nat, assoc: seq<byte>, key: Point)
    requires S.order > 0
    requires 1 <= RouteLength(path) <= NumMaxHops
    ensures var p := PlanFor(S, path, x, assoc);
            var again := Stamped(path, p);
            && RouteLength(again) == RouteLength(path)
            && PlanFor(S, again, x, assoc).PacketAt(0, key) == p.PacketAt(0, key)
            && Stamped(again, PlanFor(S, again, x, assoc)) == again
  {
    var p := PlanFor(S, path, x, assoc);
    var again := Stamped(path, p);
    StampedSameRoute(path, p);
    PacketDependsOnRouteOnly(S, path, again, x, assoc, key);
    var q := PlanFor(S, again, x, assoc);
    assert RouteKeys(path) == RouteKeys(again);
    SamePayloads(p, q);
    StampedTwice(path, p, q);
  }

  lemma StampedTwice(path: seq<OnionHop>, p: Plan, q: Plan)
    requires p.Valid() && q.Valid() && |p.data| == |q.data| <= |path|
    requires forall i :: 0 <= i <= p.Last() ==> q.Payload(i) == p.Payload(i)
    ensures Stamped(Stamped(path, p), q) == Stamped(path, p)
  {
  }

  lemma SamePayloads(p: Plan, q: Plan)
    requires p.Valid() && q.Valid()
    requires p.S == q.S && p.secrets == q.secrets && p.assoc == q.assoc
    requires forall i :: 0 <= i < |p.data| ==> p.data[i].(hmac := Zeros(32)) == q.data[i].(hmac := Zeros(32))
    ensures forall i :: 0 <= i <= p.Last() ==> q.Payload(i) == p.Payload(i)
  {
    forall i | 0 <= i <= p.Last() ensures q.Payload(i) == p.Payload(i) {
      SamePayload(p, q, i);
    }
  }

  lemma SamePayload(p: Plan, q: Plan, i: nat)
    requires p.Valid() && q.Valid()
    requires p.S == q.S && p.secrets == q.secrets && p.assoc == q.assoc
    requires forall i :: 0 <= i < |p.data| ==> p.data[i].(hmac := Zeros(32)) == q.data[i].(hmac := Zeros(32))
    requires i <= p.Last()
    ensures q.Payload(i) == p.Payload(i)
  {
    if i < p.Last() {
      HeaderIgnoresHmac(p, q, i + 1);
    }
    SameUpToHmac(p.data[i], q.data[i], p.Payload(i).hmac);
  }
}
