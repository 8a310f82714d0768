/** A router's side of the onion: unwrapping and processing one packet. */
module Peel {
  import opened Bytes
  import opened Primitives
  import opened Packet
  import opened Header

  datatype ProcessCode = ExitNode | MoreHops

  datatype ProcessedPacket = ProcessedPacket(
    action: ProcessCode,
    forwardingInstructions: HopData,
    nextPacket: OnionPacket)

  /** unwrapPacket */
  function UnwrapPacket(S: Suite, pkt: OnionPacket, secret: Hash256, assoc: seq<byte>)
    : Result<(OnionPacket, HopData), Error>
  {
    var calculatedMac := S.CalcMac(S.GenerateKey(Mu, secret), pkt.routingInfo + assoc);
    if pkt.headerMAC != calculatedMac then Err(InvalidOnionHMAC)
    else
      var hopInfo := Xor(pkt.routingInfo + Zeros(HopDataSize), Stream(S, secret));
      var nextKey := S.scalarMult(pkt.ephemeralKey, S.BlindingFactor(pkt.ephemeralKey, secret));
      var (hopData, _) :- DecodeHopData(hopInfo);
      Ok((OnionPacket(pkt.version, nextKey, hopInfo[HopDataSize..], hopData.hmac), hopData))
  }

  /** processOnionPacket */
  function ProcessOnionPacket(S: Suite, pkt: OnionPacket, secret: Hash256, assoc: seq<byte>)
    : Result<ProcessedPacket, Error>
  {
    var (innerPkt, outerHopData) :- UnwrapPacket(S, pkt, secret, assoc);
    var action := if outerHopData.hmac == Zeros(32) then ExitNode else MoreHops;
    Ok(ProcessedPacket(action, outerHopData, innerPkt))
  }

  /** Router.generateSharedSecret */
  function RouterSecret(S: Suite, priv: nat, key: Point): Result<Hash256, Error> {
    if !S.isOnCurve(key) then Err(InvalidOnionKey) else Ok(S.SharedSecret(key, priv))
  }

  /** Router.ReconstructOnionPacket: all a router does to a packet apart from the
      replay log. */
  function ReconstructOnionPacket(S: Suite, priv: nat, pkt: OnionPacket, assoc: seq<byte>)
    : Result<ProcessedPacket, Error>
  {
    var secret :- RouterSecret(S, priv, pkt.ephemeralKey);
    ProcessOnionPacket(S, pkt, secret, assoc)
  }

  // ---- What unwrapping does, over the primitives ----

  /** A packet is accepted exactly when its MAC is the HMAC, under the "mu" key, of
      all the routing info and the associated data. What an accepted packet reveals
      is the routing info and 65 zeroes, XORed with the stream of the "rho" key;
      the next key is this one, multiplied by the hash of it and the secret. */
  lemma UnwrapOverPrimitives(S: Suite, pkt: OnionPacket, secret: Hash256, assoc: seq<byte>)
    ensures var r := UnwrapPacket(S, pkt, secret, assoc);
            var mac := S.hmac(S.hmac([0x6d, 0x75], secret), pkt.routingInfo + assoc);
            && (pkt.headerMAC != mac ==> r == Err(InvalidOnionHMAC))
            && (pkt.headerMAC == mac ==>
                  && r.Ok?
                  && var (inner, hd) := r.value;
                     var clear := EncodeHopData(hd) + inner.routingInfo;
                     && inner.version == pkt.version && inner.headerMAC == hd.hmac
                     && inner.ephemeralKey == S.scalarMult(pkt.ephemeralKey,
                                                           S.scalar(S.sha256(S.compress(pkt.ephemeralKey) + secret)))
                     && |clear| == 1365
                     && forall i :: 0 <= i < 1365 ==>
                          clear[i] == (if i < 1300 then pkt.routingInfo[i] else 0)
                                      ^ S.keystream(S.hmac([0x72, 0x68, 0x6f], secret), i))
  {
    LongStreamDecodes(Xor(pkt.routingInfo + Zeros(HopDataSize), Stream(S, secret)));
  }

  /** Tampering shows: a packet that carries the MAC of an accepted one is accepted
      exactly if the HMAC does not tell the two messages apart. */
  lemma TamperingShows(S: Suite, a: OnionPacket, b: OnionPacket, secret: Hash256, assoc: seq<byte>, assoc': seq<byte>)
    ensures UnwrapPacket(S, a, secret, assoc).Ok? && b.headerMAC == a.headerMAC ==>
              var key := S.hmac([0x6d, 0x75], secret);
              UnwrapPacket(S, b, secret, assoc').Ok?
              <==> S.hmac(key, b.routingInfo + assoc') == S.hmac(key, a.routingInfo + assoc)
  {
    UnwrapOverPrimitives(S, a, secret, assoc);
    UnwrapOverPrimitives(S, b, secret, assoc');
  }

  /** A router refuses a key off the curve, and otherwise unwraps with the hash of
      the key multiplied by its own; it is the exit exactly for 32 zero bytes. */
  lemma ReconstructOverPrimitives(S: Suite, priv: nat, pkt: OnionPacket, assoc: seq<byte>)
    ensures var r := ReconstructOnionPacket(S, priv, pkt, assoc);
            if !S.isOnCurve(pkt.ephemeralKey) then r == Err(InvalidOnionKey)
            else
              match UnwrapPacket(S, pkt, S.sha256(S.compress(S.scalarMult(pkt.ephemeralKey, priv))), assoc)
              case Err(e) => r == Err(e)
              case Ok((inner, hd)) =>
                && r.Ok? && r.value.forwardingInstructions == hd && r.value.nextPacket == inner
                && (r.value.action == ExitNode <==> forall i :: 0 <= i < 32 ==> hd.hmac[i] == 0)
  {
    var r := UnwrapPacket(S, pkt, S.sha256(S.compress(S.scalarMult(pkt.ephemeralKey, priv))), assoc);
    if r.Ok? {
      assert r.value.1.hmac == Zeros(32) <==> forall i :: 0 <= i < 32 ==> r.value.1.hmac[i] == 0;
    }
  }

  // ---- Unwrapping undoes layering ----

  /** Decrypting a layer reveals the payload, the part of the inner header that
      was not shifted out, and the end of the stream. */
  lemma DecryptLayer(S: Suite, secret: Hash256, hd: HopData, inner: RoutingInfo)
    ensures Xor(Layer(S, secret, hd, inner) + Zeros(HopDataSize), Stream(S, secret))
            == EncodeHopData(hd) + inner[..RoutingInfoSize - HopDataSize] + Stream(S, secret)[RoutingInfoSize..]
  {
    var plain := EncodeHopData(hd) + inner[..RoutingInfoSize - HopDataSize];
    var stream := Stream(S, secret);
    var all := Layer(S, secret, hd, inner) + Zeros(HopDataSize);
    XorSlice(all, stream, 0, RoutingInfoSize);
    XorSlice(all, stream, RoutingInfoSize, NumStreamBytes);
    assert all[..RoutingInfoSize] == Layer(S, secret, hd, inner);
    assert all[RoutingInfoSize..] == Zeros(HopDataSize);
    XorCancels(plain, stream[..RoutingInfoSize]);
    XorZeros(stream[RoutingInfoSize..]);
    var clear := Xor(all, stream);
    assert clear == clear[..RoutingInfoSize] + clear[RoutingInfoSize..];
  }

  /** A packet is refused only for its MAC, and re-layering what an accepted one
      unwraps to, honestly built or not, gives its routing info back. */
  lemma LayerUndoesUnwrap(S: Suite, pkt: OnionPacket, secret: Hash256, assoc: seq<byte>)
    ensures match UnwrapPacket(S, pkt, secret, assoc)
            case Ok((inner, hd)) => Layer(S, secret, hd, inner.routingInfo) == pkt.routingInfo
            case Err(e) => e == InvalidOnionHMAC && pkt.headerMAC != HeaderMac(S, secret, pkt.routingInfo, assoc)
  {
    var hopInfo := Xor(pkt.routingInfo + Zeros(HopDataSize), Stream(S, secret));
    LongStreamDecodes(hopInfo);
    var (hd, _) := DecodeHopData(hopInfo).value;
    Relayer(S, secret, pkt.routingInfo, hd, hopInfo[HopDataSize..]);
  }

  /** What was revealed, encrypted again. */
  lemma Relayer(S: Suite, secret: Hash256, info: RoutingInfo, hd: HopData, rest: RoutingInfo)
    requires Xor(info + Zeros(HopDataSize), Stream(S, secret)) == EncodeHopData(hd) + rest
    ensures Layer(S, secret, hd, rest) == info
  {
    var stream := Stream(S, secret);
    var padded := info + Zeros(HopDataSize);
    assert (EncodeHopData(hd) + rest)[..RoutingInfoSize]
        == EncodeHopData(hd) + rest[..RoutingInfoSize - HopDataSize];
    XorSlice(padded, stream, 0, RoutingInfoSize);
    assert padded[..RoutingInfoSize] == info;
    XorCancels(info, stream[..RoutingInfoSize]);
  }

  /** For a fixed secret and associated data, peeling is injective up to the
      ephemeral key. */
  lemma UnwrapInjective(S: Suite, a: OnionPacket, b: OnionPacket, secret: Hash256, assoc: seq<byte>)
    ensures var ra, rb := UnwrapPacket(S, a, secret, assoc), UnwrapPacket(S, b, secret, assoc);
            ra.Ok? && rb.Ok? && ra.value.1 == rb.value.1 && ra.value.0.routingInfo == rb.value.0.routingInfo ==>
              a.routingInfo == b.routingInfo && a.headerMAC == b.headerMAC
  {
    LayerUndoesUnwrap(S, a, secret, assoc);
    LayerUndoesUnwrap(S, b, secret, assoc);
  }

  // ---- Hop by hop delivery ----

  /** What a hop sees when it decrypts the header addressed to it: its payload,
      then (before the last hop) exactly the header addressed to the next hop. */
  lemma DecryptHeader(p: Plan, j: nat)
    requires p.Valid() && j <= p.Last()
    ensures var hopInfo := Xor(p.HeaderAt(j) + Zeros(HopDataSize), Stream(p.S, p.secrets[j]));
            && hopInfo[..HopDataSize] == EncodeHopData(p.Payload(j))
            && (j < p.Last() ==> hopInfo[HopDataSize..] == p.HeaderAt(j + 1))
  {
    if j < p.Last() {
      FillerInvariant(p, j + 1);
      assert p.HeaderAt(j) == Layer(p.S, p.secrets[j], p.Payload(j), p.HeaderAt(j + 1));
      DecryptRegenerates(p.S, p.secrets, p.Payload(j), p.HeaderAt(j + 1), j);
      SplitClear(p.Payload(j), p.HeaderAt(j + 1));
    } else {
      DecryptLastHeader(p);
    }
  }

  lemma SplitClear(hd: HopData, rest: seq<byte>)
    ensures (EncodeHopData(hd) + rest)[..HopDataSize] == EncodeHopData(hd)
    ensures (EncodeHopData(hd) + rest)[HopDataSize..] == rest
  {
  }

  /** The bytes the sender's shift dropped are the ones the padding regenerates. */
  lemma {:induction false} DecryptRegenerates(S: Suite, secrets: seq<Hash256>, hd: HopData, next: RoutingInfo, j: nat)
    requires j < |secrets| && j + 1 < NumMaxHops
    requires next[RoutingInfoSize - (j + 1) * HopDataSize..] == Filler(S, secrets, j + 1)
    ensures Xor(Layer(S, secrets[j], hd, next) + Zeros(HopDataSize), Stream(S, secrets[j]))
            == EncodeHopData(hd) + next
  {
    DecryptLayer(S, secrets[j], hd, next);
    FillerStep(S, secrets, j);
    assert next[RoutingInfoSize - HopDataSize..]
        == next[RoutingInfoSize - (j + 1) * HopDataSize..][j * HopDataSize..];
    assert next == next[..RoutingInfoSize - HopDataSize] + next[RoutingInfoSize - HopDataSize..];
  }

  /** The filler overwrites only the tail, so the last payload is intact. */
  lemma {:induction false} DecryptLastHeader(p: Plan)
    requires p.Valid()
    ensures Xor(p.HeaderAt(p.Last()) + Zeros(HopDataSize), Stream(p.S, p.secrets[p.Last()]))[..HopDataSize]
            == EncodeHopData(p.Payload(p.Last()))
  {
    var j := p.Last();
    var stream := Stream(p.S, p.secrets[j]);
    var layer := Layer(p.S, p.secrets[j], p.Payload(j), Zeros(RoutingInfoSize));
    DecryptLayer(p.S, p.secrets[j], p.Payload(j), Zeros(RoutingInfoSize));
    var sent, full := p.HeaderAt(j) + Zeros(HopDataSize), layer + Zeros(HopDataSize);
    assert sent[..HopDataSize] == full[..HopDataSize];
    XorSlice(sent, stream, 0, HopDataSize);
    XorSlice(full, stream, 0, HopDataSize);
  }

  /** Behind the last payload, up to the filler, the header is the bare stream. */
  lemma {:induction false} LastHeaderPadding(p: Plan, i: nat)
    requires p.Valid() && i < 1300 - 65 * |p.data|
    ensures p.HeaderAt(p.Last())[65 + i] == p.S.keystream(p.S.hmac([0x72, 0x68, 0x6f], p.secrets[p.Last()]), 65 + i)
  {
    var j := p.Last();
    var layer := Layer(p.S, p.secrets[j], p.Payload(j), Zeros(RoutingInfoSize));
    assert p.HeaderAt(j)[65 + i] == layer[65 + i];
  }

  /** A hop holding the sender's secret accepts its packet, recovers its payload
      and forwards the next hop's packet. */
  lemma HopUnwraps(p: Plan, j: nat, key: Point)
    requires p.Valid() && j <= p.Last()
    ensures var r := UnwrapPacket(p.S, p.PacketAt(j, key), p.secrets[j], p.assoc);
            && r.Ok?
            && r.value.1 == p.Payload(j)
            && (j < p.Last() ==>
                  var nextKey := p.S.scalarMult(key, p.S.BlindingFactor(key, p.secrets[j]));
                  r.value.0 == p.PacketAt(j + 1, nextKey))
  {
    DecryptHeader(p, j);
    var hopInfo := Xor(p.HeaderAt(j) + Zeros(HopDataSize), Stream(p.S, p.secrets[j]));
    assert hopInfo == EncodeHopData(p.Payload(j)) + hopInfo[HopDataSize..];
    DecodeEncodedHopData(p.Payload(j), hopInfo[HopDataSize..]);
  }

  /** The last hop finds nothing but zeroes between its payload and the filler. */
  lemma LastHopPadding(p: Plan, key: Point, i: nat)
    requires p.Valid() && i < 1300 - 65 * |p.data|
    ensures var r := UnwrapPacket(p.S, p.PacketAt(p.Last(), key), p.secrets[p.Last()], p.assoc);
            r.Ok? && r.value.0.routingInfo[i] == 0
  {
    var j := p.Last();
    HopUnwraps(p, j, key);
    LastHeaderPadding(p, i);
    UnwrapOverPrimitives(p.S, p.PacketAt(j, key), p.secrets[j], p.assoc);
    var (inner, hd) := UnwrapPacket(p.S, p.PacketAt(j, key), p.secrets[j], p.assoc).value;
    assert (EncodeHopData(hd) + inner.routingInfo)[65 + i] == inner.routingInfo[i];
    XorSelf(p.HeaderAt(j)[65 + i]);
  }

  lemma XorSelf(b: byte)
    ensures b ^ b == 0
  {
  }
}
