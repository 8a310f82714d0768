/** The wire records: per-hop payloads and onion packets. */
module Packet {
  import opened Bytes
  import opened Primitives

  const NumMaxHops: nat := 20
  const HopDataSize: nat := 65
  const RoutingInfoSize: nat := NumMaxHops * HopDataSize
  const NumStreamBytes: nat := RoutingInfoSize + HopDataSize
  const BaseVersion: byte := 0

  type Address = s: seq<byte> | |s| == 8 witness Zeros(8)
  type Padding = s: seq<byte> | |s| == 12 witness Zeros(12)
  type RoutingInfo = s: seq<byte> | |s| == RoutingInfoSize witness Zeros(RoutingInfoSize)

  datatype Error =
    | EOF
    | UnexpectedEOF
    | InvalidOnionVersion
    | InvalidOnionKey
    | InvalidOnionHMAC
    | InvalidPubKey
    | ReplayedPacket
    | LogEntryNotFound
    | LogNotStarted
    | AlreadyCommitted

  datatype HopData = HopData(
    realm: byte,
    nextAddress: Address,
    forwardAmount: uint64,
    outgoingCltv: uint32,
    extraBytes: Padding,
    hmac: Hash256)

  datatype OnionPacket = OnionPacket(
    version: byte,
    ephemeralKey: Point,
    routingInfo: RoutingInfo,
    headerMAC: Hash256)

  /** io.ReadFull on a reader holding `r`: the bytes read and what is left. */
  function ReadFull(r: seq<byte>, n: nat): Result<(seq<byte>, seq<byte>), Error> {
    if |r| >= n then Ok((r[..n], r[n..]))
    else if r == [] then Err(EOF)
    else Err(UnexpectedEOF)
  }

  lemma ReadFullAppend(s: seq<byte>, rest: seq<byte>)
    ensures ReadFull(s + rest, |s|) == Ok((s, rest))
  {
  }

  // ---- HopData ----

  function EncodeHopData(hd: HopData): (s: seq<byte>)
    ensures |s| == HopDataSize
  {
    [hd.realm] + (hd.nextAddress + (PutUint64(hd.forwardAmount)
    + (PutUint32(hd.outgoingCltv) + (hd.extraBytes + hd.hmac))))
  }

  function DecodeHopData(r: seq<byte>): Result<(HopData, seq<byte>), Error> {
    var (realm, r1) :- ReadFull(r, 1);
    var (address, r2) :- ReadFull(r1, 8);
    var (amount, r3) :- ReadFull(r2, 8);
    var (cltv, r4) :- ReadFull(r3, 4);
    var (extra, r5) :- ReadFull(r4, 12);
    var (hmac, r6) :- ReadFull(r5, 32);
    Ok((HopData(realm[0], address, GetUint64(amount), GetUint32(cltv), extra, hmac), r6))
  }

  /** Decoding undoes encoding and leaves the rest of the stream alone. */
  lemma DecodeEncodedHopData(hd: HopData, rest: seq<byte>)
    ensures DecodeHopData(EncodeHopData(hd) + rest) == Ok((hd, rest))
  {
    var r5 := hd.hmac + rest;
    var r4 := hd.extraBytes + r5;
    var r3 := PutUint32(hd.outgoingCltv) + r4;
    var r2 := PutUint64(hd.forwardAmount) + r3;
    var r1 := hd.nextAddress + r2;
    assert EncodeHopData(hd) + rest == [hd.realm] + r1;
    ReadFullAppend([hd.realm], r1);
    ReadFullAppend(hd.nextAddress, r2);
    ReadFullAppend(PutUint64(hd.forwardAmount), r3);
    ReadFullAppend(PutUint32(hd.outgoingCltv), r4);
    ReadFullAppend(hd.extraBytes, r5);
    ReadFullAppend(hd.hmac, rest);
  }

  /** A stream decodes exactly when 65 bytes are there, and then it is the
      encoding of what was decoded: every 65-byte string is one HopData. One that
      is too short counts as ended only if it stops between two fields. */
  lemma EncodeDecodedHopData(r: seq<byte>)
    ensures DecodeHopData(r).Ok? <==> |r| >= HopDataSize
    ensures DecodeHopData(r).Ok? ==>
              r == EncodeHopData(DecodeHopData(r).value.0) + DecodeHopData(r).value.1
    ensures DecodeHopData(r).Err? ==>
              DecodeHopData(r).error == if |r| in {0, 1, 9, 17, 21, 33} then EOF else UnexpectedEOF
  {
    if |r| >= HopDataSize {
      LongStreamDecodes(r);
    }
  }

  lemma LongStreamDecodes(r: seq<byte>)
    requires |r| >= HopDataSize
    ensures DecodeHopData(r).Ok?
    ensures r == EncodeHopData(DecodeHopData(r).value.0) + DecodeHopData(r).value.1
  {
    PutGetUint64(r[9..17]);
    PutGetUint32(r[17..21]);
    var r1, r2, r3, r4, r5 := r[1..], r[9..], r[17..], r[21..], r[33..];
    assert r1[8..] == r2 && r2[8..] == r3 && r3[4..] == r4 && r4[12..] == r5;
    assert r2[..8] == r[9..17] && r3[..4] == r[17..21];
    assert r == [r[0]] + (r1[..8] + (r2[..8] + (r3[..4] + (r4[..12] + r5[..32])))) + r5[32..];
  }

  /** Where the fields are and in which order their bytes come. */
  lemma HopDataLayout(hd: HopData)
    ensures var s := EncodeHopData(hd);
            && |s| == 65
            && s[0] == hd.realm && s[1..9] == hd.nextAddress && s[21..33] == hd.extraBytes && s[33..65] == hd.hmac
            && hd.forwardAmount
               == (s[9] as uint64 << 56) | (s[10] as uint64 << 48) | (s[11] as uint64 << 40) | (s[12] as uint64 << 32)
                  | (s[13] as uint64 << 24) | (s[14] as uint64 << 16) | (s[15] as uint64 << 8) | s[16] as uint64
            && hd.outgoingCltv
               == (s[17] as uint32 << 24) | (s[18] as uint32 << 16) | (s[19] as uint32 << 8) | s[20] as uint32
  {
    var s := EncodeHopData(hd);
    assert s[9..17] == PutUint64(hd.forwardAmount);
    assert s[17..21] == PutUint32(hd.outgoingCltv);
    assert GetUint64(s[9..17]) == hd.forwardAmount && GetUint32(s[17..21]) == hd.outgoingCltv;
  }

  // ---- OnionPacket ----

  function EncodePacket(S: Suite, p: OnionPacket): (s: seq<byte>) {
    [p.version] + (S.compress(p.ephemeralKey) + (p.routingInfo + p.headerMAC))
  }

  function DecodePacket(S: Suite, r: seq<byte>): Result<(OnionPacket, seq<byte>), Error> {
    var (version, r1) :- ReadFull(r, 1);
    if version[0] != BaseVersion then Err(InvalidOnionVersion)
    else
      var (ephemeral, r2) :- ReadFull(r1, 33);
      var key := S.parse(ephemeral);
      if key.None? then Err(InvalidOnionKey)
      else
        var (routingInfo, r3) :- ReadFull(r2, RoutingInfoSize);
        var (mac, r4) :- ReadFull(r3, 32);
        Ok((OnionPacket(version[0], key.value, routingInfo, mac), r4))
  }

  lemma PacketLayout(S: Suite, p: OnionPacket)
    ensures var s := EncodePacket(S, p);
            && |s| == 1366 && s[0] == p.version && s[1..34] == S.compress(p.ephemeralKey)
            && s[34..1334] == p.routingInfo && s[1334..1366] == p.headerMAC
  {
  }

  /** What becomes of any stream: the version is checked before anything else is
      read, the key before the rest, and a stream that ends early is ended or cut
      off according to where. */
  lemma DecodePacketExactly(S: Suite, r: seq<byte>)
    ensures DecodePacket(S, r)
            == if |r| == 0 then Err(EOF)
               else if r[0] != 0 then Err(InvalidOnionVersion)
               else if |r| < 34 then Err(if |r| == 1 then EOF else UnexpectedEOF)
               else if S.parse(r[1..34]).None? then Err(InvalidOnionKey)
               else if |r| < 1334 then Err(if |r| == 34 then EOF else UnexpectedEOF)
               else if |r| < 1366 then Err(if |r| == 1334 then EOF else UnexpectedEOF)
               else Ok((OnionPacket(0, S.parse(r[1..34]).value, r[34..1334], r[1334..1366]), r[1366..]))
  {
    if |r| >= 34 {
      assert r[1..][..33] == r[1..34] && r[1..][33..] == r[34..];
    }
    if |r| >= 1334 {
      assert r[34..][..1300] == r[34..1334] && r[34..][1300..] == r[1334..];
    }
    if |r| >= 1366 {
      assert r[1334..][..32] == r[1334..1366] && r[1334..][32..] == r[1366..];
    }
  }

  /** A packet survives the wire exactly when its version is the supported one
      and its key is one that parsing recovers. */
  lemma DecodeEncodedPacket(S: Suite, p: OnionPacket, rest: seq<byte>)
    ensures DecodePacket(S, EncodePacket(S, p) + rest) == Ok((p, rest))
            <==> p.version == BaseVersion && S.parse(S.compress(p.ephemeralKey)) == Some(p.ephemeralKey)
    ensures p.version != BaseVersion ==>
              DecodePacket(S, EncodePacket(S, p) + rest) == Err(InvalidOnionVersion)
  {
    var key := S.compress(p.ephemeralKey);
    var r3 := p.headerMAC + rest;
    var r2 := p.routingInfo + r3;
    var r1 := key + r2;
    assert EncodePacket(S, p) + rest == [p.version] + r1;
    ReadFullAppend([p.version], r1);
    ReadFullAppend(key, r2);
    ReadFullAppend(p.routingInfo, r3);
    ReadFullAppend(p.headerMAC, rest);
  }
}
