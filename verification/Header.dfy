/** The sender's side of the onion: buffers, filler and header construction. */
module Header {
  import opened Bytes
  import opened Primitives
  import opened Packet

  // ---- Buffer operations ----

  /** xor: XOR the common prefix of `a` and `b` into `dst`, which may be `a`. */
  method XorInto(dst: array<byte>, a: array<byte>, b: seq<byte>) returns (n: nat)
    requires dst.Length >= if a.Length < |b| then a.Length else |b|
    modifies dst
    ensures n == if a.Length < |b| then a.Length else |b|
    ensures dst[..n] == Xor(old(a[..n]), b[..n])
    ensures dst[n..] == old(dst[n..])
  {
    n := a.Length;
    if |b| < n {
      n := |b|;
    }
    var i := 0;
    while i < n
      invariant 0 <= i <= n
      invariant forall j :: 0 <= j < i ==> dst[j] == old(a[j]) ^ b[j]
      invariant forall j :: i <= j < dst.Length ==> dst[j] == old(dst[j])
      invariant forall j :: i <= j < a.Length ==> a[j] == old(a[j])
    {
      dst[i] := a[i] ^ b[i];
      i := i + 1;
    }
  }

  /** rightShift: drop the last `num` bytes and put zeroes in front. */
  method RightShift(slice: array<byte>, num: nat)
    requires num <= slice.Length
    modifies slice
    ensures slice[..] == Zeros(num) + old(slice[..slice.Length - num])
  {
    var keep := slice.Length - num;
    var i := keep;
    while i > 0
      invariant 0 <= i <= keep
      invariant forall j :: 0 <= j < i ==> slice[j] == old(slice[j])
      invariant forall j :: i <= j < keep ==> slice[num + j] == old(slice[j])
    {
      i := i - 1;
      slice[num + i] := slice[i];
    }
    ghost var shifted := slice[num..];
    assert shifted == old(slice[..keep]);
    i := 0;
    while i < num
      invariant 0 <= i <= num
      invariant forall j :: 0 <= j < i ==> slice[j] == 0
      invariant slice[num..] == shifted
    {
      slice[i] := 0;
      i := i + 1;
    }
    assert slice[..] == slice[..num] + slice[num..];
  }

  /** The built-in copy of `src` into `dst` from position `at` on. */
  method CopyInto(dst: array<byte>, at: nat, src: seq<byte>)
    requires at + |src| <= dst.Length
    modifies dst
    ensures dst[..] == old(dst[..at]) + src + old(dst[at + |src|..])
  {
    forall i | 0 <= i < |src| {
      dst[at + i] := src[i];
    }
  }

  // ---- Filler ----

  /** The stream that obfuscates one layer of the header. */
  function Stream(S: Suite, secret: Hash256): (r: seq<byte>)
    ensures |r| == NumStreamBytes
  {
    S.CipherStream(S.GenerateKey(Rho, secret), NumStreamBytes)
  }

  /** What the first `j` hops append: each adds a hop's worth of zeroes and
      decrypts, so the newest bytes meet the very end of the stream. */
  function Filler(S: Suite, secrets: seq<Hash256>, j: nat): (f: seq<byte>)
    requires j <= |secrets|
    requires j <= NumMaxHops
    ensures |f| == j * HopDataSize
  {
    if j == 0 then []
    else
      Xor(Filler(S, secrets, j - 1) + Zeros(HopDataSize),
          Stream(S, secrets[j - 1])[NumStreamBytes - j * HopDataSize..])
  }

  /** generateHeaderPadding, for the "rho" key and the size of a hop. */
  method GenerateHeaderPadding(S: Suite, numHops: nat, secrets: seq<Hash256>) returns (filler: seq<byte>)
    requires 1 <= numHops <= NumMaxHops
    requires numHops - 1 <= |secrets|
    ensures filler == Filler(S, secrets, numHops - 1)
  {
    var size := (numHops - 1) * HopDataSize;
    var buf := new byte[size](_ => 0);
    var i := 1;
    while i < numHops
      invariant 1 <= i <= numHops
      invariant buf[..] == PaddedFiller(S, secrets, i - 1, size)
    {
      var totalFillerSize := ((NumMaxHops - i) + 1) * HopDataSize;
      var streamBytes := Stream(S, secrets[i - 1]);
      var pad := streamBytes[totalFillerSize..totalFillerSize + i * HopDataSize];
      ghost var before := buf[..];
      XorPrefix(buf, pad);
      FillerGrows(S, secrets, i, before, pad);
      i := i + 1;
    }
    filler := buf[..];
  }

  /** The filler after j steps in a zeroed buffer. */
  ghost function PaddedFiller(S: Suite, secrets: seq<Hash256>, j: nat, size: nat): seq<byte>
    requires j <= |secrets| && j <= NumMaxHops && j * HopDataSize <= size
  {
    Filler(S, secrets, j) + Zeros(size - j * HopDataSize)
  }

  /** XOR a pad into the front of a buffer. */
  method XorPrefix(buf: array<byte>, pad: seq<byte>)
    requires |pad| <= buf.Length
    modifies buf
    ensures buf[..] == Xor(old(buf[..|pad|]), pad) + old(buf[|pad|..])
  {
    var n := XorInto(buf, buf, pad);
    assert pad[..n] == pad;
    assert buf[..] == buf[..n] + buf[n..];
  }

  lemma FillerGrows(S: Suite, secrets: seq<Hash256>, i: nat, buf: seq<byte>, pad: seq<byte>)
    requires 1 <= i <= |secrets| && i <= NumMaxHops && |buf| >= i * HopDataSize
    requires buf == PaddedFiller(S, secrets, i - 1, |buf|)
    requires pad == Stream(S, secrets[i - 1])[NumStreamBytes - i * HopDataSize..]
    ensures Xor(buf[..|pad|], pad) + buf[|pad|..] == PaddedFiller(S, secrets, i, |buf|)
  {
    assert buf[..i * HopDataSize] == Filler(S, secrets, i - 1) + Zeros(HopDataSize);
    assert buf[i * HopDataSize..] == Zeros(|buf| - i * HopDataSize);
  }

  // ---- Header layers ----

  /** One sender step: put a payload in front, drop what falls off, encrypt. */
  function Layer(S: Suite, secret: Hash256, hd: HopData, inner: RoutingInfo): RoutingInfo {
    Xor(EncodeHopData(hd) + inner[..RoutingInfoSize - HopDataSize], Stream(S, secret)[..RoutingInfoSize])
  }

  function HeaderMac(S: Suite, secret: Hash256, header: RoutingInfo, assoc: seq<byte>): Hash256 {
    S.CalcMac(S.GenerateKey(Mu, secret), header + assoc)
  }

  /** A header whose last bytes are overwritten. */
  function WithTail(header: RoutingInfo, tail: seq<byte>): (r: RoutingInfo)
    requires |tail| <= RoutingInfoSize
    ensures r[RoutingInfoSize - |tail|..] == tail
  {
    header[..RoutingInfoSize - |tail|] + tail
  }

  /** Everything a construction run is determined by. */
  datatype Plan = Plan(S: Suite, secrets: seq<Hash256>, data: seq<HopData>, assoc: seq<byte>) {
    predicate Valid() {
      1 <= |data| <= NumMaxHops && |secrets| == |data|
    }

    function Last(): nat
      requires Valid()
    {
      |data| - 1
    }

    /** The routing info addressed to hop j. */
    function HeaderAt(j: nat): RoutingInfo
      requires Valid() && j <= Last()
      decreases |data| - j
    {
      if j == Last() then
        WithTail(Layer(S, secrets[j], data[j].(hmac := Zeros(32)), Zeros(RoutingInfoSize)), Filler(S, secrets, j))
      else
        Layer(S, secrets[j], data[j].(hmac := HeaderMac(S, secrets[j + 1], HeaderAt(j + 1), assoc)), HeaderAt(j + 1))
    }

    /** The MAC that authenticates it. */
    function MacAt(j: nat): Hash256
      requires Valid() && j <= Last()
    {
      HeaderMac(S, secrets[j], HeaderAt(j), assoc)
    }

    /** The payload of hop j: the caller's, with the HMAC of the next header or
        zeroes at the end of the route. */
    function Payload(j: nat): HopData
      requires Valid() && j <= Last()
    {
      data[j].(hmac := if j == Last() then Zeros(32) else MacAt(j + 1))
    }

    function PacketAt(j: nat, key: Point): OnionPacket
      requires Valid() && j <= Last()
    {
      OnionPacket(BaseVersion, key, HeaderAt(j), MacAt(j))
    }
  }

  /** The end of the header for hop j is the filler after j steps. */
  lemma {:induction false} FillerInvariant(p: Plan, j: nat)
    requires p.Valid() && j <= p.Last()
    ensures p.HeaderAt(j)[RoutingInfoSize - j * HopDataSize..] == Filler(p.S, p.secrets, j)
    decreases |p.data| - j
  {
    if j < p.Last() {
      FillerInvariant(p, j + 1);
      LayerKeepsFiller(p.S, p.secrets, p.Payload(j), p.HeaderAt(j + 1), j);
    }
  }

  /** The sender's step turns a header that ends in the next filler into one
      that ends in this one. */
  lemma LayerKeepsFiller(S: Suite, secrets: seq<Hash256>, hd: HopData, next: RoutingInfo, j: nat)
    requires j < |secrets| && j + 1 < NumMaxHops
    requires next[RoutingInfoSize - (j + 1) * HopDataSize..] == Filler(S, secrets, j + 1)
    ensures Layer(S, secrets[j], hd, next)[RoutingInfoSize - j * HopDataSize..] == Filler(S, secrets, j)
  {
    var lo := RoutingInfoSize - j * HopDataSize;
    FillerStep(S, secrets, j);
    assert next[lo - HopDataSize..RoutingInfoSize - HopDataSize]
        == next[lo - HopDataSize..][..j * HopDataSize];
    LayerTail(S, secrets[j], hd, next, lo);
    XorCancels(Filler(S, secrets, j), Stream(S, secrets[j])[lo..RoutingInfoSize]);
  }

  lemma LayerTail(S: Suite, secret: Hash256, hd: HopData, inner: RoutingInfo, lo: nat)
    requires HopDataSize <= lo <= RoutingInfoSize
    ensures Layer(S, secret, hd, inner)[lo..]
            == Xor(inner[lo - HopDataSize..RoutingInfoSize - HopDataSize], Stream(S, secret)[lo..RoutingInfoSize])
  {
    var plain := EncodeHopData(hd) + inner[..RoutingInfoSize - HopDataSize];
    XorSlice(plain, Stream(S, secret)[..RoutingInfoSize], lo, RoutingInfoSize);
    assert plain[lo..RoutingInfoSize] == inner[lo - HopDataSize..RoutingInfoSize - HopDataSize];
    assert Stream(S, secret)[..RoutingInfoSize][lo..RoutingInfoSize] == Stream(S, secret)[lo..RoutingInfoSize];
  }

  /** All but the newest bytes of a filler are the previous filler, encrypted. */
  lemma FillerStep(S: Suite, secrets: seq<Hash256>, j: nat)
    requires j < |secrets| && j < NumMaxHops
    ensures var lo := RoutingInfoSize - j * HopDataSize;
            Filler(S, secrets, j + 1)[..j * HopDataSize]
            == Xor(Filler(S, secrets, j), Stream(S, secrets[j])[lo..RoutingInfoSize])
    ensures Filler(S, secrets, j + 1)[j * HopDataSize..] == Stream(S, secrets[j])[RoutingInfoSize..]
  {
    var prior := Filler(S, secrets, j);
    var pad := Stream(S, secrets[j])[RoutingInfoSize - j * HopDataSize..];
    var all := prior + Zeros(HopDataSize);
    XorSlice(all, pad, 0, |prior|);
    XorSlice(all, pad, |prior|, |all|);
    assert all[..|prior|] == prior && all[|prior|..] == Zeros(HopDataSize);
    assert pad[..|prior|] == Stream(S, secrets[j])[RoutingInfoSize - j * HopDataSize..RoutingInfoSize];
    assert pad[|prior|..] == Stream(S, secrets[j])[RoutingInfoSize..];
    XorZeros(pad[|prior|..]);
  }
}
