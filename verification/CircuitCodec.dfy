/** Circuit: the sender's record of a payment, and its encoding. */
module CircuitCodec {
  import opened Bytes
  import opened Primitives
  import opened Packet

  const PrivKeyBytesLen: nat := 32
  const PubKeyBytesLen: nat := 33

  /** A plain Read of up to `n` bytes into a zeroed buffer: only an empty stream
      is an error, a short one leaves zeroes behind. */
  function Read(r: seq<byte>, n: nat): Result<(seq<byte>, seq<byte>), Error> {
    if n > 0 && r == [] then Err(EOF)
    else
      var k := if n < |r| then n else |r|;
      Ok((r[..k] + Zeros(n - k), r[k..]))
  }

  lemma ReadAppend(s: seq<byte>, rest: seq<byte>)
    ensures Read(s + rest, |s|) == Ok((s, rest))
  {
    assert (s + rest)[..|s|] + Zeros(0) == s && (s + rest)[|s|..] == rest;
  }

  // ---- Private keys ----

  /** The bytes big.Int.Bytes needs for `n`. */
  function ByteLen(n: nat): (len: nat)
    ensures n < Pow256(len)
    ensures len > 0 ==> n >= Pow256(len - 1)
  {
    if n == 0 then 0 else 1 + ByteLen(n / 256)
  }

  /** PrivateKey.Serialize: padded to 32 bytes, and longer if the number is. */
  function Serialize(key: nat): (s: seq<byte>)
    ensures |s| >= PrivKeyBytesLen
  {
    BigEndian(key, if ByteLen(key) < PrivKeyBytesLen then PrivKeyBytesLen else ByteLen(key))
  }

  lemma {:induction false} Pow256Monotone(m: nat, n: nat)
    requires m <= n
    ensures Pow256(m) <= Pow256(n)
    decreases n
  {
    if m < n {
      Pow256Monotone(m, n - 1);
    }
  }

  lemma SerializeDecodes(key: nat)
    ensures FromBigEndian(Serialize(key)) == key
  {
    Pow256Monotone(ByteLen(key), |Serialize(key)|);
    BigEndianDecodes(key, |Serialize(key)|);
  }

  lemma {:induction false} FromBigEndianBound(s: seq<byte>)
    ensures FromBigEndian(s) < Pow256(|s|)
  {
    if s != [] {
      FromBigEndianBound(s[..|s| - 1]);
    }
  }

  /** A key of more than 32 bytes is no number of fewer bytes. */
  lemma {:induction false} TooShort(key: nat, s: seq<byte>)
    requires |Serialize(key)| > PrivKeyBytesLen && |s| < |Serialize(key)|
    ensures FromBigEndian(s) != key
  {
    FromBigEndianBound(s);
    Pow256Monotone(|s|, |Serialize(key)| - 1);
  }

  // ---- Public keys ----

  function EncodeKeys(S: Suite, path: seq<Point>): seq<byte> {
    if path == [] then [] else S.compress(path[0]) + EncodeKeys(S, path[1..])
  }

  /** Up to `n` keys read from a stream: the keys, the unread part and the error
      that cut it short. */
  function DecodeKeys(S: Suite, r: seq<byte>, n: nat): (d: (seq<Point>, seq<byte>, Option<Error>))
    ensures |d.0| <= n && (d.2.None? ==> |d.0| == n)
    decreases n
  {
    if n == 0 then ([], r, None)
    else
      var data := Read(r, PubKeyBytesLen);
      if data.Err? then ([], r, Some(data.error))
      else
        var key := S.parse(data.value.0);
        if key.None? then ([], data.value.1, Some(InvalidPubKey))
        else
          var (keys, rest, err) := DecodeKeys(S, data.value.1, n - 1);
          ([key.value] + keys, rest, err)
  }

  /** Keys that parsing recovers from their compressed form. */
  predicate AllRecoverable(S: Suite, keys: seq<Point>) {
    forall i :: 0 <= i < |keys| ==> S.parse(S.compress(keys[i])) == Some(keys[i])
  }

  lemma {:induction false} EncodeKeysAppend(S: Suite, path: seq<Point>, key: Point)
    ensures EncodeKeys(S, path + [key]) == EncodeKeys(S, path) + S.compress(key)
  {
    if path == [] {
      assert [key][1..] == [] && [] + [key] == [key];
    } else {
      assert (path + [key])[1..] == path[1..] + [key];
      EncodeKeysAppend(S, path[1..], key);
    }
  }

  lemma {:induction false} DecodeEncodedKeys(S: Suite, path: seq<Point>, rest: seq<byte>)
    ensures DecodeKeys(S, EncodeKeys(S, path) + rest, |path|) == (path, rest, None)
            <==> AllRecoverable(S, path)
  {
    if path == [] {
      assert EncodeKeys(S, path) + rest == rest;
    } else {
      var head, tail := path[0], path[1..];
      assert path == [head] + tail;
      assert EncodeKeys(S, path) + rest == S.compress(head) + (EncodeKeys(S, tail) + rest);
      ReadAppend(S.compress(head), EncodeKeys(S, tail) + rest);
      DecodeEncodedKeys(S, tail, rest);
      assert AllRecoverable(S, path) <==> S.parse(S.compress(head)) == Some(head) && AllRecoverable(S, tail) by {
        assert forall i :: 0 <= i < |tail| ==> tail[i] == path[i + 1];
      }
      var key, keys := S.parse(S.compress(head)), DecodeKeys(S, EncodeKeys(S, tail) + rest, |tail|).0;
      if key.Some? {
        SameList(key.value, keys, head, tail);
      }
    }
  }

  lemma SameList(a: Point, s: seq<Point>, b: Point, t: seq<Point>)
    ensures [a] + s == [b] + t <==> a == b && s == t
  {
    assert ([a] + s)[0] == a && ([b] + t)[0] == b;
    assert ([a] + s)[1..] == s && ([b] + t)[1..] == t;
  }

  // ---- Circuits ----

  /** A circuit's contents; a path that could not be read to its end has nil
      entries. */
  datatype Contents = Contents(sessionKey: nat, path: seq<Option<Point>>)

  /** A circuit after an attempt to decode, with the unread part of the stream. */
  datatype Decoding = Decoding(circuit: Contents, rest: seq<byte>, err: Option<Error>)

  /** A path of `n` entries of which `keys` have been filled in. */
  function Slots(keys: seq<Point>, n: nat): (path: seq<Option<Point>>)
    requires |keys| <= n
    ensures |path| == n
    ensures forall i :: 0 <= i < n ==> path[i] == if i < |keys| then Some(keys[i]) else None
  {
    seq(n, i requires 0 <= i < n => if i < |keys| then Some(keys[i]) else None)
  }

  /** A complete path. */
  function Present(keys: seq<Point>): seq<Option<Point>> {
    Slots(keys, |keys|)
  }

  lemma PresentInjective(a: seq<Point>, b: seq<Point>)
    ensures Present(a) == Present(b) <==> a == b
  {
    if Present(a) == Present(b) {
      assert |a| == |Present(a)| == |b|;
      forall i | 0 <= i < |a| ensures a[i] == b[i] {
        assert Present(a)[i] == Present(b)[i];
      }
    }
  }

  /** One length byte and the key, one length byte and the compressed path; a
      length is taken modulo 256, as uint8 conversion has it. */
  function Encoded(S: Suite, sessionKey: nat, path: seq<Point>): seq<byte> {
    Framed(S, Serialize(sessionKey), path)
  }

  function Framed(S: Suite, key: seq<byte>, path: seq<Point>): seq<byte> {
    [LengthByte(|key|)] + (key + ([LengthByte(|path|)] + EncodeKeys(S, path)))
  }

  function LengthByte(n: nat): (b: byte)
    ensures NatOf(b) <= n
    ensures NatOf(b) == n <==> n <= 255
  {
    ByteOf(n % 256)
  }

  function Decoded(S: Suite, before: Contents, r: seq<byte>): Decoding {
    var keyLength := Read(r, 1);
    if keyLength.Err? then Decoding(before, r, Some(keyLength.error))
    else
      DecodedKey(S, before, NatOf(keyLength.value.0[0]), keyLength.value.1)
  }

  function DecodedKey(S: Suite, before: Contents, n: nat, r: seq<byte>): Decoding {
    var keyData := Read(r, n);
    if keyData.Err? then Decoding(before, r, Some(keyData.error))
    else DecodedPath(S, before.(sessionKey := FromBigEndian(keyData.value.0)), keyData.value.1)
  }

  function DecodedPath(S: Suite, before: Contents, r: seq<byte>): Decoding {
    var pathLength := Read(r, 1);
    if pathLength.Err? then Decoding(before, r, Some(pathLength.error))
    else
      var n := NatOf(pathLength.value.0[0]);
      var (keys, rest, err) := DecodeKeys(S, pathLength.value.1, n);
      Decoding(before.(path := Slots(keys, n)), rest, err)
  }

  // ---- The encoding, byte by byte ----

  lemma {:induction false} KeyAt(S: Suite, path: seq<Point>, i: nat)
    ensures |EncodeKeys(S, path)| == 33 * |path|
    ensures i < |path| ==> EncodeKeys(S, path)[33 * i..33 * i + 33] == S.compress(path[i])
  {
    if path != [] {
      var rest := EncodeKeys(S, path[1..]);
      KeyAt(S, path[1..], if i == 0 then 0 else i - 1);
      if 0 < i < |path| {
        assert EncodeKeys(S, path)[33 * i..33 * i + 33] == rest[33 * (i - 1)..33 * (i - 1) + 33];
      }
    }
  }

  /** Where key and path are: the key in 32 bytes, or as many as it takes, the most
      significant one first; each path entry in 33. */
  lemma EncodedLayout(S: Suite, sessionKey: nat, path: seq<Point>) returns (n: nat)
    ensures n >= 32 && sessionKey < Pow256(n) && (n > 32 ==> Pow256(n - 1) <= sessionKey)
    ensures var s := Encoded(S, sessionKey, path);
            && |s| == 2 + n + 33 * |path|
            && NatOf(s[0]) == n % 256 && FromBigEndian(s[1..1 + n]) == sessionKey
            && NatOf(s[1 + n]) == |path| % 256
            && KeysAt(S, path, s[2 + n..])
  {
    var key := Serialize(sessionKey);
    n := |key|;
    SerializeDecodes(sessionKey);
    SerializedLength(sessionKey);
    FramedLayout(S, key, path);
  }

  /** `s` is the compressed keys, 33 bytes each. */
  ghost predicate KeysAt(S: Suite, path: seq<Point>, s: seq<byte>) {
    |s| == 33 * |path| && forall i :: 0 <= i < |path| ==> s[33 * i..33 * i + 33] == S.compress(path[i])
  }

  lemma SerializedLength(key: nat)
    ensures var n := |Serialize(key)|; n >= 32 && key < Pow256(n) && (n > 32 ==> Pow256(n - 1) <= key)
  {
    Pow256Monotone(ByteLen(key), |Serialize(key)|);
  }

  lemma FramedLayout(S: Suite, key: seq<byte>, path: seq<Point>)
    ensures var s := Framed(S, key, path);
            && |s| == 2 + |key| + 33 * |path|
            && NatOf(s[0]) == |key| % 256 && s[1..1 + |key|] == key
            && NatOf(s[1 + |key|]) == |path| % 256 && KeysAt(S, path, s[2 + |key|..])
  {
    var keys := EncodeKeys(S, path);
    assert Framed(S, key, path)[2 + |key|..] == keys;
    KeyAt(S, path, 0);
    forall i | 0 <= i < |path| ensures keys[33 * i..33 * i + 33] == S.compress(path[i]) {
      KeyAt(S, path, i);
    }
  }

  /** What is left of a stream after `n` bytes. */
  function Drop(r: seq<byte>, n: nat): (left: seq<byte>)
    ensures left == if n < |r| then r[n..] else []
  {
    if n < |r| then r[n..] else []
  }

  lemma DropTwice(r: seq<byte>, m: nat, n: nat)
    ensures Drop(Drop(r, m), n) == Drop(r, m + n)
  {
  }

  /** The next 33 bytes of a stream, with zeroes where it has ended. */
  function Chunk(r: seq<byte>): (s: CompressedKey)
    ensures forall k :: 0 <= k < 33 ==> s[k] == if k < |r| then r[k] else 0
  {
    seq(33, k requires 0 <= k < 33 => if k < |r| then r[k] else 0)
  }

  lemma ReadChunk(r: seq<byte>)
    requires r != []
    ensures Read(r, PubKeyBytesLen) == Ok((Chunk(r), Drop(r, 33)))
  {
    var k := if 33 < |r| then 33 else |r|;
    assert r[..k] + Zeros(33 - k) == Chunk(r) && r[k..] == Drop(r, 33);
  }

  /** Key i of the stream is this one. */
  predicate KeyIs(S: Suite, r: seq<byte>, i: nat, key: Option<Point>) {
    33 * i < |r| && S.parse(Chunk(Drop(r, 33 * i))) == key
  }

  lemma KeyShifts(S: Suite, r: seq<byte>, i: nat, key: Option<Point>)
    ensures KeyIs(S, Drop(r, 33), i, key) == KeyIs(S, r, i + 1, key)
  {
    DropTwice(r, 33, 33 * i);
  }

  /** The keys read are those up to the first that does not parse or lies beyond the
      end of the stream; the error says which, and the rest is left. */
  ghost predicate KeysRead(S: Suite, r: seq<byte>, n: nat, keys: seq<Point>, rest: seq<byte>, err: Option<Error>) {
    var c := |keys|;
    && c <= n
    && (forall i :: 0 <= i < c ==> KeyIs(S, r, i, Some(keys[i])))
    && err == (if c == n then None else if 33 * c < |r| then Some(InvalidPubKey) else Some(EOF))
    && (err == Some(InvalidPubKey) ==> KeyIs(S, r, c, None))
    && rest == Drop(r, if err == Some(InvalidPubKey) then 33 * c + 33 else 33 * c)
  }

  lemma KeysReadStep(S: Suite, r: seq<byte>, n: nat, key: Point, keys: seq<Point>, rest: seq<byte>, err: Option<Error>)
    requires KeyIs(S, r, 0, Some(key))
    requires KeysRead(S, Drop(r, 33), n, keys, rest, err)
    ensures KeysRead(S, r, n + 1, [key] + keys, rest, err)
  {
    var left, all, c := Drop(r, 33), [key] + keys, |keys|;
    forall i | 0 <= i < |all| ensures KeyIs(S, r, i, Some(all[i])) {
      if i > 0 {
        assert KeyIs(S, left, i - 1, Some(keys[i - 1]));
        KeyShifts(S, r, i - 1, Some(keys[i - 1]));
      }
    }
    KeyShifts(S, r, c, None);
    DropTwice(r, 33, 33 * c);
    DropTwice(r, 33, 33 * c + 33);
  }

  lemma DecodeNext(S: Suite, r: seq<byte>, n: nat)
    requires n > 0 && r != []
    ensures DecodeKeys(S, r, n)
            == match S.parse(Chunk(r))
               case None => ([], Drop(r, 33), Some(InvalidPubKey))
               case Some(key) =>
                 var d := DecodeKeys(S, Drop(r, 33), n - 1);
                 ([key] + d.0, d.1, d.2)
  {
    ReadChunk(r);
  }

  /** What is read of a path of `n` keys, whatever the stream. */
  lemma {:induction false} DecodeKeysExactly(S: Suite, r: seq<byte>, n: nat)
    ensures var d := DecodeKeys(S, r, n); KeysRead(S, r, n, d.0, d.1, d.2)
    decreases n
  {
    var key := S.parse(Chunk(r));
    if n == 0 || r == [] || key.None? {
      KeysReadEnd(S, r, n);
    } else {
      var left := Drop(r, 33);
      DecodeKeysExactly(S, left, n - 1);
      var d := DecodeKeys(S, left, n - 1);
      FirstKeyIs(S, r);
      KeysReadStep(S, r, n - 1, key.value, d.0, d.1, d.2);
      DecodeNext(S, r, n);
    }
  }

  lemma FirstKeyIs(S: Suite, r: seq<byte>)
    requires r != []
    ensures KeyIs(S, r, 0, S.parse(Chunk(r)))
  {
    assert Drop(r, 0) == r;
  }

  lemma {:induction false} KeysReadEnd(S: Suite, r: seq<byte>, n: nat)
    requires n == 0 || r == [] || S.parse(Chunk(r)).None?
    ensures var d := DecodeKeys(S, r, n); KeysRead(S, r, n, d.0, d.1, d.2)
  {
    assert Drop(r, 0) == r;
    if n > 0 && r != [] {
      DecodeNext(S, r, n);
      FirstKeyIs(S, r);
    }
  }

  lemma ReadByte(r: seq<byte>)
    requires r != []
    ensures Read(r, 1) == Ok(([r[0]], r[1..]))
  {
    assert r[..1] + Zeros(0) == [r[0]];
  }

  /** Decode, whatever the stream: where the key and the path are read from, and what
      is left in the fields when the stream ends. */
  lemma DecodedExactly(S: Suite, before: Contents, r: seq<byte>)
    ensures var d := Decoded(S, before, r);
            if r == [] then d == Decoding(before, [], Some(EOF)) else KeyDecoding(S, before, NatOf(r[0]), r[1..], d)
  {
    if r != [] {
      ReadByte(r);
      DecodedKeyExactly(S, before, NatOf(r[0]), r[1..]);
    }
  }

  /** `d` comes from the stream `r`: `n` bytes for the key, then the path. */
  ghost predicate KeyDecoding(S: Suite, before: Contents, n: nat, r: seq<byte>, d: Decoding) {
    if n > 0 && r == [] then d == Decoding(before, [], Some(EOF))
    else
      var k := if n < |r| then n else |r|;
      d.circuit.sessionKey == FromBigEndian(r[..k] + Zeros(n - k)) && PathDecoding(S, before.path, r[k..], d)
  }

  lemma DecodedKeyExactly(S: Suite, before: Contents, n: nat, r: seq<byte>)
    ensures KeyDecoding(S, before, n, r, DecodedKey(S, before, n, r))
  {
    var key := Read(r, n);
    if key.Ok? {
      DecodedPathExactly(S, before.(sessionKey := FromBigEndian(key.value.0)), key.value.1);
    }
  }

  /** The rest of `d` comes from the stream `r`: one byte for the length of the path,
      then its keys. */
  ghost predicate PathDecoding(S: Suite, path: seq<Option<Point>>, r: seq<byte>, d: Decoding) {
    if r == [] then d.circuit.path == path && d.rest == [] && d.err == Some(EOF)
    else
      var n := NatOf(r[0]);
      var (keys, left, err) := DecodeKeys(S, r[1..], n);
      && |d.circuit.path| == n && d.rest == left && d.err == err && |keys| <= n
      && forall i :: 0 <= i < n ==> d.circuit.path[i] == if i < |keys| then Some(keys[i]) else None
  }

  lemma DecodedPathExactly(S: Suite, before: Contents, r: seq<byte>)
    ensures var d := DecodedPath(S, before, r);
            d.circuit.sessionKey == before.sessionKey && PathDecoding(S, before.path, r, d)
  {
    if r != [] {
      ReadByte(r);
    }
  }

  class Circuit {
    var sessionKey: nat
    var paymentPath: seq<Option<Point>>

    ghost function View(): Contents
      reads this
    {
      Contents(sessionKey, paymentPath)
    }

    /** The source panics on a nil key, which only a failed Decode leaves behind. */
    method Encode(S: Suite) returns (w: Option<seq<byte>>)
      ensures w.Some? <==> forall i :: 0 <= i < |paymentPath| ==> paymentPath[i].Some?
      ensures forall path :: paymentPath == Present(path) ==> w == Some(Encoded(S, sessionKey, path))
    {
      var key := Serialize(sessionKey);
      var head := [LengthByte(|key|)] + key + [LengthByte(|paymentPath|)];
      ghost var path;
      w, path := EncodePath(S, head);
      assert Framed(S, key, path) == head + EncodeKeys(S, path) || w.None?;
      forall p | paymentPath == Present(p) ensures w == Some(Encoded(S, sessionKey, p)) {
        assert forall i :: 0 <= i < |paymentPath| ==> Present(p)[i].Some?;
        PresentInjective(p, path);
      }
    }

    /** The loop of Encode that writes the path after what has been written. */
    method EncodePath(S: Suite, head: seq<byte>) returns (w: Option<seq<byte>>, ghost path: seq<Point>)
      ensures w.Some? <==> forall i :: 0 <= i < |paymentPath| ==> paymentPath[i].Some?
      ensures w.Some? ==> paymentPath == Present(path) && w == Some(head + EncodeKeys(S, path))
    {
      var out := head;
      path := [];
      assert head + [] == head;
      for i := 0 to |paymentPath|
        invariant |path| == i && forall k :: 0 <= k < i ==> paymentPath[k] == Some(path[k])
        invariant out == head + EncodeKeys(S, path)
      {
        if paymentPath[i].None? {
          return None, path;
        }
        EncodeKeysAppend(S, path, paymentPath[i].value);
        out := out + S.compress(paymentPath[i].value);
        path := path + [paymentPath[i].value];
      }
      w := Some(out);
    }

    method Decode(S: Suite, r: seq<byte>) returns (err: Option<Error>, rest: seq<byte>)
      modifies this
      ensures Decoding(View(), rest, err) == Decoded(S, old(View()), r)
    {
      rest := r;
      var keyLength := Read(rest, 1);
      if keyLength.Err? {
        return Some(keyLength.error), rest;
      }
      rest := keyLength.value.1;
      var keyData := Read(rest, NatOf(keyLength.value.0[0]));
      if keyData.Err? {
        return Some(keyData.error), rest;
      }
      rest := keyData.value.1;
      sessionKey := FromBigEndian(keyData.value.0);
      var pathLength := Read(rest, 1);
      if pathLength.Err? {
        return Some(pathLength.error), rest;
      }
      rest := pathLength.value.1;
      err, rest := DecodePath(S, rest, NatOf(pathLength.value.0[0]));
    }

    /** The loop of Decode that fills in the path. */
    method DecodePath(S: Suite, r: seq<byte>, n: nat) returns (err: Option<Error>, rest: seq<byte>)
      modifies `paymentPath
      ensures var d := DecodeKeys(S, r, n);
              paymentPath == Slots(d.0, n) && rest == d.1 && err == d.2
    {
      rest := r;
      paymentPath := seq(n, _ => None);
      ghost var done: seq<Point> := [];
      assert done + DecodeKeys(S, r, n).0 == DecodeKeys(S, r, n).0;
      for i := 0 to n
        invariant |done| == i && paymentPath == Slots(done, n)
        invariant DecodeKeys(S, r, n) == Prepend(done, DecodeKeys(S, rest, n - i))
      {
        assert done + [] == done;
        var data := Read(rest, PubKeyBytesLen);
        if data.Err? {
          return Some(data.error), rest;
        }
        var key := S.parse(data.value.0);
        if key.None? {
          return Some(InvalidPubKey), data.value.1;
        }
        PrependOne(done, key.value, DecodeKeys(S, data.value.1, n - i - 1));
        rest := data.value.1;
        paymentPath := paymentPath[i := key];
        done := done + [key.value];
      }
      assert done + [] == done;
      return None, rest;
    }
  }

  ghost function Prepend(keys: seq<Point>, r: (seq<Point>, seq<byte>, Option<Error>))
    : (seq<Point>, seq<byte>, Option<Error>)
  {
    (keys + r.0, r.1, r.2)
  }

  lemma PrependOne(keys: seq<Point>, key: Point, r: (seq<Point>, seq<byte>, Option<Error>))
    ensures Prepend(keys + [key], r) == Prepend(keys, Prepend([key], r))
  {
    assert keys + [key] + r.0 == keys + ([key] + r.0);
  }

  // ---- The round trip ----

  /** Decoding the path undoes encoding it exactly when its length fits the length
      byte and all its keys can be recovered. */
  lemma {:induction false} PathRoundTrip(S: Suite, before: Contents, path: seq<Point>, rest: seq<byte>)
    ensures DecodedPath(S, before, [LengthByte(|path|)] + EncodeKeys(S, path) + rest)
            == Decoding(before.(path := Present(path)), rest, None)
            <==> |path| <= 255 && AllRecoverable(S, path)
  {
    var n := LengthByte(|path|);
    var keys := EncodeKeys(S, path) + rest;
    assert [n] + EncodeKeys(S, path) + rest == [n] + keys;
    ReadAppend([n], keys);
    DecodeEncodedKeys(S, path, rest);
    var d := DecodeKeys(S, keys, NatOf(n));
    if d.2.None? {
      PresentInjective(d.0, path);
    }
  }

  /** What is left to decode once a key of any length has been read. */
  lemma {:induction false} KeyRoundTrip(S: Suite, before: Contents, key: seq<byte>, path: seq<Point>, rest: seq<byte>)
    requires |key| <= 255
    ensures Decoded(S, before, Framed(S, key, path) + rest)
            == DecodedPath(S, before.(sessionKey := FromBigEndian(key)),
                           [LengthByte(|path|)] + EncodeKeys(S, path) + rest)
  {
    var r2 := [LengthByte(|path|)] + EncodeKeys(S, path) + rest;
    var r1 := key + r2;
    assert Framed(S, key, path) + rest == [LengthByte(|key|)] + r1;
    ReadAppend([LengthByte(|key|)], r1);
    ReadAppend(key, r2);
  }

  /** A key too long for its length byte is cut short. */
  lemma LongKeyLost(S: Suite, before: Contents, sessionKey: nat, path: seq<Point>, rest: seq<byte>)
    requires |Serialize(sessionKey)| > 255
    ensures var d := Decoded(S, before, Encoded(S, sessionKey, path) + rest);
            d.err.None? ==> d.circuit.sessionKey != sessionKey
  {
    var key := Serialize(sessionKey);
    var m := NatOf(LengthByte(|key|));
    var r1 := key + ([LengthByte(|path|)] + EncodeKeys(S, path)) + rest;
    assert Encoded(S, sessionKey, path) + rest == [LengthByte(|key|)] + r1;
    ReadAppend([LengthByte(|key|)], r1);
    ReadAppend(r1[..m], r1[m..]);
    assert r1 == r1[..m] + r1[m..];
    TooShort(sessionKey, r1[..m]);
  }

  /** Decoding restores the circuit, whatever it held before, and consumes exactly
      what was written, if and only if the path and the key fit their length bytes
      and every key of the path can be recovered. */
  lemma CircuitRoundTrip(S: Suite, before: Contents, sessionKey: nat, path: seq<Point>, rest: seq<byte>)
    ensures Decoded(S, before, Encoded(S, sessionKey, path) + rest)
            == Decoding(Contents(sessionKey, Present(path)), rest, None)
            <==> |path| <= 255 && |Serialize(sessionKey)| <= 255 && AllRecoverable(S, path)
  {
    if |Serialize(sessionKey)| <= 255 {
      SerializeDecodes(sessionKey);
      KeyRoundTrip(S, before, Serialize(sessionKey), path, rest);
      PathRoundTrip(S, before.(sessionKey := sessionKey), path, rest);
      assert before.(sessionKey := sessionKey).(path := Present(path)) == Contents(sessionKey, Present(path));
    } else {
      LongKeyLost(S, before, sessionKey, path, rest);
    }
  }
}
