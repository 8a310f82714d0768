/** Returned errors: layered encryption towards the sender, and DecryptError. */
module ErrorOnion {
  import opened Bytes
  import opened Primitives
  import opened Packet
  import opened Secrets

  const Sha256Size: nat := 32
  const OnionErrorLength: nat := 2 + 2 + 256 + Sha256Size

  /** The secret the decrypter uses once it has nothing left to try. */
  function DummySecret(): Hash256 {
    seq(32, _ => 1)
  }

  type ErrorBlob = s: seq<byte> | |s| == OnionErrorLength witness Zeros(OnionErrorLength)

  /** onionEncrypt */
  function OnionEncrypt(S: Suite, secret: Hash256, data: seq<byte>): (r: seq<byte>)
    ensures |r| == |data|
  {
    Xor(data, S.CipherStream(S.GenerateKey(Ammag, secret), |data|))
  }

  function ErrorMac(S: Suite, secret: Hash256, data: seq<byte>): Hash256 {
    S.CalcMac(S.GenerateKey(Um, secret), data)
  }

  /** OnionErrorEncrypter.EncryptError */
  function EncryptError(S: Suite, secret: Hash256, initial: bool, data: seq<byte>): seq<byte> {
    OnionEncrypt(S, secret, if initial then ErrorMac(S, secret, data) + data else data)
  }

  /** A second pass with the same secret decrypts. */
  lemma OnionEncryptInvolutive(S: Suite, secret: Hash256, data: seq<byte>)
    ensures OnionEncrypt(S, secret, OnionEncrypt(S, secret, data)) == data
  {
  }

  /** The blob after the layers of the first `n` secrets have been stripped. */
  function Stripped(S: Suite, secrets: seq<Hash256>, blob: ErrorBlob, n: nat): ErrorBlob
    requires n <= |secrets|
  {
    if n == 0 then blob else OnionEncrypt(S, secrets[n - 1], Stripped(S, secrets, blob, n - 1))
  }

  /** The MAC verifies under secret `i` once that layer is stripped. */
  predicate MatchesAt(S: Suite, secrets: seq<Hash256>, blob: ErrorBlob, i: nat)
    requires i < |secrets|
  {
    var clear := Stripped(S, secrets, blob, i + 1);
    ErrorMac(S, secrets[i], clear[Sha256Size..]) == clear[..Sha256Size]
  }

  /** The message a match at `i` reveals. */
  function MessageAt(S: Suite, secrets: seq<Hash256>, blob: ErrorBlob, i: nat): seq<byte>
    requires i < |secrets|
  {
    Stripped(S, secrets, blob, i + 1)[Sha256Size..]
  }

  /** `i` is the first hop whose MAC verifies: a plain search that stops. */
  predicate FirstMatch(S: Suite, secrets: seq<Hash256>, blob: ErrorBlob, i: nat)
    requires i < |secrets|
  {
    MatchesAt(S, secrets, blob, i) && NoMatchBefore(S, secrets, blob, i)
  }

  predicate NoMatchBefore(S: Suite, secrets: seq<Hash256>, blob: ErrorBlob, i: nat)
    requires i <= |secrets|
  {
    forall j :: 0 <= j < i ==> !MatchesAt(S, secrets, blob, j)
  }

  lemma NoMatchExtends(S: Suite, secrets: seq<Hash256>, blob: ErrorBlob, i: nat)
    requires i < |secrets| && NoMatchBefore(S, secrets, blob, i) && !MatchesAt(S, secrets, blob, i)
    ensures NoMatchBefore(S, secrets, blob, i + 1)
  {
  }

  predicate NoMatch(S: Suite, secrets: seq<Hash256>, blob: ErrorBlob) {
    NoMatchBefore(S, secrets, blob, |secrets|)
  }

  /** The plain search: try the hops in order and stop at the first match. */
  function PlainSearch(S: Suite, secrets: seq<Hash256>, blob: ErrorBlob, i: nat := 0): (r: Option<nat>)
    requires i <= |secrets|
    requires NoMatchBefore(S, secrets, blob, i)
    ensures r.Some? ==> r.value < |secrets| && FirstMatch(S, secrets, blob, r.value)
    ensures r.None? ==> NoMatch(S, secrets, blob)
    decreases |secrets| - i
  {
    if i == |secrets| then None
    else if MatchesAt(S, secrets, blob, i) then Some(i)
    else PlainSearch(S, secrets, blob, i + 1)
  }

  /** The secrets of the hops the search gets to. */
  function Tried(secrets: seq<Hash256>): (r: seq<Hash256>)
    ensures |r| <= NumMaxHops && r <= secrets && |r| <= |secrets|
  {
    if |secrets| <= NumMaxHops then secrets else secrets[..NumMaxHops]
  }

  /** The outcomes of DecryptError; `IndexPanic` is the run-time panic of reading
      the path past its end. */
  datatype Decryption =
    | Decrypted(sender: Point, msg: seq<byte>)
    | InvalidLength
    | Unretrievable
    | IndexPanic

  /** The secrets of the fixed number of iterations: the path's, then dummies. */
  function Padded(secrets: seq<Hash256>): (r: seq<Hash256>)
    ensures |r| == NumMaxHops && Tried(secrets) <= r
    ensures forall i :: |secrets| <= i < NumMaxHops ==> r[i] == DummySecret()
  {
    var dummies: seq<Hash256> := seq(NumMaxHops - |Tried(secrets)|, _ => DummySecret());
    Tried(secrets) + dummies
  }

  /** Strip one layer and check the MAC that is then in front: with the i-th
      secret on the blob stripped i times, this tells whether hop i matches. */
  method StripLayer(S: Suite, secret: Hash256, blob: ErrorBlob,
                    ghost secrets: seq<Hash256>, ghost received: ErrorBlob, ghost i: nat)
    returns (clear: ErrorBlob, data: seq<byte>, matches: bool)
    requires i < |secrets|
    ensures secret == secrets[i] && blob == Stripped(S, secrets, received, i) ==>
              && clear == Stripped(S, secrets, received, i + 1)
              && data == MessageAt(S, secrets, received, i)
              && matches == MatchesAt(S, secrets, received, i)
  {
    clear := OnionEncrypt(S, secret, blob);
    var expectedMac := clear[..Sha256Size];
    data := clear[Sha256Size..];
    var realMac := ErrorMac(S, secret, data);
    matches := realMac == expectedMac;
  }

  /** The loop of DecryptError: a fixed number of iterations that switch to the
      dummy secret after a match and past the end of the path. An answer beyond
      the path is the index the source would panic on. */
  method SearchSender(S: Suite, secrets: seq<Hash256>, encryptedData: ErrorBlob, ghost padded: seq<Hash256>)
    returns (sender: Option<nat>, msg: seq<byte>)
    requires |padded| == NumMaxHops
    requires forall i :: 0 <= i < NumMaxHops ==> padded[i] == if i < |secrets| then secrets[i] else DummySecret()
    ensures sender.None? ==> NoMatch(S, padded, encryptedData)
    ensures sender.Some? ==>
              && sender.value < NumMaxHops
              && FirstMatch(S, padded, encryptedData, sender.value)
              && msg == MessageAt(S, padded, encryptedData, sender.value)
  {
    sender, msg := None, [];
    var blob: ErrorBlob := encryptedData;
    var i := 0;
    while i < NumMaxHops
      invariant 0 <= i <= NumMaxHops
      invariant sender.None? ==> blob == Stripped(S, padded, encryptedData, i)
      invariant sender.None? ==> NoMatchBefore(S, padded, encryptedData, i)
      invariant sender.Some? ==>
                  && sender.value < i
                  && FirstMatch(S, padded, encryptedData, sender.value)
                  && msg == MessageAt(S, padded, encryptedData, sender.value)
    {
      var sharedSecret := if sender.Some? || i > |secrets| - 1 then DummySecret() else secrets[i];
      assert sender.None? ==> sharedSecret == padded[i];
      var data, matches;
      blob, data, matches := StripLayer(S, sharedSecret, blob, padded, encryptedData, i);
      if matches && sender.None? {
        sender, msg := Some(i), data;
        if i >= |secrets| {
          return;
        }
      } else if sender.None? {
        NoMatchExtends(S, padded, encryptedData, i);
      }
      i := i + 1;
    }
  }

  /** What DecryptError should answer, by a search that stops at the first
      verifying hop; a MAC that verifies past the path's end is all that the fixed
      loop adds. */
  function Outcome(S: Suite, path: seq<Point>, sessionKey: nat, encryptedData: seq<byte>): (r: Decryption)
    requires S.order > 0
    ensures r == InvalidLength <==> |encryptedData| != OnionErrorLength
  {
    if |encryptedData| != OnionErrorLength then InvalidLength
    else
      var tried := Tried(AllSecrets(S, path, sessionKey));
      match PlainSearch(S, tried, encryptedData)
      case Some(i) => Decrypted(path[i], MessageAt(S, tried, encryptedData, i))
      case None => if NoMatch(S, Padded(AllSecrets(S, path, sessionKey)), encryptedData)
                   then Unretrievable else IndexPanic
  }

  /** DecryptError, against a search that stops at the first verifying hop. Both
      the dummy iterations after a match and those past the path's end leave the
      answer alone; only a MAC that verifies under the dummy secret past the end,
      with no match on the path, makes the source read out of bounds. */
  method DecryptError(S: Suite, path: seq<Point>, sessionKey: nat, encryptedData: seq<byte>)
    returns (r: Decryption)
    requires S.order > 0
    requires |path| > 0
    ensures r == Outcome(S, path, sessionKey, encryptedData)
  {
    if |encryptedData| != OnionErrorLength {
      return InvalidLength;
    }
    var secrets := GenerateSharedSecrets(S, path, sessionKey);
    assert secrets == AllSecrets(S, path, sessionKey);
    var sender, msg := SearchSender(S, secrets, encryptedData, Padded(secrets));
    PlainFromPadded(S, secrets, encryptedData, sender);
    if sender.None? {
      return Unretrievable;
    }
    if sender.value >= |path| {
      return IndexPanic;
    }
    return Decrypted(path[sender.value], msg);
  }

  lemma {:induction false} StrippedSame(S: Suite, a: seq<Hash256>, b: seq<Hash256>, blob: ErrorBlob, n: nat)
    requires n <= |a| && n <= |b| && a[..n] == b[..n]
    ensures Stripped(S, a, blob, n) == Stripped(S, b, blob, n)
  {
    if n > 0 {
      assert a[..n - 1] == a[..n][..n - 1] && b[..n - 1] == b[..n][..n - 1];
      assert a[n - 1] == a[..n][n - 1] && b[n - 1] == b[..n][n - 1];
      StrippedSame(S, a, b, blob, n - 1);
    }
  }

  /** On the path itself the padded search and the plain one see the same. */
  lemma PaddedSearch(S: Suite, secrets: seq<Hash256>, blob: ErrorBlob)
    ensures forall j :: 0 <= j < |Tried(secrets)| ==>
              && MatchesAt(S, Padded(secrets), blob, j) == MatchesAt(S, Tried(secrets), blob, j)
              && MessageAt(S, Padded(secrets), blob, j) == MessageAt(S, Tried(secrets), blob, j)
  {
    forall j | 0 <= j < |Tried(secrets)|
      ensures MatchesAt(S, Padded(secrets), blob, j) == MatchesAt(S, Tried(secrets), blob, j)
      ensures MessageAt(S, Padded(secrets), blob, j) == MessageAt(S, Tried(secrets), blob, j)
    {
      StrippedSame(S, Padded(secrets), Tried(secrets), blob, j + 1);
    }
  }

  lemma {:induction false} FirstMatchUnique(S: Suite, secrets: seq<Hash256>, blob: ErrorBlob, i: nat)
    requires i < |secrets| && FirstMatch(S, secrets, blob, i)
    ensures PlainSearch(S, secrets, blob) == Some(i)
  {
  }

  /** The plain search finds what the padded one finds on the path, if anything. */
  lemma {:induction false} PlainFromPadded(S: Suite, secrets: seq<Hash256>, blob: ErrorBlob, sender: Option<nat>)
    requires sender.None? ==> NoMatch(S, Padded(secrets), blob)
    requires sender.Some? ==> sender.value < NumMaxHops && FirstMatch(S, Padded(secrets), blob, sender.value)
    ensures PlainSearch(S, Tried(secrets), blob)
            == if sender.Some? && sender.value < |secrets| then sender else None
    ensures sender.Some? && sender.value < |secrets| ==>
              MessageAt(S, Padded(secrets), blob, sender.value) == MessageAt(S, Tried(secrets), blob, sender.value)
    ensures sender.Some? ==> !NoMatch(S, Padded(secrets), blob)
  {
    PaddedSearch(S, secrets, blob);
    if sender.Some? && sender.value < |secrets| {
      FirstMatchUnique(S, Tried(secrets), blob, sender.value);
    } else {
      assert NoMatch(S, Tried(secrets), blob);
    }
  }

  // ---- What encryption and decryption do, over the primitives ----

  /** An encrypter XORs with the stream of the "ammag" key; the first one puts the
      HMAC of the message, under the "um" key, in front. */
  lemma EncryptOverPrimitives(S: Suite, secret: Hash256, initial: bool, data: seq<byte>)
    ensures var plain := (if initial then S.hmac(S.hmac([0x75, 0x6d], secret), data) else []) + data;
            var r := EncryptError(S, secret, initial, data);
            && |r| == |plain|
            && forall k :: 0 <= k < |r| ==>
                 r[k] == plain[k] ^ S.keystream(S.hmac([0x61, 0x6d, 0x6d, 0x61, 0x67], secret), k)
  {
    var mac := S.hmac(S.hmac([0x75, 0x6d], secret), data);
    if initial {
      assert EncryptError(S, secret, initial, data) == OnionEncrypt(S, secret, mac + data);
    } else {
      assert [] + data == data;
    }
  }

  /** Byte k of the streams of the first `n` secrets, XORed together. */
  function Pad(S: Suite, secrets: seq<Hash256>, n: nat, k: nat): byte
    requires n <= |secrets|
  {
    if n == 0 then 0
    else Pad(S, secrets, n - 1, k) ^ S.keystream(S.hmac([0x61, 0x6d, 0x6d, 0x61, 0x67], secrets[n - 1]), k)
  }

  lemma {:induction false} StrippedBytes(S: Suite, secrets: seq<Hash256>, blob: ErrorBlob, n: nat, k: nat)
    requires n <= |secrets| && k < 292
    ensures Stripped(S, secrets, blob, n)[k] == blob[k] ^ Pad(S, secrets, n, k)
  {
    if n > 0 {
      StrippedBytes(S, secrets, blob, n - 1, k);
    }
  }

  /** The blob without the layers of hops 0 to i. */
  function Clear(S: Suite, secrets: seq<Hash256>, blob: ErrorBlob, i: nat): (clear: seq<byte>)
    requires i < |secrets|
    ensures |clear| == 292
    ensures forall k :: 0 <= k < 292 ==> clear[k] == blob[k] ^ Pad(S, secrets, i + 1, k)
  {
    seq(292, k requires 0 <= k < 292 => blob[k] ^ Pad(S, secrets, i + 1, k))
  }

  /** Hop i matches exactly when the first 32 bytes that are then in the clear are
      the HMAC, under its "um" key, of all the others, which are its message. */
  lemma MatchOverPrimitives(S: Suite, secrets: seq<Hash256>, blob: ErrorBlob, i: nat)
    requires i < |secrets|
    ensures var clear := Clear(S, secrets, blob, i);
            && (MatchesAt(S, secrets, blob, i)
                <==> clear[..32] == S.hmac(S.hmac([0x75, 0x6d], secrets[i]), clear[32..]))
            && MessageAt(S, secrets, blob, i) == clear[32..]
  {
    var clear, stripped := Clear(S, secrets, blob, i), Stripped(S, secrets, blob, i + 1);
    forall k | 0 <= k < 292 ensures clear[k] == stripped[k] {
      StrippedBytes(S, secrets, blob, i + 1, k);
    }
    assert clear == stripped;
  }

  /** Tampering shows: a blob that leaves hop i the same MAC as one that matches there
      matches exactly if the HMAC does not tell their messages apart. */
  lemma ErrorTamperingShows(S: Suite, secrets: seq<Hash256>, a: ErrorBlob, b: ErrorBlob, i: nat)
    requires i < |secrets| && MatchesAt(S, secrets, a, i)
    requires Clear(S, secrets, a, i)[..32] == Clear(S, secrets, b, i)[..32]
    ensures var key := S.hmac([0x75, 0x6d], secrets[i]);
            MatchesAt(S, secrets, b, i)
            <==> S.hmac(key, MessageAt(S, secrets, b, i)) == S.hmac(key, MessageAt(S, secrets, a, i))
  {
    MatchOverPrimitives(S, secrets, a, i);
    MatchOverPrimitives(S, secrets, b, i);
  }

  /** The secrets the decrypter could get to: the path's, then copies of 32 ones. */
  function AllTried(S: Suite, path: seq<Point>, x: nat): (r: seq<Hash256>)
    requires S.order > 0
    ensures |r| == |path| + 20
    ensures forall i :: 0 <= i < |path| ==> r[i] == Secret(S, path, x, i)
    ensures forall i, k :: |path| <= i < |r| && 0 <= k < 32 ==> r[i][k] == 1
  {
    var ones: Hash256 := seq(32, _ => 1);
    AllSecrets(S, path, x) + seq(20, _ => ones)
  }

  /** DecryptError, whatever it is given. A blob that is not 292 bytes long is
      refused. With no match among the first 20 secrets there is no answer; the first
      match on the path gives the sender and the message; a first match past its end
      is a panic. */
  lemma OutcomeExactly(S: Suite, path: seq<Point>, x: nat, data: seq<byte>)
    requires S.order > 0
    ensures |data| != 292 <==> Outcome(S, path, x, data) == InvalidLength
    ensures |data| == 292 ==>
              var all := AllTried(S, path, x);
              && (Outcome(S, path, x, data) == Unretrievable <==> NoMatchBefore(S, all, data, 20))
              && forall i :: 0 <= i < 20 && FirstMatch(S, all, data, i) ==>
                   Outcome(S, path, x, data)
                   == if i < |path| then Decrypted(path[i], MessageAt(S, all, data, i)) else IndexPanic
  {
    if |data| == 292 {
      var all, secrets := AllTried(S, path, x), AllSecrets(S, path, x);
      SameAsPadded(S, path, x, data);
      PaddedSearch(S, secrets, data);
      assert NoMatchBefore(S, all, data, 20) <==> NoMatch(S, Padded(secrets), data);
      forall i | 0 <= i < 20 && FirstMatch(S, all, data, i)
        ensures Outcome(S, path, x, data)
                == if i < |path| then Decrypted(path[i], MessageAt(S, all, data, i)) else IndexPanic
      {
        assert FirstMatch(S, Padded(secrets), data, i);
        PlainFromPadded(S, secrets, data, Some(i));
      }
    }
  }

  lemma SameAsPadded(S: Suite, path: seq<Point>, x: nat, blob: ErrorBlob)
    requires S.order > 0
    ensures forall i :: 0 <= i < 20 ==>
              && MatchesAt(S, AllTried(S, path, x), blob, i) == MatchesAt(S, Padded(AllSecrets(S, path, x)), blob, i)
              && MessageAt(S, AllTried(S, path, x), blob, i) == MessageAt(S, Padded(AllSecrets(S, path, x)), blob, i)
  {
    var all, padded := AllTried(S, path, x), Padded(AllSecrets(S, path, x));
    forall i | 0 <= i < 20
      ensures MatchesAt(S, all, blob, i) == MatchesAt(S, padded, blob, i)
      ensures MessageAt(S, all, blob, i) == MessageAt(S, padded, blob, i)
    {
      assert all[..i + 1] == padded[..i + 1];
      assert all[i] == all[..i + 1][i] && padded[i] == padded[..i + 1][i];
      StrippedSame(S, all, padded, blob, i + 1);
    }
  }

  // ---- Attribution ----

  type Failure = s: seq<byte> | |s| == OnionErrorLength - Sha256Size witness Zeros(OnionErrorLength - Sha256Size)

  /** What hop j sends back when hop k fails: hop k encrypts the initial failure
      and each hop before it adds a layer. */
  function Returned(S: Suite, secrets: seq<Hash256>, k: nat, data: Failure, j: nat): ErrorBlob
    requires j <= k < |secrets|
    decreases k - j
  {
    if j == k then EncryptError(S, secrets[k], true, data)
    else EncryptError(S, secrets[j], false, Returned(S, secrets, k, data, j + 1))
  }

  /** Stripping the first j layers gives what hop j sent. */
  lemma {:induction false} StripReturned(S: Suite, secrets: seq<Hash256>, k: nat, data: Failure, j: nat)
    requires j <= k < |secrets|
    ensures Stripped(S, secrets, Returned(S, secrets, k, data, 0), j) == Returned(S, secrets, k, data, j)
  {
    if j > 0 {
      StripReturned(S, secrets, k, data, j - 1);
      OnionEncryptInvolutive(S, secrets[j - 1], Returned(S, secrets, k, data, j));
    }
  }

  lemma {:induction false} FailingHopMatches(S: Suite, secrets: seq<Hash256>, k: nat, data: Failure)
    requires k < |secrets|
    ensures MatchesAt(S, secrets, Returned(S, secrets, k, data, 0), k)
    ensures MessageAt(S, secrets, Returned(S, secrets, k, data, 0), k) == data
  {
    StripReturned(S, secrets, k, data, k);
    var clear := ErrorMac(S, secrets[k], data) + data;
    OnionEncryptInvolutive(S, secrets[k], clear);
    assert Stripped(S, secrets, Returned(S, secrets, k, data, 0), k + 1) == clear;
    assert clear[..Sha256Size] == ErrorMac(S, secrets[k], data) && clear[Sha256Size..] == data;
  }

  /** The secrets the hops' encrypters hold: each derived from the hop's private
      key and the ephemeral key it received. */
  function HopSecrets(S: Suite, privs: seq<nat>, first: Point): (r: seq<Hash256>)
    ensures |r| == |privs|
    ensures forall j :: 0 <= j < |privs| ==> r[j] == S.SharedSecret(ReceivedKey(S, privs, first, j), privs[j])
  {
    seq(|privs|, j requires 0 <= j < |privs| => S.SharedSecret(ReceivedKey(S, privs, first, j), privs[j]))
  }

  lemma HopSecretsAgree(S: Suite, privs: seq<nat>, x: nat)
    requires S.GroupLaws()
    ensures HopSecrets(S, privs, S.PublicKey(x)) == AllSecrets(S, PublicKeys(S, privs), x)
  {
    forall j | 0 <= j < |privs|
      ensures HopSecrets(S, privs, S.PublicKey(x))[j] == AllSecrets(S, PublicKeys(S, privs), x)[j]
    {
      KeyAgreement(S, privs, x, j);
    }
  }

  /** When hop k of the route fails, the sender's search always finds a sender no
      later than k, and finds hop k itself with the original bytes if and only if
      no earlier layer's MAC happens to verify. */
  lemma {:induction false} ErrorAttribution(S: Suite, privs: seq<nat>, x: nat, k: nat, data: Failure)
    requires S.GroupLaws()
    requires k < |privs| <= NumMaxHops
    ensures var blob := Returned(S, HopSecrets(S, privs, S.PublicKey(x)), k, data, 0);
            var tried := Tried(AllSecrets(S, PublicKeys(S, privs), x));
            var found := PlainSearch(S, tried, blob);
            && found.Some? && found.value <= k
            && (found.value == k <==> forall j :: 0 <= j < k ==> !MatchesAt(S, tried, blob, j))
            && Outcome(S, PublicKeys(S, privs), x, blob).Decrypted?
            && (found.value == k ==>
                  Outcome(S, PublicKeys(S, privs), x, blob) == Decrypted(S.PublicKey(privs[k]), data))
  {
    HopSecretsAgree(S, privs, x);
    var secrets := AllSecrets(S, PublicKeys(S, privs), x);
    FailingHopMatches(S, secrets, k, data);
  }

  // ---- Failures that no hop sent ----

  /** DecryptError reads out of bounds exactly when no hop's layer verifies and a
      dummy layer past the end of the path does; never on a path of full length. */
  lemma PanicsExactly(S: Suite, path: seq<Point>, x: nat, blob: ErrorBlob)
    requires S.order > 0
    ensures var padded := Padded(AllSecrets(S, path, x));
            Outcome(S, path, x, blob) == IndexPanic <==>
              && NoMatch(S, Tried(AllSecrets(S, path, x)), blob)
              && exists i :: |path| <= i < NumMaxHops && MatchesAt(S, padded, blob, i)
    ensures |path| >= NumMaxHops ==> Outcome(S, path, x, blob) != IndexPanic
  {
    PaddedSearch(S, AllSecrets(S, path, x), blob);
  }

  /** Every path shorter than the maximum has such inputs: a failure encrypted with
      the dummy secret and passed back by all the hops is read out of bounds,
      whatever its content, if and only if no hop's own layer happens to verify. */
  lemma {:induction false} DummyFailurePanics(S: Suite, path: seq<Point>, x: nat, data: Failure)
    requires S.order > 0 && |path| < NumMaxHops
    ensures var secrets := AllSecrets(S, path, x);
            var blob := Returned(S, Padded(secrets), |path|, data, 0);
            Outcome(S, path, x, blob) == IndexPanic <==> NoMatch(S, secrets, blob)
  {
    var padded := Padded(AllSecrets(S, path, x));
    FailingHopMatches(S, padded, |path|, data);
    PanicsExactly(S, path, x, Returned(S, padded, |path|, data, 0));
  }

  // ---- An instance ----

  /** A suite whose cipher leaves the text alone and whose MAC is its key. */
  const EchoSuite := ToySuite.(hmac := (key: seq<byte>, msg: seq<byte>) =>
    if |key| == 32 then key else if |msg| == 32 then msg else Zeros(32))

  lemma EchoEncrypt(secret: Hash256, data: seq<byte>)
    ensures OnionEncrypt(EchoSuite, secret, data) == data
  {
  }

  lemma {:induction false} EchoStripped(secrets: seq<Hash256>, blob: ErrorBlob, n: nat)
    requires n <= |secrets|
    ensures Stripped(EchoSuite, secrets, blob, n) == blob
  {
    if n > 0 {
      EchoStripped(secrets, blob, n - 1);
      EchoEncrypt(secrets[n - 1], blob);
    }
  }

  lemma {:induction false} EchoReturned(secrets: seq<Hash256>, k: nat, data: Failure, j: nat)
    requires j <= k < |secrets|
    ensures Returned(EchoSuite, secrets, k, data, j) == secrets[k] + data
    decreases k - j
  {
    if j < k {
      EchoReturned(secrets, k, data, j + 1);
      EchoEncrypt(secrets[j], secrets[k] + data);
    } else {
      EchoEncrypt(secrets[k], secrets[k] + data);
    }
  }

  lemma {:induction false} EchoMatches(secrets: seq<Hash256>, blob: ErrorBlob, j: nat)
    requires j < |secrets|
    ensures MatchesAt(EchoSuite, secrets, blob, j) <==> secrets[j] == blob[..Sha256Size]
  {
    EchoStripped(secrets, blob, j + 1);
  }

  lemma ZerosAreNoDummy()
    ensures Zeros(32) != DummySecret()
  {
    assert Zeros(32)[0] != DummySecret()[0];
  }

  /** With this suite it happens: every path shorter than the maximum, every session
      key and every content make DecryptError read out of bounds. */
  lemma {:induction false} DummyFailureInstance(path: seq<Point>, x: nat, data: Failure)
    requires |path| < NumMaxHops
    ensures var padded := Padded(AllSecrets(EchoSuite, path, x));
            Outcome(EchoSuite, path, x, Returned(EchoSuite, padded, |path|, data, 0)) == IndexPanic
  {
    var secrets := AllSecrets(EchoSuite, path, x);
    var blob := Returned(EchoSuite, Padded(secrets), |path|, data, 0);
    EchoReturned(Padded(secrets), |path|, data, 0);
    ZerosAreNoDummy();
    forall j | 0 <= j < |secrets| ensures !MatchesAt(EchoSuite, secrets, blob, j) {
      EchoMatches(secrets, blob, j);
      assert secrets[j] == Secret(EchoSuite, path, x, j) == Zeros(32);
    }
    DummyFailurePanics(EchoSuite, path, x, data);
  }
}
