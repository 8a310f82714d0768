/** generateSharedSecrets: the sender's running-product key derivation, the
    derivation the hops perform, and their agreement. */
module Secrets {
  import opened Primitives

  /** The blinding factor of a hop with key `pub` when the sender's scalar is `c`. */
  function BlindAt(S: Suite, pub: Point, c: nat): nat {
    S.BlindingFactor(S.PublicKey(c), S.SharedSecret(pub, c))
  }

  /** The running product c_i = x * b_0 * ... * b_{i-1}, reduced at every step. */
  function Scalar(S: Suite, path: seq<Point>, x: nat, i: nat): nat
    requires S.order > 0
    requires i <= |path|
  {
    if i == 0 then x
    else
      var c := Scalar(S, path, x, i - 1);
      (c * BlindAt(S, path[i - 1], c)) % S.order
  }

  /** The sender's ephemeral key a_i for hop i. */
  function EphemeralKey(S: Suite, path: seq<Point>, x: nat, i: nat): Point
    requires S.order > 0
    requires i <= |path|
  {
    S.PublicKey(Scalar(S, path, x, i))
  }

  /** The sender's shared secret s_i with hop i. */
  function Secret(S: Suite, path: seq<Point>, x: nat, i: nat): Hash256
    requires S.order > 0
    requires i < |path|
  {
    S.SharedSecret(path[i], Scalar(S, path, x, i))
  }

  function Blind(S: Suite, path: seq<Point>, x: nat, i: nat): nat
    requires S.order > 0
    requires i < |path|
  {
    BlindAt(S, path[i], Scalar(S, path, x, i))
  }

  function AllSecrets(S: Suite, path: seq<Point>, x: nat): (r: seq<Hash256>)
    requires S.order > 0
    ensures |r| == |path|
    ensures forall i :: 0 <= i < |path| ==> r[i] == Secret(S, path, x, i)
  {
    seq(|path|, i requires 0 <= i < |path| => Secret(S, path, x, i))
  }

  /** generateSharedSecrets. The empty path is excluded as in the source, which
      indexes its first element. */
  method GenerateSharedSecrets(S: Suite, path: seq<Point>, x: nat) returns (secrets: seq<Hash256>)
    requires S.order > 0
    requires |path| > 0
    ensures |secrets| == |path|
    ensures forall i :: 0 <= i < |path| ==> secrets[i] == Secret(S, path, x, i)
  {
    var numHops := |path|;
    var lastEphemeralPubKey := S.PublicKey(x);
    var hopSharedSecrets: seq<Hash256> := [S.SharedSecret(path[0], x)];
    var lastBlindingFactor := S.BlindingFactor(lastEphemeralPubKey, hopSharedSecrets[0]);
    var cachedBlindingFactor := x;
    var i := 1;
    while i <= numHops - 1
      invariant 1 <= i <= numHops
      invariant i < numHops ==> cachedBlindingFactor == Scalar(S, path, x, i - 1)
      invariant i < numHops ==> lastBlindingFactor == Blind(S, path, x, i - 1)
      invariant |hopSharedSecrets| == i
      invariant forall j :: 0 <= j < i ==> hopSharedSecrets[j] == Secret(S, path, x, j)
    {
      cachedBlindingFactor := Aggregate(S, path, x, i, cachedBlindingFactor, lastBlindingFactor);
      lastEphemeralPubKey := S.scalarMult(S.base, cachedBlindingFactor);
      var hopBlindedPubKey := S.scalarMult(path[i], cachedBlindingFactor);
      hopSharedSecrets := hopSharedSecrets + [S.sha256(S.compress(hopBlindedPubKey))];
      if i >= numHops - 1 {
        i := i + 1;
        break;
      }
      lastBlindingFactor := S.BlindingFactor(lastEphemeralPubKey, hopSharedSecrets[i]);
      i := i + 1;
    }
    secrets := hopSharedSecrets;
  }

  /** Fold one blinding factor into the running product. */
  method Aggregate(S: Suite, ghost path: seq<Point>, ghost x: nat, ghost i: nat, cached: nat, factor: nat)
    returns (c: nat)
    requires S.order > 0 && 0 < i <= |path|
    requires cached == Scalar(S, path, x, i - 1) && factor == Blind(S, path, x, i - 1)
    ensures c == Scalar(S, path, x, i)
  {
    c := (cached * factor) % S.order;
  }

  // ---- The running product refines the naive derivation ----

  /** Multiply a point by a list of scalars, one at a time. */
  function ApplyAll(S: Suite, p: Point, factors: seq<nat>): Point {
    if factors == [] then p
    else S.scalarMult(ApplyAll(S, p, factors[..|factors| - 1]), factors[|factors| - 1])
  }

  /** [x, b_0, ..., b_{i-1}], each b_j from the naively derived keys. */
  function NaiveFactors(S: Suite, path: seq<Point>, x: nat, i: nat): (fs: seq<nat>)
    requires i <= |path|
    ensures |fs| == i + 1
  {
    if i == 0 then [x]
    else
      var fs := NaiveFactors(S, path, x, i - 1);
      var ephemeral := ApplyAll(S, S.base, fs);
      var secret := S.sha256(S.compress(ApplyAll(S, path[i - 1], fs)));
      fs + [S.scalar(S.sha256(S.compress(ephemeral) + secret))]
  }

  lemma {:induction false} ApplyAllAppend(S: Suite, p: Point, fs: seq<nat>, b: nat)
    ensures ApplyAll(S, p, fs + [b]) == S.scalarMult(ApplyAll(S, p, fs), b)
  {
    assert (fs + [b])[..|fs|] == fs;
  }

  lemma MultiplyStep(S: Suite, p: Point, c: nat, b: nat)
    requires S.GroupLaws() && S.Element(p)
    ensures S.scalarMult(p, (c * b) % S.order) == S.scalarMult(S.scalarMult(p, c), b)
  {
    ModIdempotent(c * b, S.order);
    assert S.Composes(p, c, b) && S.Reduces(p, (c * b) % S.order, c * b);
  }

  lemma ModIdempotent(n: nat, m: nat)
    requires m > 0
    ensures (n % m) % m == n % m
  {
  }

  /** One multiplication by the reduced running product gives the same point as
      applying the session key and every blinding factor in turn. */
  lemma {:induction false} RunningProductRefinesNaive(S: Suite, path: seq<Point>, x: nat, i: nat, p: Point)
    requires S.GroupLaws() && S.Element(p)
    requires i <= |path| && forall y :: y in path ==> S.Element(y)
    ensures S.scalarMult(p, Scalar(S, path, x, i)) == ApplyAll(S, p, NaiveFactors(S, path, x, i))
  {
    if i == 0 {
      assert [x][..0] == [];
    } else {
      var fs := NaiveFactors(S, path, x, i - 1);
      var c := Scalar(S, path, x, i - 1);
      var b := BlindAt(S, path[i - 1], c);
      RunningProductRefinesNaive(S, path, x, i - 1, S.base);
      RunningProductRefinesNaive(S, path, x, i - 1, path[i - 1]);
      assert NaiveFactors(S, path, x, i) == fs + [b];
      ApplyAllAppend(S, p, fs, b);
      RunningProductRefinesNaive(S, path, x, i - 1, p);
      MultiplyStep(S, p, c, b);
    }
  }

  /** And so the sender's secrets are those of the naive derivation. */
  lemma {:induction false} SecretRefinesNaive(S: Suite, path: seq<Point>, x: nat, i: nat)
    requires S.GroupLaws()
    requires i < |path| && forall y :: y in path ==> S.Element(y)
    ensures Secret(S, path, x, i) == S.sha256(S.compress(ApplyAll(S, path[i], NaiveFactors(S, path, x, i))))
    ensures EphemeralKey(S, path, x, i) == ApplyAll(S, S.base, NaiveFactors(S, path, x, i))
  {
    RunningProductRefinesNaive(S, path, x, i, path[i]);
    RunningProductRefinesNaive(S, path, x, i, S.base);
  }

  // ---- Key agreement with the hops ----

  /** The public keys of the nodes holding `privs`. */
  function PublicKeys(S: Suite, privs: seq<nat>): (r: seq<Point>)
    ensures |r| == |privs|
    ensures forall i :: 0 <= i < |privs| ==> r[i] == S.PublicKey(privs[i])
  {
    seq(|privs|, i requires 0 <= i < |privs| => S.PublicKey(privs[i]))
  }

  /** The key that arrives at hop i: each earlier hop re-blinds what it received
      using only its own private key. */
  function ReceivedKey(S: Suite, privs: seq<nat>, first: Point, i: nat): Point
    requires i <= |privs|
  {
    if i == 0 then first
    else
      var key := ReceivedKey(S, privs, first, i - 1);
      S.scalarMult(key, S.BlindingFactor(key, S.SharedSecret(key, privs[i - 1])))
  }

  /** Diffie-Hellman: both sides reach the same point. */
  lemma Commute(S: Suite, c: nat, k: nat)
    requires S.GroupLaws()
    ensures S.SharedSecret(S.PublicKey(c), k) == S.SharedSecret(S.PublicKey(k), c)
  {
    assert S.Composes(S.base, c, k) && S.Composes(S.base, k, c);
    assert c * k == k * c;
  }

  /** Every hop receives the sender's ephemeral key and derives the sender's secret. */
  lemma {:induction false} KeyAgreement(S: Suite, privs: seq<nat>, x: nat, i: nat)
    requires S.GroupLaws()
    requires i <= |privs|
    ensures ReceivedKey(S, privs, S.PublicKey(x), i) == EphemeralKey(S, PublicKeys(S, privs), x, i)
    ensures i < |privs| ==>
              S.SharedSecret(ReceivedKey(S, privs, S.PublicKey(x), i), privs[i])
              == Secret(S, PublicKeys(S, privs), x, i)
  {
    var path := PublicKeys(S, privs);
    if i > 0 {
      KeyAgreement(S, privs, x, i - 1);
      var c := Scalar(S, path, x, i - 1);
      MultiplyStep(S, S.base, c, BlindAt(S, path[i - 1], c));
    }
    if i < |privs| {
      Commute(S, Scalar(S, path, x, i), privs[i]);
    }
  }

  // ---- When no ephemeral key degenerates ----

  /** No scalar the sender multiplies by vanishes modulo the group order; the
      sender can check it while deriving the secrets. */
  predicate UsableSession(S: Suite, path: seq<Point>, x: nat, n: nat)
    requires S.order > 0
    requires n <= |path|
  {
    x % S.order != 0 && forall j :: 0 <= j < n ==> Blind(S, path, x, j) % S.order != 0
  }

  /** The key sent to hop i is on the curve exactly when no factor so far vanished. */
  lemma {:induction false} EphemeralOnCurve(S: Suite, path: seq<Point>, x: nat, i: nat)
    requires S.GroupLaws()
    requires i <= |path|
    ensures S.isOnCurve(EphemeralKey(S, path, x, i)) <==> UsableSession(S, path, x, i)
  {
    if i == 0 {
      assert S.Closed(S.base, x);
    } else {
      EphemeralOnCurve(S, path, x, i - 1);
      var c := Scalar(S, path, x, i - 1);
      assert S.Closed(S.base, c) && S.Closed(S.PublicKey(c), BlindAt(S, path[i - 1], c));
      MultiplyStep(S, S.base, c, BlindAt(S, path[i - 1], c));
      assert Blind(S, path, x, i - 1) == BlindAt(S, path[i - 1], c);
    }
  }
}
