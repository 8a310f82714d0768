/** The foreign primitives (SHA-256, HMAC, ChaCha20, secp256k1) as the fields of
    a `Suite`, and the derivations crypto.go builds from them. Every result of
    the project is proved for all suites; where curve arithmetic matters it
    assumes `Suite.GroupLaws`. */
module Primitives {
  import opened Bytes

  type Hash256 = s: seq<byte> | |s| == 32 witness Zeros(32)
  type CompressedKey = s: seq<byte> | |s| == 33 witness Zeros(33)
  type HashPrefix = s: seq<byte> | |s| == 20 witness Zeros(20)

  /** An affine point; btcec writes the point at infinity as (0, 0). */
  datatype Point = Point(x: nat, y: nat)

  const Infinity := Point(0, 0)

  /** The labels of the four derived keys. */
  datatype KeyType = Rho | Mu | Um | Ammag {
    function Label(): seq<byte> {
      match this
      case Rho => [0x72, 0x68, 0x6f]
      case Mu => [0x6d, 0x75]
      case Um => [0x75, 0x6d]
      case Ammag => [0x61, 0x6d, 0x6d, 0x61, 0x67]
    }
  }

  datatype Suite = Suite(
    sha256: seq<byte> -> Hash256,
    hmac: (seq<byte>, seq<byte>) -> Hash256,
    keystream: (Hash256, nat) -> byte,
    scalar: Hash256 -> nat,
    scalarMult: (Point, nat) -> Point,
    base: Point,
    order: nat,
    isOnCurve: Point -> bool,
    compress: Point -> CompressedKey,
    parse: CompressedKey -> Option<Point>)
  {
    /** A point of the curve or the point at infinity. */
    predicate Element(p: Point) {
      isOnCurve(p) || p == Infinity
    }

    /** Multiples stay in the group, and only a multiple of the (prime) order
        takes a curve point to infinity. */
    predicate Closed(p: Point, k: nat)
      requires order > 0
    {
      Element(p) ==>
        && Element(scalarMult(p, k))
        && (isOnCurve(scalarMult(p, k)) <==> isOnCurve(p) && k % order != 0)
    }

    predicate Composes(p: Point, j: nat, k: nat) {
      Element(p) ==> scalarMult(scalarMult(p, j), k) == scalarMult(p, j * k)
    }

    predicate Reduces(p: Point, j: nat, k: nat)
      requires order > 0
    {
      Element(p) && j % order == k % order ==> scalarMult(p, j) == scalarMult(p, k)
    }

    /** What the results assume of the curve. */
    ghost predicate GroupLaws() {
      && order > 0
      && isOnCurve(base)
      && !isOnCurve(Infinity)
      && (forall p, k: nat :: Closed(p, k))
      && (forall p, j: nat, k: nat :: Composes(p, j, k))
      && (forall p, j: nat, k: nat :: Reduces(p, j, k))
    }

    /** What sending keys over the wire assumes: a curve point is recovered from its
        compressed form, and that of the point at infinity is no key. */
    ghost predicate WireLaws() {
      && (forall p :: isOnCurve(p) ==> parse(compress(p)) == Some(p))
      && parse(compress(Infinity)) == None
    }

    function GenerateKey(keyType: KeyType, secret: Hash256): Hash256 {
      hmac(keyType.Label(), secret)
    }

    /** The first `n` bytes of the key's stream; a longer request extends a
        shorter one. */
    function CipherStream(key: Hash256, n: nat): (r: seq<byte>)
      ensures |r| == n
      ensures forall i :: 0 <= i < n ==> r[i] == keystream(key, i)
    {
      seq(n, i requires 0 <= i < n => keystream(key, i))
    }

    function CalcMac(key: Hash256, msg: seq<byte>): Hash256 {
      hmac(key, msg)
    }

    function PublicKey(priv: nat): Point {
      scalarMult(base, priv)
    }

    function SharedSecret(pub: Point, priv: nat): Hash256 {
      sha256(compress(scalarMult(pub, priv)))
    }

    /** sha256(pub || secret), read as a number. */
    function BlindingFactor(pub: Point, secret: Hash256): nat {
      scalar(sha256(compress(pub) + secret))
    }

    function HashSharedSecret(secret: Hash256): HashPrefix {
      sha256(secret)[..20]
    }
  }

  /** A toy suite over the group of order 3, with hashes that ignore their input. */
  const ToySuite := Suite(
    _ => Zeros(32), (_, _) => Zeros(32), (_, _) => 0, _ => 1,
    (p: Point, k: nat) => Point((p.x * k) % 3, 0),
    Point(1, 0), 3,
    (p: Point) => 0 < p.x < 3 && p.y == 0,
    (p: Point) => [if p.x == 1 then 1 else if p.x == 2 then 2 else 0] + Zeros(32),
    (s: CompressedKey) => if s[0] == 1 then Some(Point(1, 0)) else if s[0] == 2 then Some(Point(2, 0)) else None)

  lemma DropMultiple(m: nat, n: nat)
    ensures (3 * m + n) % 3 == n % 3
  {
  }

  lemma ReduceFactor(a: nat, k: nat)
    ensures (a % 3 * k) % 3 == (a * k) % 3
  {
    var q, r := a / 3, a % 3;
    calc {
      a * k;
      (3 * q + r) * k;
      3 * (q * k) + r * k;
    }
    DropMultiple(q * k, r * k);
  }

  lemma NonZeroProduct(x: nat, k: nat)
    requires 0 < x < 3
    ensures (x * k) % 3 == 0 <==> k % 3 == 0
  {
  }

  /** The laws can be met. */
  lemma GroupLawsAreConsistent()
    ensures ToySuite.GroupLaws() && ToySuite.WireLaws()
  {
    var S := ToySuite;
    forall p, k: nat ensures S.Closed(p, k) {
      if 0 < p.x < 3 {
        NonZeroProduct(p.x, k);
      }
    }
    forall p, j: nat, k: nat ensures S.Composes(p, j, k) {
      ReduceFactor(p.x * j, k);
      assert p.x * j * k == p.x * (j * k);
    }
    forall p, j: nat, k: nat ensures S.Reduces(p, j, k) {
      ReduceFactor(j, p.x);
      ReduceFactor(k, p.x);
      assert p.x * j == j * p.x && p.x * k == k * p.x;
    }
  }
}
