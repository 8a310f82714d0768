/** Byte strings: XOR, zero padding and big-endian integers. */
module Bytes {

  type byte = bv8
  type uint16 = n: int | 0 <= n < 0x1_0000
  type uint32 = bv32
  type uint64 = bv64

  datatype Option<+T> = None | Some(value: T)

  datatype Result<+T, +E> = Ok(value: T) | Err(error: E) {
    predicate IsFailure() {
      Err?
    }

    function PropagateFailure<U>(): Result<U, E>
      requires Err?
    {
      Err(error)
    }

    function Extract(): T
      requires Ok?
    {
      value
    }
  }

  function Zeros(n: nat): (z: seq<byte>)
    ensures |z| == n
    ensures forall i :: 0 <= i < n ==> z[i] == 0
  {
    seq(n, _ => 0)
  }

  function Xor(a: seq<byte>, b: seq<byte>): (r: seq<byte>)
    requires |a| == |b|
    ensures |r| == |a|
    ensures forall i :: 0 <= i < |a| ==> r[i] == a[i] ^ b[i]
  {
    seq(|a|, i requires 0 <= i < |a| => a[i] ^ b[i])
  }

  /** XORing twice with the same pad is the identity. */
  lemma XorCancels(a: seq<byte>, b: seq<byte>)
    requires |a| == |b|
    ensures Xor(Xor(a, b), b) == a
  {
  }

  lemma XorSlice(a: seq<byte>, b: seq<byte>, lo: nat, hi: nat)
    requires |a| == |b|
    requires lo <= hi <= |a|
    ensures Xor(a, b)[lo..hi] == Xor(a[lo..hi], b[lo..hi])
  {
  }

  lemma XorZeros(b: seq<byte>)
    ensures Xor(Zeros(|b|), b) == b
  {
  }

  // ---- Big-endian integers ----

  function NatOf(b: byte): (n: nat)
    ensures n < 256
  {
    b as nat
  }

  lemma NatOfSuccessor(b: byte)
    requires NatOf(b) < 255
    ensures NatOf(0) == 0 && NatOf(b + 1) == NatOf(b) + 1
  {
  }

  /** The byte that stands for a small number. */
  function ByteOf(n: nat): (b: byte)
    requires n < 256
    ensures NatOf(b) == n
  {
    if n == 0 then 0
    else
      NatOfSuccessor(ByteOf(n - 1));
      ByteOf(n - 1) + 1
  }

  function Pow256(n: nat): (p: nat)
    ensures p > 0
  {
    if n == 0 then 1 else 256 * Pow256(n - 1)
  }

  /** The number a big-endian byte string stands for. */
  function FromBigEndian(s: seq<byte>): nat {
    if s == [] then 0 else 256 * FromBigEndian(s[..|s| - 1]) + NatOf(s[|s| - 1])
  }

  /** The `len` low-order bytes of `n`, most significant first. */
  function BigEndian(n: nat, len: nat): (s: seq<byte>)
    ensures |s| == len
  {
    if len == 0 then [] else BigEndian(n / 256, len - 1) + [ByteOf(n % 256)]
  }

  lemma {:induction false} BigEndianDecodes(n: nat, len: nat)
    requires n < Pow256(len)
    ensures FromBigEndian(BigEndian(n, len)) == n
  {
    if len != 0 {
      var high, low := n / 256, n % 256;
      BigEndianDecodes(high, len - 1);
      var init := BigEndian(high, len - 1);
      assert (init + [ByteOf(low)])[..len - 1] == init;
    }
  }

  /** The first byte is the most significant one. */
  lemma {:induction false} FromBigEndianHead(b: byte, s: seq<byte>)
    ensures FromBigEndian([]) == 0
    ensures FromBigEndian([b] + s) == NatOf(b) * Pow256(|s|) + FromBigEndian(s)
  {
    var all := [b] + s;
    if s == [] {
      assert all[..0] == [];
    } else {
      var init := s[..|s| - 1];
      assert all[..|s|] == [b] + init;
      FromBigEndianHead(b, init);
      Regroup(NatOf(b), Pow256(|init|));
    }
  }

  lemma Regroup(m: nat, n: nat)
    ensures 256 * (m * n) == m * (256 * n)
  {
  }

  function PutUint16(x: uint16): (s: seq<byte>)
    ensures |s| == 2
    ensures GetUint16(s) == x
  {
    [ByteOf(x / 256), ByteOf(x % 256)]
  }

  function GetUint16(s: seq<byte>): uint16
    requires |s| == 2
  {
    256 * NatOf(s[0]) + NatOf(s[1])
  }

  function PutUint32(x: uint32): (s: seq<byte>)
    ensures |s| == 4
    ensures GetUint32(s) == x
  {
    [(x >> 24) as byte, ((x >> 16) & 0xff) as byte, ((x >> 8) & 0xff) as byte, (x & 0xff) as byte]
  }

  function GetUint32(s: seq<byte>): uint32
    requires |s| == 4
  {
    (s[0] as uint32 << 24) | (s[1] as uint32 << 16) | (s[2] as uint32 << 8) | s[3] as uint32
  }

  function PutUint64(x: uint64): (s: seq<byte>)
    ensures |s| == 8
    ensures GetUint64(s) == x
  {
    [(x >> 56) as byte, ((x >> 48) & 0xff) as byte, ((x >> 40) & 0xff) as byte, ((x >> 32) & 0xff) as byte,
     ((x >> 24) & 0xff) as byte, ((x >> 16) & 0xff) as byte, ((x >> 8) & 0xff) as byte, (x & 0xff) as byte]
  }

  function GetUint64(s: seq<byte>): uint64
    requires |s| == 8
  {
    (s[0] as uint64 << 56) | (s[1] as uint64 << 48) | (s[2] as uint64 << 40) | (s[3] as uint64 << 32)
    | (s[4] as uint64 << 24) | (s[5] as uint64 << 16) | (s[6] as uint64 << 8) | s[7] as uint64
  }

  lemma PutGetUint32(s: seq<byte>)
    requires |s| == 4
    ensures PutUint32(GetUint32(s)) == s
  {
  }

  lemma PutGetUint64(s: seq<byte>)
    requires |s| == 8
    ensures PutUint64(GetUint64(s)) == s
  {
  }
}
