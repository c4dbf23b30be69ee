/** Byte strings, their concatenation, and big-endian integers in them. */
module ByteStrings {
  newtype byte = x: int | 0 <= x < 0x100

  type Bytes = seq<byte>

  function Concat(parts: seq<Bytes>): Bytes {
    if parts == [] then [] else parts[0] + Concat(parts[1..])
  }

  lemma {:induction false} ConcatSplit(parts: seq<Bytes>, n: nat)
    requires n <= |parts|
    ensures Concat(parts) == Concat(parts[..n]) + Concat(parts[n..])
  {
    if n > 0 {
      ConcatSplit(parts[1..], n - 1);
      assert parts[..n][1..] == parts[1..][..n - 1];
      assert parts[n..] == parts[1..][n - 1..];
    } else {
      assert parts[n..] == parts;
    }
  }

  /** Two reads in a row are one longer read. */
  lemma TakeTwice(b: Bytes, n: nat, m: nat)
    requires n + m <= |b|
    ensures b[..n] + b[n..][..m] == b[..n + m] && b[n..][m..] == b[n + m..]
  {
  }

  function U16(b: Bytes): nat
    requires |b| == 2
  {
    b[0] as nat * 0x100 + b[1] as nat
  }

  function U32(b: Bytes): nat
    requires |b| == 4
  {
    U16(b[..2]) * 0x1_0000 + U16(b[2..])
  }

  /** `DataView.setUint16`: the low sixteen bits. */
  function Put16(n: nat): (b: Bytes)
    ensures |b| == 2
  {
    [(n / 0x100 % 0x100) as byte, (n % 0x100) as byte]
  }

  function Put32(n: nat): (b: Bytes)
    ensures |b| == 4
  {
    Put16(n / 0x1_0000) + Put16(n)
  }

  lemma U16Put16(n: nat)
    ensures U16(Put16(n)) == n % 0x1_0000
  {
  }

  lemma U32Put32(n: nat)
    ensures U32(Put32(n)) == n % 0x1_0000_0000
  {
    var b := Put32(n);
    assert b[..2] == Put16(n / 0x1_0000) && b[2..] == Put16(n);
    U16Put16(n / 0x1_0000);
    U16Put16(n);
    Halves(n);
  }

  lemma Halves(n: nat)
    ensures n / 0x1_0000 % 0x1_0000 * 0x1_0000 + n % 0x1_0000 == n % 0x1_0000_0000
  {
  }
}
