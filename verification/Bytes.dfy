/** Bytes, and the big-endian 16-bit integers that prefix every Noise frame. */
module Bytes {

  newtype byte = x: int | 0 <= x < 256

  type bytes = seq<byte>

  /** `u16::to_be_bytes(n as u16)`: the cast keeps the low 16 bits only. */
  function ToBeBytes(n: nat): (b: bytes)
    ensures |b| == 2
  {
    var m := n % 0x1_0000;
    [(m / 256) as byte, (m % 256) as byte]
  }

  /** `u16::from_be_bytes`. */
  function FromBeBytes(b: bytes): (n: nat)
    requires |b| == 2
    ensures n < 0x1_0000
  {
    b[0] as int * 256 + b[1] as int
  }

  /** The length field is exact precisely for lengths that fit in 16 bits. */
  lemma BeBytesRoundTrip(n: nat)
    ensures FromBeBytes(ToBeBytes(n)) == n % 0x1_0000
    ensures FromBeBytes(ToBeBytes(n)) == n <==> n < 0x1_0000
  {
  }

  lemma BeBytesInjective(b: bytes)
    requires |b| == 2
    ensures ToBeBytes(FromBeBytes(b)) == b
  {
  }

  /** `buffer` with `data` stored at offset `off`, as a read into a slice of it does. */
  function Splice(buffer: bytes, off: nat, data: bytes): (b: bytes)
    requires off + |data| <= |buffer|
    ensures |b| == |buffer|
    ensures b[..off + |data|] == buffer[..off] + data
    ensures b[off + |data|..] == buffer[off + |data|..]
  {
    buffer[..off] + data + buffer[off + |data|..]
  }

  /** Concatenation of a sequence of byte strings. */
  function Concat(parts: seq<bytes>): bytes {
    if parts == [] then [] else parts[0] + Concat(parts[1..])
  }

  lemma {:induction false} ConcatAppend(a: seq<bytes>, b: seq<bytes>)
    ensures Concat(a + b) == Concat(a) + Concat(b)
  {
    if a == [] {
      assert a + b == b;
    } else {
      assert (a + b)[0] == a[0] && (a + b)[1..] == a[1..] + b;
      ConcatAppend(a[1..], b);
      assert a[0] + (Concat(a[1..]) + Concat(b)) == (a[0] + Concat(a[1..])) + Concat(b);
    }
  }
}
