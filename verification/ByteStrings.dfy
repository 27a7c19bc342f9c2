/** Octets, octet strings and the two result types every other module uses. */
module ByteStrings {

  newtype byte = x: int | 0 <= x < 256

  type Bytes = seq<byte>

  datatype Option<+T> = None | Some(value: T) {
    predicate IsFailure() { None? }

    function PropagateFailure<U>(): Option<U>
      requires None?
    {
      None
    }

    function Extract(): T
      requires Some?
    {
      value
    }
  }

  datatype Result<+T, +E> = Ok(value: T) | Err(error: E)

  const TWO_8 := 0x100
  const TWO_16 := 0x1_0000
  const TWO_24 := 0x100_0000
  const TWO_31 := 0x8000_0000
  const TWO_32 := 0x1_0000_0000
  const TWO_63 := 0x8000_0000_0000_0000
  const TWO_64 := 0x1_0000_0000_0000_0000

  /** The octets of a string of 8-bit characters. */
  function Ascii(s: string): (b: Bytes)
    requires forall i :: 0 <= i < |s| ==> s[i] as int < 256
    ensures |b| == |s|
    ensures forall i :: 0 <= i < |s| ==> b[i] as int == s[i] as int
  {
    seq(|s|, i requires 0 <= i < |s| => s[i] as int as byte)
  }

  /** htonl: the four octets of n modulo 2^32, most significant first. */
  function Be32(n: nat): (b: Bytes)
    ensures |b| == 4
  {
    [(n / TWO_24 % 256) as byte, (n / TWO_16 % 256) as byte, (n / TWO_8 % 256) as byte, (n % 256) as byte]
  }

  /** ntohl: the value of four octets, most significant first. */
  function FromBe32(b: Bytes): (n: nat)
    requires |b| == 4
    ensures n < TWO_32
  {
    b[0] as nat * TWO_24 + b[1] as nat * TWO_16 + b[2] as nat * TWO_8 + b[3] as nat
  }

  lemma Be32RoundTrip(n: nat)
    ensures FromBe32(Be32(n)) == n % TWO_32
  {
    assert n / TWO_8 == n / TWO_16 * 256 + n / TWO_8 % 256;
    assert n / TWO_16 == n / TWO_24 * 256 + n / TWO_16 % 256;
    assert n / TWO_24 == n / TWO_32 * 256 + n / TWO_24 % 256;
  }

  lemma FromBe32RoundTrip(b: Bytes)
    requires |b| == 4
    ensures Be32(FromBe32(b)) == b
  {
    var n := FromBe32(b);
    assert n / TWO_8 == b[0] as nat * TWO_16 + b[1] as nat * TWO_8 + b[2] as nat;
    assert n / TWO_16 == b[0] as nat * TWO_8 + b[1] as nat;
    assert n / TWO_24 == b[0] as nat;
  }

  /** Most significant octet first, each with its weight. */
  lemma NetworkOrder(a: byte, b: byte, c: byte, d: byte)
    ensures FromBe32([a, b, c, d]) == ((a as nat * 256 + b as nat) * 256 + c as nat) * 256 + d as nat
    ensures Be32(((a as nat * 256 + b as nat) * 256 + c as nat) * 256 + d as nat) == [a, b, c, d]
  {
    FromBe32RoundTrip([a, b, c, d]);
  }
}
