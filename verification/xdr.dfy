/** The decorated-signature structure of the Stellar network and its XDR
    encoding (RFC 4506): a 4-byte key hint stored as fixed-length opaque data
    (section 4.9) followed by at most 64 signature bytes stored as
    variable-length opaque data (section 4.10), i.e. a big-endian 4-byte length,
    the bytes, and zero padding up to a multiple of four. The byte-equality test
    the collator performs is a test on this encoding. */
module Xdr {
  import opened Results

  type Byte = b: int | 0 <= b < 0x100

  /** Upper bound of the `Signature` type, `opaque Signature<64>`. */
  const MaxSignatureLength: nat := 64

  /** The last four bytes of the signer's public key. */
  type Hint = h: seq<Byte> | |h| == 4 witness [0, 0, 0, 0]

  type SignatureBytes = s: seq<Byte> | |s| <= MaxSignatureLength

  datatype DecoratedSignature = DecoratedSignature(hint: Hint, signature: SignatureBytes)

  function DecodeUint32(b: seq<Byte>): nat
    requires |b| == 4
  {
    b[0] as int * 0x100_0000 + b[1] as int * 0x1_0000 + b[2] as int * 0x100 + b[3] as int
  }

  /** Big-endian unsigned 32-bit length word (RFC 4506, section 4.2) of a
      signature length; a length of at most 64 leaves the upper three bytes zero. */
  function EncodeLength(n: nat): (b: seq<Byte>)
    requires n <= MaxSignatureLength
    ensures |b| == 4 && DecodeUint32(b) == n
  {
    [0, 0, 0, n]
  }

  /** Number of zero bytes that round `n` bytes up to a multiple of four. */
  function PadLength(n: nat): (p: nat)
    ensures p < 4 && (n + p) % 4 == 0
  {
    (4 - n % 4) % 4
  }

  function Padding(n: nat): (z: seq<Byte>)
    ensures |z| == PadLength(n)
    ensures forall i | 0 <= i < |z| :: z[i] == 0
  {
    seq(PadLength(n), _ => 0)
  }

  /** `DecoratedSignature.toXDR()`. */
  function Encode(d: DecoratedSignature): (bytes: seq<Byte>)
    ensures |bytes| % 4 == 0 && |bytes| >= 8
    ensures |bytes| == 8 + |d.signature| + PadLength(|d.signature|)
    ensures bytes[..4] == d.hint
    ensures DecodeUint32(bytes[4..8]) == |d.signature|
    ensures 8 + |d.signature| <= |bytes| && bytes[8..8 + |d.signature|] == d.signature
    ensures forall i | 8 + |d.signature| <= i < |bytes| :: bytes[i] == 0
  {
    var n := |d.signature|;
    var bytes := d.hint + EncodeLength(n) + d.signature + Padding(n);
    assert bytes[..4] == d.hint;
    assert bytes[4..8] == EncodeLength(n);
    assert bytes[8..8 + n] == d.signature;
    bytes
  }

  /** `DecoratedSignature.fromXDR()`: the inverse of `Encode`, rejecting
      truncated input, over-long signatures, trailing bytes and non-zero padding. */
  function Decode(bytes: seq<Byte>): (r: Option<DecoratedSignature>)
    ensures r.Some? ==> Encode(r.value) == bytes
  {
    if |bytes| < 8 then None
    else
      var n := DecodeUint32(bytes[4..8]);
      if n > MaxSignatureLength || |bytes| != 8 + n + PadLength(n) then None
      else if bytes[8 + n..] != Padding(n) then None
      else
        var d := DecoratedSignature(bytes[..4], bytes[8..8 + n]);
        assert EncodeLength(n) == bytes[4..8] by {
          assert bytes[4..8][0] == bytes[4] && bytes[4..8][1] == bytes[5];
          assert bytes[4..8][2] == bytes[6] && bytes[4..8][3] == bytes[7];
        }
        assert bytes == bytes[..4] + bytes[4..8] + bytes[8..8 + n] + bytes[8 + n..];
        Some(d)
  }

  /** Decoding an encoded signature gives it back. */
  lemma DecodeEncode(d: DecoratedSignature)
    ensures Decode(Encode(d)) == Some(d)
  {
  }

  /** Two signatures are byte-equal exactly when they are the same signature. */
  lemma EncodeInjective(a: DecoratedSignature, b: DecoratedSignature)
    ensures Encode(a) == Encode(b) <==> a == b
  {
    if Encode(a) == Encode(b) {
      DecodeEncode(a);
      DecodeEncode(b);
    }
  }
}
