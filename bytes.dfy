/**
 * Bytes, and the C++ `std::string` as a sequence of byte-valued characters.
 */
module Bytes {

  /** An unsigned 8-bit value. The bit tests of the source are written as arithmetic on it. */
  newtype byte = x: int | 0 <= x < 256

  /** Every character fits in a byte: the contents of a C++ `std::string`. */
  predicate IsByteString(s: string) {
    forall i :: 0 <= i < |s| ==> s[i] as int < 256
  }

  /** A C++ `std::string`: a sequence of `char` values. */
  type ByteString = s: string | IsByteString(s)

  /** The characters of a byte sequence. */
  function FromBytes(b: seq<byte>): (s: ByteString)
    ensures |s| == |b|
    ensures forall i :: 0 <= i < |b| ==> s[i] as int == b[i] as int
  {
    seq(|b|, i requires 0 <= i < |b| => b[i] as int as char)
  }

  /** The bytes of a byte string. */
  function ToBytes(s: ByteString): (b: seq<byte>)
    ensures |b| == |s|
    ensures forall i :: 0 <= i < |s| ==> b[i] as int == s[i] as int
  {
    seq(|s|, i requires 0 <= i < |s| => s[i] as int as byte)
  }

  lemma FromToBytes(s: ByteString)
    ensures FromBytes(ToBytes(s)) == s
  {
  }

  lemma ToFromBytes(b: seq<byte>)
    ensures ToBytes(FromBytes(b)) == b
  {
  }

  /** A byte string stays one when `n` characters at `at` are replaced by the byte-valued character `c`. */
  lemma SpliceIsByteString(s: ByteString, at: nat, n: nat, c: char)
    requires at + n <= |s| && c as int < 256
    ensures IsByteString(s[..at] + [c] + s[at + n..])
  {
    var r := s[..at] + [c] + s[at + n..];
    forall i | 0 <= i < |r|
      ensures r[i] as int < 256
    {
      if i > at {
        assert r[i] == s[at + n + i - at - 1];
      }
    }
  }
}
