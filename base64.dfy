/**
 * The base 64 encoding of section 4 of RFC 4648: each group of three bytes
 * becomes four symbols of the alphabet A-Z a-z 0-9 + /, and a final group of
 * one or two bytes is padded with `=` to four characters.
 */
module Base64 {
  import opened Wrappers
  import opened Bytes

  /** Value `i` of the alphabet of section 4 of RFC 4648. */
  function Symbol(i: nat): (c: char)
    requires i < 64
    ensures c != '=' && c != 0 as char
    ensures 0 < c as int < 128
  {
    if i < 26 then ('A' as int + i) as char
    else if i < 52 then ('a' as int + i - 26) as char
    else if i < 62 then ('0' as int + i - 52) as char
    else if i == 62 then '+'
    else '/'
  }

  /** The value of an alphabet character; None for every other character, padding included. */
  function ValueOf(c: char): (r: Option<nat>)
    ensures r.Some? ==> r.value < 64 && Symbol(r.value) == c
  {
    if 'A' <= c <= 'Z' then Some(c as int - 'A' as int)
    else if 'a' <= c <= 'z' then Some(c as int - 'a' as int + 26)
    else if '0' <= c <= '9' then Some(c as int - '0' as int + 52)
    else if c == '+' then Some(62)
    else if c == '/' then Some(63)
    else None
  }

  lemma ValueOfSymbol(i: nat)
    requires i < 64
    ensures ValueOf(Symbol(i)) == Some(i)
  {
  }

  /** Four symbols for a full group of three bytes: the 24 bits cut into four 6-bit fields. */
  function EncodeGroup(b0: byte, b1: byte, b2: byte): (r: string)
    ensures |r| == 4
  {
    var x0, x1, x2 := b0 as nat, b1 as nat, b2 as nat;
    [Symbol(x0 / 4), Symbol(x0 % 4 * 16 + x1 / 16), Symbol(x1 % 16 * 4 + x2 / 64), Symbol(x2 % 64)]
  }

  /** The encoding of `b`: whole groups, then one padded quantum for a final one or two bytes. */
  function Encode(b: seq<byte>): (s: string)
    ensures |s| == (|b| + 2) / 3 * 4
  {
    if |b| == 0 then []
    else if |b| == 1 then
      var x0 := b[0] as nat;
      [Symbol(x0 / 4), Symbol(x0 % 4 * 16), '=', '=']
    else if |b| == 2 then
      var x0, x1 := b[0] as nat, b[1] as nat;
      [Symbol(x0 / 4), Symbol(x0 % 4 * 16 + x1 / 16), Symbol(x1 % 16 * 4), '=']
    else EncodeGroup(b[0], b[1], b[2]) + Encode(b[3..])
  }

  /** The encoding consists of printable ASCII characters, so it has no NUL and fits in bytes. */
  lemma {:induction false} EncodeIsAscii(b: seq<byte>)
    ensures forall k :: 0 <= k < |Encode(b)| ==> 0 < Encode(b)[k] as int < 128
  {
    if |b| >= 3 {
      EncodeIsAscii(b[3..]);
      var g := EncodeGroup(b[0], b[1], b[2]);
      assert Encode(b) == g + Encode(b[3..]);
      forall k | 0 <= k < |Encode(b)|
        ensures 0 < Encode(b)[k] as int < 128
      {
        if k >= 4 {
          assert Encode(b)[k] == Encode(b[3..])[k - 4];
        }
      }
    }
  }

  /** First byte of a quantum: all six bits of the first symbol and the top two of the second. */
  function Byte0(v0: nat, v1: nat): (r: nat)
    requires v0 < 64 && v1 < 64
    ensures r < 256
  {
    v0 * 4 + v1 / 16
  }

  /** Second byte: the low four bits of the second symbol and the top four of the third. */
  function Byte1(v1: nat, v2: nat): (r: nat)
    requires v1 < 64 && v2 < 64
    ensures r < 256
  {
    v1 % 16 * 16 + v2 / 4
  }

  /** Third byte: the low two bits of the third symbol and all six of the fourth. */
  function Byte2(v2: nat, v3: nat): (r: nat)
    requires v2 < 64 && v3 < 64
    ensures r < 256
  {
    v2 % 4 * 64 + v3
  }

  function ToByte(x: nat): byte
    requires x < 256
  {
    x as byte
  }

  /** Decodes one quantum of four characters; padding is accepted only in the final one. */
  function DecodeQuantum(q: string, final: bool): Option<seq<byte>>
    requires |q| == 4
  {
    var v0, v1, v2, v3 := ValueOf(q[0]), ValueOf(q[1]), ValueOf(q[2]), ValueOf(q[3]);
    if v0.None? || v1.None? then None
    else if final && q[2] == '=' && q[3] == '=' then
      Some([ToByte(Byte0(v0.value, v1.value))])
    else if v2.None? then None
    else if final && q[3] == '=' then
      Some([ToByte(Byte0(v0.value, v1.value)), ToByte(Byte1(v1.value, v2.value))])
    else if v3.None? then None
    else
      Some([ToByte(Byte0(v0.value, v1.value)), ToByte(Byte1(v1.value, v2.value)), ToByte(Byte2(v2.value, v3.value))])
  }

  /** The decoding of `s`; None when `s` is not a sequence of whole, well-formed quanta. */
  function Decode(s: string): Option<seq<byte>>
    decreases |s|
  {
    if |s| == 0 then Some([])
    else if |s| < 4 then None
    else
      match DecodeQuantum(s[..4], |s| == 4)
      case None => None
      case Some(front) =>
        match Decode(s[4..])
        case None => None
        case Some(rest) => Some(front + rest)
  }

  lemma FieldArithmetic(x0: nat, x1: nat, x2: nat, d0: nat, d1: nat, d2: nat, d3: nat)
    requires x0 < 256 && x1 < 256 && x2 < 256
    requires d0 == x0 / 4 && d1 == x0 % 4 * 16 + x1 / 16
    requires d2 == x1 % 16 * 4 + x2 / 64 && d3 == x2 % 64
    ensures d0 < 64 && d1 < 64 && d2 < 64 && d3 < 64
    ensures Byte0(d0, d1) == x0 && Byte1(d1, d2) == x1 && Byte2(d2, d3) == x2
  {
  }

  lemma ToByteOfNat(b: byte)
    ensures ToByte(b as nat) == b
  {
  }

  /** Cutting three bytes into 6-bit fields and joining the fields again gives the bytes back. */
  lemma ByteFields(b0: byte, b1: byte, b2: byte, d0: nat, d1: nat, d2: nat, d3: nat)
    requires d0 == b0 as nat / 4 && d1 == b0 as nat % 4 * 16 + b1 as nat / 16
    requires d2 == b1 as nat % 16 * 4 + b2 as nat / 64 && d3 == b2 as nat % 64
    ensures d0 < 64 && d1 < 64 && d2 < 64 && d3 < 64
    ensures ToByte(Byte0(d0, d1)) == b0 && ToByte(Byte1(d1, d2)) == b1 && ToByte(Byte2(d2, d3)) == b2
  {
    FieldArithmetic(b0 as nat, b1 as nat, b2 as nat, d0, d1, d2, d3);
    ToByteOfNat(b0);
    ToByteOfNat(b1);
    ToByteOfNat(b2);
  }

  /** Symbols with the given values decode to those values, and none of them is padding. */
  lemma QuantumValues(q: string, d0: nat, d1: nat, d2: nat, d3: nat)
    requires d0 < 64 && d1 < 64 && d2 < 64 && d3 < 64
    requires q == [Symbol(d0), Symbol(d1), Symbol(d2), Symbol(d3)]
    ensures ValueOf(q[0]) == Some(d0) && ValueOf(q[1]) == Some(d1)
    ensures ValueOf(q[2]) == Some(d2) && ValueOf(q[3]) == Some(d3)
    ensures q[2] != '=' && q[3] != '='
  {
    ValueOfSymbol(d0);
    ValueOfSymbol(d1);
    ValueOfSymbol(d2);
    ValueOfSymbol(d3);
  }

  lemma DecodeFullQuantum(q: string, final: bool, d0: nat, d1: nat, d2: nat, d3: nat)
    requires |q| == 4 && d0 < 64 && d1 < 64 && d2 < 64 && d3 < 64
    requires ValueOf(q[0]) == Some(d0) && ValueOf(q[1]) == Some(d1)
    requires ValueOf(q[2]) == Some(d2) && ValueOf(q[3]) == Some(d3)
    ensures DecodeQuantum(q, final) == Some([ToByte(Byte0(d0, d1)), ToByte(Byte1(d1, d2)), ToByte(Byte2(d2, d3))])
  {
    assert q[2] != '=' && q[3] != '=';
  }

  lemma GroupRoundTrip(b0: byte, b1: byte, b2: byte, final: bool)
    ensures DecodeQuantum(EncodeGroup(b0, b1, b2), final) == Some([b0, b1, b2])
  {
    var x0, x1, x2 := b0 as nat, b1 as nat, b2 as nat;
    var d0, d1, d2, d3 := x0 / 4, x0 % 4 * 16 + x1 / 16, x1 % 16 * 4 + x2 / 64, x2 % 64;
    var q := EncodeGroup(b0, b1, b2);
    QuantumValues(q, d0, d1, d2, d3);
    DecodeFullQuantum(q, final, d0, d1, d2, d3);
    ByteFields(b0, b1, b2, d0, d1, d2, d3);
  }

  lemma DecodeOneByteQuantum(q: string, d0: nat, d1: nat)
    requires |q| == 4 && d0 < 64 && d1 < 64
    requires ValueOf(q[0]) == Some(d0) && ValueOf(q[1]) == Some(d1) && q[2] == '=' && q[3] == '='
    ensures DecodeQuantum(q, true) == Some([ToByte(Byte0(d0, d1))])
  {
  }

  lemma OneByteRoundTrip(b0: byte)
    ensures DecodeQuantum(Encode([b0]), true) == Some([b0])
  {
    var x0 := b0 as nat;
    var d0, d1 := x0 / 4, x0 % 4 * 16;
    var q := Encode([b0]);
    assert q == [Symbol(d0), Symbol(d1), '=', '='];
    ValueOfSymbol(d0);
    ValueOfSymbol(d1);
    DecodeOneByteQuantum(q, d0, d1);
    ByteFields(b0, 0, 0, d0, d1, 0, 0);
  }

  lemma DecodeTwoBytesQuantum(q: string, d0: nat, d1: nat, d2: nat)
    requires |q| == 4 && d0 < 64 && d1 < 64 && d2 < 64
    requires ValueOf(q[0]) == Some(d0) && ValueOf(q[1]) == Some(d1) && ValueOf(q[2]) == Some(d2) && q[3] == '='
    ensures DecodeQuantum(q, true) == Some([ToByte(Byte0(d0, d1)), ToByte(Byte1(d1, d2))])
  {
    assert q[2] != '=';
  }

  lemma TwoBytesRoundTrip(b0: byte, b1: byte)
    ensures DecodeQuantum(Encode([b0, b1]), true) == Some([b0, b1])
  {
    var x0, x1 := b0 as nat, b1 as nat;
    var d0, d1, d2 := x0 / 4, x0 % 4 * 16 + x1 / 16, x1 % 16 * 4;
    var q := Encode([b0, b1]);
    assert q == [Symbol(d0), Symbol(d1), Symbol(d2), '='];
    ValueOfSymbol(d0);
    ValueOfSymbol(d1);
    ValueOfSymbol(d2);
    DecodeTwoBytesQuantum(q, d0, d1, d2);
    ByteFields(b0, b1, 0, d0, d1, d2, 0);
  }

  lemma DecodeLastQuantum(s: string, bytes: seq<byte>)
    requires |s| == 4 && DecodeQuantum(s, true) == Some(bytes)
    ensures Decode(s) == Some(bytes)
  {
    assert s[..4] == s;
    assert Decode(s[4..]) == Some([]);
    assert bytes + [] == bytes;
  }

  /** A non-final quantum followed by a well-formed non-empty rest decodes to both parts' bytes. */
  lemma DecodeNextQuantum(q: string, t: string, front: seq<byte>, rest: seq<byte>)
    requires |q| == 4 && t != []
    requires DecodeQuantum(q, false) == Some(front) && Decode(t) == Some(rest)
    ensures Decode(q + t) == Some(front + rest)
  {
    var s := q + t;
    assert s[..4] == q;
    assert s[4..] == t;
  }

  /** Decoding undoes encoding for one byte, two bytes and three bytes: a single final quantum. */
  lemma DecodeEncodeOne(b0: byte)
    ensures Decode(Encode([b0])) == Some([b0])
  {
    OneByteRoundTrip(b0);
    assert |Encode([b0])| == 4;
    DecodeLastQuantum(Encode([b0]), [b0]);
  }

  lemma DecodeEncodeTwo(b0: byte, b1: byte)
    ensures Decode(Encode([b0, b1])) == Some([b0, b1])
  {
    TwoBytesRoundTrip(b0, b1);
    assert |Encode([b0, b1])| == 4;
    DecodeLastQuantum(Encode([b0, b1]), [b0, b1]);
  }

  lemma DecodeEncodeThree(b0: byte, b1: byte, b2: byte)
    ensures Decode(Encode([b0, b1, b2])) == Some([b0, b1, b2])
  {
    var s := Encode([b0, b1, b2]);
    assert s == EncodeGroup(b0, b1, b2);
    GroupRoundTrip(b0, b1, b2, true);
    DecodeLastQuantum(s, [b0, b1, b2]);
  }

  lemma FirstThree(b: seq<byte>)
    requires |b| >= 3
    ensures [b[0], b[1], b[2]] + b[3..] == b
  {
  }

  /** If decoding undoes the encoding of all but the first three bytes, it undoes the encoding of all of them. */
  lemma DecodeEncodeStep(b: seq<byte>)
    requires |b| > 3 && Decode(Encode(b[3..])) == Some(b[3..])
    ensures Decode(Encode(b)) == Some(b)
  {
    var g := EncodeGroup(b[0], b[1], b[2]);
    var t := Encode(b[3..]);
    assert Encode(b) == g + t;
    assert t != [] by {
      assert Decode([]) == Some([]);
      assert b[3..] != [];
    }
    GroupRoundTrip(b[0], b[1], b[2], false);
    DecodeNextQuantum(g, t, [b[0], b[1], b[2]], b[3..]);
    FirstThree(b);
  }

  /** Decoding undoes encoding, for every byte sequence. */
  lemma {:induction false} DecodeEncode(b: seq<byte>)
    ensures Decode(Encode(b)) == Some(b)
  {
    if |b| == 1 {
      assert b == [b[0]];
      DecodeEncodeOne(b[0]);
    } else if |b| == 2 {
      assert b == [b[0], b[1]];
      DecodeEncodeTwo(b[0], b[1]);
    } else if |b| == 3 {
      assert b == [b[0], b[1], b[2]];
      DecodeEncodeThree(b[0], b[1], b[2]);
    } else if |b| > 3 {
      DecodeEncode(b[3..]);
      DecodeEncodeStep(b);
    }
  }
}
