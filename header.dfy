/**
 * The VCDIFF header of section 4.1 of RFC 3284 as the patcher reads and
 * writes it: magic bytes, version, the Hdr_Indicator byte, an optional
 * secondary-compressor id, an optional code table, and xdelta3's application
 * header, which carries the patch description as `^*` followed by its
 * base 64 encoding.
 */
module Header {
  import opened Wrappers
  import opened Bytes
  import opened VarLength
  import opened LineEnds
  import Base64

  const MAGIC: seq<byte> := [0xD6, 0xC3, 0xC4]
  const VERSION: byte := 0

  /** The application header written when a patch has no description. */
  const DEFAULT_APP_HEADER: ByteString := "Created with Delta Patcher."
  /** The marker that starts an application header holding a description. */
  const DESCRIPTION_MARKER: ByteString := "^*"

  const NUL: char := 0 as char

  /** Hdr_Indicator bit 0x01, VCD_DECOMPRESS: a secondary-compressor id byte follows. */
  predicate HasSecondaryId(flags: byte) {
    flags % 2 == 1
  }

  /** Hdr_Indicator bit 0x02, VCD_CODETABLE: a length-prefixed code table follows. */
  predicate HasCodeTable(flags: byte) {
    flags / 2 % 2 == 1
  }

  /** Hdr_Indicator bit 0x04: xdelta3's application header follows. */
  predicate HasAppHeader(flags: byte) {
    flags / 4 % 2 == 1
  }

  /** The C string a `char` buffer holds: everything before the first NUL. */
  function UntilNul(s: string): (r: string)
    ensures |r| <= |s| && r == s[..|r|]
    ensures NUL !in r
    ensures |r| < |s| ==> s[|r|] == NUL
  {
    if s == [] || s[0] == NUL then [] else [s[0]] + UntilNul(s[1..])
  }

  lemma UntilNulKeepsNulFree(s: string)
    requires NUL !in s
    ensures UntilNul(s) == s
  {
  }

  /** `XDeltaPatch::EncodeDescription`: the application header a patch is written with. */
  function EncodeDescription(description: ByteString): ByteString {
    if description == "" then DEFAULT_APP_HEADER
    else
      var encoded := Base64.Encode(ToBytes(description));
      Base64.EncodeIsAscii(ToBytes(description));
      DESCRIPTION_MARKER + encoded
  }

  /** Why reading the header produced no description. */
  datatype SkipReason =
    | CannotOpen       // the patch file does not exist
    | BadMagic         // the first three bytes are not the VCDIFF magic
    | BadVersion       // the version byte is not 0
    | NoAppHeader      // Hdr_Indicator lacks bit 0x04
    | ShortAppHeader   // the application header is shorter than two bytes
    | NotDescription   // the application header does not start with `^*`
    | Undecodable      // the text after `^*` is not base 64 this model can decode

  /**
   * Result of reading the description from a patch file. `OutOfBytes` is a
   * read past the end of the file or a seek before its start, which this
   * reader checks and the source does not: there an integer cut off by the
   * end of the file never finishes (`VarLength.LoopAsWritten`), and an
   * application header cut short is decoded from whatever the buffer held.
   * `AllocFailure` is the `std::bad_alloc` of the buffer for the application
   * header; `BufferOverrun` is an application-header length of 2^64 - 1, for
   * which `length + 1` wraps to a zero-byte buffer that the read and the NUL
   * store then overrun.
   */
  datatype DescResult =
    | Found(text: string)
    | Skipped(why: SkipReason)
    | OutOfBytes
    | AllocFailure
    | BufferOverrun

  /** The first `size_t` value that `std::streamoff`, a signed 64-bit integer, cannot hold. */
  const STREAMOFF_LIMIT: nat := SIZE_T_LIMIT / 2

  /** A `size_t` converted to `std::streamoff`: values of 2^63 and above become negative. */
  function AsStreamOff(length: nat): (off: int)
    requires length < SIZE_T_LIMIT
    ensures -(STREAMOFF_LIMIT as int) <= off < STREAMOFF_LIMIT
    ensures off % SIZE_T_LIMIT == length
  {
    if length < STREAMOFF_LIMIT then length else length - SIZE_T_LIMIT
  }

  /**
   * Where `seekg(length, cur)` past the code table leaves the reader, when
   * there is a code table; None when its length runs off the end of the file
   * or the seek would go before the start of the file.
   */
  function CodeTableEnd(data: seq<byte>, flags: byte, pos: nat): Option<nat> {
    if !HasCodeTable(flags) then Some(pos)
    else
      match ScanFrom(data, pos, 0)
      case Unterminated => None
      case Scanned(length, next) =>
        var target := next + AsStreamOff(length);
        if target < 0 then None else Some(target)
  }

  /** A code-table length of 2^64 - k, for k up to the bytes read so far, moves the reader k bytes back. */
  lemma CodeTableSeeksBack(data: seq<byte>, flags: byte, pos: nat, k: nat, next: nat)
    requires HasCodeTable(flags) && 0 < k <= next && k <= STREAMOFF_LIMIT
    requires ScanFrom(data, pos, 0) == Scanned(SIZE_T_LIMIT - k, next)
    ensures CodeTableEnd(data, flags, pos) == Some(next - k)
  {
  }

  /** The description an application header carries. */
  function AppHeaderText(app: seq<byte>): (r: DescResult)
    requires |app| >= 2
    ensures r.Found? ==> CR !in r.text
  {
    var temp := FromBytes(app);
    if temp[0] != '^' || temp[1] != '*' then Skipped(NotDescription)
    else
      var part := UntilNul(temp)[2..];
      match Base64.Decode(part)
      case None => Skipped(Undecodable)
      case Some(buf) =>
        NormalizedHasNoCr(FromBytes(buf));
        Found(NormalizeLineEnds(FromBytes(buf)))
  }

  /**
   * Reads the application header whose length starts at `pos`. The buffer of
   * `(length + 1) mod 2^64` bytes is allocated before the bytes are read, so
   * the largest length overruns a zero-byte buffer and an allocation beyond
   * `heapLimit` fails first.
   */
  function AppHeaderAt(data: seq<byte>, pos: nat, heapLimit: nat): (r: DescResult)
    ensures r.Found? ==> CR !in r.text
  {
    match ScanFrom(data, pos, 0)
    case Unterminated => OutOfBytes
    case Scanned(length, start) =>
      if length < 2 then Skipped(ShortAppHeader)
      else if length + 1 == SIZE_T_LIMIT then BufferOverrun
      else if length + 1 > heapLimit then AllocFailure
      else if start + length > |data| then OutOfBytes
      else AppHeaderText(data[start..start + length])
  }

  /** An application header that is long enough, fits the heap and lies inside the data is read as its text. */
  lemma AppHeaderInside(data: seq<byte>, pos: nat, heapLimit: nat, length: nat, start: nat)
    requires ScanFrom(data, pos, 0) == Scanned(length, start)
    requires 2 <= length && length + 1 < SIZE_T_LIMIT && length + 1 <= heapLimit && start + length <= |data|
    ensures AppHeaderAt(data, pos, heapLimit) == AppHeaderText(data[start..start + length])
  {
  }

  /**
   * The description `DecodeDescription` finds in the bytes of a patch file.
   * A description is found only behind the VCDIFF magic, version 0 and an
   * indicator with bit 0x04, and it never holds a CR.
   */
  function ParseDescription(data: seq<byte>, heapLimit: nat): (r: DescResult)
    ensures r.Found? ==> |data| >= 5 && data[..3] == MAGIC && data[3] == VERSION && HasAppHeader(data[4])
    ensures r.Found? ==> CR !in r.text
  {
    if |data| < 3 then OutOfBytes
    else if data[0] != 0xD6 || data[1] != 0xC3 || data[2] != 0xC4 then Skipped(BadMagic)
    else if |data| < 4 then OutOfBytes
    else if data[3] != VERSION then Skipped(BadVersion)
    else if |data| < 5 then OutOfBytes
    else if !HasAppHeader(data[4]) then Skipped(NoAppHeader)
    else
      var afterId := if HasSecondaryId(data[4]) then 6 else 5;
      match CodeTableEnd(data, data[4], afterId)
      case None => OutOfBytes
      case Some(pos) => AppHeaderAt(data, pos, heapLimit)
  }

  /**
   * A header laid out as section 4.1 of RFC 3284 and xdelta3 write it: magic,
   * version, indicator, the secondary-compressor id when bit 0x01 is set, the
   * code table with its length when bit 0x02 is set, then the application
   * header with its length.
   */
  function WriteHeader(flags: byte, secondaryId: byte, codeTable: seq<byte>, appHeader: seq<byte>): seq<byte> {
    HeaderFront(flags, secondaryId, codeTable) + EncodeVarLength(|appHeader|) + appHeader
  }

  lemma SliceOfConcat(a: seq<byte>, b: seq<byte>, c: seq<byte>)
    ensures (a + b + c)[|a|..|a| + |b|] == b
  {
    assert (a + b + c)[|a|..|a| + |b|] == (a + b)[|a|..];
  }

  /** A length-prefixed code table is skipped exactly. */
  lemma SkipCodeTable(data: seq<byte>, flags: byte, pos: nat, codeTable: seq<byte>)
    requires HasCodeTable(flags) && |codeTable| < STREAMOFF_LIMIT
    requires pos + |EncodeVarLength(|codeTable|)| <= |data|
    requires data[pos..pos + |EncodeVarLength(|codeTable|)|] == EncodeVarLength(|codeTable|)
    ensures CodeTableEnd(data, flags, pos) == Some(pos + |EncodeVarLength(|codeTable|)| + |codeTable|)
  {
    DecodeEncoded(data, pos, |codeTable|);
  }

  /** A length-prefixed application header is read exactly. */
  lemma ReadAppHeader(data: seq<byte>, pos: nat, appHeader: seq<byte>, heapLimit: nat)
    requires |appHeader| < SIZE_T_LIMIT
    requires pos + |EncodeVarLength(|appHeader|)| + |appHeader| <= |data|
    requires data[pos..pos + |EncodeVarLength(|appHeader|)|] == EncodeVarLength(|appHeader|)
    requires data[pos + |EncodeVarLength(|appHeader|)|..pos + |EncodeVarLength(|appHeader|)| + |appHeader|] == appHeader
    ensures AppHeaderAt(data, pos, heapLimit)
         == if |appHeader| < 2 then Skipped(ShortAppHeader)
            else if |appHeader| + 1 == SIZE_T_LIMIT then BufferOverrun
            else if |appHeader| + 1 > heapLimit then AllocFailure
            else AppHeaderText(appHeader)
  {
    DecodeEncoded(data, pos, |appHeader|);
  }

  /** The part of a written header before the application header's length. */
  function HeaderFront(flags: byte, secondaryId: byte, codeTable: seq<byte>): seq<byte> {
    MAGIC + [VERSION, flags]
      + (if HasSecondaryId(flags) then [secondaryId] else [])
      + (if HasCodeTable(flags) then EncodeVarLength(|codeTable|) + codeTable else [])
  }

  lemma ParseAfterIndicator(data: seq<byte>, heapLimit: nat)
    requires |data| >= 5 && data[..5] == MAGIC + [VERSION, data[4]] && HasAppHeader(data[4])
    ensures ParseDescription(data, heapLimit)
         == match CodeTableEnd(data, data[4], if HasSecondaryId(data[4]) then 6 else 5)
            case None => OutOfBytes
            case Some(pos) => AppHeaderAt(data, pos, heapLimit)
  {
    assert data[0] == 0xD6 && data[1] == 0xC3 && data[2] == 0xC4 && data[3] == VERSION;
  }

  /** Whatever follows the front of a written header, the reader's position after the code table is the end of that front. */
  lemma FrontSkipped(flags: byte, secondaryId: byte, codeTable: seq<byte>, tail: seq<byte>)
    requires |codeTable| < STREAMOFF_LIMIT
    ensures CodeTableEnd(HeaderFront(flags, secondaryId, codeTable) + tail, flags, if HasSecondaryId(flags) then 6 else 5)
         == Some(|HeaderFront(flags, secondaryId, codeTable)|)
  {
    var idPart: seq<byte> := if HasSecondaryId(flags) then [secondaryId] else [];
    var front := MAGIC + [VERSION, flags] + idPart;
    if HasCodeTable(flags) {
      var tableLen := EncodeVarLength(|codeTable|);
      var data := HeaderFront(flags, secondaryId, codeTable) + tail;
      assert data == front + tableLen + (codeTable + tail);
      SliceOfConcat(front, tableLen, codeTable + tail);
      SkipCodeTable(data, flags, |front|, codeTable);
    }
  }

  /**
   * The reader finds the application header where the writer put it, whatever
   * secondary-compressor id and code table come before it and whatever
   * follows it.
   */
  lemma LocateAppHeader(
    flags: byte, secondaryId: byte, codeTable: seq<byte>, appHeader: seq<byte>, rest: seq<byte>, heapLimit: nat)
    requires HasAppHeader(flags)
    requires |codeTable| < STREAMOFF_LIMIT && |appHeader| < SIZE_T_LIMIT
    ensures ParseDescription(WriteHeader(flags, secondaryId, codeTable, appHeader) + rest, heapLimit)
         == if |appHeader| < 2 then Skipped(ShortAppHeader)
            else if |appHeader| + 1 == SIZE_T_LIMIT then BufferOverrun
            else if |appHeader| + 1 > heapLimit then AllocFailure
            else AppHeaderText(appHeader)
  {
    var front := HeaderFront(flags, secondaryId, codeTable);
    var appLen := EncodeVarLength(|appHeader|);
    var tail := appLen + appHeader + rest;
    var data := front + tail;
    assert WriteHeader(flags, secondaryId, codeTable, appHeader) + rest == data;
    FrontStart(flags, secondaryId, codeTable, tail);
    ParseAfterIndicator(data, heapLimit);
    FrontSkipped(flags, secondaryId, codeTable, tail);
    LengthThenBody(front, appLen, appHeader, rest);
    ReadAppHeader(data, |front|, appHeader, heapLimit);
  }

  /** A written header starts with the magic, the version and the indicator, whatever follows its front. */
  lemma FrontStart(flags: byte, secondaryId: byte, codeTable: seq<byte>, tail: seq<byte>)
    ensures var data := HeaderFront(flags, secondaryId, codeTable) + tail;
      |data| >= 5 && data[..5] == MAGIC + [VERSION, flags] && data[4] == flags
  {
    var data := HeaderFront(flags, secondaryId, codeTable) + tail;
    var start := MAGIC + [VERSION, flags];
    assert |start| == 5;
    assert HeaderFront(flags, secondaryId, codeTable) == start + HeaderFront(flags, secondaryId, codeTable)[5..];
    assert data[..5] == start;
  }

  /** Where the length and the body of a length-prefixed field sit behind a front. */
  lemma LengthThenBody(front: seq<byte>, len: seq<byte>, body: seq<byte>, rest: seq<byte>)
    ensures var data := front + (len + body + rest);
      && |front| + |len| + |body| <= |data|
      && data[|front|..|front| + |len|] == len
      && data[|front| + |len|..|front| + |len| + |body|] == body
  {
    var data := front + (len + body + rest);
    assert data == front + len + (body + rest);
    SliceOfConcat(front, len, body + rest);
    assert data == front + len + body + rest;
    SliceOfConcat(front + len, body, rest);
  }

  /**
   * The application header written for a description carries that
   * description: reading it back gives the description with its line ends
   * normalised, and an empty description leaves no description to read.
   */
  lemma EncodedDescriptionText(d: ByteString)
    ensures |EncodeDescription(d)| >= 2
    ensures AppHeaderText(ToBytes(EncodeDescription(d)))
         == if d == "" then Skipped(NotDescription) else Found(NormalizeLineEnds(d))
  {
    var e := EncodeDescription(d);
    FromToBytes(e);
    if d != "" {
      var b := ToBytes(d);
      var encoded := Base64.Encode(b);
      Base64.EncodeIsAscii(b);
      assert e == DESCRIPTION_MARKER + encoded;
      assert NUL !in e;
      UntilNulKeepsNulFree(e);
      assert e[2..] == encoded;
      Base64.DecodeEncode(b);
      FromToBytes(d);
    }
  }

  /**
   * Round trip of the description: a patch whose header carries
   * `EncodeDescription(d)` reads back as `d` with normalised line ends, and as
   * no description at all when `d` is empty.
   */
  lemma DescriptionRoundTrip(
    d: ByteString, flags: byte, secondaryId: byte, codeTable: seq<byte>, rest: seq<byte>, heapLimit: nat)
    requires HasAppHeader(flags)
    requires |codeTable| < STREAMOFF_LIMIT && |EncodeDescription(d)| + 1 < SIZE_T_LIMIT
    requires |EncodeDescription(d)| < heapLimit
    ensures ParseDescription(WriteHeader(flags, secondaryId, codeTable, ToBytes(EncodeDescription(d))) + rest, heapLimit)
         == if d == "" then Skipped(NotDescription) else Found(NormalizeLineEnds(d))
  {
    EncodedDescriptionText(d);
    LocateAppHeader(flags, secondaryId, codeTable, ToBytes(EncodeDescription(d)), rest, heapLimit);
  }

  /** Skips the code table when the indicator announces one; None when its length runs off the end of the file. */
  method SkipTable(data: seq<byte>, flags: byte, pos: nat) returns (r: Option<nat>)
    ensures r == CodeTableEnd(data, flags, pos)
  {
    if !HasCodeTable(flags) {
      return Some(pos);
    }
    var table := DecodeVarLength(data, pos);
    if table.Unterminated? {
      return None;
    }
    var target := table.next + AsStreamOff(table.value);
    if target < 0 {
      return None;
    }
    return Some(target);
  }

  /** Checks the `^*` marker of an application header and decodes the base 64 text after it. */
  method DecodeAppHeaderText(app: seq<byte>) returns (outcome: DescResult, buf: seq<byte>)
    requires |app| >= 2
    ensures outcome == AppHeaderText(app)
    ensures outcome.Found? ==> outcome.text == NormalizeLineEnds(FromBytes(buf))
  {
    buf := [];
    var temp := FromBytes(app);
    if temp[0] != '^' || temp[1] != '*' {
      return Skipped(NotDescription), buf;
    }
    var part := UntilNul(temp)[2..];
    var decoded := Base64.Decode(part);
    if decoded.None? {
      return Skipped(Undecodable), buf;
    }
    buf := decoded.value;
    return Found(NormalizeLineEnds(FromBytes(buf))), buf;
  }

  /**
   * Reads the application header whose length starts at `pos`, checks its
   * `^*` marker and decodes the base 64 text after it. `buf` is the decoded
   * description before its line ends are normalised.
   */
  method ReadApplicationHeader(data: seq<byte>, pos: nat, heapLimit: nat) returns (outcome: DescResult, buf: seq<byte>)
    ensures outcome == AppHeaderAt(data, pos, heapLimit)
    ensures outcome.Found? ==> outcome.text == NormalizeLineEnds(FromBytes(buf))
  {
    buf := [];
    var app := DecodeVarLength(data, pos);
    if app.Unterminated? {
      return OutOfBytes, buf;
    }
    var length, start := app.value, app.next;
    if length < 2 {
      return Skipped(ShortAppHeader), buf;
    }
    if length + 1 == SIZE_T_LIMIT {
      return BufferOverrun, buf;
    }
    if length + 1 > heapLimit {
      return AllocFailure, buf;
    }
    if start + length > |data| {
      return OutOfBytes, buf;
    }
    var header := data[start..start + length];
    AppHeaderInside(data, pos, heapLimit, length, start);
    outcome, buf := DecodeAppHeaderText(header);
  }

  /**
   * The header checks of `DecodeDescription` in file order: magic, version,
   * indicator, secondary-compressor id, code table, then the application
   * header. `buf` is the decoded description before its line ends are
   * normalised.
   */
  method DecodeHeader(data: seq<byte>, heapLimit: nat) returns (outcome: DescResult, buf: seq<byte>)
    ensures outcome == ParseDescription(data, heapLimit)
    ensures outcome.Found? ==> outcome.text == NormalizeLineEnds(FromBytes(buf))
  {
    buf := [];
    if |data| < 3 {
      return OutOfBytes, buf;
    }
    if data[0] != 0xD6 || data[1] != 0xC3 || data[2] != 0xC4 {
      return Skipped(BadMagic), buf;
    }
    if |data| < 4 {
      return OutOfBytes, buf;
    }
    if data[3] != VERSION {
      return Skipped(BadVersion), buf;
    }
    if |data| < 5 {
      return OutOfBytes, buf;
    }
    var flags := data[4];
    if !HasAppHeader(flags) {
      return Skipped(NoAppHeader), buf;
    }
    assert data[..5] == MAGIC + [VERSION, flags];
    ParseAfterIndicator(data, heapLimit);
    var pos: nat := 5;
    if HasSecondaryId(flags) {
      pos := pos + 1;
    }
    var tableEnd := SkipTable(data, flags, pos);
    if tableEnd.None? {
      return OutOfBytes, buf;
    }
    outcome, buf := ReadApplicationHeader(data, tableEnd.value, heapLimit);
  }

  /**
   * A patch that ends inside the application header's length: the checked
   * reader reports `OutOfBytes`, whereas the source's loop reads 0x80, fails
   * on the next read with the continuation bit still in `byte`, and never
   * returns.
   */
  lemma TruncatedHeaderSpins(heapLimit: nat, fuel: nat)
    ensures ParseDescription([0xD6, 0xC3, 0xC4, 0x00, 0x04, 0x80], heapLimit) == OutOfBytes
    ensures LoopAsWritten([0xD6, 0xC3, 0xC4, 0x00, 0x04, 0x80], LoopStart(5), fuel) == None
  {
    var data: seq<byte> := [0xD6, 0xC3, 0xC4, 0x00, 0x04, 0x80];
    assert ScanFrom(data, 5, 0) == ScanFrom(data, 6, Step(0, 0x80));
    UnterminatedSpins(data, 5, fuel);
  }
}
