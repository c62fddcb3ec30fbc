/**
 * The variable-length integers of section 2 of RFC 3284 (VCDIFF): base-128
 * digits, most significant first, every digit but the last with its high bit
 * set. The reader accumulates into a 64-bit `size_t`, so digits beyond the
 * first 64 bits of value shift out.
 */
module VarLength {
  import opened Wrappers
  import opened Bytes

  /** 2^64: the range of `size_t`. */
  const SIZE_T_LIMIT: nat := 0x1_0000_0000_0000_0000

  /** 2^57: the part of the accumulator that survives a shift left by seven on a 64-bit value. */
  const SHIFT_LIMIT: nat := 0x200_0000_0000_0000

  /** The byte has its continuation bit (`b & 0x80`) set. */
  predicate Continues(b: byte) {
    b >= 0x80
  }

  /** The seven value bits of a digit (`b & 0x7F`). */
  function Low7(b: byte): (r: nat)
    ensures r < 128
  {
    b as int % 0x80
  }

  /** One loop step of the reader: `(acc << 7) | (b & 0x7F)` on a 64-bit accumulator. */
  function Step(acc: nat, b: byte): (r: nat)
    ensures r < SIZE_T_LIMIT
    ensures r % 128 == Low7(b)
    ensures acc < SHIFT_LIMIT ==> r == acc * 128 + Low7(b)
  {
    (acc % SHIFT_LIMIT) * 128 + Low7(b)
  }

  /** Outcome of reading one integer: its value and the position after its last digit, or the data ended before a digit without the continuation bit. */
  datatype Scan = Scanned(value: nat, next: nat) | Unterminated

  /**
   * Reading digits from `pos` onwards with `acc` accumulated so far. The
   * integer ends at the first byte whose continuation bit is clear.
   */
  function ScanFrom(data: seq<byte>, pos: nat, acc: nat): (r: Scan)
    decreases |data| - pos
    ensures r.Scanned? ==> pos < r.next <= |data| && r.value < SIZE_T_LIMIT
    ensures r.Scanned? ==> !Continues(data[r.next - 1])
    ensures r.Scanned? ==> forall k :: pos <= k < r.next - 1 ==> Continues(data[k])
    ensures r.Unterminated? ==> forall k :: pos <= k < |data| ==> Continues(data[k])
  {
    if pos >= |data| then Unterminated
    else if Continues(data[pos]) then ScanFrom(data, pos + 1, Step(acc, data[pos]))
    else Scanned(Step(acc, data[pos]), pos + 1)
  }

  /**
   * `XDeltaPatch::DecodeVarLength` with the end of the data checked: reads
   * one integer starting at `pos` and reports `Unterminated` when the data
   * ends first, where the source's loop never exits (`LoopAsWritten`). The
   * loop keeps the value the rest of the digits would produce equal to the
   * value of the whole integer.
   */
  method DecodeVarLength(data: seq<byte>, pos: nat) returns (r: Scan)
    ensures r == ScanFrom(data, pos, 0)
  {
    var length: nat := 0;
    var p := pos;
    while true
      invariant ScanFrom(data, p, length) == ScanFrom(data, pos, 0)
      decreases |data| - p
    {
      if p >= |data| {
        return Unterminated;
      }
      var byte := data[p];
      length := Step(length, byte);
      p := p + 1;
      if !Continues(byte) {
        return Scanned(length, p);
      }
    }
  }

  /** The leading digits of an encoding: every one carries the continuation bit. */
  function LeadingDigits(m: nat): (r: seq<byte>)
    ensures forall k :: 0 <= k < |r| ==> Continues(r[k])
  {
    if m == 0 then [] else LeadingDigits(m / 128) + [(m % 128 + 128) as byte]
  }

  /** The encoder of section 2 of RFC 3284: the base-128 digits of `n`, most significant first. */
  function EncodeVarLength(n: nat): (r: seq<byte>)
    ensures 1 <= |r|
    ensures !Continues(r[|r| - 1])
    ensures forall k :: 0 <= k < |r| - 1 ==> Continues(r[k])
  {
    LeadingDigits(n / 128) + [(n % 128) as byte]
  }

  /** Reading the leading digits of `m` from a zero accumulator leaves exactly `m` accumulated. */
  lemma {:induction false} ScanLeadingDigits(data: seq<byte>, pos: nat, m: nat)
    requires m < SHIFT_LIMIT
    requires pos + |LeadingDigits(m)| <= |data|
    requires data[pos..pos + |LeadingDigits(m)|] == LeadingDigits(m)
    ensures ScanFrom(data, pos, 0) == ScanFrom(data, pos + |LeadingDigits(m)|, m)
  {
    if m != 0 {
      var front := LeadingDigits(m / 128);
      var q := pos + |front|;
      var all := LeadingDigits(m);
      assert all[..|front|] == front;
      assert data[pos..pos + |all|][..|front|] == data[pos..q];
      ScanLeadingDigits(data, pos, m / 128);
      assert data[q] == data[pos..pos + |all|][|front|];
      assert Step(m / 128, data[q]) == m;
    }
  }

  /**
   * Round trip: the reader applied to the encoding of any `size_t` value
   * returns that value and stops right after the encoding, whatever follows.
   */
  lemma DecodeEncoded(data: seq<byte>, pos: nat, n: nat)
    requires n < SIZE_T_LIMIT
    requires pos + |EncodeVarLength(n)| <= |data|
    requires data[pos..pos + |EncodeVarLength(n)|] == EncodeVarLength(n)
    ensures ScanFrom(data, pos, 0) == Scanned(n, pos + |EncodeVarLength(n)|)
  {
    var e := EncodeVarLength(n);
    var front := LeadingDigits(n / 128);
    assert e[..|front|] == front;
    assert data[pos..pos + |e|][..|front|] == data[pos..pos + |front|];
    ScanLeadingDigits(data, pos, n / 128);
    assert data[pos + |front|] == data[pos..pos + |e|][|front|];
  }

  /** The variables of the source's loop: the stream position, `length` and `byte`. */
  datatype LoopState = LoopState(pos: nat, length: nat, byte: byte)

  /** The state before the first pass: nothing read, `length` and `byte` zero. */
  function LoopStart(pos: nat): LoopState {
    LoopState(pos, 0, 0)
  }

  /**
   * One pass of the source's loop body: `length <<= 7`, `file.read` of one
   * byte, `length |= byte & 0x7F`. A read at the end of the data fails and
   * leaves `byte` as it was.
   */
  function LoopBody(data: seq<byte>, s: LoopState): (r: LoopState)
    ensures s.pos < |data| ==> r == LoopState(s.pos + 1, Step(s.length, data[s.pos]), data[s.pos])
    ensures s.pos >= |data| ==> r == LoopState(s.pos, Step(s.length, s.byte), s.byte)
  {
    var read := if s.pos < |data| then s.(pos := s.pos + 1, byte := data[s.pos]) else s;
    read.(length := Step(s.length, read.byte))
  }

  /**
   * The do-while loop of `DecodeVarLength` as written, run for at most
   * `fuel` passes: the state it exits with, or None while it is still
   * running. It exits only on a byte without the continuation bit.
   */
  function LoopAsWritten(data: seq<byte>, s: LoopState, fuel: nat): (r: Option<LoopState>)
    decreases fuel
    ensures r.Some? ==> !Continues(r.value.byte)
  {
    if fuel == 0 then None
    else
      var next := LoopBody(data, s);
      if Continues(next.byte) then LoopAsWritten(data, next, fuel - 1) else Some(next)
  }

  /**
   * Where the integer is complete, the loop as written exits after reading
   * it, with the value and the position the checked reader reports.
   */
  lemma {:induction false} LoopMatchesScan(data: seq<byte>, s: LoopState, fuel: nat)
    requires ScanFrom(data, s.pos, s.length).Scanned?
    requires fuel >= ScanFrom(data, s.pos, s.length).next - s.pos
    ensures var r := ScanFrom(data, s.pos, s.length);
      LoopAsWritten(data, s, fuel) == Some(LoopState(r.next, r.value, data[r.next - 1]))
    decreases |data| - s.pos
  {
    var next := LoopBody(data, s);
    if Continues(data[s.pos]) {
      LoopMatchesScan(data, next, fuel - 1);
    }
  }

  /**
   * Once every byte left carries the continuation bit, and so does `byte`
   * whenever the data is already used up, the loop as written never exits:
   * a failed read keeps the continuation bit in `byte`.
   */
  lemma {:induction false} TruncatedIntegerSpins(data: seq<byte>, s: LoopState, fuel: nat)
    requires forall k :: s.pos <= k < |data| ==> Continues(data[k])
    requires s.pos < |data| || Continues(s.byte)
    ensures LoopAsWritten(data, s, fuel) == None
    decreases fuel
  {
    if fuel > 0 {
      var next := LoopBody(data, s);
      assert Continues(next.byte);
      TruncatedIntegerSpins(data, next, fuel - 1);
    }
  }

  /**
   * An integer that starts inside the data but is cut off by its end, which
   * the checked reader reports as `Unterminated`, keeps the loop as written
   * running for ever.
   */
  lemma UnterminatedSpins(data: seq<byte>, pos: nat, fuel: nat)
    requires pos < |data| && ScanFrom(data, pos, 0).Unterminated?
    ensures LoopAsWritten(data, LoopStart(pos), fuel) == None
  {
    TruncatedIntegerSpins(data, LoopStart(pos), fuel);
  }

  /** An integer read at the very end of the data: the first read fails, `byte` stays 0 and the loop exits with 0. */
  lemma EndOfDataReadsZero(data: seq<byte>, pos: nat, fuel: nat)
    requires pos >= |data| && fuel >= 1
    ensures LoopAsWritten(data, LoopStart(pos), fuel) == Some(LoopState(pos, 0, 0))
  {
  }
}
