/**
 * The line-end normalisation applied to a description read from a patch:
 * first every CR LF pair becomes LF, then every remaining CR becomes LF.
 */
module LineEnds {
  import opened Text

  const CR: char := '\r'
  const LF: char := '\n'

  /** The first replacement pass, scanning left to right: each CR LF pair becomes one LF. */
  function ReplaceCrLf(s: string): (r: string)
    ensures |r| <= |s|
    ensures forall c :: c in r ==> c in s
  {
    if |s| < 2 then s
    else if s[0] == CR && s[1] == LF then [LF] + ReplaceCrLf(s[2..])
    else
      var rest := ReplaceCrLf(s[1..]);
      assert forall c :: c in rest ==> c in s[1..];
      [s[0]] + rest
  }

  function CrToLf(c: char): char {
    if c == CR then LF else c
  }

  /** The second pass: each remaining CR becomes LF. */
  function ReplaceCr(s: string): (r: string)
    ensures |r| == |s|
    ensures forall i :: 0 <= i < |s| ==> r[i] == CrToLf(s[i])
  {
    seq(|s|, i requires 0 <= i < |s| => CrToLf(s[i]))
  }

  /** What `DecodeDescription` does to the decoded description. */
  function NormalizeLineEnds(s: string): string {
    ReplaceCr(ReplaceCrLf(s))
  }

  /**
   * The normalisation read as one left-to-right pass: a CR LF pair and a lone
   * CR each end a line with one LF; every other character is kept.
   */
  function OnePass(s: string): string {
    if s == [] then []
    else if s[0] == CR && |s| >= 2 && s[1] == LF then [LF] + OnePass(s[2..])
    else [CrToLf(s[0])] + OnePass(s[1..])
  }

  lemma ReplaceCrConcat(a: string, b: string)
    ensures ReplaceCr(a + b) == ReplaceCr(a) + ReplaceCr(b)
  {
  }

  /** The two passes of the source compute the one-pass normalisation. */
  lemma {:induction false} NormalizeIsOnePass(s: string)
    ensures NormalizeLineEnds(s) == OnePass(s)
  {
    if |s| < 2 {
      if |s| == 1 {
        assert OnePass(s) == [CrToLf(s[0])] + OnePass(s[1..]);
      }
    } else if s[0] == CR && s[1] == LF {
      NormalizeIsOnePass(s[2..]);
      ReplaceCrConcat([LF], ReplaceCrLf(s[2..]));
    } else {
      NormalizeIsOnePass(s[1..]);
      ReplaceCrConcat([s[0]], ReplaceCrLf(s[1..]));
    }
  }

  lemma {:induction false} OnePassHasNoCr(s: string)
    ensures CR !in OnePass(s)
  {
    if s != [] {
      if s[0] == CR && |s| >= 2 && s[1] == LF {
        OnePassHasNoCr(s[2..]);
      } else {
        OnePassHasNoCr(s[1..]);
      }
    }
  }

  lemma {:induction false} OnePassKeepsCrFree(s: string)
    requires CR !in s
    ensures OnePass(s) == s
  {
    if s != [] {
      assert s[0] != CR;
      OnePassKeepsCrFree(s[1..]);
    }
  }

  /** A normalised description holds no CR at all. */
  lemma NormalizedHasNoCr(s: string)
    ensures CR !in NormalizeLineEnds(s)
  {
    NormalizeIsOnePass(s);
    OnePassHasNoCr(s);
  }

  /** A description without CR is left as it is. */
  lemma NormalizeKeepsCrFree(s: string)
    requires CR !in s
    ensures NormalizeLineEnds(s) == s
  {
    NormalizeIsOnePass(s);
    OnePassKeepsCrFree(s);
  }

  /** Normalising twice is normalising once. */
  lemma NormalizeIdempotent(s: string)
    ensures NormalizeLineEnds(NormalizeLineEnds(s)) == NormalizeLineEnds(s)
  {
    NormalizedHasNoCr(s);
    NormalizeKeepsCrFree(NormalizeLineEnds(s));
  }

  /** Normalisation only ever writes LF, so it keeps a string within the characters it had plus LF. */
  lemma NormalizeCharacters(s: string)
    ensures forall c :: c in NormalizeLineEnds(s) ==> c in s || c == LF
  {
    var t := ReplaceCrLf(s);
    forall c | c in NormalizeLineEnds(s)
      ensures c in s || c == LF
    {
      var i :| 0 <= i < |t| && ReplaceCr(t)[i] == c;
      assert t[i] in t;
    }
  }

  /** A CR LF pair starts at `i`. */
  lemma PairAt(t: string, i: nat)
    requires i + 2 <= |t|
    ensures OccursAt(t, [CR, LF], i) <==> t[i] == CR && t[i + 1] == LF
  {
    if t[i] == CR && t[i + 1] == LF {
      assert t[i..i + 2] == [CR, LF];
    }
  }

  /** Where no CR LF pair starts, the first pass copies one character. */
  lemma CopyStep(u: string)
    requires |u| > 0 && !(|u| >= 2 && u[0] == CR && u[1] == LF)
    ensures ReplaceCrLf(u) == [u[0]] + ReplaceCrLf(u[1..])
  {
    if |u| == 1 {
      assert u[1..] == [];
    }
  }

  /** Before the first CR LF pair at or after `from`, the first pass copies characters unchanged. */
  lemma {:induction false} CrLfCopyUntil(t: string, from: nat, k: nat)
    requires from <= k <= |t|
    requires forall i: nat :: from <= i < k ==> !OccursAt(t, [CR, LF], i)
    ensures ReplaceCrLf(t[from..]) == t[from..k] + ReplaceCrLf(t[k..])
    decreases k - from
  {
    if from < k {
      var u := t[from..];
      assert u[1..] == t[from + 1..];
      if |u| >= 2 {
        PairAt(t, from);
      }
      CopyStep(u);
      CrLfCopyUntil(t, from + 1, k);
      assert t[from..k] == [t[from]] + t[from + 1..k];
    }
  }

  /** At a CR LF pair the first pass writes one LF and goes on after the pair. */
  lemma CrLfAt(t: string, k: nat)
    requires OccursAt(t, [CR, LF], k)
    ensures ReplaceCrLf(t[k..]) == [LF] + ReplaceCrLf(t[k + 2..])
  {
    PairAt(t, k);
    assert t[k..][2..] == t[k + 2..];
  }

  /**
   * One step of the in-place first pass: replacing the first CR LF pair at
   * or after `pos` by LF, and resuming after it, keeps what the pass will
   * produce.
   */
  lemma PairReplaced(d: string, pos: nat, at: nat)
    requires pos <= at && OccursAt(d, [CR, LF], at)
    requires forall i: nat :: pos <= i < at ==> !OccursAt(d, [CR, LF], i)
    ensures var e := d[..at] + [LF] + d[at + 2..];
      at + 1 <= |e| && e[..at + 1] + ReplaceCrLf(e[at + 1..]) == d[..pos] + ReplaceCrLf(d[pos..])
  {
    CrLfCopyUntil(d, pos, at);
    CrLfAt(d, at);
    SpliceParts(d, at, LF);
    PrefixParts(d, pos, at);
  }

  /** The two sides of a pair replaced by one element. */
  lemma SpliceParts<T>(d: seq<T>, at: nat, x: T)
    requires at + 2 <= |d|
    ensures var e := d[..at] + [x] + d[at + 2..];
      at + 1 <= |e| && e[..at + 1] == d[..at] + [x] && e[at + 1..] == d[at + 2..]
  {
    var e := d[..at] + [x] + d[at + 2..];
    assert e[..at + 1] == d[..at] + [x];
    assert e[at + 1..] == d[at + 2..];
  }

  lemma PrefixParts<T>(d: seq<T>, pos: nat, at: nat)
    requires pos <= at <= |d|
    ensures d[..at] == d[..pos] + d[pos..at]
  {
  }

  /** With no CR LF pair at or after `pos`, the first pass leaves the rest as it is. */
  lemma NoPairLeft(d: string, pos: nat)
    requires pos <= |d|
    requires forall i: nat :: pos <= i ==> !OccursAt(d, [CR, LF], i)
    ensures d[..pos] + ReplaceCrLf(d[pos..]) == d
  {
    CrLfCopyUntil(d, pos, |d|);
    assert d[..pos] + d[pos..] == d;
  }
}

