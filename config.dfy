/**
 * The patch configuration of `XDeltaConfig`: its limits, its defaults, the
 * table of source-window sizes and the names of the secondary compressors.
 */
module Config {

  /** A C++ `int` (and a JNI `jint`, and a Kotlin `Int`): 32 bits, signed. */
  type Int32 = x: int | -0x8000_0000 <= x < 0x8000_0000

  const SECONDARY_COMP_LENGTH: Int32 := 4
  const SRC_WINDOW_SIZE_LENGTH: Int32 := 8

  const MIN_COMPRESSION_LEVEL: Int32 := 0
  const MAX_COMPRESSION_LEVEL: Int32 := 9
  const DEFAULT_COMPRESSION_LEVEL: Int32 := 5
  const DEFAULT_SECONDARY_COMPRESSION: Int32 := SECONDARY_COMP_LENGTH - 1
  /** The window size that lets xdelta3 choose; it is left off the command line. */
  const SRC_WINDOW_SIZE_AUTO: Int32 := -1

  /** One mebibyte, `1 << 20`. */
  const MIB: int := 0x10_0000

  /** The source-window sizes the settings offer, in bytes: `8 << 20` up to `1024 << 20`. */
  const SrcWindowSizes: seq<Int32> := [
    8 * MIB, 16 * MIB, 32 * MIB, 64 * MIB, 128 * MIB, 256 * MIB, 512 * MIB, 1024 * MIB
  ]

  /** The names xdelta3 knows the secondary compressors by, in settings order. */
  const SecondaryCompressions: seq<string> := ["lzma", "djw", "fgk", "none"]

  /** The fields of `XDeltaConfig`. */
  datatype XDeltaConfig = XDeltaConfig(
    compressionLevel: Int32,
    secondaryCompression: Int32,
    enableChecksum: bool,
    overwriteOutput: bool,
    srcWindowSize: Int32)

  /**
   * The configuration `XDeltaConfig()` builds: a compression level inside the
   * allowed range, no secondary compression, checksums on, output overwritten,
   * window size left to xdelta3.
   */
  function DefaultConfig(): (c: XDeltaConfig)
    ensures MIN_COMPRESSION_LEVEL <= c.compressionLevel <= MAX_COMPRESSION_LEVEL
    ensures 0 <= c.secondaryCompression < |SecondaryCompressions|
    ensures SecondaryCompressions[c.secondaryCompression] == "none"
    ensures c.enableChecksum && c.overwriteOutput
    ensures c.srcWindowSize == SRC_WINDOW_SIZE_AUTO
  {
    XDeltaConfig(
      DEFAULT_COMPRESSION_LEVEL, DEFAULT_SECONDARY_COMPRESSION, true, true, SRC_WINDOW_SIZE_AUTO)
  }

  /** 2 to the power `n`. */
  function Pow2(n: nat): (r: nat)
    ensures r >= 1
  {
    if n == 0 then 1 else 2 * Pow2(n - 1)
  }

  /**
   * The window table has one entry per settings choice after "Auto"; entry
   * `i` is 8 * 2^i MiB, so each entry doubles the one before.
   */
  lemma WindowSizesDouble()
    ensures |SrcWindowSizes| == SRC_WINDOW_SIZE_LENGTH
    ensures SrcWindowSizes[0] == 8 * MIB
    ensures forall i :: 0 < i < |SrcWindowSizes| ==> SrcWindowSizes[i] == 2 * SrcWindowSizes[i - 1]
  {
  }

  /** Entry `i` of the window table is `8 * 2^i` MiB. */
  lemma {:induction false} WindowSizeIsPowerOfTwo(i: nat)
    requires i < |SrcWindowSizes|
    ensures SrcWindowSizes[i] == 8 * Pow2(i) * MIB
  {
    WindowSizesDouble();
    if i > 0 {
      WindowSizeIsPowerOfTwo(i - 1);
    }
  }

  /**
   * The entries strictly increase and are all positive, so none of them can be
   * mistaken for `SRC_WINDOW_SIZE_AUTO`.
   */
  lemma WindowSizesIncreasing()
    ensures forall i, j :: 0 <= i < j < |SrcWindowSizes| ==> SrcWindowSizes[i] < SrcWindowSizes[j]
    ensures forall i :: 0 <= i < |SrcWindowSizes| ==> 0 < SrcWindowSizes[i] && SrcWindowSizes[i] != SRC_WINDOW_SIZE_AUTO
  {
  }

  /** The name table has `SECONDARY_COMP_LENGTH` entries, so the default index is its last one. */
  lemma SecondaryNames()
    ensures |SecondaryCompressions| == SECONDARY_COMP_LENGTH
    ensures DEFAULT_SECONDARY_COMPRESSION == |SecondaryCompressions| - 1
  {
  }
}
