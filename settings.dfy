/**
 * The app's settings: five values kept in the preferences store under
 * fixed keys, read once when the settings object is made and written back
 * by each update, and the option tables the settings screen offers.
 */
module Settings {
  import opened Text
  import opened Config
  import Native

  const KEY_USE_MONET := "use_monet"
  const KEY_USE_CHECKSUM := "use_checksum"
  const KEY_COMPRESSION_LEVEL := "compression_level"
  const KEY_SECONDARY_COMPRESSION := "secondary_compression"
  const KEY_SRC_WINDOW_SIZE := "src_window_size"

  const DEFAULT_USE_MONET := true
  const DEFAULT_USE_CHECKSUM := true
  const DEFAULT_LEVEL: Int32 := 5
  const DEFAULT_SECONDARY: Int32 := 3
  const DEFAULT_WINDOW: Int32 := 0

  /** The stored booleans and integers, by key. */
  type BoolPrefs = map<string, bool>
  type IntPrefs = map<string, Int32>

  /** `getBoolean(key, default)`. */
  function GetBoolean(prefs: BoolPrefs, key: string, default: bool): bool {
    if key in prefs then prefs[key] else default
  }

  /** `getInt(key, default)`. */
  function GetInt(prefs: IntPrefs, key: string, default: Int32): Int32 {
    if key in prefs then prefs[key] else default
  }

  class SettingsEntries {
    var useMonet: bool
    var useChecksum: bool
    var compressionLevel: Int32
    var secondaryCompression: Int32
    var srcWindowSize: Int32
    var bools: BoolPrefs
    var ints: IntPrefs

    /** Every value is the one stored under its key, or its default when nothing is stored. */
    predicate Valid()
      reads this
    {
      && useMonet == GetBoolean(bools, KEY_USE_MONET, DEFAULT_USE_MONET)
      && useChecksum == GetBoolean(bools, KEY_USE_CHECKSUM, DEFAULT_USE_CHECKSUM)
      && compressionLevel == GetInt(ints, KEY_COMPRESSION_LEVEL, DEFAULT_LEVEL)
      && secondaryCompression == GetInt(ints, KEY_SECONDARY_COMPRESSION, DEFAULT_SECONDARY)
      && srcWindowSize == GetInt(ints, KEY_SRC_WINDOW_SIZE, DEFAULT_WINDOW)
    }

    /** `SettingsEntries(context)`: each value read from the store, with its default. */
    constructor (bools: BoolPrefs, ints: IntPrefs)
      ensures this.bools == bools && this.ints == ints
      ensures Valid()
    {
      this.bools := bools;
      this.ints := ints;
      useMonet := GetBoolean(bools, KEY_USE_MONET, DEFAULT_USE_MONET);
      useChecksum := GetBoolean(bools, KEY_USE_CHECKSUM, DEFAULT_USE_CHECKSUM);
      compressionLevel := GetInt(ints, KEY_COMPRESSION_LEVEL, DEFAULT_LEVEL);
      secondaryCompression := GetInt(ints, KEY_SECONDARY_COMPRESSION, DEFAULT_SECONDARY);
      srcWindowSize := GetInt(ints, KEY_SRC_WINDOW_SIZE, DEFAULT_WINDOW);
    }

    method UpdateUseMonet(value: bool)
      requires Valid()
      modifies this
      ensures Valid()
      ensures useMonet == value && bools == old(bools)[KEY_USE_MONET := value] && ints == old(ints)
      ensures useChecksum == old(useChecksum) && compressionLevel == old(compressionLevel)
      ensures secondaryCompression == old(secondaryCompression) && srcWindowSize == old(srcWindowSize)
    {
      useMonet := value;
      bools := bools[KEY_USE_MONET := value];
    }

    method UpdateUseChecksum(value: bool)
      requires Valid()
      modifies this
      ensures Valid()
      ensures useChecksum == value && bools == old(bools)[KEY_USE_CHECKSUM := value] && ints == old(ints)
      ensures useMonet == old(useMonet) && compressionLevel == old(compressionLevel)
      ensures secondaryCompression == old(secondaryCompression) && srcWindowSize == old(srcWindowSize)
    {
      useChecksum := value;
      bools := bools[KEY_USE_CHECKSUM := value];
    }

    /** Any integer is stored; nothing checks it against the table. */
    method UpdateCompressionLevel(value: Int32)
      requires Valid()
      modifies this
      ensures Valid()
      ensures compressionLevel == value && ints == old(ints)[KEY_COMPRESSION_LEVEL := value] && bools == old(bools)
      ensures useMonet == old(useMonet) && useChecksum == old(useChecksum)
      ensures secondaryCompression == old(secondaryCompression) && srcWindowSize == old(srcWindowSize)
    {
      compressionLevel := value;
      ints := ints[KEY_COMPRESSION_LEVEL := value];
    }

    method UpdateSecondaryCompression(value: Int32)
      requires Valid()
      modifies this
      ensures Valid()
      ensures secondaryCompression == value && ints == old(ints)[KEY_SECONDARY_COMPRESSION := value] && bools == old(bools)
      ensures useMonet == old(useMonet) && useChecksum == old(useChecksum)
      ensures compressionLevel == old(compressionLevel) && srcWindowSize == old(srcWindowSize)
    {
      secondaryCompression := value;
      ints := ints[KEY_SECONDARY_COMPRESSION := value];
    }

    method UpdateSrcWindowSize(value: Int32)
      requires Valid()
      modifies this
      ensures Valid()
      ensures srcWindowSize == value && ints == old(ints)[KEY_SRC_WINDOW_SIZE := value] && bools == old(bools)
      ensures useMonet == old(useMonet) && useChecksum == old(useChecksum)
      ensures compressionLevel == old(compressionLevel) && secondaryCompression == old(secondaryCompression)
    {
      srcWindowSize := value;
      ints := ints[KEY_SRC_WINDOW_SIZE := value];
    }
  }

  /** What a settings object made from the store holds. */
  datatype Snapshot = Snapshot(useMonet: bool, useChecksum: bool, level: Int32, secondary: Int32, window: Int32)

  function Load(bools: BoolPrefs, ints: IntPrefs): Snapshot {
    Snapshot(
      GetBoolean(bools, KEY_USE_MONET, DEFAULT_USE_MONET),
      GetBoolean(bools, KEY_USE_CHECKSUM, DEFAULT_USE_CHECKSUM),
      GetInt(ints, KEY_COMPRESSION_LEVEL, DEFAULT_LEVEL),
      GetInt(ints, KEY_SECONDARY_COMPRESSION, DEFAULT_SECONDARY),
      GetInt(ints, KEY_SRC_WINDOW_SIZE, DEFAULT_WINDOW))
  }

  /**
   * An update is remembered: after storing an integer setting, loading the
   * store again gives the new value for that setting and the old values
   * for every other.
   */
  lemma UpdateIsPersisted(bools: BoolPrefs, ints: IntPrefs, key: string, value: Int32)
    requires key in {KEY_COMPRESSION_LEVEL, KEY_SECONDARY_COMPRESSION, KEY_SRC_WINDOW_SIZE}
    ensures var before := Load(bools, ints);
      var after := Load(bools, ints[key := value]);
      && after.useMonet == before.useMonet && after.useChecksum == before.useChecksum
      && after.level == (if key == KEY_COMPRESSION_LEVEL then value else before.level)
      && after.secondary == (if key == KEY_SECONDARY_COMPRESSION then value else before.secondary)
      && after.window == (if key == KEY_SRC_WINDOW_SIZE then value else before.window)
  {
    assert KEY_COMPRESSION_LEVEL != KEY_SECONDARY_COMPRESSION && KEY_COMPRESSION_LEVEL != KEY_SRC_WINDOW_SIZE;
    assert KEY_SECONDARY_COMPRESSION != KEY_SRC_WINDOW_SIZE;
  }

  /**
   * The same for the two switches: after storing a boolean setting, loading
   * the store again gives the new value for that switch and the old values
   * for every other setting.
   */
  lemma BoolUpdateIsPersisted(bools: BoolPrefs, ints: IntPrefs, key: string, value: bool)
    requires key in {KEY_USE_MONET, KEY_USE_CHECKSUM}
    ensures var before := Load(bools, ints);
      var after := Load(bools[key := value], ints);
      && after.useMonet == (if key == KEY_USE_MONET then value else before.useMonet)
      && after.useChecksum == (if key == KEY_USE_CHECKSUM then value else before.useChecksum)
      && after.level == before.level && after.secondary == before.secondary && after.window == before.window
  {
    assert KEY_USE_MONET != KEY_USE_CHECKSUM;
  }

  /**
   * With nothing stored, the settings ask the native side for exactly the
   * configuration `XDeltaConfig()` makes: window choice 0 is "Auto".
   */
  lemma DefaultsAgreeWithNative()
    ensures var s := Load(map[], map[]);
      Native.EncodeConfig(s.useChecksum, s.level, s.secondary, s.window) == DefaultConfig()
    ensures Load(map[], map[]).useMonet
  {
    Native.DefaultChoices();
  }

  /** `COMPRESSION_LEVELS`. */
  const COMPRESSION_LEVELS: seq<(Int32, string)> := [
    (0, "0"), (1, "1"), (2, "2"), (3, "3"), (4, "4"),
    (5, "5"), (6, "6"), (7, "7"), (8, "8"), (9, "9")
  ]

  /** `SECONDARY_COMPRESSIONS`. */
  const SECONDARY_COMPRESSIONS: seq<(Int32, string)> := [(0, "LZMA"), (1, "DJW"), (2, "FGK"), (3, "None")]

  /** `SRC_WINDOW_SIZES`. */
  const SRC_WINDOW_SIZES: seq<(Int32, string)> := [
    (0, "Auto"), (1, "8 MB"), (2, "16 MB"), (3, "32 MB"), (4, "64 MB"),
    (5, "128 MB"), (6, "256 MB"), (7, "512 MB"), (8, "1024 MB")
  ]

  /**
   * The levels offered are exactly `MIN_COMPRESSION_LEVEL` to
   * `MAX_COMPRESSION_LEVEL`, in order, each labelled with its number.
   */
  lemma CompressionLevelsTable()
    ensures |COMPRESSION_LEVELS| == MAX_COMPRESSION_LEVEL - MIN_COMPRESSION_LEVEL + 1
    ensures forall i :: 0 <= i < |COMPRESSION_LEVELS| ==>
      COMPRESSION_LEVELS[i].0 == MIN_COMPRESSION_LEVEL + i && COMPRESSION_LEVELS[i].1 == IntToDecimal(i)
  {
    forall i | 0 <= i < |COMPRESSION_LEVELS|
      ensures COMPRESSION_LEVELS[i].1 == IntToDecimal(i)
    {
      assert IntToDecimal(i) == [DigitChar(i)];
    }
  }

  /**
   * The secondary compressors are offered in the order of the native name
   * table, and each label is the native name in capitals.
   */
  lemma SecondaryCompressionsTable()
    ensures |SECONDARY_COMPRESSIONS| == |SecondaryCompressions| == SECONDARY_COMP_LENGTH
    ensures forall i :: 0 <= i < |SECONDARY_COMPRESSIONS| ==>
      SECONDARY_COMPRESSIONS[i].0 == i && Lower(SECONDARY_COMPRESSIONS[i].1) == SecondaryCompressions[i]
  {
    assert Lower("LZMA") == "lzma";
    assert Lower("DJW") == "djw";
    assert Lower("FGK") == "fgk";
    assert Lower("None") == "none";
  }

  /** The decimal text of each window size in MB. */
  lemma MbLabels()
    ensures NatToDecimal(8) == "8" && NatToDecimal(16) == "16" && NatToDecimal(32) == "32"
    ensures NatToDecimal(64) == "64" && NatToDecimal(128) == "128" && NatToDecimal(256) == "256"
    ensures NatToDecimal(512) == "512" && NatToDecimal(1024) == "1024"
  {
    assert NatToDecimal(12) == "12";
    assert NatToDecimal(25) == "25";
    assert NatToDecimal(51) == "51";
    assert NatToDecimal(10) == "10";
    assert NatToDecimal(102) == "102";
  }

  /** The label of window choice `k` is the size in MB of table entry `k - 1`. */
  lemma WindowLabel(k: nat)
    requires 1 <= k < |SRC_WINDOW_SIZES|
    ensures SRC_WINDOW_SIZES[k].1 == NatToDecimal(SrcWindowSizes[k - 1] / MIB) + " MB"
  {
    MbLabels();
    var mb := SrcWindowSizes[k - 1] / MIB;
    if k == 1 {
      assert mb == 8;
    } else if k == 2 {
      assert mb == 16;
    } else if k == 3 {
      assert mb == 32;
    } else if k == 4 {
      assert mb == 64;
    } else if k == 5 {
      assert mb == 128;
    } else if k == 6 {
      assert mb == 256;
    } else if k == 7 {
      assert mb == 512;
    } else {
      assert mb == 1024;
    }
  }

  /**
   * The window choices: choice 0 is "Auto", which the native side turns
   * into `SRC_WINDOW_SIZE_AUTO`; choice k from 1 to 8 is labelled with the
   * size in MB of the entry the native side picks for it.
   */
  lemma SrcWindowSizesTable()
    ensures |SRC_WINDOW_SIZES| == SRC_WINDOW_SIZE_LENGTH + 1
    ensures SRC_WINDOW_SIZES[0] == (0, "Auto") && Native.WindowSizeFor(0) == SRC_WINDOW_SIZE_AUTO
    ensures forall k :: 1 <= k < |SRC_WINDOW_SIZES| ==>
      SRC_WINDOW_SIZES[k].0 == k
      && SRC_WINDOW_SIZES[k].1 == NatToDecimal(Native.WindowSizeFor(k) / MIB) + " MB"
  {
    forall k | 1 <= k < |SRC_WINDOW_SIZES|
      ensures SRC_WINDOW_SIZES[k].0 == k
      ensures SRC_WINDOW_SIZES[k].1 == NatToDecimal(Native.WindowSizeFor(k) / MIB) + " MB"
    {
      WindowLabel(k);
    }
  }
}
