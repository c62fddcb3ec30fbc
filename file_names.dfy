/**
 * The names the app proposes for its outputs: the patched file takes the
 * original's name with a suffix before its extension, and a new patch is
 * named after the original and modified files, joined by "_to_", with the
 * extension ".xdelta".
 */
module FileNames {
  import opened Text

  const DOT: char := '.'

  /** The part of a file name after its last dot, dot included; empty when there is no dot. */
  function Extension(name: string): (ext: string)
    ensures DOT !in name ==> ext == ""
    ensures ext != "" ==> ext[0] == DOT && DOT !in ext[1..]
  {
    var i := LastIndexOf(name, DOT);
    if i == -1 then "" else name[i..]
  }

  /** The part of a file name before its last dot; the whole name when there is no dot. */
  function Stem(name: string): (stem: string)
    ensures stem + Extension(name) == name
  {
    SubstringBeforeLast(name, DOT)
  }

  /** `generateOutputFileName`: the suffix goes between the stem and the extension. */
  function OutputFileName(inputFileName: string, suffix: string): string {
    var lastDotIndex := LastIndexOf(inputFileName, DOT);
    if lastDotIndex != -1 then
      inputFileName[..lastDotIndex] + "_" + suffix + inputFileName[lastDotIndex..]
    else
      inputFileName + "_" + suffix
  }

  /** Splitting at the last dot: earlier dots stay in the stem. */
  lemma SplitAtLastDot(stem: string, ext: string)
    requires DOT !in ext
    ensures Stem(stem + [DOT] + ext) == stem
    ensures Extension(stem + [DOT] + ext) == [DOT] + ext
  {
    LastIndexOfSplit(stem, DOT, ext);
    var name := stem + [DOT] + ext;
    assert name[..|stem|] == stem;
    assert name[|stem|..] == [DOT] + ext;
  }

  /** With a dot in the name, the suffix goes right before the last one. */
  lemma OutputWithDot(stem: string, suffix: string, ext: string)
    requires DOT !in ext
    ensures OutputFileName(stem + [DOT] + ext, suffix) == (stem + "_" + suffix) + [DOT] + ext
  {
    var name := stem + [DOT] + ext;
    LastIndexOfSplit(stem, DOT, ext);
    assert name[..|stem|] == stem;
    assert name[|stem|..] == [DOT] + ext;
  }

  /**
   * The output name keeps the input's extension, and its stem is the
   * input's stem followed by "_" and the suffix, as long as the suffix has
   * no dot of its own.
   */
  lemma OutputNameParts(inputFileName: string, suffix: string)
    requires DOT !in suffix
    ensures Extension(OutputFileName(inputFileName, suffix)) == Extension(inputFileName)
    ensures Stem(OutputFileName(inputFileName, suffix)) == Stem(inputFileName) + "_" + suffix
  {
    var i := LastIndexOf(inputFileName, DOT);
    if i == -1 {
      var out := inputFileName + "_" + suffix;
      assert DOT !in out;
      assert OutputFileName(inputFileName, suffix) == out;
    } else {
      var stem := inputFileName[..i];
      var ext := inputFileName[i + 1..];
      assert inputFileName == stem + [DOT] + ext;
      OutputWithDot(stem, suffix, ext);
      SplitAtLastDot(stem, ext);
      SplitAtLastDot(stem + "_" + suffix, ext);
    }
  }

  /** `generatePatchFileName`: the two stems (`substringBeforeLast('.')`) joined by "_to_", then ".xdelta". */
  function PatchFileName(originalFileName: string, modifiedFileName: string): string {
    var originalName := Stem(originalFileName);
    var modifiedName := Stem(modifiedFileName);
    originalName + "_to_" + modifiedName + ".xdelta"
  }

  /** ".xdelta" is a dot followed by "xdelta". */
  lemma DotXdelta(stem: string)
    ensures stem + ".xdelta" == stem + [DOT] + "xdelta"
  {
    assert ".xdelta" == [DOT] + "xdelta";
  }

  lemma NoDotInXdelta()
    ensures DOT !in "xdelta"
  {
    var ext := "xdelta";
    assert forall i :: 0 <= i < |ext| ==> ext[i] != DOT;
  }

  /**
   * A patch name always has the extension ".xdelta", and its stem is the
   * original's stem, "_to_" and the modified file's stem: only the last
   * extension of each name is dropped.
   */
  lemma PatchNameParts(originalFileName: string, modifiedFileName: string)
    ensures Extension(PatchFileName(originalFileName, modifiedFileName)) == ".xdelta"
    ensures Stem(PatchFileName(originalFileName, modifiedFileName))
         == Stem(originalFileName) + "_to_" + Stem(modifiedFileName)
  {
    DotXdelta(Stem(originalFileName) + "_to_" + Stem(modifiedFileName));
    NoDotInXdelta();
    SplitAtLastDot(Stem(originalFileName) + "_to_" + Stem(modifiedFileName), "xdelta");
  }

  /**
   * A patch name always ends in ".xdelta", and names without a dot are used
   * whole on either side of "_to_".
   */
  lemma PatchNameOfPlainNames(originalFileName: string, modifiedFileName: string)
    ensures var r := PatchFileName(originalFileName, modifiedFileName);
      |r| >= 7 && r[|r| - 7..] == ".xdelta"
    ensures DOT !in originalFileName && DOT !in modifiedFileName
         ==> PatchFileName(originalFileName, modifiedFileName) == originalFileName + "_to_" + modifiedFileName + ".xdelta"
  {
    var joined := Stem(originalFileName) + "_to_" + Stem(modifiedFileName);
    var r := joined + ".xdelta";
    assert r[|r| - 7..] == ".xdelta";
    if DOT !in originalFileName && DOT !in modifiedFileName {
      assert Stem(originalFileName) + "" == originalFileName;
      assert Stem(modifiedFileName) + "" == modifiedFileName;
    }
  }
}
