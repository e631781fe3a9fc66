/** The output file names of the asset compilers:
    `<output directory> '/' <stem of the asset file name> <extension>`, with
    the stem as `std::filesystem::path::stem` computes it. */
module Paths {

  /** The index just after the last '/', or 0. */
  function FilenameStart(p: string): (k: nat)
    ensures k <= |p|
    ensures k > 0 ==> p[k - 1] == '/'
    ensures forall i :: k <= i < |p| ==> p[i] != '/'
  {
    if |p| == 0 then 0
    else if p[|p| - 1] == '/' then |p|
    else FilenameStart(p[..|p| - 1])
  }

  /** `path::filename`: the last component. */
  function Filename(p: string): (f: string)
    ensures forall i :: 0 <= i < |f| ==> f[i] != '/'
  {
    p[FilenameStart(p)..]
  }

  /** The index of the last '.' of `f` after its first character, or |f|. */
  function ExtensionStart(f: string): (k: nat)
    ensures 0 < k <= |f| || (k == 0 && |f| == 0)
    ensures k < |f| ==> f[k] == '.'
    ensures forall i :: k < i < |f| ==> f[i] != '.'
  {
    if |f| <= 1 then |f|
    else if f[|f| - 1] == '.' then |f| - 1
    else
      var k := ExtensionStart(f[..|f| - 1]);
      if k == |f| - 1 then |f| else k
  }

  /** `path::stem`: the file name without its last extension; "." and ".."
      and names whose only dot is the leading one are their own stem. */
  function Stem(p: string): (s: string)
    ensures forall i :: 0 <= i < |s| ==> s[i] != '/'
    ensures |s| <= |Filename(p)| && s == Filename(p)[..|s|]
  {
    var f := Filename(p);
    if f == "." || f == ".." then f else f[..ExtensionStart(f)]
  }

  /** `virtualAssetOutputDirectory + '/' + stem + extension`. */
  function OutputAssetFilename(directory: string, virtualAssetFilename: string, extension: string): (r: string)
    ensures |r| == |directory| + 1 + |Stem(virtualAssetFilename)| + |extension|
    ensures r[..|directory| + 1] == directory + "/"
    ensures r[|r| - |extension|..] == extension
    ensures r[|directory| + 1..|r| - |extension|] == Stem(virtualAssetFilename)
  {
    directory + "/" + Stem(virtualAssetFilename) + extension
  }

  /** The stem part of the output name has no '/', so the output file lands
      directly in the output directory whatever directories the asset file
      name carries. */
  lemma OutputInDirectory(directory: string, virtualAssetFilename: string, extension: string)
    ensures var r := OutputAssetFilename(directory, virtualAssetFilename, extension);
            forall i :: |directory| + 1 <= i < |r| - |extension| ==> r[i] != '/'
  {
    var r := OutputAssetFilename(directory, virtualAssetFilename, extension);
    var s := Stem(virtualAssetFilename);
    forall i | |directory| + 1 <= i < |r| - |extension| ensures r[i] != '/' {
      assert r[i] == r[|directory| + 1..|r| - |extension|][i - |directory| - 1] == s[i - |directory| - 1];
    }
  }

  lemma {:induction false} FilenameStartAfterSlash(directory: string, f: string)
    requires forall i :: 0 <= i < |f| ==> f[i] != '/'
    ensures FilenameStart(directory + "/" + f) == |directory| + 1
    decreases |f|
  {
    var p := directory + "/" + f;
    if |f| == 0 {
      assert p[|p| - 1] == '/';
    } else {
      assert p[..|p| - 1] == directory + "/" + f[..|f| - 1];
      FilenameStartAfterSlash(directory, f[..|f| - 1]);
    }
  }

  lemma {:induction false} ExtensionStartOf(name: string, extension: string)
    requires |name| > 0
    requires forall i :: 0 <= i < |extension| ==> extension[i] != '.'
    ensures ExtensionStart(name + "." + extension) == |name|
    decreases |extension|
  {
    var f := name + "." + extension;
    if |extension| > 0 {
      assert f[..|f| - 1] == name + "." + extension[..|extension| - 1];
      ExtensionStartOf(name, extension[..|extension| - 1]);
    }
  }

  /** The stem of `directory/name.extension` is `name`: only the last
      extension is dropped, the directories never take part. */
  lemma StemDropsLastExtension(directory: string, name: string, extension: string)
    requires |name| > 0 && name + "." + extension != ".."
    requires forall i :: 0 <= i < |name| ==> name[i] != '/'
    requires forall i :: 0 <= i < |extension| ==> extension[i] != '/' && extension[i] != '.'
    ensures Stem(directory + "/" + name + "." + extension) == name
  {
    var f := name + "." + extension;
    assert directory + "/" + name + "." + extension == directory + "/" + f;
    FilenameStartAfterSlash(directory, f);
    assert Filename(directory + "/" + f) == f;
    ExtensionStartOf(name, extension);
    assert f[..|name|] == name;
  }
}
