/** Where `importMetadata` looks for a layer's metadata document before it
    asks the user: next to the layer's source, with the extension replaced
    by `.xml`, then with `.xml` appended. Paths are POSIX paths and the
    splitting follows Python's `os.path.splitext`. */
module Paths {
  import opened Util

  const Sep: char := '/'
  const ExtSep: char := '.'
  const XmlSuffix: string := ".xml"

  /** `s.rfind(c)`: the last index of `c` in `s`, or -1. */
  function LastIndexOf(s: string, c: char): (r: int)
    ensures -1 <= r < |s|
    ensures r >= 0 ==> s[r] == c
    ensures forall j :: r < j < |s| ==> s[j] != c
  {
    if s == [] then -1
    else if s[|s| - 1] == c then |s| - 1
    else LastIndexOf(s[..|s| - 1], c)
  }

  /** Whether the file name that starts after `sepIndex` has a character
      other than '.' before `dotIndex` (leading dots do not start an
      extension). */
  predicate HasStemBefore(p: string, sepIndex: int, dotIndex: int)
    requires -1 <= sepIndex && dotIndex <= |p|
  {
    exists k :: sepIndex + 1 <= k < dotIndex && p[k] != ExtSep
  }

  /** `os.path.splitext(p)` as (root, extension). */
  function SplitExt(p: string): (r: (string, string))
    ensures r.0 + r.1 == p
    ensures r.1 == [] || (r.1[0] == ExtSep && Sep !in r.1 && ExtSep !in r.1[1..])
    ensures r.1 != [] <==> LastIndexOf(p, ExtSep) > LastIndexOf(p, Sep)
                           && HasStemBefore(p, LastIndexOf(p, Sep), LastIndexOf(p, ExtSep))
    ensures r.1 != [] ==> |r.0| == LastIndexOf(p, ExtSep)
  {
    var sepIndex := LastIndexOf(p, Sep);
    var dotIndex := LastIndexOf(p, ExtSep);
    if dotIndex > sepIndex && HasStemBefore(p, sepIndex, dotIndex) then
      assert p[..dotIndex] + p[dotIndex..] == p;
      assert forall j :: 0 <= j < |p[dotIndex..]| ==> p[dotIndex..][j] == p[dotIndex + j];
      (p[..dotIndex], p[dotIndex..])
    else
      assert p + [] == p;
      (p, [])
  }

  /** The path of `source` with its extension replaced by `.xml`. */
  function XmlBesideSource(source: string): string
  {
    SplitExt(source).0 + XmlSuffix
  }

  /** `os.path.splitext` on a shapefile path splits off its extension. */
  lemma SplitExtShapefile()
    ensures SplitExt("/d/a.shp") == ("/d/a", ".shp")
  {
    assert "/d/a.shp" == "/d" + [Sep] + "a.shp" == "/d/a" + [ExtSep] + "shp";
    LastIndexOfMarker("/d", "a.shp", Sep);
    LastIndexOfMarker("/d/a", "shp", ExtSep);
    assert "/d/a.shp"[3] != ExtSep;
    assert HasStemBefore("/d/a.shp", 2, 4);
    assert "/d/a.shp"[..4] == "/d/a" && "/d/a.shp"[4..] == ".shp";
  }

  /** A hidden file's leading dot starts no extension. */
  lemma SplitExtHiddenFile()
    ensures SplitExt("/d/.hidden") == ("/d/.hidden", "")
  {
    assert "/d/.hidden" == "/d" + [Sep] + ".hidden" == "/d/" + [ExtSep] + "hidden";
    LastIndexOfMarker("/d", ".hidden", Sep);
    LastIndexOfMarker("/d/", "hidden", ExtSep);
  }

  /** A dot in a directory name is no extension. */
  lemma SplitExtDottedDirectory()
    ensures SplitExt("/d.v/a") == ("/d.v/a", "")
  {
    assert "/d.v/a" == "/d.v" + [Sep] + "a" == "/d" + [ExtSep] + "v/a";
    LastIndexOfMarker("/d.v", "a", Sep);
    LastIndexOfMarker("/d", "v/a", ExtSep);
  }

  /** The metadata file `importMetadata` picks without asking: the first of
      the two conventional candidates that `fileExists` says is on disk, else none. */
  function MetadataFileFor(source: string, fileExists: string -> bool): (r: Option<string>)
    ensures r.Some? ==> fileExists(r.value)
    ensures r.Some? ==> r.value == XmlBesideSource(source) || r.value == source + XmlSuffix
    ensures r.None? <==> !fileExists(XmlBesideSource(source)) && !fileExists(source + XmlSuffix)
    ensures fileExists(XmlBesideSource(source)) ==> r == Some(XmlBesideSource(source))
  {
    if fileExists(XmlBesideSource(source)) then Some(XmlBesideSource(source))
    else if fileExists(source + XmlSuffix) then Some(source + XmlSuffix)
    else None
  }

  /** rfind over a concatenation whose second part lacks `c` stays in the
      first part. */
  lemma {:induction false} LastIndexOfAppend(a: string, b: string, c: char)
    requires c !in b
    ensures LastIndexOf(a + b, c) == LastIndexOf(a, c)
  {
    if b != [] {
      assert (a + b)[..|a + b| - 1] == a + b[..|b| - 1];
      LastIndexOfAppend(a, b[..|b| - 1], c);
    } else {
      assert a + b == a;
    }
  }

  /** The last `c` of `a + [c] + b` is the one between them when `b` has none. */
  lemma {:induction false} LastIndexOfMarker(a: string, b: string, c: char)
    requires c !in b
    ensures LastIndexOf(a + [c] + b, c) == |a|
  {
    LastIndexOfAppend(a + [c], b, c);
    assert (a + [c])[..|a + [c]| - 1] == a;
  }

  /** The first candidate is what its name says: when the source's file name
      has a character other than '.', splitting the candidate gives back the
      source's root with extension `.xml`. */
  lemma {:induction false} XmlBesideSourceSplits(source: string)
    requires HasStemBefore(source, LastIndexOf(source, Sep), |SplitExt(source).0|)
    ensures SplitExt(XmlBesideSource(source)) == (SplitExt(source).0, XmlSuffix)
  {
    var root, ext := SplitExt(source).0, SplitExt(source).1;
    var p := root + XmlSuffix;
    LastIndexOfAppend(root, ext, Sep);
    LastIndexOfAppend(root, XmlSuffix, Sep);
    var sepIndex := LastIndexOf(root, Sep);
    assert LastIndexOf(p, Sep) == sepIndex;
    assert p == root + [ExtSep] + "xml";
    LastIndexOfMarker(root, "xml", ExtSep);
    var k :| sepIndex + 1 <= k < |root| && source[k] != ExtSep;
    assert p[k] == root[k] == source[k];
    assert HasStemBefore(p, sepIndex, |root|);
    assert p[..|root|] == root;
    assert p[|root|..] == XmlSuffix;
    assert LastIndexOf(p, ExtSep) > LastIndexOf(p, Sep);
    assert SplitExt(p) == (root, XmlSuffix);
    assert XmlBesideSource(source) == p;
  }

  /** The file `importMetadata` loads: the conventional candidate if there
      is one, otherwise what the user picked when asked (`manualChoice` is
      None when the user declined, and the empty path when the file dialog
      was cancelled); an empty path means nothing is loaded. */
  function ChooseMetadataFile(source: string, fileExists: string -> bool, manualChoice: Option<string>): (r: Option<string>)
    ensures r.Some? ==> r.value != []
    ensures MetadataFileFor(source, fileExists).Some? ==> r == MetadataFileFor(source, fileExists)
    ensures r.Some? && MetadataFileFor(source, fileExists).None? ==> manualChoice == r
    ensures MetadataFileFor(source, fileExists).None? && manualChoice.Some? && manualChoice.value != [] ==> r == manualChoice
  {
    match MetadataFileFor(source, fileExists)
    case Some(f) =>
      assert |f| >= |XmlSuffix|;
      Some(f)
    case None =>
      if manualChoice.Some? && manualChoice.value != [] then manualChoice else None
  }
}
