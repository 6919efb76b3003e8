/**
 * Which files the tool accepts as images: the extension allow-list applied to
 * a single path (through `os.path.splitext`) and to the names of a folder
 * listing (through `str.endswith`). The two tests differ on names such as ".jpg".
 */
module Admission {
  import opened Sequences

  /** `VALID_EXTS` */
  const ValidExts: seq<string> := [".jpg", ".jpeg", ".heic"]

  /** The path flavour of `os.path`: POSIX separates with '/', Windows with '\' or '/'. */
  datatype Platform = Posix | Windows

  predicate IsSep(c: char, platform: Platform) {
    c == '/' || (platform == Windows && c == '\\')
  }

  function LowerChar(c: char): char {
    if 'A' <= c <= 'Z' then (c as int + 32) as char else c
  }

  /** `str.lower()` on the letters that can matter here (see README). */
  function Lower(s: string): (r: string)
    ensures |r| == |s|
  {
    seq(|s|, i requires 0 <= i < |s| => LowerChar(s[i]))
  }

  /** Whether the final component has a character other than '.' strictly between `sep` and `dot`. */
  predicate HasStem(p: string, sep: int, dot: int)
    requires -1 <= sep && dot <= |p|
  {
    exists k :: sep < k < dot && p[k] != '.'
  }

  /**
   * `os.path.splitext(p)[1]`: from the last dot to the end, provided that dot lies
   * in the final component and is not one of the component's leading dots; else "".
   */
  function SplitExt(p: string, platform: Platform): (ext: string)
    ensures ext == [] || (ext[0] == '.' && EndsWith(p, ext))
    ensures forall k :: 0 < k < |ext| ==> ext[k] != '.' && !IsSep(ext[k], platform)
  {
    var sep := LastIndex(p, c => IsSep(c, platform));
    var dot := LastIndex(p, c => c == '.');
    if dot > sep && HasStem(p, sep, dot) then p[dot..] else []
  }

  /** `systemproper.py` lines 242-248: the lowered path's extension is on the allow-list. */
  function Admitted(path: string, platform: Platform): (admitted: bool)
    // every admitted path also passes the folder filter of `systemproper.py` line 518
    ensures admitted ==> KeepsName(path)
  {
    SplitExt(Lower(path), platform) in ValidExts
  }

  /** `systemproper.py` line 518: `f.lower().endswith(VALID_EXTS)` */
  function KeepsName(name: string): (kept: bool)
    // the shortest allowed extension has four characters
    ensures kept ==> |name| >= 4
  {
    exists e :: e in ValidExts && EndsWith(Lower(name), e)
  }

  /** `systemproper.py` line 518: the names of a folder listing that pass, in listing order. */
  function FolderFilter(names: seq<string>): (kept: seq<string>)
    ensures forall f :: f in kept <==> f in names && KeepsName(f)
    ensures |kept| <= |names|
  {
    if names == [] then []
    else (if KeepsName(names[0]) then [names[0]] else []) + FolderFilter(names[1..])
  }

  /** Filtering a listing in two parts gives the two filtered parts in order: the listing order is kept. */
  lemma {:induction false} FolderFilterConcat(a: seq<string>, b: seq<string>)
    ensures FolderFilter(a + b) == FolderFilter(a) + FolderFilter(b)
  {
    if a != [] {
      var head := if KeepsName(a[0]) then [a[0]] else [];
      calc {
        FolderFilter(a + b);
        { assert (a + b)[0] == a[0]; assert (a + b)[1..] == a[1..] + b; }
        head + FolderFilter(a[1..] + b);
        { FolderFilterConcat(a[1..], b); }
        head + (FolderFilter(a[1..]) + FolderFilter(b));
        (head + FolderFilter(a[1..])) + FolderFilter(b);
      }
    } else {
      assert a + b == b;
    }
  }

  /**
   * A path is admitted exactly when its lowered form ends with an allowed extension
   * and its final component has a character other than '.' before that extension.
   */
  lemma AdmittedIff(path: string, platform: Platform)
    ensures Admitted(path, platform) <==>
              exists e :: e in ValidExts && EndsWith(Lower(path), e) &&
                          HasStem(Lower(path), LastIndex(Lower(path), c => IsSep(c, platform)), |path| - |e|)
  {
    var p := Lower(path);
    var sep := LastIndex(p, c => IsSep(c, platform));
    var dot := LastIndex(p, c => c == '.');
    if Admitted(path, platform) {
      var e := SplitExt(p, platform);
      assert e == p[dot..];
      assert e in ValidExts && EndsWith(p, e) && HasStem(p, sep, |path| - |e|);
    }
    forall e | e in ValidExts && EndsWith(p, e) && HasStem(p, sep, |path| - |e|)
      ensures Admitted(path, platform)
    {
      var d := |p| - |e|;
      assert e[0] == '.' && forall k :: 0 < k < |e| ==> e[k] != '.' && !IsSep(e[k], platform);
      assert p[d] == '.';
      assert forall k :: d < k < |p| ==> p[k] == e[k - d];
      assert dot == d;
      assert sep < d;
      assert SplitExt(p, platform) == e;
    }
  }

  /** The extension of a path whose last dot is at `d`, after a non-dot in the same component. */
  lemma SplitExtAt(p: string, platform: Platform, d: int)
    requires 0 < d < |p| && p[d] == '.' && p[d - 1] != '.' && !IsSep(p[d - 1], platform)
    requires forall k :: d < k < |p| ==> p[k] != '.' && !IsSep(p[k], platform)
    ensures SplitExt(p, platform) == p[d..]
  {
    var sep := LastIndex(p, c => IsSep(c, platform));
    assert LastIndex(p, c => c == '.') == d;
    assert sep < d - 1;
    assert HasStem(p, sep, d) by { assert sep < d - 1 < d && p[d - 1] != '.'; }
  }

  /** The converse fails: the folder filter keeps ".jpg" and "..JPG", the path check admits neither. */
  lemma FilterAdmitsMore(platform: Platform)
    ensures KeepsName(".jpg") && !Admitted(".jpg", platform)
    ensures KeepsName("..JPG") && !Admitted("..JPG", platform)
  {
    assert ".jpg" in ValidExts;
    var p := Lower(".jpg");
    assert p == ".jpg";
    LastIndexIs(p, c => c == '.', 0);
    var q := Lower("..JPG");
    assert q == "..jpg";
    assert EndsWith(q, ".jpg");
    LastIndexIs(q, c => c == '.', 1);
    assert !HasStem(q, LastIndex(q, c => IsSep(c, platform)), 1);
  }

  /** Extensions are compared after lowering. */
  lemma UpperCaseAdmitted(platform: Platform)
    ensures Admitted("a/b.HEIC", platform)
  {
    var p := Lower("a/b.HEIC");
    assert p == "a/b.heic";
    SplitExtAt(p, platform, 3);
    assert p[3..] == ".heic";
    assert ".heic" in ValidExts;
  }

  /** Only the final component's extension counts. */
  lemma DirectoryDotIgnored(platform: Platform)
    ensures !Admitted("a.jpg/b", platform)
  {
    var p := Lower("a.jpg/b");
    assert p == "a.jpg/b";
    LastIndexIs(p, c => IsSep(c, platform), 5);
    LastIndexIs(p, c => c == '.', 1);
    assert SplitExt(p, platform) == [];
  }

  /** Only the last extension counts. */
  lemma LastExtensionCounts(platform: Platform)
    ensures !Admitted("b.jpg.png", platform)
  {
    var p := Lower("b.jpg.png");
    assert p == "b.jpg.png";
    SplitExtAt(p, platform, 5);
    assert p[5..] == ".png";
  }
}
