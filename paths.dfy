/** Derivation of the output file name: the input path with the extension
    filepath.Ext reports removed (strings.TrimSuffix), followed by ".pdf".
    Paths use the Unix separator '/'. */
module Paths {

  const Separator: char := '/'
  const PdfSuffix: string := ".pdf"

  /** The length of the final path element: the bytes after the last '/'. */
  function BaseLength(path: string): (n: nat)
    ensures n <= |path|
    decreases |path|
  {
    if path == [] || path[|path| - 1] == Separator then 0 else 1 + BaseLength(path[..|path| - 1])
  }

  /** The final element holds no '/', and a '/' precedes it unless it is the
      whole path. */
  lemma {:induction false} BaseLengthShape(path: string)
    ensures forall k :: |path| - BaseLength(path) <= k < |path| ==> path[k] != Separator
    ensures BaseLength(path) < |path| ==> path[|path| - 1 - BaseLength(path)] == Separator
    decreases |path|
  {
    if path != [] && path[|path| - 1] != Separator {
      var init := path[..|path| - 1];
      BaseLengthShape(init);
      assert forall k :: 0 <= k < |init| ==> path[k] == init[k];
    }
  }

  /** filepath.Ext: the suffix of the final path element that starts at its
      last '.', or empty when that element holds no '.'. */
  function Ext(path: string): (e: string)
    ensures |e| <= |path| && e == path[|path| - |e|..]
    decreases |path|
  {
    if path == [] then []
    else
      var c := path[|path| - 1];
      if c == Separator then []
      else if c == '.' then [c]
      else
        var e := Ext(path[..|path| - 1]);
        if e == [] then [] else e + [c]
  }

  /** The extension lies inside the final path element. */
  lemma {:induction false} ExtWithinBase(path: string)
    ensures |Ext(path)| <= BaseLength(path)
    decreases |path|
  {
    if path != [] && path[|path| - 1] != Separator && path[|path| - 1] != '.' {
      ExtWithinBase(path[..|path| - 1]);
    }
  }

  /** A non-empty extension starts with a '.' and holds no other. */
  lemma {:induction false} ExtStartsAtDot(path: string)
    ensures Ext(path) != [] ==> Ext(path)[0] == '.'
    ensures forall k :: 0 < k < |Ext(path)| ==> Ext(path)[k] != '.'
    decreases |path|
  {
    if path != [] && path[|path| - 1] != Separator && path[|path| - 1] != '.' {
      var init := path[..|path| - 1];
      ExtStartsAtDot(init);
      var e := Ext(init);
      if e != [] {
        assert Ext(path) == e + [path[|path| - 1]];
        assert forall k :: 0 <= k < |e| ==> Ext(path)[k] == e[k];
      }
    }
  }

  /** The extension is empty exactly when the final element holds no '.'. */
  lemma {:induction false} ExtEmpty(path: string)
    ensures Ext(path) == [] <==> forall k :: |path| - BaseLength(path) <= k < |path| ==> path[k] != '.'
    decreases |path|
  {
    if path != [] && path[|path| - 1] != Separator {
      var init := path[..|path| - 1];
      assert BaseLength(path) == 1 + BaseLength(init);
      if path[|path| - 1] == '.' {
        assert Ext(path) == ".";
      } else {
        ExtEmpty(init);
        assert forall k :: 0 <= k < |init| ==> path[k] == init[k];
        assert Ext(path) == [] <==> Ext(init) == [];
      }
    }
  }

  /** strings.TrimSuffix(path, filepath.Ext(path)) + ".pdf". */
  function PdfFileName(path: string): (r: string)
  {
    path[..|path| - |Ext(path)|] + PdfSuffix
  }

  /** The output name is the input's stem (the path without its extension)
      followed by ".pdf"; a path without extension just gains ".pdf". */
  lemma PdfFileNameShape(path: string)
    ensures |PdfFileName(path)| >= 4
    ensures PdfFileName(path)[..|PdfFileName(path)| - 4] + Ext(path) == path
    ensures PdfFileName(path)[|PdfFileName(path)| - 4..] == ".pdf"
    ensures Ext(path) == [] ==> PdfFileName(path) == path + ".pdf"
  {
    var e := Ext(path);
    var stem := path[..|path| - |e|];
    assert stem + e == path;
    var r := stem + ".pdf";
    assert PdfFileName(path) == r;
    assert r[..|r| - 4] == stem;
    assert r[|r| - 4..] == ".pdf";
  }

  /** Appending a '.' makes it the extension. */
  lemma ExtAfterDot(s: string)
    ensures Ext(s + ".") == "."
  {
    var t := s + ".";
    assert t[|t| - 1] == '.';
  }

  /** Appending a byte other than '/' or '.' extends a non-empty extension. */
  lemma ExtAfterByte(s: string, c: char)
    requires c != Separator && c != '.'
    ensures Ext(s + [c]) == if Ext(s) == [] then [] else Ext(s) + [c]
  {
    var t := s + [c];
    assert t[|t| - 1] == c && t[..|t| - 1] == s;
  }

  /** The derived name always carries the extension ".pdf". */
  lemma PdfFileNameExt(path: string)
    ensures Ext(PdfFileName(path)) == PdfSuffix
  {
    var stem := path[..|path| - |Ext(path)|];
    var s1 := stem + ".";
    var s2 := s1 + "p";
    var s3 := s2 + "d";
    var s4 := s3 + "f";
    assert s4 == PdfFileName(path);
    ExtAfterDot(stem);
    ExtAfterByte(s1, 'p');
    ExtAfterByte(s2, 'd');
    ExtAfterByte(s3, 'f');
  }
}
