/** The path handling the product controller relies on: Node's POSIX
    `path.extname`, `toLowerCase`, the image-extension test of
    src/controllers/product.controller.ts, and `path.resolve`. */
module Paths {
  import opened Common
  import opened Records

  /** `p` without its trailing `/` characters. */
  function TrimTrailingSlashes(p: Path): (r: Path)
    ensures |r| <= |p| && p[..|r|] == r
    ensures r == [] || r[|r| - 1] != '/'
    ensures forall k :: |r| <= k < |p| ==> p[k] == '/'
  {
    if p != [] && p[|p| - 1] == '/' then TrimTrailingSlashes(p[..|p| - 1]) else p
  }

  /** The last component of `t`: its longest suffix without a `/`. */
  function Basename(t: Path): (r: Path)
    ensures '/' !in r
    ensures |r| <= |t| && t[|t| - |r|..] == r
    ensures |r| < |t| ==> t[|t| - |r| - 1] == '/'
  {
    if t == [] || t[|t| - 1] == '/' then []
    else Basename(t[..|t| - 1]) + [t[|t| - 1]]
  }

  /** The index of the last `.` of `b`, if there is one. */
  function LastDot(b: string): (r: Option<nat>)
    ensures r.None? <==> '.' !in b
    ensures r.Some? ==> r.value < |b| && b[r.value] == '.' && '.' !in b[r.value + 1..]
  {
    if b == [] then None
    else if b[|b| - 1] == '.' then Some(|b| - 1)
    else
      var r := LastDot(b[..|b| - 1]);
      assert r.Some? ==> b[r.value + 1..] == b[..|b| - 1][r.value + 1..] + [b[|b| - 1]];
      assert r.None? ==> b == b[..|b| - 1] + [b[|b| - 1]];
      r
  }

  /** A `.` with no `.` after it is the last one. */
  lemma LastDotAt(b: string, d: nat)
    requires d < |b| && b[d] == '.'
    requires forall k :: d < k < |b| ==> b[k] != '.'
    ensures LastDot(b) == Some(d)
  {
    assert b[d] in b;
    var r := LastDot(b).value;
    forall k | r < k < |b|
      ensures b[k] != '.'
    {
      assert b[k] == b[r + 1..][k - r - 1];
    }
  }

  /** Node's POSIX `path.extname`: trailing slashes are ignored, and the
      extension runs from the last `.` of the last component to its end. It is
      empty when that component has no `.`, when its only `.` is its first
      character (".bashrc"), and when the component is "..". */
  function Extname(p: Path): (r: string)
    ensures r == [] || (r[0] == '.' && '.' !in r[1..] && '/' !in r)
    ensures r != [] ==> |r| < |p|
  {
    var b := Basename(TrimTrailingSlashes(p));
    match LastDot(b)
    case None => []
    case Some(d) => if d == 0 || b == ".." then [] else b[d..]
  }

  /** `toLowerCase` on one character, restricted to ASCII letters. */
  function LowerChar(c: char): (l: char)
    ensures l == '.' <==> c == '.'
    ensures 'A' <= c <= 'Z' ==> l as int == c as int + 32 && 'a' <= l <= 'z'
    ensures !('A' <= c <= 'Z') ==> l == c
  {
    if 'A' <= c <= 'Z' then (c as int + 32) as char else c
  }

  /** `toLowerCase`: every character lowered, the length unchanged. */
  function Lower(s: string): (r: string)
    ensures |r| == |s|
    ensures forall k :: 0 <= k < |s| ==> r[k] == LowerChar(s[k])
  {
    if s == [] then [] else [LowerChar(s[0])] + Lower(s[1..])
  }

  /** The three extensions an image upload may have. */
  predicate IsImageExtension(e: string): (ok: bool)
    // each is a leading `.` followed by letters, the shape an extension has
    ensures ok ==> |e| > 1 && e[0] == '.' && '.' !in e[1..]
  {
    e == ".png" || e == ".jpg" || e == ".jpeg"
  }

  /** The upload test of `createProduct` and `updateProduct`: the lower-cased
      extension of the client's file name is an image extension. */
  predicate AcceptedImage(originalName: string): (ok: bool)
    // an accepted name has an extension of four or five characters and
    // something before it
    ensures ok ==> 4 <= |Extname(originalName)| < |originalName|
  {
    IsImageExtension(Lower(Extname(originalName)))
  }

  /** `name` ends, ignoring letter case, with the extension `e`, and something
      comes before it. */
  predicate EndsWithExt(name: string, e: string) {
    |name| > |e| && Lower(name[|name| - |e|..]) == e
  }

  /** A name without `/` is its own last component. */
  lemma PlainName(name: string)
    requires '/' !in name
    ensures Basename(TrimTrailingSlashes(name)) == name
  {
    assert TrimTrailingSlashes(name) == name by {
      if name != [] { assert name[|name| - 1] in name; }
    }
    assert forall i :: 0 <= i < |name| ==> name[i] != '/' by {
      forall i | 0 <= i < |name| ensures name[i] != '/' { assert name[i] in name; }
    }
  }

  /** The extension of a plain name is its suffix from the last `.`, unless
      that `.` leads the name or the name is "..". */
  lemma ExtnameOfPlain(name: string)
    requires '/' !in name
    ensures Extname(name) != [] ==>
      LastDot(name).Some? && 0 < LastDot(name).value && Extname(name) == name[LastDot(name).value..]
    ensures LastDot(name).Some? && 0 < LastDot(name).value && name != ".." ==>
      Extname(name) == name[LastDot(name).value..]
  {
    PlainName(name);
  }

  /** Where a name ends, in any letter case, with `e`, a `.` starts that
      ending and no `.` follows it. */
  lemma DotsOfSuffix(name: string, e: string)
    requires |e| > 1 && e[0] == '.' && '.' !in e[1..]
    requires EndsWithExt(name, e)
    ensures name[|name| - |e|] == '.'
    ensures forall k :: |name| - |e| < k < |name| ==> name[k] != '.'
  {
    var d := |name| - |e|;
    var tail := name[d..];
    assert LowerChar(tail[0]) == e[0];
    forall k | d < k < |name|
      ensures name[k] != '.'
    {
      assert LowerChar(tail[k - d]) == e[k - d];
      assert e[k - d] == e[1..][k - d - 1];
    }
  }

  /** A name ending, in any letter case, with `e` after at least one
      character has the extension `e` once lowered. */
  lemma SuffixGivesExtension(name: string, e: string)
    requires '/' !in name
    requires |e| > 1 && e[0] == '.' && '.' !in e[1..]
    requires EndsWithExt(name, e)
    ensures Lower(Extname(name)) == e
  {
    var d := |name| - |e|;
    DotsOfSuffix(name, e);
    LastDotAt(name, d);
    PlainName(name);
    assert 0 < d && name != "..";
    assert Extname(name) == name[d..];
    assert Lower(name[d..]) == e;
  }

  /** Conversely, a plain name whose lowered extension is `e` ends with it. */
  lemma ExtensionGivesSuffix(name: string, e: string)
    requires '/' !in name
    requires |e| > 1
    requires Lower(Extname(name)) == e
    ensures EndsWithExt(name, e)
  {
    ExtnameOfPlain(name);
    var d := LastDot(name).value;
    assert |name| - |e| == d;
  }

  /** For a plain file name, the lower-cased extension is `e` exactly when the
      name ends with `e`, in any letter case, after at least one character. */
  lemma ExtensionIsSuffix(name: string, e: string)
    requires '/' !in name
    requires |e| > 1 && e[0] == '.' && '.' !in e[1..]
    ensures Lower(Extname(name)) == e <==> EndsWithExt(name, e)
  {
    if EndsWithExt(name, e) { SuffixGivesExtension(name, e); }
    if Lower(Extname(name)) == e { ExtensionGivesSuffix(name, e); }
  }

  /** The accepted uploads are exactly the plain file names ending, in any
      letter case, with ".png", ".jpg" or ".jpeg" after at least one character. */
  lemma AcceptedImageIffSuffix(name: string)
    requires '/' !in name
    ensures AcceptedImage(name) <==>
      EndsWithExt(name, ".png") || EndsWithExt(name, ".jpg") || EndsWithExt(name, ".jpeg")
  {
    ExtensionIsSuffix(name, ".png");
    ExtensionIsSuffix(name, ".jpg");
    ExtensionIsSuffix(name, ".jpeg");
  }

  /** A name whose only `.` leads it has no extension, so ".png" alone is
      refused. */
  lemma ExtnameLeadingDot()
    ensures Extname(".png") == [] && !AcceptedImage(".png")
  {
    PlainName(".png");
    LastDotAt(".png", 0);
  }

  /** A trailing slash does not change the extension: "img.jpg/" has the
      extension ".jpg". */
  lemma ExtnameIgnoresTrailingSlash(p: Path)
    ensures Extname(p + "/") == Extname(p)
  {
    assert (p + "/")[..|p|] == p;
    assert TrimTrailingSlashes(p + "/") == TrimTrailingSlashes(p);
  }

  /** The component ".." has no extension. */
  lemma ExtnameDotDot()
    ensures Extname("..") == []
  {
    PlainName("..");
    LastDotAt("..", 1);
  }

  /** `path.resolve` against the working directory `cwd`: never empty, so the
      handlers' "image not found" branches, which test the resolved path for
      emptiness, cannot be taken. */
  function Resolve(cwd: Path, p: Path): (r: Path)
    ensures r != []
    ensures p != [] && p[0] == '/' ==> r == p
  {
    if p != [] && p[0] == '/' then p else cwd + "/" + p
  }

  /** Against an absolute working directory, a resolved path is absolute, so
      resolving it again gives it back. */
  lemma ResolveAbsolute(cwd: Path, p: Path)
    requires cwd != [] && cwd[0] == '/'
    ensures Resolve(cwd, p)[0] == '/'
    ensures Resolve(cwd, Resolve(cwd, p)) == Resolve(cwd, p)
  {
  }
}
