/** The display name of a run: `-n` when given, otherwise the input's file
    name up to its last dot, lower-cased. */
module Naming {
  import opened Outcomes
  import opened Text

  function StripTrailingSlashes(p: string): (r: string)
    ensures |r| <= |p| && r == p[..|r|]
    ensures r == [] || r[|r| - 1] != '/'
  {
    if p != [] && p[|p| - 1] == '/' then StripTrailingSlashes(p[..|p| - 1]) else p
  }

  function AfterLastSlash(p: string): (r: string)
    ensures '/' !in r
    ensures |r| <= |p| && r == p[|p| - |r|..]
    ensures |r| < |p| ==> p[|p| - |r| - 1] == '/'
  {
    if p == [] || p[|p| - 1] == '/' then []
    else AfterLastSlash(p[..|p| - 1]) + [p[|p| - 1]]
  }

  /** PHP's `basename` for `/`-separated paths: trailing slashes dropped, then
      the last component. */
  function Basename(p: string): string
  {
    AfterLastSlash(StripTrailingSlashes(p))
  }

  /** The position `strrpos` reports for the last `.`, if any. */
  function LastDot(s: string): (r: Option<nat>)
    ensures r.None? <==> '.' !in s
    ensures r.Some? ==> r.value < |s| && s[r.value] == '.' && '.' !in s[r.value + 1..]
  {
    if s == [] then None
    else if s[|s| - 1] == '.' then Some(|s| - 1)
    else LastDot(s[..|s| - 1])
  }

  /** The default name. A base name without a dot gives the empty name: the
      source passes `strrpos`'s `false` to `substr` as length 0. */
  function DefaultName(input: string): (name: string)
  {
    var base := Basename(input);
    match LastDot(base)
    case None => []
    case Some(k) => ToLower(base[..k])
  }

  function ResolveName(nameOpt: Option<string>, input: string): (name: string)
    ensures nameOpt.Some? ==> name == nameOpt.value
    ensures nameOpt.None? ==> name == DefaultName(input)
  {
    if nameOpt.Some? then nameOpt.value else DefaultName(input)
  }

  /** The default name never keeps an upper-case ASCII letter and never holds
      a `/`. */
  lemma DefaultNameShape(input: string)
    ensures forall i :: 0 <= i < |DefaultName(input)| ==> !('A' <= DefaultName(input)[i] <= 'Z')
    ensures '/' !in DefaultName(input)
  {
    var base := Basename(input);
    match LastDot(base)
    case None =>
    case Some(k) =>
      PrefixHasNoSlash(base, k);
      LowerShape(base[..k]);
      assert DefaultName(input) == ToLower(base[..k]);
  }

  lemma PrefixHasNoSlash(s: string, k: nat)
    requires '/' !in s && k <= |s|
    ensures '/' !in s[..k]
  {
    assert forall c :: c in s[..k] ==> c in s;
  }

  /** Lower-casing leaves no ASCII capital and brings in no `/`. */
  lemma LowerShape(s: string)
    requires '/' !in s
    ensures forall i :: 0 <= i < |ToLower(s)| ==> !('A' <= ToLower(s)[i] <= 'Z')
    ensures '/' !in ToLower(s)
  {
    var t := ToLower(s);
    forall i | 0 <= i < |t| ensures t[i] != '/' && !('A' <= t[i] <= 'Z') {
      assert t[i] == LowerChar(s[i]);
      assert s[i] in s;
    }
  }

  /** For `dir/stem.ext` with an extension free of dots and slashes, the
      default name is the lower-cased stem, dots inside the stem kept. */
  lemma {:induction false} DefaultNameOfFile(dir: string, stem: string, ext: string)
    requires dir == [] || dir[|dir| - 1] == '/'
    requires '/' !in stem && '/' !in ext && '.' !in ext
    ensures DefaultName(dir + stem + "." + ext) == ToLower(stem)
  {
    var file := stem + "." + ext;
    var p := dir + stem + "." + ext;
    assert p == dir + file;
    FileHasNoSlash(stem, ext);
    BasenameOfFile(dir, file);
    LastDotOfExtension(stem, ext);
    StemIsPrefix(stem, ext);
    DefaultNameAtDot(p, file, |stem|);
  }

  lemma StemIsPrefix(stem: string, ext: string)
    ensures (stem + "." + ext)[..|stem|] == stem
  {
    assert (stem + "." + ext)[..|stem|] == (stem + ".")[..|stem|];
  }

  lemma DefaultNameAtDot(p: string, base: string, k: nat)
    requires Basename(p) == base && LastDot(base) == Some(k)
    ensures DefaultName(p) == ToLower(base[..k])
  {
  }

  lemma FileHasNoSlash(stem: string, ext: string)
    requires '/' !in stem && '/' !in ext
    ensures '/' !in stem + "." + ext
  {
    var file := stem + "." + ext;
    forall i | 0 <= i < |file| ensures file[i] != '/' {
      if i < |stem| { assert file[i] == stem[i]; }
      else if i > |stem| { assert file[i] == ext[i - |stem| - 1]; }
    }
  }

  lemma BasenameOfFile(dir: string, file: string)
    requires dir == [] || dir[|dir| - 1] == '/'
    requires file != [] && '/' !in file
    ensures Basename(dir + file) == file
  {
    var p := dir + file;
    assert p[|p| - 1] == file[|file| - 1];
    assert StripTrailingSlashes(p) == p;
    AfterLastSlashOfSuffix(dir, file);
  }

  /** After a directory part ending in `/`, a slash-free file name is what
      follows the last slash: a longer suffix would take in the directory's
      slash, a shorter one would stop at a slash inside the file name. */
  lemma AfterLastSlashOfSuffix(dir: string, file: string)
    requires dir == [] || dir[|dir| - 1] == '/'
    requires '/' !in file
    ensures AfterLastSlash(dir + file) == file
  {
    var p := dir + file;
    var r := AfterLastSlash(p);
    assert |r| == |file|;
    assert r == p[|dir|..];
  }

  lemma {:induction false} LastDotOfExtension(stem: string, ext: string)
    requires '.' !in ext
    ensures LastDot(stem + "." + ext) == Some(|stem|)
    decreases |ext|
  {
    var s := stem + "." + ext;
    if ext == [] {
      assert s[|s| - 1] == '.';
    } else {
      assert s[..|s| - 1] == stem + "." + ext[..|ext| - 1];
      assert s[|s| - 1] == ext[|ext| - 1];
      assert '.' !in ext[..|ext| - 1] by {
        assert forall c :: c in ext[..|ext| - 1] ==> c in ext;
      }
      LastDotOfExtension(stem, ext[..|ext| - 1]);
    }
  }
}
