/** The `thumbnails/` directory: which entries are frames of the run, the
    delete-stale pass, what the extraction writes, the listing the cues are
    built from, and the sprite-mode cleanup. The directory is a sequence of
    entries in the order the directory iterator yields them. */
module FrameFiles {
  import opened Text
  import opened NaturalOrder

  datatype Entry = Entry(filename: string, isFile: bool)

  /** The filter `{name}-\\d{4}\\.jpg$`: the file name ENDS with the run's name,
      a dash, four digits and `.jpg` (the pattern is not anchored at the
      start, so `xvideo-0001.jpg` is a frame of the run `video` too). */
  predicate IsFrameFile(name: string, f: string)
  {
    var n := |name| + 9;
    |f| >= n && f[|f| - n..|f| - 9] == name && f[|f| - 9] == '-'
    && AllDigits(f[|f| - 8..|f| - 4]) && f[|f| - 4..] == ".jpg"
  }

  predicate Matches(name: string, e: Entry)
  {
    e.isFile && IsFrameFile(name, e.filename)
  }

  lemma FrameFileIsNumbered(name: string, f: string)
    requires IsFrameFile(name, f)
    ensures Numbered(f) && Stem(f) == f[..|f| - 8]
    ensures |Stem(f)| >= |name| + 1 && Stem(f)[|Stem(f)| - 1] == '-'
  {
  }

  /** The name the extraction's `{name}-%04d.jpg` pattern gives frame k
      (ffmpeg numbers frames from 1). */
  function FrameFileName(name: string, k: nat): string
  {
    name + "-" + ZeroPad(k, 4) + ".jpg"
  }

  /** Frames numbered below 10000 are frames of the run, with stem `name-` and
      their own number. */
  lemma FrameFileNameMatches(name: string, k: nat)
    requires k < 10000
    ensures IsFrameFile(name, FrameFileName(name, k))
    ensures Numbered(FrameFileName(name, k))
    ensures Stem(FrameFileName(name, k)) == name + "-"
    ensures Number(FrameFileName(name, k)) == k
  {
    ZeroPadReadsBack(k, 4);
    assert Pow10(4) == 10000;
    var d := ZeroPad(k, 4);
    var f := FrameFileName(name, k);
    assert |d| == 4;
    assert f[|f| - 8..|f| - 4] == d;
    assert f[..|f| - 8] == name + "-";
    assert f[|f| - 4..] == ".jpg";
    assert f[|f| - (|name| + 9)..|f| - 9] == name;
  }

  /** From frame 10000 on, `%04d` writes five digits or more, and the filter
      never lists the file. */
  lemma FramesPast9999Unlisted(name: string, k: nat)
    requires k >= 10000
    ensures !IsFrameFile(name, FrameFileName(name, k))
  {
    ZeroPadReadsBack(k, 4);
    assert Pow10(4) == 10000;
    var d := ZeroPad(k, 4);
    var f := FrameFileName(name, k);
    assert |d| >= 5;
    assert f[|f| - 9] == d[|d| - 5];
    assert IsDigit(d[|d| - 5]);
  }

  /** The files `FilesystemIterator` + the filter yield, in directory order. */
  function Listing(name: string, dir: seq<Entry>): (r: seq<string>)
    ensures |r| <= |dir|
    ensures forall f :: f in r ==> IsFrameFile(name, f)
    ensures forall i :: 0 <= i < |dir| && Matches(name, dir[i]) ==> dir[i].filename in r
  {
    if dir == [] then []
    else
      var last := dir[|dir| - 1];
      Listing(name, dir[..|dir| - 1]) + (if Matches(name, last) then [last.filename] else [])
  }

  lemma {:induction false} ListingAppend(name: string, a: seq<Entry>, b: seq<Entry>)
    ensures Listing(name, a + b) == Listing(name, a) + Listing(name, b)
    decreases |b|
  {
    if b == [] {
      assert a + b == a;
    } else {
      assert (a + b)[..|a + b| - 1] == a + b[..|b| - 1];
      ListingAppend(name, a, b[..|b| - 1]);
    }
  }

  /** The entries the delete-stale pass leaves: all but the run's frames. */
  function Survivors(name: string, dir: seq<Entry>): (r: seq<Entry>)
    ensures |r| <= |dir|
    ensures forall e :: e in r ==> e in dir && !Matches(name, e)
    ensures forall e :: e in dir && !Matches(name, e) ==> e in r
  {
    if dir == [] then []
    else
      var last := dir[|dir| - 1];
      assert forall e :: e in dir ==> e in dir[..|dir| - 1] || e == last;
      Survivors(name, dir[..|dir| - 1]) + (if Matches(name, last) then [] else [last])
  }

  /** `if -d: foreach matching file: unlink`. */
  method DeleteStale(name: string, dir: seq<Entry>) returns (rest: seq<Entry>)
    ensures rest == Survivors(name, dir)
  {
    rest := [];
    var i := 0;
    while i < |dir|
      invariant 0 <= i <= |dir|
      invariant rest == Survivors(name, dir[..i])
    {
      assert dir[..i + 1][..i] == dir[..i];
      if !Matches(name, dir[i]) {
        rest := rest + [dir[i]];
      }
      i := i + 1;
    }
    assert dir[..i] == dir;
  }

  /** After the delete-stale pass no frame of the run is listed. */
  lemma {:induction false} SurvivorsListNothing(name: string, dir: seq<Entry>)
    ensures Listing(name, Survivors(name, dir)) == []
    decreases |dir|
  {
    if dir != [] {
      var last := dir[|dir| - 1];
      SurvivorsListNothing(name, dir[..|dir| - 1]);
      ListingAppend(name, Survivors(name, dir[..|dir| - 1]), if Matches(name, last) then [] else [last]);
      if !Matches(name, last) {
        assert [last][..0] == [];
      }
    }
  }

  /** The entries of `dir` whose names are not in `names`. */
  function Without(dir: seq<Entry>, names: seq<string>): (r: seq<Entry>)
    ensures |r| <= |dir|
    ensures forall e :: e in r <==> e in dir && e.filename !in names
  {
    if dir == [] then []
    else
      var last := dir[|dir| - 1];
      assert forall e :: e in dir <==> e in dir[..|dir| - 1] || e == last;
      Without(dir[..|dir| - 1], names) + (if last.filename in names then [] else [last])
  }

  /** The names the extraction writes when it selects `count` frames. */
  function Extracted(name: string, count: nat): (r: seq<string>)
    ensures |r| == count
    ensures forall i :: 0 <= i < count ==> r[i] == FrameFileName(name, i + 1)
  {
    seq(count, i requires 0 <= i < count => FrameFileName(name, i + 1))
  }

  function AsFiles(names: seq<string>): (r: seq<Entry>)
    ensures |r| == |names|
    ensures forall i :: 0 <= i < |names| ==> r[i] == Entry(names[i], true)
  {
    seq(|names|, i requires 0 <= i < |names| => Entry(names[i], true))
  }

  /** The directory after the extraction: `-y` overwrites files of the same
      name, new files come after the old entries. */
  function AfterExtraction(dir: seq<Entry>, written: seq<string>): seq<Entry>
  {
    Without(dir, written) + AsFiles(written)
  }

  /** The extraction's files, as the filter lists them: all of them, in
      frame order, up to frame 9999. */
  lemma ListingOfExtracted(name: string, count: nat)
    ensures Listing(name, AsFiles(Extracted(name, count))) == Extracted(name, if count < 10000 then count else 9999)
  {
    var written := Extracted(name, count);
    var k := if count < 10000 then count else 9999;
    forall i | 0 <= i < k ensures IsFrameFile(name, written[i]) {
      FrameFileNameMatches(name, i + 1);
    }
    forall i | k <= i < count ensures !IsFrameFile(name, written[i]) {
      FramesPast9999Unlisted(name, i + 1);
    }
    ListingOfFiles(name, written, k);
  }

  /** Files whose first k names are frames of the run and whose other names
      are not are listed as those k names, in order. */
  lemma {:induction false} ListingOfFiles(name: string, names: seq<string>, k: nat)
    requires k <= |names|
    requires forall i :: 0 <= i < k ==> IsFrameFile(name, names[i])
    requires forall i :: k <= i < |names| ==> !IsFrameFile(name, names[i])
    ensures Listing(name, AsFiles(names)) == names[..k]
    decreases |names|
  {
    if names != [] {
      var n := |names|;
      var init := names[..n - 1];
      assert AsFiles(names)[..n - 1] == AsFiles(init);
      if k == n {
        ListingOfFiles(name, init, n - 1);
        assert names[..k] == init + [names[n - 1]];
      } else {
        ListingOfFiles(name, init, k);
        assert init[..k] == names[..k];
      }
    }
  }

  /** With delete-stale, the frames listed after the extraction are exactly
      those this extraction wrote, whatever the directory held before: a second
      run lists as many frames as the first, nothing accumulates. */
  lemma DeleteStaleForgetsEarlierRuns(name: string, dir: seq<Entry>, count: nat)
    requires count < 10000
    ensures Listing(name, AfterExtraction(Survivors(name, dir), Extracted(name, count))) == Extracted(name, count)
  {
    var written := Extracted(name, count);
    var kept := Without(Survivors(name, dir), written);
    assert Listing(name, kept) == [] by {
      NothingMatches(name, kept);
    }
    ListingAppend(name, kept, AsFiles(written));
    ListingOfExtracted(name, count);
  }

  lemma {:induction false} NothingMatches(name: string, dir: seq<Entry>)
    requires forall e :: e in dir ==> !Matches(name, e)
    ensures Listing(name, dir) == []
    decreases |dir|
  {
    if dir != [] {
      assert dir[|dir| - 1] in dir;
      assert forall e :: e in dir[..|dir| - 1] ==> e in dir;
      NothingMatches(name, dir[..|dir| - 1]);
    }
  }

  /** Without delete-stale, a frame left by an earlier, longer run is listed
      again beside the new frames. */
  lemma StaleFrameListedWithoutDelete(name: string, dir: seq<Entry>, count: nat, k: nat)
    requires count < k < 10000
    requires Entry(FrameFileName(name, k), true) in dir
    ensures FrameFileName(name, k) in Listing(name, AfterExtraction(dir, Extracted(name, count)))
  {
    var written := Extracted(name, count);
    var stale := Entry(FrameFileName(name, k), true);
    FrameFileNameMatches(name, k);
    assert FrameFileName(name, k) !in written by {
      forall i | 0 <= i < count ensures written[i] != FrameFileName(name, k) {
        FrameFileNameMatches(name, i + 1);
      }
    }
    var after := AfterExtraction(dir, written);
    assert stale in Without(dir, written);
    assert stale in after;
    var i :| 0 <= i < |after| && after[i] == stale;
  }

  /** The extraction's names are already in natural order, ... */
  lemma ExtractedInOrder(name: string, count: nat)
    requires count < 10000
    ensures AllNumbered(Extracted(name, count)) && Sorted(Extracted(name, count))
  {
    var x := Extracted(name, count);
    forall i | 0 <= i < count ensures Numbered(x[i]) && Stem(x[i]) == name + "-" && Number(x[i]) == i + 1 {
      FrameFileNameMatches(name, i + 1);
    }
  }

  /** ... so in whatever order the directory yields them, the natural sort
      puts frame k at position k - 1: sorted order is the order in which the
      frames were sampled. */
  lemma SortRestoresSamplingOrder(name: string, count: nat, listed: seq<string>)
    requires count < 10000
    requires multiset(listed) == multiset(Extracted(name, count))
    ensures AllNumbered(listed)
    ensures NaturalSort(listed) == Extracted(name, count)
  {
    ExtractedInOrder(name, count);
    SortIgnoresListingOrder(Extracted(name, count), listed);
    SortedIsFixed(Extracted(name, count));
  }

  /** Every listed name is a numbered `.jpg`, so the listing can be sorted. */
  lemma ListingNumbered(name: string, dir: seq<Entry>)
    ensures AllNumbered(Listing(name, dir))
  {
    var r := Listing(name, dir);
    forall i | 0 <= i < |r| ensures Numbered(r[i]) {
      assert r[i] in r;
      FrameFileIsNumbered(name, r[i]);
    }
  }

  /** Every frame of the run in the directory is listed. */
  lemma FrameListed(name: string, dir: seq<Entry>, e: Entry)
    requires e in dir
    ensures Matches(name, e) ==> e.filename in Listing(name, dir)
  {
    var i :| 0 <= i < |dir| && dir[i] == e;
  }

  /** Removing the listed names leaves no frame of the run listed, and keeps
      every entry whose name is not a frame name of the run. */
  lemma RemovingListedFrames(name: string, dir: seq<Entry>, files: seq<string>)
    requires multiset(files) == multiset(Listing(name, dir))
    ensures Listing(name, Without(dir, files)) == []
    ensures forall e :: e in dir && !IsFrameFile(name, e.filename) ==> e in Without(dir, files)
  {
    var rest := Without(dir, files);
    forall e | e in rest ensures !Matches(name, e) {
      assert multiset(files)[e.filename] == 0;
      FrameListed(name, dir, e);
    }
    NothingMatches(name, rest);
    forall e | e in dir && !IsFrameFile(name, e.filename) ensures e.filename !in files {
      assert e.filename !in Listing(name, dir);
      assert multiset(files)[e.filename] == 0;
    }
  }

  /** Sprite-mode tidy-up: `for f < total: unlink(files[f])`. */
  method UnlinkAll(dir: seq<Entry>, files: seq<string>) returns (rest: seq<Entry>)
    ensures rest == Without(dir, files)
  {
    rest := dir;
    WithoutNothing(dir);
    var f := 0;
    while f < |files|
      invariant 0 <= f <= |files|
      invariant rest == Without(dir, files[..f])
    {
      WithoutOneMore(dir, files[..f], files[f]);
      assert files[..f + 1] == files[..f] + [files[f]];
      rest := Without(rest, [files[f]]);
      f := f + 1;
    }
    assert files[..f] == files;
  }

  lemma {:induction false} WithoutOneMore(dir: seq<Entry>, names: seq<string>, x: string)
    ensures Without(Without(dir, names), [x]) == Without(dir, names + [x])
    decreases |dir|
  {
    if dir != [] {
      var init, last := dir[..|dir| - 1], dir[|dir| - 1];
      var tail := if last.filename in names then [] else [last];
      WithoutOneMore(init, names, x);
      WithoutAppend(Without(init, names), tail, [x]);
      if tail != [] {
        assert Without(tail, [x]) == Without([], [x]) + (if last.filename in [x] then [] else [last]) by {
          assert tail[..0] == [];
        }
      }
    }
  }

  lemma {:induction false} WithoutAppend(a: seq<Entry>, b: seq<Entry>, names: seq<string>)
    ensures Without(a + b, names) == Without(a, names) + Without(b, names)
    decreases |b|
  {
    if b == [] {
      assert a + b == a;
    } else {
      assert (a + b)[..|a + b| - 1] == a + b[..|b| - 1];
      WithoutAppend(a, b[..|b| - 1], names);
    }
  }

  lemma {:induction false} WithoutNothing(dir: seq<Entry>)
    ensures Without(dir, []) == dir
    decreases |dir|
  {
    if dir != [] {
      WithoutNothing(dir[..|dir| - 1]);
      assert dir == dir[..|dir| - 1] + [dir[|dir| - 1]];
    }
  }
}
