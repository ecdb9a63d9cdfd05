/** `createthumbnail`: the checks in the order the generator makes them, the
    optional delete-stale pass, the frame extraction, the listing and its
    natural sort, the sprite layout, the cue text and the sprite-mode tidy-up.
    What the run learns from the outside world (file permissions, the HEAD
    request, the probe, the directory, the extraction, the image size) is an
    input; what it leaves behind is the result. */
module Generator {
  import opened Outcomes
  import Options
  import SourceCheck
  import Naming
  import opened FrameFiles
  import opened NaturalOrder
  import opened Sprite
  import opened Vtt

  /** `-v` with a value other than `false`: one image file per cue
      (`Verbose`); `-v` as a bare flag, which getopt reports as `false`: the
      frames are merged into one sprite image (`Coalesce`). */
  datatype Mode = Verbose | Coalesce

  /** The options the generator reads: `-i`, `-n`, `-t`, `-w` (as their
      integer values), `-v` and `-d`. */
  datatype Request = Request(
    input: string,
    name: Option<string>,
    timespan: Option<int>,
    thumbWidth: Option<int>,
    mode: Mode,
    deleteStale: bool)

  /** What the outside world reports to the run. */
  datatype Environment = Environment(
    readable: bool,                 // `is_readable(-i)`
    isUrl: bool,                    // `filter_var(-i, FILTER_VALIDATE_URL)`
    fetched: bool,                  // the HEAD request returned data
    status: int,                    // its final status code
    contentType: Option<string>,    // its Content-Type
    outputWritable: bool,           // `is_writable(output)`
    thumbsExist: bool,              // `output/thumbnails` exists
    mkdirSucceeds: bool,            // `mkdir` would succeed
    banner: bool,                   // the probe printed ffmpeg's version banner
    thumbs: seq<Entry>,             // `output/thumbnails` before the run
    extracted: nat,                 // the number of frames the extraction selects
    frameWidth: nat,                // `getimagesize` of the first frame
    frameHeight: nat)

  /** What a completed run produces. */
  datatype Output = Output(
    name: string,
    timespan: nat,
    thumbWidth: nat,                // the width the extraction scales to
    frames: seq<string>,            // the sorted frame files the cues use
    target: Target,                 // individual files, or the sprite layout
    vtt: string,                    // the content of `{name}.vtt`
    thumbs: seq<Entry>)             // `output/thumbnails` after the run

  /** `is_readable`, else a URL whose HEAD request serves `video/mp4`. */
  predicate InputAccepted(env: Environment)
  {
    SourceCheck.CheckInput(env.readable, env.isUrl,
      SourceCheck.UrlVerdict(env.fetched, env.status, env.contentType)).None?
  }

  /** Every check before the extraction passes. */
  predicate Prepared(env: Environment)
  {
    InputAccepted(env) && env.outputWritable && (env.thumbsExist || env.mkdirSucceeds) && env.banner
  }

  /** `thumbnails/` after the optional delete-stale pass and the extraction. */
  function Directory(deleteStale: bool, name: string, env: Environment): seq<Entry>
  {
    var kept := if deleteStale then Survivors(name, env.thumbs) else env.thumbs;
    AfterExtraction(kept, Extracted(name, env.extracted))
  }

  function TargetOf(mode: Mode, frames: seq<string>, env: Environment): (t: Target)
    requires |frames| >= 1
    ensures ValidTarget(t)
  {
    match mode
    case Verbose => IndividualFiles
    case Coalesce => SpriteSheet(MakeLayout(|frames|, env.frameWidth, env.frameHeight))
  }

  /** The outcome of `createthumbnail`: the first failing check ends the run
      with its error; a run whose listing is empty ends with `NoFramesFound`
      and writes no VTT file. */
  function Run(req: Request, env: Environment): (r: Result<Output>)
    ensures !InputAccepted(env) ==> r == Failure(InputUnreadable)
    ensures InputAccepted(env) && !env.outputWritable ==> r == Failure(OutputNotWritable)
    ensures InputAccepted(env) && env.outputWritable && !env.thumbsExist && !env.mkdirSucceeds
            ==> r == Failure(DirectoryCreateFailed)
    ensures InputAccepted(env) && env.outputWritable && (env.thumbsExist || env.mkdirSucceeds) && !env.banner
            ==> r == Failure(ToolUnavailable)
    ensures Prepared(env) ==>
      var name := Naming.ResolveName(req.name, req.input);
      (r == Failure(NoFramesFound) <==> Listing(name, Directory(req.deleteStale, name, env)) == [])
    ensures r.Success? ==> Prepared(env)
  {
    if !InputAccepted(env) then Failure(InputUnreadable)
    else if !env.outputWritable then Failure(OutputNotWritable)
    else if !env.thumbsExist && !env.mkdirSucceeds then Failure(DirectoryCreateFailed)
    else if !env.banner then Failure(ToolUnavailable)
    else
      var timespan := Options.Override(req.timespan, Options.DefaultTimespan);
      var thumbWidth := Options.Override(req.thumbWidth, Options.DefaultThumbWidth);
      var name := Naming.ResolveName(req.name, req.input);
      var dir := Directory(req.deleteStale, name, env);
      var listed := Listing(name, dir);
      if listed == [] then Failure(NoFramesFound)
      else
        ListingNumbered(name, dir);
        var frames := NaturalSort(listed);
        var target := TargetOf(req.mode, frames, env);
        var vtt := VttText(frames, timespan, name, target);
        var after := if req.mode == Coalesce then Without(dir, frames) else dir;
        Success(Output(name, timespan, thumbWidth, frames, target, vtt, after))
  }

  /** A completed run: its frames are the listed frames of the run in
      natural order; the VTT file is the header and one cue per frame; in
      verbose mode every frame file stays beside the VTT file; in coalesce
      mode the sprite is laid out for the frame count, every frame of the run
      is deleted afterwards and every other file is kept. */
  lemma CompletedRun(req: Request, env: Environment)
    requires Run(req, env).Success?
    ensures var out := Run(req, env).value;
      var dir := Directory(req.deleteStale, out.name, env);
      && out.name == Naming.ResolveName(req.name, req.input)
      && out.timespan > 0 && out.thumbWidth > 0
      && |out.frames| >= 1 && AllNumbered(out.frames) && Sorted(out.frames)
      && multiset(out.frames) == multiset(Listing(out.name, dir))
      && (forall f :: f in out.frames ==> IsFrameFile(out.name, f))
      && ValidTarget(out.target)
      && out.vtt == Header + Join(Render(Cues(out.frames, out.timespan, out.name, out.target)))
      && (req.mode == Verbose ==>
            && out.target == IndividualFiles
            && forall f :: f in out.frames ==> Entry(f, true) in out.thumbs)
      && (req.mode == Coalesce ==>
            && out.target == SpriteSheet(MakeLayout(|out.frames|, env.frameWidth, env.frameHeight))
            && Listing(out.name, out.thumbs) == []
            && forall e :: e in dir && !IsFrameFile(out.name, e.filename) ==> e in out.thumbs)
  {
    var out := Run(req, env).value;
    var dir := Directory(req.deleteStale, out.name, env);
    var listed := Listing(out.name, dir);
    ListingNumbered(out.name, dir);
    assert out.frames == NaturalSort(listed);
    forall f | f in out.frames ensures IsFrameFile(out.name, f) {
      assert f in multiset(listed);
    }
    VttIsHeaderThenCues(out.frames, out.timespan, out.name, out.target);
    if req.mode == Verbose {
      forall f | f in out.frames ensures Entry(f, true) in out.thumbs {
        assert f in multiset(listed);
        ListedFramePresent(out.name, dir, f);
      }
    } else {
      RemovingListedFrames(out.name, dir, out.frames);
    }
  }

  /** A listed name is the name of a file in the directory. */
  lemma {:induction false} ListedFramePresent(name: string, dir: seq<Entry>, f: string)
    requires f in Listing(name, dir)
    ensures Entry(f, true) in dir
    decreases |dir|
  {
    var init, last := dir[..|dir| - 1], dir[|dir| - 1];
    if f in Listing(name, init) {
      ListedFramePresent(name, init, f);
      assert forall e :: e in init ==> e in dir;
    } else {
      assert last == Entry(f, true);
    }
  }

  /** With `-d`, a run whose extraction selects between 1 and 9999 frames
      uses exactly those frames, in the order they were sampled, whatever an
      earlier run left in `thumbnails/`: cue i refers to frame i + 1. */
  lemma FreshRunUsesExtractedFrames(req: Request, env: Environment)
    requires Prepared(env) && req.deleteStale
    requires 1 <= env.extracted < 10000
    ensures Run(req, env).Success?
    ensures Run(req, env).value.frames == Extracted(Run(req, env).value.name, env.extracted)
  {
    var name := Naming.ResolveName(req.name, req.input);
    var written := Extracted(name, env.extracted);
    DeleteStaleForgetsEarlierRuns(name, env.thumbs, env.extracted);
    assert Listing(name, Directory(req.deleteStale, name, env)) == written;
    SortedIsFixed(written) by {
      ExtractedInOrder(name, env.extracted);
    }
  }

  /** With `-d` and an extraction that selects nothing, the run ends with
      `NoFramesFound` and exit code 66. */
  lemma NothingExtractedFails(req: Request, env: Environment)
    requires Prepared(env) && req.deleteStale && env.extracted == 0
    ensures Run(req, env) == Failure(NoFramesFound)
    ensures ExitCode(Run(req, env).error) == 66
  {
    var name := Naming.ResolveName(req.name, req.input);
    DeleteStaleForgetsEarlierRuns(name, env.thumbs, 0);
  }

  /** Without `-d`, a frame left by an earlier, longer run becomes one more
      cue of this run. */
  lemma StaleFrameBecomesCue(req: Request, env: Environment, k: nat)
    requires Prepared(env) && !req.deleteStale
    requires env.extracted < k < 10000
    requires Entry(FrameFileName(Naming.ResolveName(req.name, req.input), k), true) in env.thumbs
    ensures Run(req, env).Success?
    ensures FrameFileName(Run(req, env).value.name, k) in Run(req, env).value.frames
  {
    var name := Naming.ResolveName(req.name, req.input);
    StaleFrameListedWithoutDelete(name, env.thumbs, env.extracted, k);
    var listed := Listing(name, Directory(req.deleteStale, name, env));
    ListingNumbered(name, Directory(req.deleteStale, name, env));
    assert FrameFileName(name, k) in multiset(NaturalSort(listed));
  }

  /** The generator, step by step in the source's order. */
  method CreateThumbnail(req: Request, env: Environment) returns (r: Result<Output>)
    ensures r == Run(req, env)
  {
    var timespan := Options.Override(req.timespan, Options.DefaultTimespan);
    var thumbWidth := Options.Override(req.thumbWidth, Options.DefaultThumbWidth);
    if !env.readable {
      if env.isUrl {
        if !SourceCheck.UrlVerdict(env.fetched, env.status, env.contentType) {
          return Failure(InputUnreadable);
        }
      } else {
        return Failure(InputUnreadable);
      }
    }
    if !env.outputWritable {
      return Failure(OutputNotWritable);
    }
    if !env.thumbsExist && !env.mkdirSucceeds {
      return Failure(DirectoryCreateFailed);
    }
    if !env.banner {
      return Failure(ToolUnavailable);
    }
    var name := Naming.ResolveName(req.name, req.input);
    var dir := env.thumbs;
    if req.deleteStale {
      dir := DeleteStale(name, dir);
    }
    dir := AfterExtraction(dir, Extracted(name, env.extracted));
    var files := Listing(name, dir);
    if |files| == 0 {
      return Failure(NoFramesFound);
    }
    ListingNumbered(name, dir);
    files := NaturalSort(files);
    var target := TargetOf(req.mode, files, env);
    var vtt := EmitVtt(files, timespan, name, target);
    if req.mode == Coalesce {
      dir := UnlinkAll(dir, files);
    }
    return Success(Output(name, timespan, thumbWidth, files, target, vtt, dir));
  }
}
