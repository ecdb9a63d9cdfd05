# thumbnail-webvtt, modelled in Dafny

This project models `createthumbnail` from `generator.php`. That function:

- takes a video (a local file, or a URL that serves `video/mp4`);
- samples one frame every `timespan` seconds with ffmpeg into `thumbnails/{name}-dddd.jpg`;
- lists the frames of the run and sorts them in natural order;
- in *coalesce* mode, lays the frames out on a sprite sheet `min(total, 10)` columns wide;
- writes `{name}.vtt`, a WebVTT file with the header `WEBVTT` and one cue per frame;
- in coalesce mode, deletes the frame files afterwards.

Each cue covers one time span, with timestamps formatted `%02d:%02d:%02d.000`. It refers either to `thumbnails/<frame file>` or to `{name}.jpg#xywh=x,y,w,h`, the frame's rectangle in the sprite. The project also models the boolean verdict of `checkurl`.

The modules follow the steps of the function:

| module | what it models |
|---|---|
| `Outcomes` | the five early exits and their exit codes |
| `Options` | how `-t`/`-w` replace their defaults |
| `SourceCheck` | input acceptance and the `checkurl` verdict |
| `Probe` | the duration computed from the probe's captured digit groups |
| `Naming` | `basename` and the default name |
| `Text` | `%d`, `%0Nd` and `strtolower` |
| `FrameFiles` | the frame-file filter, the delete-stale loop, the extraction's files, the listing and the sprite-mode cleanup loop |
| `NaturalOrder` | `sort(..., SORT_NATURAL)` on frame names |
| `Sprite` | the sprite grid |
| `Vtt` | timestamps, cues and the emission loop with its counters `f`, `s`, `rx`, `ry` |
| `Generator` | the whole run |

The outside world is an input of the run, `Generator.Environment`. That covers:

- permissions;
- the HEAD request's outcome;
- whether ffmpeg's banner appeared;
- the directory's entries;
- how many frames the extraction selects;
- the first frame's size.

The run's result is either an error or an `Output`. An `Output` holds the name, the sorted frames, the target (individual files or a sprite layout), the VTT text, and the directory the run leaves.

The emission loop is proved against a closed form. Cue `i` spans `[i*timespan, (i+1)*timespan]`. In sprite mode it sits in cell `(i mod cols, i div cols)`. The loop's running clock `s` equals `Clock(f) = f*timespan`. The counters `rx` and `ry` satisfy `ry*cols + rx == f`, with `1 <= rx <= cols` once `f > 0`.

The model takes frame files by their file name. The source sorts full paths, but all of them share the `thumbnails/` directory, so the order is the same. The source then takes the `basename` of each path, which is the file name.

## Model

| member | source | states |
|---|---|---|
| Outcomes.ExitCode | generator.php:32-35 | unreadable input and no frames exit 66, an unwritable output or a failed `mkdir` exit 73, a missing ffmpeg exits 69 |
| Options.OverrideAsWritten | generator.php:42-47 | as written: the option replaces the default whenever its integer value is non-zero, negative values included |
| Options.NegativeTimespanAccepted | generator.php:42-44 | `-t -5` passes the guard and sets a negative time span |
| Options.Override | generator.php:42-47 | as intended: only a positive value replaces the default, so the result is always positive |
| Options.OverrideAgreesOnNonNegative | generator.php:42-47 | the intended guard agrees with the written one for absent, zero and positive options |
| SourceCheck.UrlVerdict | generator.php:186 | `checkurl` is true exactly when the request returned data, the status is 200 and the Content-Type is `video/mp4` |
| SourceCheck.CheckInput | generator.php:50-61 | the input is refused exactly when it is unreadable and not a URL that passes `checkurl`; the only error is "input unreadable" |
| Probe.Duration | generator.php:82-84 | a missing `Duration:` line gives 0; otherwise the value is defined as `H*3600 + M*60 + S` of the captured groups, and `Probe.DurationSplitsBack` states what it means |
| Probe.DurationSplitsBack | generator.php:82-84 | with minutes and seconds below 60 the duration splits back into the reported fields, and the fraction has no effect |
| Naming.Basename | generator.php:88 | definition of `basename` for `/` paths: trailing slashes dropped, then the last component; `Naming.AfterLastSlash` states that component is slash-free and a suffix of the path |
| Naming.LastDot | generator.php:88 | `strrpos(., '.')` finds the last dot, or nothing when there is none |
| Naming.AfterLastSlash | generator.php:88 | the part of a path after its last `/` holds no `/` and is a suffix of the path |
| Naming.DefaultName | generator.php:88 | definition of the default name: `strtolower(substr(basename, 0, strrpos(basename, '.')))`, the empty name when there is no dot; `Naming.DefaultNameShape` and `Naming.DefaultNameOfFile` state what it gives |
| Naming.ResolveName | generator.php:88 | `-n` wins when given, else the default name |
| Naming.DefaultNameShape | generator.php:88 | the default name holds no upper-case ASCII letter and no `/` |
| Naming.DefaultNameOfFile | generator.php:88 | for `dir/stem.ext` the default name is the lower-cased stem, inner dots kept |
| Text.DecimalStringReadsBack | generator.php:150 | `%d` writes digits only, reads back as the number, and has no leading zero |
| Text.ZeroPadReadsBack | generator.php:139 | `%0Nd` reads back as the number, is at least N wide, and is exactly N wide when the number fits |
| Text.DecimalLength | generator.php:29 | `%d` uses at most k digits exactly when the value is below 10^k |
| Text.ToLower | generator.php:88 | `strtolower` keeps the length and lower-cases each ASCII letter |
| FrameFiles.IsFrameFile | generator.php:96-101 | definition of the filter `{name}-\d{4}\.jpg$`: the file name ends with the name, `-`, four digits and `.jpg`, with no anchor at the start; `FrameFiles.FrameFileNameMatches` and `FrameFiles.FramesPast9999Unlisted` state which extracted names it lets through |
| FrameFiles.FrameFileNameMatches | generator.php:96-101 | each name the extraction's `%04d` pattern gives a frame below 10000 passes the filter, with stem `{name}-` and its own number |
| FrameFiles.FramesPast9999Unlisted | generator.php:29 | from frame 10000 on, `%04d` writes five digits and the filter never lists the file |
| FrameFiles.AfterExtraction | generator.php:111-114 | definition of the directory after extraction: the extraction overwrites entries of the same name, and its files follow the old entries; `FrameFiles.ListingOfExtracted` and `FrameFiles.StaleFrameListedWithoutDelete` state what is then listed |
| FrameFiles.Listing | generator.php:115-119 | the listing holds only frames of the run, and every matching file in the directory |
| FrameFiles.DeleteStale | generator.php:103-110 | the delete-stale loop leaves exactly the entries that are not frames of the run |
| FrameFiles.Survivors | generator.php:103-110 | after the delete-stale pass every survivor was in the directory and is not a frame, and every entry that is not a frame survives |
| FrameFiles.SurvivorsListNothing | generator.php:103-119 | after the delete-stale pass the listing is empty |
| FrameFiles.ListingOfExtracted | generator.php:111-119 | the extraction's own files are listed in frame order, up to frame 9999 |
| FrameFiles.DeleteStaleForgetsEarlierRuns | generator.php:103-119 | with `-d` the listing is exactly what this extraction wrote, whatever the directory held |
| FrameFiles.StaleFrameListedWithoutDelete | generator.php:111-119 | without `-d` a frame from an earlier, longer run is listed beside the new ones |
| FrameFiles.SortRestoresSamplingOrder | generator.php:124 | whatever order the directory yields the extraction's files in, the natural sort puts frame k at position k-1 |
| FrameFiles.Without | generator.php:107-108 | an entry remains exactly when it was in the directory and its name is not among the unlinked names |
| FrameFiles.UnlinkAll | generator.php:158-160 | the cleanup loop removes exactly the entries whose names are among the frames |
| FrameFiles.RemovingListedFrames | generator.php:156-162 | removing the listed frames leaves no frame of the run listed and keeps every entry that is not a frame name |
| NaturalOrder.BeforeTotal | generator.php:124 | any two frame names are ordered one way or the other |
| NaturalOrder.BeforeAntisymmetric | generator.php:124 | two names ordered both ways are the same name |
| NaturalOrder.BeforeTransitive | generator.php:124 | the order is transitive |
| NaturalOrder.Insert | generator.php:124 | insertion adds exactly one element and keeps a sorted sequence sorted |
| NaturalOrder.NaturalSort | generator.php:124 | the sort's result is sorted and a permutation of its input |
| NaturalOrder.SortIgnoresListingOrder | generator.php:124 | two listings of the same names sort to the same sequence |
| NaturalOrder.SortedIsFixed | generator.php:124 | a sorted sequence is its own sort |
| Sprite.CeilDiv | generator.php:130 | `ceil(n/d)` is the least q with `q*d >= n` |
| Sprite.MakeLayout | generator.php:128-132 | `cols = min(total, 10) >= 1`, `rows*cols >= total`, `(rows-1)*cols < total`, the frame size kept |
| Sprite.CellInsideCanvas | generator.php:128-132 | every frame's cell lies inside the `fw*cols` by `fh*rows` canvas |
| Sprite.CellsDisjoint | generator.php:145-150 | two different frames get cells that do not overlap |
| Vtt.Timestamp | generator.php:139-141 | definition of `%02d:%02d:%02d.000` of `s/3600`, `s/60 % 60` and `s % 60`; `Vtt.TimestampReadsBack` states that it reads back |
| Vtt.XywhRef | generator.php:150 | definition of `{name}.jpg#xywh=%d,%d,%d,%d`; `Text.DecimalStringReadsBack` states each number reads back, `Vtt.CueReference` states which numbers cue i uses |
| Vtt.TimestampReadsBack | generator.php:139-141 | every clock value formats to a timestamp that reads back to it; the timestamp is 12 characters exactly below 100 hours |
| Vtt.ClockIsProduct | generator.php:138-141 | the running clock after i cues is `i*timespan` |
| Vtt.CuesAbut | generator.php:138-141 | cue i spans `[i*timespan, (i+1)*timespan]`, each cue ends where the next starts, and the last ends at `total*timespan` |
| Vtt.CueTimesReadBack | generator.php:139-141 | both timestamps of cue i read back as `i*timespan` and `(i+1)*timespan` |
| Vtt.CueReference | generator.php:142-150 | cue i refers to `thumbnails/` plus frame i in verbose mode, and to the cell `(i mod cols, i div cols)` one frame in size in sprite mode |
| Vtt.SpriteCueInsideCanvas | generator.php:127-150 | each sprite cue's rectangle lies inside the sprite canvas |
| Vtt.Cues | generator.php:138-150 | one cue per frame, in the order of the files; cue i is the closed form the loop is proved against, described by `Vtt.CuesAbut`, `Vtt.CueTimesReadBack` and `Vtt.CueReference` |
| Vtt.VttText | generator.php:137-153 | definition of the whole file in closed form; `Vtt.VttIsHeaderThenCues` states its shape and `Vtt.EmitVtt` proves the loop computes it |
| Vtt.VttIsHeaderThenCues | generator.php:137-153 | the VTT text is `WEBVTT\n\n` followed by exactly one block `t1 --> t2\nref\n\n` per frame, in sorted order |
| Vtt.BlockText | generator.php:139-152 | the block of cue f is its two timestamps joined by ` --> `, a newline, its reference line and a blank line |
| Vtt.SpriteStep | generator.php:145-150 | one sprite iteration leaves `rx`, `ry` naming frame f's cell and then the counters for frame f+1 |
| Vtt.NextSpriteRef | generator.php:145-150 | the row test and `rx++` produce frame f's cell reference and keep the counters' invariant |
| Vtt.NextReference | generator.php:142-150 | the reference line of cue f in either mode, and the counters after it |
| Vtt.AppendCue | generator.php:139-152 | writing cue f extends the text of cues 0..f-1 to the text of cues 0..f |
| Vtt.EmitVtt | generator.php:137-153 | the loop's output is the header and the closed-form cues of all frames |
| Generator.Run | generator.php:38-164 | the first failing check decides the error, in the source's order; once the checks pass, the run fails exactly when the listing is empty |
| Generator.CompletedRun | generator.php:88-164 | a completed run holds the sorted listing. Its VTT text is the header and one cue per frame. Verbose mode keeps every frame file. Coalesce mode lays out the sprite for the frame count, then deletes every frame and keeps every other file |
| Generator.FreshRunUsesExtractedFrames | generator.php:103-124 | with `-d` and 1 to 9999 extracted frames, the run uses exactly those frames, in sampling order |
| Generator.NothingExtractedFails | generator.php:120-123 | with `-d` and nothing extracted, the run ends with "no frames" and exit code 66 |
| Generator.StaleFrameBecomesCue | generator.php:103-124 | without `-d`, a stale frame of a longer earlier run becomes a cue of this run |
| Generator.CreateThumbnail | generator.php:38-164 | the step-by-step run returns exactly the specified outcome |

## Left out

- The ffmpeg invocations, and the probe's version-banner regex. The banner check becomes a boolean input. The duration is computed from the captured digit groups; matching them in ffmpeg's free text is not modelled.
- The poster: `rand` and the poster extraction are not modelled. The duration feeds nothing else in the source, so `Probe` stands on its own.
- Floating point: the seek offset `$start + .0001`, `tbr` and the selection stride `timespan * tbr`. The extraction is modelled only through the number of frames it selects.
- GD image work: `getimagesize`, `imagecreatetruecolor`, `imagecopymerge` and `imagejpeg`. Only the first frame's size and the integer cell coordinates are modelled.
- The filesystem: `realpath`, `is_writable`, `mkdir`, `unlink`, `rmdir` and `file_put_contents`. The directory is a sequence of entries; other effects become boolean inputs or the `Output`. The final `rmdir` of `thumbnails/` is not modelled.
- The curl calls in `checkurl`: they become the transfer outcome, the final status and the Content-Type.
- `echo` messages and `exit`: each exit is an `Error` with its exit code.
- `-v` unset: it is left out. The source then reaches the sprite branch without a layout or a canvas. The mode is a required two-valued input.
- `-p` and `-d` are compared with `=== TRUE`, which getopt never produces. The model takes `-d` as a boolean.
- Option values are modelled by their integer value (`(int)` of the text). A fractional `-t` such as `2.5` passes the guard, since `(int)'2.5'` is 2, but the source stores the text and `$s += '2.5'` advances the clock by 2.5 seconds: its second cue is `00:00:02.000 --> 00:00:05.000`, the model's `00:00:02.000 --> 00:00:04.000`. Fractional time spans and the floating-point clock are not modelled. A fractional `-w` only reaches ffmpeg's scale filter, which is outside the model.
- `{name}` is inserted into the filter regex unescaped; regex metacharacters in the name are not modelled. A name is matched literally.
- PCRE's `$` also matches before a final newline; file names ending in a newline are not modelled.
- A `%` in the name would be read as a format directive by `sprintf`; not modelled.
- NaturalOrder: for names with different stems the model's order is in general not `strnatcmp`'s. The model compares stems by character and then the four-digit frame number. That is exact when the stems are equal, as they are for every frame this run extracts. The unanchored filter also lists other names: for the name `a`, both `a-0001.jpg` and `a-.a-0001.jpg` are listed. `strnatcmp` compares `'0'` with `'.'` and puts `a-.a-0001.jpg` first, while the model puts `a-0001.jpg` first, because the stem `a-` is a prefix of `a-.a-`. Digit runs inside differing stems are not compared numerically either.
- Generator.Run: uses the corrected `Options.Override`, not the guard as written, so a run with `-t -5` or `-w -5` keeps the default of 10 seconds or 120 pixels where the source would use -5. `Generator.CreateThumbnail` and `Generator.CompletedRun` follow it, and `out.timespan > 0` in `Generator.CompletedRun` holds because of it. `Options.NegativeTimespanAccepted` models the guard as written.
- `player.php` and `example.php` are not part of this model.

## Findings

| source | as written | input that shows it | evidently intended | confidence | as-written member | corrected member |
|---|---|---|---|---|---|---|
| generator.php:42-47 | `(int)$opts['t']` non-zero lets a negative value replace the default | `-t -5` gives a time span of -5, so every cue ends before it starts | only a positive interval and width are accepted | medium, not executed | Options.NegativeTimespanAccepted | Options.Override |

