/** The WebVTT text: a `WEBVTT` header and one cue per frame, in the sorted
    frame order, each lasting one time span and pointing at the frame's file
    or at its cell in the sprite sheet (the file structure and cue timings of
    sections 4.1 and 4.2 of the W3C WebVTT specification). */
module Vtt {
  import opened Outcomes
  import opened Text
  import Probe
  import opened Sprite

  const Header: string := "WEBVTT\n\n"

  /** `sprintf('%02d:%02d:%02d.000', s / 3600, s / 60 % 60, s % 60)`: PHP's
      float division truncated by `%d`, which for s >= 0 is floor division. */
  function Timestamp(s: nat): string
  {
    ZeroPad(s / 3600, 2) + ":" + ZeroPad((s / 60) % 60, 2) + ":" + ZeroPad(s % 60, 2) + ".000"
  }

  /** Reads a whole-second cue timestamp `H...H:MM:SS.000` (hours two digits
      or more, minutes and seconds two digits below 60) with the same
      `H*3600 + M*60 + S` rule the probe's duration uses. */
  function ReadTimestamp(t: string): (r: Option<nat>)
    ensures r.Some? ==> |t| >= 12
  {
    var n := |t|;
    if n >= 12 && t[n - 10] == ':' && t[n - 7] == ':' && t[n - 4..] == ".000"
       && AllDigits(t[..n - 10]) && AllDigits(t[n - 9..n - 7]) && AllDigits(t[n - 6..n - 4])
       && DecimalValue(t[n - 9..n - 7]) < 60 && DecimalValue(t[n - 6..n - 4]) < 60
    then Some(Probe.ClockSeconds(t[..n - 10], t[n - 9..n - 7], t[n - 6..n - 4]))
    else None
  }

  /** Every clock value formats to a timestamp that reads back to it; the
      timestamp is the 12 characters `HH:MM:SS.000` exactly when the clock is
      below 100 hours. */
  lemma TimestampReadsBack(s: nat)
    ensures ReadTimestamp(Timestamp(s)) == Some(s)
    ensures |Timestamp(s)| == 12 <==> s < 360000
  {
    var h, m, sec := s / 3600, (s / 60) % 60, s % 60;
    ZeroPadReadsBack(h, 2);
    ZeroPadReadsBack(m, 2);
    ZeroPadReadsBack(sec, 2);
    assert Pow10(2) == 100;
    ReadFields(ZeroPad(h, 2), ZeroPad(m, 2), ZeroPad(sec, 2));
    ClockIdentity(s);
  }

  /** Reading a timestamp assembled from three digit fields gives the clock
      value of those fields. */
  lemma ReadFields(H: string, M: string, S: string)
    requires AllDigits(H) && AllDigits(M) && AllDigits(S)
    requires |H| >= 2 && |M| == 2 && |S| == 2
    requires DecimalValue(M) < 60 && DecimalValue(S) < 60
    ensures ReadTimestamp(H + ":" + M + ":" + S + ".000") == Some(Probe.ClockSeconds(H, M, S))
    ensures |H + ":" + M + ":" + S + ".000"| == |H| + 10
  {
    var t := H + ":" + M + ":" + S + ".000";
    var n := |t|;
    assert t[..n - 10] == H;
    assert t[n - 10] == ':';
    assert t[n - 9..n - 7] == M;
    assert t[n - 7] == ':';
    assert t[n - 6..n - 4] == S;
    assert t[n - 4..] == ".000";
  }

  lemma ClockIdentity(s: nat)
    ensures (s / 3600) * 3600 + ((s / 60) % 60) * 60 + s % 60 == s
  {
    var q := s / 60;
    assert s == q * 60 + s % 60;
    assert q == (q / 60) * 60 + q % 60;
    assert q / 60 == s / 3600;
  }

  /** What a cue's reference line points at. */
  datatype Target = IndividualFiles | SpriteSheet(layout: Layout)

  predicate ValidTarget(target: Target)
  {
    target.SpriteSheet? ==> target.layout.cols >= 1
  }

  /** `{name}.jpg#xywh=%d,%d,%d,%d`: a media fragment naming the rectangle
      at (x, y) of size w x h in the sprite image. */
  function XywhRef(name: string, x: nat, y: nat, w: nat, h: nat): string
  {
    name + ".jpg#xywh=" + DecimalString(x) + "," + DecimalString(y) + "," + DecimalString(w) + "," + DecimalString(h)
  }

  /** The reference for cell i of the sprite sheet. */
  function SpriteRef(name: string, l: Layout, i: nat): string
    requires l.cols >= 1
  {
    XywhRef(name, CellX(l, i), CellY(l, i), l.frameWidth, l.frameHeight)
  }

  function Reference(files: seq<string>, name: string, target: Target, i: nat): string
    requires ValidTarget(target) && i < |files|
  {
    match target
    case IndividualFiles => "thumbnails/" + files[i]
    case SpriteSheet(l) => SpriteRef(name, l, i)
  }

  datatype Cue = Cue(start: nat, end: nat, ref: string)

  /** The running clock `s` after i cues: i time spans. */
  function Clock(i: nat, timespan: nat): (s: nat)
  {
    if i == 0 then 0 else Clock(i - 1, timespan) + timespan
  }

  lemma {:induction false} ClockIsProduct(i: nat, timespan: nat)
    ensures Clock(i, timespan) == i * timespan
  {
    if i > 0 {
      ClockIsProduct(i - 1, timespan);
      Distribute(i - 1, timespan);
    }
  }

  /** Cue i of the closed form: it covers `[i*timespan, (i+1)*timespan]` and
      refers to frame i. */
  function CueAt(files: seq<string>, timespan: nat, name: string, target: Target, i: nat): Cue
    requires ValidTarget(target) && i < |files|
  {
    Cue(Clock(i, timespan), Clock(i + 1, timespan), Reference(files, name, target, i))
  }

  function Cues(files: seq<string>, timespan: nat, name: string, target: Target): (cs: seq<Cue>)
    requires ValidTarget(target)
    ensures |cs| == |files|
  {
    seq(|files|, i requires 0 <= i < |files| => CueAt(files, timespan, name, target, i))
  }

  /** Cues follow one another without gap or overlap, each lasting one time
      span, from 0 to `total * timespan` whatever the media's duration. */
  lemma CuesAbut(files: seq<string>, timespan: nat, name: string, target: Target)
    requires ValidTarget(target)
    ensures var cs := Cues(files, timespan, name, target);
      (forall i :: 0 <= i < |cs| ==> cs[i].start == i * timespan && cs[i].end == cs[i].start + timespan)
      && (forall i, j :: 0 <= i && j == i + 1 && j < |cs| ==> cs[i].end == cs[j].start)
      && (|cs| > 0 ==> cs[0].start == 0 && cs[|cs| - 1].end == |files| * timespan)
  {
    var cs := Cues(files, timespan, name, target);
    forall i | 0 <= i < |cs| ensures cs[i].start == i * timespan {
      ClockIsProduct(i, timespan);
    }
    if |cs| > 0 {
      ClockIsProduct(|cs|, timespan);
    }
  }

  /** One cue block: the timing line and the reference line, then a blank
      line. */
  function CueText(c: Cue): string
  {
    CueLines(Timestamp(c.start), Timestamp(c.end), c.ref) + "\n\n"
  }

  function CueLines(t1: string, t2: string, ref: string): string
  {
    t1 + " --> " + t2 + "\n" + ref
  }

  /** Each cue's block, in order. */
  function Render(cs: seq<Cue>): (bs: seq<string>)
    ensures |bs| == |cs|
  {
    seq(|cs|, i requires 0 <= i < |cs| => CueText(cs[i]))
  }

  /** The strings `ss[lo]` up to `ss[hi - 1]`, one after another: the same
      text as `Join(ss[lo..hi])` (`ConcatIsJoin`). It exists only to keep the
      solver's work small: the last string is split off through a call of its
      own, so that unfolding the concatenation once never exposes a string's
      contents. The loop is proved against this form, the file's meaning is
      stated with `Join`. */
  function Concat(ss: seq<string>, lo: nat, hi: nat): string
    requires lo <= hi <= |ss|
    decreases hi - lo
  {
    if lo == hi then []
    else if lo + 1 == hi then ss[lo]
    else Concat(ss, lo, hi - 1) + Concat(ss, hi - 1, hi)
  }

  /** All the strings of `ss`, one after another. */
  function Join(ss: seq<string>): string
  {
    if ss == [] then [] else Join(ss[..|ss| - 1]) + ss[|ss| - 1]
  }

  lemma {:induction false} ConcatIsJoin(ss: seq<string>, n: nat)
    requires n <= |ss|
    ensures Concat(ss, 0, n) == Join(ss[..n])
    decreases n
  {
    if n > 0 {
      ConcatIsJoin(ss, n - 1);
      assert ss[..n][..n - 1] == ss[..n - 1];
      if n == 1 {
        assert Concat(ss, 0, 0) + ss[0] == ss[0];
      }
    }
  }

  /** The text of cue blocks lo up to (not including) hi, in frame order. */
  function CuesText(files: seq<string>, timespan: nat, name: string, target: Target, lo: nat, hi: nat): string
    requires ValidTarget(target) && lo <= hi <= |files|
  {
    Concat(Render(Cues(files, timespan, name, target)), lo, hi)
  }

  /** The whole file: the header and one block per frame. */
  function VttText(files: seq<string>, timespan: nat, name: string, target: Target): string
    requires ValidTarget(target)
  {
    Header + CuesText(files, timespan, name, target, 0, |files|)
  }

  /** The file is the header followed by exactly one block per frame: the
      blocks of the closed-form cues, in the order of `files`. */
  lemma VttIsHeaderThenCues(files: seq<string>, timespan: nat, name: string, target: Target)
    requires ValidTarget(target)
    ensures VttText(files, timespan, name, target) == Header + Join(Render(Cues(files, timespan, name, target)))
  {
    var bs := Render(Cues(files, timespan, name, target));
    ConcatIsJoin(bs, |bs|);
    assert bs[..|bs|] == bs;
  }

  /** Cue i refers to the frame's own file under `thumbnails/` in individual
      mode, and in sprite mode to the rectangle of cell `(i mod cols, i div
      cols)`, one frame in size, which lies inside the sprite canvas. */
  lemma CueReference(files: seq<string>, timespan: nat, name: string, target: Target, i: nat)
    requires ValidTarget(target) && i < |files|
    ensures var c := Cues(files, timespan, name, target)[i];
      && (target.IndividualFiles? ==> c.ref == "thumbnails/" + files[i])
      && (target.SpriteSheet? ==>
            var l := target.layout;
            c.ref == XywhRef(name, (i % l.cols) * l.frameWidth, (i / l.cols) * l.frameHeight, l.frameWidth, l.frameHeight))
  {
  }

  lemma SpriteCueInsideCanvas(files: seq<string>, timespan: nat, name: string, frameWidth: nat, frameHeight: nat, i: nat)
    requires i < |files|
    ensures var l := MakeLayout(|files|, frameWidth, frameHeight);
      var c := Cues(files, timespan, name, SpriteSheet(l))[i];
      && c.ref == XywhRef(name, CellX(l, i), CellY(l, i), frameWidth, frameHeight)
      && CellX(l, i) + frameWidth <= l.Width() && CellY(l, i) + frameHeight <= l.Height()
  {
    CellInsideCanvas(|files|, frameWidth, frameHeight, i);
  }

  /** Both timestamps of cue i read back as `i * timespan` and
      `(i + 1) * timespan`. */
  lemma CueTimesReadBack(files: seq<string>, timespan: nat, name: string, target: Target, i: nat)
    requires ValidTarget(target) && i < |files|
    ensures var c := Cues(files, timespan, name, target)[i];
      && ReadTimestamp(Timestamp(c.start)) == Some(i * timespan)
      && ReadTimestamp(Timestamp(c.end)) == Some((i + 1) * timespan)
  {
    var c := Cues(files, timespan, name, target)[i];
    ClockIsProduct(i, timespan);
    ClockIsProduct(i + 1, timespan);
    TimesReadBack(c, i * timespan, (i + 1) * timespan);
  }

  lemma TimesReadBack(c: Cue, start: nat, end: nat)
    requires c.start == start && c.end == end
    ensures ReadTimestamp(Timestamp(c.start)) == Some(start) && ReadTimestamp(Timestamp(c.end)) == Some(end)
  {
    TimestampReadsBack(start);
    TimestampReadsBack(end);
  }

  /** The counters `rx`, `ry` at the head of iteration f: `rx` has already
      been advanced past the previous cell. */
  predicate CountersAt(f: nat, rx: nat, ry: nat, cols: nat)
  {
    (f == 0 ==> rx == 0 && ry == 0) && (f > 0 ==> 1 <= rx <= cols && ry * cols + rx == f)
  }

  /** After the source's "new row" test, `rx` and `ry` are the column and the
      row of frame f. */
  lemma CounterStep(f: nat, rx: nat, ry: nat, cols: nat)
    requires cols >= 1 && f > 0 && CountersAt(f, rx, ry, cols)
    ensures f % cols == 0 ==> rx == cols && f / cols == ry + 1
    ensures f % cols != 0 ==> rx < cols && f % cols == rx && f / cols == ry
  {
    if rx == cols {
      assert f == (ry + 1) * cols;
      DivModUnique(f, cols, ry + 1, 0);
    } else {
      DivModUnique(f, cols, ry, rx);
    }
  }

  /** One iteration of the sprite branch keeps the counters in step: after
      the row test they name frame f's cell, and after `rx++` they are the
      counters for frame f + 1. */
  lemma SpriteStep(l: Layout, f: nat, rx: nat, ry: nat)
    requires l.cols >= 1 && CountersAt(f, rx, ry, l.cols)
    ensures var rx2 := if f > 0 && f % l.cols == 0 then 0 else rx;
            var ry2 := if f > 0 && f % l.cols == 0 then ry + 1 else ry;
            rx2 * l.frameWidth == CellX(l, f) && ry2 * l.frameHeight == CellY(l, f)
            && CountersAt(f + 1, rx2 + 1, ry2, l.cols)
  {
    if f == 0 {
      assert 0 % l.cols == 0 && 0 / l.cols == 0;
    } else {
      CounterStep(f, rx, ry, l.cols);
      if f % l.cols == 0 {
        Distribute(ry, l.cols);
      }
    }
  }

  lemma DivModUnique(n: nat, d: nat, q: nat, r: nat)
    requires d >= 1 && r < d && n == q * d + r
    ensures n / d == q && n % d == r
  {
    var q2, r2 := n / d, n % d;
    assert n == q2 * d + r2 && r2 < d;
    if q2 > q {
      MulMonotone(q + 1, q2, d);
      Distribute(q, d);
      assert false;
    }
    if q2 < q {
      MulMonotone(q2 + 1, q, d);
      Distribute(q2, d);
      assert false;
    }
  }

  /** The clock advances by one time span per cue. */
  lemma ClockStep(i: nat, timespan: nat)
    ensures Clock(i + 1, timespan) == Clock(i, timespan) + timespan
  {
  }

  /** Block f of the cues, written from the clock at the start and at the
      end of its span and from its reference line. */
  lemma BlockText(files: seq<string>, timespan: nat, name: string, target: Target, f: nat,
                  t1: string, t2: string, ref: string)
    requires ValidTarget(target) && f < |files|
    requires t1 == Timestamp(Clock(f, timespan)) && t2 == Timestamp(Clock(f + 1, timespan))
    requires ref == Reference(files, name, target, f)
    ensures Render(Cues(files, timespan, name, target))[f] == CueLines(t1, t2, ref) + "\n\n"
  {
    var c := Cues(files, timespan, name, target)[f];
    assert c == CueAt(files, timespan, name, target, f);
    CueTextOf(c, t1, t2, ref);
  }

  lemma CueTextOf(c: Cue, t1: string, t2: string, ref: string)
    requires t1 == Timestamp(c.start) && t2 == Timestamp(c.end) && ref == c.ref
    ensures CueText(c) == CueLines(t1, t2, ref) + "\n\n"
  {
  }

  /** Appending block f to the text of the blocks before it gives the text
      of the blocks up to f. */
  lemma AppendBlock(before: string, ss: seq<string>, f: nat, line: string)
    requires f < |ss| && ss[f] == line + "\n\n"
    requires before == Header + Concat(ss, 0, f)
    ensures before + line + "\n\n" == Header + Concat(ss, 0, f + 1)
  {
    var head := Concat(ss, 0, f);
    if f == 0 {
      assert head + (line + "\n\n") == line + "\n\n";
    }
    assert Concat(ss, 0, f + 1) == head + (line + "\n\n");
    Assoc(Header, head, line);
    Assoc(Header, head + line, "\n\n");
    Assoc(head, line, "\n\n");
  }

  lemma Assoc(a: string, b: string, c: string)
    ensures (a + b) + c == a + (b + c)
  {
  }

  /** One sprite step of the loop: start a new row when a full row has
      been written, refer to the current cell, then move one column on. */
  method NextSpriteRef(name: string, l: Layout, f: nat, rx: nat, ry: nat) returns (ref: string, rx': nat, ry': nat)
    requires l.cols >= 1 && CountersAt(f, rx, ry, l.cols)
    ensures ref == SpriteRef(name, l, f)
    ensures CountersAt(f + 1, rx', ry', l.cols)
  {
    SpriteStep(l, f, rx, ry);
    rx', ry' := rx, ry;
    if f > 0 && f % l.cols == 0 {
      rx' := 0;
      ry' := ry + 1;
    }
    ref := XywhRef(name, rx' * l.frameWidth, ry' * l.frameHeight, l.frameWidth, l.frameHeight);
    rx' := rx' + 1;
  }

  /** The reference line of cue f, and the sprite counters after it. */
  method NextReference(files: seq<string>, name: string, target: Target, f: nat, rx: nat, ry: nat)
      returns (ref: string, rx': nat, ry': nat)
    requires ValidTarget(target) && f < |files|
    requires target.SpriteSheet? ==> CountersAt(f, rx, ry, target.layout.cols)
    ensures ref == Reference(files, name, target, f)
    ensures target.SpriteSheet? ==> CountersAt(f + 1, rx', ry', target.layout.cols)
  {
    match target {
      case IndividualFiles =>
        ref, rx', ry' := "thumbnails/" + files[f], rx, ry;
      case SpriteSheet(l) =>
        ref, rx', ry' := NextSpriteRef(name, l, f, rx, ry);
    }
  }

  /** The part of the loop body that writes cue f: the timestamps of the
      clock before and after the step, the reference line, and the blank
      line that ends the block. */
  method AppendCue(files: seq<string>, timespan: nat, name: string, target: Target, f: nat,
                   start: nat, end: nat, vtt: string, rx: nat, ry: nat)
      returns (vtt': string, rx': nat, ry': nat)
    requires ValidTarget(target) && f < |files|
    requires start == Clock(f, timespan) && end == Clock(f + 1, timespan)
    requires vtt == Header + CuesText(files, timespan, name, target, 0, f)
    requires target.SpriteSheet? ==> CountersAt(f, rx, ry, target.layout.cols)
    ensures vtt' == Header + CuesText(files, timespan, name, target, 0, f + 1)
    ensures target.SpriteSheet? ==> CountersAt(f + 1, rx', ry', target.layout.cols)
  {
    var t1 := Timestamp(start);
    var t2 := Timestamp(end);
    var ref;
    ref, rx', ry' := NextReference(files, name, target, f, rx, ry);
    BlockText(files, timespan, name, target, f, t1, t2, ref);
    AppendBlock(vtt, Render(Cues(files, timespan, name, target)), f, CueLines(t1, t2, ref));
    vtt' := vtt + CueLines(t1, t2, ref);
    vtt' := vtt' + "\n\n";
  }

  /** The loop at the heart of the generator, with its four counters: the
      frame index `f`, the clock `s`, the sprite column `rx` and row `ry`. */
  method EmitVtt(files: seq<string>, timespan: nat, name: string, target: Target) returns (vtt: string)
    requires ValidTarget(target)
    ensures vtt == VttText(files, timespan, name, target)
  {
    vtt := Header;
    var rx: nat, ry: nat, s: nat, f: nat := 0, 0, 0, 0;
    while f < |files|
      invariant f <= |files|
      invariant s == Clock(f, timespan)
      invariant vtt == Header + CuesText(files, timespan, name, target, 0, f)
      invariant target.SpriteSheet? ==> CountersAt(f, rx, ry, target.layout.cols)
    {
      var start := s;
      ClockStep(f, timespan);
      s := s + timespan;
      vtt, rx, ry := AppendCue(files, timespan, name, target, f, start, s, vtt, rx, ry);
      f := f + 1;
    }
  }
}
