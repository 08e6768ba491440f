/**
 * `generate_dotplots`, `draw_dotplot`, the drawing half of `yass_dotplot` and
 * `plot_simple_repeats` of genosv/visualize/dotplots.py, with the R graphics
 * device modelled as the list of pages drawn on it.  For every pair of parts
 * (i <= j) one page: a frame with the breakpoints as rules, one segment per
 * aligner hit, and one marker per simple repeat along each axis.
 *
 * The aligner is a parameter: a function from the two sequences and the gap
 * extension penalty to its exit code, diagnostic lines and result lines.
 */
module Dotplots {
  import opened Wrappers
  import opened Repeats
  import opened Yass
  import opened Parts

  /**
   * A repeat marker (`ro.r.segments` in `plot_simple_repeats`): along the x
   * axis for a repeat of the first sequence, along the y axis for one of the
   * second, drawn at a fixed small distance from that axis.
   */
  datatype Marker = AlongX(start: nat, end: nat) | AlongY(start: nat, end: nat)

  /** The plot call and the two `abline` calls of `yass_dotplot`. */
  datatype Frame = Frame(
    title: string, xlabel: string, ylabel: string,
    width: nat, height: nat,
    vrules: seq<nat>, hrules: seq<nat>)

  /** One page of the document. */
  datatype Dotplot = Dotplot(frame: Frame, hits: seq<Segment>, markers: seq<Marker>)

  /** What the aligner leaves behind: exit code, diagnostic lines and result lines. */
  datatype AlignerRun = AlignerRun(exitCode: int, stderrLines: seq<string>, resultLines: seq<string>)

  /** The exception that ends `draw_dotplot`. */
  datatype PairError = AlignerFailed(toolError: YassError) | ResultUnreadable(lineError: LineError)

  /** A `draw_dotplot` call: a finished page, or an exception and what was drawn before it. */
  datatype PairOutcome = Drew(plot: Dotplot) | Stopped(partial: Option<Dotplot>, error: PairError)

  // ---------------------------------------------------------------------------
  // Repeat markers (dotplots.py:55-64)
  // ---------------------------------------------------------------------------

  function AlongXs(rs: seq<Interval>): (ms: seq<Marker>)
    ensures |ms| == |rs| && forall k :: 0 <= k < |rs| ==> ms[k] == AlongX(rs[k].start, rs[k].end)
  {
    seq(|rs|, k requires 0 <= k < |rs| => AlongX(rs[k].start, rs[k].end))
  }

  function AlongYs(rs: seq<Interval>): (ms: seq<Marker>)
    ensures |ms| == |rs| && forall k :: 0 <= k < |rs| ==> ms[k] == AlongY(rs[k].start, rs[k].end)
  {
    seq(|rs|, k requires 0 <= k < |rs| => AlongY(rs[k].start, rs[k].end))
  }

  /** `plot_simple_repeats(s1, s2)`: the repeats of s1 along x, then those of s2 along y. */
  function Markers(s1: string, s2: string): seq<Marker>
  {
    AlongXs(SimpleRepeats(s1)) + AlongYs(SimpleRepeats(s2))
  }

  /** Markers that lie inside an axis of length n, for intervals that do. */
  lemma AlongWithin(rs: seq<Interval>, n: nat)
    requires forall r :: r in rs ==> r.start < r.end <= n
    ensures forall m :: m in AlongXs(rs) ==> m.AlongX? && m.start < m.end <= n
    ensures forall m :: m in AlongYs(rs) ==> m.AlongY? && m.start < m.end <= n
  {
    forall m | m in AlongXs(rs) ensures m.AlongX? && m.start < m.end <= n {
      var k :| 0 <= k < |rs| && AlongXs(rs)[k] == m;
      assert rs[k] in rs;
    }
    forall m | m in AlongYs(rs) ensures m.AlongY? && m.start < m.end <= n {
      var k :| 0 <= k < |rs| && AlongYs(rs)[k] == m;
      assert rs[k] in rs;
    }
  }

  lemma AlongLayout(a: seq<Interval>, b: seq<Interval>)
    ensures |AlongXs(a) + AlongYs(b)| == |a| + |b|
    ensures forall k :: 0 <= k < |a| ==> (AlongXs(a) + AlongYs(b))[k] == AlongX(a[k].start, a[k].end)
    ensures forall k :: 0 <= k < |b| ==> (AlongXs(a) + AlongYs(b))[|a| + k] == AlongY(b[k].start, b[k].end)
  {
    var ms := AlongXs(a) + AlongYs(b);
    forall k | 0 <= k < |b| ensures ms[|a| + k] == AlongY(b[k].start, b[k].end) {
      assert ms[|a| + k] == AlongYs(b)[k];
    }
  }

  /**
   * One marker per repeat: marker k is repeat k of the first sequence, along
   * x, and after those come the repeats of the second sequence, along y.
   */
  lemma MarkersLayout(s1: string, s2: string)
    ensures var r1, r2 := SimpleRepeats(s1), SimpleRepeats(s2);
      && |Markers(s1, s2)| == |r1| + |r2|
      && (forall k :: 0 <= k < |r1| ==> Markers(s1, s2)[k] == AlongX(r1[k].start, r1[k].end))
      && (forall k :: 0 <= k < |r2| ==> Markers(s1, s2)[|r1| + k] == AlongY(r2[k].start, r2[k].end))
  {
    AlongLayout(SimpleRepeats(s1), SimpleRepeats(s2));
  }

  /** Each marker spans a non-empty stretch inside the axis of its sequence. */
  lemma MarkersWithin(s1: string, s2: string)
    ensures forall m :: m in Markers(s1, s2) && m.AlongX? ==> m.start < m.end <= |s1|
    ensures forall m :: m in Markers(s1, s2) && m.AlongY? ==> m.start < m.end <= |s2|
  {
    var r1, r2 := SimpleRepeats(s1), SimpleRepeats(s2);
    SpansWithin(s1);
    SpansWithin(s2);
    AlongWithin(r1, |s1|);
    AlongWithin(r2, |s2|);
    var xs, ys := AlongXs(r1), AlongYs(r2);
    assert Markers(s1, s2) == xs + ys;
  }

  // ---------------------------------------------------------------------------
  // One pair (dotplots.py:91-101 and the drawing of 134-162)
  // ---------------------------------------------------------------------------

  /** The frame of the page for a pair: title, axis labels, axis lengths and breakpoint rules. */
  function FrameOf(p1: Part, p2: Part): Frame
  {
    Frame(p1.id + " : " + p2.id, "Position in " + p1.id, "Position in " + p2.id,
          |p1.sequence|, |p2.sequence|,
          Breakpoints(p1.segmentLengths), Breakpoints(p2.segmentLengths))
  }

  /** The aligner run for a pair, with the gap extension penalty computed from its lengths. */
  function RunFor(p1: Part, p2: Part, aligner: (string, string, int) -> AlignerRun): AlignerRun
  {
    aligner(p1.sequence, p2.sequence, GapExtend(|p1.sequence|, |p2.sequence|))
  }

  /**
   * `draw_dotplot(part1, part2)`: the checks on the aligner run first (nothing
   * drawn when they fail), then the frame, one segment per result line, and
   * the repeat markers once every result line has been read.
   */
  function DrawDotplot(p1: Part, p2: Part, aligner: (string, string, int) -> AlignerRun): PairOutcome
  {
    var run := RunFor(p1, p2, aligner);
    match CheckRun(run.exitCode, run.stderrLines)
    case Some(e) => Stopped(None, AlignerFailed(e))
    case None =>
      var drawn := ReadLines(run.resultLines);
      match drawn.error
      case Some(e) => Stopped(Some(Dotplot(FrameOf(p1, p2), drawn.segments, [])), ResultUnreadable(e))
      case None => Drew(Dotplot(FrameOf(p1, p2), drawn.segments, Markers(p1.sequence, p2.sequence)))
  }

  /**
   * A page is finished exactly when the aligner run passes its checks and
   * every result line reads; it then holds one hit per line that is not a
   * comment, in file order, and one marker per repeat.
   */
  lemma DrawDotplotFinishes(p1: Part, p2: Part, aligner: (string, string, int) -> AlignerRun)
    ensures var run := RunFor(p1, p2, aligner);
      DrawDotplot(p1, p2, aligner).Drew? <==>
        CheckRun(run.exitCode, run.stderrLines).None? &&
        forall k :: 0 <= k < |run.resultLines| ==> ReadLine(run.resultLines[k]).Ok?
    ensures var run := RunFor(p1, p2, aligner);
      var o := DrawDotplot(p1, p2, aligner);
      o.Drew? ==>
        && o.plot.frame == FrameOf(p1, p2)
        && |o.plot.hits| == |Uncommented(run.resultLines)|
        && (forall k :: 0 <= k < |o.plot.hits| ==> ReadLine(Uncommented(run.resultLines)[k]) == Ok(Some(o.plot.hits[k])))
        && |o.plot.markers| == |SimpleRepeats(p1.sequence)| + |SimpleRepeats(p2.sequence)|
    ensures var run := RunFor(p1, p2, aligner);
      var o := DrawDotplot(p1, p2, aligner);
      o.Drew? ==> o.plot == Dotplot(FrameOf(p1, p2), ReadLines(run.resultLines).segments, Markers(p1.sequence, p2.sequence))
  {
    var run := RunFor(p1, p2, aligner);
    ReadLinesComplete(run.resultLines);
    MarkersLayout(p1.sequence, p2.sequence);
  }

  /**
   * When the aligner run fails its checks nothing is drawn; when a result line
   * raises, the page holds its frame and the hits of the lines before that
   * one, and no markers.
   */
  lemma DrawDotplotStops(p1: Part, p2: Part, aligner: (string, string, int) -> AlignerRun)
    ensures var run := RunFor(p1, p2, aligner);
      var check := CheckRun(run.exitCode, run.stderrLines);
      check.Some? ==> DrawDotplot(p1, p2, aligner) == Stopped(None, AlignerFailed(check.value))
    ensures var run := RunFor(p1, p2, aligner);
      var drawn := ReadLines(run.resultLines);
      CheckRun(run.exitCode, run.stderrLines).None? && drawn.error.Some? ==>
        DrawDotplot(p1, p2, aligner) == Stopped(Some(Dotplot(FrameOf(p1, p2), drawn.segments, [])), ResultUnreadable(drawn.error.value))
    ensures var o := DrawDotplot(p1, p2, aligner);
      o.Stopped? && o.error.AlignerFailed? ==> o.partial.None?
    ensures var run := RunFor(p1, p2, aligner);
      var o := DrawDotplot(p1, p2, aligner);
      o.Stopped? && o.error.ResultUnreadable? ==>
        var e := o.error.lineError;
        && e.line < |run.resultLines|
        && ReadLine(run.resultLines[e.line]) == Err(e.fault)
        && o.partial == Some(Dotplot(FrameOf(p1, p2), ReadLines(run.resultLines[..e.line]).segments, []))
  {
    var run := RunFor(p1, p2, aligner);
    if ReadLines(run.resultLines).error.Some? {
      ReadLinesStops(run.resultLines);
    }
  }

  // ---------------------------------------------------------------------------
  // The document (dotplots.py:67-87)
  // ---------------------------------------------------------------------------

  /** The pair whose `draw_dotplot` raised, and why. */
  datatype Failure = Failure(pair: (string, string), error: PairError)

  /**
   * What `generate_dotplots` leaves: nothing when dotplots cannot be made;
   * otherwise the pages drawn and, when a pair raised, that failure.  The
   * device is closed (`dev.off`) only when no pair raised.
   */
  datatype Batch = Disabled | Ran(pages: seq<Dotplot>, failure: Option<Failure>)

  /** The part stored under id in the map. */
  function Lookup(parts: seq<Part>, id: string): (p: Part)
    requires id in Ids(parts)
    ensures p in parts && p.id == id
  {
    parts[IndexOf(parts, id)]
  }

  ghost predicate PairsIn(parts: seq<Part>, pairs: seq<(string, string)>)
  {
    forall t :: 0 <= t < |pairs| ==> pairs[t].0 in Ids(parts) && pairs[t].1 in Ids(parts)
  }

  /** `draw_dotplot` with the aligner fixed: what drawing a pair of parts gives. */
  function Drawer(aligner: (string, string, int) -> AlignerRun): (Part, Part) -> PairOutcome
  {
    (p1: Part, p2: Part) => DrawDotplot(p1, p2, aligner)
  }

  /** The parts of each pair, looked up in the parts map. */
  function PartPairs(parts: seq<Part>, pairs: seq<(string, string)>): (pps: seq<(Part, Part)>)
    requires PairsIn(parts, pairs)
    ensures |pps| == |pairs|
    ensures forall k :: 0 <= k < |pairs| ==> pps[k] == (Lookup(parts, pairs[k].0), Lookup(parts, pairs[k].1))
  {
    seq(|pairs|, k requires 0 <= k < |pairs| => (Lookup(parts, pairs[k].0), Lookup(parts, pairs[k].1)))
  }

  /** The ids of a pair of parts. */
  function IdPair(pp: (Part, Part)): (string, string)
  {
    (pp.0.id, pp.1.id)
  }

  /** Pages drawn so far, and the failure that stopped the loop, if any. */
  datatype Progress = Progress(pages: seq<Dotplot>, failure: Option<Failure>)

  /**
   * The pair loop from pair t on: the pages of the pairs that finish, up to
   * and including the first pair that raises.
   */
  function PlotFrom(pps: seq<(Part, Part)>, draw: (Part, Part) -> PairOutcome, t: nat): Progress
    requires t <= |pps|
    decreases |pps| - t
  {
    if t == |pps| then Progress([], None)
    else
      match draw(pps[t].0, pps[t].1)
      case Drew(d) =>
        var rest := PlotFrom(pps, draw, t + 1);
        Progress([d] + rest.pages, rest.failure)
      case Stopped(partial, e) =>
        Progress(if partial.Some? then [partial.value] else [], Some(Failure(IdPair(pps[t]), e)))
  }

  lemma PairsInKeys(parts: seq<Part>)
    ensures PairsIn(parts, Pairs(Ids(parts)))
  {
    var keys := Ids(parts);
    forall t | 0 <= t < |Pairs(keys)| ensures Pairs(keys)[t].0 in keys && Pairs(keys)[t].1 in keys {
      var (a, b) := Pairs(keys)[t];
      PairsMembers(keys, a, b);
    }
  }

  /** The pairs of parts of the map collected from alt and ref, in the order of the pair loop. */
  function PartPairsOf(alt: seq<Part>, ref: seq<Part>): seq<(Part, Part)>
  {
    var parts := Collect(alt + ref);
    PairsInKeys(parts);
    PartPairs(parts, Pairs(Ids(parts)))
  }

  /** `generate_dotplots(datahub)`, for the parts of the "alt" allele and then those of "ref". */
  function Generate(enabled: bool, alt: seq<Part>, ref: seq<Part>, aligner: (string, string, int) -> AlignerRun): Batch
  {
    if !enabled then Disabled
    else
      var r := PlotFrom(PartPairsOf(alt, ref), Drawer(aligner), 0);
      Ran(r.pages, r.failure)
  }

  /**
   * `generate_dotplots`: nothing when dotplots cannot be made; otherwise
   * collect the parts, enumerate the pairs and draw them.
   */
  method GenerateDotplots(enabled: bool, alt: seq<Part>, ref: seq<Part>, aligner: (string, string, int) -> AlignerRun)
    returns (batch: Batch)
    ensures batch == Generate(enabled, alt, ref, aligner)
  {
    if !enabled {
      return Disabled;
    }
    var parts := CollectParts(alt, ref);
    var pairs := EnumeratePairs(Ids(parts));
    PairsInKeys(parts);
    var pages, failure := DrawPairs(parts, pairs, Drawer(aligner));
    return Ran(pages, failure);
  }

  /** The pair loop: one page per pair, in order, until a pair raises. */
  method DrawPairs(parts: seq<Part>, pairs: seq<(string, string)>, draw: (Part, Part) -> PairOutcome)
    returns (pages: seq<Dotplot>, failure: Option<Failure>)
    requires PairsIn(parts, pairs)
    ensures Progress(pages, failure) == PlotFrom(PartPairs(parts, pairs), draw, 0)
  {
    ghost var pps := PartPairs(parts, pairs);
    pages := [];
    for t := 0 to |pairs|
      invariant DrawnUpTo(pps, draw, t, pages)
    {
      var (id1, id2) := pairs[t];
      var p1, p2 := Lookup(parts, id1), Lookup(parts, id2);
      assert pps[t] == (p1, p2) && IdPair(pps[t]) == pairs[t];
      var outcome := draw(p1, p2);
      PlotFromNext(pps, draw, t, pages);
      if outcome.Stopped? {
        var last := if outcome.partial.Some? then [outcome.partial.value] else [];
        return pages + last, Some(Failure(pairs[t], outcome.error));
      }
      pages := pages + [outcome.plot];
    }
    PlotFromDone(pps, draw, pages);
    return pages, None;
  }

  /** The loop has drawn `pages` for the pairs before t, and what follows is what it draws from t on. */
  ghost predicate DrawnUpTo(pps: seq<(Part, Part)>, draw: (Part, Part) -> PairOutcome, t: nat, pages: seq<Dotplot>)
  {
    t <= |pps| && PlotFrom(pps, draw, 0) == Progress(pages + PlotFrom(pps, draw, t).pages, PlotFrom(pps, draw, t).failure)
  }

  lemma PlotFromNext(pps: seq<(Part, Part)>, draw: (Part, Part) -> PairOutcome, t: nat, pages: seq<Dotplot>)
    requires t < |pps| && DrawnUpTo(pps, draw, t, pages)
    ensures var o := draw(pps[t].0, pps[t].1);
      var last := if o.Stopped? && o.partial.Some? then [o.partial.value] else [];
      o.Stopped? ==> PlotFrom(pps, draw, 0) == Progress(pages + last, Some(Failure(IdPair(pps[t]), o.error)))
    ensures var o := draw(pps[t].0, pps[t].1);
      o.Drew? ==> DrawnUpTo(pps, draw, t + 1, pages + [o.plot])
  {
    var o := draw(pps[t].0, pps[t].1);
    if o.Drew? {
      assert PlotFrom(pps, draw, t).pages == [o.plot] + PlotFrom(pps, draw, t + 1).pages;
      assert pages + ([o.plot] + PlotFrom(pps, draw, t + 1).pages) == (pages + [o.plot]) + PlotFrom(pps, draw, t + 1).pages;
    }
  }

  lemma PlotFromDone(pps: seq<(Part, Part)>, draw: (Part, Part) -> PairOutcome, pages: seq<Dotplot>)
    requires DrawnUpTo(pps, draw, |pps|, pages)
    ensures PlotFrom(pps, draw, 0) == Progress(pages, None)
  {
    assert pages + [] == pages;
  }

  // ---------------------------------------------------------------------------
  // Properties of the document
  // ---------------------------------------------------------------------------

  lemma {:induction false} PlotFromAll(pps: seq<(Part, Part)>, draw: (Part, Part) -> PairOutcome, t: nat)
    requires t <= |pps| && PlotFrom(pps, draw, t).failure.None?
    ensures |PlotFrom(pps, draw, t).pages| == |pps| - t
    ensures forall k :: t <= k < |pps| ==> draw(pps[k].0, pps[k].1) == Drew(PlotFrom(pps, draw, t).pages[k - t])
    decreases |pps| - t
  {
    if t < |pps| {
      PlotFromAll(pps, draw, t + 1);
    }
  }

  /** A whole run of the pair loop with no failure has one page per pair. */
  lemma PlotFromCount(pps: seq<(Part, Part)>, draw: (Part, Part) -> PairOutcome)
    requires PlotFrom(pps, draw, 0).failure.None?
    ensures |PlotFrom(pps, draw, 0).pages| == |pps|
  {
    PlotFromAll(pps, draw, 0);
  }

  /** A whole run of the pair loop with no failure has drawn every pair's page, in order. */
  lemma PlotFromPages(pps: seq<(Part, Part)>, draw: (Part, Part) -> PairOutcome, pages: seq<Dotplot>, failure: Option<Failure>)
    requires Progress(pages, failure) == PlotFrom(pps, draw, 0) && failure.None?
    ensures |pages| == |pps|
    ensures forall t :: 0 <= t < |pps| ==> draw(pps[t].0, pps[t].1) == Drew(pages[t])
  {
    PlotFromAll(pps, draw, 0);
    forall t | 0 <= t < |pps| ensures draw(pps[t].0, pps[t].1) == Drew(pages[t]) {
      assert pages[t - 0] == pages[t];
    }
  }

  /**
   * Pair f raised: the pairs t..f-1 drew their pages in order, pair f drew what
   * it drew before raising, and nothing after it was drawn.
   */
  ghost predicate StoppedAt(pps: seq<(Part, Part)>, draw: (Part, Part) -> PairOutcome, t: nat, f: nat, pages: seq<Dotplot>, failure: Failure)
    requires t <= f < |pps|
  {
    var o := draw(pps[f].0, pps[f].1);
    && o.Stopped?
    && failure == Failure(IdPair(pps[f]), o.error)
    && |pages| == (f - t) + (if o.partial.Some? then 1 else 0)
    && (forall k :: t <= k < f ==> draw(pps[k].0, pps[k].1) == Drew(pages[k - t]))
    && (o.partial.Some? ==> pages[f - t] == o.partial.value)
  }

  lemma {:induction false} PlotFromStops(pps: seq<(Part, Part)>, draw: (Part, Part) -> PairOutcome, t: nat)
    requires t <= |pps| && PlotFrom(pps, draw, t).failure.Some?
    ensures var r := PlotFrom(pps, draw, t);
      exists f :: t <= f < |pps| && StoppedAt(pps, draw, t, f, r.pages, r.failure.value)
    decreases |pps| - t
  {
    var r := PlotFrom(pps, draw, t);
    if draw(pps[t].0, pps[t].1).Stopped? {
      assert StoppedAt(pps, draw, t, t, r.pages, r.failure.value);
    } else {
      PlotFromStops(pps, draw, t + 1);
      var rest := PlotFrom(pps, draw, t + 1);
      var f :| t + 1 <= f < |pps| && StoppedAt(pps, draw, t + 1, f, rest.pages, rest.failure.value);
      assert StoppedAt(pps, draw, t, f, r.pages, r.failure.value);
    }
  }

  /**
   * When no pair raises, the document has one page per pair of parts: n(n+1)/2
   * for n distinct part ids.
   */
  lemma GenerateCount(alt: seq<Part>, ref: seq<Part>, aligner: (string, string, int) -> AlignerRun)
    requires Generate(true, alt, ref, aligner).failure.None?
    ensures var parts := Collect(alt + ref);
      2 * |Generate(true, alt, ref, aligner).pages| == |parts| * (|parts| + 1)
  {
    var parts := Collect(alt + ref);
    var keys := Ids(parts);
    PartPairsOfCount(alt, ref);
    PlotFromCount(PartPairsOf(alt, ref), Drawer(aligner));
    PairsCount(keys);
    assert |keys| == |parts|;
  }

  lemma PartPairsOfCount(alt: seq<Part>, ref: seq<Part>)
    ensures |PartPairsOf(alt, ref)| == |Pairs(Ids(Collect(alt + ref)))|
  {
    PairsInKeys(Collect(alt + ref));
  }

  /**
   * When no pair raises, page t is the finished dotplot `draw_dotplot` draws
   * for pair t.
   */
  lemma GeneratePages(alt: seq<Part>, ref: seq<Part>, aligner: (string, string, int) -> AlignerRun)
    requires Generate(true, alt, ref, aligner).failure.None?
    ensures var b := Generate(true, alt, ref, aligner);
      var pps := PartPairsOf(alt, ref);
      && |b.pages| == |pps|
      && forall t :: 0 <= t < |pps| ==> Drawer(aligner)(pps[t].0, pps[t].1) == Drew(b.pages[t])
  {
    var b := Generate(true, alt, ref, aligner);
    PlotFromPages(PartPairsOf(alt, ref), Drawer(aligner), b.pages, b.failure);
  }

  /**
   * When a pair raises, the pairs before it drew their pages in order, the
   * failing pair drew its partial page (if any) last, and no later pair was drawn.
   */
  lemma GenerateAborted(alt: seq<Part>, ref: seq<Part>, aligner: (string, string, int) -> AlignerRun)
    requires Generate(true, alt, ref, aligner).failure.Some?
    ensures var b := Generate(true, alt, ref, aligner);
      var pps := PartPairsOf(alt, ref);
      exists f :: 0 <= f < |pps| && StoppedAt(pps, Drawer(aligner), 0, f, b.pages, b.failure.value)
  {
    PlotFromStops(PartPairsOf(alt, ref), Drawer(aligner), 0);
  }

  /** The pairs of parts drawn are the pairs of the part map, i <= j, looked up by id. */
  lemma PartPairsOfPairs(alt: seq<Part>, ref: seq<Part>)
    ensures var parts := Collect(alt + ref);
      var pps := PartPairsOf(alt, ref);
      && |pps| == |Pairs(Ids(parts))|
      && forall k :: 0 <= k < |pps| ==>
           IdPair(pps[k]) == Pairs(Ids(parts))[k] && pps[k].0 in parts && pps[k].1 in parts
  {
    var parts := Collect(alt + ref);
    PairsInKeys(parts);
  }
}
