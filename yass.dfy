/**
 * The YASS side of genosv/visualize/dotplots.py (`yass_dotplot`): the gap
 * extension penalty handed to the aligner, the checks on its exit code and
 * first diagnostic line, and the loop that turns each line of its tabular
 * result into one segment to draw, forward strand or reverse.
 *
 * Running the aligner, writing the FASTA inputs and reading its files stay
 * outside: the exit code, the diagnostic lines and the result lines are
 * parameters.
 */
module Yass {
  import opened Wrappers
  import opened Text

  // ---------------------------------------------------------------------------
  // The gap extension penalty (dotplots.py:120-123)
  // ---------------------------------------------------------------------------

  function Max(a: nat, b: nat): nat
  {
    if a < b then b else a
  }

  /**
   * `-int(max(len1, len2) / 2 / 10 * 5)` in exact rational arithmetic: minus
   * a quarter of the longer length, rounded down; never positive.
   */
  function GapExtend(len1: nat, len2: nat): (g: int)
    ensures g <= 0
    ensures g == -(Max(len1, len2) / 4)
    ensures -4 * g <= Max(len1, len2) < -4 * g + 4
  {
    var m := Max(len1, len2);
    var x: real := (m as real) / 2.0 / 10.0 * 5.0;
    assert x == (m as real) / 4.0;
    var k := m / 4;
    assert (k as real) <= x < (k as real) + 1.0;
    -(x.Floor)
  }

  /** A longest length of 1000 gives a penalty of -250. */
  lemma GapExtendExample()
    ensures GapExtend(1000, 20) == -250
    ensures GapExtend(3, 2) == 0
  {
  }

  // ---------------------------------------------------------------------------
  // Exit code and diagnostics (dotplots.py:134-139)
  // ---------------------------------------------------------------------------

  /** Why `yass_dotplot` raises before drawing anything. */
  datatype YassError =
    | NotInstalled              // non-zero exit code
    | NoDiagnostics             // `readlines()[0]` of an empty stream: IndexError
    | ToolError(message: string) // the first diagnostic line mentions "Error"

  /**
   * The checks after the aligner has run: the exit code first, then the first
   * line of its diagnostic stream.  None when drawing may go ahead.
   */
  function CheckRun(exitCode: int, stderrLines: seq<string>): (r: Option<YassError>)
    ensures r == None <==> exitCode == 0 && |stderrLines| > 0 && !Contains(stderrLines[0], "Error")
    ensures exitCode != 0 ==> r == Some(NotInstalled)
    ensures exitCode == 0 && stderrLines == [] ==> r == Some(NoDiagnostics)
    ensures exitCode == 0 && stderrLines != [] && Contains(stderrLines[0], "Error") ==> r == Some(ToolError(stderrLines[0]))
    ensures r.Some? && r.value.ToolError? ==>
      stderrLines != [] && r.value.message == stderrLines[0] && exists j :: OccursAt(stderrLines[0], "Error", j)
  {
    if exitCode != 0 then Some(NotInstalled)
    else if stderrLines == [] then Some(NoDiagnostics)
    else if Contains(stderrLines[0], "Error") then
      ContainsAt(stderrLines[0], "Error");
      Some(ToolError(stderrLines[0]))
    else None
  }

  // ---------------------------------------------------------------------------
  // The strand map (dotplots.py:159-162)
  // ---------------------------------------------------------------------------

  /** The first four integer fields of a result line and whether field 6 is "f". */
  datatype Hit = Hit(f0: int, f1: int, f2: int, f3: int, forward: bool)

  /** `ro.r.segments(x0, y0, x1, y1, col=...)`: blue when forward, red otherwise. */
  datatype Segment = Segment(x0: int, y0: int, x1: int, y1: int, forward: bool)

  /**
   * The drawn segment of a hit: from (f0, f2) to (f1, f3) on the forward
   * strand, from (f1, f2) to (f0, f3) on the other.
   */
  function Draw(h: Hit): (g: Segment)
    ensures g.forward == h.forward
    ensures g.y0 == h.f2 && g.y1 == h.f3
    ensures {g.x0, g.x1} == {h.f0, h.f1}
  {
    if h.forward then Segment(h.f0, h.f2, h.f1, h.f3, true)
    else Segment(h.f1, h.f2, h.f0, h.f3, false)
  }

  /** The hit a segment was drawn from. */
  function Undraw(g: Segment): Hit
  {
    if g.forward then Hit(g.x0, g.x1, g.y0, g.y1, true)
    else Hit(g.x1, g.x0, g.y0, g.y1, false)
  }

  /** Drawing loses nothing: the hit can be read back from its segment, and every segment is drawn from one hit. */
  lemma DrawUndraw(h: Hit, g: Segment)
    ensures Undraw(Draw(h)) == h
    ensures Draw(Undraw(g)) == g
  {
  }

  /** The forward strand keeps the order of the first sequence's coordinates; the other swaps them. */
  lemma DrawOrientation(h: Hit)
    ensures h.forward ==> Draw(h).x0 == h.f0 && Draw(h).x1 == h.f1
    ensures !h.forward ==> Draw(h).x0 == h.f1 && Draw(h).x1 == h.f0
  {
  }

  /** Fields (10, 20, 5, 15): (20,5)-(10,15) on the reverse strand, (10,5)-(20,15) on the forward. */
  lemma DrawExample()
    ensures Draw(Hit(10, 20, 5, 15, false)) == Segment(20, 5, 10, 15, false)
    ensures Draw(Hit(10, 20, 5, 15, true)) == Segment(10, 5, 20, 15, true)
  {
  }

  // ---------------------------------------------------------------------------
  // One result line (dotplots.py:155-162)
  // ---------------------------------------------------------------------------

  /** Why a result line raises. */
  datatype LineFault =
    | MissingField(count: nat)              // `res[6]` with fewer than 7 fields: IndexError
    | NotAnInteger(field: nat, text: string) // `int(res[field])`: ValueError

  /** The order in which the segment call evaluates `int(res[i])`. */
  function FieldOrder(forward: bool): (r: seq<nat>)
    ensures |r| == 4 && forall k :: 0 <= k < |r| ==> r[k] < 4
  {
    if forward then [0, 2, 1, 3] else [1, 2, 0, 3]
  }

  /** The first field, in the order given, that `int()` rejects. */
  function FirstBadField(res: seq<string>, order: seq<nat>): (r: Option<nat>)
    requires forall k :: 0 <= k < |order| ==> order[k] < |res|
    ensures r.None? <==> forall k :: 0 <= k < |order| ==> ParseInt(res[order[k]]).Some?
    ensures r.Some? ==> r.value in order && ParseInt(res[r.value]).None?
    ensures r.Some? ==>
      exists k :: 0 <= k < |order| && order[k] == r.value && forall j :: 0 <= j < k ==> ParseInt(res[order[j]]).Some?
  {
    if order == [] then None
    else if ParseInt(res[order[0]]).None? then Some(order[0])
    else
      var r := FirstBadField(res, order[1..]);
      assert forall k :: 1 <= k < |order| ==> order[k] == order[1..][k - 1];
      if r.Some? then
        var k :| 0 <= k < |order[1..]| && order[1..][k] == r.value &&
          forall j :: 0 <= j < k ==> ParseInt(res[order[1..][j]]).Some?;
        assert order[k + 1] == r.value;
        r
      else r
  }

  /**
   * One iteration of the result loop: a line starting with '#' draws nothing;
   * any other line draws the segment of its hit, or raises.
   */
  function ReadLine(line: string): Result<Option<Segment>, LineFault>
  {
    if StartsWith(line, "#") then Ok(None)
    else
      var res := Fields(line);
      if |res| < 7 then Err(MissingField(|res|))
      else
        var forward := res[6] == "f";
        match FirstBadField(res, FieldOrder(forward))
        case Some(i) => Err(NotAnInteger(i, res[i]))
        case None =>
          var o := FieldOrder(forward);
          assert ParseInt(res[o[0]]).Some? && ParseInt(res[o[1]]).Some?;
          assert ParseInt(res[o[2]]).Some? && ParseInt(res[o[3]]).Some?;
          var h := Hit(ParseInt(res[0]).value, ParseInt(res[1]).value,
                       ParseInt(res[2]).value, ParseInt(res[3]).value, forward);
          Ok(Some(Draw(h)))
  }

  /**
   * The three outcomes of a result line: a comment draws nothing; a line
   * with fewer than seven fields raises on `res[6]`; otherwise the line
   * raises on the first field, in the order the segment call evaluates
   * `int()`, that `int()` rejects, or draws the segment of the hit whose
   * coordinates its first four fields give, forward exactly for "f".
   */
  lemma ReadLineOutcomes(line: string)
    ensures ReadLine(line) == Ok(None) <==> StartsWith(line, "#")
    ensures ReadLine(line).Err? && ReadLine(line).error.MissingField? <==>
      !StartsWith(line, "#") && |Fields(line)| < 7
    ensures ReadLine(line).Err? && ReadLine(line).error.MissingField? ==>
      ReadLine(line).error.count == |Fields(line)|
    ensures ReadLine(line).Err? && ReadLine(line).error.NotAnInteger? ==>
      var f := ReadLine(line).error;
      && |Fields(line)| >= 7 && f.field < 4
      && f.text == Fields(line)[f.field] && ParseInt(f.text).None?
    ensures ReadLine(line).Err? && ReadLine(line).error.NotAnInteger? ==>
      var res, f := Fields(line), ReadLine(line).error.field;
      && |res| >= 7
      && var o := FieldOrder(res[6] == "f");
         exists k :: 0 <= k < 4 && o[k] == f && forall j :: 0 <= j < k ==> ParseInt(res[o[j]]).Some?
    ensures ReadLine(line).Ok? && ReadLine(line).value.Some? ==>
      var h := Undraw(ReadLine(line).value.value);
      && !StartsWith(line, "#") && |Fields(line)| >= 7
      && ParseInt(Fields(line)[0]) == Some(h.f0) && ParseInt(Fields(line)[1]) == Some(h.f1)
      && ParseInt(Fields(line)[2]) == Some(h.f2) && ParseInt(Fields(line)[3]) == Some(h.f3)
      && (h.forward <==> Fields(line)[6] == "f")
  {
    if !StartsWith(line, "#") && |Fields(line)| >= 7 {
      var res := Fields(line);
      var o := FieldOrder(res[6] == "f");
      if FirstBadField(res, o).None? {
        assert ParseInt(res[o[0]]).Some? && ParseInt(res[o[1]]).Some?;
        assert ParseInt(res[o[2]]).Some? && ParseInt(res[o[3]]).Some?;
      }
    }
  }

  /** A result line as the aligner would print it: the four coordinates, two more fields, the strand. */
  function Render(h: Hit, e4: string, e5: string, strand: string): string
  {
    JoinSpaced([ShowInt(h.f0), ShowInt(h.f1), ShowInt(h.f2), ShowInt(h.f3), e4, e5, strand])
  }

  lemma ShowIntIsField(n: int)
    ensures IsField(ShowInt(n)) && ShowInt(n)[0] != '#'
  {
    var d := ShowNat(if n < 0 then -n else n);
    assert IsDigit(d[0]);
    assert forall i :: 0 <= i < |d| ==> !IsSpace(d[i]) by {
      forall i | 0 <= i < |d| ensures !IsSpace(d[i]) {
        assert IsDigit(d[i]);
      }
    }
    if n < 0 {
      assert ShowInt(n) == "-" + d;
      assert forall i :: 1 <= i < |ShowInt(n)| ==> ShowInt(n)[i] == d[i - 1];
    }
  }

  /**
   * Reading a rendered line gives back the segment of its hit: the strand
   * field is "f" exactly for forward hits.
   */
  lemma ReadRendered(h: Hit, e4: string, e5: string, strand: string)
    requires IsField(e4) && IsField(e5) && IsField(strand)
    requires h.forward <==> strand == "f"
    ensures ReadLine(Render(h, e4, e5, strand)) == Ok(Some(Draw(h)))
  {
    var fs := [ShowInt(h.f0), ShowInt(h.f1), ShowInt(h.f2), ShowInt(h.f3), e4, e5, strand];
    var line := Render(h, e4, e5, strand);
    RenderedFields(h, e4, e5, strand);
    ParseShowInt(h.f0);
    ParseShowInt(h.f1);
    ParseShowInt(h.f2);
    ParseShowInt(h.f3);
    ReadHitLine(line, h);
  }

  /** The fields of a rendered line are the fields it was rendered from, and it is no comment. */
  lemma RenderedFields(h: Hit, e4: string, e5: string, strand: string)
    requires IsField(e4) && IsField(e5) && IsField(strand)
    ensures Fields(Render(h, e4, e5, strand)) == [ShowInt(h.f0), ShowInt(h.f1), ShowInt(h.f2), ShowInt(h.f3), e4, e5, strand]
    ensures !StartsWith(Render(h, e4, e5, strand), "#")
  {
    var fs := [ShowInt(h.f0), ShowInt(h.f1), ShowInt(h.f2), ShowInt(h.f3), e4, e5, strand];
    ShowIntIsField(h.f0);
    ShowIntIsField(h.f1);
    ShowIntIsField(h.f2);
    ShowIntIsField(h.f3);
    FieldsJoinSpaced(fs);
    var line := Render(h, e4, e5, strand);
    assert line == ShowInt(h.f0) + " " + JoinSpaced(fs[1..]);
    assert line[0] == ShowInt(h.f0)[0];
  }

  /** A non-comment line with seven fields whose coordinates parse to those of h draws h. */
  lemma ReadHitLine(line: string, h: Hit)
    requires !StartsWith(line, "#") && |Fields(line)| >= 7
    requires ParseInt(Fields(line)[0]) == Some(h.f0) && ParseInt(Fields(line)[1]) == Some(h.f1)
    requires ParseInt(Fields(line)[2]) == Some(h.f2) && ParseInt(Fields(line)[3]) == Some(h.f3)
    requires h.forward <==> Fields(line)[6] == "f"
    ensures ReadLine(line) == Ok(Some(Draw(h)))
  {
  }

  // ---------------------------------------------------------------------------
  // The result loop (dotplots.py:155-162)
  // ---------------------------------------------------------------------------

  /** A fault and the index of the line that raised it. */
  datatype LineError = LineError(line: nat, fault: LineFault)

  /** What the result loop leaves behind: the segments drawn, and the error that stopped it, if any. */
  datatype Drawn = Drawn(segments: seq<Segment>, error: Option<LineError>)

  /** What the loop draws from line i on. */
  function ReadFrom(lines: seq<string>, i: nat): Drawn
    requires i <= |lines|
    decreases |lines| - i
  {
    if i == |lines| then Drawn([], None)
    else
      match ReadLine(lines[i])
      case Err(f) => Drawn([], Some(LineError(i, f)))
      case Ok(None) => ReadFrom(lines, i + 1)
      case Ok(Some(g)) =>
        var rest := ReadFrom(lines, i + 1);
        Drawn([g] + rest.segments, rest.error)
  }

  /** `for line in open(tempYASSResult): ...` over the lines of the result file. */
  function ReadLines(lines: seq<string>): Drawn
  {
    ReadFrom(lines, 0)
  }

  /** The result loop: draws one segment per line that is not a comment and stops at the first line that raises. */
  method ReadResults(lines: seq<string>) returns (segments: seq<Segment>, error: Option<LineError>)
    ensures Drawn(segments, error) == ReadLines(lines)
  {
    segments, error := [], None;
    var i := 0;
    while i < |lines|
      invariant i <= |lines|
      invariant var rest := ReadFrom(lines, i); Drawn(segments + rest.segments, rest.error) == ReadLines(lines)
      decreases |lines| - i
    {
      var read := ReadLine(lines[i]);
      ReadFromStep(lines, i, segments);
      if read.Err? {
        error := Some(LineError(i, read.error));
        return;
      }
      if read.value.Some? {
        segments := segments + [read.value.value];
      }
      i := i + 1;
    }
    assert segments + [] == segments;
  }

  /** One step of the result loop, seen from the segments drawn so far. */
  lemma ReadFromStep(lines: seq<string>, i: nat, segments: seq<Segment>)
    requires i < |lines|
    ensures var read, here, rest := ReadLine(lines[i]), ReadFrom(lines, i), ReadFrom(lines, i + 1);
      && (read.Err? ==> Drawn(segments + here.segments, here.error) == Drawn(segments, Some(LineError(i, read.error))))
      && (read == Ok(None) ==> here == rest)
      && (read.Ok? && read.value.Some? ==>
            Drawn(segments + here.segments, here.error) == Drawn((segments + [read.value.value]) + rest.segments, rest.error))
  {
    var read := ReadLine(lines[i]);
    if read.Err? {
      assert segments + [] == segments;
    } else if read.value.Some? {
      var g := read.value.value;
      assert segments + ([g] + ReadFrom(lines, i + 1).segments) == (segments + [g]) + ReadFrom(lines, i + 1).segments;
    }
  }

  /** The lines that are not comments. */
  function Uncommented(lines: seq<string>): seq<string>
  {
    if lines == [] then []
    else (if StartsWith(lines[0], "#") then [] else [lines[0]]) + Uncommented(lines[1..])
  }

  /** The loop stops with an error exactly when some line raises. */
  lemma {:induction false} ReadFromError(lines: seq<string>, i: nat)
    requires i <= |lines|
    ensures ReadFrom(lines, i).error.None? <==> forall k :: i <= k < |lines| ==> ReadLine(lines[k]).Ok?
    decreases |lines| - i
  {
    if i < |lines| {
      ReadFromError(lines, i + 1);
    }
  }

  /**
   * When no line raises, the loop draws exactly one segment for each line
   * that is not a comment, in file order: the segment that line reads as.
   */
  lemma {:induction false} ReadFromSegments(lines: seq<string>, i: nat)
    requires i <= |lines|
    requires forall k :: i <= k < |lines| ==> ReadLine(lines[k]).Ok?
    ensures |ReadFrom(lines, i).segments| == |Uncommented(lines[i..])|
    ensures forall k :: 0 <= k < |ReadFrom(lines, i).segments| ==>
      ReadLine(Uncommented(lines[i..])[k]) == Ok(Some(ReadFrom(lines, i).segments[k]))
    decreases |lines| - i
  {
    if i < |lines| {
      ReadFromSegments(lines, i + 1);
      assert lines[i..][1..] == lines[i + 1..];
      var rest, u := ReadFrom(lines, i + 1), Uncommented(lines[i + 1..]);
      assert Uncommented(lines[i..]) == (if StartsWith(lines[i], "#") then [] else [lines[i]]) + u;
      if !StartsWith(lines[i], "#") {
        var line := lines[i];
        var g := ReadLine(line).value.value;
        assert ReadFrom(lines, i).segments == [g] + rest.segments;
        forall k | 0 <= k < |ReadFrom(lines, i).segments|
          ensures ReadLine(Uncommented(lines[i..])[k]) == Ok(Some(ReadFrom(lines, i).segments[k]))
        {
          if k > 0 {
            assert Uncommented(lines[i..])[k] == u[k - 1];
          }
        }
      }
    } else {
      assert lines[i..] == [];
    }
  }

  lemma ReadLinesComplete(lines: seq<string>)
    ensures ReadLines(lines).error.None? <==> forall k :: 0 <= k < |lines| ==> ReadLine(lines[k]).Ok?
    ensures ReadLines(lines).error.None? ==>
      && |ReadLines(lines).segments| == |Uncommented(lines)|
      && forall k :: 0 <= k < |ReadLines(lines).segments| ==>
           ReadLine(Uncommented(lines)[k]) == Ok(Some(ReadLines(lines).segments[k]))
  {
    ReadFromError(lines, 0);
    assert lines[0..] == lines;
    if ReadLines(lines).error.None? {
      ReadFromSegments(lines, 0);
    }
  }

  /**
   * When line e raises, every line before it read cleanly, what was drawn is
   * what those lines draw on their own, and nothing after e is read.
   */
  lemma {:induction false} ReadFromStops(lines: seq<string>, i: nat)
    requires i <= |lines| && ReadFrom(lines, i).error.Some?
    ensures var e := ReadFrom(lines, i).error.value;
      && i <= e.line < |lines|
      && ReadLine(lines[e.line]) == Err(e.fault)
      && (forall k :: i <= k < e.line ==> ReadLine(lines[k]).Ok?)
      && ReadFrom(lines, i).segments == ReadFrom(lines[..e.line], i).segments
    decreases |lines| - i
  {
    var e := ReadFrom(lines, i).error.value;
    if ReadLine(lines[i]).Err? {
      assert e.line == i;
    } else {
      ReadFromStops(lines, i + 1);
      assert lines[..e.line][i] == lines[i];
    }
  }

  lemma ReadLinesStops(lines: seq<string>)
    requires ReadLines(lines).error.Some?
    ensures var e := ReadLines(lines).error.value;
      && e.line < |lines|
      && ReadLine(lines[e.line]) == Err(e.fault)
      && (forall k :: 0 <= k < e.line ==> ReadLine(lines[k]).Ok?)
      && ReadLines(lines).segments == ReadLines(lines[..e.line]).segments
      && ReadLines(lines[..e.line]).error.None?
  {
    ReadFromStops(lines, 0);
    var e := ReadLines(lines).error.value;
    ReadFromError(lines[..e.line], 0);
    assert forall k :: 0 <= k < e.line ==> lines[..e.line][k] == lines[k];
  }
}
