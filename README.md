# Dotplots of svviz2 in Dafny

A model of the deterministic core of `genosv/visualize/dotplots.py` from
svviz2, the module that draws one dotplot page per pair of parts of a
structural variant: the simple-repeat detector, the YASS aligner's
parameters and result lines, the breakpoints of a part, the ordered map of
parts and the pair loop around `draw_dotplot`.

The modules follow the program:

- `Repeats` (`repeats.dfy`): the `nucs`/`dinucs`/`trinucs` tables and
  `detect_simple_repeats`. The regular expression of each class is an
  alternation of greedy `(unit){m,}` patterns whose units all share one length
  k. So at a position p only the unit `s[p..p+k]` can match, and the match
  takes the longest run of that unit. `Scan` is that explicit scan.
  `LeftmostGreedy` states the contract of `re.finditer` on its own terms, and
  the two are proved to meet. `DetectSimpleRepeats` is the loop that appends
  matches, proved against `SimpleRepeats`.
- `Text` (`text.dfy`): the string operations the code relies on: the `in`
  substring test of the diagnostic check, and the `startswith`, `str.split()`
  and `int()` calls of the result loop.
- `Yass` (`yass.dfy`): the gap extension penalty, the checks on the aligner's
  exit code and first diagnostic line, the strand map of a hit, one result
  line, and the result loop (`ReadResults`, proved against `ReadLines`).
- `Parts` (`parts.dfy`): the breakpoints (`cumsum(...)[:-1]`) and the
  `OrderedDict` of parts, held as its entries in order. `CollectParts` is the
  loop over alleles and parts, proved against `Collect`. `EnumeratePairs` is
  the i <= j pair loop, proved against `Pairs`.
- `Dotplots` (`dotplots.dfy`): one page per pair, made of a frame, one segment
  per hit and one marker per repeat. `DrawDotplot` models `draw_dotplot`, and
  `GenerateDotplots` models `generate_dotplots`. The R graphics device is
  modelled as the list of pages drawn on it.
- `Wrappers` (`wrappers.dfy`): `Option` and `Result`.

The aligner is a parameter: a function from the two sequences and the gap
extension penalty to an `AlignerRun` (exit code, diagnostic lines and result
lines). Whether dotplots can be made at all (`_CAN_GENERATE_DOTPLOTS`) is the
`enabled` parameter of `Generate`. A part is its id, its sequence and the
lengths of its segments.

Python exceptions are modelled as error values carried to the caller:

- `YassError` covers a non-zero exit code, an empty diagnostic stream and a
  diagnostic line that mentions "Error". The first and third raise
  `YassException`; an empty stream raises `IndexError` from `readlines()[0]`
  (dotplots.py:136).
- `LineFault` covers a line with fewer than 7 fields and a field `int()`
  rejects.
- `Stopped` carries what the page holds when the exception is raised.
- `Batch.failure` holds the pair whose exception ends `generate_dotplots`.

## Model

| member | source | states |
|---|---|---|
| Repeats.TableSizes | genosv/visualize/dotplots.py:37-39 | the dinucleotide table has 12 entries, the trinucleotide table 60 |
| Repeats.TableMembers | genosv/visualize/dotplots.py:37-39 | a word is in `dinucs` (`trinucs`) exactly when it has length 2 (3), is spelled over A, C, G, T and is not one letter repeated |
| Repeats.TablesMixed | genosv/visualize/dotplots.py:38-39 | no entry of either table is a single letter repeated |
| Repeats.Mono | genosv/visualize/dotplots.py:42 | the mono class uses the four nucleotides as units, unit length 1, at least 10 copies |
| Repeats.Di | genosv/visualize/dotplots.py:43 | the di class uses the dinucleotide table, unit length 2, at least 5 copies |
| Repeats.Tri | genosv/visualize/dotplots.py:44 | the tri class uses the trinucleotide table, unit length 3, at least 3 copies |
| Repeats.MatchRun | genosv/visualize/dotplots.py:50 | the greedy `{m,}` loop: from p, the text up to the returned end is n copies of the unit, and the unit does not start again at that end |
| Repeats.RunUnique | genosv/visualize/dotplots.py:50 | a run of n copies of a unit not followed by another copy has the one length `Copies` and the one end `RunEndOf` |
| Repeats.AppendMatches | genosv/visualize/dotplots.py:50-51 | the `finditer` loop appends exactly the scan of the class to the list it is given |
| Repeats.ScanEach | genosv/visualize/dotplots.py:48-51 | the loop over pattern classes leaves the scans of all classes, in class order |
| Repeats.DetectSimpleRepeats | genosv/visualize/dotplots.py:41-53 | `detect_simple_repeats` returns `SimpleRepeats(s)`, the function that models it: the mono matches, then the di matches, then the tri matches |
| Repeats.ScanThree | genosv/visualize/dotplots.py:48-51 | scanning three classes in turn is the concatenation of their scans, with no de-duplication across classes |
| Repeats.ScanIsLeftmostGreedy | genosv/visualize/dotplots.py:50 | `Scan`, the model of `re.finditer` for one class, meets the `finditer` contract: only greedy matches, strictly left to right and non-overlapping, and every position where a match could start lies inside a reported match |
| Repeats.LeftmostGreedyUnique | genosv/visualize/dotplots.py:50 | that contract has exactly one solution, the scan |
| Repeats.ScanIntervals | genosv/visualize/dotplots.py:50-51 | each interval of a class has 0 <= start < end <= len(s), starts where a match qualifies and ends where the greedy run ends; the intervals are pairwise disjoint, left to right |
| Repeats.ScanGapsHaveNoMatch | genosv/visualize/dotplots.py:50 | no position between the end of one match (or 0) and the start of the next (or the end of s) starts a qualifying run |
| Repeats.MatchIsMaximalRun | genosv/visualize/dotplots.py:42-50 | a reported span is exactly its unit repeated at least the minimum number of times, and the unit does not occur again right at the end |
| Repeats.NoMatchNoInterval | genosv/visualize/dotplots.py:50 | where no position qualifies, the class reports nothing |
| Repeats.MonoSpans | genosv/visualize/dotplots.py:42 | every mono span has length at least 10 |
| Repeats.DiSpans | genosv/visualize/dotplots.py:43 | every di span has even length, at least 10 |
| Repeats.TriSpans | genosv/visualize/dotplots.py:44 | every tri span has length a multiple of 3, at least 9 |
| Repeats.SpansWithin | genosv/visualize/dotplots.py:46-53 | every interval `detect_simple_repeats` (`SimpleRepeats`) returns has 0 <= start < end <= len(seq) |
| Repeats.NoMixedUnitInOneLetter | genosv/visualize/dotplots.py:43-44 | a class none of whose units is one letter repeated finds no match in a run of a single letter |
| Repeats.HomopolymerIsOneRepeat | genosv/visualize/dotplots.py:41-53 | a sequence of at least 10 copies of one nucleotide yields exactly one interval, the whole sequence |
| Text.FieldsContent | genosv/visualize/dotplots.py:158 | `split()` loses only whitespace, and every field it returns is non-empty and has no whitespace; that each whitespace character separates fields is `FieldsSplitAt` |
| Text.FieldsJoinSpaced | genosv/visualize/dotplots.py:158 | splitting fields joined by single spaces gives the fields back |
| Text.FieldsSplitAt | genosv/visualize/dotplots.py:158 | every whitespace character separates fields: splitting `a + [c] + b` at a whitespace `c` gives the fields of `a` followed by those of `b` |
| Text.FieldsOfField | genosv/visualize/dotplots.py:158 | a non-empty string without whitespace splits into itself alone |
| Text.FieldsOfBlank | genosv/visualize/dotplots.py:158 | a string of whitespace alone splits into no fields |
| Text.ContainsAt | genosv/visualize/dotplots.py:137 | `needle in s` holds exactly when the needle occurs at some position of s |
| Text.ParseInt | genosv/visualize/dotplots.py:160-162 | `int()` of a field succeeds exactly when the field is an optional sign followed by decimal digits, with underscores only between digits |
| Text.ParseShowInt | genosv/visualize/dotplots.py:160-162 | `int(str(n)) == n` for every integer n |
| Yass.GapExtend | genosv/visualize/dotplots.py:120-123 | the penalty is minus a quarter of the longer length, rounded down, so it is never positive, and -4g <= max < -4g + 4 |
| Yass.GapExtendExample | genosv/visualize/dotplots.py:120-123 | a longer length of 1000 gives -250 |
| Yass.CheckRun | genosv/visualize/dotplots.py:134-139 | drawing goes ahead exactly when the exit code is 0, there is a first diagnostic line and it does not contain "Error"; otherwise a non-zero exit code gives `NotInstalled`, then a missing line gives `NoDiagnostics`, then a first line containing "Error" gives `ToolError` with that line |
| Yass.Draw | genosv/visualize/dotplots.py:159-162 | the segment keeps the strand and the y coordinates f2 and f3, and its x coordinates are f0 and f1 |
| Yass.DrawUndraw | genosv/visualize/dotplots.py:159-162 | the strand map loses nothing: the hit is recovered from its segment, and every segment comes from one hit |
| Yass.DrawOrientation | genosv/visualize/dotplots.py:159-162 | "f" draws from (f0, f2) to (f1, f3); any other strand draws from (f1, f2) to (f0, f3) |
| Yass.DrawExample | genosv/visualize/dotplots.py:159-162 | fields (10, 20, 5, 15) give (20,5)-(10,15) on the reverse strand and (10,5)-(20,15) on the forward |
| Yass.FirstBadField | genosv/visualize/dotplots.py:160-162 | None exactly when every field in evaluation order parses; otherwise a field of that order that does not parse, every field before it in that order parsing, so it is the `int()` call that raises |
| Yass.ReadLineOutcomes | genosv/visualize/dotplots.py:156-162 | `ReadLine`, one iteration of the result loop: nothing drawn exactly for a comment; `MissingField` with the field count exactly for a non-comment line of fewer than 7 fields; `NotAnInteger` names the first of fields 0-3, in the order the segment call evaluates `int()` (0, 2, 1, 3 for "f", else 1, 2, 0, 3), that `int()` rejects, and its text; a drawn segment comes from the hit whose coordinates fields 0-3 give, forward exactly when field 6 is "f" |
| Yass.RenderedFields | genosv/visualize/dotplots.py:156-158 | a line rendered from seven fields splits back into those fields and is not a comment |
| Yass.ReadRendered | genosv/visualize/dotplots.py:155-162 | reading a rendered result line gives back the segment of its hit, forward exactly for "f" |
| Yass.ReadResults | genosv/visualize/dotplots.py:155-162 | the result loop draws what `ReadLines` draws and stops at the same error |
| Yass.ReadLinesComplete | genosv/visualize/dotplots.py:155-162 | the loop stops with no error exactly when every line reads; then it draws one segment per line not starting with '#', in file order, each the segment that line reads as |
| Yass.ReadLinesStops | genosv/visualize/dotplots.py:155-162 | when line e raises, every earlier line read cleanly, line e raised that fault, and the segments drawn are those of the lines before e |
| Parts.CumSumAt | genosv/visualize/dotplots.py:92-93 | entry i of the cumulative sum is the sum of the first i + 1 lengths |
| Parts.BreakpointsAre | genosv/visualize/dotplots.py:92-93 | of `Breakpoints`, the model of `cumsum(...)[:-1]`: there are len - 1 breakpoints (none for no segments), and breakpoint i is the sum of the first i + 1 lengths |
| Parts.BreakpointsInterior | genosv/visualize/dotplots.py:92-93 | with positive lengths the breakpoints strictly increase, and each lies strictly between 0 and the total length |
| Parts.BreakpointsExample | genosv/visualize/dotplots.py:92-93 | lengths [3, 4, 5] give breakpoints [3, 7] |
| Parts.PutEntry | genosv/visualize/dotplots.py:75 | `Put`, one `parts[part.id] = part`: the keys keep their order and a new key goes last; the part's id then maps to the part and every other key to what it mapped to before |
| Parts.CollectMeetsSpec | genosv/visualize/dotplots.py:71-75 | `Collect`, the map after every insertion, holds each id of the parts exactly once, ordered by first insertion, with the last part inserted under the id |
| Parts.CollectIdsDistinct | genosv/visualize/dotplots.py:71-75 | no id appears twice among the keys |
| Parts.CollectParts | genosv/visualize/dotplots.py:71-75 | the loop over "alt" then "ref" leaves the map `Collect(alt + ref)` |
| Parts.PairsCount | genosv/visualize/dotplots.py:83-85 | n keys give n(n + 1)/2 pairs |
| Parts.PairAt | genosv/visualize/dotplots.py:83-85 | the pair (keys[i], keys[j]) for i <= j sits at its row-major position among the pairs |
| Parts.PairsMembers | genosv/visualize/dotplots.py:83-85 | (a, b) is a pair exactly when a = keys[i] and b = keys[j] for some i <= j |
| Parts.PairsExample | genosv/visualize/dotplots.py:83-85 | keys [A, B, C] give AA, AB, AC, BB, BC, CC |
| Parts.EnumeratePairs | genosv/visualize/dotplots.py:83-85 | the nested loop emits `Pairs(keys)` |
| Dotplots.AlongXs | genosv/visualize/dotplots.py:61-62 | one x-axis marker per repeat of the first sequence, with its start and end |
| Dotplots.AlongYs | genosv/visualize/dotplots.py:63-64 | one y-axis marker per repeat of the second sequence, with its start and end |
| Dotplots.MarkersLayout | genosv/visualize/dotplots.py:55-64 | `Markers`, the segments of `plot_simple_repeats`: marker k is repeat k of the first sequence along x, and after those comes each repeat of the second sequence along y, one marker per repeat |
| Dotplots.MarkersWithin | genosv/visualize/dotplots.py:55-64 | each marker spans a non-empty stretch inside the axis of its own sequence |
| Dotplots.DrawDotplotFinishes | genosv/visualize/dotplots.py:91-101 | of `DrawDotplot`, the model of `draw_dotplot`: a page is finished exactly when the aligner run passes its checks and every result line reads; it then has the pair's frame, one hit per non-comment result line in file order, and the markers of both sequences; it is exactly the frame, the segments of `ReadLines` and `Markers` |
| Dotplots.DrawDotplotStops | genosv/visualize/dotplots.py:134-162 | the aligner checks come first: a failed check gives `AlignerFailed` with that check's error and nothing drawn; only after the checks pass does a result line that raises give `ResultUnreadable` with that line's error, leaving the frame and the hits of the earlier lines, with no markers |
| Dotplots.Lookup | genosv/visualize/dotplots.py:85 | `parts[id]` is a part in the map with that id |
| Dotplots.GenerateDotplots | genosv/visualize/dotplots.py:67-87 | `generate_dotplots` does nothing when disabled; otherwise it collects the parts, enumerates the pairs and draws them, giving `Generate`, which runs `PlotFrom` over the pairs of parts |
| Dotplots.DrawPairs | genosv/visualize/dotplots.py:83-85 | the pair loop draws the pages `PlotFrom` (the pair loop as a function) describes and stops at the same failure |
| Dotplots.GenerateCount | genosv/visualize/dotplots.py:83-85 | when no pair raises, n distinct part ids give n(n + 1)/2 pages |
| Dotplots.GeneratePages | genosv/visualize/dotplots.py:83-85 | when no pair raises, page t is the finished page of pair t |
| Dotplots.GenerateAborted | genosv/visualize/dotplots.py:83-85 | when a pair raises, the earlier pairs drew their pages in order, the failing pair's partial page (if any) comes last, and no later pair is drawn |
| Dotplots.PartPairsOfPairs | genosv/visualize/dotplots.py:71-85 | the pairs drawn are the pairs of the map's ids, i <= j, each looked up to parts of the map |

## Left out

- `can_generate_dotplots` and `_CAN_GENERATE_DOTPLOTS` (dotplots.py:23-35) are left out: they probe for rpy2 and run `yass --version`. Their outcome is the `enabled` parameter of `Generate`.
- Temporary files, FASTA writing, the shell command and `subprocess` (dotplots.py:107-132) are left out. The aligner is a parameter. Only what it returns is modelled: the exit code, the diagnostic lines and the result lines. Decoding the first diagnostic line is not modelled; lines are strings already.
- The R graphics calls (`plot`, `abline`, `segments`, `pdf`, `dev.off`) are not executed. A page is what they would draw. Graphical attributes are not modelled: axis styles, colours other than the strand, line types and widths, and limits beyond the axis lengths.
- The marker offset `from_axis` (dotplots.py:59) is a floating-point product and is not modelled. A marker records only its axis and its span.
- `GapExtend` is computed in exact rational arithmetic. Python computes `max / 2 / 10 * 5` in floating point, with two rounded steps, and truncates; that rounding is not modelled. When the longer length is below 2^48 and not a multiple of 4, its exact quarter is at least 1/4 from an integer, more than the rounding error, so the two agree. When it is a multiple of 4, they differ only if the rounded product lands just below the exact quarter; which lengths do so is not characterised.
- `Text.ParseInt` accepts only ASCII digits and no surrounding whitespace. Python's `int()` also accepts other Unicode decimal digits and strips whitespace. The fields come from `split()`, so they carry no whitespace.
- The output path (`os.path.join`, `short_name()`, dotplots.py:78-79) and opening the PDF device are left out. The document is the list of its pages.
- When a pair raises, `generate_dotplots` ends without reaching `dev.off` (dotplots.py:87), because there is no `try`/`finally`: the exception leaves the PDF device open. The model records the failure in `Batch.failure` and does not model the open device.
- The `print` and `logger` calls are diagnostics and are left out.
- `dotplot2` (dotplots.py:167-217) is dead code, since its one call is commented out at dotplots.py:103. It is not modelled.
- The variant model (`datahub`, `chrom_parts`, `get_seq`, the segments of a part) is not part of this model. A part is given by its id, its sequence and its segment lengths.
