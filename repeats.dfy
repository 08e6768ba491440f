/**
 * The simple-repeat detector of genosv/visualize/dotplots.py: the nucleotide
 * tables `nucs`, `dinucs`, `trinucs` and `detect_simple_repeats`.
 *
 * The Python code scans each of three pattern classes with `re.finditer` over
 * an alternation of greedy `(unit){m,}` patterns.  Every unit of a class has
 * the same length k, so at a position p only the unit s[p..p+k] can start a
 * match, and a greedy `{m,}` with nothing after it takes the longest run.  The
 * scan is therefore: at p, if s[p..p+k] is a unit of the class and it repeats
 * at least m times from p, report [p, p + k * copies) and continue at its end;
 * otherwise continue at p + 1.  `Scan` states that, `LeftmostGreedy`
 * states the regex contract independently, and the two are proved equal.
 */
module Repeats {

  // ---------------------------------------------------------------------------
  // The tables (dotplots.py:37-39)
  // ---------------------------------------------------------------------------

  /** `list(s)`: the one-letter strings of s, in order. */
  function Letters(s: string): (r: seq<string>)
    ensures |r| == |s|
  {
    if s == [] then [] else [[s[0]]] + Letters(s[1..])
  }

  /** `nucs = list("ACGT")` */
  const Nucs: seq<string> := Letters("ACGT")

  lemma NucsSpelled()
    ensures Nucs == ["A", "C", "G", "T"]
  {
  }

  /** Puts `n` in front of every word of `ws`, keeping their order. */
  function PrefixAll(n: string, ws: seq<string>): (r: seq<string>)
    ensures |r| == |ws|
  {
    if ws == [] then [] else [n + ws[0]] + PrefixAll(n, ws[1..])
  }

  lemma {:induction false} PrefixAllAt(n: string, ws: seq<string>)
    ensures forall i :: 0 <= i < |ws| ==> PrefixAll(n, ws)[i] == n + ws[i]
  {
    if ws != [] {
      PrefixAllAt(n, ws[1..]);
    }
  }

  /** Every word of `ws` behind every letter of `ns`, the first letter varying slowest. */
  function Extend(ns: seq<string>, ws: seq<string>): seq<string>
  {
    if ns == [] then [] else PrefixAll(ns[0], ws) + Extend(ns[1..], ws)
  }

  /** `"".join(x) for x in itertools.product(ns, repeat=k)`, in product order. */
  function Words(ns: seq<string>, k: nat): seq<string>
  {
    if k == 0 then [""] else Extend(ns, Words(ns, k - 1))
  }

  /** `len(set(w)) == 1`: w is not empty and all its letters are the same. */
  predicate OneLetter(w: string)
  {
    |w| > 0 && forall i :: 0 <= i < |w| ==> w[i] == w[0]
  }

  /** The comprehension's condition `if len(set(x)) != 1` on one word. */
  function KeepUnlessOneLetter(w: string): seq<string>
  {
    if OneLetter(w) then [] else [w]
  }

  /** The comprehension filter, keeping order. */
  function DropOneLetter(ws: seq<string>): seq<string>
  {
    if ws == [] then [] else KeepUnlessOneLetter(ws[0]) + DropOneLetter(ws[1..])
  }

  /** `dinucs` */
  const Dinucs: seq<string> := DropOneLetter(Words(Nucs, 2))

  /** `trinucs` */
  const Trinucs: seq<string> := DropOneLetter(Words(Nucs, 3))

  /** True when w is spelled with the letters A, C, G and T only. */
  predicate OverNucs(w: string)
  {
    forall i :: 0 <= i < |w| ==> [w[i]] in Nucs
  }

  lemma {:induction false} ExtendLength(ns: seq<string>, ws: seq<string>)
    ensures |Extend(ns, ws)| == |ns| * |ws|
  {
    if ns != [] {
      ExtendLength(ns[1..], ws);
    }
  }

  /** Extend over the four nucleotides, written out block by block. */
  lemma ExtendNucs(ws: seq<string>)
    ensures Extend(Nucs, ws)
         == PrefixAll("A", ws) + PrefixAll("C", ws) + PrefixAll("G", ws) + PrefixAll("T", ws)
  {
    var t := ["T"];
    var gt := ["G"] + t;
    var cgt := ["C"] + gt;
    NucsSpelled();
    assert Nucs == ["A"] + cgt;
    assert Extend(t, ws) == PrefixAll("T", ws) by {
      assert t[1..] == [];
    }
    assert Extend(gt, ws) == PrefixAll("G", ws) + Extend(t, ws) by {
      assert gt[1..] == t;
    }
    assert Extend(cgt, ws) == PrefixAll("C", ws) + Extend(gt, ws) by {
      assert cgt[1..] == gt;
    }
    assert Extend(Nucs, ws) == PrefixAll("A", ws) + Extend(cgt, ws) by {
      assert Nucs[1..] == cgt;
    }
  }

  lemma {:induction false} ExtendMembers(ns: seq<string>, ws: seq<string>, w: string)
    ensures w in Extend(ns, ws) <==> exists i, j :: 0 <= i < |ns| && 0 <= j < |ws| && w == ns[i] + ws[j]
  {
    if ns != [] {
      ExtendMembers(ns[1..], ws, w);
      PrefixAllAt(ns[0], ws);
      if w in Extend(ns, ws) && w !in PrefixAll(ns[0], ws) {
        var i, j :| 0 <= i < |ns[1..]| && 0 <= j < |ws| && w == ns[1..][i] + ws[j];
        assert w == ns[i + 1] + ws[j];
      }
      if exists i, j :: 0 <= i < |ns| && 0 <= j < |ws| && w == ns[i] + ws[j] {
        var i, j :| 0 <= i < |ns| && 0 <= j < |ws| && w == ns[i] + ws[j];
        if i == 0 {
          assert PrefixAll(ns[0], ws)[j] == w;
        } else {
          assert w == ns[1..][i - 1] + ws[j];
        }
      }
    }
  }

  lemma OverNucsCons(n: string, v: string)
    requires |n| == 1
    ensures OverNucs(n + v) <==> n in Nucs && OverNucs(v)
  {
    var w := n + v;
    assert [w[0]] == n;
    assert forall t :: 1 <= t < |w| ==> w[t] == v[t - 1];
    assert forall t :: 0 <= t < |v| ==> v[t] == w[t + 1];
  }

  lemma {:induction false} WordsHaveShape(k: nat, w: string)
    requires w in Words(Nucs, k)
    ensures |w| == k && OverNucs(w)
  {
    if k > 0 {
      ExtendMembers(Nucs, Words(Nucs, k - 1), w);
      var i, j :| 0 <= i < |Nucs| && 0 <= j < |Words(Nucs, k - 1)| && w == Nucs[i] + Words(Nucs, k - 1)[j];
      WordsHaveShape(k - 1, Words(Nucs, k - 1)[j]);
      OverNucsCons(Nucs[i], Words(Nucs, k - 1)[j]);
    }
  }

  lemma {:induction false} ShapeInWords(k: nat, w: string)
    requires |w| == k && OverNucs(w)
    ensures w in Words(Nucs, k)
  {
    if k == 0 {
      assert w == "";
    } else {
      var n, v := [w[0]], w[1..];
      assert w == n + v;
      OverNucsCons(n, v);
      ShapeInWords(k - 1, v);
      var i :| 0 <= i < |Nucs| && Nucs[i] == n;
      var ws := Words(Nucs, k - 1);
      var j :| 0 <= j < |ws| && ws[j] == v;
      assert w == Nucs[i] + ws[j];
      ExtendMembers(Nucs, ws, w);
      assert Words(Nucs, k) == Extend(Nucs, ws);
    }
  }

  /** The product contains exactly the words of length k over A, C, G, T. */
  lemma WordsMembers(k: nat, w: string)
    ensures w in Words(Nucs, k) <==> |w| == k && OverNucs(w)
  {
    if w in Words(Nucs, k) {
      WordsHaveShape(k, w);
    }
    if |w| == k && OverNucs(w) {
      ShapeInWords(k, w);
    }
  }

  lemma {:induction false} DropOneLetterMembers(ws: seq<string>, w: string)
    ensures w in DropOneLetter(ws) <==> w in ws && !OneLetter(w)
  {
    if ws != [] {
      DropOneLetterMembers(ws[1..], w);
      assert ws == [ws[0]] + ws[1..];
    }
  }

  lemma {:induction false} DropOneLetterAppend(a: seq<string>, b: seq<string>)
    ensures DropOneLetter(a + b) == DropOneLetter(a) + DropOneLetter(b)
  {
    if a == [] {
      assert a + b == b;
    } else {
      assert (a + b)[1..] == a[1..] + b;
      DropOneLetterAppend(a[1..], b);
    }
  }

  /** How many words w of ws make n + w a run of one letter. */
  function OneLetterAfter(n: string, ws: seq<string>): nat
  {
    if ws == [] then 0
    else (if OneLetter(n + ws[0]) then 1 else 0) + OneLetterAfter(n, ws[1..])
  }

  lemma {:induction false} OneLetterAfterAppend(n: string, a: seq<string>, b: seq<string>)
    ensures OneLetterAfter(n, a + b) == OneLetterAfter(n, a) + OneLetterAfter(n, b)
  {
    if a == [] {
      assert a + b == b;
    } else {
      assert (a + b)[1..] == a[1..] + b;
      OneLetterAfterAppend(n, a[1..], b);
    }
  }

  lemma {:induction false} DropOneLetterPrefixAll(n: string, ws: seq<string>)
    ensures |DropOneLetter(PrefixAll(n, ws))| == |ws| - OneLetterAfter(n, ws)
  {
    if ws != [] {
      assert PrefixAll(n, ws)[1..] == PrefixAll(n, ws[1..]);
      DropOneLetterPrefixAll(n, ws[1..]);
    }
  }

  /** For one-letter words n and d: n + (d + w) is one letter iff n == d and n + w is. */
  lemma OneLetterCons(n: string, d: string, w: string)
    requires |n| == 1 && |d| == 1
    ensures OneLetter(n + (d + w)) <==> n == d && OneLetter(n + w)
  {
    var long, short := n + (d + w), n + w;
    if OneLetter(long) {
      assert long[1] == d[0];
      assert forall i :: 1 <= i < |short| ==> short[i] == long[i + 1];
    }
    if n == d && OneLetter(short) {
      assert forall i :: 1 <= i < |long| ==> long[i] == short[i - 1];
    }
  }

  lemma {:induction false} OneLetterAfterPrefixAll(n: string, d: string, ws: seq<string>)
    requires |n| == 1 && |d| == 1
    ensures OneLetterAfter(n, PrefixAll(d, ws)) == if n == d then OneLetterAfter(n, ws) else 0
  {
    if ws != [] {
      assert PrefixAll(d, ws)[1..] == PrefixAll(d, ws[1..]);
      OneLetterAfterPrefixAll(n, d, ws[1..]);
      OneLetterCons(n, d, ws[0]);
    }
  }

  /** A nucleotide is one letter long and equals exactly one of A, C, G and T. */
  lemma ExactlyOneNuc(n: string)
    requires n in Nucs
    ensures |n| == 1
    ensures (if n == "A" then 1 else 0) + (if n == "C" then 1 else 0)
          + (if n == "G" then 1 else 0) + (if n == "T" then 1 else 0) == 1
  {
    NucsSpelled();
  }

  /** Exactly one word of every product makes a one-letter word behind a nucleotide. */
  lemma {:induction false} OneLetterAfterWords(n: string, k: nat)
    requires n in Nucs
    ensures OneLetterAfter(n, Words(Nucs, k)) == 1
  {
    if k == 0 {
      assert Words(Nucs, 0)[1..] == [];
    } else {
      OneLetterAfterWords(n, k - 1);
      OneLetterAfterExtend(n, Words(Nucs, k - 1));
    }
  }

  /** Behind a nucleotide n, only the words that start with n can make a one-letter word. */
  lemma OneLetterAfterExtend(n: string, ws: seq<string>)
    requires n in Nucs
    ensures OneLetterAfter(n, Extend(Nucs, ws)) == OneLetterAfter(n, ws)
  {
    var a, c, g, t := PrefixAll("A", ws), PrefixAll("C", ws), PrefixAll("G", ws), PrefixAll("T", ws);
    ExactlyOneNuc(n);
    ExtendNucs(ws);
    OneLetterAfterAppend(n, a + c + g, t);
    OneLetterAfterAppend(n, a + c, g);
    OneLetterAfterAppend(n, a, c);
    OneLetterAfterPrefixAll(n, "A", ws);
    OneLetterAfterPrefixAll(n, "C", ws);
    OneLetterAfterPrefixAll(n, "G", ws);
    OneLetterAfterPrefixAll(n, "T", ws);
  }

  /** Dropping the one-letter words from a product of length k + 1 removes four of them. */
  lemma DropOneLetterWords(k: nat)
    ensures |DropOneLetter(Words(Nucs, k + 1))| == 4 * |Words(Nucs, k)| - 4
  {
    var ws := Words(Nucs, k);
    ExtendNucs(ws);
    DropOneLetterAppend(PrefixAll("A", ws) + PrefixAll("C", ws) + PrefixAll("G", ws), PrefixAll("T", ws));
    DropOneLetterAppend(PrefixAll("A", ws) + PrefixAll("C", ws), PrefixAll("G", ws));
    DropOneLetterAppend(PrefixAll("A", ws), PrefixAll("C", ws));
    DropOneLetterPrefixAll("A", ws);
    DropOneLetterPrefixAll("C", ws);
    DropOneLetterPrefixAll("G", ws);
    DropOneLetterPrefixAll("T", ws);
    OneLetterAfterWords("A", k);
    OneLetterAfterWords("C", k);
    OneLetterAfterWords("G", k);
    OneLetterAfterWords("T", k);
  }

  /** There are 12 dinucleotides and 60 trinucleotides. */
  lemma TableSizes()
    ensures |Dinucs| == 12 && |Trinucs| == 60
  {
    ExtendLength(Nucs, Words(Nucs, 0));
    ExtendLength(Nucs, Words(Nucs, 1));
    DropOneLetterWords(1);
    DropOneLetterWords(2);
  }

  /**
   * The tables hold exactly the words of length 2 (resp. 3) over A, C, G, T
   * that are not one letter repeated.
   */
  lemma TableMembers(w: string)
    ensures w in Dinucs <==> |w| == 2 && OverNucs(w) && !OneLetter(w)
    ensures w in Trinucs <==> |w| == 3 && OverNucs(w) && !OneLetter(w)
  {
    DropOneLetterMembers(Words(Nucs, 2), w);
    DropOneLetterMembers(Words(Nucs, 3), w);
    WordsMembers(2, w);
    WordsMembers(3, w);
  }

  // ---------------------------------------------------------------------------
  // Runs of one unit
  // ---------------------------------------------------------------------------

  /** `unit * n` */
  function Repeat(u: string, n: nat): string
  {
    if n == 0 then [] else Repeat(u, n - 1) + u
  }

  lemma {:induction false} RepeatLength(u: string, n: nat)
    ensures |Repeat(u, n)| == |u| * n
  {
    if n > 0 {
      RepeatLength(u, n - 1);
      assert |u| * n == |u| * (n - 1) + |u|;
    }
  }

  /** The unit u occurs in s at position p. */
  predicate StartsAt(s: string, p: nat, u: string)
  {
    p + |u| <= |s| && s[p..p + |u|] == u
  }

  /** The number of back-to-back copies of u found in s from position p on. */
  function Copies(s: string, p: nat, u: string): nat
    requires |u| > 0
    decreases |s| - p
  {
    if StartsAt(s, p, u) then 1 + Copies(s, p + |u|, u) else 0
  }

  /** Where the run of back-to-back copies of u from p ends. */
  function RunEndOf(s: string, p: nat, u: string): nat
    requires |u| > 0
    decreases |s| - p
  {
    if StartsAt(s, p, u) then RunEndOf(s, p + |u|, u) else p
  }

  lemma {:induction false} RepeatFront(u: string, n: nat)
    requires n > 0
    ensures Repeat(u, n) == u + Repeat(u, n - 1)
  {
    if n > 1 {
      RepeatFront(u, n - 1);
    }
  }

  /**
   * The run of u from p is maximal: it spells Copies copies of u, ends within
   * s, and u does not occur at its end.
   */
  lemma {:induction false} CopiesRun(s: string, p: nat, u: string)
    requires |u| > 0 && p <= |s|
    ensures p <= RunEndOf(s, p, u) <= |s|
    ensures s[p..RunEndOf(s, p, u)] == Repeat(u, Copies(s, p, u))
    ensures !StartsAt(s, RunEndOf(s, p, u), u)
    decreases |s| - p
  {
    if StartsAt(s, p, u) {
      var q, e := p + |u|, RunEndOf(s, p, u);
      CopiesRun(s, q, u);
      RepeatFront(u, Copies(s, p, u));
      assert s[p..e] == s[p..q] + s[q..e];
    }
  }

  /** A maximal run of copies of u from p determines both its count and its end. */
  lemma {:induction false} RunUnique(s: string, p: nat, u: string, n: nat, e: nat)
    requires |u| > 0 && p <= e <= |s|
    requires s[p..e] == Repeat(u, n)
    requires !StartsAt(s, e, u)
    ensures n == Copies(s, p, u) && e == RunEndOf(s, p, u)
    decreases n
  {
    if n == 0 {
      assert e == p;
    } else {
      var q, run := p + |u|, s[p..e];
      RepeatFront(u, n);
      assert run == u + Repeat(u, n - 1);
      assert q <= e;
      assert s[p..q] == run[..|u|] == u;
      assert s[q..e] == run[|u|..] == Repeat(u, n - 1);
      assert StartsAt(s, p, u);
      RunUnique(s, q, u, n - 1, e);
    }
  }

  // ---------------------------------------------------------------------------
  // Pattern classes and the scan (dotplots.py:41-53)
  // ---------------------------------------------------------------------------

  /** Repeat intervals are half-open: [start, end). */
  datatype Interval = Interval(start: nat, end: nat)

  /**
   * One entry of `patterns`: the alternation of `(unit){minCopies,}` over the
   * units of one table, all of which have length unitLen.
   */
  datatype RepeatClass = RepeatClass(units: seq<string>, unitLen: nat, minCopies: nat)

  predicate WellFormed(c: RepeatClass)
  {
    && c.unitLen > 0
    && c.minCopies > 0
    && forall i :: 0 <= i < |c.units| ==> |c.units[i]| == c.unitLen
  }

  /** `["({}){{10,}}".format(nuc) for nuc in nucs]` */
  function Mono(): (c: RepeatClass)
    ensures WellFormed(c) && c.units == Nucs && c.unitLen == 1 && c.minCopies == 10
  {
    NucsSpelled();
    RepeatClass(Nucs, 1, 10)
  }

  /** `["({}){{5,}}".format(dinuc) for dinuc in dinucs]`: every unit has length 2. */
  function Di(): (c: RepeatClass)
    ensures WellFormed(c) && c.units == Dinucs && c.unitLen == 2 && c.minCopies == 5
  {
    forall i | 0 <= i < |Dinucs| ensures |Dinucs[i]| == 2 {
      TableMembers(Dinucs[i]);
    }
    RepeatClass(Dinucs, 2, 5)
  }

  /** `["({}){{3,}}".format(trinuc) for trinuc in trinucs]`: every unit has length 3. */
  function Tri(): (c: RepeatClass)
    ensures WellFormed(c) && c.units == Trinucs && c.unitLen == 3 && c.minCopies == 3
  {
    forall i | 0 <= i < |Trinucs| ensures |Trinucs[i]| == 3 {
      TableMembers(Trinucs[i]);
    }
    RepeatClass(Trinucs, 3, 3)
  }

  /** The unit of class c that a match at p would have to use. */
  function UnitAt(s: string, c: RepeatClass, p: nat): string
    requires p + c.unitLen <= |s|
  {
    s[p..p + c.unitLen]
  }

  /** Some alternative of class c matches at position p. */
  predicate Qualifies(s: string, c: RepeatClass, p: nat)
    requires c.unitLen > 0
  {
    && p + c.unitLen <= |s|
    && UnitAt(s, c, p) in c.units
    && Copies(s, p, UnitAt(s, c, p)) >= c.minCopies
  }

  /** Where the greedy match at p ends. */
  function RunEnd(s: string, c: RepeatClass, p: nat): nat
    requires c.unitLen > 0 && p + c.unitLen <= |s|
  {
    RunEndOf(s, p, UnitAt(s, c, p))
  }

  lemma RunEndBounds(s: string, c: RepeatClass, p: nat)
    requires WellFormed(c) && Qualifies(s, c, p)
    ensures p < RunEnd(s, c, p) <= |s|
  {
    var u := UnitAt(s, c, p);
    CopiesRun(s, p, u);
    assert RunEndOf(s, p, u) == RunEndOf(s, p + |u|, u);
    CopiesRun(s, p + |u|, u);
  }

  /** `re.finditer` of class c over s, from position p on. */
  function Scan(s: string, c: RepeatClass, p: nat): seq<Interval>
    requires WellFormed(c) && p <= |s|
    decreases |s| - p
  {
    if p == |s| then []
    else if Qualifies(s, c, p) then
      RunEndBounds(s, c, p);
      [Interval(p, RunEnd(s, c, p))] + Scan(s, c, RunEnd(s, c, p))
    else Scan(s, c, p + 1)
  }

  /** The scans of several classes, one after another. */
  function ScanClasses(s: string, cs: seq<RepeatClass>): seq<Interval>
    requires forall i :: 0 <= i < |cs| ==> WellFormed(cs[i])
  {
    if cs == [] then [] else ScanClasses(s, cs[..|cs| - 1]) + Scan(s, cs[|cs| - 1], 0)
  }

  lemma ScanThree(s: string, a: RepeatClass, b: RepeatClass, c: RepeatClass)
    requires WellFormed(a) && WellFormed(b) && WellFormed(c)
    ensures ScanClasses(s, [a, b, c]) == Scan(s, a, 0) + Scan(s, b, 0) + Scan(s, c, 0)
  {
    var one, two, three := [a], [a, b], [a, b, c];
    assert one[..0] == [];
    assert ScanClasses(s, one) == Scan(s, a, 0);
    assert two[..1] == one;
    assert ScanClasses(s, two) == Scan(s, a, 0) + Scan(s, b, 0);
    assert three[..2] == two;
  }

  /**
   * The greedy `{n,}` quantifier: counts the copies of u from p on and finds
   * where they end; the run is exactly that long.
   */
  method MatchRun(s: string, p: nat, u: string) returns (n: nat, e: nat)
    requires |u| > 0 && p <= |s|
    ensures p <= e <= |s|
    ensures s[p..e] == Repeat(u, n)
    ensures !StartsAt(s, e, u)
  {
    n, e := 0, p;
    while e + |u| <= |s| && s[e..e + |u|] == u
      invariant p <= e <= |s|
      invariant s[p..e] == Repeat(u, n)
      decreases |s| - e
    {
      assert s[p..e + |u|] == s[p..e] + s[e..e + |u|];
      n, e := n + 1, e + |u|;
    }
  }

  /**
   * `for match in re.finditer(pattern, seq): repeats.append(...)` for one
   * class: appends the matches of class c, left to right, to `repeats`.
   */
  method AppendMatches(s: string, c: RepeatClass, repeats: seq<Interval>) returns (r: seq<Interval>)
    requires WellFormed(c)
    ensures r == repeats + Scan(s, c, 0)
  {
    r := repeats;
    var p := 0;
    while p < |s|
      invariant p <= |s|
      invariant r + Scan(s, c, p) == repeats + Scan(s, c, 0)
      decreases |s| - p
    {
      var k := c.unitLen;
      if p + k <= |s| && s[p..p + k] in c.units {
        var n, e := MatchRun(s, p, s[p..p + k]);
        RunUnique(s, p, s[p..p + k], n, e);
        if n >= c.minCopies {
          RunEndBounds(s, c, p);
          r := r + [Interval(p, e)];
          p := e;
        } else {
          p := p + 1;
        }
      } else {
        p := p + 1;
      }
    }
  }

  /** The loop `for pattern in patterns`: the matches of each class in turn, appended. */
  method ScanEach(s: string, patterns: seq<RepeatClass>) returns (repeats: seq<Interval>)
    requires forall i :: 0 <= i < |patterns| ==> WellFormed(patterns[i])
    ensures repeats == ScanClasses(s, patterns)
  {
    repeats := [];
    for ci := 0 to |patterns|
      invariant repeats == ScanClasses(s, patterns[..ci])
    {
      assert patterns[..ci + 1][..ci] == patterns[..ci];
      repeats := AppendMatches(s, patterns[ci], repeats);
    }
    assert patterns[..|patterns|] == patterns;
  }

  /** What `detect_simple_repeats(seq)` returns. */
  function SimpleRepeats(s: string): seq<Interval>
  {
    Scan(s, Mono(), 0) + Scan(s, Di(), 0) + Scan(s, Tri(), 0)
  }

  /**
   * `detect_simple_repeats(seq)`: the matches of the mono class, then those of
   * the di class, then those of the tri class, with nothing merged.
   */
  method DetectSimpleRepeats(s: string) returns (repeats: seq<Interval>)
    ensures repeats == SimpleRepeats(s)
  {
    repeats := ScanEach(s, [Mono(), Di(), Tri()]);
    ScanThree(s, Mono(), Di(), Tri());
  }

  // ---------------------------------------------------------------------------
  // What the scan reports
  // ---------------------------------------------------------------------------

  /** Every interval of rs starts at or after `from` and is the greedy match there. */
  ghost predicate AllMatches(s: string, c: RepeatClass, from: nat, rs: seq<Interval>)
    requires WellFormed(c)
  {
    forall i :: 0 <= i < |rs| ==>
      from <= rs[i].start && Qualifies(s, c, rs[i].start) && rs[i].end == RunEnd(s, c, rs[i].start)
  }

  /** The intervals of rs are left to right and do not overlap. */
  ghost predicate Ordered(rs: seq<Interval>)
  {
    forall i, j :: 0 <= i < j < |rs| ==> rs[i].end <= rs[j].start
  }

  /** The index of the first interval of rs that contains q, or |rs| when none does. */
  function CoverIndex(rs: seq<Interval>, q: nat): (i: nat)
    ensures i <= |rs|
    ensures i < |rs| ==> rs[i].start <= q < rs[i].end
  {
    if rs == [] then 0
    else if rs[0].start <= q < rs[0].end then 0
    else 1 + CoverIndex(rs[1..], q)
  }

  /** Position q lies inside one of the intervals of rs. */
  predicate Covered(rs: seq<Interval>, q: nat)
  {
    CoverIndex(rs, q) < |rs|
  }

  lemma {:induction false} CoveredBy(rs: seq<Interval>, q: nat, i: nat)
    requires i < |rs| && rs[i].start <= q < rs[i].end
    ensures Covered(rs, q)
  {
    if i > 0 && !(rs[0].start <= q < rs[0].end) {
      assert rs[1..][i - 1] == rs[i];
      CoveredBy(rs[1..], q, i - 1);
    }
  }

  /** Every position from `from` on where a match could start lies inside rs. */
  ghost predicate CoversMatches(s: string, c: RepeatClass, from: nat, rs: seq<Interval>)
    requires WellFormed(c)
  {
    forall q :: from <= q && Qualifies(s, c, q) ==> Covered(rs, q)
  }

  /**
   * The contract of `re.finditer` for one class, stated without the scan: rs
   * is a left-to-right list of non-overlapping greedy matches, each starting at
   * or after `from`, and every position from `from` on where a match could
   * start lies inside one of them.
   */
  ghost predicate LeftmostGreedy(s: string, c: RepeatClass, from: nat, rs: seq<Interval>)
    requires WellFormed(c)
  {
    AllMatches(s, c, from, rs) && Ordered(rs) && CoversMatches(s, c, from, rs)
  }

  /** Adding a match in front of a list that starts after it keeps the list ordered. */
  lemma ConsOrdered(x: Interval, rest: seq<Interval>)
    requires Ordered(rest)
    requires forall k :: 0 <= k < |rest| ==> x.end <= rest[k].start
    ensures Ordered([x] + rest)
  {
    var rs := [x] + rest;
    forall i, j | 0 <= i < j < |rs| ensures rs[i].end <= rs[j].start {
      assert rs[j] == rest[j - 1];
      if i > 0 {
        assert rs[i] == rest[i - 1];
      }
    }
  }

  /** The scan reports only greedy matches, from p on. */
  lemma {:induction false} ScanAllMatches(s: string, c: RepeatClass, p: nat)
    requires WellFormed(c) && p <= |s|
    ensures AllMatches(s, c, p, Scan(s, c, p))
    decreases |s| - p
  {
    if p < |s| {
      if Qualifies(s, c, p) {
        RunEndBounds(s, c, p);
        var e := RunEnd(s, c, p);
        ScanAllMatches(s, c, e);
        var rs, rest := Scan(s, c, p), Scan(s, c, e);
        assert rs == [Interval(p, e)] + rest;
        forall i | 0 <= i < |rs|
          ensures p <= rs[i].start && Qualifies(s, c, rs[i].start) && rs[i].end == RunEnd(s, c, rs[i].start)
        {
          if i > 0 {
            assert rs[i] == rest[i - 1];
          }
        }
      } else {
        ScanAllMatches(s, c, p + 1);
      }
    }
  }

  /** The scan reports its matches left to right, without overlap. */
  lemma {:induction false} ScanOrdered(s: string, c: RepeatClass, p: nat)
    requires WellFormed(c) && p <= |s|
    ensures Ordered(Scan(s, c, p))
    decreases |s| - p
  {
    if p < |s| {
      if Qualifies(s, c, p) {
        RunEndBounds(s, c, p);
        var e := RunEnd(s, c, p);
        ScanOrdered(s, c, e);
        ScanAllMatches(s, c, e);
        var rest := Scan(s, c, e);
        assert Scan(s, c, p) == [Interval(p, e)] + rest;
        forall k | 0 <= k < |rest| ensures e <= rest[k].start {
        }
        ConsOrdered(Interval(p, e), rest);
      } else {
        ScanOrdered(s, c, p + 1);
      }
    }
  }

  /** Every position from p on where a match could start is inside a reported match. */
  lemma {:induction false} ScanCovers(s: string, c: RepeatClass, p: nat)
    requires WellFormed(c) && p <= |s|
    ensures CoversMatches(s, c, p, Scan(s, c, p))
    decreases |s| - p
  {
    if p == |s| {
      assert forall q :: p <= q ==> !Qualifies(s, c, q);
    } else if Qualifies(s, c, p) {
      RunEndBounds(s, c, p);
      var e := RunEnd(s, c, p);
      ScanCovers(s, c, e);
      var rs, rest := Scan(s, c, p), Scan(s, c, e);
      assert rs == [Interval(p, e)] + rest;
      forall q | p <= q && Qualifies(s, c, q) ensures Covered(rs, q) {
        if q < e {
          assert rs[0].start <= q < rs[0].end;
        } else {
          var i := CoverIndex(rest, q);
          assert rs[i + 1] == rest[i];
          CoveredBy(rs, q, i + 1);
        }
      }
    } else {
      ScanCovers(s, c, p + 1);
      forall q | p <= q && Qualifies(s, c, q) ensures Covered(Scan(s, c, p), q) {
        assert q != p;
      }
    }
  }

  /** The scan meets the finditer contract. */
  lemma ScanIsLeftmostGreedy(s: string, c: RepeatClass, p: nat)
    requires WellFormed(c) && p <= |s|
    ensures LeftmostGreedy(s, c, p, Scan(s, c, p))
  {
    ScanAllMatches(s, c, p);
    ScanOrdered(s, c, p);
    ScanCovers(s, c, p);
  }

  /** Dropping the first match of a list meeting the contract from p leaves one meeting it from that match's end. */
  lemma LeftmostGreedyTail(s: string, c: RepeatClass, p: nat, rs: seq<Interval>)
    requires WellFormed(c) && Qualifies(s, c, p)
    requires LeftmostGreedy(s, c, p, rs)
    ensures rs != [] && rs[0] == Interval(p, RunEnd(s, c, p))
    ensures LeftmostGreedy(s, c, RunEnd(s, c, p), rs[1..])
  {
    var i := CoverIndex(rs, p);
    if i > 0 {
      RunEndBounds(s, c, rs[0].start);
      assert false;
    }
    TailAllMatches(s, c, p, rs);
    TailOrdered(rs);
    TailCovers(s, c, p, rs);
  }

  lemma TailAllMatches(s: string, c: RepeatClass, from: nat, rs: seq<Interval>)
    requires WellFormed(c) && AllMatches(s, c, from, rs) && Ordered(rs) && rs != []
    ensures AllMatches(s, c, rs[0].end, rs[1..])
  {
    var rest := rs[1..];
    forall k | 0 <= k < |rest|
      ensures rs[0].end <= rest[k].start && Qualifies(s, c, rest[k].start) && rest[k].end == RunEnd(s, c, rest[k].start)
    {
      assert rest[k] == rs[k + 1];
    }
  }

  lemma TailOrdered(rs: seq<Interval>)
    requires Ordered(rs) && rs != []
    ensures Ordered(rs[1..])
  {
    var rest := rs[1..];
    forall k, j | 0 <= k < j < |rest| ensures rest[k].end <= rest[j].start {
      assert rest[k] == rs[k + 1] && rest[j] == rs[j + 1];
    }
  }

  lemma TailCovers(s: string, c: RepeatClass, from: nat, rs: seq<Interval>)
    requires WellFormed(c) && CoversMatches(s, c, from, rs) && rs != [] && from <= rs[0].end
    ensures CoversMatches(s, c, rs[0].end, rs[1..])
  {
    var rest := rs[1..];
    forall q | rs[0].end <= q && Qualifies(s, c, q) ensures Covered(rest, q) {
      var k := CoverIndex(rs, q);
      assert rest[k - 1] == rs[k];
      CoveredBy(rest, q, k - 1);
    }
  }

  /** The first of a list of matches starts at or after `from`, a whole unit before the end of s. */
  lemma FirstMatchInside(s: string, c: RepeatClass, from: nat, rs: seq<Interval>)
    requires WellFormed(c) && AllMatches(s, c, from, rs) && rs != []
    ensures from <= rs[0].start && rs[0].start + c.unitLen <= |s|
  {
  }

  /** A list meeting the contract from p, where no match starts, meets it from p + 1. */
  lemma LeftmostGreedySkip(s: string, c: RepeatClass, p: nat, rs: seq<Interval>)
    requires WellFormed(c) && !Qualifies(s, c, p)
    requires LeftmostGreedy(s, c, p, rs)
    ensures LeftmostGreedy(s, c, p + 1, rs)
  {
    forall k | 0 <= k < |rs| ensures p + 1 <= rs[k].start {
      assert rs[k].start != p;
    }
  }

  /** The finditer contract leaves no choice: any list meeting it is the scan. */
  lemma {:induction false} LeftmostGreedyUnique(s: string, c: RepeatClass, p: nat, rs: seq<Interval>)
    requires WellFormed(c) && p <= |s|
    requires LeftmostGreedy(s, c, p, rs)
    ensures rs == Scan(s, c, p)
    decreases |s| - p, 1
  {
    if p == |s| {
      if rs != [] {
        FirstMatchInside(s, c, p, rs);
        assert false;
      }
    } else if Qualifies(s, c, p) {
      UniqueFromMatch(s, c, p, rs);
    } else {
      LeftmostGreedySkip(s, c, p, rs);
      LeftmostGreedyUnique(s, c, p + 1, rs);
    }
  }

  /** The case of LeftmostGreedyUnique where a match starts at p. */
  lemma {:induction false} UniqueFromMatch(s: string, c: RepeatClass, p: nat, rs: seq<Interval>)
    requires WellFormed(c) && p < |s| && Qualifies(s, c, p)
    requires LeftmostGreedy(s, c, p, rs)
    ensures rs == Scan(s, c, p)
    decreases |s| - p, 0
  {
    var e := RunEnd(s, c, p);
    RunEndBounds(s, c, p);
    LeftmostGreedyTail(s, c, p, rs);
    var rest := rs[1..];
    LeftmostGreedyUnique(s, c, e, rest);
    assert Scan(s, c, p) == [Interval(p, e)] + Scan(s, c, e);
    SplitFirst(rs);
  }

  lemma SplitFirst<T>(xs: seq<T>)
    requires xs != []
    ensures xs == [xs[0]] + xs[1..]
  {
  }

  /**
   * The matches of one class lie inside s, each is a match starting where it
   * is reported and ending where the greedy match ends, and they are strictly
   * left to right and pairwise disjoint.
   */
  lemma ScanIntervals(s: string, c: RepeatClass)
    requires WellFormed(c)
    ensures forall r :: r in Scan(s, c, 0) ==>
      0 <= r.start < r.end <= |s| && Qualifies(s, c, r.start) && r.end == RunEnd(s, c, r.start)
    ensures forall i, j :: 0 <= i < j < |Scan(s, c, 0)| ==>
      Scan(s, c, 0)[i].end <= Scan(s, c, 0)[j].start
  {
    ScanIsLeftmostGreedy(s, c, 0);
    forall r | r in Scan(s, c, 0) ensures r.start < r.end <= |s| {
      RunEndBounds(s, c, r.start);
    }
  }

  /** The previous match's end (0 for the first) up to the start of match i. */
  function GapStart(rs: seq<Interval>, i: nat): nat
    requires i <= |rs|
  {
    if i == 0 then 0 else rs[i - 1].end
  }

  /**
   * Leftmost: no position between the end of the previous match (or 0) and
   * the start of the next one, nor after the last, starts a match.
   */
  lemma ScanGapsHaveNoMatch(s: string, c: RepeatClass)
    requires WellFormed(c)
    ensures forall i, q :: 0 <= i <= |Scan(s, c, 0)| && GapStart(Scan(s, c, 0), i) <= q
              && (i < |Scan(s, c, 0)| ==> q < Scan(s, c, 0)[i].start)
              ==> !Qualifies(s, c, q)
  {
    var rs := Scan(s, c, 0);
    ScanIsLeftmostGreedy(s, c, 0);
    forall i, q | 0 <= i <= |rs| && GapStart(rs, i) <= q && (i < |rs| ==> q < rs[i].start)
      ensures !Qualifies(s, c, q)
    {
      GapNotCovered(s, c, rs, i, q);
    }
  }

  /** In a list of matches in order, a position in a gap lies in no match. */
  lemma GapNotCovered(s: string, c: RepeatClass, rs: seq<Interval>, i: nat, q: nat)
    requires WellFormed(c) && AllMatches(s, c, 0, rs) && Ordered(rs)
    requires i <= |rs| && GapStart(rs, i) <= q && (i < |rs| ==> q < rs[i].start)
    ensures !Covered(rs, q)
  {
    var j := CoverIndex(rs, q);
    if j < |rs| {
      if j < i - 1 {
        assert rs[j].end <= rs[i - 1].start;
        RunEndBounds(s, c, rs[i - 1].start);
      } else if j > i {
        assert rs[i].end <= rs[j].start;
        RunEndBounds(s, c, rs[i].start);
      }
    }
  }

  /**
   * Greedy: a match at p is one unit of the class repeated at least
   * minCopies times, and the unit does not occur again at its end.
   */
  lemma MatchIsMaximalRun(s: string, c: RepeatClass, p: nat)
    requires WellFormed(c) && Qualifies(s, c, p)
    ensures UnitAt(s, c, p) in c.units
    ensures Copies(s, p, UnitAt(s, c, p)) >= c.minCopies
    ensures p < RunEnd(s, c, p) <= |s|
    ensures RunEnd(s, c, p) - p == c.unitLen * Copies(s, p, UnitAt(s, c, p))
    ensures s[p..RunEnd(s, c, p)] == Repeat(UnitAt(s, c, p), Copies(s, p, UnitAt(s, c, p)))
    ensures !StartsAt(s, RunEnd(s, c, p), UnitAt(s, c, p))
  {
    var u := UnitAt(s, c, p);
    CopiesRun(s, p, u);
    RunEndBounds(s, c, p);
    RepeatLength(u, Copies(s, p, u));
  }

  /** When no position starts a match, the class reports nothing. */
  lemma NoMatchNoInterval(s: string, c: RepeatClass)
    requires WellFormed(c)
    requires forall q :: 0 <= q < |s| ==> !Qualifies(s, c, q)
    ensures Scan(s, c, 0) == []
  {
    LeftmostGreedyUnique(s, c, 0, []);
  }

  /**
   * Each span class c reports is the unit at its start repeated Copies times,
   * at least minCopies times.
   */
  lemma ScanSpans(s: string, c: RepeatClass)
    requires WellFormed(c)
    ensures forall r :: r in Scan(s, c, 0) ==>
      && r.start + c.unitLen <= |s|
      && Copies(s, r.start, UnitAt(s, c, r.start)) >= c.minCopies
      && r.end - r.start == c.unitLen * Copies(s, r.start, UnitAt(s, c, r.start))
  {
    ScanIntervals(s, c);
    forall r | r in Scan(s, c, 0)
      ensures && r.start + c.unitLen <= |s|
              && Copies(s, r.start, UnitAt(s, c, r.start)) >= c.minCopies
              && r.end - r.start == c.unitLen * Copies(s, r.start, UnitAt(s, c, r.start))
    {
      MatchIsMaximalRun(s, c, r.start);
    }
  }

  /** A class of two-letter units reports spans of even length, at least two per copy required. */
  lemma PairClassSpans(s: string, c: RepeatClass)
    requires WellFormed(c) && c.unitLen == 2
    ensures forall r :: r in Scan(s, c, 0) ==>
      (r.end - r.start) % 2 == 0 && r.end - r.start >= 2 * c.minCopies
  {
    ScanSpans(s, c);
    forall r | r in Scan(s, c, 0) ensures (r.end - r.start) % 2 == 0 && r.end - r.start >= 2 * c.minCopies {
      var n := Copies(s, r.start, UnitAt(s, c, r.start));
      assert r.end - r.start == 2 * n;
    }
  }

  /** A class of three-letter units reports spans whose length is a multiple of 3, at least three per copy required. */
  lemma TripleClassSpans(s: string, c: RepeatClass)
    requires WellFormed(c) && c.unitLen == 3
    ensures forall r :: r in Scan(s, c, 0) ==>
      (r.end - r.start) % 3 == 0 && r.end - r.start >= 3 * c.minCopies
  {
    ScanSpans(s, c);
    forall r | r in Scan(s, c, 0) ensures (r.end - r.start) % 3 == 0 && r.end - r.start >= 3 * c.minCopies {
      var n := Copies(s, r.start, UnitAt(s, c, r.start));
      assert r.end - r.start == 3 * n;
    }
  }

  /** The mono class reports spans of at least 10 letters. */
  lemma MonoSpans(s: string)
    ensures forall r :: r in Scan(s, Mono(), 0) ==> r.end - r.start >= 10
  {
    ScanSpans(s, Mono());
  }

  /** The di class reports spans of even length, at least 10. */
  lemma DiSpans(s: string)
    ensures forall r :: r in Scan(s, Di(), 0) ==> (r.end - r.start) % 2 == 0 && r.end - r.start >= 10
  {
    PairClassSpans(s, Di());
  }

  /** The tri class reports spans whose length is a multiple of 3, at least 9. */
  lemma TriSpans(s: string)
    ensures forall r :: r in Scan(s, Tri(), 0) ==> (r.end - r.start) % 3 == 0 && r.end - r.start >= 9
  {
    TripleClassSpans(s, Tri());
  }

  /** Every interval `detect_simple_repeats` reports is a non-empty span inside s. */
  lemma SpansWithin(s: string)
    ensures forall r :: r in SimpleRepeats(s) ==> 0 <= r.start < r.end <= |s|
  {
    var m, d, t := Mono(), Di(), Tri();
    ScanIntervals(s, m);
    ScanIntervals(s, d);
    ScanIntervals(s, t);
  }

  /** n copies of one letter, spelled out, is Repeat of that letter. */
  lemma {:induction false} SameLetterIsRepeat(s: string, ch: char, n: nat)
    requires n <= |s| && forall i :: 0 <= i < |s| ==> s[i] == ch
    ensures s[..n] == Repeat([ch], n)
  {
    if n > 0 {
      SameLetterIsRepeat(s, ch, n - 1);
      assert s[..n] == s[..n - 1] + [ch];
    }
  }

  /** No unit of the di and tri tables is one letter repeated. */
  lemma TablesMixed()
    ensures forall i :: 0 <= i < |Dinucs| ==> !OneLetter(Dinucs[i])
    ensures forall i :: 0 <= i < |Trinucs| ==> !OneLetter(Trinucs[i])
  {
    forall i | 0 <= i < |Dinucs| ensures !OneLetter(Dinucs[i]) {
      TableMembers(Dinucs[i]);
    }
    forall i | 0 <= i < |Trinucs| ensures !OneLetter(Trinucs[i]) {
      TableMembers(Trinucs[i]);
    }
  }

  /** A class none of whose units is one letter repeated finds no match in a run of one letter. */
  lemma NoMixedUnitInOneLetter(s: string, c: RepeatClass, ch: char)
    requires WellFormed(c) && forall i :: 0 <= i < |c.units| ==> !OneLetter(c.units[i])
    requires forall i :: 0 <= i < |s| ==> s[i] == ch
    ensures forall q :: 0 <= q < |s| ==> !Qualifies(s, c, q)
  {
    forall q | 0 <= q < |s| && q + c.unitLen <= |s| ensures UnitAt(s, c, q) !in c.units {
      var w := UnitAt(s, c, q);
      assert w[0] == ch;
      assert OneLetter(w);
    }
  }

  /**
   * A sequence of at least 10 copies of one nucleotide yields exactly one
   * interval, the whole sequence, from the mono class and nothing from the
   * di and tri classes.
   */
  lemma HomopolymerIsOneRepeat(s: string, ch: char)
    requires |s| >= 10 && [ch] in Nucs
    requires forall i :: 0 <= i < |s| ==> s[i] == ch
    ensures SimpleRepeats(s) == [Interval(0, |s|)]
  {
    var u := [ch];
    assert UnitAt(s, Mono(), 0) == u;
    SameLetterIsRepeat(s, ch, |s|);
    assert s[0..|s|] == s[..|s|];
    RunUnique(s, 0, u, |s|, |s|);
    assert Qualifies(s, Mono(), 0);
    assert Scan(s, Mono(), |s|) == [];
    TablesMixed();
    NoMixedUnitInOneLetter(s, Di(), ch);
    NoMixedUnitInOneLetter(s, Tri(), ch);
    NoMatchNoInterval(s, Di());
    NoMatchNoInterval(s, Tri());
  }

}
