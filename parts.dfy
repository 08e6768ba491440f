/**
 * The bookkeeping of genosv/visualize/dotplots.py around the parts of a
 * variant: the interior breakpoints of a part (`draw_dotplot`), the
 * `OrderedDict` of parts keyed by id and the pair loop (`generate_dotplots`).
 *
 * A part comes from the variant model, which is not part of this model: here
 * it is its id, its sequence (`get_seq()`) and the lengths of its segments.
 */
module Parts {

  /** A chrom part: `part.id`, `part.get_seq()` and `[len(segment) for segment in part.segments]`. */
  datatype Part = Part(id: string, sequence: string, segmentLengths: seq<nat>)

  // ---------------------------------------------------------------------------
  // Breakpoints (dotplots.py:92-93)
  // ---------------------------------------------------------------------------

  function Sum(xs: seq<nat>): nat
  {
    if xs == [] then 0 else Sum(xs[..|xs| - 1]) + xs[|xs| - 1]
  }

  /** `numpy.cumsum(xs)` */
  function CumSum(xs: seq<nat>): (r: seq<nat>)
    ensures |r| == |xs|
  {
    if xs == [] then [] else CumSum(xs[..|xs| - 1]) + [Sum(xs)]
  }

  /** `numpy.cumsum(xs)[:-1]`: the running totals without the last one. */
  function Breakpoints(xs: seq<nat>): seq<nat>
  {
    var c := CumSum(xs);
    if c == [] then [] else c[..|c| - 1]
  }

  lemma {:induction false} CumSumAt(xs: seq<nat>)
    ensures forall i :: 0 <= i < |xs| ==> CumSum(xs)[i] == Sum(xs[..i + 1])
  {
    if xs != [] {
      var front := xs[..|xs| - 1];
      CumSumAt(front);
      forall i | 0 <= i < |xs| ensures CumSum(xs)[i] == Sum(xs[..i + 1]) {
        if i < |xs| - 1 {
          assert front[..i + 1] == xs[..i + 1];
        } else {
          assert xs[..i + 1] == xs;
        }
      }
    }
  }

  /**
   * One breakpoint fewer than segments (none without segments), and
   * breakpoint i is the total length of segments 0..i.
   */
  lemma BreakpointsAre(xs: seq<nat>)
    ensures |Breakpoints(xs)| == if xs == [] then 0 else |xs| - 1
    ensures forall i :: 0 <= i < |Breakpoints(xs)| ==> Breakpoints(xs)[i] == Sum(xs[..i + 1])
  {
    CumSumAt(xs);
  }

  lemma {:induction false} SumPrefixGrows(xs: seq<nat>, i: nat, j: nat)
    requires i < j <= |xs| && forall k :: 0 <= k < |xs| ==> xs[k] > 0
    ensures Sum(xs[..i]) < Sum(xs[..j])
    decreases j
  {
    var front := xs[..j][..j - 1];
    assert front == xs[..j - 1];
    if i < j - 1 {
      SumPrefixGrows(xs, i, j - 1);
    }
  }

  /**
   * With segments of positive length the breakpoints are strictly increasing,
   * positive and all below the total length: every one is interior.
   */
  lemma BreakpointsInterior(xs: seq<nat>)
    requires forall k :: 0 <= k < |xs| ==> xs[k] > 0
    ensures forall i, j :: 0 <= i < j < |Breakpoints(xs)| ==> Breakpoints(xs)[i] < Breakpoints(xs)[j]
    ensures forall i :: 0 <= i < |Breakpoints(xs)| ==> 0 < Breakpoints(xs)[i] < Sum(xs)
  {
    BreakpointsAre(xs);
    var b := Breakpoints(xs);
    forall i, j | 0 <= i < j < |b| ensures b[i] < b[j] {
      SumPrefixGrows(xs, i + 1, j + 1);
    }
    forall i | 0 <= i < |b| ensures 0 < b[i] < Sum(xs) {
      assert xs[..0] == [];
      SumPrefixGrows(xs, 0, i + 1);
      SumPrefixGrows(xs, i + 1, |xs|);
      assert xs[..|xs|] == xs;
    }
  }

  /** Segments of lengths 3, 4 and 5 give the breakpoints 3 and 7. */
  lemma BreakpointsExample()
    ensures Breakpoints([3, 4, 5]) == [3, 7]
  {
    var xs: seq<nat> := [3, 4, 5];
    assert xs[..2] == [3, 4] && xs[..2][..1] == [3] && xs[..2][..1][..0] == [];
    assert Sum([3]) == 3 && Sum([3, 4]) == 7;
    assert CumSum([3]) == [3] && CumSum([3, 4]) == [3, 7];
  }

  // ---------------------------------------------------------------------------
  // The parts map (dotplots.py:71-75)
  // ---------------------------------------------------------------------------

  /** The ids of ps, in order. */
  function Ids(ps: seq<Part>): (r: seq<string>)
    ensures |r| == |ps| && forall k :: 0 <= k < |ps| ==> r[k] == ps[k].id
  {
    if ps == [] then [] else Ids(ps[..|ps| - 1]) + [ps[|ps| - 1].id]
  }

  /** Where an id sits among the entries. */
  function IndexOf(entries: seq<Part>, id: string): (k: nat)
    requires id in Ids(entries)
    ensures k < |entries| && entries[k].id == id
    ensures forall j :: 0 <= j < k ==> entries[j].id != id
  {
    if entries[0].id == id then 0
    else
      assert Ids(entries[1..]) == Ids(entries)[1..];
      1 + IndexOf(entries[1..], id)
  }

  /**
   * `parts[part.id] = part` on an `OrderedDict` held as its entries in order:
   * an id already present keeps its place and takes the new part; a new id
   * goes at the end.
   */
  function Put(entries: seq<Part>, p: Part): seq<Part>
  {
    if p.id in Ids(entries) then entries[IndexOf(entries, p.id) := p] else entries + [p]
  }

  /**
   * `parts[p.id] = p` as a dictionary update: the keys keep their order, a
   * new key goes last, p.id now maps to p and every other key maps to what it
   * mapped to before.
   */
  lemma PutEntry(entries: seq<Part>, p: Part)
    ensures Ids(Put(entries, p)) == if p.id in Ids(entries) then Ids(entries) else Ids(entries) + [p.id]
    ensures p.id in Ids(Put(entries, p)) && Put(entries, p)[IndexOf(Put(entries, p), p.id)] == p
    ensures forall id :: id in Ids(entries) && id != p.id ==>
      id in Ids(Put(entries, p)) && Put(entries, p)[IndexOf(Put(entries, p), id)] == entries[IndexOf(entries, id)]
  {
    PutIds(entries, p);
    PutHolds(entries, p);
    forall id | id in Ids(entries) && id != p.id
      ensures id in Ids(Put(entries, p)) && Put(entries, p)[IndexOf(Put(entries, p), id)] == entries[IndexOf(entries, id)]
    {
      PutKeeps(entries, p, id);
    }
  }

  /** Position by position, the entries after `Put` carry the ids they carried before, and p.id last if it is new. */
  lemma PutIdsAt(entries: seq<Part>, p: Part)
    ensures |Put(entries, p)| == if p.id in Ids(entries) then |entries| else |entries| + 1
    ensures forall j :: 0 <= j < |entries| ==> Put(entries, p)[j].id == entries[j].id
    ensures p.id !in Ids(entries) ==> Put(entries, p)[|entries|] == p
    ensures forall j :: 0 <= j < |entries| && entries[j].id != p.id ==> Put(entries, p)[j] == entries[j]
  {
  }

  lemma PutIds(entries: seq<Part>, p: Part)
    ensures Ids(Put(entries, p)) == if p.id in Ids(entries) then Ids(entries) else Ids(entries) + [p.id]
  {
    PutIdsAt(entries, p);
    if p.id !in Ids(entries) {
      IdsAppend(entries, p);
    }
  }

  lemma PutHolds(entries: seq<Part>, p: Part)
    ensures p.id in Ids(Put(entries, p)) && Put(entries, p)[IndexOf(Put(entries, p), p.id)] == p
  {
    PutIds(entries, p);
    var e := Put(entries, p);
    if p.id in Ids(entries) {
      PutIdsAt(entries, p);
      var i, k := IndexOf(e, p.id), IndexOf(entries, p.id);
      assert e[k] == p;
      assert entries[i].id == p.id;
    } else {
      PutIdsAt(entries, p);
      assert e[|entries|] == p;
    }
  }

  lemma PutKeeps(entries: seq<Part>, p: Part, id: string)
    requires id in Ids(entries) && id != p.id
    ensures id in Ids(Put(entries, p)) && Put(entries, p)[IndexOf(Put(entries, p), id)] == entries[IndexOf(entries, id)]
  {
    PutIds(entries, p);
    PutIdsAt(entries, p);
    var e := Put(entries, p);
    var i, j := IndexOf(e, id), IndexOf(entries, id);
    assert e[j].id == id;
    assert i <= j;
    assert entries[i].id == id;
    assert i == j;
  }

  /** The map after `parts[part.id] = part` for every part of ps, in order, from an empty map. */
  function Collect(ps: seq<Part>): seq<Part>
  {
    if ps == [] then [] else Put(Collect(ps[..|ps| - 1]), ps[|ps| - 1])
  }

  /** The position of the first part of ps with this id. */
  function FirstIndex(ps: seq<Part>, id: string): (k: nat)
    requires id in Ids(ps)
    ensures k < |ps| && ps[k].id == id
    ensures forall j :: 0 <= j < k ==> ps[j].id != id
  {
    IndexOf(ps, id)
  }

  /** The position of the last part of ps with this id. */
  function LastIndex(ps: seq<Part>, id: string): (k: nat)
    requires id in Ids(ps)
    ensures k < |ps| && ps[k].id == id
    ensures forall j :: k < j < |ps| ==> ps[j].id != id
  {
    if ps[|ps| - 1].id == id then |ps| - 1
    else
      var front := ps[..|ps| - 1];
      assert Ids(ps) == Ids(front) + [ps[|ps| - 1].id];
      LastIndex(front, id)
  }

  /** The same ids, each present in one exactly when in the other. */
  ghost predicate SameIds(entries: seq<Part>, ps: seq<Part>)
  {
    forall id :: id in Ids(entries) <==> id in Ids(ps)
  }

  /** The entries come in the order in which their ids first occur in ps. */
  ghost predicate FirstOrdered(entries: seq<Part>, ps: seq<Part>)
  {
    forall i, j :: 0 <= i < j < |entries| ==>
      entries[i].id in Ids(ps) && entries[j].id in Ids(ps) &&
      FirstIndex(ps, entries[i].id) < FirstIndex(ps, entries[j].id)
  }

  /** Each entry is the last part of ps with its id. */
  ghost predicate LastValues(entries: seq<Part>, ps: seq<Part>)
  {
    forall k :: 0 <= k < |entries| ==>
      entries[k].id in Ids(ps) && entries[k] == ps[LastIndex(ps, entries[k].id)]
  }

  /**
   * What an `OrderedDict` filled from ps holds: each id of ps exactly once,
   * ordered by where the id first occurs in ps, with the last part of ps
   * that has the id.
   */
  ghost predicate CollectedFrom(entries: seq<Part>, ps: seq<Part>)
  {
    SameIds(entries, ps) && FirstOrdered(entries, ps) && LastValues(entries, ps)
  }

  lemma IdsAppend(ps: seq<Part>, p: Part)
    ensures Ids(ps + [p]) == Ids(ps) + [p.id]
  {
    assert (ps + [p])[..|ps|] == ps;
  }

  /** Appending a part leaves the first occurrence of every id already present where it was. */
  lemma FirstIndexAppend(ps: seq<Part>, p: Part, id: string)
    requires id in Ids(ps)
    ensures id in Ids(ps + [p]) && FirstIndex(ps + [p], id) == FirstIndex(ps, id)
  {
    IdsAppend(ps, p);
    var k := FirstIndex(ps, id);
    assert (ps + [p])[k] == ps[k];
  }

  /** The last occurrence, after appending p: p itself for its id, unchanged for any other. */
  lemma LastIndexAppend(ps: seq<Part>, p: Part, id: string)
    requires id in Ids(ps + [p])
    ensures LastIndex(ps + [p], id) == if id == p.id then |ps| else LastIndex(ps, id)
  {
    IdsAppend(ps, p);
    assert (ps + [p])[..|ps|] == ps;
  }

  lemma {:induction false} CollectMeetsSpec(ps: seq<Part>)
    ensures CollectedFrom(Collect(ps), ps)
  {
    if ps != [] {
      var front, p := ps[..|ps| - 1], ps[|ps| - 1];
      assert ps == front + [p];
      CollectMeetsSpec(front);
      var entries := Collect(front);
      if p.id in Ids(entries) {
        var k := IndexOf(entries, p.id);
        ReplaceIds(entries, front, p, k);
        ReplaceOrdered(entries, front, p, k);
        ReplaceValues(entries, front, p, k);
      } else {
        AppendIds(entries, front, p);
        AppendOrdered(entries, front, p);
        AppendValues(entries, front, p);
      }
    }
  }

  lemma ReplaceIds(entries: seq<Part>, ps: seq<Part>, p: Part, k: nat)
    requires SameIds(entries, ps) && k < |entries| && entries[k].id == p.id
    ensures SameIds(entries[k := p], ps + [p])
  {
    IdsAppend(ps, p);
    var e' := entries[k := p];
    assert Ids(e') == Ids(entries);
  }

  lemma ReplaceOrdered(entries: seq<Part>, ps: seq<Part>, p: Part, k: nat)
    requires SameIds(entries, ps) && FirstOrdered(entries, ps) && k < |entries| && entries[k].id == p.id
    ensures FirstOrdered(entries[k := p], ps + [p])
  {
    FirstOrderedGrow(entries, ps, p);
    assert Ids(entries[k := p]) == Ids(entries);
    FirstOrderedSameIds(entries, entries[k := p], ps + [p]);
  }

  /** Appending a part to ps keeps the entries in the order of first occurrences. */
  lemma FirstOrderedGrow(entries: seq<Part>, ps: seq<Part>, p: Part)
    requires FirstOrdered(entries, ps)
    ensures FirstOrdered(entries, ps + [p])
  {
    forall i, j | 0 <= i < j < |entries|
      ensures entries[i].id in Ids(ps + [p]) && entries[j].id in Ids(ps + [p])
      ensures FirstIndex(ps + [p], entries[i].id) < FirstIndex(ps + [p], entries[j].id)
    {
      assert entries[i].id in Ids(ps) && entries[j].id in Ids(ps);
      FirstIndexAppend(ps, p, entries[i].id);
      FirstIndexAppend(ps, p, entries[j].id);
    }
  }

  /** Whether entries come in first-occurrence order depends only on their ids. */
  lemma FirstOrderedSameIds(a: seq<Part>, b: seq<Part>, ps: seq<Part>)
    requires Ids(a) == Ids(b) && FirstOrdered(a, ps)
    ensures FirstOrdered(b, ps)
  {
    forall i, j | 0 <= i < j < |b|
      ensures b[i].id in Ids(ps) && b[j].id in Ids(ps)
      ensures FirstIndex(ps, b[i].id) < FirstIndex(ps, b[j].id)
    {
      assert b[i].id == Ids(b)[i] == Ids(a)[i] == a[i].id;
      assert b[j].id == Ids(b)[j] == Ids(a)[j] == a[j].id;
    }
  }

  lemma ReplaceValues(entries: seq<Part>, ps: seq<Part>, p: Part, k: nat)
    requires FirstOrdered(entries, ps) && LastValues(entries, ps) && k < |entries| && entries[k].id == p.id
    ensures LastValues(entries[k := p], ps + [p])
  {
    IdsAppend(ps, p);
    var e' := entries[k := p];
    forall j | 0 <= j < |e'| ensures e'[j].id in Ids(ps + [p]) && e'[j] == (ps + [p])[LastIndex(ps + [p], e'[j].id)] {
      LastIndexAppend(ps, p, e'[j].id);
      if j != k {
        assert entries[j].id != p.id by {
          if j < k {
            assert FirstIndex(ps, entries[j].id) < FirstIndex(ps, entries[k].id);
          } else {
            assert FirstIndex(ps, entries[k].id) < FirstIndex(ps, entries[j].id);
          }
        }
        assert (ps + [p])[LastIndex(ps, entries[j].id)] == ps[LastIndex(ps, entries[j].id)];
      }
    }
  }

  lemma AppendIds(entries: seq<Part>, ps: seq<Part>, p: Part)
    requires SameIds(entries, ps)
    ensures SameIds(entries + [p], ps + [p])
  {
    IdsAppend(ps, p);
    IdsAppend(entries, p);
  }

  lemma AppendOrdered(entries: seq<Part>, ps: seq<Part>, p: Part)
    requires SameIds(entries, ps) && FirstOrdered(entries, ps) && p.id !in Ids(entries)
    ensures FirstOrdered(entries + [p], ps + [p])
  {
    var e', ps' := entries + [p], ps + [p];
    forall i, j | 0 <= i < j < |e'|
      ensures e'[i].id in Ids(ps') && e'[j].id in Ids(ps')
      ensures FirstIndex(ps', e'[i].id) < FirstIndex(ps', e'[j].id)
    {
      AppendOrderedAt(entries, ps, p, i, j);
    }
  }

  /** One pair of entries after the append keeps the order of first occurrences. */
  lemma AppendOrderedAt(entries: seq<Part>, ps: seq<Part>, p: Part, i: nat, j: nat)
    requires SameIds(entries, ps) && FirstOrdered(entries, ps) && p.id !in Ids(entries)
    requires i < j <= |entries|
    ensures (entries + [p])[i].id in Ids(ps + [p]) && (entries + [p])[j].id in Ids(ps + [p])
    ensures FirstIndex(ps + [p], (entries + [p])[i].id) < FirstIndex(ps + [p], (entries + [p])[j].id)
  {
    IdsAppend(ps, p);
    var e', ps' := entries + [p], ps + [p];
    assert e'[i] == entries[i];
    assert Ids(entries)[i] == entries[i].id;
    FirstIndexAppend(ps, p, entries[i].id);
    if j < |entries| {
      assert e'[j] == entries[j];
      FirstIndexAppend(ps, p, entries[j].id);
    } else {
      assert e'[j] == p;
      assert FirstIndex(ps', p.id) == |ps|;
    }
  }

  lemma AppendValues(entries: seq<Part>, ps: seq<Part>, p: Part)
    requires SameIds(entries, ps) && LastValues(entries, ps) && p.id !in Ids(entries)
    ensures LastValues(entries + [p], ps + [p])
  {
    IdsAppend(ps, p);
    var e' := entries + [p];
    var ps' := ps + [p];
    forall j | 0 <= j < |e'| ensures e'[j].id in Ids(ps') && e'[j] == ps'[LastIndex(ps', e'[j].id)] {
      LastIndexAppend(ps, p, e'[j].id);
      if j < |entries| {
        assert e'[j] == entries[j];
        assert Ids(entries)[j] == entries[j].id;
        assert ps'[LastIndex(ps, entries[j].id)] == ps[LastIndex(ps, entries[j].id)];
      }
    }
  }

  /** The map holds each id once. */
  lemma CollectIdsDistinct(ps: seq<Part>)
    ensures forall i, j :: 0 <= i < j < |Collect(ps)| ==> Collect(ps)[i].id != Collect(ps)[j].id
  {
    CollectMeetsSpec(ps);
  }

  lemma CollectStep(seen: seq<Part>, ps: seq<Part>, k: nat)
    requires k < |ps|
    ensures Collect(seen + ps[..k + 1]) == Put(Collect(seen + ps[..k]), ps[k])
  {
    var front := seen + ps[..k];
    assert seen + ps[..k + 1] == front + [ps[k]];
    assert (front + [ps[k]])[..|front|] == front;
  }

  lemma CollectNone(seen: seq<Part>, ps: seq<Part>)
    ensures Collect(seen + ps[..0]) == Collect(seen)
  {
    assert seen + ps[..0] == seen;
  }

  lemma CollectWhole(seen: seq<Part>, ps: seq<Part>)
    ensures Collect(seen + ps[..|ps|]) == Collect(seen + ps)
  {
    assert ps[..|ps|] == ps;
  }

  /**
   * `for allele in ["alt", "ref"]: for part in chrom_parts(allele): parts[part.id] = part`
   */
  method CollectParts(alt: seq<Part>, ref: seq<Part>) returns (parts: seq<Part>)
    ensures parts == Collect(alt + ref)
  {
    parts := [];
    var alleles := [alt, ref];
    ghost var seen: seq<Part> := [];
    for a := 0 to 2
      invariant seen == (if a == 0 then [] else if a == 1 then alt else alt + ref)
      invariant parts == Collect(seen)
    {
      var chromParts := alleles[a];
      CollectNone(seen, chromParts);
      for k := 0 to |chromParts|
        invariant parts == Collect(seen + chromParts[..k])
      {
        CollectStep(seen, chromParts, k);
        parts := Put(parts, chromParts[k]);
      }
      CollectWhole(seen, chromParts);
      seen := seen + chromParts;
    }
  }

  // ---------------------------------------------------------------------------
  // The pairs (dotplots.py:83-85)
  // ---------------------------------------------------------------------------

  /** `[(keys[i], k) for k in keys[i:]]` followed by the same for every later i. */
  function PairsFrom(keys: seq<string>, i: nat): seq<(string, string)>
    requires i <= |keys|
    decreases |keys| - i
  {
    if i == |keys| then [] else Row(keys, i, i) + PairsFrom(keys, i + 1)
  }

  /** `[(keys[i], keys[j]) for j in range(from, len(keys))]` */
  function Row(keys: seq<string>, i: nat, from: nat): (r: seq<(string, string)>)
    requires i < |keys| && from <= |keys|
    ensures |r| == |keys| - from
    ensures forall t :: 0 <= t < |r| ==> r[t] == (keys[i], keys[from + t])
    decreases |keys| - from
  {
    if from == |keys| then [] else [(keys[i], keys[from])] + Row(keys, i, from + 1)
  }

  /** Every pair of keys (i, j) with i <= j, in the order of the nested loop. */
  function Pairs(keys: seq<string>): seq<(string, string)>
  {
    PairsFrom(keys, 0)
  }

  /**
   * Where row i of the pair loop begins among the pairs of rows from, from + 1,
   * ...: rows from..i-1 come first, row r holding n - r pairs.
   */
  function RowStart(n: nat, from: nat, i: nat): nat
    requires from <= i <= n
    decreases i - from
  {
    if from == i then 0 else (n - from) + RowStart(n, from + 1, i)
  }

  lemma {:induction false} PairsFromLength(keys: seq<string>, from: nat)
    requires from <= |keys|
    ensures |PairsFrom(keys, from)| == RowStart(|keys|, from, |keys|)
    decreases |keys| - from
  {
    if from < |keys| {
      var n, row := |keys|, Row(keys, from, from);
      assert PairsFrom(keys, from) == row + PairsFrom(keys, from + 1);
      assert RowStart(n, from, n) == (n - from) + RowStart(n, from + 1, n);
      PairsFromLength(keys, from + 1);
    }
  }

  lemma {:induction false} RowStartClosed(n: nat, from: nat, i: nat)
    requires from <= i <= n
    ensures 2 * RowStart(n, from, i) == (i - from) * (2 * n - i - from + 1)
    decreases i - from
  {
    if from < i {
      RowStartClosed(n, from + 1, i);
      var d := i - from;
      assert d * (2 * n - i - from + 1) == (d - 1) * (2 * n - i - from) + 2 * (n - from);
    }
  }

  /** n keys make n(n+1)/2 pairs: every unordered pair once, plus every key with itself. */
  lemma PairsCount(keys: seq<string>)
    ensures 2 * |Pairs(keys)| == |keys| * (|keys| + 1)
  {
    PairsFromLength(keys, 0);
    RowStartClosed(|keys|, 0, |keys|);
  }

  lemma PairsFromAt(keys: seq<string>, from: nat, i: nat, j: nat)
    requires from <= i <= j < |keys|
    ensures RowStart(|keys|, from, i) + (j - i) < |PairsFrom(keys, from)|
    ensures PairsFrom(keys, from)[RowStart(|keys|, from, i) + (j - i)] == (keys[i], keys[j])
  {
    var all, k := PairsFrom(keys, from), RowStart(|keys|, from, i);
    PairsFromDrop(keys, from, i);
    var row, rest := Row(keys, i, i), PairsFrom(keys, i + 1);
    assert all[k..] == row + rest;
    IndexFront(row, rest, j - i);
  }

  /** Dropping the rows before i from PairsFrom(keys, from) leaves PairsFrom(keys, i). */
  lemma {:induction false} PairsFromDrop(keys: seq<string>, from: nat, i: nat)
    requires from <= i <= |keys|
    ensures RowStart(|keys|, from, i) <= |PairsFrom(keys, from)|
    ensures PairsFrom(keys, from)[RowStart(|keys|, from, i)..] == PairsFrom(keys, i)
    decreases i - from
  {
    if from < i {
      var row, rest := Row(keys, from, from), PairsFrom(keys, from + 1);
      var m := RowStart(|keys|, from + 1, i);
      PairsFromDrop(keys, from + 1, i);
      assert PairsFrom(keys, from) == row + rest;
      assert RowStart(|keys|, from, i) == |row| + m;
      DropBack(row, rest, m);
      assert PairsFrom(keys, from)[|row| + m..] == rest[m..];
    }
  }

  lemma DropBack<T>(a: seq<T>, b: seq<T>, t: nat)
    requires t <= |b|
    ensures |a| + t <= |a + b| && (a + b)[|a| + t..] == b[t..]
  {
  }

  lemma IndexFront<T>(a: seq<T>, b: seq<T>, t: nat)
    requires t < |a|
    ensures (a + b)[t] == a[t]
  {
  }

  /**
   * The pair (keys[i], keys[j]) for i <= j sits at position
   * RowStart(n, 0, i) + (j - i): row by row, and within a row in key order.
   */
  lemma PairAt(keys: seq<string>, i: nat, j: nat)
    requires i <= j < |keys|
    ensures RowStart(|keys|, 0, i) + (j - i) < |Pairs(keys)|
    ensures Pairs(keys)[RowStart(|keys|, 0, i) + (j - i)] == (keys[i], keys[j])
  {
    PairsFromAt(keys, 0, i, j);
  }

  lemma {:induction false} PairsFromSound(keys: seq<string>, from: nat, a: string, b: string)
    requires from <= |keys| && (a, b) in PairsFrom(keys, from)
    ensures exists i, j :: from <= i <= j < |keys| && keys[i] == a && keys[j] == b
    decreases |keys| - from
  {
    var row, rest := Row(keys, from, from), PairsFrom(keys, from + 1);
    assert PairsFrom(keys, from) == row + rest;
    if (a, b) in row {
      var t :| 0 <= t < |row| && row[t] == (a, b);
      assert keys[from] == a && keys[from + t] == b;
    } else {
      PairsFromSound(keys, from + 1, a, b);
    }
  }

  /** A pair is enumerated exactly when its first key is at or before its second. */
  lemma PairsMembers(keys: seq<string>, a: string, b: string)
    ensures (a, b) in Pairs(keys) <==> exists i, j :: 0 <= i <= j < |keys| && keys[i] == a && keys[j] == b
  {
    if (a, b) in Pairs(keys) {
      PairsFromSound(keys, 0, a, b);
    }
    if exists i, j :: 0 <= i <= j < |keys| && keys[i] == a && keys[j] == b {
      var i, j :| 0 <= i <= j < |keys| && keys[i] == a && keys[j] == b;
      PairAt(keys, i, j);
    }
  }

  /** Keys A, B and C give AA, AB, AC, BB, BC, CC. */
  lemma PairsExample()
    ensures Pairs(["A", "B", "C"]) == [("A", "A"), ("A", "B"), ("A", "C"), ("B", "B"), ("B", "C"), ("C", "C")]
  {
    var keys := ["A", "B", "C"];
    assert Row(keys, 2, 2) == [("C", "C")];
    assert Row(keys, 1, 1) == [("B", "B"), ("B", "C")];
    assert Row(keys, 0, 0) == [("A", "A"), ("A", "B"), ("A", "C")];
  }

  /**
   * `for i, part1 in enumerate(keys): for part2 in keys[i:]`, emitting each
   * pair in turn.
   */
  method EnumeratePairs(keys: seq<string>) returns (pairs: seq<(string, string)>)
    ensures pairs == Pairs(keys)
  {
    pairs := [];
    for i := 0 to |keys|
      invariant pairs + PairsFrom(keys, i) == Pairs(keys)
    {
      var row := keys[i..];
      ghost var done := pairs;
      for t := 0 to |row|
        invariant pairs == done + Row(keys, i, i)[..t]
      {
        RowPrefixStep(keys, i, t);
        pairs := pairs + [(keys[i], row[t])];
      }
      RowDone(done, keys, i);
    }
  }

  lemma RowPrefixStep(keys: seq<string>, i: nat, t: nat)
    requires i + t < |keys|
    ensures Row(keys, i, i)[..t + 1] == Row(keys, i, i)[..t] + [(keys[i], keys[i..][t])]
  {
    var r := Row(keys, i, i);
    assert r[t] == (keys[i], keys[i + t]);
  }

  lemma RowDone(done: seq<(string, string)>, keys: seq<string>, i: nat)
    requires i < |keys|
    ensures done + Row(keys, i, i)[..|keys[i..]|] + PairsFrom(keys, i + 1) == done + PairsFrom(keys, i)
  {
    var r := Row(keys, i, i);
    assert r[..|keys[i..]|] == r;
    assert PairsFrom(keys, i) == r + PairsFrom(keys, i + 1);
  }
}
