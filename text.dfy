/**
 * The string operations the YASS result loop of genosv/visualize/dotplots.py
 * relies on: `str.split()` with no argument, `str.startswith`, the `in`
 * substring test and `int()` on a decimal string.
 */
module Text {
  import opened Wrappers

  // ---------------------------------------------------------------------------
  // Whitespace and `str.split()`
  // ---------------------------------------------------------------------------

  /** The characters Python's `str.isspace` accepts, which `str.split()` splits on. */
  predicate IsSpace(c: char)
  {
    || ('\U{9}' <= c <= '\U{D}')
    || ('\U{1C}' <= c <= '\U{20}')
    || c == '\U{85}' || c == '\U{A0}' || c == '\U{1680}'
    || ('\U{2000}' <= c <= '\U{200A}')
    || c == '\U{2028}' || c == '\U{2029}' || c == '\U{202F}' || c == '\U{205F}' || c == '\U{3000}'
  }

  /** A field of `str.split()`: non-empty and free of whitespace. */
  predicate IsField(w: string)
  {
    |w| > 0 && forall i :: 0 <= i < |w| ==> !IsSpace(w[i])
  }

  /**
   * The fields of s after the current partial field `cur`: every maximal run
   * of non-whitespace characters, in order.
   */
  function FieldsFrom(s: string, cur: string): seq<string>
  {
    if s == [] then
      (if cur == [] then [] else [cur])
    else if IsSpace(s[0]) then
      (if cur == [] then [] else [cur]) + FieldsFrom(s[1..], [])
    else
      FieldsFrom(s[1..], cur + [s[0]])
  }

  /** `s.strip().split()` (the strip changes nothing the split does not already drop). */
  function Fields(s: string): seq<string>
  {
    FieldsFrom(s, [])
  }

  /** The characters of s that are not whitespace, in order. */
  function Unspaced(s: string): string
  {
    if s == [] then [] else (if IsSpace(s[0]) then [] else [s[0]]) + Unspaced(s[1..])
  }

  /** The fields glued back together. */
  function Concat(ws: seq<string>): string
  {
    if ws == [] then [] else ws[0] + Concat(ws[1..])
  }

  /** The fields separated by single spaces. */
  function JoinSpaced(ws: seq<string>): string
  {
    if ws == [] then [] else if |ws| == 1 then ws[0] else ws[0] + " " + JoinSpaced(ws[1..])
  }

  lemma {:induction false} ConcatAppend(a: seq<string>, b: seq<string>)
    ensures Concat(a + b) == Concat(a) + Concat(b)
  {
    if a == [] {
      assert a + b == b;
    } else {
      assert (a + b)[0] == a[0];
      assert (a + b)[1..] == a[1..] + b;
      ConcatAppend(a[1..], b);
    }
  }

  /** A partial field is kept whole in front of the rest. */
  lemma {:induction false} FieldsFromConcat(s: string, cur: string)
    ensures Concat(FieldsFrom(s, cur)) == cur + Unspaced(s)
  {
    if s == [] {
      assert Concat([cur]) == cur + Concat([]);
    } else if IsSpace(s[0]) {
      FieldsFromConcat(s[1..], []);
      var front: seq<string> := if cur == [] then [] else [cur];
      ConcatAppend(front, FieldsFrom(s[1..], []));
      assert Concat(front) == cur by {
        if cur != [] {
          assert Concat(front) == cur + Concat([]);
        }
      }
    } else {
      FieldsFromConcat(s[1..], cur + [s[0]]);
      assert cur + [s[0]] + Unspaced(s[1..]) == cur + Unspaced(s);
    }
  }

  /** Every field found after a partial field free of whitespace is a proper field. */
  lemma {:induction false} FieldsFromAreFields(s: string, cur: string)
    requires forall i :: 0 <= i < |cur| ==> !IsSpace(cur[i])
    ensures forall k :: 0 <= k < |FieldsFrom(s, cur)| ==> IsField(FieldsFrom(s, cur)[k])
  {
    if s == [] {
    } else if IsSpace(s[0]) {
      FieldsFromAreFields(s[1..], []);
      var front: seq<string> := if cur == [] then [] else [cur];
      var r := front + FieldsFrom(s[1..], []);
      forall k | 0 <= k < |r| ensures IsField(r[k]) {
        if k >= |front| {
          assert r[k] == FieldsFrom(s[1..], [])[k - |front|];
        }
      }
    } else {
      var next := cur + [s[0]];
      assert forall i :: 0 <= i < |next| ==> !IsSpace(next[i]);
      FieldsFromAreFields(s[1..], next);
    }
  }

  /**
   * `str.split()` loses nothing but whitespace, and every field it returns is
   * non-empty and free of whitespace.
   */
  lemma FieldsContent(s: string)
    ensures Concat(Fields(s)) == Unspaced(s)
    ensures forall k :: 0 <= k < |Fields(s)| ==> IsField(Fields(s)[k])
  {
    FieldsFromConcat(s, []);
    FieldsFromAreFields(s, []);
  }

  /** A field followed by whitespace or the end: reading it from any partial field. */
  lemma {:induction false} FieldsFromWord(w: string, rest: string, cur: string)
    requires forall i :: 0 <= i < |w| ==> !IsSpace(w[i])
    requires rest == [] || IsSpace(rest[0])
    ensures FieldsFrom(w + rest, cur) == FieldsFrom(rest, cur + w)
    decreases |w|
  {
    if w == [] {
      assert w + rest == rest && cur + w == cur;
    } else {
      assert (w + rest)[0] == w[0];
      assert (w + rest)[1..] == w[1..] + rest;
      FieldsFromWord(w[1..], rest, cur + [w[0]]);
      assert cur + [w[0]] + w[1..] == cur + w;
    }
  }

  /** Splitting fields joined by single spaces gives them back. */
  lemma {:induction false} FieldsJoinSpaced(ws: seq<string>)
    requires forall k :: 0 <= k < |ws| ==> IsField(ws[k])
    ensures Fields(JoinSpaced(ws)) == ws
  {
    if |ws| == 1 {
      assert ws[0] + [] == ws[0];
      FieldsFromWord(ws[0], [], []);
      assert [] + ws[0] == ws[0];
    } else if |ws| > 1 {
      var rest := " " + JoinSpaced(ws[1..]);
      assert JoinSpaced(ws) == ws[0] + rest;
      FieldsFromWord(ws[0], rest, []);
      assert [] + ws[0] == ws[0];
      assert rest[0] == ' ' && rest[1..] == JoinSpaced(ws[1..]);
      FieldsJoinSpaced(ws[1..]);
      assert [ws[0]] + ws[1..] == ws;
    }
  }

  /** A whitespace character ends the partial field, and the fields after it start afresh. */
  lemma {:induction false} FieldsFromSplitAt(a: string, c: char, b: string, cur: string)
    requires IsSpace(c)
    ensures FieldsFrom(a + [c] + b, cur) == FieldsFrom(a, cur) + FieldsFrom(b, [])
    decreases |a|
  {
    var s := a + [c] + b;
    if a == [] {
      assert s == [c] + b && s[0] == c && s[1..] == b;
    } else {
      assert s[0] == a[0] && s[1..] == a[1..] + [c] + b;
      if IsSpace(a[0]) {
        FieldsFromSplitAt(a[1..], c, b, []);
        var front: seq<string> := if cur == [] then [] else [cur];
        assert FieldsFrom(s, cur) == front + (FieldsFrom(a[1..], []) + FieldsFrom(b, []));
      } else {
        FieldsFromSplitAt(a[1..], c, b, cur + [a[0]]);
      }
    }
  }

  /**
   * Every whitespace character separates fields: splitting at any one of
   * them (a tab, a newline, one of several spaces) splits the fields.
   */
  lemma FieldsSplitAt(a: string, c: char, b: string)
    requires IsSpace(c)
    ensures Fields(a + [c] + b) == Fields(a) + Fields(b)
  {
    FieldsFromSplitAt(a, c, b, []);
  }

  /** A string without whitespace is one field. */
  lemma FieldsOfField(w: string)
    requires IsField(w)
    ensures Fields(w) == [w]
  {
    FieldsFromWord(w, [], []);
    assert w + [] == w && [] + w == w;
  }

  /** A string of whitespace alone has no fields. */
  lemma {:induction false} FieldsOfBlank(s: string)
    requires forall i :: 0 <= i < |s| ==> IsSpace(s[i])
    ensures Fields(s) == []
  {
    if s != [] {
      assert IsSpace(s[0]);
      assert forall i :: 0 <= i < |s[1..]| ==> s[1..][i] == s[i + 1];
      FieldsOfBlank(s[1..]);
    }
  }

  // ---------------------------------------------------------------------------
  // `startswith` and `in`
  // ---------------------------------------------------------------------------

  /** `s.startswith(prefix)` */
  predicate StartsWith(s: string, prefix: string)
  {
    |prefix| <= |s| && s[..|prefix|] == prefix
  }

  /** needle occurs in s at position j. */
  predicate OccursAt(s: string, needle: string, j: nat)
  {
    j + |needle| <= |s| && s[j..j + |needle|] == needle
  }

  /** `needle in s`, searched from position i on. */
  predicate ContainsFrom(s: string, needle: string, i: nat)
    decreases |s| - i
  {
    i + |needle| <= |s| && (OccursAt(s, needle, i) || ContainsFrom(s, needle, i + 1))
  }

  /** `needle in s` */
  predicate Contains(s: string, needle: string)
  {
    ContainsFrom(s, needle, 0)
  }

  lemma {:induction false} ContainsFromAt(s: string, needle: string, i: nat)
    ensures ContainsFrom(s, needle, i) <==> exists j :: i <= j && OccursAt(s, needle, j)
    decreases |s| - i
  {
    if i + |needle| <= |s| {
      ContainsFromAt(s, needle, i + 1);
      if exists j :: i <= j && OccursAt(s, needle, j) {
        var j :| i <= j && OccursAt(s, needle, j);
        if j != i {
          assert i + 1 <= j;
        }
      }
    }
  }

  /** `needle in s` holds exactly when needle occurs at some position of s. */
  lemma ContainsAt(s: string, needle: string)
    ensures Contains(s, needle) <==> exists j :: OccursAt(s, needle, j)
  {
    ContainsFromAt(s, needle, 0);
  }

  // ---------------------------------------------------------------------------
  // `int()` on a decimal string
  // ---------------------------------------------------------------------------

  predicate IsDigit(c: char)
  {
    '0' <= c <= '9'
  }

  function DigitValue(c: char): nat
    requires IsDigit(c)
  {
    (c as int - '0' as int) as nat
  }

  /**
   * The digits of `int()`'s argument after the sign: one or more ASCII
   * digits, an underscore allowed only between two digits.
   */
  predicate IsNumeral(t: string)
  {
    && |t| > 0
    && IsDigit(t[0]) && IsDigit(t[|t| - 1])
    && forall i :: 0 <= i < |t| ==> (IsDigit(t[i]) || (t[i] == '_' && 0 < i < |t| - 1 && IsDigit(t[i + 1])))
  }

  /** The value of the digits of t, read left to right, skipping underscores. */
  function NumeralValue(t: string): nat
  {
    if t == [] then 0
    else
      var last := t[|t| - 1];
      if IsDigit(last) then 10 * NumeralValue(t[..|t| - 1]) + DigitValue(last)
      else NumeralValue(t[..|t| - 1])
  }

  /** Whether `int(t)` succeeds for a t without surrounding whitespace. */
  predicate IsIntLiteral(t: string)
  {
    if |t| > 0 && (t[0] == '+' || t[0] == '-') then IsNumeral(t[1..]) else IsNumeral(t)
  }

  /**
   * `int(t)` for a field t: an optional sign and a numeral; None where Python
   * raises ValueError.
   */
  function ParseInt(t: string): (r: Option<int>)
    ensures r.Some? <==> IsIntLiteral(t)
  {
    if |t| > 0 && t[0] == '-' then
      (if IsNumeral(t[1..]) then Some(-(NumeralValue(t[1..]) as int)) else None)
    else if |t| > 0 && t[0] == '+' then
      (if IsNumeral(t[1..]) then Some(NumeralValue(t[1..]) as int) else None)
    else if IsNumeral(t) then Some(NumeralValue(t) as int)
    else None
  }

  /** The decimal digits of n, most significant first, without leading zeros. */
  function ShowNat(n: nat): (r: string)
    ensures |r| > 0 && forall i :: 0 <= i < |r| ==> IsDigit(r[i])
    decreases n
  {
    var d := [(('0' as int) + n % 10) as char];
    if n < 10 then d else ShowNat(n / 10) + d
  }

  /** `str(n)` */
  function ShowInt(n: int): string
  {
    if n < 0 then "-" + ShowNat(-n) else ShowNat(n)
  }

  lemma {:induction false} ShowNatValue(n: nat)
    ensures IsNumeral(ShowNat(n)) && NumeralValue(ShowNat(n)) == n
    decreases n
  {
    var r := ShowNat(n);
    var d := [(('0' as int) + n % 10) as char];
    if n < 10 {
      assert r == d;
      assert r[..0] == [];
    } else {
      ShowNatValue(n / 10);
      assert r[..|r| - 1] == ShowNat(n / 10);
    }
  }

  /** `int(str(n)) == n`. */
  lemma ParseShowInt(n: int)
    ensures ParseInt(ShowInt(n)) == Some(n)
  {
    if n < 0 {
      ShowNatValue(-n);
      assert ShowInt(n)[1..] == ShowNat(-n);
    } else {
      ShowNatValue(n);
    }
  }
}
