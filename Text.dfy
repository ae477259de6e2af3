/** The JavaScript string built-ins the scraper scripts rely on, stated over `seq<char>`:
    `trim`, the `\s` and `\d` regular-expression classes, `indexOf`, global replacement of a
    character class, `/\s+/g` collapsing, and decimal `parseInt` / number formatting. */
module Text {
  import opened Wrappers

  /** White space as ECMAScript defines it for `\s` and for `String.prototype.trim`
      (the WhiteSpace and LineTerminator code points). */
  predicate IsSpace(c: char) {
    || c == '\t' || c == '\n' || c == '\U{000B}' || c == '\U{000C}' || c == '\r' || c == ' '
    || c == '\U{00A0}' || c == '\U{1680}' || ('\U{2000}' <= c <= '\U{200A}')
    || c == '\U{2028}' || c == '\U{2029}' || c == '\U{202F}' || c == '\U{205F}'
    || c == '\U{3000}' || c == '\U{FEFF}'
  }

  /** The regular-expression class `\d`: ASCII digits only. */
  predicate IsDigit(c: char) {
    '0' <= c <= '9'
  }

  predicate AllDigits(s: string) {
    forall i :: 0 <= i < |s| ==> IsDigit(s[i])
  }

  /** Neither the first nor the last character is white space. */
  predicate Trimmed(s: string) {
    s == [] || (!IsSpace(s[0]) && !IsSpace(s[|s| - 1]))
  }

  /** No character of the class `cs` occurs in `s`. */
  predicate Avoids(s: string, cs: set<char>) {
    forall i :: 0 <= i < |s| ==> s[i] !in cs
  }

  /** Positions `i` and `i + 1` both hold white space. */
  predicate SpaceRun(s: string, i: nat) {
    i + 1 < |s| && IsSpace(s[i]) && IsSpace(s[i + 1])
  }

  /** No two adjacent white-space characters, and every white-space character is a plain space. */
  predicate SingleSpaced(s: string) {
    && (forall i :: 0 <= i < |s| && IsSpace(s[i]) ==> s[i] == ' ')
    && (forall i :: 0 <= i < |s| ==> !SpaceRun(s, i))
  }

  /** Drops the leading white space: what is left is a suffix, all that was dropped is white space,
      and what is left does not start with white space. */
  function TrimStart(s: string): (r: string)
    ensures |r| <= |s| && r == s[|s| - |r|..]
    ensures forall i :: 0 <= i < |s| - |r| ==> IsSpace(s[i])
    ensures r == [] || !IsSpace(r[0])
  {
    if s != [] && IsSpace(s[0]) then
      var r := TrimStart(s[1..]);
      assert s[1..][|s| - 1 - |r|..] == s[|s| - |r|..];
      assert forall i :: 1 <= i < |s| ==> s[i] == s[1..][i - 1];
      r
    else s
  }

  /** Drops the trailing white space, symmetrically to TrimStart. */
  function TrimEnd(s: string): (r: string)
    ensures |r| <= |s| && r == s[..|r|]
    ensures forall i :: |r| <= i < |s| ==> IsSpace(s[i])
    ensures r == [] || !IsSpace(r[|r| - 1])
  {
    if s != [] && IsSpace(s[|s| - 1]) then TrimEnd(s[..|s| - 1]) else s
  }

  /** `String.prototype.trim`: white space cut away on both sides, leaving a trimmed text. */
  function Trim(s: string): (r: string)
    ensures Trimmed(r)
    ensures |r| <= |s|
  {
    var t := TrimStart(s);
    var r := TrimEnd(t);
    assert r == [] || !IsSpace(r[0]) by {
      if r != [] { assert r[0] == t[0]; }
    }
    r
  }

  /** What `trim` keeps is a contiguous slice of the input, starting where the leading white space
      ends, and all it cuts away on either side is white space. */
  lemma TrimSlice(s: string)
    ensures var a := |s| - |TrimStart(s)|; var r := Trim(s);
      && a + |r| <= |s| && r == s[a..a + |r|]
      && (forall i :: 0 <= i < a ==> IsSpace(s[i]))
      && (forall i :: a + |r| <= i < |s| ==> IsSpace(s[i]))
  {
    var t := TrimStart(s);
    var r := TrimEnd(t);
    var a := |s| - |t|;
    assert t == s[a..];
    assert r == t[..|r|];
    forall i | a + |r| <= i < |s|
      ensures IsSpace(s[i])
    {
      assert s[i] == t[i - a];
    }
  }

  /** Trimming introduces no character: a class absent from the text is absent from its trim. */
  lemma TrimAvoids(s: string, cs: set<char>)
    requires Avoids(s, cs)
    ensures Avoids(Trim(s), cs)
  {
    TrimSlice(s);
    var a := |s| - |TrimStart(s)|;
    SliceAvoids(s, cs, a, a + |Trim(s)|);
  }

  lemma SliceAvoids(s: string, cs: set<char>, a: nat, b: nat)
    requires Avoids(s, cs) && a <= b <= |s|
    ensures Avoids(s[a..b], cs)
  {
    forall i | 0 <= i < b - a ensures s[a..b][i] !in cs {
      assert s[a..b][i] == s[a + i];
    }
  }

  lemma TrimOfTrimmed(s: string)
    requires Trimmed(s)
    ensures Trim(s) == s
  {
    assert TrimStart(s) == s;
    assert TrimEnd(s) == s;
  }

  lemma TrimIdempotent(s: string)
    ensures Trim(Trim(s)) == Trim(s)
  {
    TrimOfTrimmed(Trim(s));
  }

  predicate OccursAt(s: string, pat: string, i: nat) {
    i + |pat| <= |s| && s[i..i + |pat|] == pat
  }

  /** `s.indexOf(pat, from)`: the first occurrence at or after `from`, or None for `-1`. */
  function IndexOf(s: string, pat: string, from: nat): (r: Option<nat>)
    decreases |s| - from
    ensures r.Some? ==> from <= r.value && OccursAt(s, pat, r.value)
    ensures r.Some? ==> forall j :: from <= j < r.value ==> !OccursAt(s, pat, j)
    ensures r.None? ==> forall j :: from <= j ==> !OccursAt(s, pat, j)
  {
    if from + |pat| > |s| then None
    else if s[from..from + |pat|] == pat then Some(from)
    else IndexOf(s, pat, from + 1)
  }

  /** `s.replace(/[cs]/g, c)`: every character of the class replaced by `c`, position for position. */
  function ReplaceChars(s: string, cs: set<char>, c: char): (r: string)
    ensures |r| == |s|
    ensures forall i :: 0 <= i < |s| ==> r[i] == (if s[i] in cs then c else s[i])
  {
    if s == [] then [] else [if s[0] in cs then c else s[0]] + ReplaceChars(s[1..], cs, c)
  }

  /** `s.replace(/[cs]/g, '')`: the characters of the class removed, the others kept in order. */
  function DeleteChars(s: string, cs: set<char>): (r: string)
    ensures |r| <= |s|
    ensures Avoids(r, cs)
    ensures |s| == 1 ==> r == (if s[0] in cs then [] else s)
  {
    if s == [] then []
    else if s[0] in cs then DeleteChars(s[1..], cs)
    else [s[0]] + DeleteChars(s[1..], cs)
  }

  /** Replacing or deleting a class that does not occur changes nothing. */
  lemma {:induction false} ReplaceAbsent(s: string, cs: set<char>, c: char)
    requires Avoids(s, cs)
    ensures ReplaceChars(s, cs, c) == s
  {
    if s != [] {
      ReplaceAbsent(s[1..], cs, c);
    }
  }

  lemma {:induction false} DeleteAbsent(s: string, cs: set<char>)
    requires Avoids(s, cs)
    ensures DeleteChars(s, cs) == s
  {
    if s != [] {
      DeleteAbsent(s[1..], cs);
    }
  }

  /** After replacing a class by a character outside it, the class no longer occurs. */
  lemma ReplaceClears(s: string, cs: set<char>, c: char)
    requires c !in cs
    ensures Avoids(ReplaceChars(s, cs, c), cs)
  {
  }

  /** Replacing by a character outside `ds` brings no character of `ds` in. */
  lemma ReplaceKeepsOut(s: string, cs: set<char>, c: char, ds: set<char>)
    requires Avoids(s, ds) && c !in ds
    ensures Avoids(ReplaceChars(s, cs, c), ds)
  {
  }

  /** Deleting characters brings no character in. */
  lemma {:induction false} DeleteKeepsOut(s: string, cs: set<char>, ds: set<char>)
    requires Avoids(s, ds)
    ensures Avoids(DeleteChars(s, cs), ds)
  {
    if s != [] {
      assert Avoids(s[1..], ds) by {
        assert forall i :: 0 <= i < |s| - 1 ==> s[1..][i] == s[i + 1];
      }
      DeleteKeepsOut(s[1..], cs, ds);
    }
  }

  /** A character outside the deleted class survives exactly when it was there. */
  lemma {:induction false} DeleteKeepsOthers(s: string, cs: set<char>, c: char)
    requires c !in cs
    ensures c in DeleteChars(s, cs) <==> c in s
  {
    if s != [] {
      DeleteKeepsOthers(s[1..], cs, c);
      assert s == [s[0]] + s[1..];
    }
  }

  /** Deletion works piece by piece: together with the one-character case of `DeleteChars` this
      determines the result, so the other characters are kept, in order. */
  lemma {:induction false} DeleteCharsAppend(a: string, b: string, cs: set<char>)
    ensures DeleteChars(a + b, cs) == DeleteChars(a, cs) + DeleteChars(b, cs)
  {
    if a == [] {
      assert a + b == b;
    } else {
      assert (a + b)[0] == a[0];
      assert (a + b)[1..] == a[1..] + b;
      DeleteCharsAppend(a[1..], b, cs);
    }
  }

  /** Every character outside the class survives, at the position given by what survives before
      it. */
  lemma DeleteCharsKeeps(s: string, cs: set<char>)
    ensures forall i :: 0 <= i < |s| && s[i] !in cs ==>
      |DeleteChars(s[..i], cs)| < |DeleteChars(s, cs)| && DeleteChars(s, cs)[|DeleteChars(s[..i], cs)|] == s[i]
  {
    forall i | 0 <= i < |s| && s[i] !in cs
      ensures |DeleteChars(s[..i], cs)| < |DeleteChars(s, cs)| && DeleteChars(s, cs)[|DeleteChars(s[..i], cs)|] == s[i]
    {
      assert s == s[..i] + ([s[i]] + s[i + 1..]);
      DeleteCharsAppend(s[..i], [s[i]] + s[i + 1..], cs);
      DeleteCharsAppend([s[i]], s[i + 1..], cs);
      assert DeleteChars([s[i]], cs) == [s[i]];
    }
  }

  /** Replacing one class by a character outside a second, disjoint class, then deleting the second
      class, is deleting first and replacing afterwards. */
  lemma {:induction false} DeleteReplaceCommute(s: string, cs: set<char>, c: char, ds: set<char>)
    requires c !in ds && cs !! ds
    ensures DeleteChars(ReplaceChars(s, cs, c), ds) == ReplaceChars(DeleteChars(s, ds), cs, c)
  {
    if s != [] {
      DeleteReplaceCommute(s[1..], cs, c, ds);
      assert ReplaceChars(s, cs, c)[1..] == ReplaceChars(s[1..], cs, c);
    }
  }

  lemma AppendAssoc<T>(x: seq<T>, y: seq<T>, z: seq<T>)
    ensures x + (y + z) == x + y + z
  {
  }

  /** Global replacement works piece by piece. */
  lemma {:induction false} ReplaceAppend(a: string, b: string, cs: set<char>, c: char)
    ensures ReplaceChars(a + b, cs, c) == ReplaceChars(a, cs, c) + ReplaceChars(b, cs, c)
  {
    if a == [] {
      assert a + b == b;
    } else {
      assert (a + b)[0] == a[0];
      assert (a + b)[1..] == a[1..] + b;
      ReplaceAppend(a[1..], b, cs, c);
    }
  }

  /** `parts.join(sep)`. */
  function Join(parts: seq<string>, sep: string): (r: string)
    ensures |parts| == 1 ==> r == parts[0]
    ensures |parts| > 1 && sep != [] ==> OccursAt(r, sep, |parts[0]|)
  {
    if parts == [] then ""
    else if |parts| == 1 then parts[0]
    else
      var r := parts[0] + sep + Join(parts[1..], sep);
      assert r[|parts[0]|..|parts[0]| + |sep|] == sep;
      r
  }

  /** Joining one more part puts the separator and that part after the join of the others; with
      the one-part case of `Join` this determines every join, so no part is dropped. */
  lemma {:induction false} JoinSnoc(ps: seq<string>, p: string, sep: string)
    requires ps != []
    ensures Join(ps + [p], sep) == Join(ps, sep) + sep + p
  {
    if |ps| == 1 {
      assert ps + [p] == [ps[0], p];
      assert [ps[0], p][1..] == [p];
    } else {
      assert (ps + [p])[1..] == ps[1..] + [p];
      JoinSnoc(ps[1..], p, sep);
    }
  }

  /** The join is exactly as long as its parts and the separators between them. */
  lemma {:induction false} JoinLength(ps: seq<string>, sep: string)
    requires ps != []
    ensures |Join(ps, sep)| == TotalLength(ps) + (|ps| - 1) * |sep|
  {
    if |ps| > 1 {
      JoinLength(ps[1..], sep);
    }
  }

  function TotalLength(ps: seq<string>): nat {
    if ps == [] then 0 else |ps[0]| + TotalLength(ps[1..])
  }

  /** The non-white-space characters of `s`, in order. */
  function Squeeze(s: string): (r: string)
    ensures forall i :: 0 <= i < |r| ==> !IsSpace(r[i])
  {
    if s == [] then []
    else if IsSpace(s[0]) then Squeeze(s[1..])
    else [s[0]] + Squeeze(s[1..])
  }

  /** `s.replace(/\s+/g, ' ')`: every maximal run of white space becomes one plain space. The
      result is single-spaced, empty only for empty input, and starts with the input's first
      character, or with a space when that is white space. */
  function Collapse(s: string): (r: string)
    decreases |s|
    ensures SingleSpaced(r)
    ensures r == [] <==> s == []
    ensures s != [] ==> r[0] == (if IsSpace(s[0]) then ' ' else s[0])
  {
    if s == [] then []
    else if IsSpace(s[0]) then
      var t := TrimStart(s);
      assert t == TrimStart(s[1..]);
      var rest := Collapse(t);
      SingleSpacedCons(' ', rest);
      [' '] + rest
    else
      var rest := Collapse(s[1..]);
      SingleSpacedCons(s[0], rest);
      [s[0]] + rest
  }

  /** The end is treated like the start: a final run of white space leaves one space, any other
      final character stays. */
  lemma {:induction false} CollapseLast(s: string)
    requires s != []
    decreases |s|
    ensures var r := Collapse(s); r[|r| - 1] == (if IsSpace(s[|s| - 1]) then ' ' else s[|s| - 1])
  {
    if IsSpace(s[0]) {
      var t := TrimStart(s);
      assert t == TrimStart(s[1..]);
      if t != [] {
        CollapseLast(t);
        assert t[|t| - 1] == s[|s| - 1];
      } else {
        assert IsSpace(s[|s| - 1]);
      }
    } else if |s| > 1 {
      CollapseLast(s[1..]);
    }
  }

  /** Leading white space in front of a text that has a non-white-space character is cut from that
      text alone. */
  lemma {:induction false} TrimStartAppend(s: string, t: string)
    requires s != [] && !IsSpace(s[|s| - 1])
    ensures TrimStart(s + t) == TrimStart(s) + t
  {
    if IsSpace(s[0]) {
      assert (s + t)[1..] == s[1..] + t;
      TrimStartAppend(s[1..], t);
    }
  }

  /** A run of white space in front of a text that does not start with white space is cut away
      whole. */
  lemma {:induction false} TrimStartRun(w: string, t: string)
    requires forall i :: 0 <= i < |w| ==> IsSpace(w[i])
    requires t == [] || !IsSpace(t[0])
    ensures TrimStart(w + t) == t
  {
    if w == [] {
      assert w + t == t;
    } else {
      assert (w + t)[1..] == w[1..] + t;
      TrimStartRun(w[1..], t);
    }
  }

  /** Collapsing works piece by piece across a cut right after a non-white-space character. */
  lemma {:induction false} CollapseAppend(s: string, t: string)
    requires s != [] && !IsSpace(s[|s| - 1])
    decreases |s|
    ensures Collapse(s + t) == Collapse(s) + Collapse(t)
  {
    var st := s + t;
    assert st[0] == s[0];
    if IsSpace(s[0]) {
      TrimStartAppend(s, t);
      var u := TrimStart(s);
      assert u[|u| - 1] == s[|s| - 1];
      CollapseAppend(u, t);
      AppendAssoc([' '], Collapse(u), Collapse(t));
    } else {
      var rest := s[1..];
      assert st[1..] == rest + t;
      if rest == [] {
        assert Collapse(s) == [s[0]];
      } else {
        CollapseAppend(rest, t);
      }
      AppendAssoc([s[0]], Collapse(rest), Collapse(t));
    }
  }

  /** A whole run of white space, however long and whatever its characters, becomes one plain
      space. */
  lemma CollapseRun(w: string, t: string)
    requires w != [] && forall i :: 0 <= i < |w| ==> IsSpace(w[i])
    requires t == [] || !IsSpace(t[0])
    ensures Collapse(w + t) == [' '] + Collapse(t)
  {
    TrimStartRun(w, t);
    assert (w + t)[0] == w[0];
  }

  lemma SingleSpacedCons(c: char, rest: string)
    requires SingleSpaced(rest)
    requires IsSpace(c) ==> c == ' ' && (rest == [] || !IsSpace(rest[0]))
    ensures SingleSpaced([c] + rest)
  {
    var r := [c] + rest;
    forall i | 0 <= i < |r|
      ensures !SpaceRun(r, i)
    {
      if 0 < i && i + 1 < |r| {
        assert r[i] == rest[i - 1] && r[i + 1] == rest[i];
        assert !SpaceRun(rest, i - 1);
      }
    }
  }

  lemma {:induction false} SqueezeAppend(a: string, b: string)
    ensures Squeeze(a + b) == Squeeze(a) + Squeeze(b)
  {
    if a == [] {
      assert a + b == b;
    } else {
      assert (a + b)[0] == a[0];
      assert (a + b)[1..] == a[1..] + b;
      SqueezeAppend(a[1..], b);
    }
  }

  lemma {:induction false} SqueezeTrimStart(s: string)
    ensures Squeeze(TrimStart(s)) == Squeeze(s)
  {
    if s != [] && IsSpace(s[0]) {
      SqueezeTrimStart(s[1..]);
    }
  }

  /** Collapsing white space keeps every other character, in order. */
  lemma {:induction false} CollapseKeepsText(s: string)
    decreases |s|
    ensures Squeeze(Collapse(s)) == Squeeze(s)
  {
    if s != [] {
      if IsSpace(s[0]) {
        var t := TrimStart(s);
        assert t == TrimStart(s[1..]);
        CollapseKeepsText(t);
        SqueezeTrimStart(s);
        SqueezeAppend([' '], Collapse(t));
      } else {
        CollapseKeepsText(s[1..]);
        SqueezeAppend([s[0]], Collapse(s[1..]));
        assert s == [s[0]] + s[1..];
        SqueezeAppend([s[0]], s[1..]);
      }
    }
  }

  /** The numeric value of a `\d` character. */
  function DigitValue(c: char): (v: nat)
    requires IsDigit(c)
    ensures v < 10
  {
    c as int - '0' as int
  }

  function DigitChar(v: nat): (c: char)
    requires v < 10
    ensures IsDigit(c) && DigitValue(c) == v
  {
    ('0' as int + v) as char
  }

  /** `parseInt(d, 10)` of a run of decimal digits; leading zeros do not matter. */
  function ParseDecimal(d: string): nat
    requires AllDigits(d)
  {
    if d == [] then 0 else ParseDecimal(d[..|d| - 1]) * 10 + DigitValue(d[|d| - 1])
  }

  /** A number as a template literal prints it: decimal, no leading zero. */
  function FormatDecimal(n: nat): (d: string)
    ensures d != [] && AllDigits(d)
    ensures |d| > 1 ==> d[0] != '0'
  {
    if n < 10 then [DigitChar(n)] else FormatDecimal(n / 10) + [DigitChar(n % 10)]
  }

  /** Printing a number and parsing it back gives the number. */
  lemma {:induction false} ParseFormat(n: nat)
    ensures ParseDecimal(FormatDecimal(n)) == n
  {
    if n >= 10 {
      var d := FormatDecimal(n);
      assert d[..|d| - 1] == FormatDecimal(n / 10);
      ParseFormat(n / 10);
    }
  }

  /** Different numbers print differently. */
  lemma FormatInjective(m: nat, n: nat)
    requires FormatDecimal(m) == FormatDecimal(n)
    ensures m == n
  {
    ParseFormat(m);
    ParseFormat(n);
  }

  /** The capture of `/(\d+)$/`: the longest run of digits at the end of `s` (empty when none). */
  function TrailingDigits(s: string): (d: string)
    ensures |d| <= |s| && d == s[|s| - |d|..]
    ensures AllDigits(d)
    ensures |d| < |s| ==> !IsDigit(s[|s| - |d| - 1])
  {
    if s != [] && IsDigit(s[|s| - 1]) then TrailingDigits(s[..|s| - 1]) + [s[|s| - 1]] else []
  }

  /** The length of the run of digits that starts at position `j` (what a greedy `\d+` consumes). */
  function DigitRun(s: string, j: nat): (k: nat)
    decreases |s| - j
    ensures j + k <= |s| || (j >= |s| && k == 0)
    ensures forall i :: j <= i < j + k ==> IsDigit(s[i])
    ensures j + k < |s| ==> !IsDigit(s[j + k])
  {
    if j < |s| && IsDigit(s[j]) then 1 + DigitRun(s, j + 1) else 0
  }
}
