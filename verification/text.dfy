/** The handful of Python `str` operations the monitors and the activity
    tracker rely on: `isspace`, `strip`, substring `in`, `split()`,
    `split(sep)`, `replace(old, "")` and `lower()`, over `seq<char>`. */
module Text {
  import opened Seqs

  /** Python's `str.isspace` for one character: the ASCII whitespace and
      separator controls plus the Unicode space separators. */
  predicate IsSpace(c: char)
  {
    var n := c as int;
    || 0x09 <= n <= 0x0D || 0x1C <= n <= 0x20 || n == 0x85 || n == 0xA0
    || n == 0x1680 || 0x2000 <= n <= 0x200A || n == 0x2028 || n == 0x2029
    || n == 0x202F || n == 0x205F || n == 0x3000
  }

  /** Every character is whitespace (this includes the empty string). */
  predicate IsBlank(s: string)
  {
    forall i :: 0 <= i < |s| ==> IsSpace(s[i])
  }

  /** `s` has no whitespace character at all. */
  predicate NoSpace(s: string)
  {
    forall i :: 0 <= i < |s| ==> !IsSpace(s[i])
  }

  // ---------------------------------------------------------------------
  // strip()
  // ---------------------------------------------------------------------

  /** The first index at or after `i` that is not whitespace (or `|s|`). */
  function SkipSpace(s: string, i: nat): (j: nat)
    requires i <= |s|
    ensures i <= j <= |s|
    ensures forall k :: i <= k < j ==> IsSpace(s[k])
    ensures j == |s| || !IsSpace(s[j])
    decreases |s| - i
  {
    if i < |s| && IsSpace(s[i]) then SkipSpace(s, i + 1) else i
  }

  /** The first index at or after `i` that is whitespace (or `|s|`). */
  function SkipWord(s: string, i: nat): (j: nat)
    requires i <= |s|
    ensures i <= j <= |s|
    ensures forall k :: i <= k < j ==> !IsSpace(s[k])
    ensures j == |s| || IsSpace(s[j])
    decreases |s| - i
  {
    if i < |s| && !IsSpace(s[i]) then SkipWord(s, i + 1) else i
  }

  /** The index just past the last non-whitespace character before `j` (or 0). */
  function SkipSpaceBack(s: string, j: nat): (i: nat)
    requires j <= |s|
    ensures i <= j
    ensures forall k :: i <= k < j ==> IsSpace(s[k])
    ensures i == 0 || !IsSpace(s[i - 1])
  {
    if j > 0 && IsSpace(s[j - 1]) then SkipSpaceBack(s, j - 1) else j
  }

  /** Python's `strip()`: the infix of `s` left once the whitespace at both
      ends is removed; it is empty exactly when `s` is blank. */
  function Strip(s: string): (r: string)
    ensures exists i :: OccursAt(s, r, i)
    ensures r == [] <==> IsBlank(s)
    ensures r == [] || (!IsSpace(r[0]) && !IsSpace(r[|r| - 1]))
  {
    var a := SkipSpace(s, 0);
    if a == |s| then
      assert OccursAt(s, [], 0);
      []
    else
      var b := SkipSpaceBack(s, |s|);
      assert a < b;
      assert OccursAt(s, s[a..b], a);
      s[a..b]
  }

  /** `strip()` removes whitespace and nothing else: the result is the
      infix `s[a..b]`, and everything before `a` and from `b` on is
      whitespace. */
  lemma StripRemovesOnlySpace(s: string)
    ensures exists a, b :: 0 <= a <= b <= |s| && Strip(s) == s[a..b] && IsBlank(s[..a]) && IsBlank(s[b..])
  {
    var a := SkipSpace(s, 0);
    if a == |s| {
      assert s[..a] == s && s[a..] == [] && s[a..a] == [];
    } else {
      var b := SkipSpaceBack(s, |s|);
      assert a < b;
      assert Strip(s) == s[a..b];
      assert IsBlank(s[..a]) by {
        forall i | 0 <= i < a ensures IsSpace(s[..a][i]) { assert s[..a][i] == s[i]; }
      }
      assert IsBlank(s[b..]) by {
        forall i | 0 <= i < |s| - b ensures IsSpace(s[b..][i]) { assert s[b..][i] == s[b + i]; }
      }
    }
  }

  // ---------------------------------------------------------------------
  // Substring test (`sub in s`)
  // ---------------------------------------------------------------------

  predicate IsPrefix(p: string, s: string)
  {
    |p| <= |s| && s[..|p|] == p
  }

  /** `sub` occurs in `s` at position `i`. */
  predicate OccursAt(s: string, sub: string, i: int)
  {
    0 <= i <= |s| - |sub| && s[i..i + |sub|] == sub
  }

  /** Python's `sub in s`, decided by scanning `s` from the left. */
  predicate Contains(s: string, sub: string)
    decreases |s|
  {
    if IsPrefix(sub, s) then true
    else if |s| == 0 then false
    else Contains(s[1..], sub)
  }

  /** The scan agrees with the textbook definition: some position holds `sub`. */
  lemma {:induction false} ContainsIff(s: string, sub: string)
    ensures Contains(s, sub) <==> exists i :: OccursAt(s, sub, i)
    decreases |s|
  {
    if IsPrefix(sub, s) {
      assert OccursAt(s, sub, 0);
    } else if |s| > 0 {
      ContainsIff(s[1..], sub);
      forall i | 1 <= i <= |s| - |sub|
        ensures OccursAt(s, sub, i) <==> OccursAt(s[1..], sub, i - 1)
      {
        assert s[1..][i - 1..i - 1 + |sub|] == s[i..i + |sub|];
      }
      if Contains(s[1..], sub) {
        var i :| OccursAt(s[1..], sub, i);
        assert OccursAt(s, sub, i + 1);
      }
    }
  }

  /** An occurrence inside a line is an occurrence in any text containing that line. */
  lemma ContainsInfix(a: string, b: string, sub: string)
    requires Contains(b, sub)
    ensures Contains(a + b, sub) && Contains(b + a, sub)
  {
    ContainsIff(b, sub);
    var i :| OccursAt(b, sub, i);
    assert (a + b)[|a| + i..|a| + i + |sub|] == b[i..i + |sub|];
    assert OccursAt(a + b, sub, |a| + i);
    assert (b + a)[i..i + |sub|] == b[i..i + |sub|];
    assert OccursAt(b + a, sub, i);
    ContainsIff(a + b, sub);
    ContainsIff(b + a, sub);
  }

  /** A blank line contains no text that starts with a non-space character. */
  lemma BlankContainsNoWord(s: string, sub: string)
    requires IsBlank(s)
    requires |sub| > 0 && !IsSpace(sub[0])
    ensures !Contains(s, sub)
  {
    ContainsIff(s, sub);
    forall i | 0 <= i <= |s| - |sub| ensures !OccursAt(s, sub, i) {
      assert s[i..i + |sub|][0] == s[i];
    }
  }

  // ---------------------------------------------------------------------
  // split(None, maxsplit)
  // ---------------------------------------------------------------------

  /** The fields of `s[i..]`, as Python's `split(None, maxSplit)` finds them. */
  function FieldsFrom(s: string, i: nat, maxSplit: nat): (fields: seq<string>)
    requires i <= |s|
    ensures |fields| <= maxSplit + 1
    ensures forall k :: 0 <= k < |fields| ==> fields[k] != [] && !IsSpace(fields[k][0])
    ensures forall k :: 0 <= k < |fields| - 1 ==> NoSpace(fields[k])
    ensures fields == [] <==> IsBlank(s[i..])
    decreases |s| - i
  {
    var j := SkipSpace(s, i);
    if j == |s| then
      []
    else
      assert !IsBlank(s[i..]) by { assert s[i..][j - i] == s[j]; }
      if maxSplit == 0 then
        [s[j..]]
      else
        var e := SkipWord(s, j);
        [s[j..e]] + FieldsFrom(s, e, maxSplit - 1)
  }

  /** Python's `s.split(None, maxSplit)`: whitespace-separated fields, at
      most `maxSplit` splits; once they are used up the last field is the
      rest of the string with its leading whitespace removed (trailing
      whitespace kept). */
  function SplitFields(s: string, maxSplit: nat): (fields: seq<string>)
    ensures |fields| <= maxSplit + 1
    ensures forall k :: 0 <= k < |fields| ==> fields[k] != [] && !IsSpace(fields[k][0])
    ensures forall k :: 0 <= k < |fields| - 1 ==> NoSpace(fields[k])
    ensures fields == [] <==> IsBlank(s)
  {
    assert s[0..] == s;
    FieldsFrom(s, 0, maxSplit)
  }

  /** Where each field of `FieldsFrom(s, i, maxSplit)` starts in `s`. */
  function FieldStarts(s: string, i: nat, maxSplit: nat): (starts: seq<nat>)
    requires i <= |s|
    ensures |starts| == |FieldsFrom(s, i, maxSplit)|
    decreases |s| - i
  {
    var j := SkipSpace(s, i);
    if j == |s| then []
    else if maxSplit == 0 then [j]
    else [j] + FieldStarts(s, SkipWord(s, j), maxSplit - 1)
  }

  /** `s[lo..hi]` is whitespace only. */
  predicate Gap(s: string, lo: nat, hi: nat)
  {
    lo <= hi <= |s| && forall k :: lo <= k < hi ==> IsSpace(s[k])
  }

  /** Where field `k` ends in `s`. */
  function FieldEnd(fields: seq<string>, starts: seq<nat>, k: nat): nat
    requires k < |fields| == |starts|
  {
    starts[k] + |fields[k]|
  }

  /** Field `k` is the text of `s` from `starts[k]` on. */
  predicate FieldsAt(s: string, fields: seq<string>, starts: seq<nat>)
    requires |starts| == |fields|
  {
    forall k :: 0 <= k < |fields| ==>
      FieldEnd(fields, starts, k) <= |s| && s[starts[k]..FieldEnd(fields, starts, k)] == fields[k]
  }

  /** Consecutive fields are apart and only whitespace lies between them. */
  predicate GapsBetween(s: string, fields: seq<string>, starts: seq<nat>)
    requires |starts| == |fields|
  {
    forall k :: 0 <= k < |fields| - 1 ==>
      FieldEnd(fields, starts, k) < starts[k + 1] && Gap(s, FieldEnd(fields, starts, k), starts[k + 1])
  }

  /** The fields are the text of `s[i..]` at `starts`, in increasing order,
      with only whitespace before, between and after them, except that once
      all `maxSplit` splits are used the last field runs to the end. */
  predicate LaidOut(s: string, i: nat, fields: seq<string>, starts: seq<nat>, maxSplit: nat)
  {
    && |starts| == |fields|
    && FieldsAt(s, fields, starts)
    && (|fields| == 0 ==> Gap(s, i, |s|))
    && (|fields| > 0 ==> Gap(s, i, starts[0]))
    && GapsBetween(s, fields, starts)
    && (|fields| == maxSplit + 1 ==> FieldEnd(fields, starts, |fields| - 1) == |s|)
    && (0 < |fields| <= maxSplit ==> Gap(s, FieldEnd(fields, starts, |fields| - 1), |s|))
  }

  /** A word at `j..e` after a gap, followed by fields laid out after it. */
  lemma LaidOutCons(s: string, i: nat, j: nat, e: nat, fields: seq<string>, starts: seq<nat>,
                    rest: seq<string>, rs: seq<nat>, maxSplit: nat)
    requires Gap(s, i, j) && j < e <= |s| && maxSplit > 0
    requires fields == [s[j..e]] + rest && starts == [j] + rs
    requires LaidOut(s, e, rest, rs, maxSplit - 1)
    requires |rest| > 0 ==> e < rs[0]
    ensures LaidOut(s, i, fields, starts, maxSplit)
  {
    assert FieldEnd(fields, starts, 0) == e;
    forall k | 1 <= k < |fields|
      ensures FieldEnd(fields, starts, k) == FieldEnd(rest, rs, k - 1)
      ensures fields[k] == rest[k - 1] && starts[k] == rs[k - 1]
    {
    }
    forall k | 0 <= k < |fields|
      ensures FieldEnd(fields, starts, k) <= |s| && s[starts[k]..FieldEnd(fields, starts, k)] == fields[k]
    {
      if k > 0 {
        assert FieldEnd(rest, rs, k - 1) <= |s| && s[rs[k - 1]..FieldEnd(rest, rs, k - 1)] == rest[k - 1];
      }
    }
    forall k | 0 <= k < |fields| - 1
      ensures FieldEnd(fields, starts, k) < starts[k + 1] && Gap(s, FieldEnd(fields, starts, k), starts[k + 1])
    {
      if k > 0 {
        assert FieldEnd(rest, rs, k - 1) < rs[k] && Gap(s, FieldEnd(rest, rs, k - 1), rs[k]);
      }
    }
    if |rest| > 0 {
      assert FieldEnd(fields, starts, |fields| - 1) == FieldEnd(rest, rs, |rest| - 1);
    }
  }

  /** `FieldsFrom(s, i, maxSplit)` is laid out over `s[i..]` at `FieldStarts`.
      The lemmas below state it as `FieldsFromAt(..) == true`, which the
      verifier passes along whole instead of splitting it into conjuncts. */
  predicate FieldsFromAt(s: string, i: nat, maxSplit: nat)
    requires i <= |s|
  {
    LaidOut(s, i, FieldsFrom(s, i, maxSplit), FieldStarts(s, i, maxSplit), maxSplit)
  }

  /** Each call of `FieldsFrom` lays its fields out over `s[i..]`; the last
      field runs to the end exactly when all `maxSplit` splits were used. */
  lemma {:induction false} FieldsFromLaidOut(s: string, i: nat, maxSplit: nat)
    requires i <= |s|
    ensures FieldsFromAt(s, i, maxSplit) == true
    decreases |s| - i
  {
    var j := SkipSpace(s, i);
    if j == |s| {
      NoFieldsLaidOut(s, i, maxSplit);
    } else if maxSplit == 0 {
      RestFieldLaidOut(s, i);
    } else {
      var e := SkipWord(s, j);
      assert !IsSpace(s[j]);
      assert j < e;
      FieldsFromLaidOut(s, e, maxSplit - 1);
      WordFieldLaidOut(s, i, e, maxSplit);
    }
  }

  lemma NoFieldsLaidOut(s: string, i: nat, maxSplit: nat)
    requires i <= |s| && SkipSpace(s, i) == |s|
    ensures FieldsFromAt(s, i, maxSplit) == true
  {
    assert Gap(s, i, |s|);
    assert FieldsFrom(s, i, maxSplit) == [];
  }

  lemma RestFieldLaidOut(s: string, i: nat)
    requires i <= |s| && SkipSpace(s, i) < |s|
    ensures FieldsFromAt(s, i, 0)
  {
    var j := SkipSpace(s, i);
    assert Gap(s, i, j);
    var fields := FieldsFrom(s, i, 0);
    var starts := FieldStarts(s, i, 0);
    assert fields == [s[j..]] && starts == [j];
    assert FieldEnd(fields, starts, 0) == |s|;
    assert s[j..|s|] == s[j..];
  }

  /** The step: a word, then the fields after it laid out. */
  lemma WordFieldLaidOut(s: string, i: nat, e: nat, maxSplit: nat)
    requires i <= |s| && SkipSpace(s, i) < |s| && maxSplit > 0
    requires e == SkipWord(s, SkipSpace(s, i))
    requires FieldsFromAt(s, e, maxSplit - 1) == true
    ensures FieldsFromAt(s, i, maxSplit) == true
  {
    var j := SkipSpace(s, i);
    assert Gap(s, i, j);
    var rest := FieldsFrom(s, e, maxSplit - 1);
    var rs := FieldStarts(s, e, maxSplit - 1);
    assert LaidOut(s, e, rest, rs, maxSplit - 1);
    var fields := FieldsFrom(s, i, maxSplit);
    var starts := FieldStarts(s, i, maxSplit);
    assert fields == [s[j..e]] + rest;
    assert starts == [j] + rs;
    var j2 := SkipSpace(s, e);
    if j2 < |s| {
      assert rs[0] == j2;
      assert e < |s| && IsSpace(s[e]);
      assert e < j2;
    } else {
      assert rest == [];
    }
    assert |rest| > 0 ==> e < rs[0];
    LaidOutCons(s, i, j, e, fields, starts, rest, rs, maxSplit);
  }

  /** `split(None, maxSplit)` recovers the fields of `s` where they stand. */
  lemma SplitFieldsLaidOut(s: string, maxSplit: nat)
    ensures LaidOut(s, 0, SplitFields(s, maxSplit), FieldStarts(s, 0, maxSplit), maxSplit)
  {
    FieldsFromLaidOut(s, 0, maxSplit);
  }

  // ---------------------------------------------------------------------
  // split(sep) and its inverse join
  // ---------------------------------------------------------------------

  /** Python's `s.split(sep)` for a one-character separator: the pieces
      between consecutive separators, empty pieces included. */
  function SplitOn(s: string, sep: char): (parts: seq<string>)
    ensures |parts| >= 1
    ensures forall k :: 0 <= k < |parts| ==> sep !in parts[k]
  {
    if |s| == 0 then [[]]
    else
      var rest := SplitOn(s[1..], sep);
      if s[0] == sep then [[]] + rest
      else [[s[0]] + rest[0]] + rest[1..]
  }

  /** Python's `sep.join(parts)` for a one-character separator. */
  function JoinWith(parts: seq<string>, sep: char): string
    requires |parts| >= 1
  {
    if |parts| == 1 then parts[0]
    else parts[0] + [sep] + JoinWith(parts[1..], sep)
  }

  /** Splitting and re-joining gives the original text back. */
  lemma {:induction false} SplitOnJoin(s: string, sep: char)
    ensures JoinWith(SplitOn(s, sep), sep) == s
    decreases |s|
  {
    if |s| > 0 {
      var rest := SplitOn(s[1..], sep);
      SplitOnJoin(s[1..], sep);
      if s[0] != sep {
        var parts := SplitOn(s, sep);
        assert parts[1..] == rest[1..];
        if |rest| > 1 {
          assert JoinWith(rest, sep) == rest[0] + [sep] + JoinWith(rest[1..], sep);
        }
      }
    }
  }

  /** Joining pieces that contain no separator and splitting again gives the pieces back. */
  lemma {:induction false} JoinSplitOn(parts: seq<string>, sep: char)
    requires |parts| >= 1
    requires forall k :: 0 <= k < |parts| ==> sep !in parts[k]
    ensures SplitOn(JoinWith(parts, sep), sep) == parts
    decreases |parts|, |parts[0]|
  {
    var p := parts[0];
    if |p| > 0 {
      var parts' := [p[1..]] + parts[1..];
      JoinSplitOn(parts', sep);
      if |parts| == 1 {
        assert JoinWith(parts, sep)[1..] == JoinWith(parts', sep);
      } else {
        assert JoinWith(parts, sep)[1..] == JoinWith(parts', sep);
      }
      assert [p[0]] + p[1..] == p;
    } else if |parts| > 1 {
      JoinSplitOn(parts[1..], sep);
      assert JoinWith(parts, sep)[1..] == JoinWith(parts[1..], sep);
    }
  }

  // ---------------------------------------------------------------------
  // replace(old, "")
  // ---------------------------------------------------------------------

  /** Python's `s.replace(pat, "")`: deletes the occurrences of `pat`
      found by a left-to-right scan that does not overlap them. */
  function RemoveAll(s: string, pat: string): (r: string)
    requires |pat| > 0
    ensures |r| <= |s|
    ensures !Contains(s, pat) ==> r == s
    ensures Contains(s, pat) ==> |r| <= |s| - |pat|
    decreases |s|
  {
    if |s| < |pat| then
      ContainsFits(s, pat);
      s
    else if s[..|pat|] == pat then RemoveAll(s[|pat|..], pat)
    else [s[0]] + RemoveAll(s[1..], pat)
  }

  /** Text that holds `sub` is at least as long as `sub`. */
  lemma ContainsFits(s: string, sub: string)
    ensures Contains(s, sub) ==> |sub| <= |s|
  {
    ContainsIff(s, sub);
  }

  /** No occurrence of `pat` in `s` starts before position `n`. */
  predicate FreeBefore(s: string, pat: string, n: nat)
  {
    forall i :: 0 <= i < n ==> !OccursAt(s, pat, i)
  }

  /** Dropping the first character shifts every occurrence one place left. */
  lemma OccursAtShift(s: string, sub: string, i: nat)
    requires |s| > 0
    ensures OccursAt(s[1..], sub, i) <==> OccursAt(s, sub, i + 1)
  {
    if i + 1 <= |s| - |sub| {
      assert s[1..][i..i + |sub|] == s[i + 1..i + 1 + |sub|];
    }
  }

  /** The first occurrence of `pat` is deleted and the text before it kept:
      with no occurrence starting inside `t`, removing from `t + pat + u`
      keeps `t` and goes on with `u`. */
  lemma {:induction false} RemoveAllFirst(t: string, pat: string, u: string)
    requires |pat| > 0
    requires FreeBefore(t + pat + u, pat, |t|)
    ensures RemoveAll(t + pat + u, pat) == t + RemoveAll(u, pat)
    decreases |t|
  {
    var s := t + pat + u;
    if |t| == 0 {
      assert s[..|pat|] == pat && s[|pat|..] == u;
    } else {
      assert !OccursAt(s, pat, 0);
      assert s[..|pat|] != pat;
      var s' := t[1..] + pat + u;
      assert s[1..] == s';
      forall i | 0 <= i < |t| - 1 ensures !OccursAt(s', pat, i) {
        OccursAtShift(s, pat, i);
      }
      RemoveAllFirst(t[1..], pat, u);
      assert RemoveAll(s, pat) == [s[0]] + RemoveAll(s', pat);
      assert [s[0]] + t[1..] == t;
    }
  }

  /** No proper prefix of `pat` ends with its last character, so an
      occurrence of `pat` can never overlap the start of another one. */
  predicate LastCharUnique(pat: string)
  {
    |pat| > 0 && forall j :: 0 <= j < |pat| - 1 ==> pat[j] != pat[|pat| - 1]
  }

  /** Appending one occurrence of such a pattern to a text free of it and
      then removing every occurrence gives the text back. */
  lemma {:induction false} RemoveAllTrailing(t: string, pat: string)
    requires LastCharUnique(pat)
    requires !Contains(t, pat)
    ensures RemoveAll(t + pat, pat) == t
    decreases |t|
  {
    var s := t + pat;
    if |t| == 0 {
      assert s == pat && s[..|pat|] == pat && s[|pat|..] == [];
    } else {
      if |t| >= |pat| {
        assert t[..|pat|] == s[..|pat|];
        assert !IsPrefix(pat, t);
      } else {
        assert s[|pat| - 1] == pat[|pat| - 1 - |t|];
      }
      assert s[1..] == t[1..] + pat;
      RemoveAllTrailing(t[1..], pat);
    }
  }

  /** Text already free of surrounding whitespace is its own `strip()`. */
  lemma StripTrimmed(s: string)
    requires s != [] && !IsSpace(s[0]) && !IsSpace(s[|s| - 1])
    ensures Strip(s) == s
  {
    assert SkipSpace(s, 0) == 0;
    assert SkipSpaceBack(s, |s|) == |s|;
  }

  // ---------------------------------------------------------------------
  // lower()
  // ---------------------------------------------------------------------

  function LowerChar(c: char): char
  {
    if 'A' <= c <= 'Z' then (c as int + 32) as char else c
  }

  /** Python's `lower()` restricted to the ASCII letters. */
  function Lower(s: string): (r: string)
    ensures |r| == |s|
    ensures forall i :: 0 <= i < |s| ==> r[i] == LowerChar(s[i])
    ensures forall i :: 0 <= i < |r| ==> !('A' <= r[i] <= 'Z')
  {
    seq(|s|, i requires 0 <= i < |s| => LowerChar(s[i]))
  }

  // ---------------------------------------------------------------------
  // Counting lines
  // ---------------------------------------------------------------------

  /** The line test `pat in l`. */
  function Mentions(pat: string): string -> bool
  {
    l => Contains(l, pat)
  }

  /** The line test `a in l or b in l`. */
  function MentionsEither(a: string, b: string): string -> bool
  {
    l => Contains(l, a) || Contains(l, b)
  }

  /** `len([l for l in lines if pat in l])`. */
  function CountContaining(lines: seq<string>, pat: string): (n: nat)
    ensures n <= |lines|
  {
    if |lines| == 0 then 0
    else (if Contains(lines[0], pat) then 1 else 0) + CountContaining(lines[1..], pat)
  }

  /** `len([l for l in lines if a in l or b in l])`. */
  function CountContainingEither(lines: seq<string>, a: string, b: string): (n: nat)
    ensures n <= |lines|
    ensures CountContaining(lines, a) <= n
  {
    if |lines| == 0 then 0
    else (if Contains(lines[0], a) || Contains(lines[0], b) then 1 else 0)
         + CountContainingEither(lines[1..], a, b)
  }

  /** The count is the length of the comprehension's list: the lines that
      mention `pat`, nothing else. */
  lemma {:induction false} CountContainingFilter(lines: seq<string>, pat: string)
    ensures CountContaining(lines, pat) == |Filter(lines, Mentions(pat))|
  {
    if |lines| > 0 {
      CountContainingFilter(lines[1..], pat);
    }
  }

  /** Likewise for lines that mention either pattern. */
  lemma {:induction false} CountContainingEitherFilter(lines: seq<string>, a: string, b: string)
    ensures CountContainingEither(lines, a, b) == |Filter(lines, MentionsEither(a, b))|
  {
    if |lines| > 0 {
      CountContainingEitherFilter(lines[1..], a, b);
    }
  }

  /** Counting distributes over concatenation of line lists. */
  lemma {:induction false} CountContainingAppend(a: seq<string>, b: seq<string>, pat: string)
    ensures CountContaining(a + b, pat) == CountContaining(a, pat) + CountContaining(b, pat)
    decreases |a|
  {
    if |a| > 0 {
      assert (a + b)[1..] == a[1..] + b;
      CountContainingAppend(a[1..], b, pat);
    } else {
      assert a + b == b;
    }
  }
}
