/**
 * The JavaScript string built-ins the generator relies on, written out:
 * `trim`, `indexOf` (of a character and of a substring), `substr`,
 * `split(",")`, `toLowerCase`/`toUpperCase` on ASCII letters and
 * `replace(/literal/g, text)`.
 */
module JsString {

  /** ECMAScript WhiteSpace and LineTerminator code points, the set `trim` removes. */
  predicate IsSpace(c: char) {
    || c == '\t' || c == '\n' || c == '\U{000B}' || c == '\U{000C}' || c == '\r' || c == ' '
    || c == '\U{00A0}' || c == '\U{1680}' || ('\U{2000}' <= c <= '\U{200A}')
    || c == '\U{2028}' || c == '\U{2029}' || c == '\U{202F}' || c == '\U{205F}'
    || c == '\U{3000}' || c == '\U{FEFF}'
  }

  /** Every character of `s[i..j]` is white space. */
  predicate SpaceIn(s: string, i: int, j: int)
    requires 0 <= i <= j <= |s|
  {
    forall m :: i <= m < j ==> IsSpace(s[m])
  }

  /** Neither end of `s` is white space. */
  predicate IsTrimmed(s: string) {
    s == [] || (!IsSpace(s[0]) && !IsSpace(s[|s| - 1]))
  }

  /** The index of the first character of `s` at or after `i` that is not white space, or `|s|`. */
  function SkipSpace(s: string, i: nat): (k: nat)
    requires i <= |s|
    ensures i <= k <= |s| && SpaceIn(s, i, k)
    ensures k < |s| ==> !IsSpace(s[k])
    decreases |s| - i
  {
    if i < |s| && IsSpace(s[i]) then SkipSpace(s, i + 1) else i
  }

  /** The index just past the last character of `s` before `j` that is not white space, or 0. */
  function SkipSpaceBack(s: string, j: nat): (k: nat)
    requires j <= |s|
    ensures k <= j && SpaceIn(s, k, j)
    ensures 0 < k ==> !IsSpace(s[k - 1])
  {
    if 0 < j && IsSpace(s[j - 1]) then SkipSpaceBack(s, j - 1) else j
  }

  /** Where `s` starts once leading white space is cut. */
  function Lead(s: string): (i: nat)
    ensures i <= |s| && SpaceIn(s, 0, i) && (i < |s| ==> !IsSpace(s[i]))
  {
    SkipSpace(s, 0)
  }

  /** Where `s` ends once trailing white space is cut. */
  function Tail(s: string): (j: nat)
    ensures j <= |s| && SpaceIn(s, j, |s|) && (0 < j ==> !IsSpace(s[j - 1]))
  {
    SkipSpaceBack(s, |s|)
  }

  /** Only one index has white space before it and none at it. */
  lemma LeadUnique(s: string, i: nat)
    requires i <= |s| && SpaceIn(s, 0, i) && (i < |s| ==> !IsSpace(s[i]))
    ensures Lead(s) == i
  {
  }

  /** Only one index has white space after it and none just before it. */
  lemma TailUnique(s: string, j: nat)
    requires j <= |s| && SpaceIn(s, j, |s|) && (0 < j ==> !IsSpace(s[j - 1]))
    ensures Tail(s) == j
  {
  }

  /** `String.prototype.trimStart`. */
  function TrimStart(s: string): string {
    s[Lead(s)..]
  }

  /** `String.prototype.trimEnd`. */
  function TrimEnd(s: string): string {
    s[..Tail(s)]
  }

  /** `String.prototype.trim`: the text between the first and the last character that is not white space. */
  function Trim(s: string): (r: string)
    ensures IsTrimmed(r) && |r| <= |s|
  {
    if Lead(s) == |s| then [] else s[Lead(s)..Tail(s)]
  }

  /** Any slice of `s` that has only white space around it and none at its ends is the trim of `s`. */
  lemma TrimUnique(s: string, i: int, j: int)
    requires 0 <= i <= j <= |s| && SpaceIn(s, 0, i) && SpaceIn(s, j, |s|)
    requires i < j ==> !IsSpace(s[i]) && !IsSpace(s[j - 1])
    ensures Trim(s) == s[i..j]
  {
    if i < j {
      LeadUnique(s, i);
      TailUnique(s, j);
    } else {
      LeadUnique(s, |s|);
    }
  }

  /** The trim of `s` is `s` itself exactly when `s` is trimmed. */
  lemma TrimOfTrimmed(s: string)
    requires IsTrimmed(s)
    ensures Trim(s) == s
  {
    TrimUnique(s, 0, |s|);
  }

  lemma TrimIdempotent(s: string)
    ensures Trim(Trim(s)) == Trim(s)
  {
    TrimOfTrimmed(Trim(s));
  }

  /** Cutting some of the white space around the text first does not change the trim. */
  lemma TrimSlice(s: string, a: nat, b: nat)
    requires a <= b <= |s| && a <= Lead(s) && Tail(s) <= b
    ensures Trim(s[a..b]) == Trim(s)
  {
    if Lead(s) == |s| {
      TrimSliceBlank(s, a, b);
    } else {
      TrimSliceText(s, a, b);
    }
  }

  lemma TrimSliceBlank(s: string, a: nat, b: nat)
    requires a <= b <= |s| && Lead(s) == |s|
    ensures Trim(s[a..b]) == [] == Trim(s)
  {
    SpaceShift(s, a, b, a, b);
    TrimUnique(s[a..b], b - a, b - a);
  }

  lemma TrimSliceText(s: string, a: nat, b: nat)
    requires a <= Lead(s) < |s| && Tail(s) <= b <= |s|
    ensures Trim(s[a..b]) == s[Lead(s)..Tail(s)] == Trim(s)
  {
    var i, j := Lead(s), Tail(s);
    SpaceShift(s, a, b, a, i);
    SpaceShift(s, a, b, j, b);
    SliceShift(s, a, b, i, j);
    TrimUnique(s[a..b], i - a, j - a);
  }

  lemma SpaceShift(s: string, a: nat, b: nat, i: nat, j: nat)
    requires a <= i <= j <= b <= |s| && SpaceIn(s, i, j)
    ensures SpaceIn(s[a..b], i - a, j - a)
  {
    forall m | i - a <= m < j - a
      ensures IsSpace(s[a..b][m])
    {
      assert s[a..b][m] == s[a + m];
    }
  }

  lemma SliceShift(s: string, a: nat, b: nat, i: nat, j: nat)
    requires a <= i < j <= b <= |s|
    ensures s[a..b][i - a] == s[i] && s[a..b][j - a - 1] == s[j - 1]
    ensures s[a..b][i - a..j - a] == s[i..j]
  {
    assert forall m :: 0 <= m < j - i ==> s[a..b][i - a..j - a][m] == s[i + m] == s[i..j][m];
  }

  lemma TrimAfterTrimStart(s: string)
    ensures Trim(TrimStart(s)) == Trim(s)
  {
    TrimSlice(s, Lead(s), |s|);
  }

  lemma TrimAfterTrimEnd(s: string)
    ensures Trim(TrimEnd(s)) == Trim(s)
  {
    TrimSlice(s, 0, Tail(s));
  }

  lemma TrimEndIdempotent(s: string)
    ensures TrimEnd(TrimEnd(s)) == TrimEnd(s)
  {
    var t := TrimEnd(s);
    assert 0 < |t| ==> t[|t| - 1] == s[|t| - 1];
    TailUnique(t, |t|);
  }

  /** Trimming around a character that is not white space trims each side on its own. */
  lemma TrimAround(x: string, c: char, y: string)
    requires !IsSpace(c)
    ensures Trim(x + [c] + y) == TrimStart(x) + [c] + TrimEnd(y)
  {
    var s := x + [c] + y;
    var i, j := Lead(x), |x| + 1 + Tail(y);
    assert s[i] == if i < |x| then x[i] else c;
    assert s[j - 1] == if 0 < Tail(y) then y[Tail(y) - 1] else c;
    assert s[i..j] == TrimStart(x) + [c] + TrimEnd(y);
    TrimUnique(s, i, j);
  }

  /** The trim of `s` is made of characters of `s`. */
  lemma InTrim(s: string, c: char)
    ensures c in Trim(s) ==> c in s
  {
    if c in Trim(s) {
      var k :| 0 <= k < |Trim(s)| && Trim(s)[k] == c;
      assert s[Lead(s) + k] == c;
    }
  }

  /** Index of the first `c` in `s`, or -1 (`String.prototype.indexOf` of one character). */
  function IndexOf(s: string, c: char): (i: int)
    ensures -1 <= i < |s|
    ensures i == -1 <==> c !in s
    ensures 0 <= i ==> s[i] == c && c !in s[..i]
  {
    if |s| == 0 then -1
    else if s[0] == c then 0
    else
      var k := IndexOf(s[1..], c);
      assert s[1..] == s[1..][..|s| - 1];
      if k == -1 then -1
      else
        assert s[..k + 1] == [s[0]] + s[1..][..k];
        k + 1
  }

  lemma IndexOfAppend(x: string, c: char, y: string)
    requires c !in x
    ensures IndexOf(x + [c] + y, c) == |x|
  {
    var s := x + [c] + y;
    assert s[..|x|] == x;
    assert s[|x|] == c;
  }

  /** The first `c` of `s` is the one with no `c` before it. */
  lemma IndexOfUnique(s: string, c: char, i: int)
    requires 0 <= i < |s| && s[i] == c && c !in s[..i]
    ensures IndexOf(s, c) == i
  {
    var k := IndexOf(s, c);
  }

  /** A `c` found only after a `c`-free prefix is found at its place there, offset by the prefix. */
  lemma IndexOfAfter(x: string, c: char, y: string)
    requires c !in x
    ensures IndexOf(x + y, c) == if c in y then |x| + IndexOf(y, c) else -1
  {
    if c in y {
      var k := IndexOf(y, c);
      var s := x + y;
      assert s[|x| + k] == c;
      assert s[..|x| + k] == x + y[..k];
      assert c !in x + y[..k];
      IndexOfUnique(s, c, |x| + k);
    } else {
      assert c !in x + y;
    }
  }

  /** Cutting trailing white space does not move the first `c` when `c` is not white space. */
  lemma IndexOfTrimEnd(s: string, c: char)
    requires !IsSpace(c)
    ensures IndexOf(TrimEnd(s), c) == IndexOf(s, c)
  {
    var n, k := Tail(s), IndexOf(s, c);
    var t := TrimEnd(s);
    if k == -1 {
      assert forall i :: 0 <= i < n ==> t[i] == s[i];
    } else {
      assert k < n;
      assert t[..k] == s[..k];
      IndexOfUnique(t, c, k);
    }
  }

  /** Cutting leading white space loses no `c` that is not white space. */
  lemma InTrimStart(s: string, c: char)
    requires !IsSpace(c)
    ensures c in TrimStart(s) <==> c in s
  {
    if c in s {
      var k :| 0 <= k < |s| && s[k] == c;
      assert TrimStart(s)[k - Lead(s)] == c;
    }
  }

  /** `s.substr(start, length)` for a start inside the string: a negative or zero length gives "". */
  function Substr(s: string, start: nat, length: int): (r: string)
    requires start <= |s|
    ensures |r| <= |s| - start
    ensures length <= 0 ==> r == []
    ensures 0 < length && start + length <= |s| ==> r == s[start..start + length]
  {
    if length <= 0 then [] else if start + length <= |s| then s[start..start + length] else s[start..]
  }

  /** `s.split(",")`: the pieces between the commas, always at least one. */
  function Split(s: string, sep: char): (pieces: seq<string>)
    ensures |pieces| >= 1
    ensures forall i :: 0 <= i < |pieces| ==> sep !in pieces[i]
    decreases |s|
  {
    var k := IndexOf(s, sep);
    if k == -1 then [s] else [s[..k]] + Split(s[k + 1..], sep)
  }

  function Join(pieces: seq<string>, sep: string): string
  {
    if |pieces| == 0 then []
    else if |pieces| == 1 then pieces[0]
    else pieces[0] + sep + Join(pieces[1..], sep)
  }

  /** Splitting and joining again with the separator gives the original text back. */
  lemma {:induction false} SplitJoin(s: string, sep: char)
    ensures Join(Split(s, sep), [sep]) == s
    decreases |s|
  {
    var k := IndexOf(s, sep);
    if k != -1 {
      SplitJoin(s[k + 1..], sep);
      JoinCons(s[..k], Split(s[k + 1..], sep), [sep]);
      assert s == s[..k] + [sep] + s[k + 1..];
    }
  }

  lemma JoinCons(a: string, rest: seq<string>, sep: string)
    requires |rest| >= 1
    ensures Join([a] + rest, sep) == a + sep + Join(rest, sep)
  {
    assert ([a] + rest)[1..] == rest;
  }

  /** Splitting a joined list of separator-free pieces gives the pieces back. */
  lemma {:induction false} JoinSplit(pieces: seq<string>, sep: char)
    requires |pieces| >= 1
    requires forall i :: 0 <= i < |pieces| ==> sep !in pieces[i]
    ensures Split(Join(pieces, [sep]), sep) == pieces
  {
    if |pieces| > 1 {
      var rest := Join(pieces[1..], [sep]);
      IndexOfAppend(pieces[0], sep, rest);
      var s := pieces[0] + [sep] + rest;
      assert Join(pieces, [sep]) == s;
      assert s[..|pieces[0]|] == pieces[0];
      assert s[|pieces[0]| + 1..] == rest;
      assert Split(s, sep) == [pieces[0]] + Split(rest, sep);
      JoinSplit(pieces[1..], sep);
      assert [pieces[0]] + pieces[1..] == pieces;
    }
  }

  function LowerChar(c: char): char {
    if 'A' <= c <= 'Z' then (c as int + 32) as char else c
  }

  function UpperChar(c: char): char {
    if 'a' <= c <= 'z' then (c as int - 32) as char else c
  }

  /** `toLowerCase` on ASCII letters; every other character is kept. */
  function Lower(s: string): (r: string)
    ensures |r| == |s|
    ensures forall i :: 0 <= i < |s| ==> r[i] == LowerChar(s[i])
  {
    if s == [] then [] else [LowerChar(s[0])] + Lower(s[1..])
  }

  /** `s` occurs in `t` at position `i`. */
  predicate OccursAt(t: string, s: string, i: int) {
    0 <= i && i + |s| <= |t| && t[i..i + |s|] == s
  }

  /** `t.indexOf(s) != -1`. */
  predicate Contains(t: string, s: string) {
    exists i | 0 <= i <= |t| :: OccursAt(t, s, i)
  }

  /** The positions at which `s` occurs in `t`. */
  function Occurrences(t: string, s: string): (r: set<nat>)
    ensures forall i :: i in r <==> OccursAt(t, s, i)
  {
    set i: nat | i <= |t| && OccursAt(t, s, i)
  }

  /** `t.indexOf(s, from)`: the first position at or after `from` where `s` occurs, or -1. */
  function Find(t: string, s: string, from: nat): (i: int)
    ensures i == -1 || (from <= i && OccursAt(t, s, i))
    ensures forall j :: from <= j && (i == -1 || j < i) ==> !OccursAt(t, s, j)
    decreases |t| + 1 - from
  {
    if from + |s| > |t| then -1
    else if t[from..from + |s|] == s then from
    else Find(t, s, from + 1)
  }

  /** `indexOf` reports -1 exactly when the text does not contain the pattern. */
  lemma FindContains(t: string, s: string)
    ensures Find(t, s, 0) == -1 <==> !Contains(t, s)
  {
    if Find(t, s, 0) != -1 {
      assert OccursAt(t, s, Find(t, s, 0));
    }
  }

  /** No proper non-empty suffix of `p` is also a prefix of it: two occurrences never overlap. */
  predicate BorderFree(p: string) {
    forall m :: 0 < m < |p| ==> p[m..] != p[..|p| - m]
  }

  /**
   * `t.replace(/p/g, rep)` for a pattern that is a literal: scanning from the left,
   * each occurrence is replaced and the scan resumes after it.
   */
  function ReplaceAll(t: string, p: string, rep: string): string
    requires |p| > 0
    decreases |t|
  {
    if |t| < |p| then t
    else if t[..|p|] == p then rep + ReplaceAll(t[|p|..], p, rep)
    else [t[0]] + ReplaceAll(t[1..], p, rep)
  }

  /** Text in which the pattern does not occur is left as it is. */
  lemma {:induction false} ReplaceAbsent(t: string, p: string, rep: string)
    requires |p| > 0 && !Contains(t, p)
    ensures ReplaceAll(t, p, rep) == t
    decreases |t|
  {
    if |t| >= |p| {
      assert !OccursAt(t, p, 0);
      forall i | OccursAt(t[1..], p, i) ensures false {
        assert t[1..][i..i + |p|] == t[i + 1..i + 1 + |p|];
        assert OccursAt(t, p, i + 1);
      }
      ReplaceAbsent(t[1..], p, rep);
    }
  }

  /** The text before the first occurrence is kept, that occurrence is replaced, and replacing goes on after it. */
  lemma {:induction false} ReplaceFirst(a: string, p: string, b: string, rep: string)
    requires |p| > 0 && BorderFree(p) && !Contains(a, p)
    ensures ReplaceAll(a + p + b, p, rep) == a + rep + ReplaceAll(b, p, rep)
    decreases |a|
  {
    var t := a + p + b;
    if |a| == 0 {
      assert t[..|p|] == p;
      assert t[|p|..] == b;
    } else {
      NoEarlierMatch(a, p, b);
      NotContainsTail(a, p);
      assert t[1..] == a[1..] + p + b;
      assert ReplaceAll(t, p, rep) == [a[0]] + ReplaceAll(a[1..] + p + b, p, rep);
      ReplaceFirst(a[1..], p, b, rep);
      assert a == [a[0]] + a[1..];
    }
  }

  /** A border-free pattern placed right after pattern-free text does not start any earlier. */
  lemma NoEarlierMatch(a: string, p: string, b: string)
    requires |p| > 0 && BorderFree(p) && !Contains(a, p) && |a| > 0
    ensures |a + p + b| >= |p| && (a + p + b)[..|p|] != p
  {
    var t := a + p + b;
    if |a| >= |p| {
      assert !OccursAt(a, p, 0);
      assert a[..|p|] == t[..|p|];
    } else {
      var m := |a|;
      assert p[m..] != p[..|p| - m];
      assert t[..|p|] == a + p[..|p| - m];
    }
  }

  lemma NotContainsTail(a: string, p: string)
    requires !Contains(a, p) && |a| > 0
    ensures !Contains(a[1..], p)
  {
    forall i | OccursAt(a[1..], p, i) ensures OccursAt(a, p, i + 1) {
      assert a[1..][i..i + |p|] == a[i + 1..i + 1 + |p|];
    }
  }

  /** With a border-free pattern, the pieces between occurrences are kept and every occurrence is replaced. */
  lemma {:induction false} ReplaceJoin(pieces: seq<string>, p: string, rep: string)
    requires |p| > 0 && BorderFree(p) && |pieces| >= 1
    requires forall i :: 0 <= i < |pieces| ==> !Contains(pieces[i], p)
    ensures ReplaceAll(Join(pieces, p), p, rep) == Join(pieces, rep)
  {
    if |pieces| == 1 {
      ReplaceAbsent(pieces[0], p, rep);
    } else {
      ReplaceFirst(pieces[0], p, Join(pieces[1..], p), rep);
      ReplaceJoin(pieces[1..], p, rep);
    }
  }
}
