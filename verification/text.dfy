/**
 Character classes and word-level string helpers shared by every part of the
 retrieval model: Python's notion of whitespace, ASCII lower-casing, maximal
 runs of characters (which give both `str.split()` and the tokenizer's regex
 matches), and `sep.join(...)`.
 */
module Text {

  /** Python's `str.isspace()`; `re`'s `\s`, `str.split()` and `str.strip()` use the same class. */
  predicate IsSpace(c: char) {
    || c == ' '
    || ('\t' <= c <= '\r')
    || ('\U{1C}' <= c <= '\U{1F}')
    || c == '\U{85}'
    || c == '\U{A0}'
    || c == '\U{1680}'
    || ('\U{2000}' <= c <= '\U{200A}')
    || c == '\U{2028}'
    || c == '\U{2029}'
    || c == '\U{202F}'
    || c == '\U{205F}'
    || c == '\U{3000}'
  }

  predicate IsWordChar(c: char) {
    !IsSpace(c)
  }

  predicate IsDigit(c: char) {
    '0' <= c <= '9'
  }

  /** Lower-casing restricted to ASCII letters. */
  function LowerChar(c: char): char {
    if 'A' <= c <= 'Z' then (c as int + 32) as char else c
  }

  function Lower(s: string): string {
    seq(|s|, i requires 0 <= i < |s| => LowerChar(s[i]))
  }

  function Min(a: int, b: int): int {
    if a <= b then a else b
  }

  function Max(a: int, b: int): int {
    if a <= b then b else a
  }

  /** Python's `s[:k]`, where a negative `k` counts from the end. */
  function SliceTo<T>(s: seq<T>, k: int): (r: seq<T>)
    ensures |r| <= |s| && r == s[..|r|]
  {
    if k >= 0 then s[..Min(k, |s|)] else s[..Max(0, |s| + k)]
  }

  /** Python's `w in t` for strings. */
  predicate IsSubstring(w: string, t: string) {
    exists i | 0 <= i <= |t| - |w| :: OccursAt(w, t, i)
  }

  predicate OccursAt(w: string, t: string, i: int) {
    0 <= i <= |t| - |w| && t[i..i + |w|] == w
  }

  /** The characters of `s` that satisfy `p`, in order. */
  function Filter(s: string, p: char -> bool): string {
    if |s| == 0 then [] else (if p(s[0]) then [s[0]] else []) + Filter(s[1..], p)
  }

  function Concat(ws: seq<string>): string {
    if |ws| == 0 then [] else ws[0] + Concat(ws[1..])
  }

  /** Python's `sep.join(ws)`. */
  function Join(ws: seq<string>, sep: string): string {
    if |ws| == 0 then []
    else if |ws| == 1 then ws[0]
    else ws[0] + sep + Join(ws[1..], sep)
  }

  /** A non-empty string all of whose characters satisfy `p`. */
  predicate IsRun(w: string, p: char -> bool) {
    |w| > 0 && forall i :: 0 <= i < |w| ==> p(w[i])
  }

  /**
   The maximal runs of characters satisfying `p`, left to right: what
   `re.findall` returns for the pattern `[class]+`, and what `str.split()`
   returns when `p` is "not whitespace".
   */
  function Runs(s: string, p: char -> bool): (rs: seq<string>)
    ensures forall k :: 0 <= k < |rs| ==> IsRun(rs[k], p)
    ensures |s| > 0 && p(s[0]) ==> |rs| > 0 && |rs[0]| > 0 && rs[0][0] == s[0]
    ensures |rs| <= |s|
    decreases |s|
  {
    if |s| == 0 then []
    else if !p(s[0]) then Runs(s[1..], p)
    else
      var rest := Runs(s[1..], p);
      if |s| > 1 && p(s[1]) then [[s[0]] + rest[0]] + rest[1..]
      else [[s[0]]] + rest
  }

  /** Python's `s.split()` with no arguments. */
  function Words(s: string): seq<string> {
    Runs(s, IsWordChar)
  }

  predicate IsWord(w: string) {
    IsRun(w, IsWordChar)
  }

  /**
   The normal form of whitespace: only `' '` as whitespace, never two
   whitespace characters in a row, none at either end.
   */
  predicate Canonical(t: string) {
    && (|t| > 0 ==> !IsSpace(t[0]) && !IsSpace(t[|t| - 1]))
    && OnlyPlainSpaces(t)
    && NoDoubleSpace(t)
  }

  /** The only whitespace character in `t` is `' '`. */
  predicate OnlyPlainSpaces(t: string) {
    forall i :: 0 <= i < |t| && IsSpace(t[i]) ==> t[i] == ' '
  }

  predicate DoubleSpaceAt(t: string, i: int)
    requires 0 <= i < |t| - 1
  {
    IsSpace(t[i]) && IsSpace(t[i + 1])
  }

  /** No two whitespace characters are adjacent in `t`. */
  predicate NoDoubleSpace(t: string) {
    forall i :: 0 <= i < |t| - 1 ==> !DoubleSpaceAt(t, i)
  }

  lemma SliceKeepsSpacing(t: string, a: int, b: int)
    requires 0 <= a <= b <= |t|
    requires OnlyPlainSpaces(t) && NoDoubleSpace(t)
    ensures OnlyPlainSpaces(t[a..b]) && NoDoubleSpace(t[a..b])
  {
    var u := t[a..b];
    forall i | 0 <= i < |u| - 1
      ensures !DoubleSpaceAt(u, i)
    {
      assert u[i] == t[a + i] && u[i + 1] == t[a + i + 1];
      assert !DoubleSpaceAt(t, a + i);
    }
  }

  lemma ConsKeepsSpacing(c: char, u: string)
    requires OnlyPlainSpaces(u) && NoDoubleSpace(u)
    requires IsSpace(c) ==> c == ' ' && (|u| == 0 || !IsSpace(u[0]))
    ensures OnlyPlainSpaces([c] + u) && NoDoubleSpace([c] + u)
  {
    var t := [c] + u;
    forall i | 0 <= i < |t| - 1
      ensures !DoubleSpaceAt(t, i)
    {
      if i > 0 {
        assert t[i] == u[i - 1] && t[i + 1] == u[i];
        assert !DoubleSpaceAt(u, i - 1);
      }
    }
  }

  /** Characters outside the class never start or extend a run. */
  lemma {:induction false} RunsSkipPrefix(a: string, x: string, p: char -> bool)
    requires forall i :: 0 <= i < |a| ==> !p(a[i])
    ensures Runs(a + x, p) == Runs(x, p)
    decreases |a|
  {
    if |a| == 0 {
      assert a + x == x;
    } else {
      assert (a + x)[1..] == a[1..] + x;
      RunsSkipPrefix(a[1..], x, p);
    }
  }

  lemma {:induction false} RunsSkipSuffix(x: string, a: string, p: char -> bool)
    requires forall i :: 0 <= i < |a| ==> !p(a[i])
    ensures Runs(x + a, p) == Runs(x, p)
    decreases |x|
  {
    if |x| == 0 {
      assert x + a == a + x;
      RunsSkipPrefix(a, x, p);
    } else {
      var s := x + a;
      assert s[1..] == x[1..] + a;
      RunsSkipSuffix(x[1..], a, p);
      if |x| > 1 {
        assert s[1] == x[1];
      } else {
        assert x[1..] + a == a;
      }
    }
  }

  /** A non-member ends every run: the runs of `x + [c] + y` are those of `x`, then those of `y`. */
  lemma {:induction false} RunsSplitAt(x: string, c: char, y: string, p: char -> bool)
    requires !p(c)
    ensures Runs(x + [c] + y, p) == Runs(x, p) + Runs(y, p)
    decreases |x|
  {
    if |x| == 0 {
      assert x + [c] + y == [c] + y;
      RunsSkipPrefix([c], y, p);
    } else {
      var s := x + [c] + y;
      assert s[1..] == x[1..] + [c] + y;
      RunsSplitAt(x[1..], c, y, p);
      RunsSplitStep(x, s, Runs(y, p), p);
    }
  }

  /** `s` starts like `x`, and its runs after the first character are those of `x` after it, then `tail`. */
  lemma RunsSplitStep(x: string, s: string, tail: seq<string>, p: char -> bool)
    requires |x| > 0 && |s| > |x| && s[0] == x[0] && !p(s[|x|])
    requires |x| > 1 ==> s[1] == x[1]
    requires Runs(s[1..], p) == Runs(x[1..], p) + tail
    ensures Runs(s, p) == Runs(x, p) + tail
  {
    var restX := Runs(x[1..], p);
    if p(x[0]) && |x| > 1 && p(x[1]) {
      HeadTailOfAppend(restX, tail);
    }
  }

  lemma HeadTailOfAppend<T>(a: seq<T>, b: seq<T>)
    requires |a| > 0
    ensures (a + b)[0] == a[0] && (a + b)[1..] == a[1..] + b
  {
  }

  /** A run followed by a non-member (or nothing) is the first run. */
  lemma {:induction false} RunsOfRunThen(w: string, x: string, p: char -> bool)
    requires IsRun(w, p)
    requires |x| == 0 || !p(x[0])
    ensures Runs(w + x, p) == [w] + Runs(x, p)
    decreases |w|
  {
    var s := w + x;
    assert s[1..] == w[1..] + x;
    if |w| == 1 {
      assert w == [w[0]];
      if |s| > 1 {
        assert s[1] == x[0];
      }
    } else {
      RunsOfRunThen(w[1..], x, p);
      assert s[1] == w[1];
      assert [w[0]] + w[1..] == w;
    }
  }

  /** Splitting a joined list of runs gives the list back. */
  lemma {:induction false} RunsOfJoin(ws: seq<string>, sep: string, p: char -> bool)
    requires forall k :: 0 <= k < |ws| ==> IsRun(ws[k], p)
    requires |sep| > 0 && forall i :: 0 <= i < |sep| ==> !p(sep[i])
    ensures Runs(Join(ws, sep), p) == ws
    decreases |ws|
  {
    if |ws| == 1 {
      RunsOfRunThen(ws[0], [], p);
      assert ws[0] + [] == ws[0];
    } else if |ws| > 1 {
      var rest := Join(ws[1..], sep);
      RunsOfJoin(ws[1..], sep, p);
      RunsSkipPrefix(sep, rest, p);
      RunsOfRunThen(ws[0], sep + rest, p);
      assert ws[0] + sep + rest == ws[0] + (sep + rest);
      assert [ws[0]] + ws[1..] == ws;
    }
  }

  /** The runs, glued together, are exactly the member characters in order. */
  lemma {:induction false} ConcatRuns(s: string, p: char -> bool)
    ensures Concat(Runs(s, p)) == Filter(s, p)
    decreases |s|
  {
    if |s| > 0 {
      ConcatRuns(s[1..], p);
      var rest := Runs(s[1..], p);
      if p(s[0]) {
        if |s| > 1 && p(s[1]) {
          var rs := [[s[0]] + rest[0]] + rest[1..];
          assert rs[1..] == rest[1..];
          assert Concat(rest) == rest[0] + Concat(rest[1..]);
          assert Concat(rs) == [s[0]] + rest[0] + Concat(rest[1..]);
        } else {
          assert ([[s[0]]] + rest)[1..] == rest;
        }
      }
    }
  }

  /** Runs only look at membership, and at the characters that are members. */
  lemma {:induction false} RunsAgree(a: string, b: string, p: char -> bool)
    requires |a| == |b|
    requires forall i :: 0 <= i < |a| ==> p(a[i]) == p(b[i])
    requires forall i :: 0 <= i < |a| && p(a[i]) ==> a[i] == b[i]
    ensures Runs(a, p) == Runs(b, p)
    decreases |a|
  {
    if |a| > 0 {
      RunsAgree(a[1..], b[1..], p);
    }
  }

  lemma JoinConsChar(c: char, ws: seq<string>, sep: string)
    requires |ws| > 0
    ensures Join([[c] + ws[0]] + ws[1..], sep) == [c] + Join(ws, sep)
  {
    var vs := [[c] + ws[0]] + ws[1..];
    assert vs[1..] == ws[1..];
  }

  /** Every canonical string is its own words joined by single spaces. */
  lemma {:induction false} CanonicalIsJoinedWords(t: string)
    requires Canonical(t)
    ensures Join(Words(t), " ") == t
    decreases |t|
  {
    if |t| == 1 {
      assert Words(t) == [[t[0]]] + Words(t[1..]);
      assert Words(t[1..]) == [];
    } else if |t| > 1 {
      var c := t[0];
      var rest := Words(t[1..]);
      if IsWordChar(t[1]) {
        SliceKeepsSpacing(t, 1, |t|);
        assert t[1..|t|] == t[1..];
        CanonicalIsJoinedWords(t[1..]);
        assert Words(t) == [[c] + rest[0]] + rest[1..];
        JoinConsChar(c, rest, " ");
        assert [c] + t[1..] == t;
      } else {
        assert t[1] == ' ';
        assert |t| > 2;
        assert !DoubleSpaceAt(t, 1);
        assert IsWordChar(t[2]);
        assert t[1..][1..] == t[2..];
        assert rest == Words(t[2..]);
        SliceKeepsSpacing(t, 2, |t|);
        assert t[2..|t|] == t[2..];
        CanonicalIsJoinedWords(t[2..]);
        assert Words(t) == [[c]] + rest;
        assert ([[c]] + rest)[1..] == rest;
        assert Join(Words(t), " ") == [c] + " " + t[2..];
        assert [c] + " " + t[2..] == t;
      }
    }
  }

  /** Words joined by single spaces are in canonical form. */
  lemma {:induction false} JoinedWordsCanonical(ws: seq<string>)
    requires forall k :: 0 <= k < |ws| ==> IsWord(ws[k])
    ensures Canonical(Join(ws, " "))
    ensures |ws| > 0 ==> |Join(ws, " ")| > 0
    decreases |ws|
  {
    if |ws| > 1 {
      JoinedWordsCanonical(ws[1..]);
      var w := ws[0];
      var rest := Join(ws[1..], " ");
      var t := w + " " + rest;
      assert t == Join(ws, " ");
      forall i | 0 <= i < |t| && IsSpace(t[i])
        ensures t[i] == ' '
      {
        if i > |w| {
          assert t[i] == rest[i - |w| - 1];
        }
      }
      forall i | 0 <= i < |t| - 1
        ensures !DoubleSpaceAt(t, i)
      {
        if i < |w| - 1 {
          assert t[i] == w[i];
        } else if i == |w| - 1 {
          assert t[i] == w[i];
        } else if i == |w| {
          assert t[i + 1] == rest[0];
        } else {
          assert t[i] == rest[i - |w| - 1];
          assert t[i + 1] == rest[i - |w|];
          assert !DoubleSpaceAt(rest, i - |w| - 1);
        }
      }
      assert t[|t| - 1] == rest[|rest| - 1];
    }
  }
}
