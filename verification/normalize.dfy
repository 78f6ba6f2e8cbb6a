/**
 The three regular-expression-free building blocks of every text cleaner in
 the repository: single-character replacement (`str.replace`), collapsing
 each maximal whitespace run to one space (`re.sub(r"\s+", " ", s)`), and
 `str.strip()`.
 */
module Normalize {
  import opened Text

  /** `s.replace(from, " ")` for a one-character `from`. */
  function ReplaceChar(s: string, from: char): string {
    seq(|s|, i requires 0 <= i < |s| => if s[i] == from then ' ' else s[i])
  }

  /** Replacing whitespace by a space changes neither the words nor where they break. */
  lemma ReplaceCharKeepsWords(s: string, from: char)
    requires IsSpace(from)
    ensures Words(ReplaceChar(s, from)) == Words(s)
  {
    RunsAgree(ReplaceChar(s, from), s, IsWordChar);
  }

  /**
   `re.sub(r"\s+", " ", s)`: every maximal whitespace run becomes one `' '`.
   `inRun` says that the character before `s` was whitespace of the run
   being replaced, so further whitespace is swallowed.
   */
  function Collapse(s: string, inRun: bool): (r: string)
    ensures OnlyPlainSpaces(r)
    ensures NoDoubleSpace(r)
    ensures inRun && |r| > 0 ==> !IsSpace(r[0])
    ensures |s| > 0 && !IsSpace(s[0]) ==> |r| > 0 && r[0] == s[0]
    ensures !inRun && |s| > 0 ==> |r| > 0 && (IsSpace(r[0]) <==> IsSpace(s[0]))
    decreases |s|
  {
    if |s| == 0 then []
    else if IsSpace(s[0]) then
      var rest := Collapse(s[1..], true);
      if inRun then rest
      else
        ConsKeepsSpacing(' ', rest);
        [' '] + rest
    else
      var rest := Collapse(s[1..], false);
      ConsKeepsSpacing(s[0], rest);
      [s[0]] + rest
  }

  lemma {:induction false} CollapseKeepsWords(s: string, inRun: bool)
    ensures Words(Collapse(s, inRun)) == Words(s)
    decreases |s|
  {
    if |s| > 0 {
      var rest := Collapse(s[1..], IsSpace(s[0]));
      CollapseKeepsWords(s[1..], IsSpace(s[0]));
      if IsSpace(s[0]) {
        assert Words(s) == Words(s[1..]);
        if !inRun {
          assert Collapse(s, inRun) == [' '] + rest;
          RunsSkipPrefix([' '], rest, IsWordChar);
        }
      } else {
        var r := [s[0]] + rest;
        assert r[1..] == rest;
        if |s| > 1 {
          assert |rest| > 0 && (IsSpace(rest[0]) <==> IsSpace(s[1]));
        }
      }
    }
  }

  /** Collapsing text that is already collapsed changes nothing: the collapse is idempotent. */
  lemma {:induction false} CollapseFixesCollapsed(t: string, inRun: bool)
    requires OnlyPlainSpaces(t) && NoDoubleSpace(t)
    requires inRun && |t| > 0 ==> !IsSpace(t[0])
    ensures Collapse(t, inRun) == t
    decreases |t|
  {
    if |t| > 0 {
      SliceKeepsSpacing(t, 1, |t|);
      assert t[1..|t|] == t[1..];
      if |t| > 1 && IsSpace(t[0]) {
        assert !DoubleSpaceAt(t, 0);
      }
      CollapseFixesCollapsed(t[1..], IsSpace(t[0]));
    }
  }

  /** `s.lstrip()`: the longest suffix of `s` that does not start with whitespace. */
  function StripLeft(s: string): (r: string)
    ensures |r| <= |s| && r == s[|s| - |r|..]
    ensures |r| > 0 ==> !IsSpace(r[0])
    ensures forall i :: 0 <= i < |s| - |r| ==> IsSpace(s[i])
    decreases |s|
  {
    if |s| > 0 && IsSpace(s[0]) then StripLeft(s[1..]) else s
  }

  /** `s.rstrip()`: the longest prefix of `s` that does not end with whitespace. */
  function StripRight(s: string): (r: string)
    ensures |r| <= |s| && r == s[..|r|]
    ensures |r| > 0 ==> !IsSpace(r[|r| - 1])
    ensures forall i :: |r| <= i < |s| ==> IsSpace(s[i])
    decreases |s|
  {
    if |s| > 0 && IsSpace(s[|s| - 1]) then StripRight(s[..|s| - 1]) else s
  }

  /** `s.strip()`. */
  function Strip(s: string): string {
    StripRight(StripLeft(s))
  }

  lemma StripKeepsWords(s: string)
    ensures Words(Strip(s)) == Words(s)
  {
    StripLeftKeepsWords(s);
    StripRightKeepsWords(StripLeft(s));
  }

  lemma StripLeftKeepsWords(s: string)
    ensures Words(StripLeft(s)) == Words(s)
  {
    var l := StripLeft(s);
    var lead := s[..|s| - |l|];
    assert s == lead + l;
    assert forall i :: 0 <= i < |lead| ==> !IsWordChar(lead[i]) by {
      forall i | 0 <= i < |lead|
        ensures !IsWordChar(lead[i])
      {
        assert lead[i] == s[i] && IsSpace(s[i]);
      }
    }
    RunsSkipPrefix(lead, l, IsWordChar);
  }

  lemma StripRightKeepsWords(l: string)
    ensures Words(StripRight(l)) == Words(l)
  {
    var r := StripRight(l);
    var trail := l[|r|..];
    assert l == r + trail;
    assert forall i :: 0 <= i < |trail| ==> !IsWordChar(trail[i]) by {
      forall i | 0 <= i < |trail|
        ensures !IsWordChar(trail[i])
      {
        assert trail[i] == l[|r| + i] && IsSpace(l[|r| + i]);
      }
    }
    RunsSkipSuffix(r, trail, IsWordChar);
  }

  /** Stripping a collapsed string leaves it in canonical form. */
  lemma StripOfCollapsedIsCanonical(c: string)
    requires OnlyPlainSpaces(c)
    requires NoDoubleSpace(c)
    ensures Canonical(Strip(c))
  {
    var l := StripLeft(c);
    var k := |c| - |l|;
    var r := StripRight(l);
    assert r == c[k..k + |r|];
    SliceKeepsSpacing(c, k, k + |r|);
    if |r| > 0 {
      assert r[0] == l[0];
    }
  }

  /**
   The clean-up that `knowledge.py` and `base.py` both perform: the three
   replacements, the collapse and the strip give exactly the words of `s`
   joined by single spaces, i.e. Python's `" ".join(s.split())`.
   */
  lemma {:induction false} CleanPipelineIsJoinedWords(s: string)
    ensures var r := Strip(Collapse(ReplaceChar(ReplaceChar(ReplaceChar(s, '\U{A0}'), '\n'), '\t'), false));
      Canonical(r) && Words(r) == Words(s) && r == Join(Words(s), " ")
  {
    var a := ReplaceChar(s, '\U{A0}');
    var b := ReplaceChar(a, '\n');
    var c := ReplaceChar(b, '\t');
    var d := Collapse(c, false);
    var r := Strip(d);
    ReplaceCharKeepsWords(s, '\U{A0}');
    ReplaceCharKeepsWords(a, '\n');
    ReplaceCharKeepsWords(b, '\t');
    CollapseKeepsWords(c, false);
    StripKeepsWords(d);
    StripOfCollapsedIsCanonical(d);
    CanonicalIsJoinedWords(r);
  }
}
