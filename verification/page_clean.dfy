/**
 The cleaning stage of the PDF pipeline (`gentaxai/scripts/02_clean_text.py`):
 every page record extracted from a PDF has its whitespace collapsed, its
 "Page N of M" footers deleted and its ends stripped; records without text
 are dropped. Reading and writing the JSON-lines files is outside the model.
 */
module PageClean {
  import opened Wrappers
  import opened Text
  import opened Normalize
  import opened JsonValue

  // ---------------------------------------------------------- page markers

  /** `s` starts with "Page " with its letters in any case (the pattern's IGNORECASE flag). */
  predicate StartsWithPage(s: string) {
    && |s| >= 5
    && LowerChar(s[0]) == 'p' && LowerChar(s[1]) == 'a' && LowerChar(s[2]) == 'g' && LowerChar(s[3]) == 'e'
    && s[4] == ' '
  }

  /** `s` starts with " of " with its letters in any case. */
  predicate StartsWithOf(s: string) {
    && |s| >= 4
    && s[0] == ' ' && LowerChar(s[1]) == 'o' && LowerChar(s[2]) == 'f' && s[3] == ' '
  }

  predicate AllDigits(s: string) {
    forall i :: 0 <= i < |s| ==> IsDigit(s[i])
  }

  /** The length of the run of digits `s` starts with. */
  function DigitRun(s: string): (n: nat)
    ensures n <= |s| && AllDigits(s[..n])
    ensures n < |s| ==> !IsDigit(s[n])
    decreases |s|
  {
    if |s| > 0 && IsDigit(s[0]) then
      var rest := DigitRun(s[1..]);
      assert s[..1 + rest] == [s[0]] + s[1..][..rest];
      1 + rest
    else 0
  }

  /**
   `w` is "page", a space, `a` digits, " of ", `b` digits, with the letters
   in any case: a text the pattern `Page \d+ of \d+` matches.
   */
  predicate MarkerShape(w: string, a: int, b: int) {
    && 1 <= a && 1 <= b && |w| == 9 + a + b
    && StartsWithPage(w)
    && AllDigits(w[5..5 + a])
    && StartsWithOf(w[5 + a..])
    && AllDigits(w[9 + a..])
  }

  /**
   The length of the match of `Page \d+ of \d+` (ignoring case) at the start
   of `s`, or 0 when the pattern does not match there. Both digit runs are
   greedy.
   */
  function MarkerLen(s: string): (n: nat)
    ensures n <= |s|
  {
    if !StartsWithPage(s) then 0
    else
      var a := DigitRun(s[5..]);
      if a == 0 || !StartsWithOf(s[5 + a..]) then 0
      else
        var b := DigitRun(s[9 + a..]);
        if b == 0 then 0 else 9 + a + b
  }

  /**
   The regular-expression match: a non-zero length is a marker followed by a
   non-digit or the end, and it is the longest marker `s` starts with; a zero
   length means `s` starts with no marker at all.
   */
  lemma MarkerLenIsLongestMatch(s: string)
    ensures MarkerLen(s) > 0 ==>
              (exists a, b :: MarkerShape(s[..MarkerLen(s)], a, b))
              && (MarkerLen(s) == |s| || !IsDigit(s[MarkerLen(s)]))
    ensures forall n, a, b :: 0 <= n <= |s| && MarkerShape(s[..n], a, b) ==> 0 < n <= MarkerLen(s)
  {
    var n := MarkerLen(s);
    if n > 0 {
      var a := DigitRun(s[5..]);
      var b := DigitRun(s[9 + a..]);
      var w := s[..n];
      assert w[5..5 + a] == s[5..][..a];
      assert w[5 + a..] == s[5 + a..n];
      assert w[9 + a..] == s[9 + a..][..b];
      assert MarkerShape(w, a, b);
      if n < |s| {
        assert s[n] == s[9 + a..][b];
      }
    }
    forall m, a, b | 0 <= m <= |s| && MarkerShape(s[..m], a, b)
      ensures 0 < m <= MarkerLen(s)
    {
      MarkerPrefixBound(s, m, a, b);
    }
  }

  lemma MarkerPrefixBound(s: string, m: int, a: int, b: int)
    requires 0 <= m <= |s| && MarkerShape(s[..m], a, b)
    ensures 0 < m <= MarkerLen(s)
  {
    var w := s[..m];
    assert StartsWithPage(s) by {
      assert s[0] == w[0] && s[1] == w[1] && s[2] == w[2] && s[3] == w[3] && s[4] == w[4];
    }
    var a' := DigitRun(s[5..]);
    // the first digit run of `w` is the whole run: a space follows it
    assert forall i :: 0 <= i < a ==> IsDigit(s[5..][i]) by {
      forall i | 0 <= i < a
        ensures IsDigit(s[5..][i])
      {
        assert s[5..][i] == w[5..5 + a][i];
      }
    }
    assert s[5 + a] == w[5 + a..][0];
    assert s[5 + a] == ' ';
    DigitRunIsMaximal(s[5..], a);
    assert a' == a;
    assert StartsWithOf(s[5 + a..]) by {
      var u, v := s[5 + a..], w[5 + a..];
      assert u[0] == v[0] && u[1] == v[1] && u[2] == v[2] && u[3] == v[3];
    }
    var t := s[9 + a..];
    forall i | 0 <= i < b
      ensures IsDigit(t[i])
    {
      assert t[i] == w[9 + a..][i];
    }
    DigitRunCoversDigits(t, b);
  }

  /** A run of `k` digits followed by a non-digit is exactly the digit run. */
  lemma {:induction false} DigitRunIsMaximal(s: string, k: nat)
    requires k < |s| && forall i :: 0 <= i < k ==> IsDigit(s[i])
    requires !IsDigit(s[k])
    ensures DigitRun(s) == k
    decreases k
  {
    if k > 0 {
      DigitRunIsMaximal(s[1..], k - 1);
    }
  }

  /** The digit run is at least as long as any all-digit prefix. */
  lemma {:induction false} DigitRunCoversDigits(s: string, k: nat)
    requires k <= |s| && forall i :: 0 <= i < k ==> IsDigit(s[i])
    ensures DigitRun(s) >= k
    decreases k
  {
    if k > 0 {
      DigitRunCoversDigits(s[1..], k - 1);
    }
  }

  // ------------------------------------------------------------ removal

  /** `re.sub(r"Page \d+ of \d+", "", s, flags=re.IGNORECASE)`: one left-to-right pass deleting non-overlapping matches. */
  function RemoveMarkers(s: string): (r: string)
    ensures |r| <= |s|
    decreases |s|
  {
    if |s| == 0 then []
    else
      var n := MarkerLen(s);
      if n > 0 then RemoveMarkers(s[n..])
      else [s[0]] + RemoveMarkers(s[1..])
  }

  /** Deleting markers brings in no new kind of whitespace. */
  lemma {:induction false} RemoveMarkersKeepsPlainSpaces(s: string)
    requires OnlyPlainSpaces(s)
    ensures OnlyPlainSpaces(RemoveMarkers(s))
    decreases |s|
  {
    if |s| > 0 {
      var n := MarkerLen(s);
      if n > 0 {
        RemoveMarkersDropsMarker(s);
        SuffixKeepsPlainSpaces(s, n);
        RemoveMarkersKeepsPlainSpaces(s[n..]);
      } else {
        RemoveMarkersKeepsFirst(s);
        SuffixKeepsPlainSpaces(s, 1);
        RemoveMarkersKeepsPlainSpaces(s[1..]);
        ConsKeepsPlainSpaces(s[0], RemoveMarkers(s[1..]));
      }
    }
  }

  lemma SuffixKeepsPlainSpaces(s: string, k: int)
    requires 0 <= k <= |s| && OnlyPlainSpaces(s)
    ensures OnlyPlainSpaces(s[k..])
  {
    assert forall i :: 0 <= i < |s| - k ==> s[k..][i] == s[k + i];
  }

  lemma ConsKeepsPlainSpaces(c: char, u: string)
    requires OnlyPlainSpaces(u) && (IsSpace(c) ==> c == ' ')
    ensures OnlyPlainSpaces([c] + u)
  {
    assert forall i :: 1 <= i < |u| + 1 ==> ([c] + u)[i] == u[i - 1];
  }


  /** The pass changes the text exactly when a marker starts somewhere in it, and then shortens it. */
  lemma {:induction false} RemoveMarkersChangesIffMarker(s: string)
    ensures RemoveMarkers(s) == s <==> forall i :: 0 <= i < |s| ==> MarkerLen(s[i..]) == 0
    ensures RemoveMarkers(s) != s ==> |RemoveMarkers(s)| < |s|
    decreases |s|
  {
    if |s| > 0 {
      RemoveMarkersChangesIffMarker(s[1..]);
      var n := MarkerLen(s);
      assert s[0..] == s;
      if n == 0 {
        assert forall i :: 1 <= i < |s| ==> s[i..] == s[1..][i - 1..];
        assert RemoveMarkers(s) == [s[0]] + RemoveMarkers(s[1..]);
        if RemoveMarkers(s[1..]) != s[1..] {
          assert |RemoveMarkers(s)| < |s|;
        } else {
          assert RemoveMarkers(s) == [s[0]] + s[1..] == s;
        }
        if RemoveMarkers(s) == s {
          assert RemoveMarkers(s[1..]) == RemoveMarkers(s)[1..] == s[1..];
        }
      } else {
        assert |RemoveMarkers(s)| <= |s| - n;
      }
    }
  }

  /** `clean_text` of the PDF cleaner: collapse whitespace, delete the markers, strip. */
  function CleanPage(text: string): (r: string)
    ensures |r| > 0 ==> !IsSpace(r[0]) && !IsSpace(r[|r| - 1])
    ensures OnlyPlainSpaces(r)
    ensures |r| <= |text|
  {
    var collapsed := Collapse(text, false);
    CollapseIsNoLonger(text, false);
    var removed := RemoveMarkers(collapsed);
    RemoveMarkersKeepsPlainSpaces(collapsed);
    var r := Strip(removed);
    StripKeepsPlainSpaces(removed);
    r
  }

  /**
   Text in which no marker starts once its whitespace is collapsed keeps every
   word: cleaning gives its words joined by single spaces, which is also what
   the retriever's cleaner gives.
   */
  lemma CleanPageWithoutMarkers(text: string)
    requires forall i :: 0 <= i < |Collapse(text, false)| ==> MarkerLen(Collapse(text, false)[i..]) == 0
    ensures CleanPage(text) == Join(Words(text), " ")
  {
    var c := Collapse(text, false);
    RemoveMarkersChangesIffMarker(c);
    CollapseKeepsWords(text, false);
    StripKeepsWords(c);
    StripOfCollapsedIsCanonical(c);
    CanonicalIsJoinedWords(Strip(c));
  }

  lemma {:induction false} CollapseIsNoLonger(s: string, inRun: bool)
    ensures |Collapse(s, inRun)| <= |s|
    decreases |s|
  {
    if |s| > 0 {
      CollapseIsNoLonger(s[1..], IsSpace(s[0]));
    }
  }

  lemma StripKeepsPlainSpaces(s: string)
    requires OnlyPlainSpaces(s)
    ensures OnlyPlainSpaces(Strip(s))
  {
    var l := StripLeft(s);
    var r := Strip(s);
    forall i | 0 <= i < |r| && IsSpace(r[i])
      ensures r[i] == ' '
    {
      assert r[i] == l[i] == s[|s| - |l| + i];
    }
  }

  /** No character of `x` is a `p` of either case, so no marker starts inside `x`. */
  predicate NoLetterP(x: string) {
    forall i :: 0 <= i < |x| ==> LowerChar(x[i]) != 'p'
  }

  /** Text without a `p` cannot start a marker, so the pass copies it unchanged. */
  lemma {:induction false} RemoveMarkersSkipsPrefix(x: string, y: string)
    requires NoLetterP(x)
    ensures RemoveMarkers(x + y) == x + RemoveMarkers(y)
    decreases |x|
  {
    if |x| == 0 {
      assert x + y == y;
    } else {
      var tail := x[1..];
      var t := tail + y;
      assert x + y == [x[0]] + t;
      NoMarkerWithoutP([x[0]] + t);
      RemoveMarkersCons(x[0], t);
      assert NoLetterP(tail) by {
        forall i | 0 <= i < |tail|
          ensures LowerChar(tail[i]) != 'p'
        {
          assert tail[i] == x[i + 1];
        }
      }
      RemoveMarkersSkipsPrefix(tail, y);
      ConsAppend(x[0], tail, RemoveMarkers(y));
      assert [x[0]] + tail == x;
    }
  }

  /** A character that starts no marker is copied. */
  lemma RemoveMarkersCons(c: char, t: string)
    requires MarkerLen([c] + t) == 0
    ensures RemoveMarkers([c] + t) == [c] + RemoveMarkers(t)
  {
    assert ([c] + t)[1..] == t;
  }

  lemma ConsAppend<T>(c: T, a: seq<T>, b: seq<T>)
    ensures [c] + (a + b) == ([c] + a) + b
  {
  }

  /** A marker begins with a `p`. */
  lemma NoMarkerWithoutP(s: string)
    requires |s| > 0 && LowerChar(s[0]) != 'p'
    ensures MarkerLen(s) == 0
  {
    assert !StartsWithPage(s);
  }

  /** Text that starts with no marker keeps its first character. */
  lemma RemoveMarkersKeepsFirst(s: string)
    requires |s| > 0 && MarkerLen(s) == 0
    ensures RemoveMarkers(s) == [s[0]] + RemoveMarkers(s[1..])
  {
  }

  /** A marker at the start of the text is deleted and the pass resumes after it. */
  lemma RemoveMarkersDropsMarker(s: string)
    requires MarkerLen(s) > 0
    ensures RemoveMarkers(s) == RemoveMarkers(s[MarkerLen(s)..])
  {
  }

  /** `Page d of e` with single digits `d` and `e`, not followed by a digit, is a marker of length 11. */
  lemma SingleDigitMarker(s: string)
    requires |s| >= 11 && StartsWithPage(s) && IsDigit(s[5])
    requires StartsWithOf(s[6..]) && IsDigit(s[10])
    requires |s| == 11 || !IsDigit(s[11])
    ensures MarkerLen(s) == 11
  {
    assert s[6..][0] == ' ';
    assert s[5..][1] == s[6];
    DigitRunIsMaximal(s[5..], 1);
    assert s[5 + 1..] == s[6..];
    var t := s[10..];
    assert t[0] == s[10];
    if |s| == 11 {
      DigitRunCoversDigits(t, 1);
    } else {
      assert t[1] == s[11];
      DigitRunIsMaximal(t, 1);
    }
  }

  /** `Page d` followed by something other than ` of ` starts no marker. */
  lemma DigitNotFollowedByOf(s: string)
    requires |s| >= 7 && StartsWithPage(s) && IsDigit(s[5]) && !IsDigit(s[6])
    requires s[6] != ' '
    ensures MarkerLen(s) == 0
  {
    assert s[5..][1] == s[6];
    DigitRunIsMaximal(s[5..], 1);
    assert s[5 + 1..][0] == s[6];
  }

  lemma PageOneOfTwo(s: string)
    requires s == "Page 1 of 2 b"
    ensures MarkerLen(s) == 11 && s[11..] == " b"
  {
    SingleDigitMarker(s);
  }


  lemma TextWithDoubleSpace(s: string)
    requires s == "a  b"
    ensures Strip(s) == s
  {
    assert !IsSpace(s[0]);
    assert StripLeft(s) == s;
    assert !IsSpace(s[|s| - 1]);
  }

  lemma SpacedMarkerText(s: string)
    requires s == "a Page 1 of 2 b"
    ensures OnlyPlainSpaces(s) && NoDoubleSpace(s)
  {
  }

  /** Text around a single marker: the text before it is copied, the marker dropped, the text after it copied. */
  lemma RemoveSingleMarker(x: string, y: string)
    requires NoLetterP(x)
    requires MarkerLen(y) > 0 && NoLetterP(y[MarkerLen(y)..])
    ensures RemoveMarkers(x + y) == x + y[MarkerLen(y)..]
  {
    var z := y[MarkerLen(y)..];
    RemoveMarkersSkipsPrefix(x, y);
    RemoveMarkersDropsMarker(y);
    assert z + [] == z;
    RemoveMarkersSkipsPrefix(z, []);
  }

  /** On text that is already collapsed the cleaner only deletes markers and strips. */
  lemma CleanPageOfCollapsedText(s: string)
    requires OnlyPlainSpaces(s) && NoDoubleSpace(s)
    ensures CleanPage(s) == Strip(RemoveMarkers(s))
  {
    CollapseFixesCollapsed(s, false);
  }

  lemma MarkerBetweenWords(s: string)
    requires s == "a Page 1 of 2 b"
    ensures RemoveMarkers(s) == "a  b"
  {
    MarkerBetweenWordsPieces(s);
    RemoveBetween(s, s[..2], s[2..], "a  b");
  }

  lemma MarkerBetweenWordsPieces(s: string)
    requires s == "a Page 1 of 2 b"
    ensures s == s[..2] + s[2..] && NoLetterP(s[..2])
    ensures MarkerLen(s[2..]) == 11 && NoLetterP(s[2..][11..])
    ensures s[..2] + s[2..][11..] == "a  b"
  {
    PageOneOfTwo(s[2..]);
  }

  /** `s` is text without a marker start, then one marker, then text without a marker start. */
  lemma RemoveBetween(s: string, x: string, y: string, result: string)
    requires s == x + y && NoLetterP(x)
    requires MarkerLen(y) > 0 && NoLetterP(y[MarkerLen(y)..])
    requires result == x + y[MarkerLen(y)..]
    ensures RemoveMarkers(s) == result
  {
    RemoveSingleMarker(x, y);
  }


  /** Deleting a marker between two words leaves two spaces side by side. */
  lemma CleanPageMayLeaveDoubleSpace()
    ensures CleanPage("a Page 1 of 2 b") == "a  b"
  {
    var s := "a Page 1 of 2 b";
    SpacedMarkerText(s);
    CleanPageOfCollapsedText(s);
    MarkerBetweenWords(s);
    TextWithDoubleSpace("a  b");
  }

  lemma JoinedMarkersSpacing(s: string)
    requires s == "Page 1Page 2 of 3 of 4"
    ensures OnlyPlainSpaces(s) && NoDoubleSpace(s)
  {
  }

  lemma JoinedMarkers(s: string)
    requires s == "Page 1Page 2 of 3 of 4"
    ensures MarkerLen(s) == 0
  {
    DigitNotFollowedByOf(s);
  }





  lemma PageOneOfFour(s: string)
    requires s == "Page 1 of 4"
    ensures Strip(s) == s
  {
    assert !IsSpace(s[0]);
    assert StripLeft(s) == s;
    assert !IsSpace(s[|s| - 1]);
  }

  /** Text whose first character starts no marker, followed by a single marker. */
  lemma RemoveMarkerAfterFirst(s: string, k: nat)
    requires 0 < k < |s| && MarkerLen(s) == 0 && NoLetterP(s[1..k])
    requires MarkerLen(s[k..]) > 0 && NoLetterP(s[k..][MarkerLen(s[k..])..])
    ensures RemoveMarkers(s) == s[..k] + s[k..][MarkerLen(s[k..])..]
  {
    var x, y := s[1..k], s[k..];
    var z := y[MarkerLen(y)..];
    SplitAfterFirst(s, k);
    RemoveMarkersCons(s[0], x + y);
    RemoveSingleMarker(x, y);
    ConsAppend(s[0], x, z);
  }

  lemma SplitAfterFirst<T>(s: seq<T>, k: int)
    requires 0 < k <= |s|
    ensures s == [s[0]] + (s[1..k] + s[k..]) && s[..k] == [s[0]] + s[1..k]
  {
  }

  lemma MarkerInsideMarker(s: string)
    requires s == "Page 1Page 2 of 3 of 4"
    ensures RemoveMarkers(s) == "Page 1 of 4"
  {
    JoinedMarkers(s);
    InnerMarker(s);
    JoinedMarkersPieces(s);
    RemoveMarkerAfterFirst(s, 6);
  }

  lemma JoinedMarkersPieces(s: string)
    requires s == "Page 1Page 2 of 3 of 4"
    ensures NoLetterP(s[1..6]) && NoLetterP(s[17..]) && s[6..][11..] == s[17..]
    ensures s[..6] + s[17..] == "Page 1 of 4"
  {
    assert s[1..6] == "age 1" && s[17..] == " of 4";
  }

  /** The second of the joined markers, `Page 2 of 3`, is a marker of length 11. */
  lemma InnerMarker(s: string)
    requires s == "Page 1Page 2 of 3 of 4"
    ensures MarkerLen(s[6..]) == 11
  {
    SingleDigitMarker(s[6..]);
  }

  /** Deleting a marker can join the text around it into a new marker, which stays. */
  lemma CleanPageMayCreateMarker()
    ensures CleanPage("Page 1Page 2 of 3 of 4") == "Page 1 of 4"
  {
    var s := "Page 1Page 2 of 3 of 4";
    JoinedMarkersSpacing(s);
    CleanPageOfCollapsedText(s);
    MarkerInsideMarker(s);
    PageOneOfFour("Page 1 of 4");
  }

  // ------------------------------------------------------------- records

  /** `rec.get("text", "")` when it is a string; `None` when there is no `"text"` key. */
  function RecordText(rec: Json): Option<Json> {
    if rec.JObject? then Lookup(rec.fields, "text") else None
  }

  /** The line makes `process_file` raise: it is not an object, or its text is not a string. */
  predicate Fails(rec: Json) {
    !rec.JObject? || (RecordText(rec).Some? && !RecordText(rec).value.JString?)
  }

  /** `text.strip()` is non-empty: the record is kept. */
  predicate HasText(rec: Json) {
    RecordText(rec).Some? && RecordText(rec).value.JString? && Strip(RecordText(rec).value.str) != []
  }

  /** `fields` with the value of `key` replaced by `v`; the order of the keys is kept. */
  function SetField(fields: seq<(string, Json)>, key: string, v: Json): (r: seq<(string, Json)>)
    ensures |r| == |fields|
    ensures forall i :: 0 <= i < |r| ==> r[i].0 == fields[i].0
    ensures forall i :: 0 <= i < |r| && fields[i].0 != key ==> r[i] == fields[i]
    ensures forall i :: 0 <= i < |r| && fields[i].0 == key ==> r[i].1 == v
  {
    seq(|fields|, i requires 0 <= i < |fields| => if fields[i].0 == key then (key, v) else fields[i])
  }

  /** `rec["text"] = clean_text(text)`. */
  function CleanRecord(rec: Json): (r: Json)
    requires HasText(rec)
    ensures r.JObject? && |r.fields| == |rec.fields|
    ensures RecordText(r) == Some(JString(CleanPage(RecordText(rec).value.str)))
    ensures forall i :: 0 <= i < |r.fields| && rec.fields[i].0 != "text" ==> r.fields[i] == rec.fields[i]
  {
    var r := JObject(SetField(rec.fields, "text", JString(CleanPage(RecordText(rec).value.str))));
    SetFieldLookup(rec.fields, "text", JString(CleanPage(RecordText(rec).value.str)));
    r
  }

  lemma {:induction false} SetFieldLookup(fields: seq<(string, Json)>, key: string, v: Json)
    requires Lookup(fields, key).Some?
    ensures Lookup(SetField(fields, key, v), key) == Some(v)
    decreases |fields|
  {
    var r := SetField(fields, key, v);
    var n := |fields|;
    if fields[n - 1].0 != key {
      var init := fields[..n - 1];
      SetFieldLookup(init, key, v);
      assert r[..n - 1] == SetField(init, key, v);
      assert r[n - 1].0 != key;
    } else {
      assert r[n - 1] == (key, v);
    }
  }

  /** The reference result of `process_file`: the kept records, cleaned, in input order. */
  function Processed(lines: seq<Json>): (r: seq<Json>)
    requires forall i :: 0 <= i < |lines| ==> !Fails(lines[i])
    ensures |r| <= |lines|
    ensures forall j :: 0 <= j < |r| ==> IsTextRecord(r[j])
    decreases |lines|
  {
    if |lines| == 0 then []
    else
      var init := Processed(lines[..|lines| - 1]);
      var last := lines[|lines| - 1];
      if HasText(last) then
        var c := CleanRecord(last);
        AppendTextRecord(init, c);
        init + [c]
      else init
  }

  /** An object whose `"text"` entry is a string. */
  predicate IsTextRecord(rec: Json) {
    rec.JObject? && RecordText(rec).Some? && RecordText(rec).value.JString?
  }

  lemma AppendTextRecord(s: seq<Json>, x: Json)
    requires forall j :: 0 <= j < |s| ==> IsTextRecord(s[j])
    requires IsTextRecord(x)
    ensures forall j :: 0 <= j < |s| + 1 ==> IsTextRecord((s + [x])[j])
  {
    assert forall j :: 0 <= j < |s| ==> (s + [x])[j] == s[j];
  }

  /** How many input records `process_file` keeps. */
  function KeptCount(lines: seq<Json>): nat {
    if |lines| == 0 then 0 else KeptCount(lines[..|lines| - 1]) + (if HasText(lines[|lines| - 1]) then 1 else 0)
  }

  /**
   `process_file` over the parsed lines: `None` when a line makes it raise,
   else the records whose text is not blank, each with its text cleaned.
   */
  method ProcessFile(lines: seq<Json>) returns (out: Option<seq<Json>>)
    ensures out.None? <==> exists i :: 0 <= i < |lines| && Fails(lines[i])
    ensures out.Some? ==> out.value == Processed(lines) && |out.value| == KeptCount(lines)
  {
    var records: seq<Json> := [];
    for i := 0 to |lines|
      invariant forall j :: 0 <= j < i ==> !Fails(lines[j])
      invariant records == Processed(lines[..i]) && |records| == KeptCount(lines[..i])
    {
      var rec := lines[i];
      if Fails(rec) {
        return None;
      }
      ProcessedStep(lines, i);
      if HasText(rec) {
        records := records + [CleanRecord(rec)];
      }
    }
    assert lines[..|lines|] == lines;
    out := Some(records);
  }

  /** Processing one more line appends its cleaned record when it has text. */
  lemma ProcessedStep(lines: seq<Json>, i: int)
    requires 0 <= i < |lines| && forall j :: 0 <= j <= i ==> !Fails(lines[j])
    ensures Processed(lines[..i + 1]) ==
              Processed(lines[..i]) + (if HasText(lines[i]) then [CleanRecord(lines[i])] else [])
    ensures KeptCount(lines[..i + 1]) == KeptCount(lines[..i]) + (if HasText(lines[i]) then 1 else 0)
  {
    var p := lines[..i + 1];
    assert p[..i] == lines[..i] && p[i] == lines[i];
  }

  lemma PageThreeOfNine(s: string)
    requires s == "Page 3 of 9"
    ensures OnlyPlainSpaces(s) && NoDoubleSpace(s)
    ensures Strip(s) == s
    ensures MarkerLen(s) == |s| && s[|s|..] == []
  {
    assert !IsSpace(s[0]);
    assert StripLeft(s) == s;
    assert !IsSpace(s[|s| - 1]);
    SingleDigitMarker(s);
  }


  /** A page whose only text is a marker cleans to the empty text. */
  lemma MarkerOnlyPage(s: string)
    requires s == "Page 3 of 9"
    ensures Strip(s) == s && CleanPage(s) == []
  {
    PageThreeOfNine(s);
    CleanPageOfCollapsedText(s);
    RemoveMarkersDropsMarker(s);
    assert RemoveMarkers(s[|s|..]) == [];
    assert Strip([]) == [];
  }

  /** A record whose only text is a page marker passes the blank test and is kept with empty text. */
  lemma MarkerOnlyRecordIsKept(rec: Json)
    requires rec == JObject([("page", JNumber("3")), ("text", JString("Page 3 of 9"))])
    ensures HasText(rec)
    ensures Processed([rec]) == [JObject([("page", JNumber("3")), ("text", JString(""))])]
  {
    var s := "Page 3 of 9";
    MarkerOnlyPage(s);
    BlankAfterCleaningIsKept(rec, JNumber("3"), s);
  }

  /** A page record whose text is not blank but cleans to nothing is kept, with empty text. */
  lemma BlankAfterCleaningIsKept(rec: Json, page: Json, s: string)
    requires rec == JObject([("page", page), ("text", JString(s))])
    requires Strip(s) != [] && CleanPage(s) == []
    ensures HasText(rec)
    ensures Processed([rec]) == [JObject([("page", page), ("text", JString(""))])]
  {
    assert "page"[0] != "text"[0];
    LookupSecond("page", page, "text", JString(s));
    SetSecond("page", page, "text", JString(s), JString(""));
    assert [rec][..0] == [];
  }

  lemma SetSecond(k0: string, v0: Json, key: string, v: Json, w: Json)
    requires k0 != key
    ensures SetField([(k0, v0), (key, v)], key, w) == [(k0, v0), (key, w)]
  {
  }

  /** The value of the second key of a two-key object, when the first key differs from it. */
  lemma LookupSecond(k0: string, v0: Json, key: string, v: Json)
    requires k0 != key
    ensures Lookup([(k0, v0), (key, v)], key) == Some(v)
  {
    assert [(k0, v0), (key, v)][1..] == [(key, v)];
  }
}
