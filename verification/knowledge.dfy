/**
 The keyword retriever of `gentaxai/knowledge.py`: a whitespace cleaner, a
 sliding word-window chunker, an alphanumeric tokenizer, a length-damped
 term-frequency score, the per-document chunk records, and `retrieve`, which
 ranks the corpus for a query. The corpus is an explicit argument instead of
 the process-wide cache.
 */
module Knowledge {
  import opened Wrappers
  import opened Text
  import opened Normalize
  import opened Ranking
  import opened JsonValue

  /** The window `load_kb` uses. */
  const KbMaxLen := 1200
  const KbOverlap := 160
  /** A chunk of this many tokens has its raw hits halved. */
  const DampingLength: real := 5000.0

  // ---------------------------------------------------------------- cleaning

  /** `_clean`: the three replacements, the whitespace collapse and the strip. */
  function Clean(text: string): (r: string)
    ensures forall i :: 0 <= i < |r| ==> r[i] != '\U{A0}' && r[i] != '\n' && r[i] != '\t'
    ensures Canonical(r)
    ensures Words(r) == Words(text)
    ensures r == Join(Words(text), " ")
  {
    CleanPipelineIsJoinedWords(text);
    Strip(Collapse(ReplaceChar(ReplaceChar(ReplaceChar(text, '\U{A0}'), '\n'), '\t'), false))
  }

  lemma CleanIsIdempotent(text: string)
    ensures Clean(Clean(text)) == Clean(text)
  {
  }

  /** Cleaning only touches whitespace: the other characters survive, in order. */
  lemma CleanKeepsVisibleChars(text: string)
    ensures Filter(Clean(text), IsWordChar) == Filter(text, IsWordChar)
  {
    ConcatRuns(Clean(text), IsWordChar);
    ConcatRuns(text, IsWordChar);
  }

  // -------------------------------------------------------------- tokenizing

  predicate IsTokenChar(c: char) {
    ('a' <= c <= 'z') || ('0' <= c <= '9')
  }

  /** `_tokenize`: the maximal runs of `[a-z0-9]` in the lower-cased text. */
  function Tokenize(s: string): (ts: seq<string>)
    ensures forall k :: 0 <= k < |ts| ==> IsRun(ts[k], IsTokenChar)
    ensures Concat(ts) == Filter(Lower(s), IsTokenChar)
    ensures |s| == 0 ==> ts == []
  {
    ConcatRuns(Lower(s), IsTokenChar);
    Runs(Lower(s), IsTokenChar)
  }

  lemma JoinKeepsClass(ws: seq<string>, sep: string, p: char -> bool)
    requires forall k, i :: 0 <= k < |ws| && 0 <= i < |ws[k]| ==> p(ws[k][i])
    requires forall i :: 0 <= i < |sep| ==> p(sep[i])
    ensures forall i :: 0 <= i < |Join(ws, sep)| ==> p(Join(ws, sep)[i])
    decreases |ws|
  {
    if |ws| > 1 {
      JoinKeepsClass(ws[1..], sep, p);
      var rest := Join(ws[1..], sep);
      var t := ws[0] + sep + rest;
      forall i | 0 <= i < |t|
        ensures p(t[i])
      {
        if i < |ws[0]| {
          assert t[i] == ws[0][i];
        } else if i < |ws[0]| + |sep| {
          assert t[i] == sep[i - |ws[0]|];
        } else {
          assert t[i] == rest[i - |ws[0]| - |sep|];
        }
      }
    }
  }

  predicate IsLowerOrSpace(c: char) {
    !('A' <= c <= 'Z')
  }

  /** Tokens joined by spaces tokenize back to themselves: the runs are maximal. */
  lemma TokenizeJoined(ts: seq<string>)
    requires forall k :: 0 <= k < |ts| ==> IsRun(ts[k], IsTokenChar)
    ensures Tokenize(Join(ts, " ")) == ts
  {
    JoinedTokensAreLower(ts);
    JoinedTokensAreRuns(ts);
  }

  lemma JoinedTokensAreRuns(ts: seq<string>)
    requires forall k :: 0 <= k < |ts| ==> IsRun(ts[k], IsTokenChar)
    ensures Runs(Join(ts, " "), IsTokenChar) == ts
  {
    assert !IsTokenChar(' ');
    RunsOfJoin(ts, " ", IsTokenChar);
  }

  lemma JoinedTokensAreLower(ts: seq<string>)
    requires forall k :: 0 <= k < |ts| ==> IsRun(ts[k], IsTokenChar)
    ensures Lower(Join(ts, " ")) == Join(ts, " ")
  {
    var t := Join(ts, " ");
    forall k, i | 0 <= k < |ts| && 0 <= i < |ts[k]|
      ensures IsLowerOrSpace(ts[k][i])
    {
      assert IsRun(ts[k], IsTokenChar);
      assert IsTokenChar(ts[k][i]);
    }
    JoinKeepsClass(ts, " ", IsLowerOrSpace);
    forall i | 0 <= i < |t|
      ensures Lower(t)[i] == t[i]
    {
      assert IsLowerOrSpace(t[i]);
    }
  }

  /**
   The token runs are maximal: a character that is no token character after
   lower-casing ends one token, and nothing joins the text on either side of it.
   */
  lemma TokenizeSplitsAtSeparator(x: string, c: char, y: string)
    requires !IsTokenChar(LowerChar(c))
    ensures Tokenize(x + [c] + y) == Tokenize(x) + Tokenize(y)
  {
    assert Lower(x + [c] + y) == Lower(x) + [LowerChar(c)] + Lower(y);
    RunsSplitAt(Lower(x), LowerChar(c), Lower(y), IsTokenChar);
  }

  /** Text made only of token characters, in any case, is one token: its lower-cased form. */
  lemma TokenizeRun(w: string)
    requires |w| > 0 && forall i :: 0 <= i < |w| ==> IsTokenChar(LowerChar(w[i]))
    ensures Tokenize(w) == [Lower(w)]
  {
    RunsOfRunThen(Lower(w), [], IsTokenChar);
    assert Lower(w) + [] == Lower(w);
  }

  /** Punctuation separates tokens: `GST-rate` gives two tokens, not one. */
  lemma TokenizeHyphenated(s: string)
    requires s == "GST-rate"
    ensures Tokenize(s) == ["gst", "rate"]
  {
    HyphenatedPieces(s);
    TokenizeTwoRuns(s[..3], s[3], s[4..]);
  }

  lemma HyphenatedPieces(s: string)
    requires s == "GST-rate"
    ensures s == s[..3] + [s[3]] + s[4..] && !IsTokenChar(LowerChar(s[3]))
    ensures forall i :: 0 <= i < |s[..3]| ==> IsTokenChar(LowerChar(s[..3][i]))
    ensures forall i :: 0 <= i < |s[4..]| ==> IsTokenChar(LowerChar(s[4..][i]))
    ensures [Lower(s[..3]), Lower(s[4..])] == ["gst", "rate"]
  {
    var x, y := Lower(s[..3]), Lower(s[4..]);
    assert x[0] == 'g' && x[1] == 's' && x[2] == 't';
    assert y[0] == 'r' && y[1] == 'a' && y[2] == 't' && y[3] == 'e';
    assert x == "gst" && y == "rate";
    assert s[..3] == "GST" && s[4..] == "rate" && s[3] == '-';
  }

  /** Two runs of token characters around a separator are two tokens. */
  lemma TokenizeTwoRuns(x: string, c: char, y: string)
    requires !IsTokenChar(LowerChar(c))
    requires |x| > 0 && forall i :: 0 <= i < |x| ==> IsTokenChar(LowerChar(x[i]))
    requires |y| > 0 && forall i :: 0 <= i < |y| ==> IsTokenChar(LowerChar(y[i]))
    ensures Tokenize(x + [c] + y) == [Lower(x), Lower(y)]
  {
    TokenizeSplitsAtSeparator(x, c, y);
    TokenizeRun(x);
    TokenizeRun(y);
  }

  // ---------------------------------------------------------------- chunking

  /** The first word of window `j`: each window starts `maxLen - overlap` words after the previous one. */
  function WindowStart(j: int, maxLen: int, overlap: int): int {
    if j <= 0 then 0 else WindowStart(j - 1, maxLen, overlap) + (maxLen - overlap)
  }

  /** Window `j` starts at word `j * (max_len - overlap)`. */
  lemma {:induction false} WindowStartIsMultiple(j: nat, maxLen: int, overlap: int)
    ensures WindowStart(j, maxLen, overlap) == j * (maxLen - overlap)
  {
    if j > 0 {
      WindowStartIsMultiple(j - 1, maxLen, overlap);
      assert (j - 1) * (maxLen - overlap) + (maxLen - overlap) == j * (maxLen - overlap);
    }
  }

  /** One past the last word of window `j` among `n` words. */
  function WindowEnd(j: int, n: int, maxLen: int, overlap: int): int {
    Min(WindowStart(j, maxLen, overlap) + maxLen, n)
  }

  /** `chunk` is window `j` of `words`, joined by single spaces. */
  predicate IsWindow(words: seq<string>, j: int, maxLen: int, overlap: int, chunk: string) {
    var s := WindowStart(j, maxLen, overlap);
    var e := WindowEnd(j, |words|, maxLen, overlap);
    0 <= s < e <= |words| && chunk == Join(words[s..e], " ")
  }

  /** Word `w` lies in one of the first `count` windows. */
  predicate Covered(count: int, w: int, n: int, maxLen: int, overlap: int) {
    exists j :: 0 <= j < count && WindowStart(j, maxLen, overlap) <= w < WindowEnd(j, n, maxLen, overlap)
  }

  /**
   `_split_into_chunks`. The source loops forever unless every step moves
   forward, i.e. unless `overlap < max_len`; a non-positive `max_len` would
   make Python slice from the end of the list.
   */
  method SplitIntoChunks(text: string, maxLen: int, overlap: int) returns (chunks: seq<string>)
    requires 1 <= maxLen && overlap < maxLen
    ensures |chunks| == 0 <==> |Words(text)| == 0
    ensures forall j :: 0 <= j < |chunks| ==> IsWindow(Words(text), j, maxLen, overlap, chunks[j])
    ensures forall j :: 0 <= j < |chunks| - 1 ==> WindowEnd(j, |Words(text)|, maxLen, overlap) < |Words(text)|
    ensures 0 <= overlap && |chunks| > 0 ==> WindowEnd(|chunks| - 1, |Words(text)|, maxLen, overlap) == |Words(text)|
    ensures 0 < |Words(text)| <= maxLen ==> chunks == [Join(Words(text), " ")]
    ensures 0 <= overlap ==> forall w :: 0 <= w < |Words(text)| ==> Covered(|chunks|, w, |Words(text)|, maxLen, overlap)
    ensures forall j :: 0 <= j < |chunks| ==> 1 <= |Words(chunks[j])| <= maxLen
  {
    var words := Words(text);
    var n := |words|;
    chunks := [];
    var i := 0;
    while i < n
      invariant 0 <= i
      invariant i == WindowStart(|chunks|, maxLen, overlap)
      invariant forall j :: 0 <= j < |chunks| ==> IsWindow(words, j, maxLen, overlap, chunks[j])
      invariant forall j :: 0 <= j < |chunks| ==> WindowEnd(j, n, maxLen, overlap) < n
      invariant 0 <= overlap && |chunks| > 0 ==> i < n
      invariant 0 <= overlap ==> forall w :: 0 <= w < i ==> Covered(|chunks|, w, n, maxLen, overlap)
      invariant n <= maxLen ==> |chunks| == 0
      decreases n - i
    {
      var end := Min(i + maxLen, n);
      ghost var j := |chunks|;
      ghost var j1 := j + 1;
      assert WindowEnd(j, n, maxLen, overlap) == end;
      if 0 <= overlap {
        CoveredByNextWindow(j, j1, i, end, n, maxLen, overlap);
      }
      if n <= maxLen {
        assert i == 0 && end == n && words[i..end] == words;
      }
      chunks := chunks + [Join(words[i..end], " ")];
      if end == n {
        break;
      }
      assert WindowStart(j1, maxLen, overlap) == i + (maxLen - overlap);
      i := Max(0, end - overlap);
    }
    WindowsHaveWords(text, chunks, maxLen, overlap);
  }

  /** Adding window `j`, which starts at `i`, covers every word before its end. */
  lemma CoveredByNextWindow(j: int, j1: int, i: int, end: int, n: int, maxLen: int, overlap: int)
    requires 0 <= j && j1 == j + 1
    requires i == WindowStart(j, maxLen, overlap) && end == WindowEnd(j, n, maxLen, overlap)
    requires forall w :: 0 <= w < i ==> Covered(j, w, n, maxLen, overlap)
    ensures forall w :: 0 <= w < end ==> Covered(j1, w, n, maxLen, overlap)
  {
    forall w | 0 <= w < end
      ensures Covered(j1, w, n, maxLen, overlap)
    {
      if w >= i {
        assert 0 <= j < j1 && WindowStart(j, maxLen, overlap) <= w < WindowEnd(j, n, maxLen, overlap);
      } else {
        assert Covered(j, w, n, maxLen, overlap);
        var k :| 0 <= k < j && WindowStart(k, maxLen, overlap) <= w < WindowEnd(k, n, maxLen, overlap);
        assert 0 <= k < j1;
      }
    }
  }

  /** Every window of the words of `text` holds between one and `maxLen` words. */
  lemma WindowsHaveWords(text: string, chunks: seq<string>, maxLen: int, overlap: int)
    requires forall j :: 0 <= j < |chunks| ==> IsWindow(Words(text), j, maxLen, overlap, chunks[j])
    requires 1 <= maxLen
    ensures forall j :: 0 <= j < |chunks| ==> 1 <= |Words(chunks[j])| <= maxLen
  {
    var words := Words(text);
    forall j | 0 <= j < |chunks|
      ensures 1 <= |Words(chunks[j])| <= maxLen
    {
      assert IsWindow(words, j, maxLen, overlap, chunks[j]);
      var s := WindowStart(j, maxLen, overlap);
      var e := WindowEnd(j, |words|, maxLen, overlap);
      RunsOfJoin(words[s..e], " ", IsWordChar);
    }
  }

  // ----------------------------------------------------------------- scoring

  /** `doc_freq.get(t, 0)`. */
  function Freq(m: map<string, int>, t: string): int {
    if t in m then m[t] else 0
  }

  /** The `doc_freq` dictionary `_score` builds: each token mapped to its count. */
  function DocFreq(d: seq<string>): (m: map<string, int>)
    ensures forall t :: t in m <==> t in d
    ensures forall t :: Freq(m, t) == multiset(d)[t]
    decreases |d|
  {
    if |d| == 0 then map[]
    else
      var init := d[..|d| - 1];
      var t := d[|d| - 1];
      var m := DocFreq(init);
      assert d == init + [t];
      m[t := Freq(m, t) + 1]
  }

  /** The running sum of `_score`: each query token, repeats included, adds its frequency. */
  function QueryHits(q: seq<string>, m: map<string, int>): int {
    if |q| == 0 then 0 else Freq(m, q[0]) + QueryHits(q[1..], m)
  }

  /** The reference count: how often each query token occurs in the document, summed over the query. */
  function Occurrences(q: seq<string>, d: seq<string>): nat {
    if |q| == 0 then 0 else multiset(d)[q[0]] + Occurrences(q[1..], d)
  }

  lemma {:induction false} QueryHitsCountOccurrences(q: seq<string>, d: seq<string>)
    ensures QueryHits(q, DocFreq(d)) == Occurrences(q, d)
    decreases |q|
  {
    if |q| > 0 {
      QueryHitsCountOccurrences(q[1..], d);
    }
  }

  lemma {:induction false} OccurrencesPositive(q: seq<string>, d: seq<string>)
    ensures Occurrences(q, d) > 0 <==> exists i :: 0 <= i < |q| && q[i] in d
    decreases |q|
  {
    if |q| > 0 {
      OccurrencesPositive(q[1..], d);
      if multiset(d)[q[0]] == 0 {
        assert q[0] !in d;
        assert (exists i :: 0 <= i < |q| && q[i] in d) <==> (exists i :: 0 <= i < |q| - 1 && q[1..][i] in d) by {
          forall i | 0 < i < |q|
            ensures q[i] == q[1..][i - 1]
          {
          }
        }
      } else {
        assert q[0] in d;
      }
    }
  }

  /** `hits / (1 + n / 5000)`: the length damping of `_score`. */
  function Damp(hits: int, n: int): (r: real)
    requires 0 <= hits && 0 <= n
    ensures 0.0 <= r <= hits as real
    ensures r > 0.0 <==> hits > 0
  {
    var denom := 1.0 + (n as real) / DampingLength;
    assert denom >= 1.0;
    (hits as real) / denom
  }

  /** `_score`: the query's hits in the document, damped by the document's length. */
  function Score(q: seq<string>, d: seq<string>): (r: real)
    ensures r >= 0.0
    ensures |d| == 0 ==> r == 0.0
  {
    if |d| == 0 then 0.0
    else
      QueryHitsCountOccurrences(q, d);
      Damp(QueryHits(q, DocFreq(d)), |d|)
  }

  /**
   The score is the number of occurrences of the query tokens in the
   document (a repeated query token counts again), damped by the length, and
   it is positive exactly when some query token occurs in the document.
   */
  lemma ScoreCountsOccurrences(q: seq<string>, d: seq<string>)
    ensures |d| > 0 ==> Score(q, d) == (Occurrences(q, d) as real) / (1.0 + (|d| as real) / DampingLength)
    ensures Score(q, d) > 0.0 <==> exists i :: 0 <= i < |q| && q[i] in d
  {
    if |d| > 0 {
      QueryHitsCountOccurrences(q, d);
    }
    OccurrencesPositive(q, d);
  }

  // ---------------------------------------------------------- corpus records

  /** One retrievable record of `load_kb`. */
  datatype Chunk = Chunk(source: string, chunkId: int, text: string, tokens: seq<string>)

  /** `fname.lower().endswith(".json")`. */
  predicate IsJsonName(name: string) {
    |name| >= 5 && Lower(name)[|name| - 5..] == ".json"
  }

  /**
   The cleaned text `load_kb` chunks for one file, or `None` when the file
   is skipped. A file that is not JSON is read as `{"text": raw}`.
   */
  function CorpusText(content: FileContent, pr: Printers): (r: Option<string>)
    ensures r.None? <==> content.Undecodable?
    ensures r.Some? ==> Canonical(r.value)
    ensures content.Unparsable? ==> r == Some(Join(Words(content.raw), " "))
  {
    match content
    case Undecodable => None
    case Unparsable(raw) => Some(Clean(raw))
    case Parsed(v) =>
      match TextField(v)
      case Some(t) => Some(Clean(PyStr(t, pr)))
      case None => Some(Clean(Clean(pr.dumps(v))))
  }

  /**
   `c` is how many windows `_split_into_chunks` emits for `n` words: none for
   no words, otherwise every window up to the first one that reaches the last word.
   */
  predicate IsWindowCount(n: int, c: int, maxLen: int, overlap: int) {
    if n == 0 then c == 0
    else
      && 1 <= c
      && WindowEnd(c - 1, n, maxLen, overlap) == n
      && forall j :: 0 <= j < c - 1 ==> WindowEnd(j, n, maxLen, overlap) < n
  }

  /** `r` is record `j` of the document `source` whose cleaned text is `text`. */
  predicate IsRecordOf(source: string, text: string, j: int, r: Chunk) {
    && r.source == source
    && r.chunkId == j
    && IsWindow(Words(text), j, KbMaxLen, KbOverlap, r.text)
    && r.tokens == Tokenize(r.text)
  }

  /** `records` are all the records `load_kb` makes for one document, in order. */
  predicate IsDocumentRecords(source: string, text: string, records: seq<Chunk>) {
    && IsWindowCount(|Words(text)|, |records|, KbMaxLen, KbOverlap)
    && forall j :: 0 <= j < |records| ==> IsRecordOf(source, text, j, records[j])
  }

  /** The records of one document: its windows, numbered from 0, each with its tokens. */
  method DocumentChunks(source: string, text: string) returns (records: seq<Chunk>)
    ensures |records| == 0 <==> |Words(text)| == 0
    ensures forall j :: 0 <= j < |records| ==>
              && records[j].source == source
              && records[j].chunkId == j
              && records[j].tokens == Tokenize(records[j].text)
              && IsWindow(Words(text), j, KbMaxLen, KbOverlap, records[j].text)
              && 1 <= |Words(records[j].text)| <= KbMaxLen
    ensures |records| > 0 ==> WindowEnd(|records| - 1, |Words(text)|, KbMaxLen, KbOverlap) == |Words(text)|
    ensures IsDocumentRecords(source, text, records)
  {
    var chunks := SplitIntoChunks(text, KbMaxLen, KbOverlap);
    records := seq(|chunks|, j requires 0 <= j < |chunks| => Chunk(source, j, chunks[j], Tokenize(chunks[j])));
    RecordsOfWindows(source, text, chunks, records);
  }

  /** Numbering the windows of a document and tokenizing each gives its records. */
  lemma RecordsOfWindows(source: string, text: string, chunks: seq<string>, records: seq<Chunk>)
    requires |chunks| == 0 <==> |Words(text)| == 0
    requires forall j :: 0 <= j < |chunks| ==> IsWindow(Words(text), j, KbMaxLen, KbOverlap, chunks[j])
    requires forall j :: 0 <= j < |chunks| - 1 ==> WindowEnd(j, |Words(text)|, KbMaxLen, KbOverlap) < |Words(text)|
    requires |chunks| > 0 ==> WindowEnd(|chunks| - 1, |Words(text)|, KbMaxLen, KbOverlap) == |Words(text)|
    requires forall j :: 0 <= j < |chunks| ==> 1 <= |Words(chunks[j])| <= KbMaxLen
    requires |records| == |chunks|
    requires forall j :: 0 <= j < |chunks| ==> records[j] == Chunk(source, j, chunks[j], Tokenize(chunks[j]))
    ensures IsDocumentRecords(source, text, records)
    ensures forall j :: 0 <= j < |records| ==> 1 <= |Words(records[j].text)| <= KbMaxLen
  {
    forall j | 0 <= j < |records|
      ensures IsRecordOf(source, text, j, records[j]) && 1 <= |Words(records[j].text)| <= KbMaxLen
    {
      assert records[j].text == chunks[j];
    }
  }

  /** Only one count of windows stops at the first window that reaches the last word. */
  lemma WindowCountIsUnique(n: int, c1: int, c2: int, maxLen: int, overlap: int)
    requires IsWindowCount(n, c1, maxLen, overlap) && IsWindowCount(n, c2, maxLen, overlap)
    ensures c1 == c2
  {
    if n != 0 {
      assert WindowEnd(c1 - 1, n, maxLen, overlap) == n;
      assert WindowEnd(c2 - 1, n, maxLen, overlap) == n;
    }
  }

  /** A document has one list of records: the window count and every record are determined. */
  lemma {:induction false} DocumentRecordsAreUnique(source: string, text: string, a: seq<Chunk>, b: seq<Chunk>)
    requires IsDocumentRecords(source, text, a) && IsDocumentRecords(source, text, b)
    ensures a == b
  {
    WindowCountIsUnique(|Words(text)|, |a|, |b|, KbMaxLen, KbOverlap);
    forall j | 0 <= j < |a|
      ensures a[j] == b[j]
    {
      assert IsRecordOf(source, text, j, a[j]) && IsRecordOf(source, text, j, b[j]);
    }
  }

  /** The records `load_kb` appends for one listed file: none unless it is a `.json` file that decodes. */
  predicate IsFileRecords(file: (string, FileContent), pr: Printers, records: seq<Chunk>) {
    var text := CorpusText(file.1, pr);
    if IsJsonName(file.0) && text.Some? then IsDocumentRecords(file.0, text.value, records)
    else records == []
  }

  lemma FileRecordsAreUnique(file: (string, FileContent), pr: Printers, a: seq<Chunk>, b: seq<Chunk>)
    requires IsFileRecords(file, pr, a) && IsFileRecords(file, pr, b)
    ensures a == b
  {
    var text := CorpusText(file.1, pr);
    if IsJsonName(file.0) && text.Some? {
      DocumentRecordsAreUnique(file.0, text.value, a, b);
    }
  }

  /** `kb` is the records of every listed file, concatenated in listing order. */
  predicate IsKbOf(files: seq<(string, FileContent)>, pr: Printers, kb: seq<Chunk>)
    decreases |files|
  {
    if |files| == 0 then kb == []
    else
      exists k :: 0 <= k <= |kb|
        && IsKbOf(files[..|files| - 1], pr, kb[..k])
        && IsFileRecords(files[|files| - 1], pr, kb[k..])
  }

  /** The listed files determine the records: `IsKbOf` describes exactly one list. */
  lemma {:induction false} KbIsUnique(files: seq<(string, FileContent)>, pr: Printers, a: seq<Chunk>, b: seq<Chunk>)
    requires IsKbOf(files, pr, a) && IsKbOf(files, pr, b)
    ensures a == b
    decreases |files|
  {
    if |files| > 0 {
      var init, last := files[..|files| - 1], files[|files| - 1];
      var ka :| 0 <= ka <= |a| && IsKbOf(init, pr, a[..ka]) && IsFileRecords(last, pr, a[ka..]);
      var kb :| 0 <= kb <= |b| && IsKbOf(init, pr, b[..kb]) && IsFileRecords(last, pr, b[kb..]);
      KbIsUnique(init, pr, a[..ka], b[..kb]);
      FileRecordsAreUnique(last, pr, a[ka..], b[kb..]);
      TakeDrop(a, ka);
      TakeDrop(b, kb);
    }
  }

  lemma TakeDrop<T>(s: seq<T>, k: int)
    requires 0 <= k <= |s|
    ensures s[..k] + s[k..] == s
  {
  }

  /**
   Every listed `.json` file that decodes to text with words contributes its
   first window as a record numbered 0.
   */
  lemma {:induction false} KbHasEveryDocument(files: seq<(string, FileContent)>, pr: Printers, kb: seq<Chunk>, g: int)
    requires IsKbOf(files, pr, kb)
    requires 0 <= g < |files| && IsJsonName(files[g].0)
    requires CorpusText(files[g].1, pr).Some? && |Words(CorpusText(files[g].1, pr).value)| > 0
    ensures exists i :: 0 <= i < |kb| && IsRecordOf(files[g].0, CorpusText(files[g].1, pr).value, 0, kb[i])
    decreases |files|
  {
    var n := |files|;
    var init := files[..n - 1];
    var k := LastFileSplit(files, pr, kb);
    if g == n - 1 {
      FirstRecordOfFile(files[g], pr, kb[k..]);
      assert kb[k..][0] == kb[k];
    } else {
      assert init[g] == files[g];
      KbHasEveryDocument(init, pr, kb[..k], g);
      FirstRecordInPrefix(kb, k, files[g].0, CorpusText(files[g].1, pr).value);
    }
  }

  /** A first window found in a prefix of `kb` is in `kb`. */
  lemma FirstRecordInPrefix(kb: seq<Chunk>, k: int, source: string, text: string)
    requires 0 <= k <= |kb|
    requires exists i :: 0 <= i < |kb[..k]| && IsRecordOf(source, text, 0, kb[..k][i])
    ensures exists i :: 0 <= i < |kb| && IsRecordOf(source, text, 0, kb[i])
  {
    var i :| 0 <= i < |kb[..k]| && IsRecordOf(source, text, 0, kb[..k][i]);
    assert kb[..k][i] == kb[i];
  }

  /** The records of a `.json` file whose text has words start with its first window. */
  lemma FirstRecordOfFile(file: (string, FileContent), pr: Printers, recs: seq<Chunk>)
    requires IsFileRecords(file, pr, recs) && IsJsonName(file.0)
    requires CorpusText(file.1, pr).Some? && |Words(CorpusText(file.1, pr).value)| > 0
    ensures |recs| > 0 && IsRecordOf(file.0, CorpusText(file.1, pr).value, 0, recs[0])
  {
    assert IsDocumentRecords(file.0, CorpusText(file.1, pr).value, recs);
  }

  /** Every record is window `chunkId` of the text of a listed `.json` file named by its source. */
  lemma KbRecordsComeFromFiles(files: seq<(string, FileContent)>, pr: Printers, kb: seq<Chunk>, i: int)
    requires IsKbOf(files, pr, kb) && 0 <= i < |kb|
    ensures exists g :: 0 <= g < |files| && RecordFromFile(files[g], pr, kb[i])
  {
    var g := FileOfRecord(files, pr, kb, i);
  }

  /** The position of the listed file that record `i` comes from. */
  lemma {:induction false} FileOfRecord(files: seq<(string, FileContent)>, pr: Printers, kb: seq<Chunk>, i: int) returns (g: int)
    requires IsKbOf(files, pr, kb) && 0 <= i < |kb|
    ensures 0 <= g < |files| && RecordFromFile(files[g], pr, kb[i])
    decreases |files|
  {
    var n := |files|;
    var init := files[..n - 1];
    var k := LastFileSplit(files, pr, kb);
    if i < k {
      g := FileOfRecord(init, pr, kb[..k], i);
      RecordOfEarlierFile(files, init, pr, kb, k, i, g);
    } else {
      RecordOfLastFile(files, pr, kb, k, i);
      g := n - 1;
    }
  }

  /** A record of an earlier file, found in a prefix of `kb`, is that file's record in `kb`. */
  lemma RecordOfEarlierFile(files: seq<(string, FileContent)>, init: seq<(string, FileContent)>, pr: Printers, kb: seq<Chunk>, k: int, i: int, g: int)
    requires 0 < |files| && init == files[..|files| - 1] && 0 <= i < k <= |kb|
    requires 0 <= g < |init| && RecordFromFile(init[g], pr, kb[..k][i])
    ensures RecordFromFile(files[g], pr, kb[i])
  {
    assert init[g] == files[g] && kb[..k][i] == kb[i];
  }

  /** A record past the split point is one of the last file's records. */
  lemma RecordOfLastFile(files: seq<(string, FileContent)>, pr: Printers, kb: seq<Chunk>, k: int, i: int)
    requires 0 < |files| && 0 <= k <= i < |kb| && IsFileRecords(files[|files| - 1], pr, kb[k..])
    ensures RecordFromFile(files[|files| - 1], pr, kb[i])
  {
    RecordOfFileRecords(files[|files| - 1], pr, kb[k..], i - k);
    assert kb[k..][i - k] == kb[i];
  }

  /** Where the records of the last listed file start. */
  lemma LastFileSplit(files: seq<(string, FileContent)>, pr: Printers, kb: seq<Chunk>) returns (k: int)
    requires IsKbOf(files, pr, kb) && |files| > 0
    ensures 0 <= k <= |kb| && IsKbOf(files[..|files| - 1], pr, kb[..k]) && IsFileRecords(files[|files| - 1], pr, kb[k..])
  {
    k :| 0 <= k <= |kb| && IsKbOf(files[..|files| - 1], pr, kb[..k]) && IsFileRecords(files[|files| - 1], pr, kb[k..]);
  }

  /** Each of the records of one file is one of its windows. */
  lemma RecordOfFileRecords(file: (string, FileContent), pr: Printers, recs: seq<Chunk>, j: int)
    requires IsFileRecords(file, pr, recs) && 0 <= j < |recs|
    ensures RecordFromFile(file, pr, recs[j])
  {
    assert IsJsonName(file.0) && CorpusText(file.1, pr).Some?;
    assert IsRecordOf(file.0, CorpusText(file.1, pr).value, j, recs[j]);
  }

  /** `r` is one of the records of `file`: a window of its cleaned text, tagged with its name. */
  predicate RecordFromFile(file: (string, FileContent), pr: Printers, r: Chunk) {
    && IsJsonName(file.0)
    && CorpusText(file.1, pr).Some?
    && IsRecordOf(file.0, CorpusText(file.1, pr).value, r.chunkId, r)
  }

  /** Appending the records of the next file extends the records of the files before it. */
  lemma KbOfStep(files: seq<(string, FileContent)>, pr: Printers, f: int, kb: seq<Chunk>, records: seq<Chunk>)
    requires 0 <= f < |files|
    requires IsKbOf(files[..f], pr, kb)
    requires IsFileRecords(files[f], pr, records)
    ensures IsKbOf(files[..f + 1], pr, kb + records)
  {
    var next, all := files[..f + 1], kb + records;
    assert next[..|next| - 1] == files[..f] && next[|next| - 1] == files[f];
    assert all[..|kb|] == kb && all[|kb|..] == records;
    assert 0 <= |kb| <= |all| && IsKbOf(next[..|next| - 1], pr, all[..|kb|]) && IsFileRecords(next[|next| - 1], pr, all[|kb|..]);
  }

  /** Chunk ids restart at 0 for each document and otherwise count up by one. */
  predicate NumberedPerDocument(kb: seq<Chunk>) {
    forall i :: 0 <= i < |kb| ==> NumberedAt(kb, i)
  }

  /** Record `i` starts a document, or continues the previous record's document with the next id. */
  predicate NumberedAt(kb: seq<Chunk>, i: int)
    requires 0 <= i < |kb|
  {
    kb[i].chunkId == 0 || (0 < i && kb[i - 1].source == kb[i].source && kb[i].chunkId == kb[i - 1].chunkId + 1)
  }

  /** The records of one listed file: the chunks of a `.json` file that decodes, else none. */
  method FileRecords(file: (string, FileContent), pr: Printers) returns (records: seq<Chunk>)
    ensures IsFileRecords(file, pr, records)
    ensures |records| > 0 ==> IsJsonName(file.0) && !file.1.Undecodable?
    ensures forall j :: 0 <= j < |records| ==>
              && records[j].source == file.0
              && records[j].chunkId == j
              && records[j].tokens == Tokenize(records[j].text)
              && 1 <= |Words(records[j].text)| <= KbMaxLen
  {
    var text := CorpusText(file.1, pr);
    if IsJsonName(file.0) && text.Some? {
      records := DocumentChunks(file.0, text.value);
    } else {
      records := [];
    }
  }

  /**
   `load_kb` over the listed files, in listing order: JSON-named, decodable
   files contribute their chunk records; the rest are skipped.
   */
  method LoadKb(files: seq<(string, FileContent)>, pr: Printers) returns (kb: seq<Chunk>)
    ensures IsKbOf(files, pr, kb)
    ensures NumberedPerDocument(kb)
    ensures forall i :: 0 <= i < |kb| ==> 0 <= kb[i].chunkId
    ensures forall i :: 0 <= i < |kb| ==> kb[i].tokens == Tokenize(kb[i].text)
    ensures forall i :: 0 <= i < |kb| ==> 1 <= |Words(kb[i].text)| <= KbMaxLen
    ensures forall i :: 0 <= i < |kb| ==> ReadableJsonAmong(files, |files|, kb[i].source)
  {
    kb := [];
    for f := 0 to |files|
      invariant IsKbOf(files[..f], pr, kb)
      invariant NumberedPerDocument(kb)
      invariant forall i :: 0 <= i < |kb| ==> KbRecordOk(files, f, kb[i])
    {
      var records := FileRecords(files[f], pr);
      KbOfStep(files, pr, f, kb, records);
      AppendDocument(kb, records, files[f].0);
      AppendKbRecords(files, f, kb, records);
      kb := kb + records;
    }
    assert files[..|files|] == files;
  }

  /** What `LoadKb` promises of each record, counting only the first `n` listed files as its sources. */
  predicate KbRecordOk(files: seq<(string, FileContent)>, n: int, r: Chunk)
    requires 0 <= n <= |files|
  {
    && 0 <= r.chunkId
    && r.tokens == Tokenize(r.text)
    && 1 <= |Words(r.text)| <= KbMaxLen
    && ReadableJsonAmong(files, n, r.source)
  }

  lemma AppendKbRecords(files: seq<(string, FileContent)>, f: int, kb: seq<Chunk>, records: seq<Chunk>)
    requires 0 <= f < |files|
    requires forall i :: 0 <= i < |kb| ==> KbRecordOk(files, f, kb[i])
    requires |records| > 0 ==> IsJsonName(files[f].0) && !files[f].1.Undecodable?
    requires forall j :: 0 <= j < |records| ==>
               && records[j].source == files[f].0
               && records[j].chunkId == j
               && records[j].tokens == Tokenize(records[j].text)
               && 1 <= |Words(records[j].text)| <= KbMaxLen
    ensures forall i :: 0 <= i < |kb + records| ==> KbRecordOk(files, f + 1, (kb + records)[i])
  {
    var all := kb + records;
    forall i | 0 <= i < |all|
      ensures KbRecordOk(files, f + 1, all[i])
    {
      if i < |kb| {
        assert all[i] == kb[i] && KbRecordOk(files, f, kb[i]);
      } else {
        assert all[i] == records[i - |kb|];
      }
    }
  }

  /** One of the first `n` listed files is a readable `.json` file named `source`. */
  predicate ReadableJsonAmong(files: seq<(string, FileContent)>, n: int, source: string)
    requires 0 <= n <= |files|
  {
    exists g :: 0 <= g < n && files[g].0 == source && IsJsonName(files[g].0) && !files[g].1.Undecodable?
  }

  lemma AppendDocument(kb: seq<Chunk>, records: seq<Chunk>, name: string)
    requires NumberedPerDocument(kb)
    requires forall j :: 0 <= j < |records| ==> records[j].source == name && records[j].chunkId == j
    ensures NumberedPerDocument(kb + records)
  {
    var all := kb + records;
    forall i | 0 <= i < |all|
      ensures NumberedAt(all, i)
    {
      if i < |kb| {
        assert all[i] == kb[i];
        assert NumberedAt(kb, i);
        if i > 0 {
          assert all[i - 1] == kb[i - 1];
        }
      } else if i > |kb| {
        assert all[i] == records[i - |kb|] && all[i - 1] == records[i - 1 - |kb|];
      } else {
        assert all[i] == records[0];
      }
    }
  }

  // --------------------------------------------------------------- retrieval

  /** `x` is chunk `x.pos` of `kb` with its score for `q`, and that score is positive. */
  predicate IsScoredEntry(q: seq<string>, kb: seq<Chunk>, x: Ranked<Chunk>) {
    && 0 <= x.pos < |kb|
    && x.item == kb[x.pos]
    && x.score == Score(q, kb[x.pos].tokens)
    && x.score > 0.0
  }

  /** Every positive-scoring chunk of `kb` is listed in `r` with its score and position. */
  predicate ListsEveryScoringChunk(q: seq<string>, kb: seq<Chunk>, r: seq<Ranked<Chunk>>) {
    forall p :: 0 <= p < |kb| && Score(q, kb[p].tokens) > 0.0 ==> Ranked(Score(q, kb[p].tokens), p, kb[p]) in r
  }

  /** The chunks with a positive score for `q`, paired with score and corpus position, in corpus order. */
  function Scored(q: seq<string>, kb: seq<Chunk>): (r: seq<Ranked<Chunk>>)
    ensures InInputOrder(r)
    ensures forall i :: 0 <= i < |r| ==> IsScoredEntry(q, kb, r[i])
    ensures ListsEveryScoringChunk(q, kb, r)
    decreases |kb|
  {
    if |kb| == 0 then []
    else
      var init := kb[..|kb| - 1];
      var rest := Scored(q, init);
      ScoredStep(q, kb, init, rest);
      ScoredAppend(q, kb, rest)
  }

  /** `rest` followed by the last chunk when it scores. */
  function ScoredAppend(q: seq<string>, kb: seq<Chunk>, rest: seq<Ranked<Chunk>>): seq<Ranked<Chunk>>
    requires |kb| > 0
  {
    var s := Score(q, kb[|kb| - 1].tokens);
    if s > 0.0 then rest + [Ranked(s, |kb| - 1, kb[|kb| - 1])] else rest
  }

  /** Scoring one more chunk keeps the list ordered, sound and complete. */
  lemma ScoredStep(q: seq<string>, kb: seq<Chunk>, init: seq<Chunk>, rest: seq<Ranked<Chunk>>)
    requires |kb| > 0 && init == kb[..|kb| - 1]
    requires InInputOrder(rest)
    requires forall i :: 0 <= i < |rest| ==> IsScoredEntry(q, init, rest[i])
    requires ListsEveryScoringChunk(q, init, rest)
    ensures var r := ScoredAppend(q, kb, rest);
            && InInputOrder(r)
            && (forall i :: 0 <= i < |r| ==> IsScoredEntry(q, kb, r[i]))
            && ListsEveryScoringChunk(q, kb, r)
  {
    ScoredPrefix(q, kb, rest);
    ScoredStepSound(q, kb, rest);
    ScoredStepComplete(q, kb, init, rest);
  }

  lemma ScoredStepSound(q: seq<string>, kb: seq<Chunk>, rest: seq<Ranked<Chunk>>)
    requires |kb| > 0 && InInputOrder(rest)
    requires forall i :: 0 <= i < |rest| ==> IsScoredEntry(q, kb, rest[i]) && rest[i].pos < |kb| - 1
    ensures var r := ScoredAppend(q, kb, rest);
            && InInputOrder(r)
            && (forall i :: 0 <= i < |r| ==> IsScoredEntry(q, kb, r[i]))
  {
    var r := ScoredAppend(q, kb, rest);
    assert forall i :: 0 <= i < |rest| ==> r[i] == rest[i];
  }

  lemma ScoredStepComplete(q: seq<string>, kb: seq<Chunk>, init: seq<Chunk>, rest: seq<Ranked<Chunk>>)
    requires |kb| > 0 && init == kb[..|kb| - 1]
    requires ListsEveryScoringChunk(q, init, rest)
    ensures ListsEveryScoringChunk(q, kb, ScoredAppend(q, kb, rest))
  {
    var r := ScoredAppend(q, kb, rest);
    forall p | 0 <= p < |kb| && Score(q, kb[p].tokens) > 0.0
      ensures Ranked(Score(q, kb[p].tokens), p, kb[p]) in r
    {
      if p < |kb| - 1 {
        assert init[p] == kb[p];
      }
    }
  }

  lemma ScoredPrefix(q: seq<string>, kb: seq<Chunk>, rest: seq<Ranked<Chunk>>)
    requires |kb| > 0
    requires forall i :: 0 <= i < |rest| ==> IsScoredEntry(q, kb[..|kb| - 1], rest[i])
    ensures forall i :: 0 <= i < |rest| ==> IsScoredEntry(q, kb, rest[i]) && rest[i].pos < |kb| - 1
  {
    var init := kb[..|kb| - 1];
    forall i | 0 <= i < |rest|
      ensures IsScoredEntry(q, kb, rest[i]) && rest[i].pos < |kb| - 1
    {
      assert IsScoredEntry(q, init, rest[i]);
      assert init[rest[i].pos] == kb[rest[i].pos];
    }
  }

  function Positions(r: seq<Ranked<Chunk>>): set<int> {
    set i | 0 <= i < |r| :: r[i].pos
  }

  /** `scored[:max(1, k)]` after the stable descending sort. */
  function Top(q: seq<string>, kb: seq<Chunk>, k: int): (r: seq<Ranked<Chunk>>)
    ensures InRankOrder(r)
    ensures |r| == Min(Max(1, k), |Scored(q, kb)|)
    ensures forall i :: 0 <= i < |r| ==> r[i] in Scored(q, kb)
    ensures forall i, p :: 0 <= i < |r| && 0 <= p < |kb| && Score(q, kb[p].tokens) > 0.0 && p !in Positions(r) ==>
              Before(r[i], Ranked(Score(q, kb[p].tokens), p, kb[p]))
  {
    var all := Scored(q, kb);
    var sorted := SortDesc(all);
    var m := Min(Max(1, k), |all|);
    TopIsBest(q, kb, sorted, m);
    sorted[..m]
  }

  lemma TopIsBest(q: seq<string>, kb: seq<Chunk>, sorted: seq<Ranked<Chunk>>, m: int)
    requires InRankOrder(sorted)
    requires multiset(sorted) == multiset(Scored(q, kb))
    requires 0 <= m <= |sorted|
    ensures forall i :: 0 <= i < m ==> sorted[i] in Scored(q, kb)
    ensures forall i, p :: 0 <= i < m && 0 <= p < |kb| && Score(q, kb[p].tokens) > 0.0 && p !in Positions(sorted[..m]) ==>
              Before(sorted[i], Ranked(Score(q, kb[p].tokens), p, kb[p]))
  {
    var all := Scored(q, kb);
    forall i | 0 <= i < m
      ensures sorted[i] in all
    {
      assert sorted[i] in multiset(sorted);
    }
    forall i, p | 0 <= i < m && 0 <= p < |kb| && Score(q, kb[p].tokens) > 0.0 && p !in Positions(sorted[..m])
      ensures Before(sorted[i], Ranked(Score(q, kb[p].tokens), p, kb[p]))
    {
      var x := Ranked(Score(q, kb[p].tokens), p, kb[p]);
      assert x in multiset(all);
      var j :| 0 <= j < |sorted| && sorted[j] == x;
      PrefixPositions(sorted, m);
      assert i < j;
    }
  }

  lemma PrefixPositions(s: seq<Ranked<Chunk>>, m: int)
    requires 0 <= m <= |s|
    ensures forall j :: 0 <= j < m ==> s[j].pos in Positions(s[..m])
  {
    forall j | 0 <= j < m
      ensures s[j].pos in Positions(s[..m])
    {
      assert s[..m][j] == s[j];
    }
  }

  /** The items of `s` whose text has at least `minChars` characters, in order. */
  function KeepLong(s: seq<Ranked<Chunk>>, minChars: int): (r: seq<Ranked<Chunk>>)
    ensures forall x :: x in r <==> x in s && |x.item.text| >= minChars
    ensures InRankOrder(s) ==> InRankOrder(r)
    ensures |r| <= |s|
    decreases |s|
  {
    if |s| == 0 then []
    else
      var rest := KeepLong(s[1..], minChars);
      if |s[0].item.text| >= minChars then
        KeepLongHead(s, rest);
        [s[0]] + rest
      else
        assert InRankOrder(s) ==> InRankOrder(s[1..]) by {
          if InRankOrder(s) {
            TailInRankOrder(s);
          }
        }
        rest
  }

  lemma KeepLongHead(s: seq<Ranked<Chunk>>, rest: seq<Ranked<Chunk>>)
    requires |s| > 0
    requires forall x :: x in rest ==> x in s[1..]
    requires InRankOrder(s[1..]) ==> InRankOrder(rest)
    ensures InRankOrder(s) ==> InRankOrder([s[0]] + rest)
  {
    if InRankOrder(s) {
      TailInRankOrder(s);
      var r := [s[0]] + rest;
      forall i, j | 0 <= i < j < |r|
        ensures Before(r[i], r[j])
      {
        assert r[j] == rest[j - 1];
        if i == 0 {
          assert rest[j - 1] in s[1..];
          var k :| 0 <= k < |s| - 1 && s[1..][k] == rest[j - 1];
          assert s[k + 1] == r[j];
        } else {
          assert r[i] == rest[i - 1];
        }
      }
    }
  }

  /** Everything `Scored` lists is a positive-scoring chunk of the corpus. */
  lemma ScoredEntries(q: seq<string>, kb: seq<Chunk>, x: Ranked<Chunk>)
    requires x in Scored(q, kb)
    ensures IsScoredEntry(q, kb, x)
  {
    var all := Scored(q, kb);
    var i :| 0 <= i < |all| && all[i] == x;
  }

  /**
   `retrieve`, keeping each result's score and corpus position: the top
   `max(1, k)` positive-scoring chunks, narrowed to the long ones when there
   are any, else `top[:k]`.
   */
  function RetrieveRanked(query: string, kb: seq<Chunk>, k: int, minChars: int): (r: seq<Ranked<Chunk>>)
    ensures Tokenize(query) == [] ==> r == []
    ensures InRankOrder(r)
    ensures |r| <= Max(1, k)
    ensures forall i :: 0 <= i < |r| ==> IsScoredEntry(Tokenize(query), kb, r[i])
  {
    var q := Tokenize(query);
    if q == [] then []
    else
      var top := Top(q, kb, k);
      var filtered := KeepLong(top, minChars);
      var fallback := SliceTo(top, k);
      SliceKeepsRankOrder(top, |fallback|);
      var r := if filtered != [] then filtered else fallback;
      RetrievedFromTop(q, kb, top, r);
      r
  }

  lemma RetrievedFromTop(q: seq<string>, kb: seq<Chunk>, top: seq<Ranked<Chunk>>, r: seq<Ranked<Chunk>>)
    requires forall i :: 0 <= i < |top| ==> top[i] in Scored(q, kb)
    requires forall x :: x in r ==> x in top
    ensures forall i :: 0 <= i < |r| ==> IsScoredEntry(q, kb, r[i])
  {
    forall i | 0 <= i < |r|
      ensures IsScoredEntry(q, kb, r[i])
    {
      assert r[i] in top;
      var j :| 0 <= j < |top| && top[j] == r[i];
      ScoredEntries(q, kb, r[i]);
    }
  }

  /**
   Which chunks `retrieve` keeps from the top list: the long ones when there
   is at least one, otherwise `top[:k]`.
   */
  lemma RetrieveKeepsLongOrFallsBack(query: string, kb: seq<Chunk>, k: int, minChars: int)
    requires Tokenize(query) != []
    ensures var top := Top(Tokenize(query), kb, k);
            var r := RetrieveRanked(query, kb, k, minChars);
            if exists i :: 0 <= i < |top| && |top[i].item.text| >= minChars
            then forall x :: x in r <==> x in top && |x.item.text| >= minChars
            else r == SliceTo(top, k)
  {
    var top := Top(Tokenize(query), kb, k);
    KeepLongIsEmpty(top, minChars);
  }

  /** Nothing is kept exactly when no item is long enough. */
  lemma KeepLongIsEmpty(s: seq<Ranked<Chunk>>, minChars: int)
    ensures KeepLong(s, minChars) == [] <==> forall i :: 0 <= i < |s| ==> |s[i].item.text| < minChars
  {
    var r := KeepLong(s, minChars);
    if r != [] {
      assert r[0] in s;
    }
    if exists i :: 0 <= i < |s| && |s[i].item.text| >= minChars {
      var i :| 0 <= i < |s| && |s[i].item.text| >= minChars;
      assert s[i] in r;
    }
  }

  lemma SliceKeepsRankOrder(s: seq<Ranked<Chunk>>, m: int)
    requires InRankOrder(s) && 0 <= m <= |s|
    ensures InRankOrder(s[..m])
    ensures forall x :: x in s[..m] ==> x in s
  {
  }

  /** `retrieve`: the chunk records, best first. */
  function Retrieve(query: string, kb: seq<Chunk>, k: int, minChars: int): (r: seq<Chunk>)
    ensures Tokenize(query) == [] ==> r == []
    ensures |r| <= Max(1, k)
    ensures forall i :: 0 <= i < |r| ==> r[i] in kb && Score(Tokenize(query), r[i].tokens) > 0.0
    ensures forall i, j :: 0 <= i < j < |r| ==> Score(Tokenize(query), r[i].tokens) >= Score(Tokenize(query), r[j].tokens)
  {
    var ranked := RetrieveRanked(query, kb, k, minChars);
    var r := seq(|ranked|, i requires 0 <= i < |ranked| => ranked[i].item);
    RetrieveItems(Tokenize(query), kb, ranked, r);
    r
  }

  lemma RetrieveItems(q: seq<string>, kb: seq<Chunk>, ranked: seq<Ranked<Chunk>>, r: seq<Chunk>)
    requires InRankOrder(ranked)
    requires forall i :: 0 <= i < |ranked| ==> IsScoredEntry(q, kb, ranked[i])
    requires |r| == |ranked| && forall i :: 0 <= i < |r| ==> r[i] == ranked[i].item
    ensures forall i :: 0 <= i < |r| ==> r[i] in kb && Score(q, r[i].tokens) > 0.0
    ensures forall i, j :: 0 <= i < j < |r| ==> Score(q, r[i].tokens) >= Score(q, r[j].tokens)
  {
    forall i | 0 <= i < |r|
      ensures r[i] in kb && Score(q, r[i].tokens) > 0.0
    {
      assert IsScoredEntry(q, kb, ranked[i]);
    }
    forall i, j | 0 <= i < j < |r|
      ensures Score(q, r[i].tokens) >= Score(q, r[j].tokens)
    {
      assert IsScoredEntry(q, kb, ranked[i]) && IsScoredEntry(q, kb, ranked[j]);
      assert Before(ranked[i], ranked[j]);
    }
  }

  /**
   The fallback never empties a non-empty top list when `k >= 1`: the
   result is empty exactly when no chunk scores, and when no top chunk is
   long enough the result has `min(k, #scoring chunks)` entries.
   */
  lemma RetrieveFallback(query: string, kb: seq<Chunk>, k: int, minChars: int)
    requires 1 <= k
    requires Tokenize(query) != []
    ensures |RetrieveRanked(query, kb, k, minChars)| == 0 <==> |Scored(Tokenize(query), kb)| == 0
    ensures (forall i :: 0 <= i < |Top(Tokenize(query), kb, k)| ==> |Top(Tokenize(query), kb, k)[i].item.text| < minChars) ==>
              |RetrieveRanked(query, kb, k, minChars)| == Min(k, |Scored(Tokenize(query), kb)|)
  {
    var q := Tokenize(query);
    var top := Top(q, kb, k);
    var r := RetrieveRanked(query, kb, k, minChars);
    RetrieveKeepsLongOrFallsBack(query, kb, k, minChars);
    FallbackCount(top, r, k, minChars);
  }

  lemma FallbackCount(top: seq<Ranked<Chunk>>, r: seq<Ranked<Chunk>>, k: int, minChars: int)
    requires 1 <= k && |top| <= k
    requires if exists i :: 0 <= i < |top| && |top[i].item.text| >= minChars
             then forall x :: x in r <==> x in top && |x.item.text| >= minChars
             else r == SliceTo(top, k)
    ensures |r| == 0 <==> |top| == 0
    ensures (forall i :: 0 <= i < |top| ==> |top[i].item.text| < minChars) ==> |r| == |top|
  {
    if exists i :: 0 <= i < |top| && |top[i].item.text| >= minChars {
      var i :| 0 <= i < |top| && |top[i].item.text| >= minChars;
      assert top[i] in r;
    }
  }


}
