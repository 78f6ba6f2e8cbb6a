/**
 The older keyword search of `gentaxai/main.py`: the knowledge base is a flat
 list of items (`load_json_file` turns each JSON file into items), and
 `search_knowledge_base` scores every item against the query's distinct words
 and renders the best ones as one context string. The item list is passed in
 instead of living in a module-level global.
 */
module LegacySearch {
  import opened Wrappers
  import opened Text
  import opened JsonValue
  import opened Ranking

  const NoKnowledgeBase := "[No knowledge base available]"
  // the message is the concatenation of two literals, which the verifier indexes more readily than one long literal
  const NoRelevantInformation := "[No relevant information " + "found in knowledge base]"
  const SectionSeparator := "\n\n---\n\n"
  /** Added when the whole lower-cased query occurs in an item. */
  const PhraseBoost := 10
  /** Query words shorter than this never count. */
  const MinWordLength := 3
  /** At most this many characters of an item's content are shown. */
  const ContentLimit := 800

  /** One knowledge-base entry; only entries flattened from an object carry a title. */
  datatype KbItem = KbItem(source: string, title: Option<string>, content: string)

  // ----------------------------------------------------------- load_json_file

  /** `os.path.basename(path)`: everything after the last `'/'`. */
  function Basename(path: string): (r: string)
    ensures |r| <= |path| && r == path[|path| - |r|..]
    ensures forall i :: 0 <= i < |r| ==> r[i] != '/'
    ensures |r| < |path| ==> path[|path| - |r| - 1] == '/'
    decreases |path|
  {
    if |path| == 0 then []
    else if path[|path| - 1] == '/' then []
    else Basename(path[..|path| - 1]) + [path[|path| - 1]]
  }

  /** The content of a list element: an object is rendered by `json.dumps`, anything else (a list too) by `str`. */
  function ListContent(v: Json, pr: Printers): string {
    if v.JObject? then pr.dumps(v) else PyStr(v, pr)
  }

  /** The content of an object entry: an object or a list is rendered by `json.dumps`, anything else by `str`. */
  function FieldContent(v: Json, pr: Printers): string {
    if v.JObject? || v.JArray? then pr.dumps(v) else PyStr(v, pr)
  }

  function ListItem(source: string, v: Json, pr: Printers): KbItem {
    KbItem(source, None, ListContent(v, pr))
  }

  function FieldItem(source: string, key: string, v: Json, pr: Printers): KbItem {
    KbItem(source, Some(key), FieldContent(v, pr))
  }

  /**
   `load_json_file`: a list yields one item per element, an object one item
   per key, in order; any other value, and a file that cannot be read or
   parsed, yields nothing.
   */
  function LoadJsonFile(path: string, content: FileContent, pr: Printers): (r: seq<KbItem>)
    ensures forall i :: 0 <= i < |r| ==> r[i].source == Basename(path)
    ensures content.Parsed? && content.value.JArray? ==>
              && |r| == |content.value.items|
              && forall i :: 0 <= i < |r| ==>
                   r[i] == KbItem(Basename(path), None, ListContent(content.value.items[i], pr))
    ensures content.Parsed? && content.value.JObject? ==>
              && |r| == |content.value.fields|
              && forall i :: 0 <= i < |r| ==>
                   r[i] == KbItem(Basename(path), Some(content.value.fields[i].0), FieldContent(content.value.fields[i].1, pr))
    ensures !(content.Parsed? && (content.value.JArray? || content.value.JObject?)) ==> r == []
  {
    var source := Basename(path);
    if content.Parsed? && content.value.JArray? then ListItems(source, content.value.items, pr)
    else if content.Parsed? && content.value.JObject? then FieldItems(source, content.value.fields, pr)
    else []
  }

  /** The items of a top-level list, one per element, in order. */
  function ListItems(source: string, items: seq<Json>, pr: Printers): (r: seq<KbItem>)
    ensures |r| == |items|
    ensures forall i :: 0 <= i < |r| ==>
              && r[i].source == source && r[i].title.None?
              && (items[i].JString? ==> r[i].content == items[i].str)
              && (items[i].JObject? ==> r[i].content == pr.dumps(items[i]))
              && (!items[i].JObject? && !items[i].JString? ==> r[i].content == pr.repr(items[i]))
    ensures forall i :: 0 <= i < |r| ==> r[i].content == ListContent(items[i], pr)
  {
    seq(|items|, i requires 0 <= i < |items| => ListItem(source, items[i], pr))
  }

  /** The items of a top-level object, one per key, in order, titled by the key. */
  function FieldItems(source: string, fields: seq<(string, Json)>, pr: Printers): (r: seq<KbItem>)
    ensures |r| == |fields|
    ensures forall i :: 0 <= i < |r| ==>
              && r[i].source == source && r[i].title == Some(fields[i].0)
              && (fields[i].1.JString? ==> r[i].content == fields[i].1.str)
              && (fields[i].1.JObject? || fields[i].1.JArray? ==> r[i].content == pr.dumps(fields[i].1))
              && (!fields[i].1.JObject? && !fields[i].1.JArray? && !fields[i].1.JString? ==>
                    r[i].content == pr.repr(fields[i].1))
    ensures forall i :: 0 <= i < |r| ==> r[i].content == FieldContent(fields[i].1, pr)
  {
    seq(|fields|, i requires 0 <= i < |fields| => FieldItem(source, fields[i].0, fields[i].1, pr))
  }

  // ------------------------------------------------------------------ scoring

  /** The title, or `""` when the item has none. */
  function TitleText(it: KbItem): string {
    it.title.GetOr("")
  }

  /** The lower-cased `title + " " + content + " " + source` the query is matched against. */
  function Haystack(it: KbItem): string {
    Lower(Join([TitleText(it), it.content, it.source], " "))
  }

  /** `set(query.lower().split())`. */
  function QueryWords(query: string): set<string> {
    set w | w in Words(Lower(query))
  }

  /** The distinct query words longer than two characters that occur in `text`. */
  function MatchedWords(query: string, text: string): (m: set<string>)
    ensures forall w :: w in m <==> w in Words(Lower(query)) && |w| >= MinWordLength && IsSubstring(w, text)
    ensures m <= QueryWords(query)
  {
    set w | w in QueryWords(query) && |w| >= MinWordLength && IsSubstring(w, text)
  }

  /** The words of two queries joined by a space are the words of the first, then those of the second. */
  lemma QueryWordsOfJoin(a: string, b: string)
    ensures Words(Lower(a + " " + b)) == Words(Lower(a)) + Words(Lower(b))
  {
    assert Lower(a + " " + b) == Lower(a) + [' '] + Lower(b);
    RunsSplitAt(Lower(a), ' ', Lower(b), IsWordChar);
  }

  /**
   Repeating query words, or adding words shorter than three characters,
   changes nothing: a word counts once, and short words never count.
   */
  lemma MatchedWordsIgnoreRepeatsAndShortWords(query: string, extra: string, text: string)
    requires forall v :: v in Words(Lower(extra)) ==> v in Words(Lower(query)) || |v| < MinWordLength
    ensures MatchedWords(query + " " + extra, text) == MatchedWords(query, text)
  {
    QueryWordsOfJoin(query, extra);
  }

  /** The order of the query's parts does not matter: the words form a set. */
  lemma MatchedWordsIgnoreOrder(a: string, b: string, text: string)
    ensures MatchedWords(a + " " + b, text) == MatchedWords(b + " " + a, text)
  {
    QueryWordsOfJoin(a, b);
    QueryWordsOfJoin(b, a);
  }

  /** The score of `search_knowledge_base`: matched words plus the phrase boost. */
  function ItemScore(query: string, it: KbItem): nat {
    var text := Haystack(it);
    |MatchedWords(query, text)| + (if IsSubstring(Lower(query), text) then PhraseBoost else 0)
  }

  /**
   An item scores exactly when one of the long query words occurs in it, or
   the whole query does; each word counts once, however often it is repeated
   in the query or the item.
   */
  lemma ItemScoreBounds(query: string, it: KbItem)
    ensures ItemScore(query, it) > 0 <==>
              (exists w :: w in Words(Lower(query)) && |w| >= MinWordLength && IsSubstring(w, Haystack(it)))
              || IsSubstring(Lower(query), Haystack(it))
    ensures ItemScore(query, it) <= |QueryWords(query)| + PhraseBoost
    ensures IsSubstring(Lower(query), Haystack(it)) ==> ItemScore(query, it) >= PhraseBoost
  {
    var m := MatchedWords(query, Haystack(it));
    if exists w :: w in Words(Lower(query)) && |w| >= MinWordLength && IsSubstring(w, Haystack(it)) {
      var w :| w in Words(Lower(query)) && |w| >= MinWordLength && IsSubstring(w, Haystack(it));
      assert w in m;
    }
    SubsetSize(m, QueryWords(query));
  }

  lemma SubsetSize(a: set<string>, b: set<string>)
    requires a <= b
    ensures |a| <= |b|
  {
    assert b == a + (b - a);
  }

  /** The empty string occurs in every text, so an empty query matches every item with the phrase boost. */
  lemma EmptyQueryMatchesEverything(it: KbItem)
    ensures ItemScore("", it) == PhraseBoost
  {
    assert OccursAt("", Haystack(it), 0);
    assert Words(Lower("")) == [];
    assert MatchedWords("", Haystack(it)) == {};
  }

  // ---------------------------------------------------------------- rendering

  /** `s[:n]` for `n >= 0`. */
  function Take(s: string, n: nat): (r: string)
    ensures |r| == Min(n, |s|) && r == s[..|r|]
  {
    if |s| <= n then s else s[..n]
  }

  function SourceHeader(it: KbItem): string {
    "[Source: " + it.source + "]"
  }

  /** The text shown for a matching item: the source header, a title line when there is a title, the first 800 characters of content. */
  function Section(it: KbItem): (r: string)
    ensures |r| >= |SourceHeader(it)| + 1 + Min(ContentLimit, |it.content|)
    ensures r[..|SourceHeader(it)|] == SourceHeader(it)
    ensures var shown := Take(it.content, ContentLimit);
            |shown| <= ContentLimit && r[|r| - |shown|..] == shown && r[|r| - |shown| - 1] == '\n'
    ensures TitleText(it) == [] ==> |r| == |SourceHeader(it)| + 1 + Min(ContentLimit, |it.content|)
    ensures TitleText(it) != [] ==>
              && |r| == |SourceHeader(it)| + |TitleText(it)| + 3 + Min(ContentLimit, |it.content|)
              && r[|SourceHeader(it)|..|SourceHeader(it)| + |TitleText(it)| + 2] == "\n" + TitleText(it) + "\n"
  {
    var header := SourceHeader(it);
    var titleLine := if TitleText(it) != [] then "\n" + TitleText(it) + "\n" else "";
    var shown := Take(it.content, ContentLimit);
    var r := header + titleLine + "\n" + shown;
    assert r[..|header|] == header;
    assert r[|r| - |shown|..] == shown;
    assert r[|header|..|header| + |titleLine|] == titleLine;
    r
  }

  // ------------------------------------------------------------------ ranking

  /** `x` is item `x.pos` of `kb` with its (positive) score. */
  predicate IsScoredItem(score: KbItem -> nat, kb: seq<KbItem>, x: Ranked<KbItem>) {
    && 0 <= x.pos < |kb|
    && x.item == kb[x.pos]
    && x.score == score(kb[x.pos]) as real
    && x.score > 0.0
  }

  /** The items with a positive score, with score and position, in knowledge-base order. */
  function ScoredItems(score: KbItem -> nat, kb: seq<KbItem>): (r: seq<Ranked<KbItem>>)
    ensures InInputOrder(r)
    ensures forall i :: 0 <= i < |r| ==> IsScoredItem(score, kb, r[i])
    ensures forall p :: 0 <= p < |kb| && score(kb[p]) > 0 ==> Ranked(score(kb[p]) as real, p, kb[p]) in r
    decreases |kb|
  {
    if |kb| == 0 then []
    else
      var init := kb[..|kb| - 1];
      var last := kb[|kb| - 1];
      var rest := ScoredItems(score, init);
      ScoredItemsPrefix(score, kb, rest);
      if score(last) > 0 then rest + [Ranked(score(last) as real, |kb| - 1, last)] else rest
  }

  lemma ScoredItemsPrefix(score: KbItem -> nat, kb: seq<KbItem>, rest: seq<Ranked<KbItem>>)
    requires |kb| > 0
    requires forall i :: 0 <= i < |rest| ==> IsScoredItem(score, kb[..|kb| - 1], rest[i])
    ensures forall i :: 0 <= i < |rest| ==> IsScoredItem(score, kb, rest[i]) && rest[i].pos < |kb| - 1
  {
    var init := kb[..|kb| - 1];
    forall i | 0 <= i < |rest|
      ensures IsScoredItem(score, kb, rest[i]) && rest[i].pos < |kb| - 1
    {
      assert IsScoredItem(score, init, rest[i]);
      assert init[rest[i].pos] == kb[rest[i].pos];
    }
  }

  function ItemPositions(r: seq<Ranked<KbItem>>): set<int> {
    set i | 0 <= i < |r| :: r[i].pos
  }

  /**
   `scored_items[:top_k]` after the stable sort by descending score: the
   selected items in rank order, none of them beaten by an item left out.
   */
  function TopItems(score: KbItem -> nat, kb: seq<KbItem>, topK: int): (r: seq<Ranked<KbItem>>)
    ensures InRankOrder(r)
    ensures |r| <= |ScoredItems(score, kb)|
    ensures topK >= 0 ==> |r| == Min(topK, |ScoredItems(score, kb)|)
    ensures forall i :: 0 <= i < |r| ==> IsScoredItem(score, kb, r[i])
    ensures forall i, p :: 0 <= i < |r| && 0 <= p < |kb| && score(kb[p]) > 0 && p !in ItemPositions(r) ==>
              Before(r[i], Ranked(score(kb[p]) as real, p, kb[p]))
  {
    var all := ScoredItems(score, kb);
    var sorted := SortDesc(all);
    var r := SliceTo(sorted, topK);
    TopItemsAreBest(score, kb, sorted, |r|);
    r
  }

  lemma TopItemsAreBest(score: KbItem -> nat, kb: seq<KbItem>, sorted: seq<Ranked<KbItem>>, m: int)
    requires InRankOrder(sorted)
    requires multiset(sorted) == multiset(ScoredItems(score, kb))
    requires 0 <= m <= |sorted|
    ensures forall i :: 0 <= i < m ==> IsScoredItem(score, kb, sorted[i])
    ensures forall i, p :: 0 <= i < m && 0 <= p < |kb| && score(kb[p]) > 0 && p !in ItemPositions(sorted[..m]) ==>
              Before(sorted[i], Ranked(score(kb[p]) as real, p, kb[p]))
  {
    var all := ScoredItems(score, kb);
    forall i | 0 <= i < m
      ensures IsScoredItem(score, kb, sorted[i])
    {
      assert sorted[i] in multiset(all);
    }
    PrefixItemPositions(sorted, m);
    forall i, p | 0 <= i < m && 0 <= p < |kb| && score(kb[p]) > 0 && p !in ItemPositions(sorted[..m])
      ensures Before(sorted[i], Ranked(score(kb[p]) as real, p, kb[p]))
    {
      var x := Ranked(score(kb[p]) as real, p, kb[p]);
      assert x in multiset(all);
      var j :| 0 <= j < |sorted| && sorted[j] == x;
      assert i < j;
    }
  }

  lemma PrefixItemPositions(s: seq<Ranked<KbItem>>, m: int)
    requires 0 <= m <= |s|
    ensures forall j :: 0 <= j < m ==> s[j].pos in ItemPositions(s[..m])
  {
    forall j | 0 <= j < m
      ensures s[j].pos in ItemPositions(s[..m])
    {
      assert s[..m][j] == s[j];
    }
  }

  // ------------------------------------------------------------------- search

  function Sections(r: seq<Ranked<KbItem>>): (s: seq<string>)
    ensures |s| == |r| && forall i :: 0 <= i < |r| ==> s[i] == Section(r[i].item)
  {
    seq(|r|, i requires 0 <= i < |r| => Section(r[i].item))
  }

  /** The score `search_knowledge_base` gives each item for `query`. */
  function ScoreFor(query: string): KbItem -> nat {
    it => ItemScore(query, it)
  }

  /** `search_knowledge_base(query, top_k)` over the items `kb`. */
  function Search(query: string, kb: seq<KbItem>, topK: int): string {
    if |kb| == 0 then NoKnowledgeBase
    else if |ScoredItems(ScoreFor(query), kb)| == 0 then NoRelevantInformation
    else Join(Sections(TopItems(ScoreFor(query), kb, topK)), SectionSeparator)
  }

  /** A joined list of sections starts with its first section. */
  lemma {:induction false} JoinStartsWithFirst(ws: seq<string>, sep: string)
    requires |ws| > 0
    ensures |Join(ws, sep)| >= |ws[0]| && Join(ws, sep)[..|ws[0]|] == ws[0]
  {
    if |ws| > 1 {
      assert Join(ws, sep) == ws[0] + (sep + Join(ws[1..], sep));
    }
  }

  /** A found result starts with `"[S"`, or is empty when `top_k` selects nothing. */
  lemma FoundResultShape(query: string, kb: seq<KbItem>, topK: int)
    ensures |kb| > 0 && |ScoredItems(ScoreFor(query), kb)| > 0 ==>
              var r := Search(query, kb, topK);
              r == [] || (|r| >= 2 && r[0] == '[' && r[1] == 'S')
  {
    if |kb| > 0 && |ScoredItems(ScoreFor(query), kb)| > 0 {
      var top := TopItems(ScoreFor(query), kb, topK);
      var ss := Sections(top);
      assert Search(query, kb, topK) == Join(ss, SectionSeparator);
      forall i | 0 <= i < |ss|
        ensures |ss[i]| >= 2 && ss[i][0] == '[' && ss[i][1] == 'S'
      {
        SectionStart(top[i].item);
      }
      SectionsStartWithHeader(ss);
    }
  }

  lemma SectionStart(it: KbItem)
    ensures |Section(it)| >= 2 && Section(it)[0] == '[' && Section(it)[1] == 'S'
  {
    var h := SourceHeader(it);
    assert h[0] == '[' && h[1] == 'S';
    assert Section(it)[..|h|] == h;
  }

  lemma SectionsStartWithHeader(ss: seq<string>)
    requires forall i :: 0 <= i < |ss| ==> |ss[i]| >= 2 && ss[i][0] == '[' && ss[i][1] == 'S'
    ensures var r := Join(ss, SectionSeparator);
            r == [] || (|r| >= 2 && r[0] == '[' && r[1] == 'S')
  {
    if |ss| > 0 {
      JoinStartsWithFirst(ss, SectionSeparator);
      var r := Join(ss, SectionSeparator);
      assert r[..|ss[0]|] == ss[0];
      assert r[0] == ss[0][0] && r[1] == ss[0][1];
    }
  }

  /** Some item scores exactly when the scored list is non-empty. */
  lemma ScoredItemsNonEmpty(query: string, kb: seq<KbItem>)
    ensures |ScoredItems(ScoreFor(query), kb)| > 0 <==> exists p :: 0 <= p < |kb| && ItemScore(query, kb[p]) > 0
  {
    var score := ScoreFor(query);
    var all := ScoredItems(score, kb);
    if exists p :: 0 <= p < |kb| && ItemScore(query, kb[p]) > 0 {
      var p :| 0 <= p < |kb| && ItemScore(query, kb[p]) > 0;
      assert score(kb[p]) == ItemScore(query, kb[p]);
      assert Ranked(score(kb[p]) as real, p, kb[p]) in all;
    }
    if |all| > 0 {
      assert IsScoredItem(score, kb, all[0]);
      assert ItemScore(query, kb[all[0].pos]) > 0;
    }
  }

  /**
   The two messages are returned exactly in their cases: an empty knowledge
   base, and a non-empty one in which no item scores.
   */
  lemma SearchMessages(query: string, kb: seq<KbItem>, topK: int)
    ensures Search(query, kb, topK) == NoKnowledgeBase <==> |kb| == 0
    ensures Search(query, kb, topK) == NoRelevantInformation <==>
              |kb| > 0 && forall p :: 0 <= p < |kb| ==> ItemScore(query, kb[p]) == 0
  {
    ScoredItemsNonEmpty(query, kb);
    assert NoKnowledgeBase != NoRelevantInformation;
    if |kb| > 0 && |ScoredItems(ScoreFor(query), kb)| > 0 {
      FoundResultShape(query, kb, topK);
      NotAMessage(Search(query, kb, topK));
    }
  }

  lemma NotAMessage(r: string)
    requires r == [] || (|r| >= 2 && r[0] == '[' && r[1] == 'S')
    ensures r != NoKnowledgeBase && r != NoRelevantInformation
  {
  }

  /**
   A found result joins the sections of the selected items: `min(top_k, n)`
   of the `n` scoring items for a non-negative `top_k`, by non-increasing
   score, ties in knowledge-base order, each of them scoring.
   */
  lemma SearchSections(query: string, kb: seq<KbItem>, topK: int)
    ensures |kb| > 0 && |ScoredItems(ScoreFor(query), kb)| > 0 ==>
              var top := TopItems(ScoreFor(query), kb, topK);
              && Search(query, kb, topK) == Join(Sections(top), SectionSeparator)
              && (topK >= 0 ==> |top| == Min(topK, |ScoredItems(ScoreFor(query), kb)|))
              && (forall i :: 0 <= i < |top| ==> ItemScore(query, top[i].item) > 0)
              && (forall i, j :: 0 <= i < j < |top| ==> ItemScore(query, top[i].item) >= ItemScore(query, top[j].item))
              && (forall i, j :: 0 <= i < j < |top| && ItemScore(query, top[i].item) == ItemScore(query, top[j].item) ==> top[i].pos < top[j].pos)
  {
    var score := ScoreFor(query);
    var top := TopItems(score, kb, topK);
    forall i | 0 <= i < |top|
      ensures ItemScore(query, top[i].item) > 0
    {
      assert IsScoredItem(score, kb, top[i]);
    }
    forall i, j | 0 <= i < j < |top|
      ensures ItemScore(query, top[i].item) >= ItemScore(query, top[j].item)
      ensures ItemScore(query, top[i].item) == ItemScore(query, top[j].item) ==> top[i].pos < top[j].pos
    {
      assert Before(top[i], top[j]);
      assert IsScoredItem(score, kb, top[i]) && IsScoredItem(score, kb, top[j]);
    }
  }
}
