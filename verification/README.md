# GENTAX-AI keyword retrieval and text cleaning, in Dafny

GENTAX-AI is a retrieval-augmented tax assistant. This project models the pure
parts of it: the keyword path that picks context passages for a question, and
the text cleaners around that path.

- **Chunk retriever** (`gentaxai/knowledge.py`), in module `Knowledge`:
  - `_clean` collapses whitespace;
  - `_split_into_chunks` cuts a document into overlapping windows of words;
  - `_tokenize` splits text into the maximal runs of `[a-z0-9]` of its
    ASCII-lowered form;
  - `_score` counts query-token hits, damped by document length;
  - `retrieve` keeps the positive scores, stable-sorts them, takes the best
    `max(1, k)` and prefers passages of at least `min_chars` characters;
  - `load_kb` turns each listed `.json` file into numbered chunk records.
- **Vector-index loader** (`gentaxai/base.py`), in module `Base`: `clean_text`
  and the rule that picks a document's text in `load_documents_from_kb`.
- **Older keyword search** (`gentaxai/main.py`), in module `LegacySearch`:
  - `load_json_file` flattens a JSON file into items;
  - `search_knowledge_base` scores items by the distinct long query words they
    contain as substrings, adds 10 for the whole query, and renders the best
    `top_k` items as one context string.
- **PDF page cleaner** (`gentaxai/scripts/02_clean_text.py`), in module
  `PageClean`:
  - `clean_text` collapses whitespace, deletes `Page N of M` footers in any
    letter case, and strips;
  - `process_file` drops blank records and cleans the others.

Shared modules:

- `Text`: characters, maximal runs, words and joins.
- `Normalize`: `str.replace`, `re.sub(r"\s+", " ", …)` and `str.strip`.
- `Ranking`: the stable descending sort, over `(score, position, item)` triples.
- `JsonValue`: parsed JSON values and what reading a file can give.
- `Wrappers`: `Option`.

Some inputs and helpers are parameters rather than modelled code:

- The corpus and the item list are explicit arguments. The model has no
  module-level cache or global.
- A file is given as its name plus a `FileContent`: undecodable, not JSON (its
  raw text), or a parsed value.
- `json.dumps` and Python's `str()` of a JSON value are the uninterpreted
  functions in a `Printers` value.

## Model

| member | source | states |
|---|---|---|
| Knowledge.Clean | GENTAX-AI/gentaxai/knowledge.py:10-13 | The result holds no NBSP, newline or tab. It is canonical: only plain spaces, never two in a row, none at either end. It has the same words as the input and equals them joined by single spaces. |
| Knowledge.CleanIsIdempotent | GENTAX-AI/gentaxai/knowledge.py:10-13 | Cleaning a cleaned text changes nothing. |
| Knowledge.CleanKeepsVisibleChars | GENTAX-AI/gentaxai/knowledge.py:10-13 | The non-whitespace characters of the result are exactly those of the input, in the same order. |
| Normalize.Collapse | GENTAX-AI/gentaxai/knowledge.py:12 | After collapsing, the only whitespace is `' '` and no two spaces are adjacent. A leading non-space character is kept. |
| Normalize.CollapseFixesCollapsed | GENTAX-AI/gentaxai/knowledge.py:12 | Collapsing text that is already collapsed returns it unchanged. |
| Normalize.StripKeepsWords | GENTAX-AI/gentaxai/knowledge.py:12 | Stripping changes no word of the text. |
| Normalize.StripOfCollapsedIsCanonical | GENTAX-AI/gentaxai/knowledge.py:12 | Stripping collapsed text gives canonical text. |
| Normalize.CleanPipelineIsJoinedWords | GENTAX-AI/gentaxai/knowledge.py:11-12 | The three replacements, the collapse and the strip together equal `" ".join(text.split())`. |
| Knowledge.Tokenize | GENTAX-AI/gentaxai/knowledge.py:28-29 | Every token is a non-empty run of `[a-z0-9]` characters. The tokens, concatenated, are exactly the `[a-z0-9]` characters of the ASCII-lowered input, in order. Empty input gives no tokens. |
| Knowledge.TokenizeSplitsAtSeparator | GENTAX-AI/gentaxai/knowledge.py:28-29 | Tokens are maximal: a character that is not in `[a-z0-9]` after lower-casing ends a token, and the tokens of the text around it are the tokens of each side, in order. |
| Knowledge.TokenizeRun | GENTAX-AI/gentaxai/knowledge.py:28-29 | A non-empty text made only of letters and digits, in any ASCII case, is one token: its lower-cased form. |
| Knowledge.TokenizeHyphenated | GENTAX-AI/gentaxai/knowledge.py:28-29 | `GST-rate` tokenizes to `gst` and `rate`. |
| Knowledge.TokenizeJoined | GENTAX-AI/gentaxai/knowledge.py:28-29 | Tokenizing a list of tokens joined by spaces gives back that list. |
| Knowledge.SplitIntoChunks | GENTAX-AI/gentaxai/knowledge.py:15-26 | Under `1 <= max_len` and `overlap < max_len` the loop terminates. There are no chunks exactly when the text has no words. Chunk `j` is the words from window start `j` to `min(start + max_len, n)`, joined by spaces, and holds 1 to `max_len` words. Every chunk but the last ends before the final word. With `overlap >= 0` the last chunk ends at the final word and every word lies in some chunk. A text of at most `max_len` words gives one chunk. |
| Knowledge.WindowStartIsMultiple | GENTAX-AI/gentaxai/knowledge.py:20-25 | Chunk `j` starts at word `j * (max_len - overlap)`. |
| Knowledge.DocFreq | GENTAX-AI/gentaxai/knowledge.py:35-37 | The frequency map has a key for exactly the document's tokens, and each key maps to that token's count. |
| Knowledge.QueryHitsCountOccurrences | GENTAX-AI/gentaxai/knowledge.py:38-39 | The sum of frequency lookups over the query tokens, duplicates included, equals the total number of occurrences of query tokens in the document. |
| Knowledge.Damp | GENTAX-AI/gentaxai/knowledge.py:41 | The length damping keeps the score between 0 and the hit count, and positive exactly when there are hits. |
| Knowledge.Score | GENTAX-AI/gentaxai/knowledge.py:31-42 | The score is never negative and is 0 for a document with no tokens. |
| Knowledge.ScoreCountsOccurrences | GENTAX-AI/gentaxai/knowledge.py:31-42 | For a non-empty document the score is the number of query-token occurrences divided by `1 + len(doc)/5000`. It is positive exactly when some query token occurs in the document. |
| Knowledge.CorpusText | GENTAX-AI/gentaxai/knowledge.py:76-83 | An undecodable file gives no text. Any other file gives canonical text. A non-JSON file gives its words joined by single spaces. |
| Knowledge.DocumentChunks | GENTAX-AI/gentaxai/knowledge.py:84-91 | There is one record per chunk of the document, and none exactly when the document has no words. Record `j` has the document's name as source, `chunk_id == j`, window `j` of 1200 words with overlap 160 as text, and the tokens of that text. Windows stop at the first one that reaches the final word. |
| Knowledge.DocumentRecordsAreUnique | GENTAX-AI/gentaxai/knowledge.py:84-91 | Those conditions fix the records of a document completely: two lists that meet them are equal. |
| Knowledge.FileRecords | GENTAX-AI/gentaxai/knowledge.py:51-91 | A listed file gives the records of its text when its name ends in `.json` (any case) and it decodes, and no records otherwise. |
| Knowledge.LoadKb | GENTAX-AI/gentaxai/knowledge.py:50-91 | The result is the records of every listed file, concatenated in listing order: for a `.json` file that decodes, the windows of its cleaned text numbered from 0; for any other file, nothing. Each record's id is 0 or one more than the previous record of the same source. Each record's tokens are the tokenized text, and its text holds 1 to 1200 words. |
| Knowledge.KbIsUnique | GENTAX-AI/gentaxai/knowledge.py:50-91 | The listed files determine that concatenation: two record lists that both are it are equal. |
| Knowledge.KbHasEveryDocument | GENTAX-AI/gentaxai/knowledge.py:50-91 | Every listed `.json` file that decodes to text with words has its first window among the records, numbered 0 and tagged with its name. |
| Knowledge.KbRecordsComeFromFiles | GENTAX-AI/gentaxai/knowledge.py:50-91 | Every record is window `chunk_id` of the cleaned text of a listed `.json` file that decodes, tagged with that file's name. |
| Knowledge.AppendDocument | GENTAX-AI/gentaxai/knowledge.py:85-91 | Appending one document's records, numbered from 0, keeps the per-document numbering. |
| Knowledge.Scored | GENTAX-AI/gentaxai/knowledge.py:99-103 | The scored list is in corpus order. Each entry is a chunk with its position and its positive score. Every chunk with a positive score appears. |
| Ranking.SortDesc | GENTAX-AI/gentaxai/knowledge.py:104 | The stable sort of a list given in input order is a permutation of it. It is ordered by descending score, with ties in input order. |
| Ranking.RankOrderIsUnique | GENTAX-AI/gentaxai/knowledge.py:104 | Two rank-ordered permutations of the same list are equal, so the sorted result does not depend on how it is computed. |
| Knowledge.Top | GENTAX-AI/gentaxai/knowledge.py:104-105 | The top list is rank-ordered and has `min(max(1, k), #scored)` entries, all drawn from the scored list. Every scoring chunk left out ranks after every chunk kept. |
| Knowledge.KeepLong | GENTAX-AI/gentaxai/knowledge.py:107 | The filter keeps exactly the entries whose text has at least `min_chars` characters, in their order. |
| Knowledge.KeepLongIsEmpty | GENTAX-AI/gentaxai/knowledge.py:107-108 | The filter gives nothing exactly when every top entry is shorter than `min_chars`. |
| Knowledge.RetrieveRanked | GENTAX-AI/gentaxai/knowledge.py:94-108 | A query without tokens retrieves nothing. The result is rank-ordered and has at most `max(1, k)` entries. Each entry is a corpus chunk with its position and positive score. |
| Knowledge.RetrieveKeepsLongOrFallsBack | GENTAX-AI/gentaxai/knowledge.py:105-108 | If some top entry is long enough, exactly the long top entries are returned. Otherwise the result is `top[:k]`, with Python's slice semantics. |
| Knowledge.RetrieveFallback | GENTAX-AI/gentaxai/knowledge.py:105-108 | For `k >= 1` the result is empty exactly when no chunk scores. When no top entry is long enough it has `min(k, #scored)` entries. |
| Knowledge.Retrieve | GENTAX-AI/gentaxai/knowledge.py:94-108 | The returned chunks belong to the corpus and have positive scores, in non-increasing score order, at most `max(1, k)` of them. A query without tokens returns nothing. |
| Base.CleanText | GENTAX-AI/gentaxai/base.py:25-29 | The result is canonical and has the input's words joined by single spaces. It equals `knowledge._clean` on every input. |
| Base.BodyMatchesCorpusText | GENTAX-AI/gentaxai/base.py:54-68 | After cleaning, the document text of every file that opens equals the text the keyword retriever chunks, even though the retriever cleans a flattened value twice. |
| Base.LoadableIsFilter | GENTAX-AI/gentaxai/base.py:43-66 | The loader keeps exactly the listed `.json` files that decode, and nothing else. They come out in listing order: the kept files sit at strictly increasing positions of the listing, and every loadable position is among them. |
| Base.LoadFile | GENTAX-AI/gentaxai/base.py:43-70 | A file yields a document exactly when its name ends in `.json` (any case) and it decodes. The document carries the file name as source and canonical text equal to the retriever's text for that file. |
| Base.LoadDocuments | GENTAX-AI/gentaxai/base.py:43-70 | There is one document per loadable file, in order. Document `i` is the document of loadable file `i`. |
| LegacySearch.Basename | GENTAX-AI/gentaxai/main.py:62 | The base name is the suffix after the last `/`, and contains no `/`. |
| LegacySearch.LoadJsonFile | GENTAX-AI/gentaxai/main.py:51-80 | A list gives one untitled item per element, in order. An object gives one item per key, titled with the key, in order. Each item's content is the rendering of its value that `ListItems` or `FieldItems` states. Every item's source is the file's base name. Any other value, or an unreadable or unparsable file, gives no items. |
| LegacySearch.ListItems | GENTAX-AI/gentaxai/main.py:58-69 | There is one item per list element, in order, untitled, with the given source. A string element is its own content. An object element is rendered by `json.dumps`. Any other element, a nested list included, is rendered by `str()`. |
| LegacySearch.FieldItems | GENTAX-AI/gentaxai/main.py:70-76 | There is one item per object entry, in order, titled with its key, with the given source. A string value is its own content. An object or list value is rendered by `json.dumps`. Any other value is rendered by `str()`. |
| LegacySearch.QueryWordsOfJoin | GENTAX-AI/gentaxai/main.py:128 | The words of two queries joined by a space are the words of the first followed by those of the second. |
| LegacySearch.MatchedWordsIgnoreRepeatsAndShortWords | GENTAX-AI/gentaxai/main.py:128-141 | Adding query words that are already there, or words of fewer than 3 characters, does not change which words match: each distinct long word counts once. |
| LegacySearch.MatchedWordsIgnoreOrder | GENTAX-AI/gentaxai/main.py:128-141 | Swapping two parts of the query does not change which words match. |
| LegacySearch.ItemScoreBounds | GENTAX-AI/gentaxai/main.py:134-145 | An item scores exactly when a long query word or the whole query occurs in it. The score is at most the number of distinct query words plus 10. It is at least 10 when the whole query occurs. |
| LegacySearch.EmptyQueryMatchesEverything | GENTAX-AI/gentaxai/main.py:141-145 | The empty query scores exactly 10 on every item, because the empty string occurs in every text. |
| LegacySearch.Take | GENTAX-AI/gentaxai/main.py:148 | `content[:800]` is the first `min(800, len)` characters. |
| LegacySearch.Section | GENTAX-AI/gentaxai/main.py:148-155 | A section starts with `[Source: …]`. A `\n<title>\n` line follows only when the title is non-empty. Then a newline and at most the first 800 characters of content, with the exact length in both cases. |
| LegacySearch.ScoredItems | GENTAX-AI/gentaxai/main.py:131-157 | The scored items are in input order. Each carries its position and its positive score. Every item with a positive score appears. |
| LegacySearch.TopItems | GENTAX-AI/gentaxai/main.py:159-162 | The top items are rank-ordered. For `top_k >= 0` there are `min(top_k, #scored)` of them. Each one scored. Every scoring item left out ranks after each one kept. |
| LegacySearch.SearchMessages | GENTAX-AI/gentaxai/main.py:123-165 | The result is `[No knowledge base available]` exactly when there are no items. It is `[No relevant information found in knowledge base]` exactly when there are items and none scores. |
| LegacySearch.SearchSections | GENTAX-AI/gentaxai/main.py:159-163 | Otherwise the result is the sections of the top items joined by `\n\n---\n\n`. There are `min(top_k, #scored)` sections, all scoring, in non-increasing score order, with ties in input order. |
| LegacySearch.ScoredItemsNonEmpty | GENTAX-AI/gentaxai/main.py:147-161 | Something is scored exactly when some item has a positive score. |
| LegacySearch.FoundResultShape | GENTAX-AI/gentaxai/main.py:152-163 | A found result is empty or starts with `[S`. |
| LegacySearch.NotAMessage | GENTAX-AI/gentaxai/main.py:152-165 | A text that is empty or starts with `[S` is neither of the two messages, so a found result is never mistaken for one. |
| PageClean.DigitRun | GENTAX-AI/gentaxai/scripts/02_clean_text.py:24 | `\d+` is greedy: the run is all digits and is followed by a non-digit or the end. |
| PageClean.MarkerLenIsLongestMatch | GENTAX-AI/gentaxai/scripts/02_clean_text.py:24 | A non-zero length is a `Page <digits> of <digits>` match, letters in any case, followed by a non-digit or the end. Every match starting there is no longer. A zero length means no match starts there. |
| PageClean.RemoveMarkersChangesIffMarker | GENTAX-AI/gentaxai/scripts/02_clean_text.py:24 | The deletion pass leaves the text unchanged exactly when no marker starts anywhere in it, and otherwise shortens it. |
| PageClean.RemoveSingleMarker | GENTAX-AI/gentaxai/scripts/02_clean_text.py:24 | With one marker between texts that hold no `p`, the pass copies the text before, drops the marker and copies the text after. |
| PageClean.RemoveMarkersKeepsPlainSpaces | GENTAX-AI/gentaxai/scripts/02_clean_text.py:22-24 | Deleting markers from text whose only whitespace is `' '` introduces no other whitespace. |
| PageClean.CleanPage | GENTAX-AI/gentaxai/scripts/02_clean_text.py:19-27 | The cleaned page has no whitespace at either end, its only whitespace is `' '`, and it is no longer than the input. |
| PageClean.CleanPageWithoutMarkers | GENTAX-AI/gentaxai/scripts/02_clean_text.py:19-27 | When no marker starts anywhere in the collapsed text, the cleaned page is the input's words joined by single spaces. |
| PageClean.CleanPageOfCollapsedText | GENTAX-AI/gentaxai/scripts/02_clean_text.py:19-27 | On text that is already collapsed, cleaning only deletes markers and strips. |
| PageClean.CleanPageMayLeaveDoubleSpace | GENTAX-AI/gentaxai/scripts/02_clean_text.py:22-26 | `a Page 1 of 2 b` cleans to `a  b`, so cleaned text can hold two spaces in a row. |
| PageClean.CleanPageMayCreateMarker | GENTAX-AI/gentaxai/scripts/02_clean_text.py:22-26 | `Page 1Page 2 of 3 of 4` cleans to `Page 1 of 4`: deleting the inner marker joins a new marker, which stays. |
| PageClean.CleanRecord | GENTAX-AI/gentaxai/scripts/02_clean_text.py:34-36 | The record's `"text"` becomes the cleaned text. Every other entry, and the order of the keys, is unchanged. |
| PageClean.ProcessFile | GENTAX-AI/gentaxai/scripts/02_clean_text.py:29-38 | Processing fails exactly when some line is not an object or has a non-string text. Otherwise the result is the records whose text is not blank, cleaned, in input order, counted one per kept line. |
| PageClean.MarkerOnlyRecordIsKept | GENTAX-AI/gentaxai/scripts/02_clean_text.py:33-37 | A record whose text is only `Page 3 of 9` passes the blank test, because the test runs before cleaning. It is kept with empty text. |

## Left out

- Reading files, listing directories and the order `os.listdir` or `glob` returns: the listed files are an argument, in the order given.
- The exception chains that decide what a file yields (`knowledge.py` lines 54-74, `base.py` lines 49-66): modelled only by their outcome, the three cases of `FileContent`. A `.json` entry that cannot be opened at all (a directory, a file without read permission) is not one of them: `load_kb` lets that error escape, while `base.py` skips the file.
- Base.BodyMatchesCorpusText: stated only for files that can be opened, the only ones both loaders turn into text.
- A missing knowledge-base directory: the model starts from the listed files.
- `lru_cache` and the module-level `knowledge_base` global: the corpus is a parameter.
- `json.dumps` and `str()` of a JSON value are uninterpreted parameters: their output format is not modelled.
- JSON objects are key/value sequences in file order. Looking a key up gives its last value, as Python's `dict` does.
- LegacySearch.FieldItems: repeated keys are not collapsed. It gives one item per occurrence, where Python gives one per distinct key, at its first position, with its last value.
- PageClean.CleanRecord: sets `"text"` at every occurrence of the key, where Python's `dict` holds it once.
- The FastAPI app, the startup hook, the LLM calls and the FAISS, embedding and splitter pipeline of `base.py`: external libraries.
- `scripts/01_extract_pdfs.py`, `03_structure_data.py`, `04_build_kb.py` and `utils.py`: file I/O with no logic beyond it. Writing the cleaned JSON-lines file is left out too.
- Knowledge.Score: scores are exact reals, not IEEE doubles. Float rounding could break a tie or order two near-equal scores differently.
- Knowledge.Tokenize: `str.lower()` is modelled on ASCII letters only. Non-ASCII characters whose Python lower-case form is an ASCII letter, such as the Kelvin sign, are not tokenized as that letter.
- LegacySearch.MatchedWords: the same ASCII-only lower-casing applies to the query and the item text.
- PageClean.DigitRun: `\d` is modelled as the ASCII digits. Python's `re` also matches other Unicode decimal digits.
- Knowledge.SplitIntoChunks: requires `1 <= max_len` and `overlap < max_len`. The source also accepts other arguments: a text of at most `max_len` words gives one chunk whatever the overlap, and `max_len <= 0` with `overlap < max_len` ends after emitting empty chunks. Those arguments are not modelled; `load_kb` always passes 1200 and 160. With `overlap >= max_len` and a longer text the source loops forever. Coverage and the final window are stated for `overlap >= 0` only; a negative overlap skips words.
- PageClean.ProcessFile: `json.loads` failing on a line is outside the model, because lines arrive parsed. A line that is not an object, or whose `"text"` is not a string, is the failure case (`None`).
- LegacySearch.LoadJsonFile: which printer renders a non-string value is stated, but not the text it prints.
