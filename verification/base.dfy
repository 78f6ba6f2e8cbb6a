/**
 The document loader of `gentaxai/base.py`, which prepares the files of the
 knowledge-base directory for the vector index: each readable `.json` file
 becomes one cleaned document tagged with its file name. The embedding model,
 the text splitter and the index are outside this model.
 */
module Base {
  import opened Wrappers
  import opened Text
  import opened Normalize
  import opened JsonValue
  import Knowledge

  /**
   `clean_text`: the same replacements, collapse and strip as the keyword
   retriever's cleaner, so the two agree on every input.
   */
  function CleanText(text: string): (r: string)
    ensures Canonical(r)
    ensures Words(r) == Words(text)
    ensures r == Join(Words(text), " ")
    ensures r == Knowledge.Clean(text)
  {
    CleanPipelineIsJoinedWords(text);
    Strip(Collapse(ReplaceChar(ReplaceChar(ReplaceChar(text, '\U{A0}'), '\n'), '\t'), false))
  }

  /**
   The text of one file before cleaning: the string form of a top-level
   `"text"` entry, else the JSON rendering of the whole value; a file that is
   not JSON contributes its raw text, and an undecodable one is skipped.
   */
  function DocumentBody(content: FileContent, pr: Printers): (r: Option<string>)
    ensures r.None? <==> content.Undecodable?
    ensures content.Unparsable? ==> r == Some(content.raw)
    ensures content.Parsed? && TextField(content.value).Some? ==>
              r == Some(PyStr(TextField(content.value).value, pr))
    ensures content.Parsed? && TextField(content.value).None? ==> r == Some(pr.dumps(content.value))
  {
    match content
    case Undecodable => None
    case Unparsable(raw) => Some(raw)
    case Parsed(v) =>
      match TextField(v)
      case Some(t) => Some(PyStr(t, pr))
      case None => Some(pr.dumps(v))
  }

  /**
   The vector index and the keyword retriever see the same text for every
   file, although the retriever cleans a flattened value twice.
   */
  lemma {:induction false} BodyMatchesCorpusText(content: FileContent, pr: Printers)
    ensures match DocumentBody(content, pr)
            case None => Knowledge.CorpusText(content, pr).None?
            case Some(body) => Knowledge.CorpusText(content, pr) == Some(CleanText(body))
  {
    if content.Parsed? && TextField(content.value).None? {
      Knowledge.CleanIsIdempotent(pr.dumps(content.value));
    }
  }

  /** A listed file: its name and what reading it gives. */
  type ListedFile = (string, FileContent)

  /** One document handed to the splitter. */
  datatype Document = Document(pageContent: string, source: string)

  /** The listed files the loader keeps, in listing order: `.json` names whose text decodes. */
  function Loadable(files: seq<ListedFile>): seq<ListedFile> {
    if |files| == 0 then []
    else if IsLoadable(files[0]) then [files[0]] + Loadable(files[1..])
    else Loadable(files[1..])
  }

  /** A `.json` file whose text decodes: the loader keeps it. */
  predicate IsLoadable(f: ListedFile) {
    Knowledge.IsJsonName(f.0) && !f.1.Undecodable?
  }

  /**
   `out` is `files` at the strictly increasing positions `idx`, and those
   positions include every loadable file's.
   */
  predicate PicksLoadableInOrder(files: seq<ListedFile>, out: seq<ListedFile>, idx: seq<int>) {
    && |idx| == |out|
    && (forall i :: 0 <= i < |idx| ==> 0 <= idx[i] < |files| && out[i] == files[idx[i]])
    && (forall i, j :: 0 <= i < j < |idx| ==> idx[i] < idx[j])
    && (forall g :: 0 <= g < |files| && IsLoadable(files[g]) ==> g in idx)
  }

  /** `Loadable` keeps exactly the `.json` files that decode, in listing order, and nothing else. */
  lemma {:induction false} LoadableIsFilter(files: seq<ListedFile>)
    ensures forall i :: 0 <= i < |Loadable(files)| ==> IsLoadable(Loadable(files)[i])
    ensures forall f :: f in files && IsLoadable(f) ==> f in Loadable(files)
    ensures forall f :: f in Loadable(files) ==> f in files
    ensures |Loadable(files)| <= |files|
    ensures exists idx :: PicksLoadableInOrder(files, Loadable(files), idx)
    decreases |files|
  {
    if |files| > 0 {
      LoadableIsFilter(files[1..]);
      assert forall f :: f in files ==> f == files[0] || f in files[1..];
    }
    LoadableInOrder(files);
  }

  lemma {:induction false} LoadableInOrder(files: seq<ListedFile>)
    ensures exists idx :: PicksLoadableInOrder(files, Loadable(files), idx)
    decreases |files|
  {
    if |files| == 0 {
      assert Loadable(files) == [];
      var none: seq<int> := [];
      assert PicksLoadableInOrder(files, Loadable(files), none);
    } else {
      LoadableInOrder(files[1..]);
      var idx0 :| PicksLoadableInOrder(files[1..], Loadable(files[1..]), idx0);
      var idx := ShiftedPicks(files, idx0);
      assert PicksLoadableInOrder(files, Loadable(files), idx);
    }
  }

  /** The positions of the loadable files among `files`, from those among `files[1..]`. */
  lemma ShiftedPicks(files: seq<ListedFile>, idx0: seq<int>) returns (idx: seq<int>)
    requires |files| > 0 && PicksLoadableInOrder(files[1..], Loadable(files[1..]), idx0)
    ensures PicksLoadableInOrder(files, Loadable(files), idx)
  {
    var rest := Loadable(files[1..]);
    var shifted := ShiftIndices(files, idx0);
    if IsLoadable(files[0]) {
      idx := [0] + shifted;
      assert Loadable(files) == [files[0]] + rest;
      ConsPicks(files, rest, shifted);
    } else {
      idx := shifted;
    }
  }

  /** A loadable first file takes position 0 ahead of the positions of the later loadable files. */
  lemma ConsPicks(files: seq<ListedFile>, rest: seq<ListedFile>, shifted: seq<int>)
    requires |files| > 0 && IsLoadable(files[0]) && |shifted| == |rest|
    requires forall i :: 0 <= i < |shifted| ==> 1 <= shifted[i] < |files| && rest[i] == files[shifted[i]]
    requires forall i, j :: 0 <= i < j < |shifted| ==> shifted[i] < shifted[j]
    requires forall g :: 1 <= g < |files| && IsLoadable(files[g]) ==> g in shifted
    ensures PicksLoadableInOrder(files, [files[0]] + rest, [0] + shifted)
  {
    var idx, out := [0] + shifted, [files[0]] + rest;
    assert forall i :: 0 < i < |idx| ==> idx[i] == shifted[i - 1] && out[i] == rest[i - 1];
  }

  /** Positions in `files[1..]`, moved up by one, are positions in `files`. */
  lemma ShiftIndices(files: seq<ListedFile>, idx0: seq<int>) returns (shifted: seq<int>)
    requires |files| > 0 && PicksLoadableInOrder(files[1..], Loadable(files[1..]), idx0)
    ensures |shifted| == |idx0|
    ensures forall i :: 0 <= i < |shifted| ==> 1 <= shifted[i] < |files| && Loadable(files[1..])[i] == files[shifted[i]]
    ensures forall i, j :: 0 <= i < j < |shifted| ==> shifted[i] < shifted[j]
    ensures forall g :: 1 <= g < |files| && IsLoadable(files[g]) ==> g in shifted
  {
    var rest := Loadable(files[1..]);
    shifted := seq(|idx0|, i requires 0 <= i < |idx0| => idx0[i] + 1);
    forall g | 1 <= g < |files| && IsLoadable(files[g])
      ensures g in shifted
    {
      assert files[1..][g - 1] == files[g];
      var i :| 0 <= i < |idx0| && idx0[i] == g - 1;
      assert shifted[i] == g;
    }
    forall i | 0 <= i < |shifted|
      ensures 1 <= shifted[i] < |files| && rest[i] == files[shifted[i]]
    {
      assert files[1..][idx0[i]] == files[shifted[i]];
    }
  }

  /**
   `doc` is the document made from `file`: tagged with the file name, in
   canonical form, and equal to the text the keyword retriever chunks.
   */
  predicate DocumentOf(doc: Document, file: (string, FileContent), pr: Printers) {
    && doc.source == file.0
    && Canonical(doc.pageContent)
    && Knowledge.CorpusText(file.1, pr) == Some(doc.pageContent)
  }

  /** One iteration of the loader: the document of a `.json` file whose text decodes. */
  function LoadFile(file: (string, FileContent), pr: Printers): (r: Option<Document>)
    ensures r.Some? <==> Knowledge.IsJsonName(file.0) && !file.1.Undecodable?
    ensures r.Some? ==> DocumentOf(r.value, file, pr)
  {
    if !Knowledge.IsJsonName(file.0) then None
    else
      match DocumentBody(file.1, pr)
      case None => None
      case Some(body) =>
        BodyMatchesCorpusText(file.1, pr);
        Some(Document(CleanText(body), file.0))
  }

  /** The results of `load` on the listed files, in listing order, skipping the files it refuses. */
  function LoadAll(files: seq<ListedFile>, load: ListedFile -> Option<Document>): seq<Document>
    decreases |files|
  {
    if |files| == 0 then [] else OneOrNone(load(files[0])) + LoadAll(files[1..], load)
  }

  function OneOrNone<T>(o: Option<T>): seq<T> {
    match o case Some(x) => [x] case None => []
  }

  /**
   When `load` accepts exactly the loadable files and relates each result to
   its file, the loaded documents pair up with the loadable files one by one.
   */
  lemma {:induction false} LoadAllPairs(files: seq<ListedFile>,
                                        load: ListedFile -> Option<Document>,
                                        rel: (Document, ListedFile) -> bool)
    requires forall f :: load(f).Some? <==> Knowledge.IsJsonName(f.0) && !f.1.Undecodable?
    requires forall f :: load(f).Some? ==> rel(load(f).value, f)
    ensures |LoadAll(files, load)| == |Loadable(files)|
    ensures forall i :: 0 <= i < |LoadAll(files, load)| ==> rel(LoadAll(files, load)[i], Loadable(files)[i])
    decreases |files|
  {
    if |files| > 0 {
      LoadAllPairs(files[1..], load, rel);
      var one := load(files[0]);
      if one.Some? {
        PairUp(rel, one.value, files[0], LoadAll(files[1..], load), Loadable(files[1..]));
      } else {
        assert LoadAll(files, load) == [] + LoadAll(files[1..], load);
      }
    }
  }

  /** Prepending one related pair to two pairwise related lists keeps them pairwise related. */
  lemma PairUp<A, B>(rel: (A, B) -> bool, x: A, y: B, xs: seq<A>, ys: seq<B>)
    requires rel(x, y) && |xs| == |ys|
    requires forall i :: 0 <= i < |xs| ==> rel(xs[i], ys[i])
    ensures forall i :: 0 <= i < |xs| + 1 ==> rel(([x] + xs)[i], ([y] + ys)[i])
  {
    forall i | 0 <= i < |xs| + 1
      ensures rel(([x] + xs)[i], ([y] + ys)[i])
    {
      if i > 0 {
        assert ([x] + xs)[i] == xs[i - 1] && ([y] + ys)[i] == ys[i - 1];
      }
    }
  }

  /** Loading the files from position `f` on: the result for file `f`, then the rest. */
  lemma LoadAllStep(files: seq<ListedFile>, f: int, load: ListedFile -> Option<Document>)
    requires 0 <= f < |files|
    ensures LoadAll(files[f..], load) == OneOrNone(load(files[f])) + LoadAll(files[f + 1..], load)
  {
    assert files[f..][1..] == files[f + 1..];
  }

  lemma AppendAssoc<T>(a: seq<T>, b: seq<T>, c: seq<T>)
    ensures a + (b + c) == (a + b) + c
  {
  }

  /**
   `load_documents_from_kb` over the listed files: one cleaned document per
   loadable file, in order, whose text is what the keyword retriever chunks.
   */
  method LoadDocuments(files: seq<ListedFile>, pr: Printers) returns (docs: seq<Document>)
    ensures |docs| == |Loadable(files)|
    ensures forall i :: 0 <= i < |docs| ==> DocumentOf(docs[i], Loadable(files)[i], pr)
  {
    var load := f => LoadFile(f, pr);
    docs := LoadEach(files, load);
    LoadedDocumentsPair(files, pr, load);
  }

  /** The loader's loop: `load` on every listed file, collecting the documents it returns. */
  method LoadEach(files: seq<ListedFile>, load: ListedFile -> Option<Document>) returns (docs: seq<Document>)
    ensures docs == LoadAll(files, load)
  {
    docs := [];
    for f := 0 to |files|
      invariant docs + LoadAll(files[f..], load) == LoadAll(files, load)
    {
      var doc := load(files[f]);
      LoadAllStep(files, f, load);
      AppendAssoc(docs, OneOrNone(doc), LoadAll(files[f + 1..], load));
      docs := docs + OneOrNone(doc);
    }
    assert files[|files|..] == [];
  }

  lemma LoadedDocumentsPair(files: seq<ListedFile>, pr: Printers, load: ListedFile -> Option<Document>)
    requires forall f :: load(f) == LoadFile(f, pr)
    ensures |LoadAll(files, load)| == |Loadable(files)|
    ensures forall i :: 0 <= i < |LoadAll(files, load)| ==> DocumentOf(LoadAll(files, load)[i], Loadable(files)[i], pr)
  {
    LoadAllPairs(files, load, (d, f) => DocumentOf(d, f, pr));
  }
}
