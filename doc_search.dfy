/**
  The document searcher of src/doc_search.py: a corpus materialised once at
  construction, two vector-space models fitted lazily on the first search,
  and the top-N ranking that turns one score per document into an ordered
  list of (document, similarity) hits.

  The vectorisers and the cosine similarity are library code: a searcher
  receives them as opaque functions. Scores are reals; only their order is used.
 */
module DocSearch {
  import opened Wrappers
  import opened OrderedDict

  type Text = string

  /** One entry of a search result: `{'document': name, 'similarity': score}`. */
  datatype Hit = Hit(document: Name, similarity: real)

  // ---------------------------------------------------------------------------
  // argsort

  /** `order` lists every index of a sequence of length `n` exactly once. */
  ghost predicate IsIndexPermutation(order: seq<nat>, n: nat) {
    && |order| == n
    && (forall p :: 0 <= p < n ==> order[p] < n)
    && (forall p, q :: 0 <= p < q < n ==> order[p] != order[q])
    && (forall i :: 0 <= i < n ==> i in order)
  }

  /** Every index of `order` is an index of `s`, and `s` read through `order` is ascending. */
  ghost predicate SortedBy(order: seq<nat>, s: seq<real>) {
    && (forall p :: 0 <= p < |order| ==> order[p] < |s|)
    && (forall p, q :: 0 <= p < q < |order| ==> s[order[p]] <= s[order[q]])
  }

  /**
    What `numpy.argsort` promises: a permutation of the indices that sorts the
    scores ascending. It promises nothing about the order of equal scores.
   */
  ghost predicate IsArgsort(order: seq<nat>, s: seq<real>) {
    IsIndexPermutation(order, |s|) && SortedBy(order, s)
  }

  /** In a sorted order, the head scores at most everything after it and at most `s[i]` when `i` goes after it. */
  lemma HeadBelowRest(order: seq<nat>, i: nat, s: seq<real>, rest: seq<nat>)
    requires |order| > 0 && i < |s| && SortedBy(order, s) && s[order[0]] <= s[i]
    requires forall x :: x in rest <==> x in order[1..] || x == i
    ensures forall q :: 0 <= q < |rest| ==> rest[q] < |s| ==> s[order[0]] <= s[rest[q]]
  {
    forall q | 0 <= q < |rest| && rest[q] < |s|
      ensures s[order[0]] <= s[rest[q]]
    {
      assert rest[q] in rest;
      if rest[q] != i {
        var p :| 0 <= p < |order[1..]| && order[1..][p] == rest[q];
        assert order[p + 1] == rest[q];
      }
    }
  }

  /** With distinct indices and `i` new, the head does not come back in the insertion into the tail. */
  lemma HeadNotInRest(order: seq<nat>, i: nat, rest: seq<nat>)
    requires |order| > 0
    requires forall x :: x in rest <==> x in order[1..] || x == i
    ensures i !in order && (forall p, q :: 0 <= p < q < |order| ==> order[p] != order[q]) ==> order[0] !in rest
  {
    if forall p, q :: 0 <= p < q < |order| ==> order[p] != order[q] {
      forall p | 0 <= p < |order[1..]|
        ensures order[1..][p] != order[0]
      {
        assert order[1..][p] == order[p + 1];
      }
    }
  }

  /** Inserts index `i` after every listed index whose score is at most `s[i]`. */
  function InsertByScore(order: seq<nat>, i: nat, s: seq<real>): (r: seq<nat>)
    requires i < |s| && SortedBy(order, s)
    ensures |r| == |order| + 1
    ensures forall x :: x in r <==> x in order || x == i
    ensures SortedBy(r, s)
    ensures i !in order && (forall p, q :: 0 <= p < q < |order| ==> order[p] != order[q]) ==>
              forall p, q :: 0 <= p < q < |r| ==> r[p] != r[q]
  {
    if order == [] then [i]
    else if s[i] < s[order[0]] then [i] + order
    else
      var rest := InsertByScore(order[1..], i, s);
      HeadBelowRest(order, i, s, rest);
      HeadNotInRest(order, i, rest);
      [order[0]] + rest
  }

  /** The argsort of the first `n` scores, built by insertion. */
  function ArgsortPrefix(s: seq<real>, n: nat): (r: seq<nat>)
    requires n <= |s|
    ensures |r| == n
    ensures forall x: nat :: x in r <==> x < n
    ensures forall p, q :: 0 <= p < q < n ==> r[p] != r[q]
    ensures SortedBy(r, s)
  {
    if n == 0 then [] else InsertByScore(ArgsortPrefix(s, n - 1), n - 1, s)
  }

  /**
    One argsort of `s`. It stands for numpy's `argsort`; everything built on it
    relies only on the ensures clause, so the order among ties stays open.
   */
  function Argsort(s: seq<real>): (r: seq<nat>)
    ensures IsArgsort(r, s)
  {
    ArgsortPrefix(s, |s|)
  }

  // ---------------------------------------------------------------------------
  // `argsort()[-top_n:][::-1]`

  /** The start index Python uses for `a[start:]` on a sequence of length `n`. */
  function PySliceStart(n: nat, start: int): (st: nat)
    ensures st <= n
  {
    if start < 0 then (if n + start < 0 then 0 else n + start)
    else if start > n then n else start
  }

  function Reversed(s: seq<nat>): (r: seq<nat>)
    ensures |r| == |s|
    ensures forall k :: 0 <= k < |s| ==> r[k] == s[|s| - 1 - k]
  {
    seq(|s|, k requires 0 <= k < |s| => s[|s| - 1 - k])
  }

  /** Reversing twice gives back the original sequence. */
  lemma ReversedTwice(s: seq<nat>)
    ensures Reversed(Reversed(s)) == s
  {
    var r := Reversed(s);
    forall k | 0 <= k < |s|
      ensures Reversed(r)[k] == s[k]
    {
      assert Reversed(r)[k] == r[|s| - 1 - k] == s[k];
    }
  }

  /** Reversing keeps every element and its multiplicity. */
  lemma {:induction false} ReversedPermutes(s: seq<nat>)
    ensures multiset(Reversed(s)) == multiset(s)
  {
    if s != [] {
      var init := s[..|s| - 1];
      ReversedPermutes(init);
      assert Reversed(s) == [s[|s| - 1]] + Reversed(init);
      assert s == init + [s[|s| - 1]];
    }
  }

  /** `top_indices` of line 40: the last entries of the ascending order, highest first. */
  function TopIndices(order: seq<nat>, topN: int): seq<nat>
  {
    Reversed(order[PySliceStart(|order|, -topN)..])
  }

  /**
    How many hits a ranking of `n` documents returns, case by case: `top_n`
    itself capped at `n` for a positive `top_n`, everything for 0 (the slice
    `[-0:]` is the whole array), and all but the `-top_n` lowest for a
    negative one.
   */
  function KeptCount(n: nat, topN: int): nat
  {
    if topN >= 1 then (if topN < n then topN else n)
    else if topN == 0 then n
    else if -topN < n then n + topN else 0
  }

  /** Position `j` of the kept indices is position `n - 1 - j` of the ascending order. */
  lemma TopIndexAt(order: seq<nat>, topN: int, j: nat)
    requires j < |TopIndices(order, topN)|
    ensures |TopIndices(order, topN)| == |order| - PySliceStart(|order|, -topN)
    ensures PySliceStart(|order|, -topN) <= |order| - 1 - j
    ensures TopIndices(order, topN)[j] == order[|order| - 1 - j]
  {
  }

  /** No index is kept twice. */
  lemma TopDistinct(order: seq<nat>, s: seq<real>, topN: int)
    requires IsArgsort(order, s)
    ensures var top := TopIndices(order, topN);
      forall j, l :: 0 <= j < l < |top| ==> top[j] != top[l]
  {
    var top := TopIndices(order, topN);
    forall j, l | 0 <= j < l < |top|
      ensures top[j] != top[l]
    {
      TopIndexAt(order, topN, j);
      TopIndexAt(order, topN, l);
    }
  }

  /** Every kept index is a position of the scores. */
  lemma TopInRange(order: seq<nat>, s: seq<real>, topN: int)
    requires IsArgsort(order, s)
    ensures var top := TopIndices(order, topN);
      forall j :: 0 <= j < |top| ==> top[j] < |s|
  {
    var top := TopIndices(order, topN);
    forall j | 0 <= j < |top|
      ensures top[j] < |s|
    {
      TopIndexAt(order, topN, j);
    }
  }

  /** The kept indices run from the highest score down. */
  lemma TopOrdered(order: seq<nat>, s: seq<real>, topN: int)
    requires IsArgsort(order, s)
    ensures var top := TopIndices(order, topN);
      && (forall j :: 0 <= j < |top| ==> top[j] < |s|)
      && (forall j, l :: 0 <= j < l < |top| ==> s[top[j]] >= s[top[l]])
  {
    var top := TopIndices(order, topN);
    TopInRange(order, s, topN);
    forall j, l | 0 <= j < l < |top|
      ensures s[top[j]] >= s[top[l]]
    {
      TopIndexAt(order, topN, j);
      TopIndexAt(order, topN, l);
    }
  }

  /** Every index of the ascending order from the slice start on is kept. */
  lemma TopKeepsTail(order: seq<nat>, topN: int, p: nat)
    requires PySliceStart(|order|, -topN) <= p < |order|
    ensures order[p] in TopIndices(order, topN)
  {
    var top := TopIndices(order, topN);
    assert top[|order| - 1 - p] == order[p];
  }

  /** An index that is not kept scores at most every kept one. */
  lemma TopDominates(order: seq<nat>, s: seq<real>, topN: int, i: nat, j: nat)
    requires IsArgsort(order, s)
    requires i < |s| && i !in TopIndices(order, topN) && j < |TopIndices(order, topN)|
    ensures TopIndices(order, topN)[j] < |s| && s[i] <= s[TopIndices(order, topN)[j]]
  {
    var n := |s|;
    assert i in order;
    var p :| 0 <= p < n && order[p] == i;
    if PySliceStart(n, -topN) <= p {
      TopKeepsTail(order, topN, p);
    }
    TopIndexAt(order, topN, j);
  }

  /** The indices a ranking keeps: each once, highest score first, none outscored by a dropped one. */
  lemma TopIndicesFacts(order: seq<nat>, s: seq<real>, topN: int)
    requires IsArgsort(order, s)
    ensures var top := TopIndices(order, topN);
      && |top| == KeptCount(|s|, topN)
      && (forall j :: 0 <= j < |top| ==> top[j] < |s|)
      && (forall j, l :: 0 <= j < l < |top| ==> top[j] != top[l])
      && (forall j, l :: 0 <= j < l < |top| ==> s[top[j]] >= s[top[l]])
      && (forall i, j :: 0 <= i < |s| && i !in top && 0 <= j < |top| ==> s[i] <= s[top[j]])
  {
    var top := TopIndices(order, topN);
    TopDistinct(order, s, topN);
    TopOrdered(order, s, topN);
    forall i, j | 0 <= i < |s| && i !in top && 0 <= j < |top|
      ensures s[i] <= s[top[j]]
    {
      TopDominates(order, s, topN, i, j);
    }
  }

  // ---------------------------------------------------------------------------
  // what a ranking promises

  function Documents(results: seq<Hit>): (docs: seq<Name>)
    ensures |docs| == |results|
    ensures forall j :: 0 <= j < |results| ==> docs[j] == results[j].document
  {
    seq(|results|, j requires 0 <= j < |results| => results[j].document)
  }

  /** The similarities along the list never increase. */
  ghost predicate NonIncreasing(results: seq<Hit>) {
    forall j, l :: 0 <= j < l < |results| ==> results[j].similarity >= results[l].similarity
  }

  /** Each hit names a document of the corpus and carries that document's score. */
  ghost predicate ScoresMatch(results: seq<Hit>, names: seq<Name>, sims: seq<real>)
    requires |names| == |sims|
  {
    && (forall j :: 0 <= j < |results| ==> results[j].document in names)
    && (forall j, i :: 0 <= j < |results| && 0 <= i < |names| && names[i] == results[j].document ==>
          results[j].similarity == sims[i])
  }

  /** No document left out of the list scores above any document in it. */
  ghost predicate Dominates(results: seq<Hit>, names: seq<Name>, sims: seq<real>)
    requires |names| == |sims|
  {
    forall i, j :: 0 <= i < |names| && names[i] !in Documents(results) && 0 <= j < |results| ==>
      sims[i] <= results[j].similarity
  }

  /** `results` is a valid answer of `_get_top_results(sims, top_n)` over documents `names`. */
  ghost predicate IsTopResults(results: seq<Hit>, names: seq<Name>, sims: seq<real>, topN: int)
    requires |names| == |sims|
  {
    && |results| == KeptCount(|sims|, topN)
    && Distinct(Documents(results))
    && NonIncreasing(results)
    && ScoresMatch(results, names, sims)
    && Dominates(results, names, sims)
  }

  /** Hits built from the kept indices of an argsort form a valid ranking. */
  lemma TopHitsAreTopResults(names: seq<Name>, sims: seq<real>, order: seq<nat>, topN: int, results: seq<Hit>)
    requires |names| == |sims| && Distinct(names) && IsArgsort(order, sims)
    requires var top := TopIndices(order, topN);
      && |results| == |top|
      && forall j :: 0 <= j < |top| ==> top[j] < |sims| && results[j] == Hit(names[top[j]], sims[top[j]])
    ensures IsTopResults(results, names, sims, topN)
  {
    var top := TopIndices(order, topN);
    TopIndicesFacts(order, sims, topN);
    forall j, l | 0 <= j < l < |results|
      ensures Documents(results)[j] != Documents(results)[l]
    {
      assert top[j] != top[l];
    }
  }

  /**
    `_get_top_results`: argsort the scores, keep the slice `[-top_n:]`, reverse
    it, and map each index to the document name at that position.
   */
  method GetTopResults(names: seq<Name>, similarities: seq<real>, topN: int) returns (results: seq<Hit>)
    requires |names| == |similarities| && Distinct(names)
    ensures topN >= 1 ==> |results| == (if topN < |names| then topN else |names|)
    ensures topN == 0 ==> |results| == |names|
    ensures topN < 0 ==> |results| == (if -topN < |names| then |names| + topN else 0)
    ensures IsTopResults(results, names, similarities, topN)
  {
    var order := Argsort(similarities);
    var topIndices := TopIndices(order, topN);
    TopInRange(order, similarities, topN);
    results := [];
    for k := 0 to |topIndices|
      invariant |results| == k
      invariant forall j :: 0 <= j < k ==>
                  results[j] == Hit(names[topIndices[j]], similarities[topIndices[j]])
    {
      var idx := topIndices[k];
      results := results + [Hit(names[idx], similarities[idx])];
    }
    TopHitsAreTopResults(names, similarities, order, topN, results);
  }

  // ---------------------------------------------------------------------------
  // the searcher

  /** Which of the two vector-space models a search uses. */
  datatype Kind = BagOfWords | Tfidf

  /**
    A fitted vectoriser together with its document-term matrix. Fitting is
    deterministic, so the model is determined by its kind and its corpus.
   */
  datatype Fitted = Fitted(kind: Kind, corpus: seq<Text>)

  /** sklearn rejects a corpus without a single token ("empty vocabulary"). */
  datatype SearchError = EmptyVocabulary

  /**
    `{name: func() for name, func in documents.items()}` over the first `n`
    entries: every loader is called once, in key order, and its text is stored
    under its own name.
   */
  function Materialise<L>(documents: Dict<L>, read: L -> Text, n: nat): (r: Dict<Text>)
    requires documents.Valid() && n <= |documents.keys|
    ensures r.Valid()
    ensures |r.keys| == n && forall j :: 0 <= j < n ==> r.keys[j] == documents.keys[j]
    ensures forall k :: k in r.vals ==> k in documents.vals && r.vals[k] == read(documents.vals[k])
  {
    if n == 0 then Empty()
    else
      var k := documents.keys[n - 1];
      var init := Materialise(documents, read, n - 1);
      KeysDistinct(documents);
      Members(init);
      assert k !in init.vals;
      Set(init, k, read(ValueAt(documents, n - 1)))
  }

  /** One more turn of the comprehension stores the next loader's text and logs one more name. */
  lemma MaterialiseStep<L>(documents: Dict<L>, read: L -> Text, j: nat)
    requires documents.Valid() && j < |documents.keys|
    ensures Materialise(documents, read, j).Valid()
    ensures Materialise(documents, read, j + 1) ==
              Set(Materialise(documents, read, j), documents.keys[j], read(ValueAt(documents, j)))
    ensures documents.keys[..j + 1] == documents.keys[..j] + [documents.keys[j]]
  {
  }

  /**
    The comprehension of `__init__` as the loop it runs: call each loader in
    key order, logging the call, and store its text under the same name.
   */
  method LoadAll<L>(documents: Dict<L>, read: L -> Text) returns (texts: Dict<Text>, ghost calls: seq<Name>)
    requires documents.Valid()
    ensures texts == Materialise(documents, read, |documents.keys|)
    ensures calls == documents.keys
  {
    texts := Empty();
    calls := [];
    for j := 0 to |documents.keys|
      invariant texts == Materialise(documents, read, j)
      invariant calls == documents.keys[..j]
    {
      var name := documents.keys[j];
      var text := read(ValueAt(documents, j));
      MaterialiseStep(documents, read, j);
      calls := calls + [name];
      texts := Set(texts, name, text);
    }
    assert documents.keys[..|documents.keys|] == documents.keys;
  }

  class DocumentSearcher<L> {
    /** The loaders the searcher was built from. */
    const documents: Dict<L>
    /** The text each loader produced at construction. */
    const docContents: Dict<Text>
    /** Calls a loader: what the zero-argument function returns. */
    const read: L -> Text
    /** `vectorizer` with `bow_matrix`: `None` until the first fit. */
    var bowModel: Option<Fitted>
    /** `tfidf_vectorizer` with `tfidf_matrix`: `None` until the first fit. */
    var tfidfModel: Option<Fitted>

    /** Whether the vectorisers find at least one token in a corpus. */
    const hasVocabulary: seq<Text> -> bool
    /** `cosine_similarity(transform([query]), matrix)[i]` for the model of a kind fitted on a corpus. */
    const scorer: (Kind, seq<Text>, Text, nat) -> real

    /** How many times `preprocess` has fitted the two models. */
    ghost var fits: nat
    /** The documents whose loader has been called, in call order. */
    ghost var loaded: seq<Name>

    ghost function Corpus(): seq<Text>
      reads this
      requires docContents.Valid()
    {
      Values(docContents)
    }

    ghost predicate Valid()
      reads this
    {
      && documents.Valid()
      && docContents == Materialise(documents, read, |documents.keys|)
      && (bowModel.Some? <==> tfidfModel.Some?)
      && (bowModel.Some? ==> bowModel == Some(Fitted(BagOfWords, Corpus())) && hasVocabulary(Corpus()))
      && (tfidfModel.Some? ==> tfidfModel == Some(Fitted(Tfidf, Corpus())))
      && (bowModel.None? ==> fits == 0)
    }

    /** `__init__`: materialise every document now; both models start unset. */
    constructor (documents: Dict<L>, read: L -> Text, hasVocabulary: seq<Text> -> bool,
                 scorer: (Kind, seq<Text>, Text, nat) -> real)
      requires documents.Valid()
      ensures Valid()
      ensures this.documents == documents && this.read == read
      ensures this.hasVocabulary == hasVocabulary && this.scorer == scorer
      ensures docContents.keys == documents.keys
      ensures forall k :: k in docContents.vals ==> k in documents.vals && docContents.vals[k] == read(documents.vals[k])
      ensures bowModel == None && tfidfModel == None && fits == 0
      ensures loaded == documents.keys
    {
      this.documents := documents;
      this.read := read;
      this.hasVocabulary := hasVocabulary;
      this.scorer := scorer;
      var texts, calls := LoadAll(documents, read);
      this.docContents := texts;
      bowModel := None;
      tfidfModel := None;
      fits := 0;
      loaded := calls;
    }

    /** The score of every document, in `doc_contents` order, under a fitted model. */
    function Similarities(model: Fitted, query: Text): (sims: seq<real>)
      reads this
      ensures |sims| == |model.corpus|
    {
      var score := scorer;
      seq(|model.corpus|, i requires 0 <= i < |model.corpus| => score(model.kind, model.corpus, query, i))
    }

    /** `preprocess`: fit both models on the materialised corpus. */
    method Preprocess() returns (ok: bool)
      requires Valid()
      modifies this`bowModel, this`tfidfModel, this`fits
      ensures Valid()
      ensures loaded == old(loaded)
      ensures ok == hasVocabulary(Corpus())
      ensures ok ==>
                bowModel == Some(Fitted(BagOfWords, Corpus())) &&
                tfidfModel == Some(Fitted(Tfidf, Corpus())) &&
                fits == old(fits) + 1
      ensures !ok ==>
                bowModel == old(bowModel) == None &&
                tfidfModel == old(tfidfModel) == None &&
                fits == old(fits)
    {
      var corpus := Values(docContents);
      ok := hasVocabulary(corpus);
      if !ok {
        return;
      }
      bowModel := Some(Fitted(BagOfWords, corpus));
      tfidfModel := Some(Fitted(Tfidf, corpus));
      fits := fits + 1;
    }

    /** `search_bow` and `search_tfidf`: fit both models if the one asked for is unset, then rank. */
    method Search(kind: Kind, query: Text, topN: int) returns (r: Result<seq<Hit>, SearchError>)
      requires Valid()
      modifies this`bowModel, this`tfidfModel, this`fits
      ensures Valid()
      ensures loaded == old(loaded)
      ensures old(bowModel).Some? ==> bowModel == old(bowModel) && tfidfModel == old(tfidfModel) && fits == old(fits)
      ensures old(bowModel).None? && r.Ok? ==> fits == old(fits) + 1
      ensures r.Ok? <==> hasVocabulary(Corpus())
      ensures r.Err? ==> bowModel == None && tfidfModel == None
      ensures r.Ok? ==> bowModel.Some? && tfidfModel.Some?
      ensures r.Ok? ==>
        var model := if kind == BagOfWords then bowModel.value else tfidfModel.value;
        && model == Fitted(kind, Corpus())
        && IsTopResults(r.value, docContents.keys, Similarities(model, query), topN)
    {
      var model := if kind == BagOfWords then bowModel else tfidfModel;
      if model.None? {
        var ok := Preprocess();
        if !ok {
          return Err(EmptyVocabulary);
        }
        model := if kind == BagOfWords then bowModel else tfidfModel;
      }
      var similarities := Similarities(model.value, query);
      KeysDistinct(docContents);
      var results := GetTopResults(docContents.keys, similarities, topN);
      r := Ok(results);
    }

    /** `search_bow(query, top_n=5)` */
    method SearchBow(query: Text, topN: int := 5) returns (r: Result<seq<Hit>, SearchError>)
      requires Valid()
      modifies this`bowModel, this`tfidfModel, this`fits
      ensures Valid()
      ensures loaded == old(loaded)
      ensures old(bowModel).Some? ==> bowModel == old(bowModel) && tfidfModel == old(tfidfModel) && fits == old(fits)
      ensures old(bowModel).None? && r.Ok? ==> fits == old(fits) + 1
      ensures r.Ok? <==> hasVocabulary(Corpus())
      ensures r.Ok? ==> bowModel.Some? && tfidfModel.Some? &&
                        IsTopResults(r.value, docContents.keys, Similarities(bowModel.value, query), topN)
    {
      r := Search(BagOfWords, query, topN);
    }

    /** `search_tfidf(query, top_n=5)` */
    method SearchTfidf(query: Text, topN: int := 5) returns (r: Result<seq<Hit>, SearchError>)
      requires Valid()
      modifies this`bowModel, this`tfidfModel, this`fits
      ensures Valid()
      ensures loaded == old(loaded)
      ensures old(tfidfModel).Some? ==> bowModel == old(bowModel) && tfidfModel == old(tfidfModel) && fits == old(fits)
      ensures old(tfidfModel).None? && r.Ok? ==> fits == old(fits) + 1
      ensures r.Ok? <==> hasVocabulary(Corpus())
      ensures r.Ok? ==> bowModel.Some? && tfidfModel.Some? &&
                        IsTopResults(r.value, docContents.keys, Similarities(tfidfModel.value, query), topN)
    {
      r := Search(Tfidf, query, topN);
    }
  }

}
