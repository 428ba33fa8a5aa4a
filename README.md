# poem-recommender core, modelled in Dafny

This project models the two core classes of the poem recommender.

- `DocumentSearcher` (`src/doc_search.py`) calls every document's loader when it
  is built, and never again. It fits a bag-of-words model and a TF-IDF model on the first
  search of either kind. It ranks documents by cosine similarity to a query
  and returns the `top_n` best as `{document, similarity}` hits, highest
  first.
- `DataProcessor` (`src/preprocessor.py`) collects the `.txt` files of a
  directory tree, keyed by bare file name. It cuts that collection into
  chunks of `chunk_size` entries. It generates metadata, through a
  language-model call, only for files that have no metadata yet.

Files:

- `wrappers.dfy`: `Option` and `Result`, which stand in for `None` and for
  the exceptions the source raises.
- `ordered_dict.dfy`: a Python `dict` as a key sequence in insertion order
  plus a map. `Valid` says the keys are exactly the map's domain, each
  listed once. `Set` is `d[k] = v`: a new key goes at the end, and an
  existing key keeps its place.
- `doc_search.dfy`:
  - `Argsort`: a reference argsort, specified by `IsArgsort` (a permutation
    of the indices that sorts the scores ascending).
  - The slice `argsort()[-top_n:][::-1]`, and the loop of
    `_get_top_results` proved against `IsTopResults`.
  - The `DocumentSearcher` class, with its lazy-fit state.
- `preprocessor.dfy`:
  - The keying rule of `__load_from_path__`: `KeyTxt` over an `os.walk`
    listing, and the nested loops that build it.
  - The chunking of `chunk_files`: `Chunks` and the `enumerate` loop.
  - The compute-if-absent loop of `generate_metadata`: `Fill`, `Requests`
    and `AskMissing`.
  - The `DataProcessor` class.

Library code and effects are parameters:

- The vectorisers and cosine similarity are an opaque
  `scorer(kind, corpus, query, i)`.
- The empty-vocabulary failure of `fit_transform` is an opaque
  `hasVocabulary(corpus)`.
- The file system is the listing `os.walk` returns.
- Reading a file is a `Loader` value.
- A call to the language model is recorded in the ghost log `generated`.

The code does not reject a non-positive `top_n` or a blank query, and
`numpy.argsort` leaves the order among equal scores open; the model does the
same.

In the code, `top_n == 0` keeps every document, because `[-0:]` is the whole
array. A negative `top_n` drops the `-top_n` lowest-scoring documents.

## Model

| member | source | states |
|---|---|---|
| OrderedDict.Set | src/preprocessor.py:28 | `d[k] = v` maps `k` to `v`; a new key is appended to the key order, an existing key keeps its position; the result is again a dict |
| OrderedDict.ValuesMembers | src/doc_search.py:16 | `values()` holds exactly the values stored under some key of the dict |
| OrderedDict.KeysDistinct | src/preprocessor.py:18-30 | no key of a dict is listed twice |
| DocSearch.ArgsortPrefix | src/doc_search.py:40 | insertion of the first `n` indices yields each index below `n` exactly once, ordered by ascending score |
| DocSearch.InsertByScore | src/doc_search.py:40 | inserting an index into a score-sorted order keeps it sorted, adds exactly that index and keeps indices distinct |
| DocSearch.Argsort | src/doc_search.py:40 | `argsort()` returns a permutation of the indices that sorts the scores ascending |
| DocSearch.ReversedTwice | src/doc_search.py:40 | `[::-1]` is its own inverse: reversing twice gives back the sequence |
| DocSearch.ReversedPermutes | src/doc_search.py:40 | `[::-1]` keeps every element with its multiplicity |
| DocSearch.TopIndexAt | src/doc_search.py:40 | position `j` of `argsort()[-top_n:][::-1]` is position `n-1-j` of the argsort, inside the kept slice |
| DocSearch.TopInRange | src/doc_search.py:40 | every kept index is a valid document position |
| DocSearch.TopDistinct | src/doc_search.py:40 | no index is kept twice |
| DocSearch.TopOrdered | src/doc_search.py:40 | kept indices run from the highest score down |
| DocSearch.TopKeepsTail | src/doc_search.py:40 | every argsort position from the slice start on is kept |
| DocSearch.TopDominates | src/doc_search.py:40 | an index that is not kept scores at most every kept one |
| DocSearch.TopIndicesFacts | src/doc_search.py:40 | the kept indices number `min(top_n, n)` for positive `top_n`, `n` for 0 and `n + top_n` (at least 0) for negative; distinct, valid, highest first, and none outscored by a dropped one |
| DocSearch.TopHitsAreTopResults | src/doc_search.py:40-50 | hits built from the kept indices are a valid ranking: right length, distinct documents, non-increasing similarity, each hit carries its document's score, no omitted document scores higher |
| DocSearch.GetTopResults | src/doc_search.py:39-50 | the loop over `top_indices` returns `min(top_n, n)` hits (all for 0, `n + top_n` for negative) that form a valid ranking of the documents by similarity |
| DocSearch.Materialise | src/doc_search.py:8 | the comprehension stores, under each document's name and in the same key order, the text its loader returns |
| DocSearch.LoadAll | src/doc_search.py:8 | the loop of the comprehension calls each loader exactly once, in key order (the ghost log grows by one name at each call), and builds exactly `Materialise` |
| DocSearch.DocumentSearcher.constructor | src/doc_search.py:6-12 | the searcher keeps the documents, has called every loader once in key order (the log `loaded` comes from `LoadAll`), holds each document's text under its name in the same order, and starts with both models unset |
| DocSearch.DocumentSearcher.Similarities | src/doc_search.py:25-26 | one similarity per document of the fitted corpus |
| DocSearch.DocumentSearcher.Preprocess | src/doc_search.py:14-19 | fitting succeeds exactly when the corpus has a vocabulary; then both models are fitted on the materialised texts, otherwise nothing changes; no loader is called |
| DocSearch.DocumentSearcher.Search | src/doc_search.py:21-37 | a search fits both models only when the requested one is unset, never refits, fails exactly on an empty vocabulary, and otherwise ranks the documents by the requested model's similarities; no loader is called |
| DocSearch.DocumentSearcher.SearchBow | src/doc_search.py:21-28 | bag-of-words search, lazily fitting both models once, returning a valid top-`top_n` ranking |
| DocSearch.DocumentSearcher.SearchTfidf | src/doc_search.py:30-37 | TF-IDF search, lazily fitting both models once, returning a valid top-`top_n` ranking |
| Preprocessor.NamesOfPaths | src/preprocessor.py:24-27 | `os.path.join(root, file)` keeps each file's own name, so the joined paths of a directory name its files in listing order |
| Preprocessor.KeyTxt | src/preprocessor.py:17-30 | the dict built from a listing is a well-formed dict |
| Preprocessor.KeyTxtKeys | src/preprocessor.py:24-28 | exactly the listed names ending in `.txt` become keys |
| Preprocessor.KeyTxtBareName | src/preprocessor.py:26-28 | every key is a bare file name whose loader reads a listed file of exactly that name |
| Preprocessor.KeyTxtLastWins | src/preprocessor.py:24-28 | of several files with one name, the one the walk visits last is kept |
| Preprocessor.WalkStep | src/preprocessor.py:24-25 | the inner loop starts with none and ends with all files of the current directory |
| Preprocessor.FileStep | src/preprocessor.py:25-28 | one turn of the inner loop keys the next file after those before it |
| Preprocessor.DataProcessor.LoadFromPath | src/preprocessor.py:17-30 | the nested loops over the walk build exactly `KeyTxt` of the listing |
| Preprocessor.DataProcessor.GetTxtFilesContent | src/preprocessor.py:14-15 | `files` becomes the `.txt` files of the data path |
| Preprocessor.DataProcessor.LoadMetadata | src/preprocessor.py:11-12 | `metadata` becomes the `.txt` files of the metadata directory |
| Preprocessor.DataProcessor.constructor | src/preprocessor.py:7-9 | the processor keeps its data path and loads its `.txt` files |
| Preprocessor.ChunkIndex | src/preprocessor.py:36 | entry `i` belongs to chunk `c` exactly when `c == i // size`, that is `c*size <= i < (c+1)*size` |
| Preprocessor.CountBounds | src/preprocessor.py:33 | there are no chunks exactly when there are no files, and `ceil(n / size)` chunks reach just past the last entry |
| Preprocessor.IndexChunkInRange | src/preprocessor.py:33-36 | for a positive size, `i // size` never indexes past the list, so no `IndexError` is raised |
| Preprocessor.ChunkUpToValid | src/preprocessor.py:33-36 | a partly filled chunk is a well-formed dict |
| Preprocessor.ChunkMember | src/preprocessor.py:35-36 | after `i` entries, entry `p` is in chunk `c` exactly when `p` lies inside chunk `c`'s bounds and below `i`, and it carries its own loader |
| Preprocessor.ChunkGrows | src/preprocessor.py:35-36 | one turn of the loop appends the entry to chunk `i // size` |
| Preprocessor.ChunkUntouched | src/preprocessor.py:35-36 | one turn of the loop leaves every other chunk unchanged |
| Preprocessor.PlaceStep | src/preprocessor.py:35-36 | the loop invariant "each chunk holds its share of the first `i` entries" is kept by one turn |
| Preprocessor.Place | src/preprocessor.py:36 | `chunked[i // chunk_size][k] = v` keeps the list length and the loop invariant |
| Preprocessor.FilledNone | src/preprocessor.py:33 | the freshly made list of empty dicts satisfies the loop invariant |
| Preprocessor.FilledAll | src/preprocessor.py:35-38 | once every entry is placed the list is `Chunks` |
| Preprocessor.Distribute | src/preprocessor.py:33-38 | for a positive size the loop yields `Chunks`; for a negative size the list is empty and the loop fails unless there are no files |
| Preprocessor.ChunkSizes | src/preprocessor.py:33-36 | every chunk but the last holds `chunk_size` files; the last holds between 1 and `chunk_size` |
| Preprocessor.ChunkPlacement | src/preprocessor.py:35-36 | each file sits, with its own loader, in chunk `i // chunk_size` and in no other chunk |
| Preprocessor.ChunkKeys | src/preprocessor.py:33-36 | every chunk starts inside the file list (`c*size < n`) and holds the keys at positions `c*size` up to `min((c+1)*size, n)` |
| Preprocessor.FlattenBlocks | src/preprocessor.py:35-36 | consecutive runs of `size` keys concatenate to a prefix of the key order |
| Preprocessor.ChunksConcat | src/preprocessor.py:32-38 | concatenating the chunks in order gives back the files' key order, so no file is lost, duplicated or moved |
| Preprocessor.DataProcessor.ChunkFiles | src/preprocessor.py:32-38 | `chunk_size == 0` raises `ZeroDivisionError`; a negative size returns `[]` for no files and otherwise raises `IndexError`; a positive size returns `Chunks` |
| Preprocessor.FillEntry | src/preprocessor.py:84-97 | after the loop a name has an entry exactly when it was cached or visited, and cached entries keep their loaders |
| Preprocessor.FillKeepsOrder | src/preprocessor.py:84-97 | entries are only appended: the cached key order is a prefix of the result's |
| Preprocessor.FillCoversAndKeeps | src/preprocessor.py:82-97 | every file gets an entry, cached entries keep loaders and positions, and nothing but file names is added |
| Preprocessor.RequestedOnce | src/preprocessor.py:84-90 | a name is sent to the language model exactly when it was visited and had no cached entry |
| Preprocessor.RequestsDistinct | src/preprocessor.py:84-97 | no name is sent to the language model twice |
| Preprocessor.RequestsAreUncached | src/preprocessor.py:84-97 | the model is asked about exactly the uncached files, each once |
| Preprocessor.SkipsCached | src/preprocessor.py:84-87 | when every visited name is cached the loop asks nothing and changes nothing |
| Preprocessor.FillIdempotent | src/preprocessor.py:84-87 | a second run over the same files asks nothing and leaves the metadata as it was |
| Preprocessor.AskMissing | src/preprocessor.py:84-97 | the loop skips cached names, asks about the rest and records an entry for each, giving `Fill` and `Requests` |
| Preprocessor.DataProcessor.GenerateMetadata | src/preprocessor.py:75-99 | metadata is loaded from the output directory, then completed by the compute-if-absent loop; the model is asked exactly about `Requests` |

## Left out

- The vectorisers, the cosine similarity and the document-term matrices are library code. They appear as the opaque `scorer`, and a fitted model is identified by its kind and corpus (`Fitted`). Floating point is not modelled: scores are `real`.
- DocSearch.DocumentSearcher.Preprocess treats a failed fit (sklearn's "empty vocabulary" `ValueError`) as one outcome for both vectorisers, given by `hasVocabulary`. The half-done state where `vectorizer` is assigned but `bow_matrix` is not is not modelled.
- DocSearch.Materialise models a loader as a pure `read`. A loader that raises (an `open` or UTF-8 decoding error in `read_file`), which escapes `__init__` in the source, is not modelled; the ghost log `loaded` is appended in the same step of `LoadAll` that applies `read`, so it records which loaders are called and in what order, but the text a loader returns is fixed by `read`.
- DocSearch.Argsort is one particular argsort (insertion, stable). Everything built on it uses only `IsArgsort`, so the order among equal scores is unconstrained, as numpy's is.
- DocSearch.GetTopResults assumes one similarity per document name and distinct names. Both hold for `doc_contents`, the only caller. A non-integer `top_n` (a `TypeError` in the source) is not modelled.
- `os.walk`, `open` and `read` are modelled as a given directory listing and `Loader` values. The text a loader returns is not modelled, and neither are directories that cannot be read.
- The loaders `generate_metadata` stores for new entries are modelled as `ReadLastWritten`. The closure at line 97 late-binds `path`, so after the loop every such entry reads the last file written. The model proves facts about metadata keys and cached loaders only, not about what new loaders read.
- Preprocessor.AskMissing builds the new metadata in a local dict, and `GenerateMetadata` assigns it once at the end. The source assigns `self.metadata[name]` on each turn. The end state is the same, because a failure partway through (an exception from the language-model call or from writing the file) is not modelled.
- Preprocessor.DataProcessor.GenerateMetadata does not model the prompt text (`get_prompt`), the language-model call, `api_key`, `os.makedirs` or the response written to disk. The ghost log `generated` records which files were sent to the model, in order.
- `print` calls are left out.
- Preprocessor.DataProcessor.ChunkFiles does not model the float division inside `ceil(len / chunk_size)`. For sizes beyond 2^53 that division can round; the model uses exact integer ceiling division. A non-integer `chunk_size` is not modelled.
- `src/interface.py` (Tkinter UI and threads), `src/llm_client.py` (the HTTP client), `main.py` and `preprocess.py` (scripts) are not part of this model. `generate_metadata_parallel`, which `preprocess.py` calls, is not defined in `src/preprocessor.py`, so it is not modelled either.
