/**
  The corpus bookkeeping of src/preprocessor.py: collecting the `.txt` files
  of a directory tree keyed by bare file name, cutting the collection into
  fixed-size chunks, and generating metadata only for files that have none.

  The file system appears only as the listing `os.walk` produces; reading a
  file, asking the language model and writing its answer are opaque effects.
 */
module Preprocessor {
  import opened Wrappers
  import opened OrderedDict

  /** `os.path.join(root, file)` */
  datatype Path = Path(dir: string, name: Name)

  /** The zero-argument function stored for a file. */
  datatype Loader =
    | ReadFile(path: Path)   // `lambda file_path=file_path: read_file(file_path)`: the path is bound when the loader is made
    | ReadLastWritten        // `lambda: read_file(path)`: reads whatever `path` holds when it is called

  /** One step of `os.walk`: a directory and the names of the files directly in it. */
  datatype WalkDir = WalkDir(root: string, files: seq<Name>)

  predicate EndsWithTxt(name: Name) {
    |name| >= 4 && name[|name| - 4..] == ".txt"
  }

  // ---------------------------------------------------------------------------
  // `__load_from_path__`

  /** The files of one walked directory, in listing order. */
  function Paths(w: WalkDir): (ps: seq<Path>)
    ensures |ps| == |w.files|
    ensures forall j :: 0 <= j < |w.files| ==> ps[j] == Path(w.root, w.files[j])
  {
    seq(|w.files|, j requires 0 <= j < |w.files| => Path(w.root, w.files[j]))
  }

  /** Every file of a walk, directory by directory, in the order the walk visits them. */
  function Listing(walk: seq<WalkDir>): seq<Path>
  {
    if walk == [] then [] else Listing(walk[..|walk| - 1]) + Paths(walk[|walk| - 1])
  }

  function Names(listing: seq<Path>): (names: seq<Name>)
    ensures |names| == |listing|
    ensures forall i :: 0 <= i < |listing| ==> names[i] == listing[i].name
  {
    seq(|listing|, i requires 0 <= i < |listing| => listing[i].name)
  }

  /** Joining a directory to its files keeps every file name, in order. */
  lemma NamesOfPaths(w: WalkDir)
    ensures Names(Paths(w)) == w.files
  {
  }

  /** The body of the inner loop for one file. */
  function KeyStep(txt: Dict<Loader>, p: Path): (r: Dict<Loader>)
    requires txt.Valid()
    ensures r.Valid()
  {
    if EndsWithTxt(p.name) then Set(txt, p.name, ReadFile(p)) else txt
  }

  /** `txt_files` after the loops have visited every file of `listing`. */
  function KeyTxt(listing: seq<Path>): (r: Dict<Loader>)
    ensures r.Valid()
  {
    if listing == [] then Empty()
    else KeyStep(KeyTxt(listing[..|listing| - 1]), listing[|listing| - 1])
  }

  /** The inner loop of `__load_from_path__` starts with no file of directory `w` and ends with all of them. */
  lemma WalkStep(walk: seq<WalkDir>, w: nat)
    requires w < |walk|
    ensures Listing(walk[..w]) + Paths(WalkDir(walk[w].root, walk[w].files[..0])) == Listing(walk[..w])
    ensures Listing(walk[..w]) + Paths(WalkDir(walk[w].root, walk[w].files[..|walk[w].files|])) == Listing(walk[..w + 1])
  {
    assert walk[..w + 1][..w] == walk[..w];
    assert walk[w].files[..|walk[w].files|] == walk[w].files;
  }

  /** One turn of the inner loop: the next file of the directory is keyed after those before it. */
  lemma FileStep(done: seq<Path>, root: string, files: seq<Name>, j: nat)
    requires j < |files|
    ensures KeyTxt(done + Paths(WalkDir(root, files[..j + 1]))) ==
              KeyStep(KeyTxt(done + Paths(WalkDir(root, files[..j]))), Path(root, files[j]))
  {
    var before := done + Paths(WalkDir(root, files[..j]));
    var after := done + Paths(WalkDir(root, files[..j + 1]));
    assert Paths(WalkDir(root, files[..j + 1])) == Paths(WalkDir(root, files[..j])) + [Path(root, files[j])];
    assert after == before + [Path(root, files[j])];
    assert after[..|after| - 1] == before;
  }

  /** Exactly the `.txt` names of the listing become keys. */
  lemma {:induction false} KeyTxtKeys(listing: seq<Path>)
    ensures forall k :: k in KeyTxt(listing).vals <==> EndsWithTxt(k) && k in Names(listing)
  {
    if listing != [] {
      var init := listing[..|listing| - 1];
      KeyTxtKeys(init);
      assert Names(listing) == Names(init) + [listing[|listing| - 1].name];
    }
  }

  /** A key is a bare file name; its loader reads a listed file of exactly that name. */
  lemma {:induction false} KeyTxtBareName(listing: seq<Path>)
    ensures forall k :: k in KeyTxt(listing).vals ==>
              && KeyTxt(listing).vals[k].ReadFile?
              && KeyTxt(listing).vals[k].path in listing
              && KeyTxt(listing).vals[k].path.name == k
  {
    if listing != [] {
      var init := listing[..|listing| - 1];
      KeyTxtBareName(init);
      forall k | k in KeyTxt(init).vals
        ensures KeyTxt(init).vals[k].path in listing
      {
        var p :| 0 <= p < |init| && init[p] == KeyTxt(init).vals[k].path;
        assert listing[p] == init[p];
      }
    }
  }

  /** Of several files with the same name, the one the walk visits last wins. */
  lemma {:induction false} KeyTxtLastWins(listing: seq<Path>, i: nat)
    requires i < |listing| && EndsWithTxt(listing[i].name)
    requires forall j :: i < j < |listing| ==> listing[j].name != listing[i].name
    ensures listing[i].name in KeyTxt(listing).vals
    ensures KeyTxt(listing).vals[listing[i].name] == ReadFile(listing[i])
  {
    var init := listing[..|listing| - 1];
    if i < |listing| - 1 {
      KeyTxtLastWins(init, i);
    }
  }

  // ---------------------------------------------------------------------------
  // `chunk_files`

  /** `ceil(n / size)` for a positive size. */
  function CeilDiv(n: nat, size: nat): nat
    requires size > 0
  {
    if n == 0 then 0 else (n - 1) / size + 1
  }

  /** The position of the first entry of chunk `c`: `c * size`, counted up chunk by chunk. */
  function Start(c: nat, size: nat): nat
  {
    if c == 0 then 0 else Start(c - 1, size) + size
  }

  lemma {:induction false} StartIsProduct(c: nat, size: nat)
    ensures Start(c, size) == c * size
  {
    if c > 0 {
      StartIsProduct(c - 1, size);
    }
  }

  lemma {:induction false} StartMonotone(a: nat, b: nat, size: nat)
    requires a < b
    ensures Start(a, size) + size <= Start(b, size)
  {
    if a < b - 1 {
      StartMonotone(a, b - 1, size);
    }
  }

  /** The chunk of an entry is a natural number. */
  lemma DivNat(i: nat, size: nat)
    requires size > 0
    ensures 0 <= i / size
  {
  }

  /** Entry `i` belongs to chunk `i // size` and to no other. */
  lemma ChunkIndex(i: nat, size: nat, c: nat)
    requires size > 0
    ensures c == i / size <==> Start(c, size) <= i < Start(c, size) + size
  {
    DivNat(i, size);
    StartIsProduct(c, size);
    StartIsProduct(i / size, size);
    assert (i / size) * size <= i < (i / size) * size + size;
    if c < i / size {
      StartMonotone(c, i / size, size);
    } else if c > i / size {
      StartMonotone(i / size, c, size);
    }
  }

  /** `ceil(n / size)` chunks reach just past the last entry. */
  lemma CountBounds(n: nat, size: nat)
    requires size > 0
    ensures CeilDiv(n, size) == 0 <==> n == 0
    ensures n > 0 ==> Start(CeilDiv(n, size) - 1, size) < n <= Start(CeilDiv(n, size), size)
  {
    if n > 0 {
      ChunkIndex(n - 1, size, CeilDiv(n, size) - 1);
    }
  }

  function Min(a: nat, b: nat): nat {
    if a < b then a else b
  }

  /** Chunk `c` once the first `i` entries of `d` have been distributed. */
  function ChunkUpTo<V>(d: Dict<V>, size: nat, c: nat, i: nat): (r: Dict<V>)
    requires d.Valid() && i <= |d.keys|
  {
    var ks := d.keys[Min(Start(c, size), i)..Min(Start(c, size) + size, i)];
    Members(d);
    Dict(ks, map k | k in ks :: d.vals[k])
  }

  /** The list of `count` chunks once the first `i` entries have been distributed. */
  function ChunksUpTo<V>(d: Dict<V>, size: nat, count: nat, i: nat): (r: seq<Dict<V>>)
    requires d.Valid() && i <= |d.keys|
  {
    seq(count, c requires 0 <= c < count => ChunkUpTo(d, size, c, i))
  }

  /** The list `chunk_files` returns for a positive chunk size. */
  function Chunks<V>(d: Dict<V>, size: nat): (r: seq<Dict<V>>)
    requires d.Valid() && size > 0
  {
    ChunksUpTo(d, size, CeilDiv(|d.keys|, size), |d.keys|)
  }

  /** A partly filled chunk is a dict of the original entries. */
  lemma ChunkUpToValid<V>(d: Dict<V>, size: nat, c: nat, i: nat)
    requires d.Valid() && i <= |d.keys|
    ensures ChunkUpTo(d, size, c, i).Valid()
  {
    var lo := Min(Start(c, size), i);
    var ks := d.keys[lo..Min(Start(c, size) + size, i)];
    KeysDistinct(d);
    forall a, b | 0 <= a < b < |ks|
      ensures ks[a] != ks[b]
    {
      assert ks[a] == d.keys[lo + a] && ks[b] == d.keys[lo + b];
    }
    FromDistinct(ChunkUpTo(d, size, c, i));
  }

  /** The key at position `p` is among the keys at positions `lo .. hi` exactly when `p` is. */
  lemma KeyInSlice<V>(d: Dict<V>, lo: nat, hi: nat, p: nat)
    requires d.Valid() && lo <= hi <= |d.keys| && p < |d.keys|
    ensures d.keys[p] in d.keys[lo..hi] <==> lo <= p < hi
  {
    var ks := d.keys[lo..hi];
    var k := d.keys[p];
    KeysDistinct(d);
    if k in ks {
      var a :| 0 <= a < |ks| && ks[a] == k;
      assert d.keys[lo + a] == k;
    }
    if lo <= p < hi {
      assert ks[p - lo] == k;
    }
  }

  /** The entry at position `p` is in a chunk exactly when `p` lies within the chunk's bounds. */
  lemma ChunkMember<V>(d: Dict<V>, size: nat, c: nat, i: nat, p: nat)
    requires d.Valid() && i <= |d.keys| && p < |d.keys|
    ensures d.keys[p] in ChunkUpTo(d, size, c, i).vals <==> Min(Start(c, size), i) <= p < Min(Start(c, size) + size, i)
    ensures d.keys[p] in ChunkUpTo(d, size, c, i).vals ==> ChunkUpTo(d, size, c, i).vals[d.keys[p]] == ValueAt(d, p)
  {
    var lo, hi := Min(Start(c, size), i), Min(Start(c, size) + size, i);
    KeyInSlice(d, lo, hi, p);
    Members(d);
    assert ChunkUpTo(d, size, c, i) == Dict(d.keys[lo..hi], map k | k in d.keys[lo..hi] :: d.vals[k]);
  }

  /** Distributing entry `i` appends it to chunk `i // size`. */
  lemma ChunkGrows<V>(d: Dict<V>, size: nat, i: nat)
    requires d.Valid() && size > 0 && i < |d.keys|
    ensures ChunkUpTo(d, size, i / size, i).Valid()
    ensures ChunkUpTo(d, size, i / size, i + 1) == Set(ChunkUpTo(d, size, i / size, i), d.keys[i], ValueAt(d, i))
  {
    DivNat(i, size);
    var c := i / size;
    ChunkUpToValid(d, size, c, i);
    ChunkIndex(i, size, c);
    var lo := Start(c, size);
    var k := d.keys[i];
    var before := ChunkUpTo(d, size, c, i);
    var after := ChunkUpTo(d, size, c, i + 1);
    assert before.keys == d.keys[lo..i];
    assert after.keys == d.keys[lo..i + 1];
    SliceSnoc(d.keys, lo, i);
    KeyInSlice(d, lo, i, i);
    assert after.vals == before.vals[k := ValueAt(d, i)];
  }

  lemma SliceSnoc(s: seq<Name>, lo: nat, hi: nat)
    requires lo <= hi < |s|
    ensures s[lo..hi + 1] == s[lo..hi] + [s[hi]]
  {
  }

  /** Distributing entry `i` leaves every other chunk as it was. */
  lemma ChunkUntouched<V>(d: Dict<V>, size: nat, c: nat, i: nat)
    requires d.Valid() && size > 0 && i < |d.keys| && c != i / size
    ensures ChunkUpTo(d, size, c, i + 1) == ChunkUpTo(d, size, c, i)
  {
    ChunkIndex(i, size, c);
    assert ChunkUpTo(d, size, c, i + 1).keys == ChunkUpTo(d, size, c, i).keys;
  }

  /** Every chunk but the last holds exactly `size` entries; the last holds between 1 and `size`. */
  lemma ChunkSizes<V>(d: Dict<V>, size: nat)
    requires d.Valid() && size > 0
    ensures |Chunks(d, size)| == 0 <==> |d.keys| == 0
    ensures forall c :: 0 <= c < |Chunks(d, size)| - 1 ==> |Chunks(d, size)[c].keys| == size
    ensures |d.keys| > 0 ==> 1 <= |Chunks(d, size)[|Chunks(d, size)| - 1].keys| <= size
  {
    var n := |d.keys|;
    var count := CeilDiv(n, size);
    CountBounds(n, size);
    forall c | 0 <= c && c + 1 < count
      ensures |Chunks(d, size)[c].keys| == size
    {
      StartMonotone(c, count - 1, size);
    }
    if n > 0 {
      assert Start(count, size) == Start(count - 1, size) + size;
    }
  }

  /** Entry `i` of `n` falls within the first `ceil(n / size)` chunks. */
  lemma IndexChunkInRange(n: nat, size: nat, i: nat)
    requires size > 0 && i < n
    ensures i / size < CeilDiv(n, size)
  {
    var count := CeilDiv(n, size);
    CountBounds(n, size);
    DivNat(i, size);
    ChunkIndex(i, size, i / size);
    if i / size > count {
      StartMonotone(count, i / size, size);
    }
  }

  /** Entry `i` sits in chunk `i // size` with its own loader, and in no other chunk. */
  lemma ChunkPlacement<V>(d: Dict<V>, size: nat, i: nat)
    requires d.Valid() && size > 0 && i < |d.keys|
    ensures i / size < |Chunks(d, size)|
    ensures d.keys[i] in Chunks(d, size)[i / size].vals
    ensures Chunks(d, size)[i / size].vals[d.keys[i]] == ValueAt(d, i)
    ensures forall c :: 0 <= c < |Chunks(d, size)| && c != i / size ==> d.keys[i] !in Chunks(d, size)[c].vals
  {
    var n := |d.keys|;
    var count := CeilDiv(n, size);
    DivNat(i, size);
    var own := i / size;
    IndexChunkInRange(n, size, i);
    forall c | 0 <= c < count
      ensures d.keys[i] in Chunks(d, size)[c].vals <==> c == own
      ensures c == own ==> Chunks(d, size)[c].vals[d.keys[i]] == ValueAt(d, i)
    {
      ChunkIndex(i, size, c);
      ChunkMember(d, size, c, n, i);
    }
  }

  /** The keys of chunk `c`: those at positions `c * size` up to `(c + 1) * size`, cut off at the end. */
  lemma ChunkKeys<V>(d: Dict<V>, size: nat, c: nat)
    requires d.Valid() && size > 0 && c < CeilDiv(|d.keys|, size)
    ensures c * size < |d.keys|
    ensures Chunks(d, size)[c].keys == d.keys[c * size..Min((c + 1) * size, |d.keys|)]
  {
    var count := CeilDiv(|d.keys|, size);
    StartIsProduct(c, size);
    StartIsProduct(c + 1, size);
    CountBounds(|d.keys|, size);
    if c < count - 1 {
      StartMonotone(c, count - 1, size);
    }
  }

  /** The keys of the first `c` chunks, one chunk after another. */
  function Flatten<V>(chunks: seq<Dict<V>>, c: nat): seq<Name>
    requires c <= |chunks|
  {
    if c == 0 then [] else Flatten(chunks, c - 1) + chunks[c - 1].keys
  }

  /** `block` is run `b` of `keys` cut into runs of `size`: positions `b * size` up to `(b + 1) * size`. */
  ghost predicate IsBlock(block: seq<Name>, keys: seq<Name>, size: nat, b: nat) {
    block == keys[Min(Start(b, size), |keys|)..Min(Start(b, size) + size, |keys|)]
  }

  lemma SlicesJoin(keys: seq<Name>, lo: nat, hi: nat)
    requires lo <= hi <= |keys|
    ensures keys[..hi] == keys[..lo] + keys[lo..hi]
  {
  }

  /** Blocks that hold consecutive runs of `size` keys concatenate to a prefix of the keys. */
  lemma {:induction false} FlattenBlocks<V>(chunks: seq<Dict<V>>, keys: seq<Name>, size: nat, c: nat)
    requires c <= |chunks|
    requires forall b :: 0 <= b < |chunks| ==> IsBlock(chunks[b].keys, keys, size, b)
    ensures Flatten(chunks, c) == keys[..Min(Start(c, size), |keys|)]
  {
    if c > 0 {
      FlattenBlocks(chunks, keys, size, c - 1);
      var start := Start(c - 1, size);
      assert Start(c, size) == start + size;
      var lo, hi := Min(start, |keys|), Min(start + size, |keys|);
      assert IsBlock(chunks[c - 1].keys, keys, size, c - 1);
      SlicesJoin(keys, lo, hi);
    }
  }

  /** Concatenating the chunks in order gives back the original key order. */
  lemma ChunksConcat<V>(d: Dict<V>, size: nat)
    requires d.Valid() && size > 0
    ensures Flatten(Chunks(d, size), |Chunks(d, size)|) == d.keys
  {
    var chunks := Chunks(d, size);
    forall b | 0 <= b < |chunks|
      ensures IsBlock(chunks[b].keys, d.keys, size, b)
    {
      assert chunks[b] == ChunkUpTo(d, size, b, |d.keys|);
    }
    FlattenBlocks(chunks, d.keys, size, |chunks|);
    CountBounds(|d.keys|, size);
  }

  /** `filled` holds every chunk as it is once the first `i` entries have been distributed. */
  ghost predicate FilledUpTo<V>(d: Dict<V>, size: nat, i: nat, filled: seq<Dict<V>>)
    requires d.Valid() && i <= |d.keys|
  {
    forall b :: 0 <= b < |filled| ==> filled[b] == ChunkUpTo(d, size, b, i)
  }

  /** One turn of the `enumerate` loop: entry `i` goes into chunk `i // size` and nowhere else. */
  lemma PlaceStep<V>(d: Dict<V>, size: nat, i: nat, filled: seq<Dict<V>>)
    requires d.Valid() && size > 0 && i < |d.keys| && i / size < |filled|
    requires FilledUpTo(d, size, i, filled)
    ensures filled[i / size].Valid()
    ensures FilledUpTo(d, size, i + 1, filled[i / size := Set(filled[i / size], d.keys[i], ValueAt(d, i))])
  {
    DivNat(i, size);
    var own := i / size;
    assert filled[own] == ChunkUpTo(d, size, own, i);
    ChunkGrows(d, size, i);
    var grown := Set(filled[own], d.keys[i], ValueAt(d, i));
    var updated := filled[own := grown];
    forall b | 0 <= b < |updated|
      ensures updated[b] == ChunkUpTo(d, size, b, i + 1)
    {
      if b == own {
        assert updated[b] == grown;
      } else {
        assert updated[b] == filled[b] == ChunkUpTo(d, size, b, i);
        ChunkUntouched(d, size, b, i);
      }
    }
  }

  /** One turn of the `enumerate` loop: `chunked[i // chunk_size][k] = v` for the entry at position `i`. */
  function Place<V>(d: Dict<V>, size: nat, i: nat, filled: seq<Dict<V>>): (r: seq<Dict<V>>)
    requires d.Valid() && size > 0 && i < |d.keys| && |filled| == CeilDiv(|d.keys|, size)
    requires FilledUpTo(d, size, i, filled)
    ensures |r| == |filled| && FilledUpTo(d, size, i + 1, r)
  {
    DivNat(i, size);
    IndexChunkInRange(|d.keys|, size, i);
    var c := i / size;
    PlaceStep(d, size, i, filled);
    filled[c := Set(filled[c], d.keys[i], ValueAt(d, i))]
  }

  /** Before the loop every chunk is empty. */
  lemma FilledNone<V>(d: Dict<V>, size: nat, chunked: seq<Dict<V>>)
    requires d.Valid()
    requires forall c :: 0 <= c < |chunked| ==> chunked[c] == Empty()
    ensures FilledUpTo(d, size, 0, chunked)
  {
  }

  /** Once every entry is distributed, the list is the list of chunks. */
  lemma FilledAll<V>(d: Dict<V>, size: nat, filled: seq<Dict<V>>)
    requires d.Valid() && size > 0 && |filled| == CeilDiv(|d.keys|, size)
    requires FilledUpTo(d, size, |d.keys|, filled)
    ensures filled == Chunks(d, size)
  {
  }

  /**
    The `enumerate` loop of `chunk_files`: put the entry at position `i` into
    chunk `i // chunk_size` of `chunked`. It fails on the first index outside the list.
   */
  method Distribute<V>(d: Dict<V>, chunkSize: int, chunked: seq<Dict<V>>) returns (ok: bool, filled: seq<Dict<V>>)
    requires d.Valid() && chunkSize != 0
    requires |chunked| == if chunkSize > 0 then CeilDiv(|d.keys|, chunkSize) else 0
    requires forall c :: 0 <= c < |chunked| ==> chunked[c] == Empty()
    ensures chunkSize > 0 ==> ok && filled == Chunks(d, chunkSize)
    ensures chunkSize < 0 ==> ok == (|d.keys| == 0) && filled == []
  {
    var n := |d.keys|;
    filled := chunked;
    if chunkSize < 0 {
      // No chunks were made, so the first index, `0 // chunk_size == 0`, is already out of range.
      return n == 0, filled;
    }
    var size: nat := chunkSize;
    var count := |chunked|;
    FilledNone(d, size, chunked);
    for i := 0 to n
      invariant |filled| == count
      invariant FilledUpTo(d, size, i, filled)
    {
      filled := Place(d, size, i, filled);
    }
    FilledAll(d, size, filled);
    return true, filled;
  }

  // ---------------------------------------------------------------------------
  // `generate_metadata`

  /** `self.metadata` after the loop has visited the first `i` names, starting from `cache`. */
  function Fill(names: seq<Name>, i: nat, cache: Dict<Loader>): (r: Dict<Loader>)
    requires cache.Valid() && i <= |names|
    ensures r.Valid()
  {
    if i == 0 then cache
    else
      var m := Fill(names, i - 1, cache);
      if names[i - 1] in m.vals then m else Set(m, names[i - 1], ReadLastWritten)
  }

  /**
    The names the loop asks the language model about while visiting the first
    `i` names, in order: those without a cached entry, each at its first visit.
   */
  function Requests(names: seq<Name>, i: nat, cache: Dict<Loader>): seq<Name>
    requires i <= |names|
  {
    if i == 0 then []
    else
      var name := names[i - 1];
      Requests(names, i - 1, cache) + (if name in cache.vals || name in names[..i - 1] then [] else [name])
  }

  /** A name is among the first `i + 1` exactly when it is among the first `i` or is the next one. */
  lemma InPrefix(names: seq<Name>, i: nat, k: Name)
    requires i < |names|
    ensures k in names[..i + 1] <==> k in names[..i] || k == names[i]
  {
    assert names[..i + 1] == names[..i] + [names[i]];
  }

  /** The entry for one name after visiting the first `i` names. */
  lemma {:induction false} FillEntry(names: seq<Name>, i: nat, cache: Dict<Loader>, k: Name)
    requires cache.Valid() && i <= |names|
    ensures k in Fill(names, i, cache).vals <==> k in cache.vals || k in names[..i]
    ensures k in cache.vals ==> Fill(names, i, cache).vals[k] == cache.vals[k]
  {
    if i > 0 {
      FillEntry(names, i - 1, cache, k);
      InPrefix(names, i - 1, k);
    }
  }

  /** Entries are only ever appended. */
  lemma {:induction false} FillKeepsOrder(names: seq<Name>, i: nat, cache: Dict<Loader>)
    requires cache.Valid() && i <= |names|
    ensures cache.keys <= Fill(names, i, cache).keys
  {
    if i > 0 {
      FillKeepsOrder(names, i - 1, cache);
    }
  }

  /**
    After the loop every visited file has a metadata entry, cached entries keep
    their loaders and their positions, and nothing but the files' names is added.
   */
  lemma FillCoversAndKeeps(names: seq<Name>, i: nat, cache: Dict<Loader>)
    requires cache.Valid() && i <= |names|
    ensures forall k :: k in Fill(names, i, cache).vals <==> k in cache.vals || k in names[..i]
    ensures forall k :: k in cache.vals ==> Fill(names, i, cache).vals[k] == cache.vals[k]
    ensures cache.keys <= Fill(names, i, cache).keys
  {
    forall k
      ensures k in Fill(names, i, cache).vals <==> k in cache.vals || k in names[..i]
      ensures k in cache.vals ==> Fill(names, i, cache).vals[k] == cache.vals[k]
    {
      FillEntry(names, i, cache, k);
    }
    FillKeepsOrder(names, i, cache);
  }

  /** Whether the model is asked about one name while visiting the first `i` names. */
  lemma {:induction false} RequestedOnce(names: seq<Name>, i: nat, cache: Dict<Loader>, k: Name)
    requires i <= |names|
    ensures k in Requests(names, i, cache) <==> k in names[..i] && k !in cache.vals
  {
    if i > 0 {
      RequestedOnce(names, i - 1, cache, k);
      InPrefix(names, i - 1, k);
    }
  }

  /** No name is asked about twice. */
  lemma {:induction false} RequestsDistinct(names: seq<Name>, i: nat, cache: Dict<Loader>)
    requires i <= |names|
    ensures Distinct(Requests(names, i, cache))
  {
    if i > 0 {
      var name := names[i - 1];
      RequestsDistinct(names, i - 1, cache);
      if !(name in cache.vals || name in names[..i - 1]) {
        RequestedOnce(names, i - 1, cache, name);
        DistinctSnoc(Requests(names, i - 1, cache), name);
      }
    }
  }

  /**
    The model is asked exactly about the visited files without metadata, and
    about each of them once, even if a name comes up twice.
   */
  lemma RequestsAreUncached(names: seq<Name>, i: nat, cache: Dict<Loader>)
    requires i <= |names|
    ensures forall k :: k in Requests(names, i, cache) <==> k in names[..i] && k !in cache.vals
    ensures Distinct(Requests(names, i, cache))
  {
    forall k
      ensures k in Requests(names, i, cache) <==> k in names[..i] && k !in cache.vals
    {
      RequestedOnce(names, i, cache, k);
    }
    RequestsDistinct(names, i, cache);
  }

  /** A second run finds every file cached: it asks nothing and changes nothing. */
  lemma FillIdempotent(names: seq<Name>, cache: Dict<Loader>)
    requires cache.Valid()
    ensures Requests(names, |names|, Fill(names, |names|, cache)) == []
    ensures Fill(names, |names|, Fill(names, |names|, cache)) == Fill(names, |names|, cache)
  {
    var filled := Fill(names, |names|, cache);
    forall j | 0 <= j < |names|
      ensures names[j] in filled.vals
    {
      FillEntry(names, |names|, cache, names[j]);
    }
    SkipsCached(names, |names|, filled);
  }

  /** When every visited name already has an entry the loop skips them all. */
  lemma {:induction false} SkipsCached(names: seq<Name>, i: nat, cache: Dict<Loader>)
    requires cache.Valid() && i <= |names|
    requires forall j :: 0 <= j < i ==> names[j] in cache.vals
    ensures Requests(names, i, cache) == [] && Fill(names, i, cache) == cache
  {
    if i > 0 {
      SkipsCached(names, i - 1, cache);
      assert names[i - 1] in Fill(names, i - 1, cache).vals;
    }
  }

  /**
    The loop of `generate_metadata`: skip each name that has an entry, ask
    about the others and record an entry for each.
   */
  method AskMissing(names: seq<Name>, cache: Dict<Loader>) returns (m: Dict<Loader>, ghost asked: seq<Name>)
    requires cache.Valid()
    ensures m == Fill(names, |names|, cache) && asked == Requests(names, |names|, cache)
  {
    m := cache;
    asked := [];
    for i := 0 to |names|
      invariant m == Fill(names, i, cache)
      invariant asked == Requests(names, i, cache)
    {
      var name := names[i];
      FillEntry(names, i, cache, name);
      if name in m.vals {
        continue;
      }
      asked := asked + [name];
      m := Set(m, name, ReadLastWritten);
    }
  }

  // ---------------------------------------------------------------------------
  // the processor

  datatype ChunkError = ZeroDivision | IndexOutOfRange

  class DataProcessor {
    var dataPath: string
    /** `.txt` files of `data_path`, keyed by file name. */
    var files: Dict<Loader>
    /** Unset until `load_metadata` runs. */
    var metadata: Option<Dict<Loader>>
    /** The files the language model has been asked about, whose answers were written to disk. */
    ghost var generated: seq<Name>

    ghost predicate Valid()
      reads this
    {
      files.Valid() && (metadata.Some? ==> metadata.value.Valid())
    }

    /** `__init__`: remember the data path and collect its `.txt` files; `walk` is what `os.walk(data_path)` lists. */
    constructor (dataPath: string, walk: seq<WalkDir>)
      ensures Valid()
      ensures this.dataPath == dataPath && files == KeyTxt(Listing(walk))
      ensures metadata == None && generated == []
    {
      this.dataPath := dataPath;
      files := Empty();
      metadata := None;
      generated := [];
      new;
      GetTxtFilesContent(walk);
    }

    /** `load_metadata`: replace the metadata by the `.txt` files of the metadata directory. */
    method LoadMetadata(walk: seq<WalkDir>)
      requires Valid()
      modifies this`metadata
      ensures Valid() && metadata == Some(KeyTxt(Listing(walk)))
    {
      var txt := LoadFromPath(walk);
      metadata := Some(txt);
    }

    /** `get_txt_files_content` */
    method GetTxtFilesContent(walk: seq<WalkDir>)
      requires files.Valid()
      modifies this`files
      ensures files == KeyTxt(Listing(walk)) && files.Valid()
    {
      files := LoadFromPath(walk);
    }

    /**
      `__load_from_path__`: walk the tree and key each `.txt` file by its bare
      name; a later file of the same name replaces an earlier one.
     */
    method LoadFromPath(walk: seq<WalkDir>) returns (txt: Dict<Loader>)
      ensures txt == KeyTxt(Listing(walk))
    {
      txt := Empty();
      for w := 0 to |walk|
        invariant txt == KeyTxt(Listing(walk[..w]))
      {
        var dir := walk[w];
        WalkStep(walk, w);
        for j := 0 to |dir.files|
          invariant txt == KeyTxt(Listing(walk[..w]) + Paths(WalkDir(dir.root, dir.files[..j])))
        {
          var file := dir.files[j];
          FileStep(Listing(walk[..w]), dir.root, dir.files, j);
          if EndsWithTxt(file) {
            txt := Set(txt, file, ReadFile(Path(dir.root, file)));
          }
        }
      }
      assert walk[..|walk|] == walk;
    }

    /**
      `chunk_files`: a list of `ceil(len(files) / chunk_size)` dicts, the
      entry at position `i` going to dict `i // chunk_size`.
     */
    method ChunkFiles(chunkSize: int := 20) returns (r: Result<seq<Dict<Loader>>, ChunkError>)
      requires Valid()
      ensures chunkSize == 0 ==> r == Err(ZeroDivision)
      ensures chunkSize < 0 ==> r == if |files.keys| == 0 then Ok([]) else Err(IndexOutOfRange)
      ensures chunkSize > 0 ==> r == Ok(Chunks(files, chunkSize))
    {
      if chunkSize == 0 {
        return Err(ZeroDivision);
      }
      var n := |files.keys|;
      // `range` of a ceiling that is not positive is empty
      var count := if chunkSize > 0 then CeilDiv(n, chunkSize) else 0;
      var chunked := seq(count, _ => Empty());
      var ok, filled := Distribute(files, chunkSize, chunked);
      r := if ok then Ok(filled) else Err(IndexOutOfRange);
    }

    /**
      `generate_metadata`: load the metadata directory, then ask the language
      model about every file that has no metadata entry yet and record one.
      `outputWalk` is what `os.walk(output_dir)` lists once the directory exists;
      `outputDir` only names that directory, since the written files are not modelled.
     */
    method GenerateMetadata(outputDir: string, outputWalk: seq<WalkDir>)
      requires Valid()
      modifies this`metadata, this`generated
      ensures Valid()
      ensures metadata == Some(Fill(files.keys, |files.keys|, KeyTxt(Listing(outputWalk))))
      ensures generated == old(generated) + Requests(files.keys, |files.keys|, KeyTxt(Listing(outputWalk)))
    {
      LoadMetadata(outputWalk);
      var m, asked := AskMissing(files.keys, metadata.value);
      metadata := Some(m);
      generated := generated + asked;
    }
  }

}
