/** The embedding cache and the embedder that consults it first. */
module EmbedCache {
  import opened Wrappers
  import opened EmbedCodec

  /** Primary key: chunk hash and model. */
  type Table = map<(string, string), Entry>

  type Item = (string, HybridVec)

  datatype Failure = Unpackable

  const BATCH := 800

  /** The cached vectors among the hashes. */
  function Found(table: Table, hashes: seq<string>, model: string): map<string, HybridVec> {
    map h | h in hashes && (h, model) in table :: Decode(table[(h, model)])
  }

  ghost predicate AllPackable(items: seq<Item>) {
    forall i :: 0 <= i < |items| ==> Packable(items[i].1)
  }

  /** INSERT OR REPLACE row by row. */
  function WithAll(table: Table, items: seq<Item>, model: string, now: int): Table
    requires AllPackable(items)
  {
    if items == [] then table
    else
      var (hash, vec) := items[|items| - 1];
      WithAll(table, items[..|items| - 1], model, now)[(hash, model) := Encode(vec, now)]
  }

  function Kept(table: Table, cutoff: int): Table {
    map k | k in table && table[k].ts >= cutoff :: table[k]
  }

  lemma FoundAppend(table: Table, a: seq<string>, b: seq<string>, model: string)
    ensures Found(table, a + b, model) == Found(table, a, model) + Found(table, b, model)
  {
  }

  lemma FoundNext(table: Table, hashes: seq<string>, i: nat, end: nat, model: string)
    requires i <= end <= |hashes|
    ensures Found(table, hashes[..i], model) + Found(table, hashes[i..end], model) == Found(table, hashes[..end], model)
  {
    assert hashes[..end] == hashes[..i] + hashes[i..end];
    FoundAppend(table, hashes[..i], hashes[i..end], model);
  }

  ghost predicate RowsOf(rows: seq<(string, Entry)>, items: seq<Item>, now: int) {
    && |rows| == |items| && AllPackable(items)
    && forall k :: 0 <= k < |rows| ==> rows[k] == (items[k].0, Encode(items[k].1, now))
  }

  /** Nothing if one of the vectors cannot be packed. */
  method PackAll(items: seq<Item>, now: int) returns (rows: Option<seq<(string, Entry)>>)
    ensures rows.Some? <==> AllPackable(items)
    ensures rows.Some? ==> RowsOf(rows.value, items, now)
  {
    var packed: seq<(string, Entry)> := [];
    for i := 0 to |items|
      invariant RowsOf(packed, items[..i], now)
    {
      if !Packable(items[i].1) {
        return None;
      }
      packed := packed + [(items[i].0, Encode(items[i].1, now))];
    }
    assert items[..|items|] == items;
    rows := Some(packed);
  }

  class EmbedCache {
    var table: Table
    var hits: nat
    var misses: nat

    constructor ()
      ensures table == map[] && hits == 0 && misses == 0
    {
      table, hits, misses := map[], 0, 0;
    }

    method GetMany(hashes: seq<string>, model: string) returns (out: map<string, HybridVec>)
      modifies this`hits, this`misses
      ensures out == Found(table, hashes, model)
      ensures |out| <= |hashes|
      ensures hits == old(hits) + |out| && misses == old(misses) + (|hashes| - |out|)
    {
      out := map[];
      if hashes == [] {
        return;
      }
      out := LookUp(hashes, model);
      FoundIsSmall(table, hashes, model);
      hits, misses := hits + |out|, misses + (|hashes| - |out|);
    }

    /** In batches, because SQLite limits the parameters of a query. */
    method LookUp(hashes: seq<string>, model: string) returns (out: map<string, HybridVec>)
      ensures out == Found(table, hashes, model)
    {
      out := map[];
      var i := 0;
      while i < |hashes|
        invariant 0 <= i <= |hashes| && out == Found(table, hashes[..i], model)
      {
        var end := if i + BATCH < |hashes| then i + BATCH else |hashes|;
        FoundNext(table, hashes, i, end, model);
        out := out + Found(table, hashes[i..end], model);
        i := end;
      }
      assert hashes[..|hashes|] == hashes;
    }

    /** Packs every vector before the first row is written. */
    method PutMany(items: seq<Item>, model: string, now: int) returns (r: Result<nat, Failure>)
      modifies this`table
      ensures r.Ok? <==> AllPackable(items)
      ensures r.Ok? ==> r.value == |items| && table == WithAll(old(table), items, model, now)
      ensures r.Err? ==> table == old(table)
    {
      var rows := PackAll(items, now);
      if rows.None? {
        return Err(Unpackable);
      }
      WriteRows(rows.value, items, model, now);
      r := Ok(|rows.value|);
    }

    /** The packed rows, one after the other. */
    method WriteRows(rows: seq<(string, Entry)>, ghost items: seq<Item>, model: string, ghost now: int)
      requires RowsOf(rows, items, now)
      modifies this`table
      ensures table == WithAll(old(table), items, model, now)
    {
      for i := 0 to |rows|
        invariant table == WithAll(old(table), items[..i], model, now)
      {
        assert items[..i + 1][..i] == items[..i];
        table := table[(rows[i].0, model) := rows[i].1];
      }
      assert items[..|items|] == items;
    }

    method VacuumOlderThan(cutoff: int) returns (deleted: nat)
      modifies this`table
      ensures table == Kept(old(table), cutoff)
      ensures forall k :: k in table <==> k in old(table) && !(old(table)[k].ts < cutoff)
      ensures forall k :: k in table ==> table[k] == old(table)[k]
      ensures deleted + |table| == |old(table)|
    {
      KeptIsSmall(table, cutoff);
      var kept := Kept(table, cutoff);
      deleted := |table| - |kept|;
      table := kept;
    }
  }

  lemma FoundIsSmall(table: Table, hashes: seq<string>, model: string)
    ensures |Found(table, hashes, model)| <= |hashes|
  {
    MembersAreFew(hashes);
    var members := set h | h in hashes;
    assert Found(table, hashes, model).Keys <= members;
    SubsetIsSmall(Found(table, hashes, model).Keys, members);
    assert |Found(table, hashes, model)| == |Found(table, hashes, model).Keys|;
  }

  lemma {:induction false} MembersAreFew(hashes: seq<string>)
    ensures |set h | h in hashes| <= |hashes|
  {
    if hashes != [] {
      var init, last := hashes[..|hashes| - 1], hashes[|hashes| - 1];
      MembersAreFew(init);
      assert hashes == init + [last];
      assert (set h | h in hashes) == (set h | h in init) + {last};
    }
  }

  lemma KeptIsSmall(table: Table, cutoff: int)
    ensures |Kept(table, cutoff)| <= |table|
  {
    assert Kept(table, cutoff).Keys <= table.Keys;
    SubsetIsSmall(Kept(table, cutoff).Keys, table.Keys);
    assert |Kept(table, cutoff)| == |Kept(table, cutoff).Keys| && |table| == |table.Keys|;
  }

  // ---------------------------------------------------------------- what one call of the wrapper does

  /** Which texts have to be computed. */
  function Missed(cached: set<string>, hashes: seq<string>): (positions: seq<nat>)
    ensures forall k :: 0 <= k < |positions| ==> positions[k] < |hashes|
  {
    if hashes == [] then []
    else
      var n := |hashes| - 1;
      Missed(cached, hashes[..n]) + if hashes[n] in cached then [] else [n]
  }

  ghost predicate Ascending(p: seq<nat>) {
    forall j, k :: 0 <= j < k < |p| ==> p[j] < p[k]
  }

  /** Positions are listed once, in order, and are the uncached ones. */
  lemma {:induction false} MissedAre(cached: set<string>, hashes: seq<string>)
    ensures Ascending(Missed(cached, hashes))
    ensures forall i :: i in Missed(cached, hashes) ==> hashes[i] !in cached
    ensures forall i :: 0 <= i < |hashes| && hashes[i] !in cached ==> i in Missed(cached, hashes)
  {
    if hashes != [] {
      var n := |hashes| - 1;
      MissedAre(cached, hashes[..n]);
      var before := Missed(cached, hashes[..n]);
      assert forall k :: 0 <= k < |before| ==> before[k] < n;
      assert Missed(cached, hashes) == before + if hashes[n] in cached then [] else [n];
      assert forall i :: 0 <= i < n ==> hashes[..n][i] == hashes[i];
    }
  }

  /** The hash function, and what the backend computes for a model and a text. */
  datatype Backend = Backend(hash: string -> string, embed: (string, string) -> HybridVec)

  function Hashes(b: Backend, texts: seq<string>): (h: seq<string>)
    ensures |h| == |texts|
  {
    seq(|texts|, i requires 0 <= i < |texts| => b.hash(texts[i]))
  }

  /** The rows that a call adds: `model` is the cache key, `served` the model that answers. */
  function NewItems(b: Backend, table: Table, texts: seq<string>, model: string, served: string): seq<Item> {
    var hashes := Hashes(b, texts);
    var missed := Missed(Found(table, hashes, model).Keys, hashes);
    seq(|missed|, k requires 0 <= k < |missed| => (hashes[missed[k]], b.embed(served, texts[missed[k]])))
  }

  /** The answer for one text: the cached vector, or the backend's. */
  function Answer(b: Backend, table: Table, text: string, model: string, served: string): HybridVec {
    if (b.hash(text), model) in table then Decode(table[(b.hash(text), model)]) else b.embed(served, text)
  }

  class CachedEmbedder {
    const backend: Backend
    const cache: EmbedCache
    /** `None` while the model id is still a callable. */
    var modelId: Option<string>

    constructor (backend: Backend, cache: EmbedCache, modelId: Option<string>)
      ensures this.backend == backend && this.cache == cache && this.modelId == modelId
    {
      this.backend, this.cache, this.modelId := backend, cache, modelId;
    }

    /** Resolve lazily, then memoise: `served` is what the backend serves right now. */
    method ModelId(served: string) returns (id: string)
      modifies this
      ensures id == old(modelId).GetOr(served) && modelId == Some(id)
    {
      if modelId.None? {
        modelId := Some(served);
      }
      id := modelId.value;
    }

    method Embed(texts: seq<string>, served: string, now: int) returns (r: Result<seq<HybridVec>, Failure>)
      modifies this, cache
      ensures modelId == if texts == [] then old(modelId) else Some(old(modelId).GetOr(served))
      ensures
        var model := old(modelId).GetOr(served);
        var items := NewItems(backend, old(cache.table), texts, model, served);
        && (r.Ok? <==> AllPackable(items))
        && (r.Err? ==> cache.table == old(cache.table))
        && (r.Ok? ==>
          && cache.table == WithAll(old(cache.table), items, model, now)
          && |r.value| == |texts|
          && forall i :: 0 <= i < |texts| ==> r.value[i] == Answer(backend, old(cache.table), texts[i], model, served))
      ensures
        var found := |Found(old(cache.table), Hashes(backend, texts), old(modelId).GetOr(served))|;
        && found <= |texts|
        && cache.hits == old(cache.hits) + found && cache.misses == old(cache.misses) + (|texts| - found)
    {
      if texts == [] {
        return Ok([]);
      }
      ghost var table := cache.table;
      var hashes := Hashes(backend, texts);
      var model := ModelId(served);
      var cached := cache.GetMany(hashes, model);
      var positions, missTexts, missHashes := CollectMisses(texts, hashes, cached);
      var vecs := seq(|missTexts|, k requires 0 <= k < |missTexts| => backend.embed(served, missTexts[k]));
      var items := seq(|vecs|, k requires 0 <= k < |vecs| => (missHashes[k], vecs[k]));
      assert items == NewItems(backend, table, texts, model, served);
      if vecs != [] {
        var written := cache.PutMany(items, model, now);
        if written.Err? {
          return Err(Unpackable);
        }
      }
      var out := Reassemble(hashes, cached, positions, vecs);
      SplicedIsAnswer(backend, table, texts, model, served, out, cached, positions);
      r := Ok(out);
    }

    method EmbedOne(text: string, served: string, now: int) returns (r: Result<HybridVec, Failure>)
      modifies this, cache
      ensures r.Ok? ==> r.value == Answer(backend, old(cache.table), text, old(modelId).GetOr(served), served)
    {
      var all := Embed([text], served, now);
      r := match all case Ok(vecs) => Ok(vecs[0]) case Err(e) => Err(e);
    }

    /** What is handed to the metrics store, if anything. */
    method FlushCacheStats() returns (recorded: Option<(nat, nat)>)
      modifies cache
      ensures cache.table == old(cache.table) && cache.hits == 0 && cache.misses == 0
      ensures recorded == if old(cache.hits) == 0 && old(cache.misses) == 0 then None
        else Some((old(cache.hits), old(cache.misses)))
    {
      var hits, misses := cache.hits, cache.misses;
      if hits == 0 && misses == 0 {
        return None;
      }
      recorded := Some((hits, misses));
      cache.hits, cache.misses := 0, 0;
    }
  }

  method CollectMisses(texts: seq<string>, hashes: seq<string>, cached: map<string, HybridVec>)
    returns (positions: seq<nat>, missTexts: seq<string>, missHashes: seq<string>)
    requires |texts| == |hashes|
    ensures positions == Missed(cached.Keys, hashes)
    ensures |missTexts| == |missHashes| == |positions|
    ensures forall k :: 0 <= k < |positions| ==>
      missTexts[k] == texts[positions[k]] && missHashes[k] == hashes[positions[k]]
  {
    positions, missTexts, missHashes := [], [], [];
    for i := 0 to |hashes|
      invariant positions == Missed(cached.Keys, hashes[..i])
      invariant |missTexts| == |missHashes| == |positions|
      invariant forall k :: 0 <= k < |positions| ==>
        missTexts[k] == texts[positions[k]] && missHashes[k] == hashes[positions[k]]
    {
      assert hashes[..i + 1][..i] == hashes[..i];
      if hashes[i] !in cached {
        positions, missTexts, missHashes := positions + [i], missTexts + [texts[i]], missHashes + [hashes[i]];
      }
    }
    assert hashes[..|hashes|] == hashes;
  }

  /** Cached vectors and new ones at their positions give the answer to every text. */
  lemma SplicedIsAnswer(b: Backend, table: Table, texts: seq<string>, model: string, served: string,
                        out: seq<HybridVec>, found: map<string, HybridVec>, missed: seq<nat>)
    requires |out| == |texts|
    requires found == Found(table, Hashes(b, texts), model) && missed == Missed(found.Keys, Hashes(b, texts))
    requires forall i :: 0 <= i < |texts| && Hashes(b, texts)[i] in found ==> out[i] == found[Hashes(b, texts)[i]]
    requires forall k :: 0 <= k < |missed| ==> out[missed[k]] == b.embed(served, texts[missed[k]])
    ensures forall i :: 0 <= i < |texts| ==> out[i] == Answer(b, table, texts[i], model, served)
  {
    var hashes := Hashes(b, texts);
    MissedAre(found.Keys, hashes);
    forall i | 0 <= i < |texts|
      ensures out[i] == Answer(b, table, texts[i], model, served)
    {
      assert hashes[i] == b.hash(texts[i]) && hashes[i] in hashes;
      if hashes[i] !in found {
        var k :| 0 <= k < |missed| && missed[k] == i;
      }
    }
  }

  /** Put cached and new vectors back at their positions. */
  method Reassemble(hashes: seq<string>, cached: map<string, HybridVec>, positions: seq<nat>, vecs: seq<HybridVec>)
    returns (out: seq<HybridVec>)
    requires positions == Missed(cached.Keys, hashes) && |vecs| == |positions|
    ensures |out| == |hashes|
    ensures forall i :: 0 <= i < |hashes| && hashes[i] in cached ==> out[i] == cached[hashes[i]]
    ensures forall k :: 0 <= k < |positions| ==> out[positions[k]] == vecs[k]
  {
    MissedAre(cached.Keys, hashes);
    assert forall k :: 0 <= k < |positions| ==> positions[k] in positions;
    var slots := new HybridVec[|hashes|](_ => HybridVec([], [], []));
    for i := 0 to |hashes|
      invariant forall j :: 0 <= j < i && hashes[j] in cached ==> slots[j] == cached[hashes[j]]
    {
      if hashes[i] in cached {
        slots[i] := cached[hashes[i]];
      }
    }
    for k := 0 to |positions|
      invariant forall j :: 0 <= j < |hashes| && hashes[j] in cached ==> slots[j] == cached[hashes[j]]
      invariant forall j :: 0 <= j < k ==> slots[positions[j]] == vecs[j]
    {
      slots[positions[k]] := vecs[k];
    }
    out := slots[..];
  }
}
