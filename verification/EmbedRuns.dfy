/** The cached embedder over whole runs: it answers as the backend does, and its
    counters lose nothing. */
module EmbedRuns {
  import opened Wrappers
  import opened EmbedCodec
  import opened EmbedCache

  ghost predicate Injective(b: Backend) {
    forall s, t :: b.hash(s) == b.hash(t) ==> s == t
  }

  /** Every cached vector is, up to 32-bit rounding, what the backend computes under its key. */
  ghost predicate Correct(b: Backend, table: Table) {
    forall t, m :: (b.hash(t), m) in table ==> Decode(table[(b.hash(t), m)]) == Rounded(b.embed(m, t))
  }

  datatype Op =
    | Embed(model: string, served: string, texts: seq<string>, now: int)
    | Vacuum(cutoff: int)
    | Flush

  /** The cache, what the metrics store has summed up, and (for the claim) how many hashes were looked up. */
  datatype State = State(table: Table, hits: nat, misses: nat, flushedHits: nat, flushedMisses: nat, lookedUp: nat)

  const FRESH := State(map[], 0, 0, 0, 0, 0)

  ghost function TableAfter(b: Backend, table: Table, op: Op): Table {
    match op
    case Embed(model, served, texts, now) =>
      var items := NewItems(b, table, texts, model, served);
      if AllPackable(items) then WithAll(table, items, model, now) else table
    case Vacuum(cutoff) => Kept(table, cutoff)
    case Flush => table
  }

  ghost function Step(b: Backend, s: State, op: Op): State {
    var table := TableAfter(b, s.table, op);
    match op
    case Embed(model, _, texts, _) =>
      var found := Found(s.table, Hashes(b, texts), model);
      FoundIsSmall(s.table, Hashes(b, texts), model);
      State(table, s.hits + |found|, s.misses + (|texts| - |found|), s.flushedHits, s.flushedMisses,
            s.lookedUp + |texts|)
    case Vacuum(_) => s.(table := table)
    case Flush => State(table, 0, 0, s.flushedHits + s.hits, s.flushedMisses + s.misses, s.lookedUp)
  }

  ghost function Run(b: Backend, ops: seq<Op>): State {
    if ops == [] then FRESH else Step(b, Run(b, ops[..|ops| - 1]), ops[|ops| - 1])
  }

  /** The backend serves the model that the memoised id names. */
  predicate Honest(op: Op) {
    op.Embed? ==> op.model == op.served
  }

  // ---------------------------------------------------------------- the table stays correct

  lemma {:induction false} WithAllCorrect(b: Backend, table: Table, items: seq<Item>, model: string, now: int)
    requires Injective(b) && Correct(b, table) && AllPackable(items)
    requires forall k :: 0 <= k < |items| ==> exists t :: items[k] == (b.hash(t), b.embed(model, t))
    ensures Correct(b, WithAll(table, items, model, now))
  {
    if items != [] {
      var init := items[..|items| - 1];
      var (hash, vec) := items[|items| - 1];
      WithAllCorrect(b, table, init, model, now);
      var before := WithAll(table, init, model, now);
      var after := before[(hash, model) := Encode(vec, now)];
      forall t, m | (b.hash(t), m) in after
        ensures Decode(after[(b.hash(t), m)]) == Rounded(b.embed(m, t))
      {
        DecodeEncode(vec, now);
        if (b.hash(t), m) != (hash, model) {
          assert (b.hash(t), m) in before;
        }
      }
    }
  }

  lemma NewItemsCorrect(b: Backend, table: Table, texts: seq<string>, model: string)
    ensures
      var items := NewItems(b, table, texts, model, model);
      forall k :: 0 <= k < |items| ==> exists t :: items[k] == (b.hash(t), b.embed(model, t))
  {
    var items := NewItems(b, table, texts, model, model);
    var missed := Missed(Found(table, Hashes(b, texts), model).Keys, Hashes(b, texts));
    forall k | 0 <= k < |items|
      ensures exists t :: items[k] == (b.hash(t), b.embed(model, t))
    {
      var t := texts[missed[k]];
      assert items[k] == (b.hash(t), b.embed(model, t));
    }
  }

  lemma StepStaysCorrect(b: Backend, table: Table, op: Op)
    requires Injective(b) && Correct(b, table) && Honest(op)
    ensures Correct(b, TableAfter(b, table, op))
  {
    match op
    case Embed(model, served, texts, now) =>
      var items := NewItems(b, table, texts, model, served);
      NewItemsCorrect(b, table, texts, model);
      if AllPackable(items) {
        WithAllCorrect(b, table, items, model, now);
      }
    case Vacuum(cutoff) =>
      forall t, m | (b.hash(t), m) in Kept(table, cutoff)
        ensures Decode(Kept(table, cutoff)[(b.hash(t), m)]) == Rounded(b.embed(m, t))
      {
      }
    case Flush =>
  }

  lemma {:induction false} RunStaysCorrect(b: Backend, ops: seq<Op>)
    requires Injective(b) && forall i :: 0 <= i < |ops| ==> Honest(ops[i])
    ensures Correct(b, Run(b, ops).table)
  {
    if ops != [] {
      RunStaysCorrect(b, ops[..|ops| - 1]);
      StepStaysCorrect(b, Run(b, ops[..|ops| - 1]).table, ops[|ops| - 1]);
    }
  }

  /** The cache is invisible: after any run of embeds, model changes, vacuums and
      flushes, the answer to a text is what the backend computes for it, rounded to
      32 bits if it was cached. */
  lemma CacheIsInvisible(b: Backend, ops: seq<Op>, text: string, model: string)
    requires Injective(b) && forall i :: 0 <= i < |ops| ==> Honest(ops[i])
    ensures
      var table, truth := Run(b, ops).table, b.embed(model, text);
      && Answer(b, table, text, model, model) == (if (b.hash(text), model) in table then Rounded(truth) else truth)
      && Rounded(Answer(b, table, text, model, model)) == Rounded(truth)
      && (AllExact(truth.dense) && AllExact(truth.values) ==> Answer(b, table, text, model, model) == truth)
  {
    RunStaysCorrect(b, ops);
    var truth := b.embed(model, text);
    RoundedNumbersIff(truth.dense);
    RoundedNumbersIff(truth.values);
    RoundingTwice(truth);
  }

  /** Hits and misses, flushed or not, add up to all hashes that were looked up. */
  lemma {:induction false} CountersConserve(b: Backend, ops: seq<Op>)
    ensures
      var s := Run(b, ops);
      s.hits + s.misses + s.flushedHits + s.flushedMisses == s.lookedUp
  {
    if ops != [] {
      var s, op := Run(b, ops[..|ops| - 1]), ops[|ops| - 1];
      CountersConserve(b, ops[..|ops| - 1]);
      if op.Embed? {
        FoundIsSmall(s.table, Hashes(b, op.texts), op.model);
      }
    }
  }

  // ---------------------------------------------------------------- a second look finds everything

  lemma {:induction false} WithAllKeys(table: Table, items: seq<Item>, model: string, now: int)
    requires AllPackable(items)
    ensures forall k :: k in WithAll(table, items, model, now) <==>
      k in table || exists i :: 0 <= i < |items| && k == (items[i].0, model)
  {
    if items != [] {
      WithAllKeys(table, items[..|items| - 1], model, now);
    }
  }

  /** After one embed, embedding the same texts computes nothing. */
  lemma SecondLookComputesNothing(b: Backend, table: Table, texts: seq<string>, model: string, served: string, now: int)
    requires AllPackable(NewItems(b, table, texts, model, served))
    ensures NewItems(b, WithAll(table, NewItems(b, table, texts, model, served), model, now), texts, model, served) ==
      []
  {
    var hashes, items := Hashes(b, texts), NewItems(b, table, texts, model, served);
    var found := Found(table, hashes, model);
    var missed := Missed(found.Keys, hashes);
    var after := WithAll(table, items, model, now);
    WithAllKeys(table, items, model, now);
    MissedAre(found.Keys, hashes);
    forall i | 0 <= i < |hashes|
      ensures hashes[i] in Found(after, hashes, model)
    {
      if hashes[i] !in found {
        var k :| 0 <= k < |missed| && missed[k] == i;
        assert items[k].0 == hashes[i];
      }
    }
    NoneMissed(Found(after, hashes, model).Keys, hashes);
  }

  lemma {:induction false} NoneMissed(cached: set<string>, hashes: seq<string>)
    requires forall i :: 0 <= i < |hashes| ==> hashes[i] in cached
    ensures Missed(cached, hashes) == []
  {
    if hashes != [] {
      NoneMissed(cached, hashes[..|hashes| - 1]);
    }
  }

  // ---------------------------------------------------------------- where the guarantees end

  ghost predicate ItemsAre(b: Backend, items: seq<Item>, served: string) {
    forall k :: 0 <= k < |items| ==> ItemIs(b, items[k], served)
  }

  /** A text's hash with the vector that the served model computes for it. */
  ghost predicate ItemIs(b: Backend, item: Item, served: string) {
    exists t :: item == (b.hash(t), b.embed(served, t))
  }

  /** A written row holds what the served model computes, however often the text occurs. */
  lemma {:induction false} RowOfText(b: Backend, table: Table, items: seq<Item>, served: string, model: string,
                                     now: int, text: string, k: nat)
    requires Injective(b) && AllPackable(items) && ItemsAre(b, items, served)
    requires k < |items| && items[k].0 == b.hash(text)
    ensures
      var after := WithAll(table, items, model, now);
      (b.hash(text), model) in after && Decode(after[(b.hash(text), model)]) == Rounded(b.embed(served, text))
  {
    var n := |items| - 1;
    if items[n].0 == b.hash(text) {
      assert ItemIs(b, items[n], served);
      DecodeEncode(items[n].1, now);
    } else {
      RowOfText(b, table, items[..n], served, model, now, text, k);
    }
  }

  lemma {:induction false} OtherRows(table: Table, items: seq<Item>, model: string, now: int, key: (string, string))
    requires AllPackable(items) && (key.1 != model || forall k :: 0 <= k < |items| ==> items[k].0 != key.0)
    ensures
      var after := WithAll(table, items, model, now);
      (key in after <==> key in table) && (key in table ==> after[key] == table[key])
  {
    if items != [] {
      OtherRows(table, items[..|items| - 1], model, now, key);
    }
  }

  ghost predicate HasItem(items: seq<Item>, hash: string) {
    exists k :: 0 <= k < |items| && items[k].0 == hash
  }

  ghost predicate IsNew(b: Backend, table: Table, texts: seq<string>, model: string, hash: string) {
    (hash, model) !in table && exists i :: 0 <= i < |texts| && b.hash(texts[i]) == hash
  }

  lemma NewItemsAre(b: Backend, table: Table, texts: seq<string>, model: string, served: string)
    ensures ItemsAre(b, NewItems(b, table, texts, model, served), served)
    ensures forall h :: HasItem(NewItems(b, table, texts, model, served), h) <==> IsNew(b, table, texts, model, h)
  {
    var hashes, items := Hashes(b, texts), NewItems(b, table, texts, model, served);
    var missed := Missed(Found(table, hashes, model).Keys, hashes);
    MissedAre(Found(table, hashes, model).Keys, hashes);
    forall k | 0 <= k < |items|
      ensures ItemIs(b, items[k], served) && missed[k] in missed && (items[k].0, model) !in table
    {
      assert items[k] == (b.hash(texts[missed[k]]), b.embed(served, texts[missed[k]]));
      assert missed[k] in missed;
    }
    forall i | 0 <= i < |texts| && (b.hash(texts[i]), model) !in table
      ensures HasItem(items, b.hash(texts[i]))
    {
      assert hashes[i] !in Found(table, hashes, model);
      var k :| 0 <= k < |missed| && missed[k] == i;
      assert items[k].0 == hashes[i];
    }
  }

  /** If the backend's model changes behind the memoised id, an embed leaves the cache
      right exactly when it writes nothing, because a vector cannot be packed, or both
      models happen to agree on every text that was not cached. */
  lemma StaleIdIff(b: Backend, table: Table, texts: seq<string>, model: string, served: string, now: int)
    requires Injective(b) && Correct(b, table)
    ensures Correct(b, TableAfter(b, table, Embed(model, served, texts, now))) <==>
      || !AllPackable(NewItems(b, table, texts, model, served))
      || forall i :: 0 <= i < |texts| && (b.hash(texts[i]), model) !in table ==>
        Rounded(b.embed(served, texts[i])) == Rounded(b.embed(model, texts[i]))
  {
    var items, after := NewItems(b, table, texts, model, served),
      TableAfter(b, table, Embed(model, served, texts, now));
    if AllPackable(items) {
      NewItemsAre(b, table, texts, model, served);
      forall i | 0 <= i < |texts| && (b.hash(texts[i]), model) !in table
        ensures (b.hash(texts[i]), model) in after
        ensures Decode(after[(b.hash(texts[i]), model)]) == Rounded(b.embed(served, texts[i]))
      {
        assert IsNew(b, table, texts, model, b.hash(texts[i]));
        var k :| 0 <= k < |items| && items[k].0 == b.hash(texts[i]);
        RowOfText(b, table, items, served, model, now, texts[i], k);
      }
      forall t, m | (b.hash(t), m) in after && !(m == model && HasItem(items, b.hash(t)))
        ensures Decode(after[(b.hash(t), m)]) == Rounded(b.embed(m, t))
      {
        OtherRows(table, items, model, now, (b.hash(t), m));
      }
    }
  }

  /** No cached hash occurs twice in the request. */
  ghost predicate NoCachedRepeats(cached: set<string>, hashes: seq<string>) {
    forall i, j :: 0 <= i < j < |hashes| && hashes[i] in cached ==> hashes[i] != hashes[j]
  }

  function Among(cached: set<string>, hashes: seq<string>): set<string> {
    set h | h in hashes && h in cached
  }

  lemma RepeatsSnoc(cached: set<string>, init: seq<string>, last: string)
    ensures NoCachedRepeats(cached, init + [last]) <==>
      NoCachedRepeats(cached, init) && (last in cached ==> last !in init)
  {
    var hashes := init + [last];
    assert hashes[|init|] == last;
    if NoCachedRepeats(cached, hashes) {
      forall i, j | 0 <= i < j < |init| && init[i] in cached
        ensures init[i] != init[j]
      {
        assert init[i] == hashes[i] && init[j] == hashes[j];
      }
      forall i | 0 <= i < |init| && init[i] in cached
        ensures init[i] != last
      {
        assert init[i] == hashes[i];
      }
    }
  }

  lemma {:induction false} DistinctHits(cached: set<string>, hashes: seq<string>)
    ensures |Among(cached, hashes)| + |Missed(cached, hashes)| <= |hashes|
    ensures |Among(cached, hashes)| + |Missed(cached, hashes)| == |hashes| <==> NoCachedRepeats(cached, hashes)
  {
    if hashes != [] {
      var init, last := hashes[..|hashes| - 1], hashes[|hashes| - 1];
      DistinctHits(cached, init);
      RepeatsSnoc(cached, init, last);
      assert hashes == init + [last];
      assert Among(cached, hashes) == Among(cached, init) + if last in cached then {last} else {};
    }
  }

  /** The miss counter is the number of texts computed exactly when no cached text
      is asked for twice in one call; repeats of a cached text count as misses. */
  lemma MissesCountComputationsIff(b: Backend, table: Table, texts: seq<string>, model: string, served: string)
    ensures |texts| - |Found(table, Hashes(b, texts), model)| >= |NewItems(b, table, texts, model, served)|
    ensures |texts| - |Found(table, Hashes(b, texts), model)| == |NewItems(b, table, texts, model, served)| <==>
      forall i, j :: 0 <= i < j < |texts| && (b.hash(texts[i]), model) in table ==> b.hash(texts[i]) != b.hash(texts[j])
  {
    var hashes := Hashes(b, texts);
    var cached := Found(table, hashes, model).Keys;
    DistinctHits(cached, hashes);
    assert Among(cached, hashes) == cached;
    assert |Found(table, hashes, model)| == |cached|;
    assert forall i :: 0 <= i < |texts| ==> (hashes[i] in cached <==> (b.hash(texts[i]), model) in table);
    assert NoCachedRepeats(cached, hashes) <==>
      forall i, j :: 0 <= i < j < |texts| && hashes[i] in cached ==> hashes[i] != hashes[j];
  }

  // ---------------------------------------------------------------- what a vacuum spares

  /** No step but a vacuum with a later cutoff takes a cached vector away or changes it. */
  lemma StepSpares(b: Backend, s: State, op: Op, key: (string, string))
    requires key in s.table && (op.Vacuum? ==> op.cutoff <= s.table[key].ts)
    ensures key in Step(b, s, op).table && Step(b, s, op).table[key] == s.table[key]
  {
    match op
    case Embed(model, served, texts, now) =>
      var items := NewItems(b, s.table, texts, model, served);
      NewItemsAre(b, s.table, texts, model, served);
      if AllPackable(items) {
        assert key.1 == model ==> !IsNew(b, s.table, texts, model, key.0);
        assert key.1 == model ==> !HasItem(items, key.0);
        OtherRows(s.table, items, model, now, key);
      }
    case Vacuum(_) =>
    case Flush =>
  }

  /** And such a vacuum does. */
  lemma VacuumTakes(b: Backend, s: State, cutoff: int, key: (string, string))
    requires key in s.table && s.table[key].ts < cutoff
    ensures key !in Step(b, s, Vacuum(cutoff)).table
  {
  }

  /** A cached vector stays as it is for as long as no vacuum reaches past the time it was written at; the first one
      that does takes it away. */
  lemma {:induction false} SpareUntilReached(b: Backend, before: seq<Op>, later: seq<Op>, key: (string, string))
    requires key in Run(b, before).table
    requires
      var ts := Run(b, before).table[key].ts;
      forall k :: 0 <= k < |later| && later[k].Vacuum? ==> later[k].cutoff <= ts || k == |later| - 1
    ensures
      var entry, after := Run(b, before).table[key], Run(b, before + later).table;
      if later != [] && later[|later| - 1].Vacuum? && later[|later| - 1].cutoff > entry.ts then key !in after
      else key in after && after[key] == entry
  {
    if later == [] {
      assert before + later == before;
    } else {
      var n := |later| - 1;
      assert (before + later)[..|before + later| - 1] == before + later[..n];
      SpareUntilReached(b, before, later[..n], key);
      var s := Run(b, before + later[..n]);
      if later[n].Vacuum? && later[n].cutoff > s.table[key].ts {
        VacuumTakes(b, s, later[n].cutoff, key);
      } else {
        StepSpares(b, s, later[n], key);
      }
    }
  }

  /** A vector that an embed computes is cached with the time of that embed. */
  lemma {:induction false} StampedNow(table: Table, items: seq<Item>, model: string, now: int, k: nat)
    requires AllPackable(items) && k < |items|
    ensures
      var after := WithAll(table, items, model, now);
      (items[k].0, model) in after && after[(items[k].0, model)].ts == now
  {
    var n := |items| - 1;
    if k < n {
      StampedNow(table, items[..n], model, now, k);
    }
  }
}
