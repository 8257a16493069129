/**
 * The embedding cache (modules/mitre-frameworks/scripts/export_embeddings_to_cypher.py):
 * `embed_with_cache` looks items up by fingerprint, embeds the misses in batches and stitches.
 */
module EmbedCache {
  import opened Prelude
  import opened Decimals

  /** The components of a vector are only passed on, so what they are does not matter. */
  type Vector = seq<int>

  datatype Item = Item(mitreId: string, name: string, text: string)

  /** What the provider is given: a title and a text. */
  datatype Document = Document(title: string, text: string)

  function DocumentOf(item: Item): Document { Document(item.name, item.text) }

  /** A provider may fail any of its calls, numbered in turn; `digest` is SHA-256 in hexadecimal. */
  datatype Provider = Provider(
    modelName: string,
    dimensions: nat,
    digest: string -> string,
    embed: (nat, seq<Document>) -> Result<seq<Vector>, string>)

  const EMBED_BATCH_SIZE: nat := 100

  datatype EmbedError = BatchFailed(mitreId: string, message: string) | Misaligned(index: int)

  // ----- fingerprints -----

  function Payload(mitreId: string, modelName: string, dimensions: nat, text: string): string {
    mitreId + "|" + modelName + "|" + Decimal(dimensions) + "|" + text
  }

  function FingerprintFor(p: Provider, item: Item): string { p.digest(Payload(item.mitreId, p.modelName, p.dimensions, item.text)) }

  predicate NoBar(s: string) { forall k :: 0 <= k < |s| ==> s[k] != '|' }

  lemma FirstBar(a: string, b: string, x: string, y: string)
    requires NoBar(a) && NoBar(b) && a + "|" + x == b + "|" + y
    ensures a == b && x == y
  {
    var s := a + "|" + x;
    assert s[|a|] == '|' && s[|b|] == '|';
    assert forall k :: 0 <= k < |a| ==> s[k] == a[k];
    assert forall k :: 0 <= k < |b| ==> s[k] == b[k];
    assert |a| == |b|;
    assert a == s[..|a|] && b == s[..|b|] && x == s[|a| + 1..] && y == s[|b| + 1..];
  }

  /** Where ids and model names hold no bar, the text hashed tells all four parts, whatever the text holds. */
  lemma PayloadTells(a: Item, b: Item, m: string, n: string, d: nat, e: nat)
    requires NoBar(a.mitreId) && NoBar(b.mitreId) && NoBar(m) && NoBar(n)
    requires Payload(a.mitreId, m, d, a.text) == Payload(b.mitreId, n, e, b.text)
    ensures a.mitreId == b.mitreId && m == n && d == e && a.text == b.text
  {
    hide Decimal;
    var dd, ee := Decimal(d), Decimal(e);
    assert Payload(a.mitreId, m, d, a.text) == a.mitreId + "|" + (m + "|" + (dd + "|" + a.text));
    assert Payload(b.mitreId, n, e, b.text) == b.mitreId + "|" + (n + "|" + (ee + "|" + b.text));
    FirstBar(a.mitreId, b.mitreId, m + "|" + (dd + "|" + a.text), n + "|" + (ee + "|" + b.text));
    FirstBar(m, n, dd + "|" + a.text, ee + "|" + b.text);
    FirstBar(dd, ee, a.text, b.text);
    DecimalRoundTrip(d);
    DecimalRoundTrip(e);
  }

  // ----- embedding, batch by batch -----

  function DocumentsOf(items: seq<Item>): seq<Document> { seq(|items|, k requires 0 <= k < |items| => DocumentOf(items[k])) }

  predicate RightSize(vectors: seq<Vector>, n: nat, dimensions: nat) {
    |vectors| == n && forall k :: 0 <= k < n ==> |vectors[k]| == dimensions
  }

  /** One call, with its checks. */
  function EmbedBatch(p: Provider, n: nat, items: seq<Item>): Result<seq<Vector>, string> {
    match p.embed(n, DocumentsOf(items))
    case Err(message) => Err(message)
    case Ok(vectors) => if RightSize(vectors, |items|, p.dimensions) then Ok(vectors) else Err("wrong size")
  }

  function BatchLen(items: seq<Item>): nat { if |items| < EMBED_BATCH_SIZE then |items| else EMBED_BATCH_SIZE }

  /** The batches from the n-th on. */
  function EmbedAll(p: Provider, n: nat, items: seq<Item>): Result<seq<Vector>, EmbedError>
    decreases |items|
  {
    if items == [] then Ok([])
    else
      match EmbedBatch(p, n, items[..BatchLen(items)])
      case Err(message) => Err(BatchFailed(items[0].mitreId, message))
      case Ok(first) =>
        match EmbedAll(p, n + 1, items[BatchLen(items)..])
        case Err(e) => Err(e)
        case Ok(rest) => Ok(first + rest)
  }

  lemma {:induction false} EmbedAllLength(p: Provider, n: nat, items: seq<Item>)
    ensures EmbedAll(p, n, items).Ok? ==> |EmbedAll(p, n, items).value| == |items|
    decreases |items|
  {
    if items != [] { EmbedAllLength(p, n + 1, items[BatchLen(items)..]); }
  }

  // ----- looking up and stitching -----

  function MissItems(p: Provider, items: seq<Item>, data: map<string, Vector>): seq<Item> {
    if items == [] then []
    else (if FingerprintFor(p, items[0]) in data then [] else [items[0]]) + MissItems(p, items[1..], data)
  }

  /** Cached vectors where there are some, the embedded ones in turn where there are none. */
  function Stitched(p: Provider, items: seq<Item>, data: map<string, Vector>, vectors: seq<Vector>): seq<Vector>
    requires |vectors| == |MissItems(p, items, data)|
  {
    if items == [] then []
    else if FingerprintFor(p, items[0]) in data then [data[FingerprintFor(p, items[0])]] + Stitched(p, items[1..], data, vectors)
    else [vectors[0]] + Stitched(p, items[1..], data, vectors[1..])
  }

  /** The cache after the staged puts. */
  function Stored(p: Provider, misses: seq<Item>, vectors: seq<Vector>, data: map<string, Vector>): map<string, Vector>
    requires |vectors| == |misses|
  {
    if misses == [] then data else Stored(p, misses[1..], vectors[1..], data[FingerprintFor(p, misses[0]) := vectors[0]])
  }

  function Embedded(p: Provider, items: seq<Item>, data: map<string, Vector>): Result<seq<Vector>, EmbedError> {
    var misses := MissItems(p, items, data);
    EmbedAllLength(p, 0, misses);
    match EmbedAll(p, 0, misses)
    case Err(e) => Err(e)
    case Ok(vectors) => Ok(Stitched(p, items, data, vectors))
  }

  function CacheAfter(p: Provider, items: seq<Item>, data: map<string, Vector>): map<string, Vector> {
    var misses := MissItems(p, items, data);
    EmbedAllLength(p, 0, misses);
    match EmbedAll(p, 0, misses)
    case Err(_) => data
    case Ok(vectors) => Stored(p, misses, vectors, data)
  }

  class FingerprintCache {
    var data: map<string, Vector>

    constructor (data: map<string, Vector>)
      ensures this.data == data
    {
      this.data := data;
    }

    method Get(fingerprint: string) returns (v: Option<Vector>)
      ensures v == if fingerprint in data then Some(data[fingerprint]) else None
    {
      return if fingerprint in data then Some(data[fingerprint]) else None;
    }

    method Put(fingerprint: string, vector: Vector)
      modifies this
      ensures data == old(data)[fingerprint := vector]
    {
      data := data[fingerprint := vector];
    }
  }

  function IndexedItems(items: seq<Item>, indices: seq<nat>): seq<Item>
    requires forall k :: 0 <= k < |indices| ==> indices[k] < |items|
  {
    seq(|indices|, k requires 0 <= k < |indices| => items[indices[k]])
  }

  function Fingerprints(p: Provider, items: seq<Item>): seq<string> {
    seq(|items|, k requires 0 <= k < |items| => FingerprintFor(p, items[k]))
  }

  function CachedOf(p: Provider, items: seq<Item>, data: map<string, Vector>): seq<Option<Vector>> {
    seq(|items|, k requires 0 <= k < |items| => if FingerprintFor(p, items[k]) in data then Some(data[FingerprintFor(p, items[k])]) else None)
  }

  /** The first pass: what is cached, and the indices of what is not. */
  method LookUp(p: Provider, items: seq<Item>, cache: FingerprintCache)
    returns (fingerprints: seq<string>, cached: seq<Option<Vector>>, missIndices: seq<nat>)
    ensures fingerprints == Fingerprints(p, items) && cached == CachedOf(p, items, cache.data)
    ensures missIndices == MissingFrom(cached, 0)
  {
    hide FingerprintFor, MissingFrom;
    fingerprints, cached, missIndices := [], [], [];
    NoneMissing();
    for idx := 0 to |items|
      invariant fingerprints == Fingerprints(p, items)[..idx] && cached == CachedOf(p, items, cache.data)[..idx]
      invariant missIndices == MissingFrom(cached, 0)
    {
      var fp := FingerprintFor(p, items[idx]);
      fingerprints := fingerprints + [fp];
      var hit := cache.Get(fp);
      MissingSnoc(cached, hit, 0);
      cached := cached + [hit];
      if hit.None? { missIndices := missIndices + [idx]; }
    }
  }

  lemma NoneMissing()
    ensures MissingFrom([], 0) == []
  {
  }

  /** The indices missed are those of the items missed. */
  lemma {:induction false} MissedItems(p: Provider, items: seq<Item>, data: map<string, Vector>, before: seq<Item>)
    ensures var indices := MissingFrom(CachedOf(p, items, data), |before|);
            (forall k :: 0 <= k < |indices| ==> indices[k] < |before + items|)
            && IndexedItems(before + items, indices) == MissItems(p, items, data)
    decreases |items|
  {
    hide FingerprintFor, CachedOf, IndexedItems;
    var cached := CachedOf(p, items, data);
    CachedHead(p, items, data);
    if items != [] {
      assert before + items == (before + [items[0]]) + items[1..];
      MissedItems(p, items[1..], data, before + [items[0]]);
      if cached[0].None? {
        IndexedCons(before + items, |before|, MissingFrom(cached[1..], |before| + 1));
      } else {
        assert MissingFrom(cached, |before|) == MissingFrom(cached[1..], |before| + 1);
        assert MissItems(p, items, data) == MissItems(p, items[1..], data);
      }
    } else {
      assert cached == [];
      NoneIndexed(before + items);
    }
  }

  lemma CachedHead(p: Provider, items: seq<Item>, data: map<string, Vector>)
    ensures |CachedOf(p, items, data)| == |items|
    ensures items != [] ==> CachedOf(p, items, data)[1..] == CachedOf(p, items[1..], data)
                            && (CachedOf(p, items, data)[0].None? <==> FingerprintFor(p, items[0]) !in data)
  {
  }

  lemma IndexedCons(items: seq<Item>, i: nat, rest: seq<nat>)
    requires i < |items| && forall k :: 0 <= k < |rest| ==> rest[k] < |items|
    ensures IndexedItems(items, [i] + rest) == [items[i]] + IndexedItems(items, rest)
  {
  }

  lemma NoneIndexed(items: seq<Item>)
    ensures IndexedItems(items, []) == []
  {
  }

  /** The indices of the misses. */
  function MissingFrom(cached: seq<Option<Vector>>, from: nat): (indices: seq<nat>)
    ensures forall k :: 0 <= k < |indices| ==> from <= indices[k]
  {
    if cached == [] then [] else (if cached[0].None? then [from] else []) + MissingFrom(cached[1..], from + 1)
  }

  lemma {:induction false} MissingSnoc(cached: seq<Option<Vector>>, hit: Option<Vector>, from: nat)
    ensures MissingFrom(cached + [hit], from) == MissingFrom(cached, from) + if hit.None? then [from + |cached|] else []
    decreases |cached|
  {
    if cached == [] {
      assert (cached + [hit])[1..] == [];
    } else {
      assert (cached + [hit])[1..] == cached[1..] + [hit];
      MissingSnoc(cached[1..], hit, from + 1);
    }
  }

  /** The batches; the first failure names the item its batch starts with. */
  method EmbedMisses(p: Provider, items: seq<Item>, missIndices: seq<nat>) returns (r: Result<seq<Vector>, EmbedError>)
    requires forall k :: 0 <= k < |missIndices| ==> missIndices[k] < |items|
    ensures r == EmbedAll(p, 0, IndexedItems(items, missIndices))
  {
    hide EmbedBatch;
    var misses := IndexedItems(items, missIndices);
    var vectors: seq<Vector> := [];
    var start, n := 0, 0;
    assert misses[0..] == misses;
    while start < |misses|
      invariant 0 <= start <= |misses|
      invariant match EmbedAll(p, 0, misses)
                case Err(e) => EmbedAll(p, n, misses[start..]) == Err(e)
                case Ok(all) => EmbedAll(p, n, misses[start..]).Ok? && vectors + EmbedAll(p, n, misses[start..]).value == all
      decreases |misses| - start
    {
      var rest := misses[start..];
      var stop := start + BatchLen(rest);
      var batch := misses[start..stop];
      assert rest[..BatchLen(rest)] == batch && rest[BatchLen(rest)..] == misses[stop..];
      var answer := EmbedBatch(p, n, batch);
      if answer.Err? {
        assert EmbedAll(p, n, rest) == Err(BatchFailed(rest[0].mitreId, answer.error));
        return Err(BatchFailed(items[missIndices[start]].mitreId, answer.error));
      }
      if EmbedAll(p, 0, misses).Ok? { AppendMore(vectors, answer.value, EmbedAll(p, n + 1, misses[stop..]).value); }
      vectors := vectors + answer.value;
      start, n := stop, n + 1;
    }
    assert misses[start..] == [] && vectors + [] == vectors;
    return Ok(vectors);
  }

  lemma AppendMore(a: seq<Vector>, b: seq<Vector>, c: seq<Vector>)
    ensures a + (b + c) == (a + b) + c
  {
  }

  datatype Run = Run(vectors: seq<Vector>, hits: int, misses: int)

  /** The staged puts, one by one. */
  ghost predicate StitchedUpTo(p: Provider, items: seq<Item>, data: map<string, Vector>, vectors: seq<Vector>,
                               idx: nat, next: nat, final: seq<Vector>, now: map<string, Vector>)
    requires |vectors| == |MissItems(p, items, data)| && idx <= |items|
  {
    next + |MissItems(p, items[idx..], data)| == |vectors|
    && final + Stitched(p, items[idx..], data, vectors[next..]) == Stitched(p, items, data, vectors)
    && Stored(p, MissItems(p, items[idx..], data), vectors[next..], now) == Stored(p, MissItems(p, items, data), vectors, data)
  }

  lemma StitchStep(p: Provider, items: seq<Item>, data: map<string, Vector>, vectors: seq<Vector>,
                   idx: nat, next: nat, final: seq<Vector>, now: map<string, Vector>)
    requires |vectors| == |MissItems(p, items, data)| && idx < |items| && StitchedUpTo(p, items, data, vectors, idx, next, final, now)
    ensures var fp := FingerprintFor(p, items[idx]);
            if fp in data then StitchedUpTo(p, items, data, vectors, idx + 1, next, final + [data[fp]], now)
            else next < |vectors| && StitchedUpTo(p, items, data, vectors, idx + 1, next + 1, final + [vectors[next]], now[fp := vectors[next]])
  {
    hide FingerprintFor;
    assert items[idx..][0] == items[idx] && items[idx..][1..] == items[idx + 1..];
    var fp := FingerprintFor(p, items[idx]);
    var rest := MissItems(p, items[idx + 1..], data);
    if fp in data {
      assert MissItems(p, items[idx..], data) == rest;
      AppendMore(final, [data[fp]], Stitched(p, items[idx + 1..], data, vectors[next..]));
    } else {
      assert MissItems(p, items[idx..], data) == [items[idx]] + rest;
      assert vectors[next..][0] == vectors[next] && vectors[next..][1..] == vectors[next + 1..];
      assert ([items[idx]] + rest)[1..] == rest;
      AppendMore(final, [vectors[next]], Stitched(p, items[idx + 1..], data, vectors[next + 1..]));
    }
  }

  lemma StitchStart(p: Provider, items: seq<Item>, data: map<string, Vector>, vectors: seq<Vector>)
    requires |vectors| == |MissItems(p, items, data)|
    ensures StitchedUpTo(p, items, data, vectors, 0, 0, [], data)
  {
    hide FingerprintFor;
    assert items[0..] == items && vectors[0..] == vectors;
    assert [] + Stitched(p, items, data, vectors) == Stitched(p, items, data, vectors);
  }

  lemma StitchEnd(p: Provider, items: seq<Item>, data: map<string, Vector>, vectors: seq<Vector>, next: nat,
          final: seq<Vector>, now: map<string, Vector>)
    requires |vectors| == |MissItems(p, items, data)| && StitchedUpTo(p, items, data, vectors, |items|, next, final, now)
    ensures final == Stitched(p, items, data, vectors) && now == Stored(p, MissItems(p, items, data), vectors, data)
  {
    hide FingerprintFor;
    assert items[|items|..] == [] && vectors[next..] == [];
    assert final + [] == final;
  }

  /** The next index missed is the one the stitch has reached. */
  lemma {:induction false} NextMiss(cached: seq<Option<Vector>>, from: nat, idx: nat)
    requires idx < |cached|
    ensures var indices := MissingFrom(cached, from); var n := |MissingFrom(cached[..idx], from)|;
            cached[idx].None? ==> n < |indices| && indices[n] == from + idx
    ensures |MissingFrom(cached[..idx + 1], from)| == |MissingFrom(cached[..idx], from)| + if cached[idx].None? then 1 else 0
    decreases |cached|
  {
    assert cached[..idx + 1] == cached[..idx] + [cached[idx]];
    MissingSnoc(cached[..idx], cached[idx], from);
    if idx > 0 {
      assert cached[..idx][1..] == cached[1..][..idx - 1];
      NextMiss(cached[1..], from + 1, idx - 1);
    } else {
      assert MissingFrom(cached[..0], from) == [];
    }
  }

  /** The stitch. It never misaligns. */
  method Stitch(p: Provider, items: seq<Item>, cache: FingerprintCache, fingerprints: seq<string>, cached: seq<Option<Vector>>,
                missIndices: seq<nat>, missVectors: seq<Vector>) returns (r: Result<seq<Vector>, EmbedError>)
    requires fingerprints == Fingerprints(p, items) && cached == CachedOf(p, items, cache.data)
    requires missIndices == MissingFrom(cached, 0) && |missVectors| == |missIndices| == |MissItems(p, items, cache.data)|
    modifies cache
    ensures r == Ok(Stitched(p, items, old(cache.data), missVectors))
    ensures cache.data == Stored(p, MissItems(p, items, old(cache.data)), missVectors, old(cache.data))
  {
    hide FingerprintFor, MissingFrom, MissItems, Stitched, Stored, StitchedUpTo;
    ghost var data := cache.data;
    var final: seq<Vector> := [];
    var next := 0;
    StitchStart(p, items, data, missVectors);
    NoneMissing();
    assert cached[..0] == [];
    for idx := 0 to |items|
      invariant next == |MissingFrom(cached[..idx], 0)|
      invariant StitchedUpTo(p, items, data, missVectors, idx, next, final, cache.data)
    {
      StitchStep(p, items, data, missVectors, idx, next, final, cache.data);
      NextMiss(cached, 0, idx);
      if cached[idx].Some? {
        final := final + [cached[idx].value];
      } else {
        if next >= |missIndices| || missIndices[next] != idx { return Err(Misaligned(idx)); }
        final := final + [missVectors[next]];
        cache.Put(fingerprints[idx], missVectors[next]);
        next := next + 1;
      }
    }
    StitchEnd(p, items, data, missVectors, next, final, cache.data);
    return Ok(final);
  }

  /** embed_with_cache. */
  method EmbedWithCache(p: Provider, items: seq<Item>, cache: FingerprintCache) returns (r: Result<Run, EmbedError>)
    modifies cache
    ensures match Embedded(p, items, old(cache.data))
            case Err(e) => r == Err(e) && e.BatchFailed?
            case Ok(vectors) => r == Ok(Run(vectors, |items| - |MissItems(p, items, old(cache.data))|, |MissItems(p, items, old(cache.data))|))
    ensures cache.data == CacheAfter(p, items, old(cache.data))
  {
    hide FingerprintFor, MissingFrom, Stitched, Stored, EmbedBatch;
    ghost var data := cache.data;
    var fingerprints, cached, missIndices := LookUp(p, items, cache);
    MissedItems(p, items, data, []);
    assert [] + items == items;
    MissesFit(p, items, data);
    EmbedAllLength(p, 0, MissItems(p, items, data));
    var missVectors := EmbedMisses(p, items, missIndices);
    if missVectors.Err? {
      OnlyBatches(p, 0, MissItems(p, items, data));
      return Err(missVectors.error);
    }
    var final := Stitch(p, items, cache, fingerprints, cached, missIndices, missVectors.value);
    return Ok(Run(final.value, |items| - |missIndices|, |missIndices|));
  }

  lemma {:induction false} OnlyBatches(p: Provider, n: nat, items: seq<Item>)
    ensures EmbedAll(p, n, items).Err? ==> EmbedAll(p, n, items).error.BatchFailed?
    decreases |items|
  {
    if items != [] { OnlyBatches(p, n + 1, items[BatchLen(items)..]); }
  }

  lemma {:induction false} MissesFit(p: Provider, items: seq<Item>, data: map<string, Vector>)
    ensures |MissItems(p, items, data)| <= |items|
    decreases |items|
  {
    if items != [] { MissesFit(p, items[1..], data); }
  }

  // ----- the cache is not seen -----

  /** The provider, when it answers, answers each document alike. */
  ghost predicate Answers(p: Provider, answer: Document -> Vector) {
    forall n, items :: EmbedBatch(p, n, items).Ok? ==> EmbedBatch(p, n, items).value == AnswersTo(answer, items)
  }

  function AnswersTo(answer: Document -> Vector, items: seq<Item>): seq<Vector> {
    seq(|items|, k requires 0 <= k < |items| => answer(DocumentOf(items[k])))
  }

  /** What is cached for the items is what the provider would answer. */
  ghost predicate Sound(p: Provider, answer: Document -> Vector, items: seq<Item>, data: map<string, Vector>) {
    forall k :: 0 <= k < |items| && FingerprintFor(p, items[k]) in data ==> data[FingerprintFor(p, items[k])] == answer(DocumentOf(items[k]))
  }

  lemma {:induction false} EmbedAllAnswers(p: Provider, answer: Document -> Vector, n: nat, items: seq<Item>)
    requires Answers(p, answer) && EmbedAll(p, n, items).Ok?
    ensures EmbedAll(p, n, items).value == AnswersTo(answer, items)
    decreases |items|
  {
    hide EmbedBatch;
    if items != [] {
      var l := BatchLen(items);
      EmbedAllAnswers(p, answer, n + 1, items[l..]);
      assert items == items[..l] + items[l..];
      assert AnswersTo(answer, items) == AnswersTo(answer, items[..l]) + AnswersTo(answer, items[l..]);
    }
  }

  lemma {:induction false} StitchedAnswers(p: Provider, answer: Document -> Vector, items: seq<Item>, data: map<string, Vector>)
    requires Sound(p, answer, items, data)
    ensures Stitched(p, items, data, AnswersTo(answer, MissItems(p, items, data))) == AnswersTo(answer, items)
    decreases |items|
  {
    hide FingerprintFor;
    if items != [] {
      StitchedAnswers(p, answer, items[1..], data);
      var rest := MissItems(p, items[1..], data);
      assert AnswersTo(answer, items) == [answer(DocumentOf(items[0]))] + AnswersTo(answer, items[1..]);
      if FingerprintFor(p, items[0]) in data {
        assert MissItems(p, items, data) == rest;
      } else {
        assert MissItems(p, items, data) == [items[0]] + rest;
        assert AnswersTo(answer, [items[0]] + rest)[1..] == AnswersTo(answer, rest);
      }
    }
  }

  /**
   * With a sound cache a run returns what embedding every item with no cache returns, whatever is
   * cached and however the misses fall into batches.
   */
  lemma CacheIsNotSeen(p: Provider, answer: Document -> Vector, items: seq<Item>, data: map<string, Vector>)
    requires Answers(p, answer) && Sound(p, answer, items, data) && Embedded(p, items, data).Ok?
    ensures Embedded(p, items, data).value == AnswersTo(answer, items)
    ensures EmbedAll(p, 0, items).Ok? ==> Embedded(p, items, data) == EmbedAll(p, 0, items)
  {
    hide EmbedAll, Stitched, MissItems, FingerprintFor;
    EmbedAllAnswers(p, answer, 0, MissItems(p, items, data));
    StitchedAnswers(p, answer, items, data);
    if EmbedAll(p, 0, items).Ok? { EmbedAllAnswers(p, answer, 0, items); }
  }

  // ----- the cache stays sound -----

  /** Items that share a fingerprint with a missed one are answered alike. */
  ghost predicate Agree(p: Provider, answer: Document -> Vector, items: seq<Item>, misses: seq<Item>) {
    forall i, j :: 0 <= i < |items| && 0 <= j < |misses| && FingerprintFor(p, items[i]) == FingerprintFor(p, misses[j]) ==>
      answer(DocumentOf(items[i])) == answer(DocumentOf(misses[j]))
  }

  /** A put takes effect unless a later one has its fingerprint. */
  lemma {:induction false} StoredAt(p: Provider,
          answer: Document -> Vector, misses: seq<Item>, data: map<string, Vector>, fp: string)
    ensures var after := Stored(p, misses, AnswersTo(answer, misses), data);
            (fp in after <==> fp in data || exists j :: 0 <= j < |misses| && FingerprintFor(p, misses[j]) == fp)
            && (fp in after ==>
                  (exists j :: 0 <= j < |misses| && FingerprintFor(p, misses[j]) == fp && after[fp] == answer(DocumentOf(misses[j])))
                  || (fp in data && after[fp] == data[fp] && forall j :: 0 <= j < |misses| ==> FingerprintFor(p, misses[j]) != fp))
    decreases |misses|
  {
    hide FingerprintFor, DocumentOf;
    if misses != [] {
      var vectors := AnswersTo(answer, misses);
      var next := data[FingerprintFor(p, misses[0]) := vectors[0]];
      assert vectors[1..] == AnswersTo(answer, misses[1..]);
      StoredAt(p, answer, misses[1..], next, fp);
      assert forall j :: 1 <= j < |misses| ==> misses[j] == misses[1..][j - 1];
      assert forall j :: 0 <= j < |misses| - 1 ==> misses[1..][j] == misses[j + 1];
    }
  }

  /**
   * After a run over some of the items a sound cache is sound again exactly when no item shares its
   * fingerprint with a missed one that is answered differently.
   */
  lemma SoundAgainIff(p: Provider, answer: Document -> Vector, all: seq<Item>, items: seq<Item>, data: map<string, Vector>)
    requires Answers(p, answer) && Sound(p, answer, all, data) && Embedded(p, items, data).Ok?
    requires forall item :: item in items ==> item in all
    ensures Sound(p, answer, all, CacheAfter(p, items, data)) <==> Agree(p, answer, all, MissItems(p, items, data))
  {
    hide EmbedAll, Stitched, MissItems, FingerprintFor, Stored, DocumentOf, Answers;
    var misses := MissItems(p, items, data);
    var after := CacheAfter(p, items, data);
    EmbedAllAnswers(p, answer, 0, misses);
    MissesAmong(p, items, data);
    assert after == Stored(p, misses, AnswersTo(answer, misses), data);
    forall fp: string ensures StoredRight(p, answer, misses, data, after, fp) { StoredAt(p, answer, misses, data, fp); }
    if Agree(p, answer, all, misses) {
      forall k | 0 <= k < |all| && FingerprintFor(p, all[k]) in after
        ensures after[FingerprintFor(p, all[k])] == answer(DocumentOf(all[k]))
      {
        assert StoredRight(p, answer, misses, data, after, FingerprintFor(p, all[k]));
      }
    }
    if Sound(p, answer, all, after) {
      forall i, j | 0 <= i < |all| && 0 <= j < |misses| && FingerprintFor(p, all[i]) == FingerprintFor(p, misses[j])
        ensures answer(DocumentOf(all[i])) == answer(DocumentOf(misses[j]))
      {
        assert misses[j] in misses;
        var k :| 0 <= k < |all| && all[k] == misses[j];
        assert StoredRight(p, answer, misses, data, after, FingerprintFor(p, all[i]));
      }
    }
  }

  ghost predicate StoredRight(p: Provider, answer: Document -> Vector, misses: seq<Item>, data: map<string, Vector>, after: map<string, Vector>, fp: string) {
    (fp in after <==> fp in data || exists j :: 0 <= j < |misses| && FingerprintFor(p, misses[j]) == fp)
    && (fp in after ==>
          (exists j :: 0 <= j < |misses| && FingerprintFor(p, misses[j]) == fp && after[fp] == answer(DocumentOf(misses[j])))
          || (fp in data && after[fp] == data[fp] && forall j :: 0 <= j < |misses| ==> FingerprintFor(p, misses[j]) != fp))
  }

  lemma {:induction false} MissesAmong(p: Provider, items: seq<Item>, data: map<string, Vector>)
    ensures forall item :: item in MissItems(p, items, data) ==> item in items
    decreases |items|
  {
    hide FingerprintFor;
    if items != [] { MissesAmong(p, items[1..], data); }
  }

  /** Where the digest tells payloads apart and the title adds nothing to the text, items agree. */
  lemma TitlesAsideAgree(p: Provider, answer: Document -> Vector, items: seq<Item>, misses: seq<Item>)
    requires forall s, t :: p.digest(s) == p.digest(t) ==> s == t
    requires NoBar(p.modelName) && (forall k :: 0 <= k < |items| ==> NoBar(items[k].mitreId)) && (forall k :: 0 <= k < |misses| ==> NoBar(misses[k].mitreId))
    requires forall d: Document, e: Document :: d.text == e.text ==> answer(d) == answer(e)
    ensures Agree(p, answer, items, misses)
  {
    forall i, j | 0 <= i < |items| && 0 <= j < |misses| && FingerprintFor(p, items[i]) == FingerprintFor(p, misses[j])
      ensures answer(DocumentOf(items[i])) == answer(DocumentOf(misses[j]))
    {
      PayloadTells(items[i], misses[j], p.modelName, p.modelName, p.dimensions, p.dimensions);
    }
  }

  /**
   * The title is not part of the fingerprint: where the provider answers two titles of one text
   * differently, embedding the one and then the other returns the first one's vector for both.
   */
  lemma TitleIsNotSeen(p: Provider, answer: Document -> Vector, a: Item, b: Item)
    requires Answers(p, answer) && a.mitreId == b.mitreId && a.text == b.text && answer(DocumentOf(a)) != answer(DocumentOf(b))
    requires Embedded(p, [a], map[]).Ok?
    ensures Embedded(p, [b], CacheAfter(p, [a], map[])) == Ok([answer(DocumentOf(a))])
    ensures AnswersTo(answer, [b]) != [answer(DocumentOf(a))]
  {
    hide EmbedBatch, Answers, FingerprintFor, DocumentOf;
    var fp := FingerprintFor(p, a);
    assert FingerprintFor(p, b) == fp by { SameFingerprint(p, a, b); }
    OneMiss(p, a, map[]);
    EmbedAllAnswers(p, answer, 0, [a]);
    var after := CacheAfter(p, [a], map[]);
    OneStored(p, a, answer(DocumentOf(a)));
    assert AnswersTo(answer, [a]) == [answer(DocumentOf(a))];
    assert after == map[fp := answer(DocumentOf(a))];
    OneHit(p, b, after);
  }

  lemma SameFingerprint(p: Provider, a: Item, b: Item)
    requires a.mitreId == b.mitreId && a.text == b.text
    ensures FingerprintFor(p, a) == FingerprintFor(p, b)
  {
  }

  lemma OneMiss(p: Provider, a: Item, data: map<string, Vector>)
    requires FingerprintFor(p, a) !in data
    ensures MissItems(p, [a], data) == [a]
  {
    hide FingerprintFor;
    assert [a][1..] == [];
  }

  lemma OneStored(p: Provider, a: Item, v: Vector)
    ensures Stored(p, [a], [v], map[]) == map[FingerprintFor(p, a) := v]
  {
    hide FingerprintFor;
    assert [a][1..] == [] && [v][1..] == [];
  }

  lemma OneHit(p: Provider, b: Item, data: map<string, Vector>)
    requires FingerprintFor(p, b) in data
    ensures Embedded(p, [b], data) == Ok([data[FingerprintFor(p, b)]])
  {
    hide FingerprintFor;
    assert [b][1..] == [];
    assert MissItems(p, [b], data) == [];
    assert EmbedAll(p, 0, []) == Ok([]);
    assert Stitched(p, [b][1..], data, []) == [];
    assert Embedded(p, [b], data) == Ok(Stitched(p, [b], data, []));
    assert Stitched(p, [b], data, []) == [data[FingerprintFor(p, b)]] + [];
    assert [data[FingerprintFor(p, b)]] + [] == [data[FingerprintFor(p, b)]];
  }
}
