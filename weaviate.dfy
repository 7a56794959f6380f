/** Index preparation, packages/admin/src/lib/weaviate.ts: the required
    environment variables, recreating the collection, and turning the scraped
    content into stored chunk objects. The Express server and the indexing
    script repeat `createCollection` and the chunk-and-insert steps verbatim;
    they use the members here. */
module Weaviate {
  import opened Results
  import opened Chunker
  import opened Scraper
  import opened VectorStore

  // ----- validateEnvironmentVariables (lines 106-119) -----

  /** The process environment: the variables that are set, with their values. */
  type Env = map<string, string>

  const RequiredVars: seq<string> := ["WEAVIATE_HOST", "WEAVIATE_API_KEY", "GOOGLE_API_KEY"]

  /** `process.env[name]` is truthy: set, and not the empty string. */
  predicate IsSet(env: Env, name: string) {
    name in env && env[name] != ""
  }

  /** `a` is `b` with some elements left out. */
  predicate IsSubsequence(a: seq<string>, b: seq<string>)
    decreases |b|
  {
    a == [] ||
    (b != [] && ((a[0] == b[0] && IsSubsequence(a[1..], b[1..])) || IsSubsequence(a, b[1..])))
  }

  /** `names.filter((v) => !process.env[v])`. */
  function MissingFrom(names: seq<string>, env: Env): (missing: seq<string>)
    ensures forall v :: v in missing <==> v in names && !IsSet(env, v)
    ensures IsSubsequence(missing, names)
    decreases |names|
  {
    if names == [] then []
    else
      var rest := MissingFrom(names[1..], env);
      assert forall v :: v in names <==> v == names[0] || v in names[1..] by {
        assert names == [names[0]] + names[1..];
      }
      if IsSet(env, names[0]) then
        rest
      else
        assert ([names[0]] + rest)[1..] == rest;
        [names[0]] + rest
  }

  /** The required variables that are unset or empty, in the fixed order. */
  function MissingVars(env: Env): seq<string> {
    MissingFrom(RequiredVars, env)
  }

  datatype Validation = Validation(valid: bool, missing: seq<string>)

  function ValidateEnvironmentVariables(env: Env): (v: Validation)
    ensures forall name :: name in v.missing <==> name in RequiredVars && !IsSet(env, name)
    ensures IsSubsequence(v.missing, RequiredVars)
    ensures v.valid <==> forall name :: name in RequiredVars ==> IsSet(env, name)
    ensures v.valid <==> v.missing == []
  {
    var missing := MissingVars(env);
    assert missing != [] ==> missing[0] in missing;
    Validation(|missing| == 0, missing)
  }

  // ----- createCollection (lines 19-63) -----

  /** Why indexing failed: the error thrown, by its source. */
  datatype Failure =
    | ContentError(error: ReadError)  // thrown by `readScrapedContent`
    | RunScrapingFirst                // "Please run scraping first to generate the content file."
    | NoChunks                        // "No chunks created. The content might be too short or empty."
    | StoreError(call: Call)          // thrown by that store call and passed on

  /** `createCollection` succeeds: `create` does not throw, and a collection
      that already existed was reported by `exists` and then deleted. */
  predicate CreateSucceeds(service: Service, existed: bool) {
    !service.createFails && (!existed || (!service.existsFails && !service.deleteFails))
  }

  /** The calls `createCollection` makes: `exists`, `delete` only when
      `exists` answered true, then `create`. */
  function CreateCalls(service: Service, existed: bool): seq<Call> {
    [ExistsCall] + (if !service.existsFails && existed then [DeleteCall] else []) + [CreateCall]
  }

  /** `createCollection`: `delete` is called only when `exists` answers true; a
      failure of either is swallowed and `create` is always attempted; a
      failure of `create` is passed on. */
  method CreateCollection(store: Store) returns (r: Result<(), Failure>)
    requires store.Valid()
    modifies store
    ensures store.Valid() && store.service == old(store.service)
    ensures store.calls == old(store.calls) + CreateCalls(store.service, old(store.collectionExists))
    ensures r.Ok? <==> CreateSucceeds(store.service, old(store.collectionExists))
    ensures r.Err? ==> r.error == StoreError(CreateCall)
    ensures r.Ok? ==> store.collectionExists && store.objects == []
    ensures r.Err? ==>
      store.collectionExists == (old(store.collectionExists) && (store.service.existsFails || store.service.deleteFails))
    ensures r.Err? && store.collectionExists ==> store.objects == old(store.objects)
  {
    var answer := store.Exists();
    if answer == Some(true) {
      var deleted := store.Delete();
    }
    var created := store.Create();
    if created {
      r := Ok(());
    } else {
      r := Err(StoreError(CreateCall));
    }
  }

  // ----- indexContent (lines 65-104) -----

  /** The data objects of lines 81-86, from position `start` on. */
  function ObjectsFrom(chunks: seq<string>, start: nat): (objects: seq<DataObject>)
    ensures |objects| == |chunks|
    ensures forall i :: 0 <= i < |chunks| ==> objects[i] == DataObject(chunks[i], start + i)
    decreases |chunks|
  {
    if chunks == [] then []
    else [DataObject(chunks[0], start)] + ObjectsFrom(chunks[1..], start + 1)
  }

  /** `chunks.map((chunk, index) => ({text: chunk, chunkIndex: index}))`: one
      object per chunk, in chunk order. */
  function ToDataObjects(chunks: seq<string>): (objects: seq<DataObject>)
    ensures |objects| == |chunks|
    ensures forall i :: 0 <= i < |chunks| ==> objects[i].text == chunks[i] && objects[i].chunkIndex == i
  {
    ObjectsFrom(chunks, 0)
  }

  /** Every object's `chunkIndex` locates its text among the chunks. */
  lemma ChunkIndexLocates(chunks: seq<string>)
    ensures forall o :: o in ToDataObjects(chunks) ==>
      0 <= o.chunkIndex < |chunks| && chunks[o.chunkIndex] == o.text
  {
    var objects := ToDataObjects(chunks);
    forall o | o in objects ensures 0 <= o.chunkIndex < |chunks| && chunks[o.chunkIndex] == o.text {
      var i :| 0 <= i < |objects| && objects[i] == o;
    }
  }

  /** Every object a batch insert stores names, by its `chunkIndex`, the chunk
      whose text it holds. */
  lemma StoredObjectsLocate(chunks: seq<string>, rejected: set<nat>)
    ensures forall o :: o in Accepted(ToDataObjects(chunks), rejected) ==>
      0 <= o.chunkIndex < |chunks| && chunks[o.chunkIndex] == o.text
  {
    ChunkIndexLocates(chunks);
    AcceptedFromBatch(ToDataObjects(chunks), rejected, 0);
  }

  /** The chunks indexing stores for `content`. */
  function ContentChunks(content: string): seq<string> {
    Chunks(content, DefaultMaxChunkSize)
  }

  /** The store calls indexing `content` makes: one batch insert of the chunk
      objects, or none when there are no chunks. */
  function InsertCalls(content: string): seq<Call> {
    var chunks := ContentChunks(content);
    if chunks == [] then [] else [InsertCall(ToDataObjects(chunks))]
  }

  /** What indexing `content` does (weaviate.ts:71-103, server.js:194-226):
      with no chunks it fails with `NoChunks` and makes no store call;
      otherwise it makes exactly one batch insert of the chunk objects, passes
      on a failure of that call, and else returns the chunk count even when the
      service rejected some objects, which are then missing from the store. */
  twostate predicate Indexed(store: Store, content: string, new r: Result<nat, Failure>)
    reads store
  {
    var chunks := ContentChunks(content);
    var batch := ToDataObjects(chunks);
    store.Valid() && store.service == old(store.service) &&
    store.collectionExists == old(store.collectionExists) &&
    store.calls == old(store.calls) + InsertCalls(content) &&
    (chunks == [] ==> r == Err(NoChunks) && store.objects == old(store.objects)) &&
    (chunks != [] ==>
      (r.Ok? <==> !store.service.insertFails && old(store.collectionExists)) &&
      (r.Ok? ==> r.value == |chunks| && store.objects == old(store.objects) + Accepted(batch, store.service.rejected)) &&
      (r.Err? ==> r.error == StoreError(InsertCall(batch)) && store.objects == old(store.objects)))
  }

  /** Lines 71-103: chunk, refuse an empty chunk list, build the objects and
      insert them in one batch; per-object errors are only logged. */
  method IndexChunks(store: Store, content: string) returns (r: Result<nat, Failure>)
    requires store.Valid()
    modifies store
    ensures Indexed(store, content, r)
    ensures r.Ok? ==> r.value > 0
  {
    var chunks := ChunkText(content, DefaultMaxChunkSize);
    if |chunks| == 0 {
      return Err(NoChunks);
    }
    var dataObjects := ToDataObjects(chunks);
    var errors := store.InsertMany(dataObjects);
    if errors.None? {
      return Err(StoreError(InsertCall(dataObjects)));
    }
    r := Ok(|chunks|);
  }

  /** `indexContent`: the content file is read first; an error reading it is
      passed on before any chunking or store call. */
  method IndexContent(store: Store, file: ContentFile) returns (r: Result<nat, Failure>)
    requires store.Valid()
    modifies store
    ensures ReadScrapedContent(file).Err? ==>
      r == Err(ContentError(ReadScrapedContent(file).error)) && unchanged(store)
    ensures ReadScrapedContent(file).Ok? ==> Indexed(store, ReadScrapedContent(file).value, r)
  {
    var content := ReadScrapedContent(file);
    if content.Err? {
      return Err(ContentError(content.error));
    }
    r := IndexChunks(store, content.value);
  }
}
