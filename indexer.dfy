/** The command-line indexing script, scripts/indexer.js. It repeats the
    index-preparation steps of the admin library but handles failures its own
    way: an unreadable content file or an empty chunk list only logs and
    returns, a failing sample fetch is swallowed, and any other error ends the
    process with exit code 1. */
module Indexer {
  import opened Results
  import opened Text
  import opened Scraper
  import opened VectorStore
  import W = Weaviate

  /** The store calls `indexContent` makes for `file`: none when the file
      cannot be read, else those of chunking and inserting its text. */
  function IndexCalls(file: ContentFile): seq<Call> {
    if Readable(file) then W.InsertCalls(file.content.value) else []
  }

  /** The objects `indexContent` stores for `file` when its insert succeeds. */
  function IndexedObjects(file: ContentFile, rejected: set<nat>): seq<DataObject> {
    if Readable(file) && W.ContentChunks(file.content.value) != [] then
      Accepted(W.ToDataObjects(W.ContentChunks(file.content.value)), rejected)
    else []
  }

  /** `indexContent` (lines 122-166): only a failing batch insert is an error;
      a file that cannot be read and a text without chunks are logged and
      end the step normally. `made` is the calls made. */
  method IndexContent(store: Store, file: ContentFile) returns (r: Result<(), W.Failure>, ghost made: seq<Call>)
    requires store.Valid()
    modifies store
    ensures store.Valid() && store.service == old(store.service)
    ensures store.collectionExists == old(store.collectionExists)
    ensures store.calls == old(store.calls) + made && made == IndexCalls(file)
    ensures !Readable(file) ==> r.Ok? && unchanged(store)
    ensures r.Err? <==>
      Readable(file) && W.ContentChunks(file.content.value) != [] &&
      (store.service.insertFails || !old(store.collectionExists))
    ensures r.Err? ==> r.error.StoreError? && r.error.call.InsertCall?
    ensures store.objects ==
      if r.Ok? then old(store.objects) + IndexedObjects(file, store.service.rejected) else old(store.objects)
  {
    if !Readable(file) {
      r := Ok(());
      made := [];
      assert store.calls == old(store.calls) + made;
    } else {
      var content := file.content.value;
      var indexed := W.IndexChunks(store, content);
      made := W.InsertCalls(content);
      if W.ContentChunks(content) == [] {
        assert store.objects == old(store.objects) + [];
      }
      r := if indexed.Err? && indexed.error != W.NoChunks then Err(indexed.error) else Ok(());
    }
  }

  /** `verifyData` (lines 168-188): fetch at most five objects to show; an
      error is logged and swallowed. `None` is the logged error. */
  method VerifyData(store: Store) returns (sample: Option<seq<DataObject>>)
    modifies store
    ensures store.calls == old(store.calls) + [FetchCall]
    ensures store.service == old(store.service) && store.collectionExists == old(store.collectionExists)
    ensures store.objects == old(store.objects)
    ensures sample.None? <==> store.service.fetchFails || !store.collectionExists
    ensures sample.Some? ==> |sample.value| <= 5 && multiset(sample.value) <= multiset(store.objects)
    ensures sample.Some? ==> |sample.value| == if |store.objects| < 5 then |store.objects| else 5
  {
    sample := store.FetchObjects(5);
  }

  /** The calls a run makes once the collection is recreated, when it gets
      to the end: indexing, the sample fetch, closing. */
  function FinishCalls(file: ContentFile): seq<Call> {
    IndexCalls(file) + [FetchCall, CloseCall]
  }

  /** The calls of a run that reaches the end of `main`, in order. */
  function RunCalls(service: Service, existed: bool, file: ContentFile): seq<Call> {
    [ConnectCall] + (W.CreateCalls(service, existed) + FinishCalls(file))
  }

  /** Lines 205-210: show a sample, then close; only a failing close makes
      the exit code 1. */
  method VerifyAndClose(store: Store) returns (exitCode: int)
    modifies store
    ensures store.calls == old(store.calls) + [FetchCall, CloseCall]
    ensures store.service == old(store.service) && store.collectionExists == old(store.collectionExists)
    ensures store.objects == old(store.objects)
    ensures exitCode == if store.service.closeFails then 1 else 0
  {
    var sample := VerifyData(store);
    var closed := store.Close();
    exitCode := if closed then 0 else 1;
  }

  /** Lines 202-210, once the collection is recreated: index, show a sample,
      report completion and close. A failing batch insert or close ends the
      run with exit code 1; `made` is the calls made. */
  method FinishRun(store: Store, file: ContentFile) returns (exitCode: int, completed: bool, ghost made: seq<Call>)
    requires store.Valid() && store.collectionExists && store.objects == []
    modifies store
    ensures store.Valid() && store.service == old(store.service)
    ensures store.calls == old(store.calls) + made
    ensures completed <==>
      !(Readable(file) && W.ContentChunks(file.content.value) != [] && store.service.insertFails)
    ensures exitCode == 0 <==> completed && !store.service.closeFails
    ensures exitCode != 0 ==> exitCode == 1
    ensures completed ==>
      made == FinishCalls(file) &&
      store.collectionExists && store.objects == IndexedObjects(file, store.service.rejected)
  {
    ghost var before := store.calls;
    var indexed;
    indexed, made := IndexContent(store, file);
    completed := false;
    exitCode := 1;
    if indexed.Ok? {
      completed := true;
      exitCode := VerifyAndClose(store);
      AppendAssoc(before, made, [FetchCall, CloseCall]);
      made := made + [FetchCall, CloseCall];
    }
  }

  /** A run gets past indexing: the variables are set, connecting and
      recreating the collection succeed, and the batch insert, if made, does
      not throw. */
  predicate Completes(env: W.Env, service: Service, existed: bool, file: ContentFile) {
    W.MissingVars(env) == [] && !service.connectFails && W.CreateSucceeds(service, existed) &&
    !(Readable(file) && W.ContentChunks(file.content.value) != [] && service.insertFails)
  }

  /** `main` (lines 190-215): validate, connect, recreate the collection,
      index, show a sample, report completion and close. `completed` is the
      "Indexing completed successfully!" line; `made` is the calls made. */
  method RunIndexer(env: W.Env, store: Store, file: ContentFile)
    returns (exitCode: int, completed: bool, ghost made: seq<Call>)
    requires store.Valid()
    modifies store
    ensures store.Valid() && store.service == old(store.service)
    ensures store.calls == old(store.calls) + made
    ensures W.MissingVars(env) != [] ==> exitCode == 1 && !completed && unchanged(store)
    ensures W.MissingVars(env) == [] ==> made != [] && made[0] == ConnectCall
    ensures completed <==> Completes(env, store.service, old(store.collectionExists), file)
    ensures exitCode == 0 <==> completed && !store.service.closeFails
    ensures exitCode != 0 ==> exitCode == 1
    // A completed run made exactly these calls and left the recreated
    // collection holding exactly the objects the service accepted.
    ensures completed ==>
      made == RunCalls(store.service, old(store.collectionExists), file) &&
      store.collectionExists && store.objects == IndexedObjects(file, store.service.rejected)
  {
    var missingVars := W.MissingVars(env);
    if |missingVars| > 0 {
      exitCode, completed, made := 1, false, [];
    } else {
      ghost var before := store.calls;
      var connected := store.Connect();
      completed := false;
      exitCode := 1;
      if !connected {
        made := [ConnectCall];
      } else {
        ghost var existed := old(store.collectionExists);
        var created := W.CreateCollection(store);
        ghost var createCalls := W.CreateCalls(store.service, existed);
        if created.Err? {
          made := [ConnectCall] + createCalls;
          AppendAssoc(before, [ConnectCall], createCalls);
        } else {
          ghost var rest;
          exitCode, completed, rest := FinishRun(store, file);
          made := [ConnectCall] + (createCalls + rest);
          AppendAssoc(before + [ConnectCall], createCalls, rest);
          AppendAssoc(before, [ConnectCall], createCalls + rest);
        }
      }
    }
  }
}
