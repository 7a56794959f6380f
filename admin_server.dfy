/** The Express admin server, packages/admin/server.js: the `/api/scrape`,
    `/api/index` and `/api/status` handlers and its own `indexContent`, which
    reads the content file itself and throws its own message when it cannot.
    The browser is abstract (the page it renders for the URL, or nothing when
    navigation fails); writing the content file is not part of this model. */
module AdminServer {
  import opened Results
  import opened Scraper
  import opened VectorStore
  import W = Weaviate
  import opened Text

  /** The JSON bodies the handlers answer with. */
  datatype Body =
    | UrlRequired                                  // {error: 'URL is required'}
    | Scraped(contentLength: nat)                  // 'Content scraped successfully'
    | ScrapingFailed                               // {error: 'Scraping failed', message}
    | MissingVariables(missingVars: seq<string>)   // 'Missing required environment variables'
    | IndexedChunks(chunksCount: nat)              // 'Content indexed successfully'
    | IndexingFailed(cause: W.Failure)             // {error: 'Indexing failed', message}
    | ContentStatus(hasScrapedContent: bool, contentLength: nat, timestamp: Option<int>)
    | InternalError                                // an exception escaping the handler

  datatype Response = Response(status: int, body: Body)

  /** `scrapeWebsite` (lines 30-90): the cleaned text of the page's main
      content, or nothing when the page could not be loaded. */
  method ScrapeWebsite(page: Option<Page>) returns (content: Option<string>)
    ensures content == if page.None? then None else Some(Clean(MainContent(page.value)))
  {
    if page.None? {
      return None;
    }
    var mainContent := SelectMainContent(page.value);
    content := Some(Clean(mainContent));
  }

  /** `POST /api/scrape` (lines 230-254): without a URL it answers 400 and
      scrapes nothing. */
  method HandleScrape(url: Option<string>, page: Option<Page>) returns (res: Response)
    ensures url.None? || url.value == "" ==> res == Response(400, UrlRequired)
    ensures url.Some? && url.value != "" && page.None? ==> res == Response(500, ScrapingFailed)
    ensures url.Some? && url.value != "" && page.Some? ==>
      res == Response(200, Scraped(|Clean(MainContent(page.value))|))
  {
    if url.None? || url.value == "" {
      return Response(400, UrlRequired);
    }
    var content := ScrapeWebsite(page);
    if content.None? {
      return Response(500, ScrapingFailed);
    }
    res := Response(200, Scraped(|content.value|));
  }

  /** `indexContent` (lines 181-227): a file that cannot be read fails with
      "Please run scraping first to generate the content file." before any
      chunking or store call. */
  method IndexContent(store: Store, file: ContentFile) returns (r: Result<nat, W.Failure>)
    requires store.Valid()
    modifies store
    ensures !Readable(file) ==> r == Err(W.RunScrapingFirst) && unchanged(store)
    ensures Readable(file) ==> W.Indexed(store, file.content.value, r)
  {
    if !Readable(file) {
      return Err(W.RunScrapingFirst);
    }
    r := W.IndexChunks(store, file.content.value);
  }

  /** The calls a successful run of `/api/index` makes, in order. */
  function IndexingCalls(service: Service, existed: bool, content: string): seq<Call> {
    [ConnectCall] + (W.CreateCalls(service, existed) + (W.InsertCalls(content) + [CloseCall]))
  }

  /** Lines 288-296: index the content file and close the client; a failure
      of either answers 500 with its cause. `made` is the calls made. */
  method IndexAndClose(store: Store, file: ContentFile) returns (res: Response, ghost made: seq<Call>)
    requires store.Valid()
    modifies store
    ensures store.Valid() && store.service == old(store.service) && store.calls == old(store.calls) + made
    ensures res.status == 200 <==>
      Readable(file) && W.ContentChunks(file.content.value) != [] &&
      !store.service.insertFails && old(store.collectionExists) && !store.service.closeFails
    ensures res.status == 200 ==>
      res.body == IndexedChunks(|W.ContentChunks(file.content.value)|) &&
      made == W.InsertCalls(file.content.value) + [CloseCall]
    ensures res.status != 200 ==> res.status == 500 && res.body.IndexingFailed?
    ensures !Readable(file) ==> res == Response(500, IndexingFailed(W.RunScrapingFirst)) && unchanged(store)
  {
    ghost var before := store.calls;
    var indexed := IndexContent(store, file);
    made := if Readable(file) then W.InsertCalls(file.content.value) else [];
    if !Readable(file) {
      assert before + [] == before;
    }
    if indexed.Err? {
      res := Response(500, IndexingFailed(indexed.error));
    } else {
      var closed := store.Close();
      res := if closed then Response(200, IndexedChunks(indexed.value))
             else Response(500, IndexingFailed(W.StoreError(CloseCall)));
      AppendAssoc(before, made, [CloseCall]);
      made := made + [CloseCall];
    }
  }

  /** Lines 277-304 after the variable check: connect, recreate the
      collection, then index and close. */
  method ConnectAndIndex(store: Store, file: ContentFile) returns (res: Response, ghost made: seq<Call>)
    requires store.Valid()
    modifies store
    ensures store.Valid() && store.service == old(store.service)
    ensures store.calls == old(store.calls) + [ConnectCall] + made
    ensures res.status == 200 <==>
      !store.service.connectFails && W.CreateSucceeds(store.service, old(store.collectionExists)) &&
      Readable(file) && W.ContentChunks(file.content.value) != [] &&
      !store.service.insertFails && !store.service.closeFails
    ensures res.status == 200 ==>
      res.body == IndexedChunks(|W.ContentChunks(file.content.value)|) &&
      [ConnectCall] + made == IndexingCalls(store.service, old(store.collectionExists), file.content.value)
    ensures res.status != 200 ==> res.status == 500 && res.body.IndexingFailed?
    ensures (!store.service.connectFails && W.CreateSucceeds(store.service, old(store.collectionExists)) &&
             !Readable(file)) ==>
      res == Response(500, IndexingFailed(W.RunScrapingFirst)) && store.collectionExists && store.objects == []
  {
    ghost var before := store.calls;
    var connected := store.Connect();
    if !connected {
      res := Response(500, IndexingFailed(W.StoreError(ConnectCall)));
      made := [];
      assert store.calls == before + [ConnectCall] + made;
    } else {
      var created := W.CreateCollection(store);
      ghost var createCalls := W.CreateCalls(store.service, old(store.collectionExists));
      if created.Err? {
        res := Response(500, IndexingFailed(created.error));
        made := createCalls;
      } else {
        ghost var rest;
        res, rest := IndexAndClose(store, file);
        made := createCalls + rest;
        AppendAssoc(before + [ConnectCall], createCalls, rest);
      }
    }
  }

  /** Indexing over the store ends in success: connected, collection
      recreated, content read and chunked, batch insert accepted, connection
      closed. */
  predicate IndexingSucceeds(env: W.Env, service: Service, existed: bool, file: ContentFile) {
    W.MissingVars(env) == [] && !service.connectFails && W.CreateSucceeds(service, existed) &&
    Readable(file) && W.ContentChunks(file.content.value) != [] &&
    !service.insertFails && !service.closeFails
  }

  /** `POST /api/index` (lines 257-305): the variable check comes first and
      makes no store call; then connect, recreate the collection, and only
      then read and index the content file, and close. Any exception in those
      steps answers 500. `made` is the calls made. */
  method HandleIndex(env: W.Env, store: Store, file: ContentFile) returns (res: Response, ghost made: seq<Call>)
    requires store.Valid()
    modifies store
    ensures store.Valid() && store.calls == old(store.calls) + made
    ensures W.MissingVars(env) != [] ==>
      res == Response(400, MissingVariables(W.MissingVars(env))) && unchanged(store)
    ensures W.MissingVars(env) == [] ==> made != [] && made[0] == ConnectCall
    ensures res.status == 200 <==> IndexingSucceeds(env, store.service, old(store.collectionExists), file)
    ensures res.status == 200 ==>
      res.body == IndexedChunks(|W.ContentChunks(file.content.value)|) &&
      made == IndexingCalls(store.service, old(store.collectionExists), file.content.value)
    ensures res.status != 200 ==> res.status in {400, 500}
    ensures res.status == 500 ==> res.body.IndexingFailed?
    // A missing content file is found only after the collection was
    // recreated: it is left existing and empty.
    ensures (W.MissingVars(env) == [] && !store.service.connectFails &&
             W.CreateSucceeds(store.service, old(store.collectionExists)) && !Readable(file)) ==>
      res == Response(500, IndexingFailed(W.RunScrapingFirst)) && store.collectionExists && store.objects == []
  {
    var missingVars := W.MissingVars(env);
    if |missingVars| > 0 {
      res := Response(400, MissingVariables(missingVars));
      made := [];
    } else {
      ghost var rest;
      res, rest := ConnectAndIndex(store, file);
      made := [ConnectCall] + rest;
    }
  }

  /** `GET /api/status` (lines 308-327): a failed read is only logged and
      leaves the length 0, but the modification time is read outside the
      `try`, so a failing `statSync` escapes the handler. */
  function Status(file: ContentFile): (res: Response)
    ensures file.Absent? ==> res == Response(200, ContentStatus(false, 0, None))
    ensures file.Present? && file.mtime.None? ==> res.status == 500
    ensures file.Present? && file.mtime.Some? ==>
      res.status == 200 && res.body.ContentStatus? && res.body.hasScrapedContent && res.body.timestamp == file.mtime &&
      res.body.contentLength == (if file.content.Some? then |file.content.value| else 0)
  {
    match file
    case Absent => Response(200, ContentStatus(false, 0, None))
    case Present(content, mtime) =>
      var contentLength := if content.Some? then |content.value| else 0;
      if mtime.None? then Response(500, InternalError)
      else Response(200, ContentStatus(true, contentLength, mtime))
  }
}
