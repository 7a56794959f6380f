/** The Weaviate vector store as the indexing code sees it: whether the
    `WebsiteContent` collection exists, the objects stored in it, and every
    call made to it. The remote service is abstract: a `Service` value fixes,
    for one run, which calls throw and which objects of a batch insert are
    rejected, so each call's outcome is any the service may produce. */
module VectorStore {
  import opened Results

  /** The one collection the program uses. */
  const CollectionName := "WebsiteContent"

  /** A stored object: the chunk text and its position among the chunks. */
  datatype DataObject = DataObject(text: string, chunkIndex: int)

  /** How the remote service answers during one run. `rejected` holds the
      positions, within a batch insert, of the objects it reports errors for. */
  datatype Service = Service(
    connectFails: bool,
    existsFails: bool,
    deleteFails: bool,
    createFails: bool,
    insertFails: bool,
    rejected: set<nat>,
    fetchFails: bool,
    closeFails: bool)

  /** A call made to the store, in the order made. */
  datatype Call =
    | ConnectCall
    | ExistsCall
    | DeleteCall
    | CreateCall
    | InsertCall(batch: seq<DataObject>)
    | FetchCall
    | CloseCall

  /** The objects of `batch`, at positions `offset`, `offset + 1`, ..., that
      are not in `rejected`, in order. */
  function AcceptedFrom(batch: seq<DataObject>, rejected: set<nat>, offset: nat): (kept: seq<DataObject>)
    ensures |kept| <= |batch|
    decreases |batch|
  {
    if batch == [] then []
    else (if offset in rejected then [] else [batch[0]]) + AcceptedFrom(batch[1..], rejected, offset + 1)
  }

  /** The stored objects are objects of the batch. */
  lemma {:induction false} AcceptedFromBatch(batch: seq<DataObject>, rejected: set<nat>, offset: nat)
    ensures forall o :: o in AcceptedFrom(batch, rejected, offset) ==> o in batch
    decreases |batch|
  {
    if batch != [] {
      AcceptedFromBatch(batch[1..], rejected, offset + 1);
      assert batch == [batch[0]] + batch[1..];
    }
  }

  /** The objects of a batch insert that the service stores. */
  function Accepted(batch: seq<DataObject>, rejected: set<nat>): seq<DataObject> {
    AcceptedFrom(batch, rejected, 0)
  }

  /** With no rejections every object of the batch is stored, in order. */
  lemma {:induction false} AcceptedAll(batch: seq<DataObject>, offset: nat)
    ensures AcceptedFrom(batch, {}, offset) == batch
    decreases |batch|
  {
    if batch != [] {
      AcceptedAll(batch[1..], offset + 1);
    }
  }

  /** When every position is rejected nothing is stored. */
  lemma {:induction false} AcceptedNone(batch: seq<DataObject>, rejected: set<nat>, offset: nat)
    requires forall i :: offset <= i < offset + |batch| ==> i in rejected
    ensures AcceptedFrom(batch, rejected, offset) == []
    decreases |batch|
  {
    if batch != [] {
      AcceptedNone(batch[1..], rejected, offset + 1);
    }
  }

  class Store {
    var service: Service
    var collectionExists: bool
    var objects: seq<DataObject>
    var calls: seq<Call>

    /** A collection that does not exist holds no objects. */
    predicate Valid()
      reads this
    {
      !collectionExists ==> objects == []
    }

    constructor (service: Service, collectionExists: bool, objects: seq<DataObject>)
      requires !collectionExists ==> objects == []
      ensures Valid()
      ensures this.service == service && this.collectionExists == collectionExists
      ensures this.objects == objects && calls == []
    {
      this.service := service;
      this.collectionExists := collectionExists;
      this.objects := objects;
      calls := [];
    }

    /** `connectToWeaviateCloud`: false when it throws. */
    method Connect() returns (ok: bool)
      modifies this
      ensures ok == !service.connectFails
      ensures calls == old(calls) + [ConnectCall]
      ensures service == old(service) && collectionExists == old(collectionExists) && objects == old(objects)
    {
      calls := calls + [ConnectCall];
      ok := !service.connectFails;
    }

    /** `collections.exists`: the answer, or `None` when it throws. */
    method Exists() returns (answer: Option<bool>)
      modifies this
      ensures answer == if service.existsFails then None else Some(collectionExists)
      ensures calls == old(calls) + [ExistsCall]
      ensures service == old(service) && collectionExists == old(collectionExists) && objects == old(objects)
    {
      calls := calls + [ExistsCall];
      answer := if service.existsFails then None else Some(collectionExists);
    }

    /** `collections.delete`: the collection and its objects are gone unless
        the call throws. */
    method Delete() returns (ok: bool)
      requires Valid()
      modifies this
      ensures Valid()
      ensures ok == !service.deleteFails
      ensures calls == old(calls) + [DeleteCall] && service == old(service)
      ensures collectionExists == (old(collectionExists) && !ok)
      ensures objects == if ok then [] else old(objects)
    {
      calls := calls + [DeleteCall];
      ok := !service.deleteFails;
      if ok {
        collectionExists := false;
        objects := [];
      }
    }

    /** `collections.create`: an empty collection, unless the call throws or
        a collection of that name already exists. */
    method Create() returns (ok: bool)
      requires Valid()
      modifies this
      ensures Valid()
      ensures ok == (!service.createFails && !old(collectionExists))
      ensures calls == old(calls) + [CreateCall] && service == old(service)
      ensures collectionExists == (old(collectionExists) || ok)
      ensures objects == if ok then [] else old(objects)
    {
      calls := calls + [CreateCall];
      ok := !service.createFails && !collectionExists;
      if ok {
        collectionExists := true;
        objects := [];
      }
    }

    /** `data.insertMany`: `None` when it throws (also when the collection is
        gone); otherwise the positions of the objects it reports errors for,
        the others being stored after the existing objects. */
    method InsertMany(batch: seq<DataObject>) returns (errors: Option<set<nat>>)
      requires Valid()
      modifies this
      ensures Valid()
      ensures errors.None? <==> service.insertFails || !old(collectionExists)
      ensures errors.Some? ==> errors.value == set i | i in service.rejected && i < |batch|
      ensures calls == old(calls) + [InsertCall(batch)] && service == old(service)
      ensures collectionExists == old(collectionExists)
      ensures objects == if errors.Some? then old(objects) + Accepted(batch, service.rejected) else old(objects)
    {
      calls := calls + [InsertCall(batch)];
      if service.insertFails || !collectionExists {
        errors := None;
      } else {
        errors := Some(set i | i in service.rejected && i < |batch|);
        objects := objects + Accepted(batch, service.rejected);
      }
    }

    /** `query.fetchObjects({limit})`: `limit` of the stored objects, or all
        of them when there are fewer, or `None` when it throws. Which objects
        come back, and in what order, is the server's choice; this store
        returns them from the front. */
    method FetchObjects(limit: nat) returns (result: Option<seq<DataObject>>)
      modifies this
      ensures result.None? <==> service.fetchFails || !collectionExists
      ensures result.Some? ==>
        |result.value| == (if limit < |objects| then limit else |objects|) &&
        multiset(result.value) <= multiset(objects)
      ensures calls == old(calls) + [FetchCall]
      ensures service == old(service) && collectionExists == old(collectionExists) && objects == old(objects)
    {
      calls := calls + [FetchCall];
      if service.fetchFails || !collectionExists {
        result := None;
      } else {
        var k := if limit < |objects| then limit else |objects|;
        assert objects == objects[..k] + objects[k..];
        result := Some(objects[..k]);
      }
    }

    /** `client.close`: false when it throws. */
    method Close() returns (ok: bool)
      modifies this
      ensures ok == !service.closeFails
      ensures calls == old(calls) + [CloseCall]
      ensures service == old(service) && collectionExists == old(collectionExists) && objects == old(objects)
    {
      calls := calls + [CloseCall];
      ok := !service.closeFails;
    }
  }
}
