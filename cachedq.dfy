/**
 * The caching querier: a decorator that answers from the store when it can,
 * asks the wrapped querier otherwise and stores what that one answered,
 * errors included.
 */
module CachedQuerier {
  import opened Wrappers
  import opened Strings
  import opened Errors
  import opened LemmaRecords
  import opened QuerierInterface
  import opened QuerierStorage

  /** What the decorator did to the objects it wraps, in order. */
  datatype Event =
    | QuerierGetLemma(lemmaID: string)
    | QuerierSearch(query: string)
    | QuerierClose
    | StorageClose

  const ClosePrefix := "while closing next errors happened: "
  const QuerierClosePrefix := "querier close failed: "
  const StorageClosePrefix := "storage close failed: "

  /** The messages of a list of errors, in order. */
  function Messages(errs: seq<Error>): (r: seq<string>)
    ensures |r| == |errs| && forall i :: 0 <= i < |errs| ==> r[i] == Message(errs[i])
  {
    seq(|errs|, i requires 0 <= i < |errs| => Message(errs[i]))
  }

  class Cached {
    const querier: Querier
    const storage: Storage
    /** The calls the decorator has made on the wrapped querier and on the store's Close. */
    var log: seq<Event>

    /** NewCached. */
    constructor (querier: Querier, storage: Storage)
      ensures this.querier == querier && this.storage == storage && log == []
    {
      this.querier := querier;
      this.storage := storage;
      log := [];
    }

    /**
     * GetLemma: a stored answer is returned as stored; a store failure other
     * than a missing key is returned as is; otherwise the wrapped querier is
     * asked once and its answer is stored (a failing write is ignored) and
     * returned unchanged.
     */
    method GetLemma(lemmaID: string) returns (r: LemmaAnswer)
      requires storage.Valid()
      modifies this, storage
      ensures storage.Valid() && storage.now == old(storage.now) && storage.readFault == old(storage.readFault)
      ensures storage.writeFault == old(storage.writeFault) && storage.closeFault == old(storage.closeFault)
      ensures old(storage.GetLemma(lemmaID)).Success? ==>
        r == ReturnLemma(old(storage.GetLemma(lemmaID)).value)
        && log == old(log) && storage.table == old(storage.table)
      ensures old(storage.GetLemma(lemmaID)).Failure? && !Is(old(storage.GetLemma(lemmaID)).error, ErrKeyNotFound) ==>
        r == LemmaAnswer([], Some(old(storage.GetLemma(lemmaID)).error))
        && log == old(log) && storage.table == old(storage.table)
      ensures old(storage.GetLemma(lemmaID)).Failure? && Is(old(storage.GetLemma(lemmaID)).error, ErrKeyNotFound) ==>
        r == querier.getLemma(lemmaID)
        && log == old(log) + [QuerierGetLemma(lemmaID)]
        && storage.table == if storage.writeFault.Some? then old(storage.table) else
             old(storage.table)[MarshalKey(lemmaID, LemmaKey) :=
               Entry(StoredLemma(CachedLemma(r.lemmas, ErrorString(r.err), old(storage.now))), ExpiryFor(r.err, old(storage.now)))]
    {
      var cached := storage.GetLemma(lemmaID);
      if cached.Success? {
        return ReturnLemma(cached.value);
      }
      if !Is(cached.error, ErrKeyNotFound) {
        return LemmaAnswer([], Some(cached.error));
      }
      log := log + [QuerierGetLemma(lemmaID)];
      r := querier.getLemma(lemmaID);
      var dbErr := storage.PutLemma(lemmaID, r.lemmas, r.err);
    }

    /** Search: the same rule as GetLemma, for a query's answer. */
    method Search(query: string) returns (r: SearchAnswer)
      requires storage.Valid()
      modifies this, storage
      ensures storage.Valid() && storage.now == old(storage.now) && storage.readFault == old(storage.readFault)
      ensures storage.writeFault == old(storage.writeFault) && storage.closeFault == old(storage.closeFault)
      ensures old(storage.GetQuery(query)).Success? ==>
        r == ReturnQuery(old(storage.GetQuery(query)).value)
        && log == old(log) && storage.table == old(storage.table)
      ensures old(storage.GetQuery(query)).Failure? && !Is(old(storage.GetQuery(query)).error, ErrKeyNotFound) ==>
        r == SearchAnswer("", [], Some(old(storage.GetQuery(query)).error))
        && log == old(log) && storage.table == old(storage.table)
      ensures old(storage.GetQuery(query)).Failure? && Is(old(storage.GetQuery(query)).error, ErrKeyNotFound) ==>
        r == querier.search(query)
        && log == old(log) + [QuerierSearch(query)]
        && storage.table == if storage.writeFault.Some? then old(storage.table) else
             old(storage.table)[MarshalKey(query, QueryKey) :=
               Entry(StoredQuery(CachedQuery(r.lemmaID, r.suggestions, ErrorString(r.err), old(storage.now))),
                     ExpiryFor(r.err, old(storage.now)))]
    {
      var cached := storage.GetQuery(query);
      if cached.Success? {
        return ReturnQuery(cached.value);
      }
      if !Is(cached.error, ErrKeyNotFound) {
        return SearchAnswer("", [], Some(cached.error));
      }
      log := log + [QuerierSearch(query)];
      r := querier.search(query);
      var dbErr := storage.PutQuery(query, r.lemmaID, r.suggestions, r.err);
    }

    /**
     * Close: close the wrapped querier, then the store, whatever the first
     * answered; report nothing if both succeeded, and otherwise one error
     * listing what failed, in order, joined by " AND ".
     */
    method Close() returns (err: Option<Error>)
      modifies this
      ensures log == old(log) + [QuerierClose, StorageClose]
      ensures err.None? <==> querier.close.None? && storage.Close().None?
      ensures querier.close.Some? && storage.Close().None? ==>
        err == Some(Plain(ClosePrefix + QuerierClosePrefix + Message(querier.close.value)))
      ensures querier.close.None? && storage.Close().Some? ==>
        err == Some(Plain(ClosePrefix + StorageClosePrefix + Message(storage.Close().value)))
      ensures querier.close.Some? && storage.Close().Some? ==>
        err == Some(Plain(ClosePrefix + QuerierClosePrefix + Message(querier.close.value)
                          + " AND " + StorageClosePrefix + Message(storage.Close().value)))
    {
      var errs: seq<Error> := [];
      var querierErr := querier.close;
      log := log + [QuerierClose];
      if querierErr.Some? {
        errs := errs + [Wrapped(QuerierClosePrefix, querierErr.value)];
      }
      var storageErr := storage.Close();
      log := log + [StorageClose];
      if storageErr.Some? {
        errs := errs + [Wrapped(StorageClosePrefix, storageErr.value)];
      }
      assert storageErr == storage.Close();
      if |errs| != 0 {
        var joined := JoinMessages(errs);
        err := Some(Plain(ClosePrefix + joined));
        if querierErr.Some? && storageErr.Some? {
          var q, t := Message(querierErr.value), Message(storageErr.value);
          assert joined == (QuerierClosePrefix + q) + " AND " + (StorageClosePrefix + t);
          assert ClosePrefix + ((QuerierClosePrefix + q) + " AND " + (StorageClosePrefix + t))
              == ClosePrefix + QuerierClosePrefix + q + " AND " + StorageClosePrefix + t;
        } else if querierErr.Some? {
          var q := Message(querierErr.value);
          assert ClosePrefix + (QuerierClosePrefix + q) == ClosePrefix + QuerierClosePrefix + q;
        } else {
          var t := Message(storageErr.value);
          assert ClosePrefix + (StorageClosePrefix + t) == ClosePrefix + StorageClosePrefix + t;
        }
      } else {
        err := None;
      }
    }
  }

  /** The messages of one or two errors, in order, joined by " AND ". */
  method JoinMessages(errs: seq<Error>) returns (s: string)
    requires 1 <= |errs| <= 2
    ensures |errs| == 1 ==> s == Message(errs[0])
    ensures |errs| == 2 ==> s == Message(errs[0]) + " AND " + Message(errs[1])
  {
    var strErrs: seq<string> := [];
    var i := 0;
    while i < |errs|
      invariant 0 <= i <= |errs|
      invariant strErrs == Messages(errs[..i])
    {
      assert errs[..i + 1] == errs[..i] + [errs[i]];
      strErrs := strErrs + [Message(errs[i])];
      i := i + 1;
    }
    assert errs[..|errs|] == errs;
    s := Join(strErrs, " AND ");
    if |strErrs| == 2 {
      assert strErrs[1..] == [strErrs[1]];
      assert Join(strErrs[1..], " AND ") == strErrs[1];
      assert s == strErrs[0] + " AND " + strErrs[1];
    }
  }

  // ---------------------------------------------------------------------------
  // Asking twice

  /**
   * Two searches for one query in a row, with the store working: the second
   * is answered from the store with the first one's id, suggestions and error
   * message, and at most the first reaches the wrapped querier. The second's
   * error is a new error value carrying that message.
   */
  method SearchTwice(c: Cached, query: string) returns (first: SearchAnswer, second: SearchAnswer)
    requires c.storage.Valid() && c.storage.readFault.None? && c.storage.writeFault.None?
    modifies c, c.storage
    ensures second.lemmaID == first.lemmaID && second.suggestions == first.suggestions
    ensures ErrorString(second.err) == ErrorString(first.err)
    ensures second.err.Some? ==> second.err.value.Plain?
    ensures c.log == old(c.log) || c.log == old(c.log) + [QuerierSearch(query)]
  {
    first := c.Search(query);
    var middle := c.log;
    second := c.Search(query);
    assert c.log == middle;
  }

  /** The same for GetLemma: the second answer has the first one's lemmas and error message. */
  method GetLemmaTwice(c: Cached, lemmaID: string) returns (first: LemmaAnswer, second: LemmaAnswer)
    requires c.storage.Valid() && c.storage.readFault.None? && c.storage.writeFault.None?
    modifies c, c.storage
    ensures second.lemmas == first.lemmas
    ensures ErrorString(second.err) == ErrorString(first.err)
    ensures second.err.Some? ==> second.err.value.Plain?
    ensures c.log == old(c.log) || c.log == old(c.log) + [QuerierGetLemma(lemmaID)]
  {
    first := c.GetLemma(lemmaID);
    var middle := c.log;
    second := c.GetLemma(lemmaID);
    assert c.log == middle;
  }
}
