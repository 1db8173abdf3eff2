/** The key-value cache the file cache talks to: an item store whose Set, Get and
    Delete can fail. Failures are decided by three fixed facts about the backend:
    the keys it cannot reach (a server that is down), the largest item it accepts,
    and the keys whose Delete fails on a server error even though they can be read
    (so a Delete can fail right after a Set of the same key succeeded). */
module Memcache {
  import opened Bytes
  import opened Results

  /** What the client reports on failure. */
  datatype BackendError = CacheMiss | ServerError

  /** A successful change to the store, as recorded in the write log. */
  datatype Write = Stored(key: Str) | Deleted(key: Str)

  class Backend {
    var items: map<Str, seq<byte>>
    const unreachable: set<Str>
    const maxItemSize: nat
    /** Keys whose Delete fails with a server error. */
    const undeletable: set<Str>
    /** Every successful change, in order. */
    ghost var log: seq<Write>

    constructor (items: map<Str, seq<byte>>, unreachable: set<Str>, maxItemSize: nat, undeletable: set<Str>)
      ensures this.items == items && this.unreachable == unreachable && this.maxItemSize == maxItemSize
      ensures this.undeletable == undeletable && log == []
    {
      this.items := items;
      this.unreachable := unreachable;
      this.maxItemSize := maxItemSize;
      this.undeletable := undeletable;
      log := [];
    }

    /** A Get of the key returns an item. */
    predicate Readable(key: Str)
      reads this
    {
      key !in unreachable && key in items
    }

    /** A Set of this item succeeds. */
    predicate Accepts(key: Str, value: seq<byte>)
    {
      key !in unreachable && |value| <= maxItemSize
    }

    /** Stores or overwrites an item; fails for an unreachable key or an item
        larger than the backend accepts, and then changes nothing. */
    method Set(key: Str, value: seq<byte>) returns (r: Outcome<BackendError>)
      modifies this
      ensures r.Pass? <==> Accepts(key, value)
      ensures r.Pass? ==> items == old(items)[key := value] && log == old(log) + [Stored(key)]
      ensures r.Fail? ==> items == old(items) && log == old(log)
    {
      if !Accepts(key, value) {
        return Fail(ServerError);
      }
      items := items[key := value];
      log := log + [Stored(key)];
      return Pass;
    }

    /** Fetches an item: a miss for an absent key, a server error for an unreachable one. */
    method Get(key: Str) returns (r: Result<seq<byte>, BackendError>)
      ensures r.Ok? <==> Readable(key)
      ensures r.Ok? ==> r.value == items[key]
      ensures key in unreachable ==> r == Err(ServerError)
      ensures key !in unreachable && key !in items ==> r == Err(CacheMiss)
    {
      if key in unreachable {
        return Err(ServerError);
      }
      if key !in items {
        return Err(CacheMiss);
      }
      return Ok(items[key]);
    }

    /** Removes an item; fails, changing nothing, when it is absent, unreachable or
        one whose Delete errors. */
    method Delete(key: Str) returns (r: Outcome<BackendError>)
      modifies this
      ensures r.Pass? <==> old(Readable(key)) && key !in undeletable
      ensures r.Pass? ==> items == old(items) - {key} && log == old(log) + [Deleted(key)]
      ensures r.Fail? ==> items == old(items) && log == old(log)
    {
      if key in unreachable {
        return Fail(ServerError);
      }
      if key !in items {
        return Fail(CacheMiss);
      }
      if key in undeletable {
        return Fail(ServerError);
      }
      items := items - {key};
      log := log + [Deleted(key)];
      return Pass;
    }
  }
}
