/** The in-memory link store `inmemory.repository`: one map from alias to
    url, guarded by a lock. Each method is modelled as one atomic step. */
module InMemory {
  import opened Models

  /** What `Create` returns for an alias already present: a plain
      `fmt.Errorf` message, not the sentinel `ErrDuplicate`. */
  const AliasTaken: Error := Opaque("url already exists")

  /** What `Get` returns for an absent alias: a plain `fmt.Errorf` message. */
  const AliasMissing: Error := Opaque("not found")

  /** The store after `Create(url, alias)`: an existing alias keeps its url,
      an absent one is bound to `url`. */
  function Stored(store: map<string, string>, url: string, alias: string): (s: map<string, string>)
    ensures s.Keys == store.Keys + {alias}
    ensures alias in store ==> s == store
    ensures alias !in store ==> s[alias] == url
    ensures forall a :: a in store ==> a in s && s[a] == store[a]
  {
    if alias in store then store else store[alias := url]
  }

  /** The reply of `Create(url, alias)` on `store`. */
  function CreateReply(store: map<string, string>, alias: string): (err: Option<Error>)
    ensures err.Some? <==> alias in store
    ensures err.Some? ==> !IsDuplicate(err)
  {
    if alias in store then
      OpaqueIsOnlyItself("url already exists", Duplicate);
      Some(AliasTaken)
    else
      None
  }

  /** The reply of `Get(alias)` on `store`: the bound url and a nil error,
      or `""` and an error when the alias is absent. */
  function Lookup(store: map<string, string>, alias: string): (r: (string, Option<Error>))
    ensures r.1.None? <==> alias in store
    ensures r.1.None? ==> r.0 == store[alias]
    ensures r.1.Some? ==> r.0 == "" && r.1 == Some(AliasMissing)
  {
    if alias in store then (store[alias], None) else ("", Some(AliasMissing))
  }

  /** The reply of `URLExists(url)` on `store`: whether some entry holds
      `url`, never an error. */
  function UrlReply(store: map<string, string>, url: string): (r: (bool, Option<Error>))
    ensures r.1.None? && (r.0 <==> exists a :: a in store && store[a] == url)
  {
    (url in store.Values, None)
  }

  /** One call of the store's mutating or reading operations. */
  datatype Call = CreateCall(url: string, alias: string) | GetCall(alias: string)

  /** The store after one call; `Get` leaves it as it is. */
  function Step(store: map<string, string>, call: Call): map<string, string>
  {
    match call
    case CreateCall(url, alias) => Stored(store, url, alias)
    case GetCall(_) => store
  }

  /** The store after running `calls` in order. */
  function Replay(store: map<string, string>, calls: seq<Call>): map<string, string>
    decreases |calls|
  {
    if calls == [] then store else Replay(Step(store, calls[0]), calls[1..])
  }

  /** No operation overwrites or deletes an entry: once an alias is bound to
      a url, it stays bound to that url whatever calls follow. */
  lemma {:induction false} BindingIsPermanent(store: map<string, string>, calls: seq<Call>, alias: string)
    requires alias in store
    ensures alias in Replay(store, calls) && Replay(store, calls)[alias] == store[alias]
    decreases |calls|
  {
    if calls != [] {
      BindingIsPermanent(Step(store, calls[0]), calls[1..], alias);
    }
  }

  /** Some call of `calls` is a `Create` of `alias`. */
  predicate CreatesAlias(calls: seq<Call>, alias: string)
  {
    exists i :: 0 <= i < |calls| && calls[i].CreateCall? && calls[i].alias == alias
  }

  /** The aliases a sequence of calls ends up holding: those held before and
      those some `Create` was given, and no other. */
  lemma {:induction false} ReplayKeys(store: map<string, string>, calls: seq<Call>, alias: string)
    ensures alias in Replay(store, calls) <==> alias in store || CreatesAlias(calls, alias)
    decreases |calls|
  {
    if calls != [] {
      var next := Step(store, calls[0]);
      ReplayKeys(next, calls[1..], alias);
      if CreatesAlias(calls[1..], alias) {
        var j :| 0 <= j < |calls[1..]| && calls[1..][j].CreateCall? && calls[1..][j].alias == alias;
        assert calls[j + 1] == calls[1..][j];
      }
      if CreatesAlias(calls, alias) {
        var i :| 0 <= i < |calls| && calls[i].CreateCall? && calls[i].alias == alias;
        if i > 0 {
          assert calls[1..][i - 1] == calls[i];
        }
      }
    }
  }

  class Repository {
    /** The map `store`: alias to url. */
    var store: map<string, string>

    /** `New(storeSize)`: an empty store. `storeSize` is only a capacity
        hint for the map and bounds nothing. */
    constructor (storeSize: int)
      ensures store == map[]
    {
      store := map[];
    }

    /** `Create(url, alias)`: reject an alias already present, leaving its
        url in place; otherwise bind it to `url`. */
    method Create(url: string, alias: string) returns (err: Option<Error>)
      modifies this
      ensures err.Some? <==> alias in old(store)
      ensures err.Some? ==> err == Some(AliasTaken) && store == old(store)
      ensures err.None? ==> store == old(store)[alias := url]
      ensures store == Stored(old(store), url, alias) && err == CreateReply(old(store), alias)
    {
      if alias in store {
        return Some(AliasTaken);
      }
      store := store[alias := url];
      return None;
    }

    /** `Get(alias)`: the url bound to `alias`, or `""` and an error when
        there is none. The store is not changed. */
    method Get(alias: string) returns (url: string, err: Option<Error>)
      ensures err.None? <==> alias in store
      ensures err.None? ==> url == store[alias]
      ensures err.Some? ==> url == "" && err == Some(AliasMissing)
      ensures (url, err) == Lookup(store, alias)
    {
      if alias !in store {
        return "", Some(AliasMissing);
      }
      return store[alias], None;
    }

    /** `URLExists(url)`, which repository.go does not define although its
        tests call it: whether some stored entry has the value `url`. */
    method UrlExists(url: string) returns (found: bool, err: Option<Error>)
      ensures found <==> exists a :: a in store && store[a] == url
      ensures err.None?
      ensures UrlReply(store, url) == (found, err)
    {
      found := url in store.Values;
      err := None;
    }
  }
}
