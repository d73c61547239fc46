/** The layers put together: the facade over the allocation service, and
    the allocation service over the in-memory store. */
module EndToEnd {
  import opened Models
  import InMemory
  import UseCase
  import Shortener

  /** `CutLink` reports `ErrDuplicate` (through its wrapping) exactly when
      the url pre-check did: the url was found, or the pre-check's own
      error was a duplicate. An alias collision never surfaces as one. */
  lemma {:induction false} CutLinkDuplicateMeansKnownUrl(url: string, found: bool, existsErr: Option<Error>,
                                                         replies: seq<Option<Error>>, rng: seq<seq<nat>>)
    requires UseCase.IsRandomness(rng) && |replies| == UseCase.MaxAttempts
    ensures var d := UseCase.Decide(found, existsErr, replies, UseCase.Candidates(rng));
      var cut := Shortener.CutLink(url, d.alias, d.err);
      (cut.Err? && Is(cut.error, Duplicate)) <==> ((found && existsErr.None?) || IsDuplicate(existsErr))
  {
    var c := UseCase.Candidates(rng);
    var d := UseCase.Decide(found, existsErr, replies, c);
    if d.err.Some? {
      Shortener.FacadeKeepsErrorIdentity(url, d.alias, d.err.value, Duplicate);
      if Is(d.err.value, Duplicate) {
        UseCase.DuplicateComesFromPrecheck(found, existsErr, replies, c);
      }
    }
  }

  /** With the in-memory store behind the service, a url it already holds
      is answered with `ErrDuplicate` and no `Create` call. Otherwise the
      first `Create` decides everything: its collision reply is a plain
      error, which the loop does not take for `ErrDuplicate`, so the call
      ends after one attempt either way, with the first candidate inserted
      or with the store's "url already exists" error. Later replies are
      never asked for. */
  lemma InMemoryNeverRetries(store: map<string, string>, url: string, replies: seq<Option<Error>>, rng: seq<seq<nat>>)
    requires UseCase.IsRandomness(rng) && |replies| == UseCase.MaxAttempts
    requires replies[0] == InMemory.CreateReply(store, UseCase.Candidates(rng)[0])
    ensures var c := UseCase.Candidates(rng);
      var d := UseCase.Decide(InMemory.UrlReply(store, url).0, InMemory.UrlReply(store, url).1, replies, c);
      d.attempts == (if url in store.Values then 0 else 1) &&
      (url in store.Values ==> d == UseCase.Allocation("", Some(Duplicate), 0)) &&
      (url !in store.Values && c[0] in store ==> d == UseCase.Allocation("", Some(InMemory.AliasTaken), 1)) &&
      (url !in store.Values && c[0] !in store ==> d == UseCase.Allocation(c[0], None, 1))
  {
    var c := UseCase.Candidates(rng);
    if url in store.Values {
      UseCase.KnownUrlIsDuplicate(replies, c);
    } else if c[0] in store {
      UseCase.CollisionsThenOtherError(replies, c, 0);
    } else {
      UseCase.CollisionsThenAccepted(replies, c, 0);
    }
  }

  /** Shorten, then resolve, over the in-memory store. `CutLink` reports a
      duplicate exactly when the store already holds `url`. When it
      succeeds, the alias it returns was absent before, is well formed,
      and is bound to `url` by the `Create`, and `GetFullLink` on that
      alias returns the same link after any later store calls. Any other
      failure means the first candidate was taken. */
  lemma {:induction false} ShortenThenResolve(store: map<string, string>, url: string, replies: seq<Option<Error>>,
                                              rng: seq<seq<nat>>, later: seq<InMemory.Call>)
    requires UseCase.IsRandomness(rng) && |replies| == UseCase.MaxAttempts
    requires replies[0] == InMemory.CreateReply(store, UseCase.Candidates(rng)[0])
    ensures var d := UseCase.Decide(InMemory.UrlReply(store, url).0, InMemory.UrlReply(store, url).1, replies,
                                    UseCase.Candidates(rng));
      var cut := Shortener.CutLink(url, d.alias, d.err);
      ((cut.Err? && Is(cut.error, Duplicate)) <==> url in store.Values) &&
      (cut.Ok? ==>
        cut.value.alias !in store && UseCase.IsAlias(cut.value.alias) &&
        var after := InMemory.Replay(InMemory.Stored(store, url, cut.value.alias), later);
        var answer := InMemory.Lookup(after, cut.value.alias);
        Shortener.GetFullLink(cut.value.alias, answer.0, answer.1) == Ok(cut.value)) &&
      (cut.Err? && url !in store.Values ==> UseCase.Candidates(rng)[0] in store)
  {
    var c := UseCase.Candidates(rng);
    var (found, existsErr) := InMemory.UrlReply(store, url);
    var d := UseCase.Decide(found, existsErr, replies, c);
    InMemoryNeverRetries(store, url, replies, rng);
    UseCase.AliasesAreWellFormed(found, existsErr, replies, rng);
    if d.err.None? {
      var inserted := InMemory.Stored(store, url, d.alias);
      InMemory.BindingIsPermanent(inserted, later, d.alias);
    } else {
      Shortener.FacadeKeepsErrorIdentity(url, d.alias, d.err.value, Duplicate);
    }
  }
}
