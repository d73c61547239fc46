# ozon-task link shortener: the alias-allocation path in Dafny

The shortener turns a long url into a short alias and back. This project
models the part of it that makes decisions:

- `utils.Encode(size, charset)` draws a random string (module `Codec`).
- The in-memory store `inmemory.repository` is one map from alias to url
  (module `InMemory`, class `Repository`).
- The allocation service `usecase.service` does two jobs (module
  `UseCase`, class `Service`):
  - `GetAlias` checks whether the url is already stored, then offers random
    10-character aliases to the store's `Create`. It tries at most 10
    times, drawing a new alias after each collision.
  - `GetURL` resolves an alias.
- The facade `link.Shortener` wraps the service (module `Shortener`).
- Module `EndToEnd` states what the layers do together.
- Module `Models` holds Go's error values and `errors.Is`.

How the parts that are not plain code are modelled:

- **Randomness.** It is an oracle. Each call of `Encode` is given the
  positions `rnd.Intn(len(charset))` would return, and the only thing
  assumed about a draw is that it lies in `[0, len(charset))`. One
  `GetAlias` call consumes at most 11 such draw sequences.
- **The store behind `RepositoryInterface`.** It is a scripted store
  (`UseCase.ScriptedRepository`) that logs every call, like the mock of
  the service's tests:
  - `URLExists` and `Get` answer as given functions of their argument,
    with a Go pair `(value, error)` whose halves may both be set;
  - the `k`-th `Create` call gets the `k`-th reply of a list, and nil
    once the list has run out.
- **The loop's meaning.** `GetAlias` is proved against the function
  `UseCase.Decide`, which gives its outcome from the pre-check's answer,
  the `Create` replies and the candidates. The properties of `GetAlias`
  are lemmas about `Decide` and `UseCase.Allocate`.
- **The in-memory store.** Its methods are proved against the functions
  `Stored`, `CreateReply`, `Lookup` and `UrlReply`. The `EndToEnd` lemmas
  feed `UrlReply` and `CreateReply` as the pre-check answer and the
  `Create` replies to `UseCase.Decide`, the function `GetAlias` is proved
  against, rather than running the `Service` class over the in-memory
  store.

Behaviours of the code that the model keeps as written:

- When all 10 `Create` attempts collide, `GetAlias` returns a nil error
  (`usecase.go:45-58`); there is no exhaustion error. The alias it returns
  is the eleventh candidate, drawn after the last collision, whose
  `Create` was never attempted. Draws may repeat, so that string may be
  one that already collided, i.e. an alias the store holds for another
  url (`UseCase.TakenAliasCanBeReturned`).
- The in-memory `Create` and `Get` return plain `fmt.Errorf` messages,
  not `ErrDuplicate` or a not-found sentinel, although the store's tests
  check for sentinels (`repository_test.go:34,96`), so the code and its
  own tests disagree. As a result the service does not take an in-memory
  alias collision for a duplicate: for a url the store does not hold, it
  stops after the first attempt and returns the store's message
  (`EndToEnd.InMemoryNeverRetries`).
- `ErrDuplicate` means two things in `GetAlias`:
  - "url already stored", which the service returns;
  - "alias collision", which the loop consumes.

  Only the first can leave the service
  (`UseCase.DuplicateComesFromPrecheck`).
- `repository.go` defines no `URLExists`, although its tests call it.
  `InMemory.Repository.UrlExists` models what those tests expect.

## Model

| member | source | states |
|---|---|---|
| Models.WrapKeepsIs | domain/link/shortener.go:23-25 | wrapping an error with `%w` changes no `errors.Is` answer about a non-wrapping target |
| Models.OpaqueIsOnlyItself | internal/repository/in_memory/repository.go:26 | an error made without `%w` is recognised by `errors.Is` only as itself, never as `ErrDuplicate` |
| Codec.Spell | internal/pkg/utils/encode.go:11-16 | the string spelled by a list of positions has one character per position, namely the charset character at that position |
| Codec.Encode | internal/pkg/utils/encode.go:8-17 | the buffer filled position by position has exactly `size` characters and is the string the draws spell; `size == 0` gives the empty string |
| Codec.SpelledFromCharset | internal/pkg/utils/encode.go:13 | whatever is drawn, every character of the result is a character of `charset` |
| Codec.EveryStringIsReachable | internal/pkg/utils/encode.go:12-14 | every string over `charset` is spelled by some valid draws, so no string is excluded: two calls may agree and an alias already in use may be drawn again |
| InMemory.Stored | internal/repository/in_memory/repository.go:25-31 | after `Create`, the keys are the old keys plus `alias`; an existing alias keeps its url; an absent one is bound to `url`; every other entry is unchanged |
| InMemory.CreateReply | internal/repository/in_memory/repository.go:25-32 | `Create` fails exactly when the alias is present, with an error `errors.Is` does not take for `ErrDuplicate` |
| InMemory.Lookup | internal/repository/in_memory/repository.go:40-45 | `Get` succeeds exactly when the alias is present, returning its url; otherwise it returns `""` and the not-found message |
| InMemory.UrlReply | internal/repository/in_memory/repository_test.go:114-147 | the pre-check on the in-memory store answers, never with an error, whether some entry holds `url` |
| InMemory.BindingIsPermanent | internal/repository/in_memory/repository.go:21-46 | once an alias is bound to a url, any sequence of `Create` and `Get` calls leaves it bound to that url |
| InMemory.ReplayKeys | internal/repository/in_memory/repository.go:21-46 | after a sequence of calls, an alias is present exactly when it was present before or some `Create` in the sequence was given it |
| InMemory.Repository.constructor | internal/repository/in_memory/repository.go:14-19 | `New` gives an empty store whatever the capacity hint |
| InMemory.Repository.Create | internal/repository/in_memory/repository.go:21-34 | an existing alias is rejected with the store unchanged; an absent one is inserted with every other entry kept |
| InMemory.Repository.Get | internal/repository/in_memory/repository.go:36-46 | returns the stored url for a present alias, `""` and an error for an absent one, and changes nothing |
| InMemory.Repository.UrlExists | internal/repository/in_memory/repository_test.go:114-147 | answers true exactly when some stored entry has `url` as its value, with a nil error, as `UrlReply` gives |
| UseCase.Candidates | internal/usecase/usecase.go:43-48 | the draws give the 11 candidates `GetAlias` can try, in order |
| UseCase.CandidatesAreAliases | internal/usecase/usecase.go:12 | every candidate has 10 characters, all from the 63-symbol charset |
| UseCase.Allocate | internal/usecase/usecase.go:45-58 | the loop makes at least one and at most 10 `Create` calls; with a nil error it returns the candidate last offered or the one drawn after the tenth collision; with an error it returns `""` and an error that is not a duplicate |
| UseCase.Decide | internal/usecase/usecase.go:32-59 | `GetAlias` makes at most 10 `Create` calls, and none exactly when the pre-check returned an error or reported the url present; an error comes with `""` |
| UseCase.PrecheckFailureIsReturned | internal/usecase/usecase.go:34-38 | a pre-check error is returned unchanged with `""` and no `Create` call, even when the pre-check also reported the url present |
| UseCase.KnownUrlIsDuplicate | internal/usecase/usecase.go:39-41 | a url already stored gives `("", ErrDuplicate)` and no `Create` call |
| UseCase.DuplicateComesFromPrecheck | internal/usecase/usecase.go:39-53 | if `GetAlias` returns an error recognised as `ErrDuplicate`, it came from the pre-check, never from an alias collision |
| UseCase.SkipCollisions | internal/usecase/usecase.go:46-49 | iterations whose `Create` collides only move on to the next candidate |
| UseCase.CollisionsThenAccepted | internal/usecase/usecase.go:46-58 | `k < 10` collisions then a nil reply: success after exactly `k + 1` `Create` calls, returning the alias the accepted `Create` received |
| UseCase.CollisionsThenOtherError | internal/usecase/usecase.go:50-53 | `k < 10` collisions then any other error: `("", err)` after exactly `k + 1` `Create` calls, with no further attempt |
| UseCase.AllCollisionsReturnEleventhCandidate | internal/usecase/usecase.go:45-58 | ten collisions: ten `Create` calls, a nil error, and the eleventh candidate, whose `Create` was never attempted |
| UseCase.TakenAliasCanBeReturned | internal/usecase/usecase.go:45-58 | when the eleventh draw repeats an earlier one after ten collisions, the alias returned with a nil error is the very string `Create` rejected as taken |
| UseCase.AliasesAreWellFormed | internal/usecase/usecase.go:43-48 | every alias offered to `Create` and every alias returned with a nil error has 10 characters from the charset |
| UseCase.ScriptedRepository.constructor | internal/usecase/usecase.go:14-18 | a store with the given answers and empty call logs |
| UseCase.ScriptedRepository.URLExists | internal/usecase/usecase.go:17 | logs the url and answers the scripted pair `(found, err)` |
| UseCase.ScriptedRepository.Create | internal/usecase/usecase.go:15 | logs `(url, alias)` and answers with the reply scripted for its call index |
| UseCase.ScriptedRepository.Get | internal/usecase/usecase.go:16 | logs the alias and answers the scripted pair `(url, err)` |
| UseCase.Service.constructor | internal/usecase/usecase.go:25-30 | the service keeps the store it is given |
| UseCase.Service.GetAlias | internal/usecase/usecase.go:32-59 | one `URLExists` call with `url`, no `Get` call, and exactly the `Create` calls `Decide` counts, each with `url` and the next candidate; it returns what `Decide` gives, so the pre-check's error is looked at before its `found` |
| UseCase.Service.InsertFresh | internal/usecase/usecase.go:43-58 | the `Create` loop makes exactly the calls `Allocate` counts, in candidate order, and returns what `Allocate` gives |
| UseCase.Service.GetURL | internal/usecase/usecase.go:61-70 | exactly one `Get` call, with `alias`, and no other store call; the store's url on success; on failure `""` and the store's error, dropping any url the store returned with it |
| Shortener.CutLink | domain/link/shortener.go:20-34 | succeeds exactly when the provider does, with the link of the provider's alias and the given url; otherwise returns a new error that is a duplicate exactly when the provider's was |
| Shortener.GetFullLink | domain/link/shortener.go:36-50 | succeeds exactly when the provider does, with the link of the given alias and the provider's url; otherwise returns a new error that is a duplicate exactly when the provider's was |
| Shortener.FacadeKeepsErrorIdentity | domain/link/shortener.go:22-26 | the facade's error is recognised by `errors.Is` as any sentinel or plain error exactly when the provider's error was |
| EndToEnd.CutLinkDuplicateMeansKnownUrl | internal/usecase/usecase.go:34-53 | `CutLink` over the service reports `ErrDuplicate` exactly when the pre-check reported the url present without an error, or failed with a duplicate |
| EndToEnd.InMemoryNeverRetries | internal/usecase/usecase.go:34-53 | over the in-memory store and its own pre-check, `GetAlias` makes no `Create` call and answers `ErrDuplicate` for a url the store holds; otherwise it makes exactly one `Create` call, inserting the first candidate when that is free and returning the store's plain error when it is taken |
| EndToEnd.ShortenThenResolve | internal/usecase/usecase.go:32-58 | over the in-memory store and its own pre-check, `CutLink` reports a duplicate exactly when the store already holds `url`; an alias from a successful `CutLink` was free, is well formed, and resolves with `GetFullLink` to the same link after any later calls; any other failure means the first candidate was taken |

## Left out

- Logging (`slog`), the `context.Context` arguments and the lock of the
  in-memory store are not modelled. Each store method is one atomic step,
  and the race between the pre-check and `Create` in `GetAlias` is not
  represented.
- The pseudo-random generator and its clock seed are not modelled: they
  become the draws passed in.
- Codec.Encode: draws are positions of characters in `charset`, while Go
  indexes `charset` by byte. The two agree only for a single-byte charset
  such as the ASCII constant `GetAlias` passes (`usecase.go:12`); for a
  charset with multi-byte characters Go can produce bytes that are not
  characters of `charset`. A negative `size`, on which `make` panics, is
  excluded by taking `size` as a natural number.
- UseCase.Service.GetAlias: the store behind it is the scripted store,
  not the in-memory or PostgreSQL one. The in-memory store is connected to
  it only through the `EndToEnd` lemmas, which pass its replies as values.
- The PostgreSQL repositories, the HTTP handlers, configuration and
  start-up are not part of this model.
- Error values are compared structurally. Go compares sentinels by
  pointer identity, so two distinct `errors.New` values with the same
  text would count as one error here.
- Shortener.CutLink, Shortener.GetFullLink: the call to the data provider
  is not modelled. They take the provider's answer as arguments, so
  "exactly one call" holds by construction and is not stated.
- A nil `*Link` is modelled as the error case of a result, not as a
  pointer.
