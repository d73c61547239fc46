/** The allocation service `usecase.service`: `GetAlias` mints an alias for
    a url after an existence pre-check, retrying on alias collisions a
    bounded number of times; `GetURL` resolves an alias.

    The store behind `RepositoryInterface` is modelled as a scripted store:
    `URLExists` and `Get` answer as functions given at construction say,
    `Create` answers from a list of replies indexed by call number (so that
    "collide twice, then accept" can be written), and every call is
    logged. Any backend's observable answers can be scripted
    this way. */
module UseCase {
  import opened Models
  import Codec

  /** `charset`: the 63 symbols `a-z`, `A-Z`, `0-9` and `_`. */
  const Charset: string := "abcdefghijklmnopqrstuvwxyzABCDEFGHIJKLMNOPQRSTUVWXYZ0123456789_"

  /** The length `GetAlias` asks `Encode` for. */
  const AliasLength: nat := 10

  /** The number of iterations of the `Create` loop. */
  const MaxAttempts: nat := 10

  /** A string `GetAlias` can produce as a candidate. */
  predicate IsAlias(s: string)
  {
    |s| == AliasLength && Codec.Over(s, Charset)
  }

  /** The random positions one `GetAlias` call can consume: one draw
      sequence for each of the at most `MaxAttempts + 1` calls of `Encode`
      (the first before the loop, one after each collision). */
  predicate IsRandomness(rng: seq<seq<nat>>)
  {
    |rng| == MaxAttempts + 1 &&
    forall k :: 0 <= k < |rng| ==> Codec.IsDrawFor(rng[k], AliasLength, Charset)
  }

  /** The candidates those draws spell, in the order `GetAlias` tries them. */
  function Candidates(rng: seq<seq<nat>>): (c: seq<string>)
    requires IsRandomness(rng)
    ensures |c| == MaxAttempts + 1
  {
    seq(|rng|, k requires 0 <= k < |rng| => Codec.Spell(Charset, rng[k]))
  }

  /** Every candidate has the shape of an alias. */
  lemma CandidatesAreAliases(rng: seq<seq<nat>>, k: nat)
    requires IsRandomness(rng) && k < |rng|
    ensures IsAlias(Candidates(rng)[k])
  {
    Codec.SpelledFromCharset(Charset, rng[k]);
  }

  /** `Create` requests `(url, alias)`, one per alias, in order. */
  function Requests(url: string, aliases: seq<string>): (r: seq<(string, string)>)
    ensures |r| == |aliases|
    ensures forall j :: 0 <= j < |r| ==> r[j].0 == url && r[j].1 == aliases[j]
  {
    seq(|aliases|, j requires 0 <= j < |aliases| => (url, aliases[j]))
  }

  /** One more request extends the log by one entry. */
  lemma RequestsGrow(url: string, aliases: seq<string>, i: nat)
    requires i < |aliases|
    ensures Requests(url, aliases[..i + 1]) == Requests(url, aliases[..i]) + [(url, aliases[i])]
  {
  }

  /** The outcome of one `GetAlias`: the returned alias and error, and how
      many `Create` calls it made. */
  datatype Allocation = Allocation(alias: string, err: Option<Error>, attempts: nat)

  /** The `Create` loop from iteration `attempt` on, where iteration `j`
      offers `candidates[j]` and the store answers `replies[j]`. A collision
      (an error `errors.Is` takes for `ErrDuplicate`) moves on to the next
      candidate; any other error ends the call with `""`; a nil error ends
      it with the candidate just inserted. When every iteration collided,
      the loop falls out and the candidate drawn after the last collision is
      returned with a nil error. */
  function Allocate(replies: seq<Option<Error>>, candidates: seq<string>, attempt: nat): (r: Allocation)
    requires |replies| == MaxAttempts && |candidates| == MaxAttempts + 1
    requires attempt <= MaxAttempts
    ensures attempt <= r.attempts <= MaxAttempts
    ensures attempt < MaxAttempts ==> attempt < r.attempts
    ensures r.err.None? ==> r.alias == candidates[r.attempts - 1] || r.alias == candidates[MaxAttempts]
    ensures r.err.Some? ==> r.alias == "" && !IsDuplicate(r.err)
    decreases MaxAttempts - attempt
  {
    if attempt == MaxAttempts then
      Allocation(candidates[MaxAttempts], None, MaxAttempts)
    else if IsDuplicate(replies[attempt]) then
      Allocate(replies, candidates, attempt + 1)
    else if replies[attempt].Some? then
      Allocation("", replies[attempt], attempt + 1)
    else
      Allocation(candidates[attempt], None, attempt + 1)
  }

  /** The whole of `GetAlias`: the pre-check's answer `(found, existsErr)`
      decides first. Its error is looked at before `found` and returned as
      it is, whatever `found` says; a url reported present is answered with
      `ErrDuplicate`; only an absent url reaches the `Create` loop. */
  function Decide(found: bool, existsErr: Option<Error>, replies: seq<Option<Error>>, candidates: seq<string>): (r: Allocation)
    requires |replies| == MaxAttempts && |candidates| == MaxAttempts + 1
    ensures r.attempts <= MaxAttempts
    ensures r.err.Some? ==> r.alias == ""
    ensures (r.attempts == 0) <==> (existsErr.Some? || found)
  {
    if existsErr.Some? then Allocation("", existsErr, 0)
    else if found then Allocation("", Some(Duplicate), 0)
    else Allocate(replies, candidates, 0)
  }

  /** A failing pre-check is returned unchanged, with no `Create` call,
      even when it also reports the url as present. */
  lemma PrecheckFailureIsReturned(found: bool, e: Error, replies: seq<Option<Error>>, candidates: seq<string>)
    requires |replies| == MaxAttempts && |candidates| == MaxAttempts + 1
    ensures Decide(found, Some(e), replies, candidates) == Allocation("", Some(e), 0)
  {
  }

  /** A url already stored is answered with `("", ErrDuplicate)`, with no
      `Create` call. */
  lemma KnownUrlIsDuplicate(replies: seq<Option<Error>>, candidates: seq<string>)
    requires |replies| == MaxAttempts && |candidates| == MaxAttempts + 1
    ensures Decide(true, None, replies, candidates) == Allocation("", Some(Duplicate), 0)
  {
  }

  /** `ErrDuplicate` means two things, but only one of them leaves
      `GetAlias`: a returned duplicate comes from the pre-check (a known
      url, or a pre-check error that is itself a duplicate), never from an
      alias collision, which the loop absorbs. */
  lemma DuplicateComesFromPrecheck(found: bool, existsErr: Option<Error>, replies: seq<Option<Error>>, candidates: seq<string>)
    requires |replies| == MaxAttempts && |candidates| == MaxAttempts + 1
    requires IsDuplicate(Decide(found, existsErr, replies, candidates).err)
    ensures (found && existsErr.None?) || IsDuplicate(existsErr)
  {
  }

  /** Iterations that all collide lead on to the next one untouched. */
  lemma {:induction false} SkipCollisions(replies: seq<Option<Error>>, candidates: seq<string>, from: nat, to: nat)
    requires |replies| == MaxAttempts && |candidates| == MaxAttempts + 1
    requires from <= to <= MaxAttempts
    requires forall j :: from <= j < to ==> IsDuplicate(replies[j])
    ensures Allocate(replies, candidates, from) == Allocate(replies, candidates, to)
    decreases MaxAttempts - from
  {
    if from < to {
      SkipCollisions(replies, candidates, from + 1, to);
    }
  }

  /** `k < 10` collisions followed by an accepted insert: the call succeeds
      after exactly `k + 1` `Create` calls and returns the alias the
      accepted `Create` received. */
  lemma CollisionsThenAccepted(replies: seq<Option<Error>>, candidates: seq<string>, k: nat)
    requires |replies| == MaxAttempts && |candidates| == MaxAttempts + 1
    requires k < MaxAttempts
    requires forall j :: 0 <= j < k ==> IsDuplicate(replies[j])
    requires replies[k].None?
    ensures Allocate(replies, candidates, 0) == Allocation(candidates[k], None, k + 1)
  {
    SkipCollisions(replies, candidates, 0, k);
  }

  /** `k < 10` collisions followed by any other error: the call stops at
      once, after `k + 1` `Create` calls, returning `""` and that error. */
  lemma CollisionsThenOtherError(replies: seq<Option<Error>>, candidates: seq<string>, k: nat)
    requires |replies| == MaxAttempts && |candidates| == MaxAttempts + 1
    requires k < MaxAttempts
    requires forall j :: 0 <= j < k ==> IsDuplicate(replies[j])
    requires replies[k].Some? && !IsDuplicate(replies[k])
    ensures Allocate(replies, candidates, 0) == Allocation("", replies[k], k + 1)
  {
    SkipCollisions(replies, candidates, 0, k);
  }

  /** Ten collisions: there is no exhaustion error. The call makes exactly
      ten `Create` calls and returns, with a nil error, the eleventh
      candidate, drawn after the last collision and never offered to
      `Create`. */
  lemma AllCollisionsReturnEleventhCandidate(replies: seq<Option<Error>>, candidates: seq<string>)
    requires |replies| == MaxAttempts && |candidates| == MaxAttempts + 1
    requires forall j :: 0 <= j < MaxAttempts ==> IsDuplicate(replies[j])
    ensures Allocate(replies, candidates, 0) == Allocation(candidates[MaxAttempts], None, MaxAttempts)
  {
    SkipCollisions(replies, candidates, 0, MaxAttempts);
  }

  /** Draws may repeat, so after ten collisions the alias returned with a
      nil error can be a string that already collided: when the eleventh
      draw repeats the draw of attempt `k`, the success answer carries the
      very alias `Create` rejected as taken at attempt `k`. */
  lemma TakenAliasCanBeReturned(replies: seq<Option<Error>>, rng: seq<seq<nat>>, k: nat)
    requires IsRandomness(rng) && |replies| == MaxAttempts
    requires forall j :: 0 <= j < MaxAttempts ==> IsDuplicate(replies[j])
    requires k < MaxAttempts && rng[MaxAttempts] == rng[k]
    ensures var d := Allocate(replies, Candidates(rng), 0);
      d.err.None? && d.alias == Candidates(rng)[k] && IsDuplicate(replies[k])
  {
    AllCollisionsReturnEleventhCandidate(replies, Candidates(rng));
  }

  /** Every alias `GetAlias` hands to `Create` or returns with a nil error
      has length 10 and consists of `charset` symbols. */
  lemma {:induction false} AliasesAreWellFormed(found: bool, existsErr: Option<Error>, replies: seq<Option<Error>>, rng: seq<seq<nat>>)
    requires IsRandomness(rng) && |replies| == MaxAttempts
    ensures var d := Decide(found, existsErr, replies, Candidates(rng));
      (d.err.None? ==> IsAlias(d.alias)) &&
      forall j :: 0 <= j < d.attempts ==> IsAlias(Candidates(rng)[j])
  {
    var c := Candidates(rng);
    var d := Decide(found, existsErr, replies, c);
    if d.err.None? {
      assert !found && existsErr.None?;
      if d.alias == c[d.attempts - 1] {
        CandidatesAreAliases(rng, d.attempts - 1);
      } else {
        CandidatesAreAliases(rng, MaxAttempts);
      }
    }
    forall j | 0 <= j < d.attempts ensures IsAlias(c[j]) {
      CandidatesAreAliases(rng, j);
    }
  }

  /** The reply a script gives to the `Create` call of index `k`: its `k`-th
      entry, or nil once the script has run out. */
  function ReplyAt(script: seq<Option<Error>>, k: nat): Option<Error>
  {
    if k < |script| then script[k] else None
  }

  /** The replies the next `MaxAttempts` `Create` calls would receive after
      the first `first` ones. */
  function Upcoming(script: seq<Option<Error>>, first: nat): (r: seq<Option<Error>>)
    ensures |r| == MaxAttempts
  {
    seq(MaxAttempts, j requires 0 <= j < MaxAttempts => ReplyAt(script, first + j))
  }

  /** The store behind `RepositoryInterface`, with scripted answers and a
      log of every call it received. */
  class ScriptedRepository {
    /** The answer `(found, err)` of `URLExists` for each url; both halves
        may be set at once. */
    const urlExistsFn: string -> (bool, Option<Error>)
    /** The answer of each `Create` call, by call index; nil past its end. */
    const createReplies: seq<Option<Error>>
    /** The answer `(url, err)` of `Get` for each alias; both halves may be
        set at once. */
    const getFn: string -> (string, Option<Error>)

    /** The urls `URLExists` received, in order. */
    var urlExistsLog: seq<string>
    /** The `(url, alias)` pairs `Create` received, in order. */
    var createLog: seq<(string, string)>
    /** The aliases `Get` received, in order. */
    var getLog: seq<string>

    constructor (urlExistsFn: string -> (bool, Option<Error>), createReplies: seq<Option<Error>>,
                 getFn: string -> (string, Option<Error>))
      ensures this.urlExistsFn == urlExistsFn && this.createReplies == createReplies && this.getFn == getFn
      ensures urlExistsLog == [] && createLog == [] && getLog == []
    {
      this.urlExistsFn, this.createReplies, this.getFn := urlExistsFn, createReplies, getFn;
      urlExistsLog, createLog, getLog := [], [], [];
    }

    method URLExists(url: string) returns (found: bool, err: Option<Error>)
      modifies this
      ensures urlExistsLog == old(urlExistsLog) + [url]
      ensures createLog == old(createLog) && getLog == old(getLog)
      ensures (found, err) == urlExistsFn(url)
    {
      urlExistsLog := urlExistsLog + [url];
      found, err := urlExistsFn(url).0, urlExistsFn(url).1;
    }

    method Create(url: string, alias: string) returns (err: Option<Error>)
      modifies this
      ensures createLog == old(createLog) + [(url, alias)]
      ensures urlExistsLog == old(urlExistsLog) && getLog == old(getLog)
      ensures err == ReplyAt(createReplies, |old(createLog)|)
    {
      err := ReplyAt(createReplies, |createLog|);
      createLog := createLog + [(url, alias)];
    }

    method Get(alias: string) returns (url: string, err: Option<Error>)
      modifies this
      ensures getLog == old(getLog) + [alias]
      ensures urlExistsLog == old(urlExistsLog) && createLog == old(createLog)
      ensures (url, err) == getFn(alias)
    {
      getLog := getLog + [alias];
      url, err := getFn(alias).0, getFn(alias).1;
    }
  }

  class Service {
    const repository: ScriptedRepository

    /** `New(repository, logger)`; the logger is not modelled. */
    constructor (repository: ScriptedRepository)
      ensures this.repository == repository
    {
      this.repository := repository;
    }

    /** `GetAlias(url)`, drawing its candidates from `rng`: one `URLExists`
        call, no `Get` call, and exactly the `Create` calls `Decide`
        counts, each with `url` and the next candidate. */
    method GetAlias(url: string, rng: seq<seq<nat>>) returns (alias: string, err: Option<Error>)
      requires IsRandomness(rng)
      modifies repository
      ensures repository.urlExistsLog == old(repository.urlExistsLog) + [url]
      ensures repository.getLog == old(repository.getLog)
      ensures var d := Decide(repository.urlExistsFn(url).0, repository.urlExistsFn(url).1,
                              Upcoming(repository.createReplies, |old(repository.createLog)|), Candidates(rng));
        alias == d.alias && err == d.err &&
        repository.createLog == old(repository.createLog) + Requests(url, Candidates(rng)[..d.attempts])
    {
      var found, existsErr := repository.URLExists(url);
      if existsErr.Some? {
        return "", existsErr;
      }
      if found {
        return "", Some(Duplicate);
      }
      alias, err := InsertFresh(url, rng);
    }

    /** The `Create` loop of `GetAlias`: draw a candidate, offer it to
        `Create`, and draw again after each collision, at most `MaxAttempts`
        times. It makes exactly the `Create` calls `Allocate` counts, each
        with `url` and the next candidate, and no other store call. */
    method InsertFresh(url: string, rng: seq<seq<nat>>) returns (alias: string, err: Option<Error>)
      requires IsRandomness(rng)
      modifies repository
      ensures repository.urlExistsLog == old(repository.urlExistsLog)
      ensures repository.getLog == old(repository.getLog)
      ensures var a := Allocate(Upcoming(repository.createReplies, |old(repository.createLog)|), Candidates(rng), 0);
        alias == a.alias && err == a.err &&
        repository.createLog == old(repository.createLog) + Requests(url, Candidates(rng)[..a.attempts])
    {
      ghost var candidates := Candidates(rng);
      ghost var replies := Upcoming(repository.createReplies, |repository.createLog|);
      ghost var accepted := false;
      alias := Codec.Encode(AliasLength, Charset, rng[0]);

      for i := 0 to MaxAttempts
        invariant alias == candidates[i]
        invariant repository.createLog == old(repository.createLog) + Requests(url, candidates[..i])
        invariant repository.urlExistsLog == old(repository.urlExistsLog)
        invariant repository.getLog == old(repository.getLog)
        invariant forall j :: 0 <= j < i ==> IsDuplicate(replies[j])
        invariant !accepted
      {
        var createErr := repository.Create(url, alias);
        assert createErr == replies[i];
        RequestsGrow(url, candidates, i);
        if IsDuplicate(createErr) {
          alias := Codec.Encode(AliasLength, Charset, rng[i + 1]);
          continue;
        } else if createErr.Some? {
          CollisionsThenOtherError(replies, candidates, i);
          return "", createErr;
        }
        CollisionsThenAccepted(replies, candidates, i);
        accepted := true;
        break;
      }
      if !accepted {
        AllCollisionsReturnEleventhCandidate(replies, candidates);
      }
      return alias, None;
    }

    /** `GetURL(alias)`: exactly one `Get` call, with `alias`, and no other
        store call; the store's url on success; on failure `""` and the
        store's error, whatever url came with it. */
    method GetURL(alias: string) returns (url: string, err: Option<Error>)
      modifies repository
      ensures repository.getLog == old(repository.getLog) + [alias]
      ensures repository.urlExistsLog == old(repository.urlExistsLog)
      ensures repository.createLog == old(repository.createLog)
      ensures var (u, e) := repository.getFn(alias);
        (e.None? ==> url == u && err.None?) && (e.Some? ==> url == "" && err == e)
    {
      url, err := repository.Get(alias);
      if err.Some? {
        return "", err;
      }
      return url, None;
    }
  }
}
