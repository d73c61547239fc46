/** The alias generator `utils.Encode(size, charset)`: a string of `size`
    characters, each picked from `charset` at a random position.

    The pseudo-random generator is not modelled. What it contributes is the
    sequence of positions `rnd.Intn(len(charset))` returned, one per
    character, and it is passed in as `draws`; the only thing known about a
    draw is the promise of `Intn`: it lies in `[0, len(charset))`. */
module Codec {

  /** `draws` can be the positions drawn while encoding `size` characters of
      `charset`: one per character, each a valid position. With `size > 0`
      this needs a non-empty `charset`, as `Intn` panics on zero. */
  predicate IsDrawFor(draws: seq<nat>, size: nat, charset: string)
  {
    |draws| == size && forall i :: 0 <= i < |draws| ==> draws[i] < |charset|
  }

  /** Every character of `s` is a character of `charset`. */
  predicate Over(s: string, charset: string)
  {
    forall i :: 0 <= i < |s| ==> s[i] in charset
  }

  /** The string the positions `draws` spell in `charset`. */
  function Spell(charset: string, draws: seq<nat>): (s: string)
    requires forall i :: 0 <= i < |draws| ==> draws[i] < |charset|
    ensures |s| == |draws|
    ensures forall i :: 0 <= i < |s| ==> s[i] == charset[draws[i]]
  {
    if draws == [] then [] else [charset[draws[0]]] + Spell(charset, draws[1..])
  }

  /** `Encode`: allocate a buffer of `size` characters and fill it position
      by position from the drawn positions. */
  method Encode(size: nat, charset: string, draws: seq<nat>) returns (s: string)
    requires IsDrawFor(draws, size, charset)
    ensures |s| == size
    ensures s == Spell(charset, draws)
  {
    var b := new char[size];
    for i := 0 to size
      invariant forall j :: 0 <= j < i ==> b[j] == charset[draws[j]]
    {
      b[i] := charset[draws[i]];
    }
    s := b[..];
  }

  /** Whatever was drawn, the result consists of `charset` characters. */
  lemma SpelledFromCharset(charset: string, draws: seq<nat>)
    requires forall i :: 0 <= i < |draws| ==> draws[i] < |charset|
    ensures Over(Spell(charset, draws), charset)
  {
  }

  /** The first position of `c` in `charset`. */
  function IndexOf(charset: string, c: char): (k: nat)
    requires c in charset
    ensures k < |charset| && charset[k] == c
  {
    if charset[0] == c then 0 else 1 + IndexOf(charset[1..], c)
  }

  /** Positions that spell `s`, one per character. */
  function Positions(charset: string, s: string): (draws: seq<nat>)
    requires Over(s, charset)
    ensures IsDrawFor(draws, |s|, charset)
  {
    if s == [] then [] else [IndexOf(charset, s[0])] + Positions(charset, s[1..])
  }

  /** Every string of `charset` characters is a possible result of `Encode`:
      some valid draws spell it. In particular nothing keeps two calls from
      producing the same string, or a string already used as an alias. */
  lemma {:induction false} EveryStringIsReachable(charset: string, s: string)
    requires Over(s, charset)
    ensures IsDrawFor(Positions(charset, s), |s|, charset)
    ensures Spell(charset, Positions(charset, s)) == s
  {
    if s != [] {
      EveryStringIsReachable(charset, s[1..]);
      var d := Positions(charset, s);
      assert d[1..] == Positions(charset, s[1..]);
      assert s == [s[0]] + s[1..];
    }
  }
}
