/** The domain facade `link.Shortener`: each operation makes one call to
    its data provider (the allocation service) and turns the provider's
    answer into a `Link` or a wrapped error.

    The provider's answer is the Go pair `(string, error)` and is passed in
    as `value` and `err`; the call itself is the caller's business. */
module Shortener {
  import opened Models

  /** The context `CutLink` puts in front of a provider error. */
  const GetAliasContext: string := "s.linkDataProvider.GetAlias"

  /** The context `GetFullLink` puts in front of a provider error. */
  const GetUrlContext: string := "s.linkDataProvider.GetUrl"

  /** `CutLink(url)`, given the provider's answer `(alias, err)` to
      `GetAlias(url)`. A nil `Link` is modelled as `Err`. */
  function CutLink(url: string, alias: string, err: Option<Error>): (r: Result<Link>)
    ensures r.Ok? <==> err.None?
    ensures r.Ok? ==> r.value.alias == alias && r.value.url == url
    ensures r.Err? ==> r.error != err.value && (IsDuplicate(Some(r.error)) <==> IsDuplicate(err))
  {
    match err
    case None => Ok(Link(alias, url))
    case Some(e) => Err(Wrapped(GetAliasContext, e))
  }

  /** `GetFullLink(alias)`, given the provider's answer `(url, err)` to
      `GetURL(alias)`. */
  function GetFullLink(alias: string, url: string, err: Option<Error>): (r: Result<Link>)
    ensures r.Ok? <==> err.None?
    ensures r.Ok? ==> r.value.alias == alias && r.value.url == url
    ensures r.Err? ==> r.error != err.value && (IsDuplicate(Some(r.error)) <==> IsDuplicate(err))
  {
    match err
    case None => Ok(Link(alias, url))
    case Some(e) => Err(Wrapped(GetUrlContext, e))
  }

  /** The wrapping keeps the provider's error reachable by `errors.Is`:
      for every sentinel or plain error `target`, the facade's error is
      recognised as `target` exactly when the provider's was. */
  lemma FacadeKeepsErrorIdentity(key: string, value: string, e: Error, target: Error)
    requires !target.Wrapped?
    ensures Is(CutLink(key, value, Some(e)).error, target) <==> Is(e, target)
    ensures Is(GetFullLink(key, value, Some(e)).error, target) <==> Is(e, target)
  {
    WrapKeepsIs(GetAliasContext, e, target);
    WrapKeepsIs(GetUrlContext, e, target);
  }
}
