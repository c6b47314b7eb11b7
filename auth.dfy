/**
 * Static authentication (src/sdk/auth.rs): an access token wrapped in a
 * newtype, and a provider that always hands out the one token it holds.
 */
module Auth {
  import opened Wrappers
  import SdkError

  /** `AccessToken`: the token text, owned. */
  datatype AccessToken = AccessToken(text: string)
  {
    /** `AccessToken::as_str`: the text, from which the token is recovered whole. */
    function AsStr(): (s: string)
      ensures AccessToken(s) == this
      ensures |s| == |text|
    {
      text
    }
  }

  /** `From<String> for AccessToken`. */
  function TokenFrom(t: string): (token: AccessToken)
    ensures token.AsStr() == t
  {
    AccessToken(t)
  }

  /** Wrapping text as a token loses nothing: distinct texts give distinct tokens. */
  lemma TokenFromInjective(s: string, t: string)
    ensures TokenFrom(s) == TokenFrom(t) <==> s == t
  {
  }

  /** `SingleTokenAuth`: the provider the client is built with. */
  datatype SingleTokenAuth = SingleTokenAuth(token: AccessToken)
  {
    /**
     * `Auth::token`: takes the provider mutably, as the `Auth` trait allows
     * richer providers to refresh; this one returns its stored token, never
     * fails, and gives the provider back unchanged.
     */
    function Token(): (r: (Result<AccessToken, SdkError.Error>, SingleTokenAuth))
      ensures r.0.Ok? && r.0.value == token
      ensures r.1 == this
    {
      (Ok(token), this)
    }
  }

  /** `SingleTokenAuth::new`. */
  function NewSingleTokenAuth(t: string): (auth: SingleTokenAuth)
    ensures auth.token.AsStr() == t
  {
    SingleTokenAuth(TokenFrom(t))
  }

  /** A provider built from `t` answers with a token whose text is `t`. */
  lemma NewThenToken(t: string)
    ensures NewSingleTokenAuth(t).Token().0 == Ok(TokenFrom(t))
    ensures NewSingleTokenAuth(t).Token().0.value.AsStr() == t
  {
  }

  /** Asking again, of the provider the first call left, gives the same token. */
  lemma TokenRepeatable(auth: SingleTokenAuth)
    ensures auth.Token().1.Token() == auth.Token()
  {
  }
}
