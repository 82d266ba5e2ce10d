/**
 * The run parameters of an exchange: time window, store policy, series-name override,
 * directories and the credentials to use per source URL. Every field is fixed at construction
 * and read back unchanged, so the Java getters are the datatype's fields.
 */
module ExchangeParameters {
  import opened Wrappers
  import opened JavaStrings
  import opened Streams
  import opened MerlinTypes
  import opened Dss

  datatype UsernamePasswordHolder = UsernamePasswordHolder(username: string, password: string)

  /** The credentials to use for one source URL. */
  datatype AuthenticationParameters = AuthenticationParameters(url: string, usernamePassword: UsernamePasswordHolder)

  /** Raised when no credentials are registered for a URL; it carries that URL. */
  datatype UsernamePasswordNotFoundException = UsernamePasswordNotFoundException(url: string)

  predicate UrlMatches(authParam: AuthenticationParameters, url: string) {
    EqualsIgnoreCase(authParam.url, url)
  }

  datatype MerlinDataExchangeParameters = MerlinDataExchangeParameters(
    watershedDirectory: string,
    logFileDirectory: string,
    start: Option<Instant>,
    end: Option<Instant>,
    storeOption: StoreOption,
    fPartOverride: string,
    authenticationParameters: seq<AuthenticationParameters>)
  {
    /**
     * The credentials of the first entry whose URL equals `url` ignoring case; when no entry
     * matches, the not-found exception for `url`.
     */
    function GetUsernamePasswordForUrl(url: string): (r: Result<UsernamePasswordHolder, UsernamePasswordNotFoundException>)
      ensures r.Success? <==> exists i :: 0 <= i < |authenticationParameters| && UrlMatches(authenticationParameters[i], url)
      ensures r.Success? ==> exists i :: (0 <= i < |authenticationParameters| && UrlMatches(authenticationParameters[i], url)
        && r.value == authenticationParameters[i].usernamePassword
        && forall j :: 0 <= j < i ==> !UrlMatches(authenticationParameters[j], url))
      ensures r.Failure? ==> r.error == UsernamePasswordNotFoundException(url)
    {
      match FindFirst(authenticationParameters, a => UrlMatches(a, url))
      case Some(i) => Success(authenticationParameters[i].usernamePassword)
      case None => Failure(UsernamePasswordNotFoundException(url))
    }
  }

  /** With no credentials registered, every lookup fails with not-found. */
  lemma NoCredentialsNeverFound(p: MerlinDataExchangeParameters, url: string)
    requires p.authenticationParameters == []
    ensures p.GetUsernamePasswordForUrl(url) == Failure(UsernamePasswordNotFoundException(url))
  {
  }

  /** An entry whose URL differs only in letter case is found, with exactly the credentials it was given. */
  lemma {:induction false} LookupIgnoresCase(p: MerlinDataExchangeParameters, i: nat, url: string)
    requires i < |p.authenticationParameters| && EqualsIgnoreCase(p.authenticationParameters[i].url, url)
    requires forall j :: 0 <= j < i ==> !UrlMatches(p.authenticationParameters[j], url)
    ensures p.GetUsernamePasswordForUrl(url) == Success(p.authenticationParameters[i].usernamePassword)
  {
    var r := p.GetUsernamePasswordForUrl(url);
    assert r.Success? by { assert UrlMatches(p.authenticationParameters[i], url); }
    var k :| 0 <= k < |p.authenticationParameters| && UrlMatches(p.authenticationParameters[k], url)
      && r.value == p.authenticationParameters[k].usernamePassword
      && forall j :: 0 <= j < k ==> !UrlMatches(p.authenticationParameters[j], url);
    assert k == i;
  }

  /**
   * The scenario of the parameters test: one entry for "https://www.grabdata2.com" with user
   * "user" and password "password"; looking that URL up yields those credentials and looking up
   * "bleh" raises not-found.
   */
  lemma CredentialLookupScenario(watershed: string, start: Instant, end: Instant, storeOption: StoreOption)
    ensures var holder := UsernamePasswordHolder("user", "password");
      var p := MerlinDataExchangeParameters(watershed, watershed, Some(start), Some(end), storeOption, "fPart",
        [AuthenticationParameters("https://www.grabdata2.com", holder)]);
      p.GetUsernamePasswordForUrl("https://www.grabdata2.com") == Success(holder)
      && p.GetUsernamePasswordForUrl("bleh") == Failure(UsernamePasswordNotFoundException("bleh"))
  {
    var holder := UsernamePasswordHolder("user", "password");
    var p := MerlinDataExchangeParameters(watershed, watershed, Some(start), Some(end), storeOption, "fPart",
      [AuthenticationParameters("https://www.grabdata2.com", holder)]);
    EqualsIgnoreCaseReflexive("https://www.grabdata2.com");
    LookupIgnoresCase(p, 0, "https://www.grabdata2.com");
  }
}
