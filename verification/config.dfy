/** Start-up configuration (app/lib/config/config.py). The process
    environment is an explicit map instead of `os.environ`, and the URL
    parser is passed in (see module Urls). */
module Config {
  import opened Results
  import opened Text
  import opened LibFunctions
  import opened Errors
  import opened Urls

  type Env = map<string, string>

  function NotFoundMessage(key: string): string {
    "Config Key: " + key + " has not been found in the environment of the station application"
  }

  function EmptyMessage(key: string): string {
    "Value for config key: " + key + " is empty"
  }

  function QuotedMessage(key: string): string {
    "Value for config key: " + key
      + " appears to be quoted. Please make sure that the environment is set up correctly!"
  }

  function BadUrlMessage(key: string): string {
    "URL for config key: " + key + " either has no scheme or no netloc"
  }

  /** A value `_get_value_from_env` accepts: present, with non-blank content,
      and not quoted once stripped. */
  predicate Acceptable(env: Env, key: string) {
    key in env && !AllSpace(env[key]) && !IsQuoted(Strip(env[key]))
  }

  /** `_get_value_from_env(key)`: the stripped value, after three checks in
      order: the key is present, the value has content, the value is not
      quoted. The first failing check decides the error. */
  function GetValueFromEnv(env: Env, key: string): (r: Result<string, Error>)
    ensures key !in env ==> r == Err(StartupError(NotFoundMessage(key)))
    ensures key in env && AllSpace(env[key]) ==> r == Err(StartupError(EmptyMessage(key)))
    ensures (key in env && !AllSpace(env[key]) && IsQuoted(Strip(env[key])))
              ==> r == Err(StartupError(QuotedMessage(key)))
    ensures r.Ok? <==> Acceptable(env, key)
    ensures r.Ok? ==> r.value == Strip(env[key])
  {
    var present := StartupErrorIf(key !in env, NotFoundMessage(key));
    :- present;
    var value := Strip(env[key]);
    :- StartupErrorIf(!StringHasContent(Some(value)), EmptyMessage(key));
    :- StartupErrorIf(IsQuoted(value), QuotedMessage(key));
    Ok(value)
  }

  /** Whatever `_get_value_from_env` returns has content, is not quoted and
      carries no surrounding whitespace. */
  lemma ValueWellFormed(env: Env, key: string)
    ensures GetValueFromEnv(env, key).Ok? ==>
      var v := GetValueFromEnv(env, key).value;
      StringHasContent(Some(v)) && !IsQuoted(v) && Trimmed(v) && Strip(v) == v
  {
    if key in env {
      StripIdempotent(env[key]);
    }
  }

  /** Surrounding whitespace does not hide quotes: the quote check sees the
      stripped value, so `  "x"  ` is rejected as quoted. */
  lemma PaddedQuotedRejected(env: Env, key: string, pre: string, q: string, post: string)
    requires key in env && env[key] == pre + q + post
    requires AllSpace(pre) && AllSpace(post) && IsQuoted(q)
    ensures GetValueFromEnv(env, key) == Err(StartupError(QuotedMessage(key)))
  {
    StripUnique(pre, q, post);
    assert env[key][|pre|] == q[0];
  }

  /** A lone `"` is a quoted value, and so is rejected. */
  lemma LoneQuoteRejected(env: Env, key: string)
    requires key in env && env[key] == "\""
    ensures GetValueFromEnv(env, key) == Err(StartupError(QuotedMessage(key)))
  {
    assert env[key] == [] + "\"" + [];
    PaddedQuotedRejected(env, key, [], "\"", []);
  }

  /** Why start-up stops: a `StartupError` raised by the checks, or the
      `ValueError` the URL parser raises on the given (stripped) text. */
  datatype Failure = Startup(error: Error) | UrlValueError(text: string)

  /** `_get_url_value_from_env(key)`: a validated value whose parse has both
      a scheme and a netloc. A value the parser refuses stops start-up with
      the parser's `ValueError`, which the function does not catch. */
  function GetUrlValueFromEnv(env: Env, key: string, urlparse: string -> Option<ParseResult>): (r: Result<Url, Failure>)
    ensures GetValueFromEnv(env, key).Err? ==> r == Err(Startup(GetValueFromEnv(env, key).error))
    ensures (GetValueFromEnv(env, key).Ok? && urlparse(Strip(env[key])).None?)
              ==> r == Err(UrlValueError(Strip(env[key])))
    ensures r.Ok? <==>
              && Acceptable(env, key)
              && urlparse(Strip(env[key])).Some?
              && !AllSpace(urlparse(Strip(env[key])).value.scheme)
              && !AllSpace(urlparse(Strip(env[key])).value.netloc)
    ensures (GetValueFromEnv(env, key).Ok? && urlparse(Strip(env[key])).Some? && !r.Ok?)
              ==> r == Err(Startup(StartupError(BadUrlMessage(key))))
    ensures r.Ok? ==> urlparse(Strip(env[key])) == Some(r.value.parseresult)
  {
    match GetValueFromEnv(env, key)
    case Err(e) => Err(Startup(e))
    case Ok(text) =>
      match FromText(text, urlparse)
      case None => Err(UrlValueError(text))
      case Some(url) =>
        match StartupErrorIf(!HasScheme(url) || !HasNetloc(url), BadUrlMessage(key))
        case Fail(e) => Err(Startup(e))
        case Pass => Ok(url)
  }

  /** The two URIs the station reads at start-up. */
  datatype StationConfig = StationConfig(phtUriStation: Url, phtUriService: Url)

  const StationKey: string := "PHT_URI_STATION"
  const ServiceKey: string := "PHT_URI_SERVICE"

  /** The module's start-up reads, in order: `PHT_URI_STATION` first, then
      `PHT_URI_SERVICE`; the first failure aborts start-up. */
  function LoadConfig(env: Env, urlparse: string -> Option<ParseResult>): (r: Result<StationConfig, Failure>)
    ensures (GetUrlValueFromEnv(env, StationKey, urlparse).Err?)
              ==> r == Err(GetUrlValueFromEnv(env, StationKey, urlparse).error)
    ensures (GetUrlValueFromEnv(env, StationKey, urlparse).Ok? && GetUrlValueFromEnv(env, ServiceKey, urlparse).Err?)
              ==> r == Err(GetUrlValueFromEnv(env, ServiceKey, urlparse).error)
    ensures r.Ok? <==> GetUrlValueFromEnv(env, StationKey, urlparse).Ok?
                         && GetUrlValueFromEnv(env, ServiceKey, urlparse).Ok?
    ensures r.Ok? ==> urlparse(Strip(env[StationKey])) == Some(r.value.phtUriStation.parseresult)
    ensures r.Ok? ==> urlparse(Strip(env[ServiceKey])) == Some(r.value.phtUriService.parseresult)
  {
    var station :- GetUrlValueFromEnv(env, StationKey, urlparse);
    var service :- GetUrlValueFromEnv(env, ServiceKey, urlparse);
    Ok(StationConfig(station, service))
  }
}
