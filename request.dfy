/**
 * `createRequest`: the request the signer receives. The SDK's request object
 * starts with its own default headers; the script lower-cases their names and
 * then lays the user agent, the user's headers and the host header over them,
 * in that order.
 */
module Request {
  import opened Text
  import opened Headers
  import Cli

  /**
   * The script's user-agent string, built from its package name, version and
   * repository; the value here stands in for that fixed string.
   */
  const USER_AGENT := "http-aws4/0.0.0 (https://github.com/timdp/http-aws4)"

  /**
   * `Object.assign(headers, {'user-agent': USER_AGENT}, userHeaders, {host})`
   * on the normalised defaults `prior`: later layers win.
   */
  function MergedHeaders(prior: map<string, string>, userHeaders: map<string, string>, host: string): (r: map<string, string>)
    ensures r.Keys == prior.Keys + userHeaders.Keys + {"user-agent", "host"}
    ensures r["host"] == host
    ensures r["user-agent"] == if "user-agent" in userHeaders then userHeaders["user-agent"] else USER_AGENT
    ensures forall k :: k in userHeaders && k != "host" ==> r[k] == userHeaders[k]
    ensures forall k :: k in prior && k !in userHeaders && k != "host" && k != "user-agent" ==> r[k] == prior[k]
  {
    prior + map["user-agent" := USER_AGENT] + userHeaders + map["host" := host]
  }

  /**
   * The header names of a created request are all lower-case when the user's
   * headers come from the header tokens: the defaults are normalised, the
   * token names are lower-cased, and the two fixed names are lower-case.
   */
  lemma RequestHeaderNamesLowerCase(defaults: HeaderView, tokens: seq<string>, host: string)
    requires WellFormed(defaults)
    ensures forall k :: k in MergedHeaders(Normalized(defaults.names, defaults.fields), Cli.HeaderMap(tokens), host) ==>
              IsLowerCase(k)
  {
    NormalizedKeySet(defaults);
    Cli.HeaderMapKeysLowerCase(tokens);
    MergedNamesLowerCase(Normalized(defaults.names, defaults.fields), Cli.HeaderMap(tokens), host);
  }

  lemma MergedNamesLowerCase(prior: map<string, string>, userHeaders: map<string, string>, host: string)
    requires forall k :: k in prior ==> IsLowerCase(k)
    requires forall k :: k in userHeaders ==> IsLowerCase(k)
    ensures forall k :: k in MergedHeaders(prior, userHeaders, host) ==> IsLowerCase(k)
  {
    assert IsLowerCase("user-agent") && IsLowerCase("host");
  }

  /** The SDK's request object, as far as the script sets it. */
  class HttpRequest {
    var verb: string
    var region: string
    var body: string
    const host: string
    const headers: HeaderObject

    /** The SDK constructor: method POST, empty body, its own default headers. */
    constructor (host: string, defaults: HeaderView)
      requires WellFormed(defaults)
      ensures this.host == host && verb == "POST" && region == "" && body == ""
      ensures fresh(headers) && headers.Valid() && headers.View() == defaults
    {
      this.host := host;
      verb := "POST";
      region := "";
      body := "";
      headers := new HeaderObject(defaults);
    }
  }

  /**
   * `createRequest` up to signing: sets region, method and body, normalises
   * the default header names, then merges the fixed and user headers.
   */
  method CreateRequest(verb: string, body: string, region: string, host: string,
                       defaults: HeaderView, userHeaders: map<string, string>)
    returns (request: HttpRequest)
    requires WellFormed(defaults)
    ensures fresh(request) && fresh(request.headers) && request.headers.Valid()
    ensures request.verb == verb && request.region == region && request.body == body
    ensures request.host == host
    ensures request.headers.fields ==
              MergedHeaders(Normalized(defaults.names, defaults.fields), userHeaders, host)
  {
    request := new HttpRequest(host, defaults);
    request.region, request.verb, request.body := region, verb, body;
    NormalizeHeaders(request.headers);
    request.headers.Assign(map["user-agent" := USER_AGENT]);
    request.headers.Assign(userHeaders);
    request.headers.Assign(map["host" := request.host]);
  }
}
