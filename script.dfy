/**
 * The top of the script, before any I/O: method and URL from the positional
 * tokens, region (option or inferred), service (always inferred), and the
 * header map from the remaining tokens. The URL normaliser is not part of
 * this model: the URL token is taken as already normalised.
 */
module Script {
  import opened Wrappers
  import opened Cli
  import opened Inference

  datatype Invocation = Invocation(
    verb: string,
    url: string,
    region: string,
    service: string,
    headers: map<string, string>)

  /**
   * Reads the positional tokens and the region option. Failures come in the
   * script's order: a missing URL, then the region, then the service.
   */
  method ParseInvocation(args: seq<string>, regionOption: Option<string>)
    returns (r: Result<Invocation, CliError>)
    requires |args| >= 1
    ensures ChooseMethodAndUrl(args).Failure? ==> r == Failure(MissingUrl)
    ensures ChooseMethodAndUrl(args).Success? ==>
              var split := ChooseMethodAndUrl(args).value;
              var region := ResolveRegion(regionOption, split.url);
              var service := InferService(split.url);
              && (region.None? ==> r == Failure(RegionNotInferred))
              && (region.Some? && service.None? ==> r == Failure(ServiceNotInferred))
              && (region.Some? && service.Some? ==>
                    r == Success(Invocation(split.verb, split.url, region.value, service.value, HeaderMap(split.rest))))
  {
    var split := ChooseMethodAndUrl(args);
    if split.Failure? {
      return Failure(split.error);
    }
    var url := split.value.url;
    var region := ResolveRegion(regionOption, url);
    if region.None? {
      return Failure(RegionNotInferred);
    }
    var service := InferService(url);
    if service.None? {
      return Failure(ServiceNotInferred);
    }
    var headers := ParseHeaderTokens(split.value.rest);
    r := Success(Invocation(split.value.verb, url, region.value, service.value, headers));
  }
}
