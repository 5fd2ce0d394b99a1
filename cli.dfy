/**
 * The script's reading of its positional arguments: the optional method
 * token, the URL, and the `name:value` header tokens that follow.
 */
module Cli {
  import opened Wrappers
  import opened Text

  /** The first token is taken as a method when it matches `^\w+$`. */
  predicate IsBareWord(s: string) {
    |s| > 0 && forall i :: 0 <= i < |s| ==> IsWordChar(s[i])
  }

  datatype Split = Split(verb: string, url: string, rest: seq<string>)

  datatype CliError =
    | MissingUrl          // a method token with nothing after it: the URL normaliser rejects `undefined`
    | RegionNotInferred   // the region pattern has no match and no region option was given
    | ServiceNotInferred  // the service pattern has no match

  /**
   * Chooses the method and the URL from the positional tokens. The argument
   * parser demands at least one positional token.
   */
  function ChooseMethodAndUrl(args: seq<string>): (r: Result<Split, CliError>)
    requires |args| >= 1
    ensures r.Failure? <==> IsBareWord(args[0]) && |args| == 1
    ensures r.Failure? ==> r.error == MissingUrl
    ensures r.Success? && IsBareWord(args[0]) ==>
              r.value.verb == Upper(args[0]) && args == [args[0], r.value.url] + r.value.rest
    ensures r.Success? && !IsBareWord(args[0]) ==>
              r.value.verb == "GET" && args == [r.value.url] + r.value.rest
  {
    if IsBareWord(args[0]) then
      if |args| >= 2 then
        assert args == [args[0], args[1]] + args[2..];
        Success(Split(Upper(args[0]), args[1], args[2..]))
      else
        Failure(MissingUrl)
    else
      assert args == [args[0]] + args[1..];
      Success(Split("GET", args[0], args[1..]))
  }

  /** A chosen method is a non-empty run of upper-case word characters, or GET. */
  lemma MethodIsUpperWord(args: seq<string>)
    requires |args| >= 1 && ChooseMethodAndUrl(args).Success?
    ensures var m := ChooseMethodAndUrl(args).value.verb;
            IsBareWord(m) && forall i :: 0 <= i < |m| ==> !('a' <= m[i] <= 'z')
  {
    var m := ChooseMethodAndUrl(args).value.verb;
    if IsBareWord(args[0]) {
      forall i | 0 <= i < |m| ensures IsWordChar(m[i]) && !('a' <= m[i] <= 'z') {
        assert IsWordChar(args[0][i]);
      }
    }
  }

  /** JavaScript `s.substr(0, n)`: a negative length gives the empty string. */
  function SubstrPrefix(s: string, n: int): string {
    if n <= 0 then "" else if n >= |s| then s else s[..n]
  }

  /** JavaScript `s.substr(k)` for `k >= 0`. */
  function SubstrFrom(s: string, k: nat): string {
    if k >= |s| then "" else s[k..]
  }

  /**
   * One header token: the lower-cased text before the first colon names the
   * header, everything after that colon (untrimmed) is its value. A token with
   * no colon has `indexOf` -1, so its name is empty and its value is the whole
   * token.
   */
  function ParseHeaderToken(token: string): (h: (string, string))
    ensures IsLowerCase(h.0)
    ensures ':' !in token ==> h.0 == "" && h.1 == token
    ensures ':' in token ==>
              |h.0| < |token| && token[|h.0|] == ':' && ':' !in token[..|h.0|]
              && h.0 == Lower(token[..|h.0|]) && h.1 == token[|h.0| + 1..]
  {
    var pos := IndexOf(token, ':');
    LowerIsLowerCase(SubstrPrefix(token, pos));
    (Lower(SubstrPrefix(token, pos)), SubstrFrom(token, pos + 1))
  }

  /** Every header token with a colon is its name's original spelling, a colon and its value. */
  lemma HeaderTokenRoundTrip(token: string)
    requires ':' in token
    ensures var (name, value) := ParseHeaderToken(token);
            Lower(token[..|name|]) == name && token == token[..|name|] + ":" + value
  {
    var n := |ParseHeaderToken(token).0|;
    assert token == token[..n] + [token[n]] + token[n + 1..];
  }

  function NameOf(token: string): string { ParseHeaderToken(token).0 }

  function ValueOf(token: string): string { ParseHeaderToken(token).1 }

  /** The header map after processing the tokens left to right, later writes winning. */
  function HeaderMap(tokens: seq<string>): map<string, string>
    decreases |tokens|
  {
    if tokens == [] then map[]
    else
      var last := tokens[|tokens| - 1];
      HeaderMap(tokens[..|tokens| - 1])[NameOf(last) := ValueOf(last)]
  }

  /** The header names the tokens produce, in order. */
  function Names(tokens: seq<string>): (names: seq<string>)
    ensures |names| == |tokens|
    ensures forall i :: 0 <= i < |tokens| ==> names[i] == NameOf(tokens[i])
  {
    seq(|tokens|, i requires 0 <= i < |tokens| => NameOf(tokens[i]))
  }

  /** The index of the last occurrence of `name`, or -1. */
  function LastIndex(names: seq<string>, name: string): (i: int)
    ensures -1 <= i < |names|
    ensures 0 <= i ==> names[i] == name
    ensures forall j :: i < j < |names| ==> names[j] != name
    decreases |names|
  {
    if names == [] then -1
    else if names[|names| - 1] == name then |names| - 1
    else LastIndex(names[..|names| - 1], name)
  }

  /**
   * A name is in the header map exactly when some token names it, and its
   * value comes from the last such token: a later token with the same
   * lower-cased name overwrites an earlier one.
   */
  lemma {:induction false} HeaderMapLastWins(tokens: seq<string>, name: string)
    ensures name in HeaderMap(tokens) <==> LastIndex(Names(tokens), name) >= 0
    ensures name in HeaderMap(tokens) ==>
              HeaderMap(tokens)[name] == ValueOf(tokens[LastIndex(Names(tokens), name)])
    decreases |tokens|
  {
    if tokens != [] {
      var init := tokens[..|tokens| - 1];
      HeaderMapLastWins(init, name);
      assert Names(tokens)[..|tokens| - 1] == Names(init);
    }
  }

  /** Every header name the tokens produce is lower-case. */
  lemma {:induction false} HeaderMapKeysLowerCase(tokens: seq<string>)
    ensures forall k :: k in HeaderMap(tokens) ==> IsLowerCase(k)
    decreases |tokens|
  {
    if tokens != [] {
      HeaderMapKeysLowerCase(tokens[..|tokens| - 1]);
    }
  }

  lemma HeaderMapSnoc(tokens: seq<string>, token: string)
    ensures HeaderMap(tokens + [token]) == HeaderMap(tokens)[NameOf(token) := ValueOf(token)]
  {
    assert (tokens + [token])[..|tokens|] == tokens;
  }

  /** The header-token loop: shifts tokens off the list and writes each into the map. */
  method ParseHeaderTokens(args: seq<string>) returns (headers: map<string, string>)
    ensures headers == HeaderMap(args)
  {
    headers := map[];
    var rest := args;
    ghost var done: seq<string> := [];
    while |rest| > 0
      invariant args == done + rest
      invariant headers == HeaderMap(done)
    {
      var arg := rest[0];
      rest := rest[1..];
      var pos := IndexOf(arg, ':');
      assert Lower(SubstrPrefix(arg, pos)) == NameOf(arg) && SubstrFrom(arg, pos + 1) == ValueOf(arg);
      headers := headers[Lower(SubstrPrefix(arg, pos)) := SubstrFrom(arg, pos + 1)];
      HeaderMapSnoc(done, arg);
      done := done + [arg];
    }
    assert done == args;
  }
}
