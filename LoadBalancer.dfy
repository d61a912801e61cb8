/**
 * The loadbalancer.org commands (LboPlugin.cs, Models/LoadBalancerRequest.cs,
 * Models/ApiRequest.cs): the token-count check, reading a request out of a
 * command, the HTTP Basic credential of an appliance and the body of the
 * API call. Reading appliances from configuration, JSON and HTTP are not
 * part of this model.
 */
module LoadBalancer {
  import opened Wrappers
  import opened Text
  import opened Base64

  /** `CommandWellFormatted`: exactly five tokens. */
  function CommandWellFormatted(message: string): bool
  {
    |Tokens(message)| == 5
  }

  /** Words typed with single spaces form a command exactly when there are
      five of them. */
  lemma CommandOfWords(words: seq<string>)
    requires forall i :: 0 <= i < |words| ==> IsWord(words[i])
    ensures CommandWellFormatted(Join(words, " ")) <==> |words| == 5
  {
    TokensOfJoin(words);
  }

  /** `LoadBalancerRequest`: what a command asks of which appliance. */
  datatype LoadBalancerRequest = LoadBalancerRequest(applianceName: string, command: string, vip: string, rip: string)

  /** Why a command could not be read. */
  datatype RequestError = TooFewTokens

  /** The `LoadBalancerRequest` constructor: tokens one to four. With fewer
      than five tokens the source's indexing throws; here that is an error. */
  function NewLoadBalancerRequest(message: string): (r: Result<LoadBalancerRequest, RequestError>)
    ensures r.Ok? <==> |Tokens(message)| >= 5
  {
    var parts := Tokens(message);
    if |parts| < 5 then Err(TooFewTokens)
    else Ok(LoadBalancerRequest(parts[1], parts[2], parts[3], parts[4]))
  }

  /** The command a request is read from, with any first token. */
  function CommandText(first: string, request: LoadBalancerRequest): string
  {
    Join([first, request.applianceName, request.command, request.vip, request.rip], " ")
  }

  /** A request whose parts are single words is read back from its command
      text. */
  lemma RequestRoundTrip(first: string, request: LoadBalancerRequest)
    requires IsWord(first) && IsWord(request.applianceName) && IsWord(request.command)
    requires IsWord(request.vip) && IsWord(request.rip)
    ensures CommandWellFormatted(CommandText(first, request))
    ensures NewLoadBalancerRequest(CommandText(first, request)) == Ok(request)
  {
    TokensOfJoin([first, request.applianceName, request.command, request.vip, request.rip]);
  }

  /** A well formatted command is exactly the command text of the request
      read from it. */
  lemma RequestOfWellFormatted(message: string)
    requires CommandWellFormatted(message)
    ensures NewLoadBalancerRequest(message).Ok?
    ensures Tokens(CommandText(Tokens(message)[0], NewLoadBalancerRequest(message).value)) == Tokens(message)
  {
    var parts := Tokens(message);
    var request := NewLoadBalancerRequest(message).value;
    assert [parts[0], request.applianceName, request.command, request.vip, request.rip] == parts;
    TokensOfJoin(parts);
  }

  /** The appliance settings the plugin reads; the class that holds them
      is not part of this model beyond these fields. */
  datatype LoadBalancerAppliance = LoadBalancerAppliance(username: string, password: string, apiKey: string)

  /** `AuthenticationHeaderValue`: a scheme and its parameter. */
  datatype AuthenticationHeaderValue = AuthenticationHeaderValue(scheme: string, parameter: string)

  const BasicScheme: string := "Basic"

  /** `GetAuthHeader`: the Basic scheme with the Base64 of the ASCII bytes
      of "username:password". */
  function GetAuthHeader(appliance: LoadBalancerAppliance): (header: AuthenticationHeaderValue)
    ensures header.scheme == BasicScheme
    ensures |header.parameter| % 4 == 0
    ensures Decode(header.parameter) == Some(AsciiBytes(appliance.username + ":" + appliance.password))
  {
    var credential := AsciiBytes(appliance.username + ":" + appliance.password);
    DecodeEncode(credential);
    AuthenticationHeaderValue(BasicScheme, Encode(credential))
  }

  /** Where the first ':' byte is, if there is one. */
  function FirstColon(bytes: seq<byte>): (i: Option<nat>)
    ensures i.Some? ==>
      && i.value < |bytes| && bytes[i.value] == 0x3A
      && forall k :: 0 <= k < i.value ==> bytes[k] != 0x3A
    ensures i.None? ==> forall k :: 0 <= k < |bytes| ==> bytes[k] != 0x3A
  {
    if bytes == [] then None
    else if bytes[0] == 0x3A then Some(0)
    else match FirstColon(bytes[1..])
      case None => None
      case Some(j) => Some(j + 1)
  }

  /** How a server reads a Basic credential (section 2 of RFC 7617): decode
      the Base64 and split at the first colon. */
  function ReadBasicCredential(parameter: string): Option<(seq<byte>, seq<byte>)>
  {
    match Decode(parameter)
    case None => None
    case Some(bytes) =>
      match FirstColon(bytes)
      case None => None
      case Some(i) => Some((bytes[..i], bytes[i + 1..]))
  }

  /** A server reading the header of an appliance whose user name has no
      colon gets back the ASCII bytes of the user name and the password. */
  lemma AuthHeaderCarriesCredentials(appliance: LoadBalancerAppliance)
    requires ':' !in appliance.username
    ensures GetAuthHeader(appliance).scheme == BasicScheme
    ensures ReadBasicCredential(GetAuthHeader(appliance).parameter)
      == Some((AsciiBytes(appliance.username), AsciiBytes(appliance.password)))
  {
    var user, pass := appliance.username, appliance.password;
    var u, p := AsciiBytes(user), AsciiBytes(pass);
    AsciiBytesAppend(user + ":", pass);
    AsciiBytesAppend(user, ":");
    AsciiByteOfColon(':');
    assert AsciiBytes(":") == [0x3A];
    AsciiBytesWithoutColon(user);
    ReadCredentialOfBytes(u, p);
  }

  /** Reading back the Base64 of colon-free bytes, a colon and more bytes
      gives the two runs of bytes. */
  lemma ReadCredentialOfBytes(user: seq<byte>, password: seq<byte>)
    requires 0x3A !in user
    ensures ReadBasicCredential(Encode(user + [0x3A] + password)) == Some((user, password))
  {
    var bytes := user + [0x3A] + password;
    DecodeEncode(bytes);
    FirstColonAfter(user, password);
    assert bytes[..|user|] == user;
    assert bytes[|user| + 1..] == password;
  }

  /** The first colon after colon-free bytes is the one that follows them. */
  lemma FirstColonAfter(front: seq<byte>, back: seq<byte>)
    requires 0x3A !in front
    ensures FirstColon(front + [0x3A] + back) == Some(|front|)
  {
    var bytes := front + [0x3A] + back;
    var i := FirstColon(bytes);
    assert bytes[|front|] == 0x3A;
    if i.None? {
      assert false;
    }
  }

  /** The parts of an `ApiRequest`. */
  datatype Auth = Auth(apikey: string)
  datatype Action = Action(command: string)
  datatype Syntax = Syntax(vip: string, rip: string)

  /** `ApiRequest`: the key, one action and one syntax entry. */
  datatype ApiRequest = ApiRequest(auth: Auth, action: seq<Action>, syntax: seq<Syntax>)

  /** The `ApiRequest` constructor. */
  function NewApiRequest(apiKey: string, command: string, vip: string, rip: string): (r: ApiRequest)
    ensures r.auth.apikey == apiKey
    ensures |r.action| == 1 && r.action[0].command == command
    ensures |r.syntax| == 1 && r.syntax[0].vip == vip && r.syntax[0].rip == rip
  {
    ApiRequest(Auth(apiKey), [Action(command)], [Syntax(vip, rip)])
  }

  /** `GetRequestContent`, before JSON serialisation: the appliance's key
      with the request's command and addresses. */
  function GetRequestContent(appliance: LoadBalancerAppliance, request: LoadBalancerRequest): (r: ApiRequest)
    ensures r.auth.apikey == appliance.apiKey
    ensures |r.action| == 1 && r.action[0].command == request.command
    ensures |r.syntax| == 1 && r.syntax[0].vip == request.vip && r.syntax[0].rip == request.rip
  {
    NewApiRequest(appliance.apiKey, request.command, request.vip, request.rip)
  }

  /** The API call made for a typed command carries the appliance's key and
      exactly the command word and the two addresses that were typed. */
  lemma RequestContentOfCommand(appliance: LoadBalancerAppliance, words: seq<string>)
    requires forall i :: 0 <= i < |words| ==> IsWord(words[i])
    requires |words| == 5
    ensures NewLoadBalancerRequest(Join(words, " ")).Ok?
    ensures GetRequestContent(appliance, NewLoadBalancerRequest(Join(words, " ")).value)
      == ApiRequest(Auth(appliance.apiKey), [Action(words[2])], [Syntax(words[3], words[4])])
  {
    TokensOfJoin(words);
  }
}
