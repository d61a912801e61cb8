/**
 * The Cloudflare purge commands (CloudflareMiddleware.cs): the token-count
 * check, picking a token by position, unwrapping a Slack link around a zone
 * name, the help texts, and the two handlers up to the request they hand to
 * the Cloudflare plugin. The plugin itself (HTTP and JSON) is a parameter:
 * the message its result carries for a request.
 */
module Cloudflare {
  import opened Wrappers
  import opened Text

  const Purge: string := "purge"
  const Zone: string := "zone"
  const Tag: string := "tag"
  const ExampleCacheTag: string := "PROD-MyApp"
  const ExampleZoneTail: string := "ashleypoole.co.uk`"
  const NotFormatted: string := "Command was not formatted correctly. Help: "

  /** `CommandWellFormatted`: exactly `requiredCommandLength` tokens. */
  function CommandWellFormatted(message: string, requiredCommandLength: int): bool
  {
    |Tokens(message)| == requiredCommandLength
  }

  /** Words typed with single spaces pass the check for `n` exactly when
      there are `n` of them. */
  lemma CommandWellFormattedOfWords(words: seq<string>, n: int)
    requires forall i :: 0 <= i < |words| ==> IsWord(words[i])
    ensures CommandWellFormatted(Join(words, " "), n) <==> |words| == n
  {
    TokensOfJoin(words);
  }

  /** `GetPositionalElementFromTargetText`: the token at `position`; the
      source indexes the token array, so the position must exist. */
  function GetPositionalElementFromTargetText(messageText: string, position: nat): (element: string)
    requires position < |Tokens(messageText)|
    ensures IsWord(element)
  {
    Tokens(messageText)[position]
  }

  /** The element at a position of words typed with single spaces is the
      word typed there. */
  lemma PositionalElementOfWords(words: seq<string>, position: nat)
    requires forall i :: 0 <= i < |words| ==> IsWord(words[i])
    requires position < |words|
    ensures position < |Tokens(Join(words, " "))|
    ensures GetPositionalElementFromTargetText(Join(words, " "), position) == words[position]
  {
    TokensOfJoin(words);
  }

  /** `GetCleanZoneName`: a name Slack sent as a link `<url|text>` becomes
      the link's text; any other name is kept as it is. */
  function GetCleanZoneName(zoneName: string): (clean: string)
    ensures '|' !in zoneName ==> clean == zoneName
    ensures '|' in zoneName ==> '>' !in clean
  {
    if '|' in zoneName then LinkText(zoneName) else zoneName
  }

  /** A zone name Slack turned into a link is cleaned back to the name. */
  lemma CleanZoneNameOfSlackLink(url: string, zoneName: string)
    requires '|' !in url
    requires '>' !in zoneName
    ensures GetCleanZoneName("<" + url + "|" + zoneName + ">") == zoneName
  {
    LinkTextOfSlackLink(url, zoneName);
  }

  /** The `purge tag` help text: a quoted example command. */
  function GetPurgeCacheTagHelpText(commandPrefix: string): string
  {
    Join(["`" + commandPrefix, Purge, Tag, ExampleCacheTag, ExampleZoneTail], " ")
  }

  /** The `purge zone` help text: a quoted example command. */
  function GetPurgeZoneHelpText(commandPrefix: string): string
  {
    Join(["`" + commandPrefix, Purge, Zone, ExampleZoneTail], " ")
  }

  /** Each help text shows a command of the length its handler accepts. */
  lemma HelpTextsAreWellFormatted(commandPrefix: string)
    requires ' ' !in commandPrefix
    ensures CommandWellFormatted(GetPurgeCacheTagHelpText(commandPrefix), 5)
    ensures CommandWellFormatted(GetPurgeZoneHelpText(commandPrefix), 4)
  {
    var first := "`" + commandPrefix;
    assert IsWord(first) by {
      assert first[0] == '`';
    }
    CommandWellFormattedOfWords([first, Purge, Tag, ExampleCacheTag, ExampleZoneTail], 5);
    CommandWellFormattedOfWords([first, Purge, Zone, ExampleZoneTail], 4);
  }

  /** What a handler asks the Cloudflare plugin to do. */
  datatype PurgeRequest =
    | PurgeZone(zoneName: string)
    | PurgeZoneCacheTag(zoneName: string, cacheTag: string)

  /** A message a handler yields. */
  datatype Response = IndicateTyping | Reply(text: string)

  /** The request of a `purge zone` command: none unless it has four
      tokens; then the cleaned fourth token. */
  function PurgeZoneRequest(targetedText: string): (request: Option<PurgeRequest>)
    ensures request.Some? <==> CommandWellFormatted(targetedText, 4)
  {
    if !CommandWellFormatted(targetedText, 4) then None
    else Some(PurgeZone(GetCleanZoneName(GetPositionalElementFromTargetText(targetedText, 3))))
  }

  /** The request of a `purge tag` command: none unless it has five tokens;
      then the raw fourth token as the tag and the cleaned fifth as zone. */
  function PurgeCacheTagRequest(targetedText: string): (request: Option<PurgeRequest>)
    ensures request.Some? <==> CommandWellFormatted(targetedText, 5)
  {
    if !CommandWellFormatted(targetedText, 5) then None
    else
      var cacheTag := GetPositionalElementFromTargetText(targetedText, 3);
      var zoneName := GetCleanZoneName(GetPositionalElementFromTargetText(targetedText, 4));
      Some(PurgeZoneCacheTag(zoneName, cacheTag))
  }

  /** The responses of a handler: typing, then either the help text or the
      message of the plugin's result. */
  function Responses(request: Option<PurgeRequest>, helpText: string, plugin: PurgeRequest -> string): (rs: seq<Response>)
    ensures |rs| == 2 && rs[0] == IndicateTyping
    ensures request.None? ==> rs[1] == Reply(NotFormatted + helpText)
    ensures request.Some? ==> rs[1] == Reply(plugin(request.value))
  {
    match request
    case None => [IndicateTyping, Reply(NotFormatted + helpText)]
    case Some(r) => [IndicateTyping, Reply(plugin(r))]
  }

  /** `PurgeZone`, the handler of `purge zone`. */
  function PurgeZoneHandler(commandPrefix: string, targetedText: string, plugin: PurgeRequest -> string): (rs: seq<Response>)
    ensures |rs| == 2 && rs[0] == IndicateTyping
    ensures !CommandWellFormatted(targetedText, 4) ==> rs[1] == Reply(NotFormatted + GetPurgeZoneHelpText(commandPrefix))
    ensures CommandWellFormatted(targetedText, 4) ==>
      rs[1] == Reply(plugin(PurgeZone(GetCleanZoneName(Tokens(targetedText)[3]))))
  {
    Responses(PurgeZoneRequest(targetedText), GetPurgeZoneHelpText(commandPrefix), plugin)
  }

  /** `PurgeCacheTag`, the handler of `purge tag`. */
  function PurgeCacheTagHandler(commandPrefix: string, targetedText: string, plugin: PurgeRequest -> string): (rs: seq<Response>)
    ensures |rs| == 2 && rs[0] == IndicateTyping
    ensures !CommandWellFormatted(targetedText, 5) ==> rs[1] == Reply(NotFormatted + GetPurgeCacheTagHelpText(commandPrefix))
    ensures CommandWellFormatted(targetedText, 5) ==>
      rs[1] == Reply(plugin(PurgeZoneCacheTag(GetCleanZoneName(Tokens(targetedText)[4]), Tokens(targetedText)[3])))
  {
    Responses(PurgeCacheTagRequest(targetedText), GetPurgeCacheTagHelpText(commandPrefix), plugin)
  }

  /** A `purge zone` command whose zone Slack sent as a link purges the
      zone named by the link. */
  lemma PurgeZoneOfCommand(words: seq<string>, url: string, zoneName: string, plugin: PurgeRequest -> string, commandPrefix: string)
    requires forall i :: 0 <= i < |words| ==> IsWord(words[i])
    requires |words| == 4 && words[3] == "<" + url + "|" + zoneName + ">"
    requires '|' !in url && '>' !in zoneName
    ensures PurgeZoneHandler(commandPrefix, Join(words, " "), plugin)
      == [IndicateTyping, Reply(plugin(PurgeZone(zoneName)))]
  {
    var text := Join(words, " ");
    PositionalElementOfWords(words, 3);
    CommandWellFormattedOfWords(words, 4);
    CleanZoneNameOfSlackLink(url, zoneName);
    assert GetCleanZoneName(GetPositionalElementFromTargetText(text, 3)) == zoneName;
    assert PurgeZoneRequest(text) == Some(PurgeZone(zoneName));
  }

  /** A `purge tag` command passes its tag on untouched and its zone
      cleaned of a Slack link. */
  lemma PurgeCacheTagOfCommand(words: seq<string>, url: string, zoneName: string, plugin: PurgeRequest -> string, commandPrefix: string)
    requires forall i :: 0 <= i < |words| ==> IsWord(words[i])
    requires |words| == 5 && words[4] == "<" + url + "|" + zoneName + ">"
    requires '|' !in url && '>' !in zoneName
    ensures PurgeCacheTagHandler(commandPrefix, Join(words, " "), plugin)
      == [IndicateTyping, Reply(plugin(PurgeZoneCacheTag(zoneName, words[3])))]
  {
    var text := Join(words, " ");
    PositionalElementOfWords(words, 3);
    PositionalElementOfWords(words, 4);
    CommandWellFormattedOfWords(words, 5);
    CleanZoneNameOfSlackLink(url, zoneName);
    assert GetCleanZoneName(GetPositionalElementFromTargetText(text, 4)) == zoneName;
    assert PurgeCacheTagRequest(text) == Some(PurgeZoneCacheTag(zoneName, words[3]));
  }
}
