/**
 * The DNS lookup command (DnsMiddleware.cs, DnsPlugin.cs): the token-count
 * check, the help text, taking the host out of the command, rendering the
 * addresses found, and the handler's replies. Resolving a host is a
 * parameter: the renderings of the addresses found, or None when the lookup
 * throws or returns null.
 */
module Dns {
  import opened Wrappers
  import opened Text

  const CommandPrefix: string := "dns"
  const Lookup: string := "lookup"
  const ActionPlaceholder: string := "||action||"
  const ExampleHost: string := "www.ashleypoole.co.uk`"
  const HelpTail: string := " " + ExampleHost
  /** The help text before the action is put in. */
  const HelpTemplate: string := "`" + CommandPrefix + " " + ActionPlaceholder + HelpTail
  const NotFormatted: string := "Command was not formatted correctly. Help: "
  const ErrorBefore: string := "Error looking up requested host '"
  const ErrorAfter: string := "'. No result were returned."
  const ResultBefore: string := "dns lookup for '"
  const ResultAfter: string := "' returned: "
  const AddressSeparator: string := ", "

  /** `DnsLookupCommandWellFormatted`: exactly three tokens. */
  function DnsLookupCommandWellFormatted(message: string): bool
  {
    |Tokens(message)| == 3
  }

  /** Words typed with single spaces form a lookup command exactly when
      there are three of them. */
  lemma DnsLookupCommandOfWords(words: seq<string>)
    requires forall i :: 0 <= i < |words| ==> IsWord(words[i])
    ensures DnsLookupCommandWellFormatted(Join(words, " ")) <==> |words| == 3
  {
    TokensOfJoin(words);
  }

  /** `GetHelpText`: the template with the action put in. */
  function GetHelpText(command: string): string
  {
    Replace(HelpTemplate, ActionPlaceholder, command)
  }

  /** The help text is the quoted example command with the given action
      in the second place, whatever the action is. */
  lemma HelpTextNamesCommand(command: string)
    ensures GetHelpText(command) == "`" + CommandPrefix + " " + command + HelpTail
  {
    var head := "`" + CommandPrefix + " ";
    assert HelpTemplate == head + (ActionPlaceholder + HelpTail);
    ReplaceSkipsPrefix(head, ActionPlaceholder + HelpTail, ActionPlaceholder, command);
    assert (ActionPlaceholder + HelpTail)[..|ActionPlaceholder|] == ActionPlaceholder;
    assert (ActionPlaceholder + HelpTail)[|ActionPlaceholder|..] == HelpTail;
    ReplaceSkipsPrefix(HelpTail, "", ActionPlaceholder, command);
    assert HelpTail + "" == HelpTail;
  }

  /** The example in the lookup help text is itself a well formatted
      lookup command. */
  lemma LookupHelpTextIsWellFormatted()
    ensures DnsLookupCommandWellFormatted(GetHelpText(Lookup))
  {
    HelpTextNamesCommand(Lookup);
    var words := ["`" + CommandPrefix, Lookup, ExampleHost];
    JoinThree(words[0], Lookup, ExampleHost, " ");
    assert IsWord(words[0]) && IsWord(Lookup) && IsWord(ExampleHost);
    assert Join(words, " ") == GetHelpText(Lookup);
    DnsLookupCommandOfWords(words);
  }

  /** `GetHostFromMessage` as written (DnsMiddleware.cs and DnsPlugin.cs
      alike): when the third token is not a Slack link, it gives back the
      whole message instead of that token. */
  function GetHostFromMessageAsWritten(messageText: string): (host: string)
    requires |Tokens(messageText)| >= 3
    ensures '|' in Tokens(messageText)[2] ==> '>' !in host
    ensures '|' !in Tokens(messageText)[2] ==> host == messageText
  {
    var hostText := Tokens(messageText)[2];
    if '|' in hostText then LinkText(hostText) else messageText
  }

  /** A lookup of a plain address, which Slack does not turn into a link,
      asks the resolver about the whole command, spaces and all, and never
      about the address. */
  lemma HostAsWrittenIsWholeCommand(address: string)
    requires IsWord(address) && '|' !in address
    ensures var command := Join([CommandPrefix, Lookup, address], " ");
      && DnsLookupCommandWellFormatted(command)
      && GetHostFromMessageAsWritten(command) == command
      && GetHostFromMessageAsWritten(command) != address
      && ' ' in GetHostFromMessageAsWritten(command)
  {
    var words := [CommandPrefix, Lookup, address];
    var command := Join(words, " ");
    TokensOfJoin(words);
    JoinThree(CommandPrefix, Lookup, address, " ");
    assert command[|CommandPrefix|] == ' ';
  }

  /** The host of a lookup command: the third token, unwrapped when Slack
      sent it as a link `<url|text>`. */
  function GetHostFromMessage(messageText: string): (host: string)
    requires |Tokens(messageText)| >= 3
    ensures '|' !in Tokens(messageText)[2] ==> host == Tokens(messageText)[2] && IsWord(host)
    ensures '|' in Tokens(messageText)[2] ==> '>' !in host
  {
    var hostText := Tokens(messageText)[2];
    if '|' in hostText then LinkText(hostText) else hostText
  }

  /** The host of a command typed as words is the third word, or the text
      of the link Slack made of it. */
  lemma HostOfCommand(words: seq<string>, url: string, text: string)
    requires forall i :: 0 <= i < |words| ==> IsWord(words[i])
    requires |words| >= 3
    ensures |Tokens(Join(words, " "))| >= 3
    ensures '|' !in words[2] ==> GetHostFromMessage(Join(words, " ")) == words[2]
    ensures words[2] == "<" + url + "|" + text + ">" && '|' !in url && '>' !in text ==>
      GetHostFromMessage(Join(words, " ")) == text
  {
    TokensOfJoin(words);
    if words[2] == "<" + url + "|" + text + ">" && '|' !in url && '>' !in text {
      LinkTextOfSlackLink(url, text);
    }
  }

  /** The text the address loop has built after the given addresses: a
      separator goes before an address only when the text so far is not
      blank. */
  function AddressListText(ipAddresses: seq<string>): string
  {
    if ipAddresses == [] then ""
    else
      var before := AddressListText(ipAddresses[..|ipAddresses| - 1]);
      (if IsBlank(before) then before else before + AddressSeparator) + ipAddresses[|ipAddresses| - 1]
  }

  /** Joining a sequence extended by one element. */
  lemma {:induction false} JoinSnoc(parts: seq<string>, last: string, sep: string)
    requires parts != []
    ensures Join(parts + [last], sep) == Join(parts, sep) + sep + last
  {
    if |parts| == 1 {
      assert parts + [last] == [parts[0], last];
    } else {
      JoinSnoc(parts[1..], last, sep);
      assert (parts + [last])[1..] == parts[1..] + [last];
    }
  }

  /** A text that ends with a non-blank piece is not blank. */
  lemma EndsNonBlank(front: string, back: string)
    requires !IsBlank(back)
    ensures !IsBlank(front + back)
  {
    var i :| 0 <= i < |back| && !IsWhiteSpace(back[i]);
    assert (front + back)[|front| + i] == back[i];
  }

  /** Real addresses never render blank, and then the loop's text is the
      addresses joined by ", ". */
  lemma {:induction false} AddressListTextJoins(ipAddresses: seq<string>)
    requires forall i :: 0 <= i < |ipAddresses| ==> !IsBlank(ipAddresses[i])
    ensures AddressListText(ipAddresses) == Join(ipAddresses, AddressSeparator)
    ensures ipAddresses != [] ==> !IsBlank(AddressListText(ipAddresses))
  {
    if ipAddresses != [] {
      var n := |ipAddresses|;
      var front, last := ipAddresses[..n - 1], ipAddresses[n - 1];
      AddressListTextJoins(front);
      assert ipAddresses == front + [last];
      if front != [] {
        JoinSnoc(front, last, AddressSeparator);
      } else {
        assert ipAddresses == [last];
      }
      EndsNonBlank(if IsBlank(AddressListText(front)) then AddressListText(front)
        else AddressListText(front) + AddressSeparator, last);
    }
  }

  /** `GetIpAddressesAsText`, the same loop in DnsMiddleware.cs and
      DnsPlugin.cs; each address is given as its `ToString()` rendering. */
  method GetIpAddressesAsText(ipAddresses: seq<string>) returns (text: string)
    ensures text == AddressListText(ipAddresses)
    ensures (forall i :: 0 <= i < |ipAddresses| ==> !IsBlank(ipAddresses[i])) ==>
      text == Join(ipAddresses, AddressSeparator)
  {
    text := "";
    for i := 0 to |ipAddresses|
      invariant text == AddressListText(ipAddresses[..i])
    {
      if !IsBlank(text) {
        text := text + AddressSeparator;
      }
      text := text + ipAddresses[i];
      assert ipAddresses[..i + 1][..i] == ipAddresses[..i];
    }
    assert ipAddresses[..|ipAddresses|] == ipAddresses;
    if forall i :: 0 <= i < |ipAddresses| ==> !IsBlank(ipAddresses[i]) {
      AddressListTextJoins(ipAddresses);
    }
  }

  /** `DnsLookupHandler`: the help text for a command that is not three
      tokens; otherwise the host `GetHostFromMessage` gives, as written, is
      resolved and the reply names it and either the failure or the
      addresses. The typing indicator the handler creates is never yielded,
      so no other message is sent. */
  method DnsLookupHandler(targetedText: string, resolve: string -> Option<seq<string>>)
    returns (replies: seq<string>)
    ensures !DnsLookupCommandWellFormatted(targetedText) ==>
      replies == [NotFormatted + GetHelpText(Lookup)]
    ensures DnsLookupCommandWellFormatted(targetedText) ==>
      var host := GetHostFromMessageAsWritten(targetedText);
      && |replies| == 1
      && (resolve(host).None? ==> replies[0] == ErrorBefore + host + ErrorAfter)
      && (resolve(host).Some? ==>
            replies[0] == ResultBefore + host + ResultAfter + AddressListText(resolve(host).value))
  {
    if !DnsLookupCommandWellFormatted(targetedText) {
      replies := [NotFormatted + GetHelpText(Lookup)];
      return;
    }
    var host := GetHostFromMessageAsWritten(targetedText);
    match resolve(host)
    case None =>
      replies := [ErrorBefore + host + ErrorAfter];
    case Some(ipAddresses) =>
      var text := GetIpAddressesAsText(ipAddresses);
      replies := [ResultBefore + host + ResultAfter + text];
  }
}
