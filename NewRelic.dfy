/**
 * The New Relic application commands (NewRelicPlugin.cs): the token-count
 * check and reading the account id out of a command. The REST client and
 * the API key read from configuration are not part of this model.
 */
module NewRelic {
  import opened Wrappers
  import opened Text
  import opened Decimal

  /** `ApplicationTargetedCommandWellFormatted`: exactly four tokens. */
  function ApplicationTargetedCommandWellFormatted(message: string): bool
  {
    |Tokens(message)| == 4
  }

  /** Words typed with single spaces form an application command exactly
      when there are four of them. */
  lemma ApplicationTargetedCommandOfWords(words: seq<string>)
    requires forall i :: 0 <= i < |words| ==> IsWord(words[i])
    ensures ApplicationTargetedCommandWellFormatted(Join(words, " ")) <==> |words| == 4
  {
    TokensOfJoin(words);
  }

  /** The exceptions reading the account id throws: too few tokens
      (IndexOutOfRangeException), or a fourth token that is not an `int`
      (FormatException, OverflowException). */
  datatype AccountIdError = MissingAccountId | InvalidAccountId

  /** `GetAccountIdFromApplicationTargeted`: `int.Parse` of the fourth
      token. */
  function GetAccountIdFromApplicationTargeted(message: string): (id: Result<int, AccountIdError>)
    ensures id.Ok? ==> IsInt32(id.value)
    ensures id == Err(MissingAccountId) <==> |Tokens(message)| < 4
    ensures id == Err(InvalidAccountId) <==>
      |Tokens(message)| >= 4 && ParseInt32(Tokens(message)[3]).None?
  {
    var parts := Tokens(message);
    if |parts| < 4 then Err(MissingAccountId)
    else match ParseInt32(parts[3])
      case None => Err(InvalidAccountId)
      case Some(n) => Ok(n)
  }

  /** An account id typed in decimal as the fourth word is read back. */
  lemma AccountIdRoundTrip(words: seq<string>, accountId: int)
    requires forall i :: 0 <= i < |words| ==> IsWord(words[i])
    requires |words| == 3 && IsInt32(accountId)
    ensures var command := Join(words + [IntToString(accountId)], " ");
      && ApplicationTargetedCommandWellFormatted(command)
      && GetAccountIdFromApplicationTargeted(command) == Ok(accountId)
  {
    var all := words + [IntToString(accountId)];
    IntToStringHasNoSpace(accountId);
    assert forall i :: 0 <= i < |all| ==> IsWord(all[i]);
    TokensOfJoin(all);
    IntToStringRoundTrip(accountId);
  }
}
