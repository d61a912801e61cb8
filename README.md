# Noobot modules — a Dafny model

This project models the core of the Noobot.Modules chat-bot plugins:

- **Incident management.** A user declares an incident. The plugin binds it to the first free war-room channel, stores it in an Azure table under the key (declaration date, next number of that date) and announces it. Later commands resolve it, attach a postmortem link and close it, each announced in the main incident channel and the war room. Two commands list the open incidents and those of the last seven days.
- **Cloudflare.** The `purge zone` and `purge tag` commands are checked, and their zone is unwrapped from a Slack link.
- **DNS.** The `dns lookup` command: its help text, the host it asks about and the reply listing the addresses found.
- **loadbalancer.org.** A request is read out of a five-word command. The HTTP Basic header of an appliance and the body of the API call are built.
- **New Relic.** The four-word application commands and reading their account id.

Modules:

- `Text`: the string operations the code relies on.
  - `Split(" ", RemoveEmptyEntries)` is `Tokens`; `Split(',')` is `SplitOn`.
  - `Replace`, `Trim` and the Slack-link unwrapping are modelled as well.
- `Decimal`: `int.Parse` and the decimal rendering of an `int`.
- `Calendar`: civil dates and the `yyyy-MM-dd` partition key. Its string order is proved to be the date order.
- `IncidentModels`, `IncidentText`, `IncidentStorage`, `IncidentPlugin`: the incident-management modules.
- `Cloudflare`, `Dns`, `Base64`, `LoadBalancer`, `NewRelic`: the other modules. `Base64` is the encoding the Basic header uses.

Inputs the modules do not compute are parameters:

- the clock reading;
- the fresh `Guid`;
- the culture-dependent timestamp rendering;
- the chat workspace's channel directory;
- the configured blank topic;
- the DNS resolver;
- the Cloudflare plugin's answer.

State that the source changes in place is modelled by classes:

- the `Incident` entity;
- the table behind the storage client, a sequence of stored rows;
- the chat connection, which keeps a log of everything posted or set;
- the plugin with its configuration.

The code decides three points of the behaviour:

- closing requires a resolved incident that has a postmortem (IncidentManagementPlugin.cs:147);
- the next row key is one more than the key of the latest-declared incident of that date (IncidentManagementStorageClient.cs:49);
- resolve, postmortem and close find their incident by chat channel id (IncidentManagementPlugin.cs:102, 124 and 145).

## Model

| member | source | states |
|---|---|---|
| Text.Tokens | src/Noobot.Modules.Cloudflare/CloudflareMiddleware.cs:81 | every token of a space split with empty entries removed is a non-empty word without spaces |
| Text.TokensKeepEveryNonSpace | src/Noobot.Modules.Cloudflare/CloudflareMiddleware.cs:81 | the tokens, concatenated, are the message with its spaces removed: splitting loses nothing but spaces |
| Text.TokensOfJoin | src/Noobot.Modules.LoadBalancerDotOrg/Models/LoadBalancerRequest.cs:9 | words typed with single spaces split back into exactly those words |
| Text.SplitOn | src/Noobot.Modules.IncidentManagement/IncidentManagementPlugin.cs:45 | `Split(',')` gives at least one part and no part contains the separator |
| Text.JoinSplitOn | src/Noobot.Modules.IncidentManagement/IncidentManagementPlugin.cs:45 | joining the parts with the separator gives back the configured string |
| Text.SplitOnJoin | src/Noobot.Modules.IncidentManagement/IncidentManagementPlugin.cs:45 | a list of war rooms without commas, joined by commas, splits back into the same list |
| Text.RemoveChar | src/Noobot.Modules.Cloudflare/CloudflareMiddleware.cs:101 | the result has no occurrence of the removed character and is no longer than the input |
| Text.Replace | src/Noobot.Modules.IncidentManagement/TextHelper.cs:9 | ordinal `Replace` of every non-overlapping occurrence, scanning left to right; its behaviour is stated by `ReplaceAbsent`, `ReplaceSkipsPrefix` and `ReplaceCharByNothing` |
| Text.ReplaceAbsent | src/Noobot.Modules.IncidentManagement/TextHelper.cs:9 | replacing a pattern that does not occur leaves the text unchanged |
| Text.ReplaceSkipsPrefix | src/Noobot.Modules.Dns/DnsMiddleware.cs:71 | a prefix that cannot start the pattern is kept in front of the replaced rest |
| Text.ReplaceCharByNothing | src/Noobot.Modules.Cloudflare/CloudflareMiddleware.cs:101 | replacing a one-character pattern by the empty string removes every occurrence of that character |
| Text.LeadingWhiteSpace | src/Noobot.Modules.IncidentManagement/TextHelper.cs:9 | the count of leading white-space characters: all of them white, the next one not |
| Text.TrailingWhiteSpace | src/Noobot.Modules.IncidentManagement/TextHelper.cs:9 | the count of trailing white-space characters: all of them white, the one before not |
| Text.TrimIsMiddle | src/Noobot.Modules.IncidentManagement/TextHelper.cs:9 | `Trim` gives a contiguous middle part of its input that is empty or starts and ends with a non-white character |
| Text.TrimCutsWhiteSpace | src/Noobot.Modules.IncidentManagement/TextHelper.cs:9 | everything `Trim` cuts off, on either side, is white space |
| Text.Trim | src/Noobot.Modules.IncidentManagement/TextHelper.cs:9 | the trimmed text is never longer than the input; `TrimIsMiddle` and `TrimCutsWhiteSpace` say which part it is |
| Text.IndexOf | src/Noobot.Modules.Cloudflare/CloudflareMiddleware.cs:101 | the ordinal index of the first occurrence of a character that occurs |
| Text.LinkText | src/Noobot.Modules.Cloudflare/CloudflareMiddleware.cs:101 | the text after the first '\|' with every '>' removed, so it holds no '>' |
| Text.LinkTextOfSlackLink | src/Noobot.Modules.Dns/DnsMiddleware.cs:77 | a Slack link `<url\|text>` whose url has no '\|' and whose text has no '>' unwraps to its text |
| Decimal.Wrap32 | src/Noobot.Modules.IncidentManagement/IncidentManagementStorageClient.cs:49 | the 32-bit wrap-around of an unchecked `+ 1`: in range, the identity on values in range, congruent modulo 2^32 |
| Decimal.Wrap32OfMax | src/Noobot.Modules.IncidentManagement/IncidentManagementStorageClient.cs:49 | one past `int.MaxValue` wraps to `int.MinValue` |
| Decimal.ParseInt32 | src/Noobot.Modules.NewRelic/NewRelicPlugin.cs:48 | `int.Parse` accepts only values of `int` range; the text it accepts is white space, a sign, digits, white space and then any run of '\0' up to the end |
| Decimal.ParseIgnoresTrailingNul | src/Noobot.Modules.NewRelic/NewRelicPlugin.cs:48 | a '\0' appended to any text leaves the parse unchanged, so `int.Parse("5\0")` is 5 |
| Decimal.NulBeforeWhiteRejected | src/Noobot.Modules.NewRelic/NewRelicPlugin.cs:48 | any text ending in '\0' then a space is rejected, so `int.Parse("5\0 ")` throws |
| Decimal.DigitsValueOfNatToString | src/Noobot.Modules.IncidentManagement/Models/Incident.cs:106-109 | reading back the digits of a rendered natural number gives the number |
| Decimal.IntToStringRoundTrip | src/Noobot.Modules.IncidentManagement/IncidentManagementStorageClient.cs:49 | a row key rendered from an `int` parses back to that `int` |
| Decimal.IntToString | src/Noobot.Modules.IncidentManagement/Models/Incident.cs:106-109 | `int.ToString()`: a non-empty text, '-' then the digits for a negative number; parsed back by `IntToStringRoundTrip` |
| Decimal.IntToStringInjective | src/Noobot.Modules.IncidentManagement/Models/Incident.cs:106-109 | distinct row-key numbers render as distinct strings |
| Decimal.IntToStringHasNoSpace | src/Noobot.Modules.NewRelic/NewRelicPlugin.cs:47 | a rendered number is a single token |
| Calendar.PrevDay | src/Noobot.Modules.IncidentManagement/IncidentManagementStorageClient.cs:124 | the day before a valid date: a valid, earlier date with no valid date strictly between the two; only 0001-01-01 has none, where `AddDays` throws |
| Calendar.DaysBefore | src/Noobot.Modules.IncidentManagement/IncidentManagementStorageClient.cs:124 | `AddDays(-n)` gives a valid date, earlier when n > 0 |
| Calendar.DaysBeforeStep | src/Noobot.Modules.IncidentManagement/IncidentManagementStorageClient.cs:124 | going back n + 1 days is going back n days and then to the previous day, so `DaysBefore` steps back exactly one day at a time |
| Calendar.Pad | src/Noobot.Modules.IncidentManagement/Models/Incident.cs:12 | a zero-padded field has exactly the width asked for and is all digits |
| Calendar.PadValue | src/Noobot.Modules.IncidentManagement/Models/Incident.cs:12 | a zero-padded field reads back as its number |
| Calendar.PadOrder | src/Noobot.Modules.IncidentManagement/IncidentManagementStorageClient.cs:121-124 | padded fields of one width compare as strings exactly as their numbers do |
| Calendar.PadCompare | src/Noobot.Modules.IncidentManagement/IncidentManagementStorageClient.cs:121-124 | padded fields are equal exactly when their numbers are, and ordered exactly as they are |
| Calendar.DashedOrder | src/Noobot.Modules.IncidentManagement/IncidentManagementStorageClient.cs:121-124 | dash-separated keys compare field by field |
| Calendar.MonthDayKeyOrder | src/Noobot.Modules.IncidentManagement/IncidentManagementStorageClient.cs:121-124 | the `MM-dd` part is equal exactly for the same month and day, and ordered as the dates are |
| Calendar.DateKeyOrder | src/Noobot.Modules.IncidentManagement/IncidentManagementStorageClient.cs:121-124 | the `GreaterThanOrEqual` string comparison of `yyyy-MM-dd` keys is exactly the date order |
| Calendar.DateKey | src/Noobot.Modules.IncidentManagement/Models/Incident.cs:12 | `ToString("yyyy-MM-dd")`: ten characters, four, two and two digits separated by '-' |
| Calendar.DateKeyInjective | src/Noobot.Modules.IncidentManagement/Models/Incident.cs:12 | two valid dates with the same partition key are the same date |
| IncidentModels.NewChannel | src/Noobot.Modules.IncidentManagement/Models/Channel.cs:5-9 | a channel holds the id and name it was built with; the id may be null |
| IncidentModels.IncidentRow.FriendlyStatus | src/Noobot.Modules.IncidentManagement/Models/Incident.cs:60-83 | IN-PROGRESS, RESOLVED, CLOSED or UNKNOWN, each exactly for its combination of the resolved and closed flags |
| IncidentModels.NewIncidentRow | src/Noobot.Modules.IncidentManagement/Models/Incident.cs:9-22 | a new incident is keyed by the date of the one clock reading the model takes (see Left out), carries the title, channel and declarer, and is neither resolved nor closed, with no row key and no postmortem |
| IncidentModels.FriendlyIdIdentifiesKeys | src/Noobot.Modules.IncidentManagement/Models/Incident.cs:58 | two incidents keyed by a date and a number with the same friendly id have the same keys |
| IncidentModels.IncidentRow.FriendlyId | src/Noobot.Modules.IncidentManagement/Models/Incident.cs:58 | the partition key, a '-', then the row key |
| IncidentModels.Incident.constructor | src/Noobot.Modules.IncidentManagement/Models/Incident.cs:9-22 | the new entity's properties are those of `NewIncidentRow` |
| IncidentModels.Incident.FromRow | src/Noobot.Modules.IncidentManagement/Models/Incident.cs:24-26 | the parameterless constructor, filled in by the table, holds exactly the stored row |
| IncidentModels.Incident.MarkAsResolved | src/Noobot.Modules.IncidentManagement/Models/Incident.cs:85-90 | sets the resolved flag, who resolved it and when; nothing else changes |
| IncidentModels.Incident.AddPostmortem | src/Noobot.Modules.IncidentManagement/Models/Incident.cs:92-97 | sets the postmortem link, who added it and when; nothing else changes |
| IncidentModels.Incident.MarkAsClosed | src/Noobot.Modules.IncidentManagement/Models/Incident.cs:99-104 | sets the closed flag, who closed it and when; nothing else changes |
| IncidentModels.Incident.SetRowKey | src/Noobot.Modules.IncidentManagement/Models/Incident.cs:106-109 | the row key becomes the decimal rendering of the number; nothing else changes |
| IncidentText.GetIncidentText | src/Noobot.Modules.IncidentManagement/TextHelper.cs:7-10 | the title is empty or starts and ends with a non-white character; a message without the prefix is only trimmed |
| IncidentText.GetIncidentTextOfCommand | src/Noobot.Modules.IncidentManagement/TextHelper.cs:7-10 | a command that is the prefix and a rest not containing the prefix gives the trimmed rest |
| IncidentText.JoinEndsWithLast | src/Noobot.Modules.IncidentManagement/TextHelper.cs:12-18 | lines joined by a separator end with the last line |
| IncidentText.LabelsAreOneLine | src/Noobot.Modules.IncidentManagement/TextHelper.cs:12-43 | none of the fixed labels of the announcement texts contains a line break |
| IncidentText.MainChannelLines | src/Noobot.Modules.IncidentManagement/TextHelper.cs:12-18 | four lines, the last the description; with one-line fields each line is one line |
| IncidentText.GetNewIncidentTextForMainIncidentChannel | src/Noobot.Modules.IncidentManagement/TextHelper.cs:12-18 | the declaration text ends with the description line |
| IncidentText.GetNewIncidentTextForWarRoomChannel | src/Noobot.Modules.IncidentManagement/TextHelper.cs:20-24 | the war-room text names the friendly id, the title and the declarer, and tells how to resolve |
| IncidentText.ResolvedLines | src/Noobot.Modules.IncidentManagement/TextHelper.cs:26-33 | five lines, the last the description |
| IncidentText.GetResolvedIncidentTextWithoutIncidentId | src/Noobot.Modules.IncidentManagement/TextHelper.cs:26-33 | the resolution text ends with the description line |
| IncidentText.ClosedLines | src/Noobot.Modules.IncidentManagement/TextHelper.cs:35-43 | six lines, the last the description |
| IncidentText.GetClosedIncidentTextWithoutIncidentId | src/Noobot.Modules.IncidentManagement/TextHelper.cs:35-43 | the closing text ends with the description line |
| IncidentStorage.Query | src/Noobot.Modules.IncidentManagement/IncidentManagementStorageClient.cs:38-39 | a filter query returns at most the stored rows |
| IncidentStorage.QueryMembers | src/Noobot.Modules.IncidentManagement/IncidentManagementStorageClient.cs:104-105 | a row is in the result exactly when it is stored and meets the filter condition |
| IncidentStorage.QueryAppend | src/Noobot.Modules.IncidentManagement/IncidentManagementStorageClient.cs:38-39 | querying a table with rows appended gives the old result followed by the matching new rows |
| IncidentStorage.QueryCountOfUpdate | src/Noobot.Modules.IncidentManagement/IncidentManagementStorageClient.cs:96-100 | replacing a row by one that meets the condition equally keeps the result's size |
| IncidentStorage.LatestIndex | src/Noobot.Modules.IncidentManagement/IncidentManagementStorageClient.cs:75 | `OrderByDescending(DeclaredDateTimeUtc).First()`: no row is declared later, and every earlier-listed row is declared strictly earlier |
| IncidentStorage.Latest | src/Noobot.Modules.IncidentManagement/IncidentManagementStorageClient.cs:91 | none exactly for an empty result; otherwise a returned row declared no earlier than any other |
| IncidentStorage.Inserted | src/Noobot.Modules.IncidentManagement/IncidentManagementStorageClient.cs:58-62 | `Insert` fails without a row key and on a key conflict, and otherwise appends the row and keeps the rest |
| IncidentStorage.ReplaceKey | src/Noobot.Modules.IncidentManagement/IncidentManagementStorageClient.cs:96-100 | every stored row with the same keys is replaced and every other row is kept |
| IncidentStorage.Replaced | src/Noobot.Modules.IncidentManagement/IncidentManagementStorageClient.cs:96-100 | `Replace` succeeds exactly when a row with the same keys is stored, else fails with entity-not-found |
| IncidentStorage.NextRowKey | src/Noobot.Modules.IncidentManagement/IncidentManagementStorageClient.cs:36-56 | 1 for an empty date; otherwise the latest-declared row's key + 1 with 32-bit wrap-around, or an error when that key is missing or not an `int` |
| IncidentStorage.RecentIncidents | src/Noobot.Modules.IncidentManagement/IncidentManagementStorageClient.cs:118-135 | fails exactly when seven days before today is not a date |
| IncidentStorage.RecentIncidentsWindow | src/Noobot.Modules.IncidentManagement/IncidentManagementStorageClient.cs:118-135 | when eight days back is a date, the result is Ok and holds exactly the stored incidents declared on or after the day seven days before today, a day later than eight days before |
| IncidentStorage.RecentIncidentsBoundary | src/Noobot.Modules.IncidentManagement/IncidentManagementStorageClient.cs:118-135 | an incident declared exactly seven days before today is returned; one declared eight days before is not |
| IncidentStorage.RecentWindow | src/Noobot.Modules.IncidentManagement/IncidentManagementStorageClient.cs:121-124 | every stored incident declared on or after the window's first day is returned |
| IncidentStorage.KeysSequentialPrefix | src/Noobot.Modules.IncidentManagement/IncidentManagementStorageClient.cs:36-56 | the numbered-key invariant holds on every prefix of the table |
| IncidentStorage.QueryChronological | src/Noobot.Modules.IncidentManagement/IncidentManagementStorageClient.cs:38-39 | a query of a table in declaration order is in declaration order |
| IncidentStorage.KeysOfPartition | src/Noobot.Modules.IncidentManagement/IncidentManagementStorageClient.cs:36-56 | in a table kept by this store, the k-th incident of a date has row key k + 1 |
| IncidentStorage.KeysDistinct | src/Noobot.Modules.IncidentManagement/IncidentManagementStorageClient.cs:58-62 | two stored incidents never share both keys |
| IncidentStorage.LatestIsLast | src/Noobot.Modules.IncidentManagement/IncidentManagementStorageClient.cs:49 | in a result in declaration order the latest-declared row is the last one |
| IncidentStorage.NextRowKeyAfter | src/Noobot.Modules.IncidentManagement/IncidentManagementStorageClient.cs:49 | when the latest-declared incident of a date has key n (any `int`), the next key is n + 1, and `int.MinValue` after `int.MaxValue` |
| IncidentStorage.NextRowKeyCounts | src/Noobot.Modules.IncidentManagement/IncidentManagementStorageClient.cs:36-56 | in a table kept by this store, the next key of a date is its number of incidents plus one |
| IncidentStorage.AppendKeepsSequential | src/Noobot.Modules.IncidentManagement/IncidentManagementStorageClient.cs:58-62 | appending a row keyed one past its date's count keeps keys numbered from 1 in declaration order |
| IncidentStorage.InsertNextKeepsSequential | src/Noobot.Modules.IncidentManagement/IncidentManagementStorageClient.cs:58-62 | appending a row keyed with the next key of its date keeps keys numbered from 1 in declaration order |
| IncidentStorage.IncidentStore.constructor | src/Noobot.Modules.IncidentManagement/IncidentManagementStorageClient.cs:33 | the incidents table starts empty |
| IncidentStorage.IncidentStore.ExecuteQuery | src/Noobot.Modules.IncidentManagement/IncidentManagementStorageClient.cs:110-113 | a query returns the matching rows in table order, without changing the table |
| IncidentStorage.IncidentStore.GetNextRowKey | src/Noobot.Modules.IncidentManagement/IncidentManagementStorageClient.cs:36-56 | returns `NextRowKey` of its date |
| IncidentStorage.IncidentStore.PersistNewIncident | src/Noobot.Modules.IncidentManagement/IncidentManagementStorageClient.cs:58-62 | the table grows by exactly the incident's row; it is unchanged on error |
| IncidentStorage.IncidentStore.GetIncidentByChannelName | src/Noobot.Modules.IncidentManagement/IncidentManagementStorageClient.cs:64-78 | null when the channel name has no incident; otherwise a fresh entity holding the latest-declared one |
| IncidentStorage.IncidentStore.GetIncidentByChannelId | src/Noobot.Modules.IncidentManagement/IncidentManagementStorageClient.cs:80-94 | null when the channel id has no incident; otherwise a fresh entity holding the latest-declared one |
| IncidentStorage.IncidentStore.UpdateIncident | src/Noobot.Modules.IncidentManagement/IncidentManagementStorageClient.cs:96-100 | the row with the incident's keys is replaced; the table is unchanged on error |
| IncidentStorage.IncidentStore.GetOpenIncidents | src/Noobot.Modules.IncidentManagement/IncidentManagementStorageClient.cs:102-116 | exactly the stored incidents that are not closed |
| IncidentStorage.IncidentStore.GetRecentIncidents | src/Noobot.Modules.IncidentManagement/IncidentManagementStorageClient.cs:118-135 | the incidents whose partition key is on or after seven days before today |
| IncidentPlugin.ChatConnection.Post | src/Noobot.Modules.IncidentManagement/IncidentManagementPlugin.cs:215-222 | one message is appended to what has been sent; the channel directory is unchanged |
| IncidentPlugin.IncidentCommandOfWords | src/Noobot.Modules.IncidentManagement/IncidentManagementPlugin.cs:57-60 | a command typed as words is well formatted exactly when it has at least three words |
| IncidentPlugin.IncidentCommandUserInputWellFormatted | src/Noobot.Modules.IncidentManagement/IncidentManagementPlugin.cs:57-60 | at least three space-separated words; `IncidentCommandOfWords` states it for typed words |
| IncidentPlugin.ChannelIdNamed | src/Noobot.Modules.IncidentManagement/IncidentManagementPlugin.cs:273-276 | none exactly when no channel has the name; otherwise the id of the first channel with that name |
| IncidentPlugin.FreeWarRoom | src/Noobot.Modules.IncidentManagement/IncidentManagementPlugin.cs:264-281 | none exactly when every war room holds an open incident; otherwise the first free room in configured order with its channel id |
| IncidentPlugin.Occupied | src/Noobot.Modules.IncidentManagement/IncidentManagementPlugin.cs:270-271 | a room whose latest-declared incident is not closed; `AtMostOneOpenPerRoom` proves this is exactly a room holding an open incident |
| IncidentPlugin.AtMostOneOpenPerRoom | src/Noobot.Modules.IncidentManagement/IncidentManagementPlugin.cs:264-281 | in a sound table two incidents of one war room are never both open, and a room is occupied exactly when it holds an open incident |
| IncidentPlugin.FreeRoomHasOnlyClosed | src/Noobot.Modules.IncidentManagement/IncidentManagementPlugin.cs:264-281 | every incident ever bound to a war room found free is closed |
| IncidentPlugin.DeclaredRow | src/Noobot.Modules.IncidentManagement/IncidentManagementPlugin.cs:62-98 | the declared incident carries the numbered row key and the war room's name |
| IncidentPlugin.DeclareKeepsSound | src/Noobot.Modules.IncidentManagement/IncidentManagementPlugin.cs:62-98 | declaring into a free room in a sound table gets key count + 1, is inserted, and keeps the table sound |
| IncidentPlugin.AppendKeepsShape | src/Noobot.Modules.IncidentManagement/IncidentManagementPlugin.cs:62-98 | appending a later incident to a room whose incidents are closed keeps declaration order, the room rule and the lifecycle |
| IncidentPlugin.UpdateKeepsShape | src/Noobot.Modules.IncidentManagement/IncidentManagementStorageClient.cs:96-100 | rewriting an incident in place, with the same room and declaration and never reopening it, keeps declaration order, the room rule and the lifecycle |
| IncidentPlugin.ReplacedAt | src/Noobot.Modules.IncidentManagement/IncidentManagementStorageClient.cs:96-100 | replacing the row with the keys of index i changes exactly index i |
| IncidentPlugin.UpdateKeepsKeys | src/Noobot.Modules.IncidentManagement/IncidentManagementStorageClient.cs:96-100 | rewriting a row with the same keys keeps the numbered-key invariant |
| IncidentPlugin.UpdateKeepsSound | src/Noobot.Modules.IncidentManagement/IncidentManagementStorageClient.cs:96-100 | such a rewrite succeeds, changes exactly that index and keeps the table sound |
| IncidentPlugin.WarRoomReleasedOnlyWhenClosed | src/Noobot.Modules.IncidentManagement/IncidentManagementPlugin.cs:232-262 | the war room's purpose reads "no active incident", and its topic is cleared, exactly when the incident is closed |
| IncidentPlugin.Where | src/Noobot.Modules.IncidentManagement/IncidentManagementPlugin.cs:187-203 | a filter of the incident list is no longer than the list |
| IncidentPlugin.WhereAppend | src/Noobot.Modules.IncidentManagement/IncidentManagementPlugin.cs:187-203 | filtering distributes over concatenation |
| IncidentPlugin.WhereSplit | src/Noobot.Modules.IncidentManagement/IncidentManagementPlugin.cs:187-203 | two complementary filters together count every incident once |
| IncidentPlugin.InsertByDeclared | src/Noobot.Modules.IncidentManagement/IncidentManagementPlugin.cs:189 | inserting into the ordered list adds exactly one entry |
| IncidentPlugin.InsertByDeclaredPermutes | src/Noobot.Modules.IncidentManagement/IncidentManagementPlugin.cs:189 | the insertion adds exactly the new incident to the multiset |
| IncidentPlugin.InsertByDeclaredBound | src/Noobot.Modules.IncidentManagement/IncidentManagementPlugin.cs:189 | inserting an incident declared no later than a bound keeps every entry within the bound |
| IncidentPlugin.InsertByDeclaredSorted | src/Noobot.Modules.IncidentManagement/IncidentManagementPlugin.cs:189 | inserting into a list ordered by declaration time keeps it ordered |
| IncidentPlugin.SortByDeclared | src/Noobot.Modules.IncidentManagement/IncidentManagementPlugin.cs:189 | the ordering keeps the length |
| IncidentPlugin.SortByDeclaredSorted | src/Noobot.Modules.IncidentManagement/IncidentManagementPlugin.cs:189 | `OrderBy(DeclaredDateTimeUtc)` gives an ordered permutation of its input |
| IncidentPlugin.InsertByDeclaredCount | src/Noobot.Modules.IncidentManagement/IncidentManagementPlugin.cs:189 | inserting adds one to a filter's count exactly when the new incident passes it |
| IncidentPlugin.SortByDeclaredCount | src/Noobot.Modules.IncidentManagement/IncidentManagementPlugin.cs:187-203 | ordering does not change how many incidents a filter keeps |
| IncidentPlugin.Attachments | src/Noobot.Modules.IncidentManagement/IncidentManagementPlugin.cs:187-213 | one attachment per incident, titled with its friendly id and all in the group's colour |
| IncidentPlugin.GenerateAttachment | src/Noobot.Modules.IncidentManagement/IncidentManagementPlugin.cs:205-213 | an entry titled "INCIDENT " and the friendly id, with the resolved text and the given colour |
| IncidentPlugin.Block | src/Noobot.Modules.IncidentManagement/IncidentManagementPlugin.cs:187-203 | a group's rows ordered by declaration: sorted, and exactly the group's rows with their multiplicities |
| IncidentPlugin.WhereSorted | src/Noobot.Modules.IncidentManagement/IncidentManagementPlugin.cs:187-203 | filtering a list ordered by declaration keeps it ordered |
| IncidentPlugin.WhereMultiset | src/Noobot.Modules.IncidentManagement/IncidentManagementPlugin.cs:187-203 | a row occurs in a group's filter as often as in the input when it is in the group, else never |
| IncidentPlugin.GroupsPartition | src/Noobot.Modules.IncidentManagement/IncidentManagementPlugin.cs:187-203 | under the lifecycle, unresolved, resolved-but-open and closed rows together are the input, each row once |
| IncidentPlugin.ResolvedPartition | src/Noobot.Modules.IncidentManagement/IncidentManagementPlugin.cs:195-203 | under the lifecycle, the resolved rows are the resolved-but-open ones plus the closed ones |
| IncidentPlugin.WhereComplement | src/Noobot.Modules.IncidentManagement/IncidentManagementPlugin.cs:187-197 | two complementary filters split the input between them |
| IncidentPlugin.ColorBlocks | src/Noobot.Modules.IncidentManagement/IncidentManagementPlugin.cs:166-185 | concatenated blocks keep each block's colour at its positions |
| IncidentPlugin.OpenIncidentList | src/Noobot.Modules.IncidentManagement/IncidentManagementPlugin.cs:166-174 | one entry per open incident: the unresolved ones in "danger", then the resolved ones in "good", each block the entries of exactly its incidents ordered by declaration |
| IncidentPlugin.RecentIncidentListAsWritten | src/Noobot.Modules.IncidentManagement/IncidentManagementPlugin.cs:176-185 | the list as written: unresolved, then every resolved (closed included), then closed entries, each block the entries of exactly its incidents ordered by declaration, in its colour |
| IncidentPlugin.RecentListAsWrittenRepeatsClosed | src/Noobot.Modules.IncidentManagement/IncidentManagementPlugin.cs:176-203 | as written, one closed incident is listed twice, once as "good" and once as closed |
| IncidentPlugin.RecentIncidentList | src/Noobot.Modules.IncidentManagement/IncidentManagementPlugin.cs:176-185 | three colour blocks: unresolved, resolved but not closed, closed; each block the entries of exactly its incidents ordered by declaration |
| IncidentPlugin.RecentIncidentListOnce | src/Noobot.Modules.IncidentManagement/IncidentManagementPlugin.cs:176-185 | under the lifecycle the listed incidents, over the three blocks, are exactly the input incidents, each once |
| IncidentPlugin.RecentListAsWrittenCountsClosedTwice | src/Noobot.Modules.IncidentManagement/IncidentManagementPlugin.cs:176-203 | under the lifecycle the as-written list shows every incident once, plus every closed incident a second time |
| IncidentPlugin.IncidentManagementPlugin.constructor | src/Noobot.Modules.IncidentManagement/IncidentManagementPlugin.cs:40-51 | the plugin holds its store, chat connection and injected inputs, with no configuration yet |
| IncidentPlugin.IncidentManagementPlugin.Start | src/Noobot.Modules.IncidentManagement/IncidentManagementPlugin.cs:40-51 | reads the main channel, the postmortem template and the comma-separated war rooms |
| IncidentPlugin.IncidentManagementPlugin.GetAvailableWarRoomChannel | src/Noobot.Modules.IncidentManagement/IncidentManagementPlugin.cs:264-281 | returns `FreeWarRoom` of the stored incidents, without changing anything |
| IncidentPlugin.IncidentManagementPlugin.SendMainIncidentChannelMessage | src/Noobot.Modules.IncidentManagement/IncidentManagementPlugin.cs:215-222 | exactly one post to the main incident channel with the given title, text and colour |
| IncidentPlugin.IncidentManagementPlugin.SetChannelPurposeBasedOnIncidentStatus | src/Noobot.Modules.IncidentManagement/IncidentManagementPlugin.cs:232-246 | sets the war room's purpose from the incident's status |
| IncidentPlugin.IncidentManagementPlugin.SetChannelTopicBasedOnIncidentStatus | src/Noobot.Modules.IncidentManagement/IncidentManagementPlugin.cs:248-262 | sets the war room's topic from the incident's status |
| IncidentPlugin.PurposeText | src/Noobot.Modules.IncidentManagement/IncidentManagementPlugin.cs:232-246 | the released purpose for a closed incident, else its id, status and title; `WarRoomReleasedOnlyWhenClosed` proves the released purpose appears exactly when the incident is closed |
| IncidentPlugin.TopicText | src/Noobot.Modules.IncidentManagement/IncidentManagementPlugin.cs:248-262 | the blank topic for a closed incident, else its id; `WarRoomReleasedOnlyWhenClosed` proves the blank topic appears exactly when the incident is closed |
| IncidentPlugin.IncidentManagementPlugin.AnnounceDeclared | src/Noobot.Modules.IncidentManagement/IncidentManagementPlugin.cs:81-95 | the declaration's purpose and topic updates, war-room post and main-channel post, in order |
| IncidentPlugin.IncidentManagementPlugin.AnnounceResolved | src/Noobot.Modules.IncidentManagement/IncidentManagementPlugin.cs:113-117 | the resolution's purpose update and main-channel post, in order |
| IncidentPlugin.IncidentManagementPlugin.AnnouncePostmortem | src/Noobot.Modules.IncidentManagement/IncidentManagementPlugin.cs:135-138 | the postmortem's main-channel post |
| IncidentPlugin.IncidentManagementPlugin.AnnounceClosed | src/Noobot.Modules.IncidentManagement/IncidentManagementPlugin.cs:156-161 | the closing's purpose and topic updates and main-channel post, in order |
| IncidentPlugin.IncidentManagementPlugin.OpenIncidentIn | src/Noobot.Modules.IncidentManagement/IncidentManagementPlugin.cs:74-97 | stores the incident under the next key of its date and announces it; on a storage error nothing is stored or announced |
| IncidentPlugin.IncidentManagementPlugin.DeclareNewIncident | src/Noobot.Modules.IncidentManagement/IncidentManagementPlugin.cs:62-98 | null with nothing changed when every war room is taken; otherwise the incident is stored in the first free room and announced |
| IncidentPlugin.IncidentManagementPlugin.ResolveIncident | src/Noobot.Modules.IncidentManagement/IncidentManagementPlugin.cs:100-120 | null with nothing changed unless the channel's latest incident is unresolved; otherwise it is marked resolved, written back and announced |
| IncidentPlugin.IncidentManagementPlugin.UpdateIncidentWithPostmortem | src/Noobot.Modules.IncidentManagement/IncidentManagementPlugin.cs:122-141 | null with nothing changed unless the channel's latest incident is open; otherwise the postmortem is set, written back and announced |
| IncidentPlugin.IncidentManagementPlugin.CloseIncident | src/Noobot.Modules.IncidentManagement/IncidentManagementPlugin.cs:143-164 | null with nothing changed unless the latest incident is resolved, open and has a postmortem; otherwise it is closed, written back and announced |
| IncidentPlugin.IncidentManagementPlugin.GetOpenIncidents | src/Noobot.Modules.IncidentManagement/IncidentManagementPlugin.cs:166-174 | the open list of exactly the stored incidents that are not closed: blocks by resolution, each ordered by declaration; the table is unchanged |
| IncidentPlugin.IncidentManagementPlugin.GetRecentIncidents | src/Noobot.Modules.IncidentManagement/IncidentManagementPlugin.cs:176-185 | the list as written of the last seven days' incidents (a closed incident appears twice); a date error is passed on; the table is unchanged |
| IncidentPlugin.RecentListOfStoredIncidents | src/Noobot.Modules.IncidentManagement/IncidentManagementPlugin.cs:176-185 | for any query of a table obeying the lifecycle, the corrected list shows every returned incident exactly once, blocks ordered by declaration |
| IncidentPlugin.RecentListAsWrittenOfStoredIncidents | src/Noobot.Modules.IncidentManagement/IncidentManagementPlugin.cs:176-203 | for any query of a table obeying the lifecycle, the as-written list shows every returned incident, and every closed one twice |
| IncidentPlugin.QueryKeepsLifecycle | src/Noobot.Modules.IncidentManagement/IncidentManagementStorageClient.cs:118-135 | a query of rows obeying the lifecycle returns rows obeying it |
| IncidentPlugin.FoundIsStored | src/Noobot.Modules.IncidentManagement/IncidentManagementStorageClient.cs:80-94 | the incident a channel-id lookup finds is a stored one and obeys the lifecycle |
| IncidentPlugin.ResolveKeepsSound | src/Noobot.Modules.IncidentManagement/IncidentManagementPlugin.cs:100-120 | resolving succeeds in writing back and keeps the table sound |
| IncidentPlugin.PostmortemKeepsSound | src/Noobot.Modules.IncidentManagement/IncidentManagementPlugin.cs:122-141 | adding a postmortem succeeds in writing back and keeps the table sound |
| IncidentPlugin.CloseKeepsSound | src/Noobot.Modules.IncidentManagement/IncidentManagementPlugin.cs:143-164 | closing succeeds in writing back and keeps the table sound |
| Cloudflare.CommandWellFormattedOfWords | src/Noobot.Modules.Cloudflare/CloudflareMiddleware.cs:79-82 | words typed with single spaces pass the length check for n exactly when there are n of them |
| Cloudflare.CommandWellFormatted | src/Noobot.Modules.Cloudflare/CloudflareMiddleware.cs:79-82 | the command has the required number of space-separated words; stated for typed words by `CommandWellFormattedOfWords` |
| Cloudflare.GetPositionalElementFromTargetText | src/Noobot.Modules.Cloudflare/CloudflareMiddleware.cs:94-97 | the element at an existing position is a single word |
| Cloudflare.PositionalElementOfWords | src/Noobot.Modules.Cloudflare/CloudflareMiddleware.cs:94-97 | the element at a position of a typed command is the word typed there |
| Cloudflare.GetCleanZoneName | src/Noobot.Modules.Cloudflare/CloudflareMiddleware.cs:99-102 | a name without '\|' is kept; a linked name loses every '>' |
| Cloudflare.CleanZoneNameOfSlackLink | src/Noobot.Modules.Cloudflare/CloudflareMiddleware.cs:99-102 | a zone name Slack sent as a link is cleaned back to the name |
| Cloudflare.HelpTextsAreWellFormatted | src/Noobot.Modules.Cloudflare/CloudflareMiddleware.cs:84-92 | each help text's example has the length its handler demands: five tokens for `purge tag`, four for `purge zone` |
| Cloudflare.GetPurgeCacheTagHelpText | src/Noobot.Modules.Cloudflare/CloudflareMiddleware.cs:84-87 | the quoted example `purge tag` command; `HelpTextsAreWellFormatted` proves it has five words |
| Cloudflare.GetPurgeZoneHelpText | src/Noobot.Modules.Cloudflare/CloudflareMiddleware.cs:89-92 | the quoted example `purge zone` command; `HelpTextsAreWellFormatted` proves it has four words |
| Cloudflare.PurgeZoneRequest | src/Noobot.Modules.Cloudflare/CloudflareMiddleware.cs:49-55 | a purge request exactly when the command has four tokens |
| Cloudflare.PurgeCacheTagRequest | src/Noobot.Modules.Cloudflare/CloudflareMiddleware.cs:65-72 | a purge request exactly when the command has five tokens |
| Cloudflare.Responses | src/Noobot.Modules.Cloudflare/CloudflareMiddleware.cs:45-77 | two responses: typing, then the help text for a malformed command or the plugin's message for the request |
| Cloudflare.PurgeZoneHandler | src/Noobot.Modules.Cloudflare/CloudflareMiddleware.cs:44-58 | typing, then the help reply for a command without four words, else the plugin's answer for the cleaned zone of the fourth word |
| Cloudflare.PurgeCacheTagHandler | src/Noobot.Modules.Cloudflare/CloudflareMiddleware.cs:60-77 | typing, then the help reply for a command without five words, else the plugin's answer for the cleaned zone of the fifth word and the tag of the fourth |
| Cloudflare.PurgeZoneOfCommand | src/Noobot.Modules.Cloudflare/CloudflareMiddleware.cs:45-59 | `purge zone` with a linked zone asks the plugin to purge exactly that zone |
| Cloudflare.PurgeCacheTagOfCommand | src/Noobot.Modules.Cloudflare/CloudflareMiddleware.cs:61-77 | `purge tag` passes the typed tag untouched and the linked zone cleaned |
| Dns.DnsLookupCommandOfWords | src/Noobot.Modules.Dns/DnsMiddleware.cs:64-67 | a command typed as words is well formatted exactly when it has three words |
| Dns.DnsLookupCommandWellFormatted | src/Noobot.Modules.Dns/DnsMiddleware.cs:64-67 | exactly three space-separated words; stated for typed words by `DnsLookupCommandOfWords` |
| Dns.HelpTextNamesCommand | src/Noobot.Modules.Dns/DnsMiddleware.cs:69-72 | the help text is the quoted example with the given action in second place |
| Dns.GetHelpText | src/Noobot.Modules.Dns/DnsMiddleware.cs:69-72 | the example with the action placeholder replaced by the command; `HelpTextNamesCommand` proves the command appears in it |
| Dns.LookupHelpTextIsWellFormatted | src/Noobot.Modules.Dns/DnsMiddleware.cs:69-72 | the lookup help text's example is itself a well formatted lookup command |
| Dns.GetHostFromMessageAsWritten | src/Noobot.Modules.Dns/DnsMiddleware.cs:74-78 | as written: a linked third token is unwrapped, and otherwise the whole message is returned |
| Dns.HostAsWrittenIsWholeCommand | src/Noobot.Modules.Dns/DnsPlugin.cs:53-57 | as written, looking up a plain address resolves the whole command, spaces included, and never the address |
| Dns.GetHostFromMessage | src/Noobot.Modules.Dns/DnsMiddleware.cs:74-78 | the host is the third token, unwrapped from a Slack link when there is one |
| Dns.HostOfCommand | src/Noobot.Modules.Dns/DnsMiddleware.cs:74-78 | the host of a typed command is the third word, or the text of the link Slack made of it |
| Dns.JoinSnoc | src/Noobot.Modules.Dns/DnsMiddleware.cs:80-95 | joining a list extended by one element appends the separator and that element |
| Dns.EndsNonBlank | src/Noobot.Modules.Dns/DnsMiddleware.cs:86 | a text ending with a non-blank piece is not blank |
| Dns.AddressListTextJoins | src/Noobot.Modules.Dns/DnsPlugin.cs:36-51 | with non-blank addresses the loop's text is the addresses joined by ", ", and is non-blank |
| Dns.AddressListText | src/Noobot.Modules.Dns/DnsMiddleware.cs:80-95 | the text the loop builds, one address at a time; `AddressListTextJoins` proves it is the ", " join |
| Dns.GetIpAddressesAsText | src/Noobot.Modules.Dns/DnsMiddleware.cs:80-95 | the loop computes the address list text, which is the addresses joined by ", " when none is blank |
| Dns.DnsLookupHandler | src/Noobot.Modules.Dns/DnsMiddleware.cs:31-62 | one reply: the help text for a malformed command, else the host as the source computes it (the whole message when the third word has no '|') with its failure or with its address list |
| Base64.AsciiBytes | src/Noobot.Modules.LoadBalancerDotOrg/LboPlugin.cs:59 | `Encoding.ASCII.GetBytes`: one byte per character, '?' for a non-ASCII one |
| Base64.AsciiBytesAppend | src/Noobot.Modules.LoadBalancerDotOrg/LboPlugin.cs:59 | the ASCII bytes of a concatenation are the concatenation of the bytes |
| Base64.AsciiByteOfColon | src/Noobot.Modules.LoadBalancerDotOrg/LboPlugin.cs:59 | only ':' encodes to the colon byte |
| Base64.AsciiBytesWithoutColon | src/Noobot.Modules.LoadBalancerDotOrg/LboPlugin.cs:59 | a text without ':' encodes to bytes without the colon byte |
| Base64.CharOf | src/Noobot.Modules.LoadBalancerDotOrg/LboPlugin.cs:59 | every 6-bit value has a Base64 character other than the padding '=' |
| Base64.ValueOf | src/Noobot.Modules.LoadBalancerDotOrg/LboPlugin.cs:59 | a Base64 character's value fits in six bits |
| Base64.ValueOfCharOf | src/Noobot.Modules.LoadBalancerDotOrg/LboPlugin.cs:59 | the alphabet decodes back to the value it encodes |
| Base64.Sextets | src/Noobot.Modules.LoadBalancerDotOrg/LboPlugin.cs:59 | three bytes split into four 6-bit values |
| Base64.EncodeGroup | src/Noobot.Modules.LoadBalancerDotOrg/LboPlugin.cs:59 | three bytes encode to four characters |
| Base64.DecodeGroup | src/Noobot.Modules.LoadBalancerDotOrg/LboPlugin.cs:59 | four 6-bit values decode to three bytes |
| Base64.GroupRoundTrip | src/Noobot.Modules.LoadBalancerDotOrg/LboPlugin.cs:59 | decoding a group's sextets gives back its three bytes |
| Base64.PaddedSextets | src/Noobot.Modules.LoadBalancerDotOrg/LboPlugin.cs:59 | the sextets a padded group leaves out are zero |
| Base64.Encode | src/Noobot.Modules.LoadBalancerDotOrg/LboPlugin.cs:59 | `Convert.ToBase64String` gives a length that is a multiple of four |
| Base64.Values | src/Noobot.Modules.LoadBalancerDotOrg/LboPlugin.cs:59 | a valid group has four values of six bits |
| Base64.ValuesOfGroup | src/Noobot.Modules.LoadBalancerDotOrg/LboPlugin.cs:59 | an encoded group reads back as its sextets |
| Base64.OneByteRoundTrip | src/Noobot.Modules.LoadBalancerDotOrg/LboPlugin.cs:59 | one byte, encoded with "==" padding, decodes back |
| Base64.TwoBytesRoundTrip | src/Noobot.Modules.LoadBalancerDotOrg/LboPlugin.cs:59 | two bytes, encoded with "=" padding, decode back |
| Base64.DecodeFullOfGroup | src/Noobot.Modules.LoadBalancerDotOrg/LboPlugin.cs:59 | a full encoded group decodes to its three bytes |
| Base64.DecodeFullGroup | src/Noobot.Modules.LoadBalancerDotOrg/LboPlugin.cs:59 | decoding a full group followed by more text gives its bytes followed by the rest's |
| Base64.DecodeEncode | src/Noobot.Modules.LoadBalancerDotOrg/LboPlugin.cs:59 | decoding the Base64 of any bytes gives back those bytes |
| LoadBalancer.CommandOfWords | src/Noobot.Modules.LoadBalancerDotOrg/LboPlugin.cs:35-38 | a command typed as words is well formatted exactly when it has five words |
| LoadBalancer.CommandWellFormatted | src/Noobot.Modules.LoadBalancerDotOrg/LboPlugin.cs:35-38 | exactly five space-separated words; stated for typed words by `CommandOfWords` |
| LoadBalancer.NewLoadBalancerRequest | src/Noobot.Modules.LoadBalancerDotOrg/Models/LoadBalancerRequest.cs:7-15 | a request exactly when the command has at least five tokens; with fewer the constructor's indexing fails |
| LoadBalancer.RequestRoundTrip | src/Noobot.Modules.LoadBalancerDotOrg/Models/LoadBalancerRequest.cs:7-15 | a request of single words is read back from its command text, which is well formatted |
| LoadBalancer.RequestOfWellFormatted | src/Noobot.Modules.LoadBalancerDotOrg/Models/LoadBalancerRequest.cs:7-15 | a well formatted command splits exactly as the command text of the request read from it |
| LoadBalancer.FirstColon | src/Noobot.Modules.LoadBalancerDotOrg/LboPlugin.cs:59 | the index of the first colon byte, or none when there is none |
| LoadBalancer.AuthHeaderCarriesCredentials | src/Noobot.Modules.LoadBalancerDotOrg/LboPlugin.cs:57-61 | the header is Basic, and a server reading it gets back the appliance's user name and password |
| LoadBalancer.GetAuthHeader | src/Noobot.Modules.LoadBalancerDotOrg/LboPlugin.cs:57-61 | scheme "Basic" and a padded Base64 parameter that decodes to the ASCII bytes of "user:password" |
| LoadBalancer.ReadCredentialOfBytes | src/Noobot.Modules.LoadBalancerDotOrg/LboPlugin.cs:57-61 | the Base64 of colon-free bytes, a colon and more bytes reads back as the two runs |
| LoadBalancer.FirstColonAfter | src/Noobot.Modules.LoadBalancerDotOrg/LboPlugin.cs:59 | the first colon after colon-free bytes is the one right after them |
| LoadBalancer.RequestContentOfCommand | src/Noobot.Modules.LoadBalancerDotOrg/LboPlugin.cs:63-67 | the API body of a typed command carries the appliance's key, one action with the typed command, and one syntax entry with the two typed addresses |
| LoadBalancer.NewApiRequest | src/Noobot.Modules.LoadBalancerDotOrg/Models/ApiRequest.cs:7-12 | the API key, one action holding the command, one syntax entry holding the virtual and real server |
| LoadBalancer.GetRequestContent | src/Noobot.Modules.LoadBalancerDotOrg/LboPlugin.cs:63-67 | the body carries the appliance's API key and the request's command, virtual and real server |
| NewRelic.ApplicationTargetedCommandOfWords | src/Noobot.Modules.NewRelic/NewRelicPlugin.cs:40-43 | a command typed as words is well formatted exactly when it has four words |
| NewRelic.ApplicationTargetedCommandWellFormatted | src/Noobot.Modules.NewRelic/NewRelicPlugin.cs:40-43 | exactly four space-separated words; stated for typed words by `ApplicationTargetedCommandOfWords` |
| NewRelic.GetAccountIdFromApplicationTargeted | src/Noobot.Modules.NewRelic/NewRelicPlugin.cs:45-49 | an `int` id, or the index error exactly for fewer than four tokens, or the format error exactly for a fourth token that is not an `int` |
| NewRelic.AccountIdRoundTrip | src/Noobot.Modules.NewRelic/NewRelicPlugin.cs:45-49 | an account id typed in decimal as the fourth word makes a well formatted command and is read back |

## Left out

- Slack itself. What the bot sends (messages, attachments, channel purposes and topics) is recorded in order in the chat connection's log. The delivery, the `ResponseMessage` objects and the asynchronous send are not modelled.
- Azure Table storage plumbing: the connection, creating the table, and continuation tokens. Every query loop returns on its first segment, so the model returns the whole result as that segment.
- IncidentStorage.Query: the table service returns query results ordered by PartitionKey, then RowKey, as strings. The model keeps the rows in insertion order. `OrderByDescending(...).First()` and the stable `OrderBy` therefore break ties between equal declaration instants differently. In a table the store keeps, declaration instants are strictly increasing, so `Latest` and the sorted lists do not depend on that order. The same holds for `IncidentStore.ExecuteQuery`, `IncidentStore.GetOpenIncidents` and `IncidentStore.GetRecentIncidents`.
- `int.Parse` of a stored row key can throw an `OverflowException`. The storage client adds 1 to a parsed `int.MaxValue` unchecked, which wraps around. The model keeps the error path and the wrap (`Decimal.Wrap32`).
- Concurrency between two commands (two declarations racing for one war room or one row key) is not modelled. Each command runs to completion.
- IncidentManagementMiddleware is not part of this model: command routing by prefix, the help descriptions, and turning the plugin's results into replies.
- The postmortem announcement: `GetIncidentPostmortemTextWithoutIncidentId` and `PostmortemIncidentColor` are not in the source. The postmortem post therefore records the incident it is about, not a text and a colour.
- `ConfigurationBase.Whitespace`, used as the cleared topic, is not in the source. It is the `blankTopic` parameter of the plugin.
- IncidentModels.NewIncidentRow: the source reads `DateTime.UtcNow` twice, once for the partition key (Incident.cs:12) and once for the declaration instant (Incident.cs:18). An incident declared across midnight UTC then gets the previous day's key with the next day's instant. The model takes one reading for both, so every row's partition key is the key of its declaration date; `RowLifecycle` and the requires of `RecentWindow` rely on that equation.
- Decimal.ParseInt32: `int.Parse` and `int.ToString()` are called without a culture, so the current culture's `NegativeSign` and `PositiveSign` apply. The model uses the invariant culture's "-" and "+" (this also affects `Decimal.IntToString`).
- Calendar.DateKey: `ToString("yyyy-MM-dd")` formats in the current culture's calendar (Buddhist-era years under th-TH, Hijri under ar-SA). The model always renders the Gregorian date, as under the invariant culture.
- The clock (`DateTime.UtcNow`), `Guid.NewGuid()` and the culture-dependent `ToString()` of timestamps are parameters of the operations.
- Time of day is an opaque tick count. Only declaration order uses it.
- CloudflarePlugin, the Cloudflare API response types and the Cloudflare configuration are not part of this model.
  - The plugin's answer to a purge request is a parameter.
  - The command prefix of the help texts is a parameter.
- DnsPlugin.LookUpIpFromCommandText and `Dns.GetHostAddresses` are the `resolve` parameter. An address is given as its `ToString()` rendering.
- LboPlugin.GetAppliance (reading appliances from configuration) and TrustAllCerts (certificate validation) are not modelled. The LoadBalanacerAppliance class is modelled only through its user name, password and API key.
- LboMiddleware and the HTTP call are not part of this model. The JSON serialisation of `ApiRequest` is not part of this model; its content is modelled as a value.
- Base64.AsciiBytes: `Encoding.ASCII` replaces every character above 127 by '?'; the model does the same character by character. Characters are Unicode scalar values here, and the UTF-16 encoding of .NET strings is not modelled.
- NewRelicPlugin.Start (reading the API key) and GetNewRelicClient (building the REST client) are left out. NewRelicMiddleware is not part of this model.

## Findings

| source | as written | input that shows it | evidently intended | confidence | as-written member | corrected member |
|---|---|---|---|---|---|---|
| src/Noobot.Modules.Dns/DnsMiddleware.cs:74-78 and src/Noobot.Modules.Dns/DnsPlugin.cs:53-57 | when the third token has no '\|', `GetHostFromMessage` returns the whole message | `dns lookup 8.8.8.8` asks the resolver about "dns lookup 8.8.8.8" | return the third token itself when Slack did not turn it into a link | not executed | Dns.HostAsWrittenIsWholeCommand | Dns.HostOfCommand |
| src/Noobot.Modules.IncidentManagement/IncidentManagementPlugin.cs:176-203 | the recent list takes every resolved incident as "good", closed ones included, and then every closed incident again | one closed incident declared this week appears twice, once green and once blue | the green block holds resolved incidents that are not closed, so every incident appears once | not executed | IncidentPlugin.RecentListAsWrittenRepeatsClosed | IncidentPlugin.RecentListOfStoredIncidents |
