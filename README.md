# twitchContrib chat-command pipeline, in Dafny

twitchContrib lets Twitch viewers submit code to a streamer through chat.
This project models the following parts of it:

- The dispatcher (`processMessage`). It deduplicates chat messages by id and
  tries the registered command handlers in order.
- The command handlers: `!contrib <file> …`, `-A`, `-0`, `-C`, `-D`,
  `-status`, `-ls`, `-grep`, help, the incomplete-argument hints and the
  unknown-format reply. The model covers each handler's `matches` test and
  its `execute` decision sequence.
- The helpers the handlers use:
  - the code formatter (duplicate key and indentation stripping);
  - the `!contrib` argument parser;
  - the per-user rate limiter;
  - the fail-open conflict validator;
  - the chat helpers.
- Four smaller parts:
  - the `?` → `$n` rewrite and the fallbacks of the Postgres adapter;
  - the localhost bridge of the VS Code extension (root choice, target path,
    content merge, language table);
  - the bounded history of the database-metrics endpoint;
  - the standalone legacy server (its `line:`/`char:` parser, message
    guard and status route).

## How the model is built

- Pure code becomes functions. The handlers' `matches` tests become
  hand-written predicates over ASCII strings, one per regular expression.
  These follow JavaScript's leftmost-match rule and the greedy
  backtracking of each pattern.
- State that the source updates in place becomes a class:
  - `Store.ContributionStore`, the database behind `db`;
  - `RateLimiter.Limiter`, the `userRates` map;
  - `Chat.ChatClient`, the sent messages;
  - `Tracking.Tracker`, the processed-id set;
  - `VsCodeBridge.Bridge`, the module variables and the files;
  - `DbMetrics.MetricsCollector`, `metricsHistory`;
  - `LegacyServer.LegacyDatabase`, the users and contributions tables.
- Every imperative `Execute` method is proved equal to a pure `Run`
  function over a value snapshot (`World`) of the store, the limiter and
  the chat. The lemmas about the handlers are stated about `Run` and
  `Respond`.
- Failure is modelled explicitly:
  - a store operation listed in the store's `failing` set throws;
  - a chat client marked `down` throws on every `say`;
  - a handler that throws out of its own `catch` block ends in `Threw`.
- Time (`Date.now`), the health probe, dialogs, file-system answers and
  the Postgres driver's answers are parameters.

## Model

| member | source | states |
|---|---|---|
| Text.ToLower | lib/contribution/formatter.ts:4 | `toLowerCase` on ASCII letters keeps the length and lowers each character in place. |
| Text.LowerChar | lib/contribution/formatter.ts:4 | The result is never an upper-case letter, and lower-casing keeps whitespace as whitespace. |
| Text.Trim | lib/contribution/parser.ts:9 | The trimmed string is no longer than the input, and neither of its ends is whitespace. |
| Text.TrimUnchanged | lib/contribution/parser.ts:9 | A string with no whitespace at either end is its own trim. |
| Text.RemoveAll | lib/contribution/parser.ts:9 | Removing every `!contrib` never lengthens the message. |
| Text.RemoveAllAbsent | lib/contribution/parser.ts:9 | With no occurrence of the pattern, the message is unchanged. |
| Text.SplitWs | lib/contribution/parser.ts:12 | `split(/\s+/)` gives at least one piece, and no piece holds whitespace. |
| Text.SplitWsNonEmpty | lib/contribution/parser.ts:9-12 | On a trimmed non-empty string, every piece of the split is non-empty. |
| Text.Split | lib/contribution/formatter.ts:8 | `split('\n')` gives at least one piece. No piece holds the separator, and joining the pieces gives back the input. |
| Text.SplitJoin | lib/contribution/formatter.ts:8 | Splitting a join of separator-free parts gives back the parts. |
| Text.ReplaceNewlineEscapes | lib/contribution/parser.ts:36 | Turning each backslash-n pair into a newline never lengthens the string. |
| Text.NoNewlineEscapeLeft | lib/contribution/parser.ts:36 | After the replacement, no backslash-n pair is left. |
| Text.ReplaceHead | lib/contribution/parser.ts:36 | The first output character is a newline exactly when the input starts with backslash-n. |
| Text.ReplaceWithoutBackslash | lib/contribution/parser.ts:36 | A string without a backslash is unchanged. |
| Text.ParseInt | lib/contribution/parser.ts:23 | `parseInt`: optional whitespace and sign, then `0x` hex or a decimal digit prefix. The result is NaN (`None`) when there are no digits. |
| Text.ParseIntDigits | lib/contribution/parser.ts:23 | On a plain decimal digit string, `parseInt` gives its decimal value. |
| Text.NatToString | lib/db-postgres.ts:86 | The decimal rendering of a number is a non-empty digit string. |
| Text.NatToStringRoundTrip | lib/db-postgres.ts:86 | Reading back the rendered digits gives the number. |
| Formatter.RemoveWs | lib/contribution/formatter.ts:4 | `replace(/\s+/g, '')` leaves no whitespace and only characters of the input. |
| Formatter.NormalizeKey | lib/contribution/formatter.ts:4 | The duplicate key holds no whitespace and no upper-case letter. |
| Formatter.KeyConcat | lib/contribution/formatter.ts:4 | The key of a concatenation is the concatenation of the keys. |
| Formatter.KeyOfBlank | lib/contribution/formatter.ts:4 | A whitespace-only string has the empty key. |
| Formatter.KeyIgnoresWhitespace | lib/contribution/formatter.ts:4 | Inserting whitespace anywhere leaves the key unchanged. |
| Formatter.KeyIgnoresCase | lib/contribution/formatter.ts:4 | Inputs that differ only in letter case have equal keys. |
| Formatter.KeyIdempotent | lib/contribution/formatter.ts:4 | Normalising a key again changes nothing. |
| Formatter.MinIndent | lib/contribution/formatter.ts:11-19 | The minimum is absent exactly when every line is blank. Otherwise it is the indentation of some non-blank line and at most that of every non-blank line. |
| Formatter.FormatCode | lib/contribution/formatter.ts:1-30 | The `for` loop and the `map` compute the key when `normalize` holds, and the display form otherwise. |
| Formatter.StripIndent | lib/contribution/formatter.ts:22-27 | Removing at most its indentation from a non-blank line removes only whitespace, keeps the line non-blank and lowers its indentation by that amount. |
| Formatter.FormatDisplayLines | lib/contribution/formatter.ts:8-29 | Display formatting keeps the number of lines. With no positive common indent, the code is returned unchanged. Otherwise blank lines become empty and other lines lose exactly the common indent. |
| Formatter.FormatDisplayIdempotent | lib/contribution/formatter.ts:11-29 | Formatting twice gives the same result as formatting once. |
| Formatter.FormatDisplayFlushLeft | lib/contribution/formatter.ts:11-29 | When some line has content, some line of the result starts with a non-whitespace character. |
| Formatter.KeyOfJoin | lib/contribution/formatter.ts:27 | Joining lines with pairwise-equal keys gives equal keys. |
| Formatter.StripLineKeepsKey | lib/contribution/formatter.ts:22-27 | Stripping a line's indentation leaves its key unchanged. |
| Formatter.FormatDisplayKeepsKey | lib/contribution/formatter.ts:1-30 | The display form and the original code have the same duplicate key. |
| Formatter.FormatDisplayExample | lib/contribution/formatter.ts:11-27 | `"  a\n    b\n  c"` formats to `"a\n  b\nc"`. |
| Parser.ParseContribution | lib/contribution/parser.ts:7-39 | The scanning `for` loop with `break` computes the parse: tokens, the first `-l` among tokens 1..n-2, the line check, the code join and the escape conversion. |
| Parser.FlagFoundAt | lib/contribution/parser.ts:20-31 | The loop stops at the first `-l` among tokens 1..n-2. |
| Parser.NoFlagFound | lib/contribution/parser.ts:20-32 | Without such an `-l`, the loop finds no flag. |
| Parser.ParseShape | lib/contribution/parser.ts:13-38 | A successful parse has at least two tokens. The filename is the first token: non-empty and without whitespace. A line number is at least 1, and the code holds no backslash-n pair. |
| Parser.ParseNeedsTwoTokens | lib/contribution/parser.ts:9-13 | Fewer than two tokens gives `null`, and so does a message that is only `!contrib`. |
| Parser.ParseWithoutFlag | lib/contribution/parser.ts:15-35 | Without `-l`, the line number is `null` and the code is tokens 1.. joined with single spaces. |
| Parser.ParseAtFlag | lib/contribution/parser.ts:20-35 | With `-l` at i, the parse succeeds exactly when token i+1 reads as an integer of at least 1. The code then starts at token i+2, and the tokens between the filename and `-l` are dropped. |
| Parser.TrailingFlagIsCode | lib/contribution/parser.ts:20 | An `-l` in last position is kept as code. |
| Parser.ZeroLineRejected | lib/contribution/parser.ts:24-27 | `-l 0` gives `null`. |
| Parser.FlagWithoutCode | lib/contribution/parser.ts:29-35 | `file.js -l 5` parses to line 5 with empty code. |
| Parser.ParseExample | lib/contribution/parser.ts:7-39 | `app.ts -l 12 foo();` parses to line 12 and code `foo();`. |
| RateLimiter.Limiter.IsRateLimited | lib/utils/rate-limiter.ts:11-49 | The method updates `userRates` in place and its answer is the pure step `RateCheck`. |
| RateLimiter.FirstCallAllowed | lib/utils/rate-limiter.ts:18-25 | A user's first call is allowed and records count 1 at `now`. |
| RateLimiter.InWindow | lib/utils/rate-limiter.ts:28-40 | Inside the window, the count grows by one before the test. The call is limited exactly when the new count exceeds 5, and `lastSubmission` moves only when it is not limited. |
| RateLimiter.WindowExpired | lib/utils/rate-limiter.ts:28-48 | Once the window has passed, the record resets to count 1 and the call is allowed. |
| RateLimiter.OtherUsersUnchanged | lib/utils/rate-limiter.ts:13-48 | Only the caller's record is created or changed. |
| RateLimiter.LimitedNeedsFiveEarlier | lib/utils/rate-limiter.ts:28-36 | A limited call needs a record inside the window with a count of at least 5. |
| RateLimiter.CountGrowsOrResets | lib/utils/rate-limiter.ts:30-46 | The count never decreases except by a reset to 1. |
| RateLimiter.FirstFiveAllowed | lib/utils/rate-limiter.ts:9-38 | Up to five calls close together from a new user are all allowed. |
| RateLimiter.SixthCallLimited | lib/utils/rate-limiter.ts:9-36 | Of six calls close together, only the sixth is limited, and the window stays anchored at the fifth. |
| Validator.ValidateContribution | lib/contribution/validator.ts:9-30 | The wrapper calls the store with its arguments unchanged and returns what `Validate` states. |
| Validator.ValidateMeaning | lib/contribution/validator.ts:15-29 | Each flag is the store's answer: an own record with the same key, an accepted record with the same key, or another user's record on the same line. When the store throws, all three flags are false. |
| Validator.SeesOwnRecord | lib/contribution/validator.ts:15-21 | A record of the caller with the same key is reported as a personal duplicate unless the store fails. |
| Validator.NoLineNoConflict | lib/contribution/validator.ts:15-29 | Without a line number, there is never a line conflict. |
| Chat.VerifyClient | lib/utils/chat.ts:3-11 | The check passes exactly when the client exists and has `say`. |
| Chat.FormatChannel | lib/utils/chat.ts:16 | The channel always starts with `#`. A channel already starting with `#` is unchanged; any other gets one `#` prepended. |
| Chat.FormatChannelIdempotent | lib/utils/chat.ts:16 | Formatting the channel twice gives the same result as formatting it once. |
| Chat.SaySafe | lib/utils/chat.ts:13-21 | The message goes to the `#`-prefixed channel. A failing send is swallowed and sends nothing. |
| Store.ContributionStore.GetContribution | lib/commands/append.ts:32 | The lookup returns the stored record under the id, or nothing, or the failure. |
| Store.ContributionStore.UpdateContribution | lib/commands/append.ts:54-56 | Only the record's code changes, and the store stays valid. |
| Store.ContributionStore.DeleteContribution | lib/commands/delete.ts:43 | Exactly that record is removed. |
| Store.ContributionStore.CreateContribution | lib/commands/contrib.ts:67-72 | A new pending record is added under a fresh id, which is returned. |
| Store.ContributionStore.CheckContributionConflicts | lib/contribution/validator.ts:15-21 | The method returns the three conflict flags of `CheckConflicts`. |
| Store.ContributionStore.GetSettingsRecord | lib/commands/incomplete-argument.ts:73-84 | The method returns the settings record or the failure. |
| Store.ContributionStore.GetUserContributions | lib/commands/list.ts:14 | The method returns the caller's records, newest first, at most `limit` of them. |
| Store.ContributionStore.GetFileContributions | lib/commands/grep.ts:20 | The method returns the file's records, newest first, at most `limit` of them. |
| Store.Matching | lib/commands/grep.ts:20 | Every listed record satisfies the filter and is stored under its id, and ids are listed in decreasing order. |
| Store.Take | lib/commands/list.ts:14 | The result is the first `min(n, length)` elements. |
| Store.UpdateChangesOnlyCode | lib/commands/append.ts:54-56 | A successful update changes only that record's `code`. |
| Store.DeleteRemovesOnlyIt | lib/commands/delete.ts:43 | A successful delete removes exactly that id, and the other records are unchanged. |
| Store.CreateAddsPendingRecord | lib/commands/contrib.ts:67-72 | A created record is new, pending and owned by its creator, and nothing else changes. |
| Store.UserContributionsAreOwn | lib/commands/list.ts:14 | The user's list holds at most `limit` records, all the user's own and as stored. |
| Store.MatchingComplete | lib/commands/grep.ts:20 | Every stored record that satisfies the filter is listed. |
| Store.UserContributionsComplete | lib/commands/list.ts:14 | When the user has fewer than `limit` records, each of them is listed. |
| CommandBase.Guard | lib/commands/append.ts:32-48 | The guard checks, in order, that the record exists, is the caller's and is pending. Each verdict holds exactly under its condition. |
| CommandBase.GetIsLookup | lib/commands/append.ts:32 | A working `getContribution` returns the stored record. |
| CommandBase.FinishNeverFalse | lib/commands/append.ts:58-64 | The final reply resolves to `true`. Only when the chat is down does the handler throw, with nothing sent. |
| CommandBase.OwnPendingEditsTransitive | lib/contribution/tracking.ts:29-48 | The rule "only the caller's own pending records change, and no one else's record is removed" holds over several handler steps. |
| CommandBase.LineSuffix | lib/commands/status.ts:37 | The `, line N` suffix appears exactly when the line number is truthy. |
| AppendCommand.Request | lib/commands/append.ts:5-29 | The request is found exactly when `matches` holds. Its suffix holds no backslash-n pair. |
| AppendCommand.Execute | lib/commands/append.ts:10-65 | The method performs `Run`: id check, guards, concatenation, update, reply, catch. |
| AppendCommand.StoreEffect | lib/commands/append.ts:20-56 | The rate limiter is untouched. The store changes only by setting one allowed record's code to its old code followed by the suffix. |
| AppendCommand.AppendsWhenAllowed | lib/commands/append.ts:51-59 | When all guards pass, the code becomes existing + suffix, with no separator, and the updated reply is sent. |
| AppendCommand.GuardFailureReplies | lib/commands/append.ts:32-48 | A failing guard sends its own reply and writes nothing. |
| AppendCommand.RejectedBeforeStore | lib/commands/append.ts:14-24 | A bad format or a zero id is answered without touching the store. |
| AppendCommand.AlwaysTrue | lib/commands/append.ts:58-64 | `execute` resolves to `true` with one reply. It throws only when the chat is down. |
| AppendCommand.KeepsOwnPendingRule | lib/commands/append.ts:32-56 | Only the caller's own pending record can change. |
| AppendCommand.RequestFromCapture | lib/commands/append.ts:14-29 | The request is the captured id's value and the trimmed, escape-converted code. |
| AppendCommand.ExampleRequest | lib/commands/append.ts:14-29 | `!contrib -A 5 fix()` asks to append `fix()` to #5. |
| AppendCommand.ExampleWithoutCode | lib/commands/append.ts:7 | `!contrib -A 5` does not match. |
| PrependCommand.Request | lib/commands/prepend.ts:5-28 | The request is found exactly when `matches` holds. Its prefix holds no backslash-n pair. |
| PrependCommand.Execute | lib/commands/prepend.ts:9-64 | The method performs `Run`. |
| PrependCommand.StoreEffect | lib/commands/prepend.ts:19-55 | The store changes only by setting one allowed record's code to the prefix followed by its old code. |
| PrependCommand.PrependsWhenAllowed | lib/commands/prepend.ts:50-57 | When all guards pass, the code becomes prefix + existing. |
| PrependCommand.GuardFailureReplies | lib/commands/prepend.ts:31-47 | A failing guard sends its own reply and writes nothing. |
| PrependCommand.RejectedBeforeStore | lib/commands/prepend.ts:13-23 | A bad format or a zero id is answered without touching the store. |
| PrependCommand.AlwaysTrue | lib/commands/prepend.ts:57-63 | `execute` resolves to `true` with one reply. |
| PrependCommand.KeepsOwnPendingRule | lib/commands/prepend.ts:31-55 | Only the caller's own pending record can change. |
| PrependCommand.ExampleWithoutCode | lib/commands/prepend.ts:6 | `!contrib -0 5` does not match. |
| ReplaceCommand.Request | lib/commands/replace.ts:7-36 | The request is found exactly when `matches` holds. |
| ReplaceCommand.Execute | lib/commands/replace.ts:11-72 | The method performs `Run`: rate check, id check, format, guards, update, reply, catch. |
| ReplaceCommand.ReplaceStored | lib/commands/replace.ts:42-71 | The method performs the lookup, the guards, the update and the reply. |
| ReplaceCommand.Effect | lib/commands/replace.ts:22-63 | Any matching line is charged to the rate limiter. The store changes only by one allowed record's code becoming the new code. |
| ReplaceCommand.LimitedMakesNoUpdate | lib/commands/replace.ts:22-25 | A limited call is answered before the id check and writes nothing. |
| ReplaceCommand.ReplacesWhenAllowed | lib/commands/replace.ts:61-65 | When all guards pass, the old code is replaced. |
| ReplaceCommand.ReplaceWithFormatted | lib/commands/replace.ts:33-63 | For any argument, the stored code is exactly `formatCode` of it, so an argument already in display form is stored unchanged. |
| ReplaceCommand.GuardFailureReplies | lib/commands/replace.ts:42-58 | A failing guard sends its own reply and writes nothing. |
| ReplaceCommand.ZeroIdRejected | lib/commands/replace.ts:27-31 | A zero id gets the invalid-id reply. |
| ReplaceCommand.AlwaysTrue | lib/commands/replace.ts:65-71 | `execute` resolves to `true` with one reply. |
| ReplaceCommand.KeepsOwnPendingRule | lib/commands/replace.ts:42-63 | Only the caller's own pending record can change. |
| DeleteCommand.MatchesYieldsId | lib/commands/delete.ts:7-17 | A matching line always yields an id. |
| DeleteCommand.Execute | lib/commands/delete.ts:10-52 | The method performs `Run`. |
| DeleteCommand.StoreEffect | lib/commands/delete.ts:17-43 | The store changes only by removing one allowed record. |
| DeleteCommand.DeletesWhenAllowed | lib/commands/delete.ts:43-45 | When all guards pass, the record is deleted and the deleted reply is sent. |
| DeleteCommand.GuardFailureReplies | lib/commands/delete.ts:24-40 | A failing guard sends its own reply and deletes nothing. |
| DeleteCommand.ZeroIdRejected | lib/commands/delete.ts:17-21 | A zero id gets the invalid-id reply. |
| DeleteCommand.AlwaysTrue | lib/commands/delete.ts:45-51 | `execute` resolves to `true` with one reply. |
| DeleteCommand.KeepsOwnPendingRule | lib/commands/delete.ts:24-43 | Only the caller's own pending record can be removed. |
| StatusCommand.MatchesYieldsId | lib/commands/status.ts:7-17 | A matching line always yields an id. |
| StatusCommand.Emoji | lib/commands/status.ts:31-35 | ⏳ for pending, ✅ for accepted, ❌ for rejected, ❓ for anything else. |
| StatusCommand.Execute | lib/commands/status.ts:10-44 | The method performs `Run`. |
| StatusCommand.ReadOnly | lib/commands/status.ts:23-43 | Neither the store nor the limiter changes, and the handler sends one reply and resolves to `true`. |
| StatusCommand.ReportsRecord | lib/commands/status.ts:24-37 | A found record is reported with its emoji, the upper-cased status and its filename and line. |
| StatusCommand.MissingOrZero | lib/commands/status.ts:26-29 | A missing record gets the not-found reply. |
| StatusCommand.StatusUpperCased | lib/commands/status.ts:37 | The reported status has no lower-case letter. |
| HelpCommand.HelpText | lib/commands/help.ts:18-25 | `--usage` gets the usage text, `--options` the options text, and anything else the default text that points to both. |
| HelpCommand.Execute | lib/commands/help.ts:13-32 | The method performs `Run`. |
| HelpCommand.OneReplyNeverThrows | lib/commands/help.ts:17-31 | The handler sends exactly one reply and resolves to `true`, or to `false` when sending fails. Nothing else changes. |
| HelpCommand.ExampleUsage | lib/commands/help.ts:4-19 | The match trims and lower-cases the line. |
| GrepCommand.MatchesYieldsFile | lib/commands/grep.ts:7-17 | A matching line always yields a filename token. |
| GrepCommand.Entries | lib/commands/grep.ts:27-29 | There is one entry per record, in order. |
| GrepCommand.Execute | lib/commands/grep.ts:10-38 | The method performs `Run`. |
| GrepCommand.ReadOnly | lib/commands/grep.ts:20-37 | Nothing but the chat changes, and the handler sends one reply and resolves to `true`. |
| GrepCommand.ListsFileRecent | lib/commands/grep.ts:20-31 | The reply lists the file's records, at most 5, or says that none were found. |
| ListCommand.Entries | lib/commands/list.ts:21-23 | There is one entry per record, in order. |
| ListCommand.Execute | lib/commands/list.ts:9-32 | The method performs `Run`. |
| ListCommand.ReadOnly | lib/commands/list.ts:13-31 | Nothing but the chat changes, and the handler sends one reply and resolves to `true`. |
| ListCommand.ListsOwnRecent | lib/commands/list.ts:14-25 | The reply lists the caller's records, at most 5, or says there are none. |
| ListCommand.ListsEveryRecordOfFew | lib/commands/list.ts:14-23 | A caller with fewer than 5 records sees each of them. |
| UnknownCommand.Execute | lib/commands/unknown.ts:8-12 | The method performs `Run`. |
| UnknownCommand.FixedReply | lib/commands/unknown.ts:8-12 | The handler sends the fixed reply whatever the message, reads no store state and resolves to `true`. |
| UnknownCommand.CaseSensitive | lib/commands/unknown.ts:5 | The prefix test is case-sensitive. |
| IncompleteArgumentCommand.UseHuh | lib/commands/incomplete-argument.ts:73-84 | The HUH table is used exactly when settings read without error and `useHuhMode` is `true`. |
| IncompleteArgumentCommand.Execute | lib/commands/incomplete-argument.ts:70-121 | The method performs `Run`. |
| IncompleteArgumentCommand.MatchedLineGetsACase | lib/commands/incomplete-argument.ts:46-118 | A line matches exactly when one reply branch applies. |
| IncompleteArgumentCommand.OneReply | lib/commands/incomplete-argument.ts:86-120 | A matched line gets exactly one reply, from the chosen table. |
| IncompleteArgumentCommand.OnlyReplies | lib/commands/incomplete-argument.ts:70-120 | Only the chat changes. |
| IncompleteArgumentCommand.NoCaseNoReply | lib/commands/incomplete-argument.ts:86-120 | A line matching no branch gets no reply, and the handler still resolves to `true`. |
| IncompleteArgumentCommand.ExampleNoId | lib/commands/incomplete-argument.ts:86-88 | `!contrib -A` gets the append-without-id hint. |
| IncompleteArgumentCommand.ExampleNoCode | lib/commands/incomplete-argument.ts:89-91 | `!contrib -A 5` gets the append-without-code hint. |
| ContribCommand.Execute | lib/commands/contrib.ts:20-81 | The method performs `Run`: parse, rate check, format, hash, validate, conflict replies, create. |
| ContribCommand.UnparseableCostsNothing | lib/commands/contrib.ts:25-29 | An unparseable line gets the usage reply. There is no rate charge and no write. |
| ContribCommand.Effect | lib/commands/contrib.ts:25-72 | A parsed line is charged to the limiter. The only write is one new pending record holding the display form. |
| ContribCommand.ConflictPriority | lib/commands/contrib.ts:51-64 | Conflicts are reported in the order personal duplicate, accepted duplicate, line conflict, with one reply and no write. |
| ContribCommand.SavesWhenClear | lib/commands/contrib.ts:38-74 | Without conflicts, `formatCode(code)` is stored under the next id, and the reply names it. |
| ContribCommand.ResubmissionRejected | lib/commands/contrib.ts:38-51 | Sending the same submission again is caught as the caller's own duplicate and creates nothing. |
| ContribCommand.AlwaysTrue | lib/commands/contrib.ts:20-80 | `execute` resolves to `true` with one reply. |
| ContribCommand.KeepsOwnPendingRule | lib/commands/contrib.ts:67-72 | Creating never touches an existing record. |
| Registry.Execute | lib/commands/index.ts:6-10 | Executing a registry entry is executing that handler. |
| Registry.RunKeepsRule | lib/commands/index.ts:6-10 | Every registered handler keeps the own-pending-edit rule and the store's validity. |
| Registry.AppendExcludesContrib | lib/commands/contrib.ts:11-13 | A line that Append matches is never matched by Contrib. |
| Registry.AppendLineRouting | lib/commands/index.ts:6-10 | `!contrib -A 5 fix()` reaches Append only. |
| Registry.NoRegisteredMatch | lib/commands/index.ts:6-10 | A line that none of Help, Append or Contrib matches matches no registered handler. |
| Registry.DeleteLineUnhandled | lib/commands/index.ts:6-10 | `!contrib -D 5` matches Delete, but no registered handler. |
| Tracking.Username | lib/contribution/tracking.ts:25 | The display name when it is non-empty, else the username, else `"undefined"`. |
| Tracking.Dispatch | lib/contribution/tracking.ts:29-48 | The handler loop keeps the store valid and keeps the own-pending-edit rule for the sender. |
| Tracking.Tracker.ProcessMessage | lib/contribution/tracking.ts:8-49 | The method updates the id set and the world exactly as `Process` does. |
| Tracking.Tracker.DispatchLoop | lib/contribution/tracking.ts:29-48 | The `for` loop performs `Dispatch` over the registry. |
| Tracking.DuplicateDropped | lib/contribution/tracking.ts:12-14 | A seen id drops the message: nothing is recorded and no handler runs. |
| Tracking.RecordsIds | lib/contribution/tracking.ts:16-18 | The id set only grows, by at most the message's id. With a valid client, every id-carrying message is recorded, command or not. |
| Tracking.NoIdNoDedup | lib/contribution/tracking.ts:12-18 | A message without an id is handled the same whatever was seen before. |
| Tracking.NonCommandUntouched | lib/contribution/tracking.ts:21-23 | A line not starting with the case-sensitive `!contrib` reaches no handler. |
| Tracking.SelfIgnored | lib/contribution/tracking.ts:59 | The bot's own messages change nothing. |
| Tracking.NoMatchNoEffect | lib/contribution/tracking.ts:29-30 | Handlers whose `matches` is false never run. |
| Tracking.FirstHandledStops | lib/contribution/tracking.ts:40-43 | Once a matching handler resolves to `true`, no later handler runs. |
| Tracking.ProcessKeepsRule | lib/contribution/tracking.ts:8-49 | Processing a message keeps the store valid. It changes only the sender's own pending records and never removes another user's. |
| Tracking.UnregisteredDeleteIgnored | lib/commands/index.ts:6-10 | `!contrib -D 5` changes nothing but the id set. |
| Postgres.RewritePlaceholders | lib/db-postgres.ts:83-87 | The method counts `paramIndex` up as it goes and builds `PgSql`. |
| Postgres.Query | lib/db-postgres.ts:81-95 | The method runs the rewritten statement, and a driver error is rethrown. |
| Postgres.NoPlaceholderLeft | lib/db-postgres.ts:86 | No `?` is left after rewriting. |
| Postgres.RenumberConcat | lib/db-postgres.ts:86 | Numbering continues across concatenation. |
| Postgres.KthPlaceholder | lib/db-postgres.ts:84-87 | The first `?` becomes `$1`, and the rest continue from `$2`. |
| Postgres.RenumberKeepsText | lib/db-postgres.ts:86 | The text between placeholders is kept in order, and the k-th `?` becomes `$k`. |
| Postgres.RewriteMeaning | lib/db-postgres.ts:84-87 | With parameters, the result is the `?`-separated pieces numbered from `$1`, with no `?` left. |
| Postgres.NoParamsUnchanged | lib/db-postgres.ts:84 | Without parameters, or with an empty list, the statement is unchanged. |
| Postgres.Example | lib/db-postgres.ts:86 | `?,?` becomes `$1,$2`. |
| Postgres.GetContributions | lib/db-postgres.ts:23-31 | The accessor returns the rows, or `[]` on error. |
| Postgres.GetContribution | lib/db-postgres.ts:33-41 | The accessor returns the first row, or `null` when there are no rows or on error. |
| Postgres.CheckSimilar | lib/db-postgres.ts:65-79 | The accessor returns whether any row came back, and `false` on error. |
| Postgres.CreateContribution | lib/db-postgres.ts:51-63 | The accessor returns the returned row, or `null` on error. |
| VsCodeBridge.LastIndexOf | extensions/vscode-contrib/extension.js:426 | The result is the last occurrence, or none exactly when the character is absent. |
| VsCodeBridge.Extname | extensions/vscode-contrib/extension.js:426 | The extension is empty or starts with `.`. |
| VsCodeBridge.GetLanguageFromFilename | extensions/vscode-contrib/extension.js:424-451 | The language is `plaintext` exactly when the lower-cased extension is not in the table; otherwise it is a table value. |
| VsCodeBridge.LanguageIgnoresCase | extensions/vscode-contrib/extension.js:426 | The language does not depend on the case of the filename. |
| VsCodeBridge.LanguageOfUpperCase | extensions/vscode-contrib/extension.js:426-448 | `src/App.TSX` is `typescriptreact`. |
| VsCodeBridge.LanguageOfDotFile | extensions/vscode-contrib/extension.js:426-448 | `notes/.md` has no extension, so it is `plaintext`. |
| VsCodeBridge.LanguageOfNoExtension | extensions/vscode-contrib/extension.js:448 | `Makefile` is `plaintext`. |
| VsCodeBridge.Clamp | extensions/vscode-contrib/extension.js:125 | The insertion line is clamped to `[1, lines + 1]`, and a line already in range is kept. |
| VsCodeBridge.Bridge.Activate | extensions/vscode-contrib/extension.js:10-26 | A saved root wins, else the first workspace folder. A saved override is loaded when truthy. |
| VsCodeBridge.Bridge.AutoSetRepositoryRoot | extensions/vscode-contrib/extension.js:458-477 | The root is set to the first folder exactly when there is one. |
| VsCodeBridge.Bridge.SelectRepositoryRoot | extensions/vscode-contrib/extension.js:363-390 | The picked folder becomes the root. A cancelled pick changes nothing. |
| VsCodeBridge.Bridge.ResolveRoot | extensions/vscode-contrib/extension.js:50-73 | The method computes the effective root of `EffectiveRoot`. |
| VsCodeBridge.Bridge.WriteMerged | extensions/vscode-contrib/extension.js:105-144 | The target file gets the merged content, and no other file changes. |
| VsCodeBridge.Bridge.HandleRequest | extensions/vscode-contrib/extension.js:29-207 | The method performs `Handle`, the handler as written, including the error message on a request that throws. |
| VsCodeBridge.Bridge.SetManualPath | extensions/vscode-contrib/extension.js:228-277 | Cancel keeps the override, an empty input clears it, and a new path is set only if it exists or is created. |
| VsCodeBridge.Bridge.CreateFile | extensions/vscode-contrib/extension.js:299-348 | An absolute name is used as given. Otherwise the file goes under the override, else the root, else where the user picks. |
| VsCodeBridge.Handle | extensions/vscode-contrib/extension.js:29-207 | Every response is status 200 with `success: true`. As written, a request that throws (a body that is not JSON, a cancelled dialog, or a negative line number for an existing file) shows the error message with the error response, and never an untitled document. |
| VsCodeBridge.HandleIntended | extensions/vscode-contrib/extension.js:174-186 | As intended, a request never ends in the error message. Every request that throws, including one whose cursor placement fails after the write, recovers its code in an untitled document. |
| VsCodeBridge.HandleDiffersOnlyOnError | extensions/vscode-contrib/extension.js:166-190 | The handler as written and as intended give the same state and response. They differ only in what is shown when the request throws: the error message as written, the recovered code as intended. |
| VsCodeBridge.HandleFrame | extensions/vscode-contrib/extension.js:29-207 | A request changes at most its target file, and writes it whenever it has one. The override is kept, a remembered root stays remembered, and a file the editor opens is the target. |
| VsCodeBridge.NegativeLineWritesThenFails | extensions/vscode-contrib/extension.js:118-153 | For an existing file and a negative line number, the code is inserted at line 1 and written, but placing the cursor throws: the error response and, as written, the error message; as intended, the recovered code. |
| VsCodeBridge.RootPriority | extensions/vscode-contrib/extension.js:51-73 | The root is the override, else the saved root, else the first workspace folder, else the user's pick. |
| VsCodeBridge.ReportedRootIsUsed | extensions/vscode-contrib/extension.js:483-487 | `getPathInfo().effectivePath` reports the root a request used. |
| VsCodeBridge.TargetPathRule | extensions/vscode-contrib/extension.js:76-101 | An absolute `filePath` is used as given, a relative one is joined to the root, and without one the root is joined with the filename or `unknown.txt`. With no root, the user picks. |
| VsCodeBridge.InsertedLines | extensions/vscode-contrib/extension.js:119-131 | With a truthy line number, the lines before the clamped position come first, then the code's lines, then the rest. |
| VsCodeBridge.AppendedLines | extensions/vscode-contrib/extension.js:132-136 | With no line number (or 0), the content is existing + `\n\n` + code. |
| VsCodeBridge.NewFileIsCode | extensions/vscode-contrib/extension.js:137-141 | A new file holds exactly the code, and the line number is ignored. |
| VsCodeBridge.ManualAfterValid | extensions/vscode-contrib/extension.js:236-274 | The override is never set to the empty string. An empty input clears it. |
| VsCodeBridge.CreateFileAgreesWithRequest | extensions/vscode-contrib/extension.js:299-348 | Once a root is known, the command and a request place a relative path in the same place. |
| VsCodeBridge.Recover | extensions/vscode-contrib/extension.js:174-186 | The intended fallback shows the code, or a placeholder, in an untitled document. |
| VsCodeBridge.RecoverAsWritten | extensions/vscode-contrib/extension.js:174-190 | The fallback as written never opens the untitled document. |
| VsCodeBridge.RecoveryUnreachable | extensions/vscode-contrib/extension.js:174-190 | For any request, the fallback as written shows the error, while the corrected one shows the submitted code. |
| DbMetrics.MetricsCollector.Collect | pages/api/db-metrics.ts:13-22 | The history is shifted when it holds more than 100 samples, then the sample is pushed. |
| DbMetrics.MetricsCollector.Handler | pages/api/db-metrics.ts:24-36 | The endpoint reports the current sample, the history and its mean latency, which is 0 for an empty history. |
| DbMetrics.AverageLatency | pages/api/db-metrics.ts:31-33 | The mean is 0 for an empty history. Otherwise the mean times the length is the sum of latencies. |
| DbMetrics.HistoryIsLastSamples | pages/api/db-metrics.ts:15-21 | From empty, the history is the last `min(n, 101)` samples, in order. |
| DbMetrics.HistoryBounded | pages/api/db-metrics.ts:15-21 | From empty, the history never holds more than 101 samples. |
| DbMetrics.TickKeepsOrder | pages/api/db-metrics.ts:15-21 | A tick appends the sample last. It drops the oldest only when more than 100 were held, and keeps the rest in order. |
| DbMetrics.AverageBetween | pages/api/db-metrics.ts:31-33 | The mean lies between the smallest and the largest latency. |
| DbMetrics.AverageExample | pages/api/db-metrics.ts:31-33 | Latencies 10, 20 and 30 average to 20. |
| LegacyServer.SubmissionAt | src/server.ts:27 | A match at a position has a non-empty, whitespace-free filename and a non-empty code without line terminators. |
| LegacyServer.ParseLegacy | src/server.ts:26-37 | `parseContribution` takes the groups of the leftmost match, or returns `null`. |
| LegacyServer.NullOnlyWithoutMatch | src/server.ts:27-29 | The result is `null` only when the pattern matches nowhere. |
| LegacyServer.ParseLegacyRoundTrip | src/server.ts:27-29 | For every whitespace-free filename, digit string and line of code that starts with neither whitespace nor `char:`, `!contrib FILE line:N CODE` parses back to that filename, N's value, no character position and that code. |
| LegacyServer.Example | src/server.ts:26-37 | `!contrib a.js line:3 x` gives `a.js`, line 3, no char, code `x`. |
| LegacyServer.CountDecision | src/server.ts:109-113 | Counting a decision keeps the set of users. |
| LegacyServer.LegacyDatabase.OnMessage | src/server.ts:40-62 | The listener updates the tables as `Receive` does. |
| LegacyServer.LegacyDatabase.PostStatus | src/server.ts:90-119 | The status route updates the tables and answers as `UpdateStatus` does. |
| LegacyServer.IgnoredMessages | src/server.ts:41-44 | Self messages and lines not prefixed with `!contrib` write nothing. |
| LegacyServer.StoresParsedSubmission | src/server.ts:43-59 | A parsed line adds one pending row with the parsed fields under the sender's user row, which is created if missing. |
| LegacyServer.ReceiveKeepsIdsUnique | src/server.ts:51 | User ids stay unique. |
| LegacyServer.StatusWhitelist | src/server.ts:97-116 | Success holds exactly for `accepted` or `rejected` with a working database. Any other status gives 400 and no write. |
| LegacyServer.CountsOneDecision | src/server.ts:102-114 | Accepting raises `accepted_contributions` of the author's row by one, and rejecting raises `rejected_contributions`. Only that row's status changes. |

## Left out

- Whitespace and case: only ASCII whitespace and ASCII case folding are modelled. The Unicode whitespace of `\s`/`trim` (which includes U+2028 and U+2029) and the Unicode case mappings of `toLowerCase`/`toUpperCase` are not. The line terminators that `.` refuses are all four of JavaScript's: line feed, carriage return, U+2028 and U+2029.
- Text.ParseInt: the value is an unbounded integer. JavaScript number precision on very long digit strings is not modelled.
- Regular expressions: each pattern is a hand-written matcher over the leftmost match. The JavaScript regex engine is not modelled.
- Store: it is an abstract store. The handlers call `updateContribution`, `deleteContribution`, `getUserContributions`, `getFileContributions`, `checkContributionConflicts` and `getSettings`, and lib/db-interface.ts declares none of them, so the SQL behind them is not part of this model. As written, lib/db.ts default-exports a raw better-sqlite3 `Database` with none of these methods, so every store call throws; the model expresses that program as a store whose every operation is in `failing`.
- Store.ContributionStore.CheckContributionConflicts: its rules are this model's reading of the flag names, because the store behind it is not part of this model. A personal duplicate is a record of the same user with the same key, with no time window. An accepted duplicate is an accepted record with the same key. A line conflict is another user's pending record on the same file and line.
- Store: records are listed newest first by id, which stands in for `created_at`.
- Postgres: the SQL text, `init`, and the one-hour and `REPLACE` filters of `checkSimilarContribution` are left out. The accessors receive the driver's answer as a parameter.
- Postgres.CreateContribution: an empty successful answer (`rows[0]` is `undefined`) is not specified.
- Postgres: `updateStatus` returns nothing and swallows errors, so it has no observable result to state.
- Chat: a client is either up or `down` for a whole handler run. A client that fails on one send and succeeds on the next is not modelled.
- ContribCommand.KeepsOwnPendingRule: it requires a valid store. Without one, a new id could overwrite an existing record.
- Tracking: the listener registration and its `removeAllListeners` are not modelled, and neither is any interleaving of asynchronous handlers.
- LegacyServer: the username comes from the chat tags as a string, and the route's `id` is a natural number. JavaScript's coercion of other values is not modelled. The `GET /` listing and the server start-up are left out.
- LegacyServer.LegacyDatabase.PostStatus: `dbFails` stands for the first update's error callback. The second update's errors are not reported by the source and are not modelled.
- VsCodeBridge: the model has no dialogs, timers or HTTP server. The file system is a map from path to content; directory creation is left out. Of the editor cursor, only its one effect on the outcome is modelled: for an existing file and a negative line number, `new vscode.Position(lineNumber - 1, 0)` throws after the write.
- VsCodeBridge: `path.join` does no normalisation and only POSIX absolute paths are recognised. `path.basename` with trailing slashes is not modelled.
- VsCodeBridge: `globalState` persistence is left out. The saved values are constructor parameters.
- VsCodeBridge.Handle: a request body without a `code` field is modelled as empty code.
- DbMetrics.MetricsCollector.Handler: the `withAuth` wrapper of lib/authMiddleware.ts, which answers 401 without a session and 403 for a non-owner before the handler runs, is not modelled. The member stands for an authorised request.
- DbMetrics.AverageLatency: the mean is a real number. Floating-point rounding is not modelled.
- Logging (`console.log`/`console.error`) is not modelled.

## Findings

| source | as written | input that shows it | evidently intended | confidence | as-written member | corrected member |
|---|---|---|---|---|---|---|
| extensions/vscode-contrib/extension.js:174-190 | The `catch` block reads `filename` and `code`, which are declared with `const` inside the `try` block. Reading them throws a `ReferenceError`, so the inner `catch` shows an error message and never opens the fallback document. | Any request whose handling throws, for example a body that is not JSON, a cancelled save dialog, or a negative line number for an existing file. | Open an untitled document holding the submitted code (or the placeholder), in the language of the filename. | not executed | VsCodeBridge.Handle, VsCodeBridge.RecoverAsWritten, VsCodeBridge.RecoveryUnreachable | VsCodeBridge.HandleIntended, VsCodeBridge.Recover |
