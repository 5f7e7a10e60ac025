# A verified model of the bot.js command dispatcher

bot.js is a Discord bot. It loads a configuration file, then answers chat messages that start with a configured prefix (default `!`).

Its `messageCreate` listener does the following:
- ignores bots and messages without the prefix, comparing without regard to case;
- cuts the prefix off, trims the rest and splits it at whitespace runs;
- takes the lower-cased first token as the command name and looks it up among 26 registered handlers;
- answers an unknown name with an "Unknown command" error;
- turns a handler that throws into one generic error reply plus a log line.

This model covers thirteen handlers:
- `roll`, `clear`, `words`, `who`, `timer` and `crypto` read their arguments;
- `joke` and `clear` first check a configuration flag;
- `kick`, `ban`, `mute` and `unmute` check the author's permission, the mentioned member and, for muting, the voice channel;
- `uptime` and `botinfo` format what the platform reports.

This project models that decision logic in Dafny. The modules are:

- `JsStrings`: the JavaScript string operations the bot relies on. These are the `\s` character class, `trim`, `split(/\s+/)`, `split('-')`, `join` and ASCII `toLowerCase`.
- `JsNumbers`:
  - `parseInt(s, 10)` as an `Option<int>`, where NaN is `None`;
  - the `|| d` fallback;
  - how a template string prints an integer;
  - `Math.floor(Math.random() * n)`, with the random value as an exact real in [0, 1).
- `Config`: the configuration read at start-up.
  - A `Settings` class holds the module-level variables.
  - `Load` assigns them from a parsed file, or leaves them untouched when the file cannot be read and the process exits.
  - The command flags follow the `!== false` rule.
- `Dispatch`: the `messageCreate` listener.
  - `Decide` gives the decision: ignore, unknown name, or invoke with arguments.
  - `OnMessage` gives the whole reaction (replies and log lines), given any handler.
- `Commands`: the argument handling of the handlers listed above.
  - Platform facts are inputs: permissions, the mentioned member, the voice channel, the API answers and the deleted message count.
  - `roll`'s bound computation and `botinfo`'s accumulation loop are imperative methods, proved against the functions that specify them.
- `Bot`: the dispatcher wired to the handlers, and end-to-end properties of whole messages.

## Model

| member | source | states |
|---|---|---|
| JsStrings.IsSpace | bot.js:413 | no contract; the definition lists the characters `\s` matches in `trim`, `split(/\s+/)` and `parseInt`: ECMAScript's WhiteSpace and LineTerminator sets |
| JsStrings.ToLower | bot.js:411 | lower-casing keeps the length and maps every character by the ASCII case rule |
| JsStrings.TrimStart | bot.js:413 | the result is a suffix of the input that does not start with whitespace, and everything removed is whitespace |
| JsStrings.TrimEnd | bot.js:413 | the result is a prefix of the input that does not end with whitespace, and everything removed is whitespace |
| JsStrings.Trim | bot.js:413 | the trimmed text neither starts nor ends with whitespace; it is empty exactly when the input is all whitespace; it keeps every non-whitespace character in order |
| JsStrings.TrimAround | bot.js:413 | whitespace, then a text that neither starts nor ends with whitespace, then whitespace, trims to exactly that text; every string splits this way, so this fixes where `trim()` cuts |
| JsStrings.TrimStartSkips | bot.js:413 | leading whitespace does not change what `trimStart` leaves |
| JsStrings.TrimEndSkips | bot.js:413 | trailing whitespace does not change what `trimEnd` leaves |
| JsStrings.Squeeze | bot.js:413 | the non-whitespace characters of a string contain no whitespace |
| JsStrings.SplitWs | bot.js:413 | splitting at whitespace runs yields at least one piece; no piece holds whitespace; only the first and the last piece can be empty, and the first is not when the string starts with a non-whitespace character |
| JsStrings.Gaps | bot.js:413 | the whitespace runs the split cuts at: one fewer than the pieces, each a non-empty run of whitespace |
| JsStrings.SplitWsCuts | bot.js:413 | the pieces with the cut whitespace runs between them give the string back, so the split loses nothing and cuts only at whitespace runs |
| JsStrings.SplitInterleave | bot.js:413 | whitespace-free pieces, none empty except possibly the first and the last, put together with any non-empty whitespace runs, split back into exactly those pieces |
| JsStrings.SplitWsStep | bot.js:413 | a whitespace-free piece, a whitespace run and a rest not starting with whitespace split into that piece followed by the rest's pieces |
| JsStrings.SplitWsWords | bot.js:413 | splitting a trimmed, non-empty string at whitespace runs yields only non-empty, whitespace-free tokens |
| JsStrings.SplitWsSqueeze | bot.js:413 | the tokens together hold exactly the non-whitespace characters of the input, in order: splitting loses and invents nothing |
| JsStrings.SplitJoin | bot.js:142-143 | joining words with single spaces and splitting at whitespace gives the same words back |
| JsStrings.JoinInterleave | bot.js:142 | `join(sep)` puts `sep` between every two pieces and nowhere else |
| JsStrings.FilterNonEmpty | bot.js:143 | `filter(Boolean)` keeps exactly the non-empty pieces: every kept piece is non-empty and comes from the input, and every non-empty input piece is kept |
| JsStrings.FilterNonEmptyAppend | bot.js:143 | filtering a concatenation filters each part and concatenates, so the kept pieces stay in input order |
| JsStrings.FilterWords | bot.js:143 | filtering a list without empty strings changes nothing |
| JsStrings.SplitOn | bot.js:62 | `split('-')` gives at least one piece, and no piece contains the separator |
| JsStrings.SplitOnJoin | bot.js:62 | joining the pieces of `split('-')` with the separator gives the original string back |
| JsNumbers.DigitRun | bot.js:63-64 | the digit prefix `parseInt` reads is all digits and is followed by a non-digit or the end |
| JsNumbers.OrElse | bot.js:63-64 | `v \|\| d` is `v` when it is a non-zero number and `d` for NaN and zero |
| JsNumbers.NatString | bot.js:71 | a natural number prints as a non-empty string of digits: "0" exactly for zero and without a leading zero otherwise |
| JsNumbers.NatStringValue | bot.js:71 | the printed digits have the number's value |
| JsNumbers.IntString | bot.js:71 | an integer prints with a leading minus sign exactly when it is negative, followed by digits only, with no leading zero: "0" exactly for zero |
| JsNumbers.ParseInt | bot.js:63 | `parseInt` is NaN exactly when no digit, or sign and digit, follows the leading whitespace; a negative result needs a minus sign there |
| JsNumbers.ParseIntString | bot.js:71 | parsing what a template string prints for an integer gives the integer back |
| JsNumbers.ParseIntSkipsSpace | bot.js:63 | leading whitespace does not change what `parseInt` reads |
| JsNumbers.ParseIntStopsAtNonDigit | bot.js:63 | `parseInt` reads the leading digits and ignores whatever follows the first non-digit |
| JsNumbers.ParseIntNoDigit | bot.js:63 | a string without digits parses to NaN |
| JsNumbers.ParseSignedSign | bot.js:63 | after the whitespace, a '+' gives the value of the digits that follow and a '-' its negation |
| JsNumbers.ParseIntAfterSpace | bot.js:63 | after leading whitespace, a text that starts with any other character is parsed from that character on |
| JsNumbers.ParseIntPlus | bot.js:63 | `parseInt` of whitespace, '+' and a text is the value of the digits at the start of that text |
| JsNumbers.ParseIntMinus | bot.js:63 | `parseInt` of whitespace, '-' and a text starting with digits is the negated value of those digits |
| JsNumbers.ParseArg | bot.js:92 | `parseInt(undefined, 10)`, a missing argument, is NaN; a present argument parses as its string |
| JsNumbers.ParseSingleDigit | bot.js:63 | a one-digit string parses to that digit's value |
| JsNumbers.RandomIndex | bot.js:67 | `Math.floor(Math.random() * n)` is an index below `n` |
| JsNumbers.RandomIndexUniform | bot.js:67 | the index is `k` exactly for the draws in [k/n, (k+1)/n), so every index has an equal share |
| Config.FlagIsNotTruthiness | bot.js:31-32 | a command flag is off only for literal `false`: absent, null, 0 and "" leave it on, though all are falsy |
| Config.StringOr | bot.js:28 | `v \|\| d` for a string setting is `v` when it is a non-empty string and `d` when it is absent or empty |
| Config.PrefixSetting | bot.js:28 | the prefix in effect is never empty: it is the configured prefix when that is a non-empty string, and `!` when the setting is absent or empty |
| Config.MissingCommandsSectionEnables | bot.js:31-32 | without a `commands` section both optional commands are enabled |
| Config.Settings.constructor | bot.js:18-23 | the initial values: logging off, log file `./bot.log`, both optional commands enabled |
| Config.Settings.Load | bot.js:25-36 | start-up succeeds exactly when the file is readable; then every setting takes its configured value or its fallback; otherwise nothing changes |
| Dispatch.Registry | bot.js:58-401 | no contract; the definition lists the 26 keys of the `commands` object |
| Commands.ModelledRegistered | bot.js:58-401 | every handler this model covers is a key of the `commands` object |
| Dispatch.AddressedChars | bot.js:411 | a message is addressed exactly when it is at least as long as the prefix and its first characters equal the prefix's, ignoring ASCII case |
| Dispatch.Tokens | bot.js:413 | the arguments are words; the tokens hold exactly the non-whitespace text after the prefix; the name is empty exactly when only whitespace follows the prefix, and then there are no arguments |
| Dispatch.TokensSpaced | bot.js:413-414 | when whitespace, then words separated by any non-empty whitespace runs, then whitespace follow the prefix, the tokens are exactly those words |
| Dispatch.Decide | bot.js:409-421 | ignored exactly when the author is a bot or the prefix does not match (ignoring case); otherwise the name is the lower-cased first token; an invoked name is registered and its arguments are the remaining tokens; an unknown name is not registered |
| Dispatch.IgnoredMessage | bot.js:410-411 | an ignored message gets no reply and no log line, whatever the handler would do |
| Dispatch.PrefixCaseInsensitive | bot.js:411 | two prefixes that differ only in case give the same decision for every message |
| Dispatch.BarePrefix | bot.js:413-414 | a message that is only the prefix, possibly followed by whitespace, names the empty command, which is unknown |
| Dispatch.HandlerRunsOnlyOnInvoke | bot.js:416-421 | unless a registered command is invoked, the handler does not affect the reaction |
| Dispatch.UnknownText | bot.js:420 | no contract; the definition spells out "Unknown command: ", the name, and the hint to use the prefix followed by `help` |
| Dispatch.UnknownCommandReply | bot.js:416-421 | an unregistered name gets exactly the "Unknown command" reply naming it and the prefix, and one "Command received" log line |
| Dispatch.HandlerFailureContained | bot.js:423-428 | a failing handler's replies stay, followed by exactly one generic error reply, and the failure is logged with the command name |
| Dispatch.OnMessage | bot.js:409-429 | nothing is logged exactly when the message is ignored, and then nothing is sent; otherwise the first log line names the command; an invoked handler's replies come first and in order, and a completing handler adds no reply and one log line |
| Commands.RollLow | bot.js:63 | the lower bound is never 0: 1 without an argument; the first piece of the argument when it parses to a non-zero number; the fallback 1 otherwise |
| Commands.RollHigh | bot.js:64 | the upper bound is never 0: 100 without an argument or without a '-' in it; the second piece when it parses to a non-zero number; the fallback 100 otherwise |
| Commands.RollRange | bot.js:60-65 | the rolled range is ordered, and its ends are the two parsed bounds (swapped when reversed) |
| Commands.RollBounds | bot.js:60-65 | the default, parse-and-fallback and swap steps yield an ordered pair equal to the specified range |
| Commands.RollResult | bot.js:67 | the roll lies within the range |
| Commands.RollReachesEveryValue | bot.js:67 | every value of the range can be rolled |
| Commands.RollResultUniform | bot.js:67 | value `v` is rolled exactly for the draws in [(v - lo)/n, (v - lo + 1)/n), so every value of the range has an equal share |
| Commands.RollReplies | bot.js:67-72 | one reply: the dice card naming a value of the range |
| Commands.JokeReplies | bot.js:75-88 | exactly one reply; an error exactly when the command is disabled or the request or send fails; a disabled command says so; a joke card starts with the setup |
| Commands.DisabledJokeIgnoresApi | bot.js:76 | a disabled `joke` answers "This command is disabled." whatever the joke API would return |
| Commands.ClearStart | bot.js:91-95 | `clear` fetches exactly when it is enabled and the first argument parses to an integer from 1 to 100, with that limit; otherwise it sends the disabled or range error |
| Commands.ClearReplies | bot.js:90-103 | exactly one reply; it reports a deletion exactly when the checks pass and fetching, deleting and sending succeed; otherwise it is an error |
| Commands.ClearRefusesMissingCount | bot.js:92-95 | `clear` without an argument gets the range error |
| Commands.ClearRefusesZero | bot.js:92-95 | `clear 0` gets the range error |
| Commands.WordCount | bot.js:142-143 | for the arguments the dispatcher passes, the word count is the number of arguments, and 0 without arguments |
| Commands.WordsReply | bot.js:144 | for word arguments the reply is `Word count: ` and the number of arguments |
| Commands.WhoName | bot.js:148 | the name is the first argument when there is one, otherwise "Someone"; it is never empty |
| Commands.WhoReply | bot.js:148-151 | the reply calls the name one of the five adjectives |
| Commands.UptimeText | bot.js:222 | no contract; the definition spells out the text "Bot has been online for m minutes and s seconds." with the parts of `UptimeParts` |
| Commands.UptimeParts | bot.js:219-221 | the whole minutes and leftover whole seconds of the uptime: seconds are below 60, and the two together bracket the uptime to within a second |
| Commands.TimerStart | bot.js:362-369 | a timer is set exactly when the first argument parses to a positive integer, and the delay handed to `setTimeout` is 1000 times that many milliseconds; otherwise the timer error is sent |
| Commands.CryptoCoin | bot.js:374 | the coin is the lower-cased first argument, or "bitcoin" without one; it is never empty and always lower-case |
| Commands.Capitalize | bot.js:384 | capitalising keeps the length and changes only the case of the first character |
| Commands.CryptoTitleNamesCoin | bot.js:384 | lower-casing the title after "Crypto Price: " gives back the coin that was looked up |
| Commands.CryptoReplies | bot.js:373-390 | exactly one reply: the price card titled with the coin exactly when the coin is listed, an error otherwise |
| Commands.ModerationStart | bot.js:250-256 | the action happens exactly with permission, a mentioned member and (for mute and unmute) a voice channel; each failed check has its exact error, in that order |
| Commands.PermissionCheckedFirst | bot.js:172-177 | without permission the answer is the same whatever was mentioned and whatever the voice state |
| Commands.ModerationReplies | bot.js:171-209 | exactly one reply; an error exactly when a check refuses or the action or its confirmation fails; otherwise it starts with the tag of the member acted on |
| Commands.BotInfo | bot.js:280-282 | the loop builds the header followed by one line per bot tag, in order |
| Commands.BotLinesOnePerBot | bot.js:282 | when no tag holds a line break, the listing has exactly one line per bot |
| Commands.Run | bot.js:418 | each modelled handler completes with exactly one reply; every other command settles as the outside world says |
| Commands.RunRoll | bot.js:59 | `roll` runs the roll handler |
| Commands.RunWho | bot.js:147 | `who` runs the who handler |
| Commands.RunUptime | bot.js:218 | `uptime` runs the uptime handler |
| Commands.RunTimer | bot.js:361 | `timer` sends the refusal, or the acknowledgement of the timer it sets |
| Commands.RunCrypto | bot.js:373 | `crypto` runs the crypto handler |
| Commands.RunBotInfo | bot.js:279 | `botinfo` sends the header and one line per bot |
| Commands.RunKickBan | bot.js:171-209 | `kick` and `ban` run the moderation handler with their own action |
| Commands.RunMuteUnmute | bot.js:249-277 | `mute` and `unmute` run the moderation handler with their own action |
| Bot.Handle | bot.js:409-429 | an invoked command this model covers gets exactly one reply and one log line |
| Bot.HandleCompleted | bot.js:416-424 | an invoked command whose handler completes gets exactly that handler's replies and one "Command received" line |
| Bot.RollReversedRange | bot.js:60-67 | `!roll 5-1` is invoked with argument `5-1`, rolls in [1, 5] after the swap, and replies with a number from 1 to 5 |
| Bot.DecideSpaced | bot.js:411-414 | a prefix, then whitespace, words separated by any non-empty whitespace runs, and whitespace, names the lower-cased first word and passes the other words unchanged |
| Bot.RollAnySpacing | bot.js:411-414 | `!roll 5-1` with any whitespace around and between the words asks for `roll` with the single argument `5-1` |
| Bot.UnknownFoo | bot.js:416-421 | `!foo` gets the "Unknown command" reply for `foo` with prefix `!`, and a "Command received: foo" log line |
| Bot.WordsCountsArguments | bot.js:142-143 | through the dispatcher, `words` reports exactly the number of arguments |
| Bot.DisabledCommandAnswers | bot.js:76 | a disabled `joke` or `clear` still passes the dispatcher, is logged as received, and answers only "This command is disabled." |
| Bot.ClearLimitInRange | bot.js:92-99 | `clear` only ever fetches with a limit from 1 to 100 |

## Left out

- Discord is not modelled: the client, embeds (colours and images), sending, fetching and bulk-deleting messages, kicking, banning and muting, and log-in. A handler's outcome is the replies it sends; platform answers are inputs in `Commands.World`.
- The HTTP calls (joke, crypto, today, fact, quote) and the `figlet` callback are not modelled. Their answers are inputs.
- The handlers `userinfo`, `serverinfo`, `ping`, `prediction`, `8ball`, `random_player`, `today`, `fact`, `fortune`, `ascii`, `help`, `quote` and `avatar` are not modelled. All of them settle as the input `World.elsewhere`. Most do only a random choice or I/O. The help text is static. `random_player` refuses a server without non-bot members. `ascii` refuses empty text with "Please provide some text for ASCII conversion." (bot.js:298-299) before calling `figlet`.
- In `joke`, `clear`, `crypto`, `kick`, `ban`, `mute` and `unmute` the success path's awaited `channel.send` is inside the handler's own `try`. A rejected send there is answered by the handler's catch. The model folds it into the failure input (`joke == None`, `deleted == None`, `RequestFailed`, `actionSucceeds == false`).
- Commands.Run: a rejected send reaches the dispatcher's generic error (bot.js:423-427) from every awaited or returned send of `roll`, `words`, `who`, `uptime`, `timer` and `botinfo`. The exception is the timer's alarm at bot.js:369: it is sent from a `setTimeout` callback after the handler has finished, so nothing awaits it and its rejection goes unhandled. It does so too from the guard replies of the other modelled handlers. Those are returned outside the local `try`: `joke` at bot.js:76, `clear` at bot.js:91 and 94, `kick`, `ban`, `mute` and `unmute` at bot.js:173, 177, 193, 197, 251, 254, 266 and 269. Others are returned from inside the `try` without `await`, so its `catch` does not see the rejection: bot.js:256, 271 and 379. `Run` treats all thirteen handlers as always completing. `Dispatch.OnMessage` does model a failing handler.
- Commands.TimerStart: only the validation, the acknowledgement and the delay handed to `setTimeout` are modelled. When the alarm actually fires is not modelled; Node fires at once for delays above 2147483647 ms.
- Logging keeps only the lines handed to `logWithTime`. The timestamp, console output and file append are not modelled. The start-up "Bot is online" line is not modelled either.
- The order of replies relative to log lines is not modelled.
- `Config.Settings.Load`: a file that is not a JSON object, a null one, or one whose `prefix` is not a string is not modelled. A file that cannot be read or parsed is `None`.
- `Config.Settings.Load`: `token` is a string, with "" for the undefined initial value. A non-string `token`, or a truthy non-string `logging.logFilePath`, is not modelled: both settings are typed as strings.
- Command lookup uses the explicit set of 26 handler names. JavaScript prototype lookups such as `commands["constructor"]` are not modelled.
- Case mapping is ASCII only. Non-ASCII `toLowerCase`, which can change a string's length, is not modelled.
- Numbers are exact integers, not doubles: NaN is `None` and -0 is 0. Precision loss for integers beyond 2^53 is not modelled.
- `Commands.UptimeParts` uses integer milliseconds and exact division, not floating-point division.
- `Math.random()` is an exact real in [0, 1), not a double.
- `crypto`: the printed price is an input string. Lookups of coin names that hit JavaScript object properties are not modelled.
- Moderation: one `hasPermission` input stands for the permission that the running command checks (kick, ban or mute). Messages outside a server, where `message.member` is null and the check throws, are not modelled.
- `botinfo`: the bot tags of the member cache are an input, in cache order.
- Trim: its own contract does not say where it cuts. `JsStrings.TrimAround` does, for every input.
- SplitWs: its own contract does not say where it cuts. `JsStrings.Gaps`, `JsStrings.SplitWsCuts` and `JsStrings.SplitInterleave` do, for every input.
- Tokens: its own contract fixes the tokens' characters and order but not where they are cut. `Dispatch.TokensSpaced` fixes the tokens for every text made of whitespace, words and whitespace runs.
- Bot.UnknownFoo: the reply is stated as `UnknownText("foo", "!")`, whose definition spells out the message text, rather than as one literal string.
