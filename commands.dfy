/** The argument handling and decisions inside the command handlers of bot.js (the
    `commands` object, lines 58-401). Platform answers (permissions, mentions, API
    responses, deleted message counts) are inputs; each handler yields the replies it
    sends. */
module Commands {
  import opened JsStrings
  import opened JsNumbers
  import opened Dispatch

  const Disabled := "This command is disabled."

  /** `args[0]`: `undefined` when there is no argument. */
  function FirstArg(args: seq<string>): Option<string> {
    if |args| > 0 then Some(args[0]) else None
  }

  /*** roll (bot.js lines 59-73) ***/

  /** `range[i]`, `undefined` past the end of the split. */
  function Piece(ps: seq<string>, i: nat): Option<string> {
    if i < |ps| then Some(ps[i]) else None
  }

  /** The lower bound before the swap: `parseInt(range[0], 10) || 1`, or 1 without an
      argument. It is never 0: a number is taken only when it is non-zero. */
  function RollLow(args: seq<string>): (r: int)
    ensures r != 0
    ensures |args| == 0 ==> r == 1
    ensures |args| > 0 ==> r == 1 || ParseInt(SplitOn(args[0], '-')[0]) == Some(r)
    ensures (|args| > 0 && ParseInt(SplitOn(args[0], '-')[0]).Some? &&
             ParseInt(SplitOn(args[0], '-')[0]).value != 0) ==>
      r == ParseInt(SplitOn(args[0], '-')[0]).value
  {
    if |args| == 0 then 1 else OrElse(ParseInt(SplitOn(args[0], '-')[0]), 1)
  }

  /** The upper bound before the swap: `parseInt(range[1], 10) || 100`, or 100 without
      an argument. It is never 0, and an argument without a '-' leaves it at 100, since
      the missing `range[1]` parses to NaN. */
  function RollHigh(args: seq<string>): (r: int)
    ensures r != 0
    ensures |args| == 0 || |SplitOn(args[0], '-')| < 2 ==> r == 100
    ensures |args| > 0 && |SplitOn(args[0], '-')| >= 2 ==>
      r == 100 || ParseInt(SplitOn(args[0], '-')[1]) == Some(r)
    ensures (|args| > 0 && |SplitOn(args[0], '-')| >= 2 &&
             ParseInt(SplitOn(args[0], '-')[1]).Some? &&
             ParseInt(SplitOn(args[0], '-')[1]).value != 0) ==>
      r == ParseInt(SplitOn(args[0], '-')[1]).value
  {
    if |args| == 0 then 100 else OrElse(ParseArg(Piece(SplitOn(args[0], '-'), 1)), 100)
  }

  /** The range rolled in: the two parsed bounds, in increasing order. */
  function RollRange(args: seq<string>): (r: (int, int))
    ensures r.0 <= r.1
    ensures multiset{r.0, r.1} == multiset{RollLow(args), RollHigh(args)}
  {
    var a, b := RollLow(args), RollHigh(args);
    if a > b then (b, a) else (a, b)
  }

  /** The bound computation of `roll` as the source writes it: defaults, reassignment from
      the parsed pieces, and a swap when the bounds are reversed. */
  method RollBounds(args: seq<string>) returns (min: int, max: int)
    ensures min <= max
    ensures (min, max) == RollRange(args)
  {
    min, max := 1, 100;
    if |args| > 0 {
      var range := SplitOn(args[0], '-');
      min := OrElse(ParseInt(range[0]), min);
      max := OrElse(ParseArg(Piece(range, 1)), max);
      if min > max {
        min, max := max, min;
      }
    }
  }

  /** `Math.floor(Math.random() * (max - min + 1)) + min`: always within the range. */
  function RollResult(lo: int, hi: int, u: Draw): (r: int)
    requires lo <= hi
    ensures lo <= r <= hi
  {
    RandomIndex(u, hi - lo + 1) + lo
  }

  /** Each value of the range comes up for an equal share of the draws: `v` is rolled
      exactly when the draw lies in [(v - lo)/n, (v - lo + 1)/n) for the range's size n. */
  lemma RollResultUniform(lo: int, hi: int, u: Draw, v: int)
    requires lo <= v <= hi
    ensures var n := (hi - lo + 1) as real;
      RollResult(lo, hi, u) == v <==> ((v - lo) as real) / n <= u < ((v - lo + 1) as real) / n
  {
    RandomIndexUniform(u, hi - lo + 1, v - lo);
  }

  /** Every value of the range can come up. */
  lemma RollReachesEveryValue(lo: int, hi: int, v: int)
    requires lo <= v <= hi
    ensures exists u: Draw :: RollResult(lo, hi, u) == v
  {
    var n := hi - lo + 1;
    var k: nat := v - lo;
    var u := (k as real) / (n as real);
    assert 0.0 <= u < 1.0;
    RandomIndexUniform(u, n, k);
    assert ((k + 1) as real) / (n as real) == u + 1.0 / (n as real);
    assert RollResult(lo, hi, u) == v;
  }

  /** The dice card of bot.js lines 67-72: one reply, naming a value of the range. */
  function RollReplies(args: seq<string>, u: Draw): (r: seq<Reply>)
    ensures |r| == 1
    ensures exists v :: (RollRange(args).0 <= v <= RollRange(args).1 &&
                         r[0] == Card("\U{1F3B2} Dice Roll", "You rolled: **" + IntString(v) + "**"))
  {
    var (lo, hi) := RollRange(args);
    [Card("\U{1F3B2} Dice Roll", "You rolled: **" + IntString(RollResult(lo, hi, u)) + "**")]
  }

  /*** joke (bot.js lines 75-88) ***/

  datatype Joke = Joke(setup: string, punchline: string)

  /** `fetched` is the joke API's answer, `None` when anything inside the handler's `try`
      fails: the request, or sending the joke. There is
      exactly one reply; it is an error exactly when the command is disabled or the
      request fails, and a disabled command says so. */
  function JokeReplies(enabled: bool, fetched: Option<Joke>): (r: seq<Reply>)
    ensures |r| == 1
    ensures r[0].ErrorBox? <==> !enabled || fetched.None?
    ensures !enabled ==> r[0] == ErrorBox(Disabled)
    ensures enabled && fetched.Some? ==> r[0].Card? && StartsWith(r[0].description, fetched.value.setup)
  {
    if !enabled then [ErrorBox(Disabled)]
    else match fetched
      case None => [ErrorBox("Failed to fetch a joke.")]
      case Some(j) => [Card("\U{1F602} Random Joke", j.setup + "\n\n*" + j.punchline + "*")]
  }

  /** A disabled `joke` answers "This command is disabled." whatever the API would say:
      it does not call the API. */
  lemma DisabledJokeIgnoresApi(f1: Option<Joke>, f2: Option<Joke>)
    ensures JokeReplies(false, f1) == JokeReplies(false, f2) == [ErrorBox(Disabled)]
  {
  }

  /*** clear (bot.js lines 90-103) ***/

  const ClearRangeError := "Please provide a number between 1 and 100 for the number of messages to delete."

  datatype ClearStep = ClearRefused(reply: Reply) | ClearFetch(limit: int)

  /** The checks of `clear` before it fetches: the flag, then `parseInt(args[0], 10)`,
      which must be an integer from 1 to 100. */
  function ClearStart(enabled: bool, args: seq<string>): (s: ClearStep)
    ensures s.ClearFetch? <==>
      enabled && ParseArg(FirstArg(args)).Some? && 1 <= ParseArg(FirstArg(args)).value <= 100
    ensures s.ClearFetch? ==> ParseArg(FirstArg(args)) == Some(s.limit)
    ensures s.ClearRefused? ==> s.reply == ErrorBox(if enabled then ClearRangeError else Disabled)
  {
    if !enabled then ClearRefused(ErrorBox(Disabled))
    else
      var deleteCount := ParseArg(FirstArg(args));
      if deleteCount.None? || deleteCount.value == 0 || deleteCount.value < 1 || deleteCount.value > 100
      then ClearRefused(ErrorBox(ClearRangeError))
      else ClearFetch(deleteCount.value)
  }

  /** `deleted` is the size of the fetched batch once deleted, `None` when anything
      inside the handler's `try` fails: fetching, deleting, or sending the report. There is exactly one reply, and it reports a deletion exactly when
      the checks pass and the deletion succeeds; otherwise it is an error. */
  function ClearReplies(enabled: bool, args: seq<string>, deleted: Option<nat>): (r: seq<Reply>)
    ensures |r| == 1
    ensures r[0].Text? <==> ClearStart(enabled, args).ClearFetch? && deleted.Some?
    ensures !r[0].Text? ==> r[0].ErrorBox?
  {
    match ClearStart(enabled, args)
    case ClearRefused(r) => [r]
    case ClearFetch(_) =>
      if deleted.Some? then [Text("Successfully deleted " + IntString(deleted.value) + " messages.")]
      else [ErrorBox("Failed to delete messages.")]
  }

  /** A missing argument, like NaN and 0, is refused with the range message. */
  lemma ClearRefusesMissingCount()
    ensures ClearStart(true, []) == ClearRefused(ErrorBox(ClearRangeError))
  {
  }

  lemma ClearRefusesZero()
    ensures ClearStart(true, ["0"]) == ClearRefused(ErrorBox(ClearRangeError))
  {
    ParseSingleDigit('0');
  }

  /*** words (bot.js lines 141-145) ***/

  /** `args.join(' ').split(/\s+/).filter(Boolean).length`. For arguments that are
      words, as the dispatcher's always are, the count is the number of arguments; no
      argument counts 0. */
  function WordCount(args: seq<string>): (n: nat)
    ensures (forall k :: 0 <= k < |args| ==> IsWord(args[k])) ==> n == |args|
  {
    CountJoinedWords(args);
    |FilterNonEmpty(SplitWs(Join(args, " ")))|
  }

  lemma CountJoinedWords(args: seq<string>)
    ensures (forall k :: 0 <= k < |args| ==> IsWord(args[k])) ==>
      |FilterNonEmpty(SplitWs(Join(args, " ")))| == |args|
  {
    if |args| == 0 {
      assert SpaceFrom("", 0) == 0;
      assert SplitWs("") == [""];
    } else if (forall k :: 0 <= k < |args| ==> IsWord(args[k])) {
      SplitJoin(args);
      FilterWords(args);
    }
  }

  /** `Word count: n`, where n is the number of arguments when they are words. */
  function WordsReply(args: seq<string>): (r: Reply)
    ensures (forall k :: 0 <= k < |args| ==> IsWord(args[k])) ==>
      r == Text("Word count: " + IntString(|args|))
  {
    Text("Word count: " + IntString(WordCount(args)))
  }

  /*** who (bot.js lines 147-152) ***/

  const Adjectives: seq<string> := ["funny", "smart", "brave", "creative", "curious"]

  /** `args[0] || 'Someone'`. */
  function WhoName(args: seq<string>): (name: string)
    ensures name != ""
    ensures |args| > 0 && args[0] != "" ==> name == args[0]
    ensures |args| == 0 || args[0] == "" ==> name == "Someone"
  {
    if |args| > 0 && args[0] != "" then args[0] else "Someone"
  }

  /** The reply describes the name with one of the five adjectives. */
  function WhoReply(args: seq<string>, u: Draw): (r: Reply)
    ensures exists a :: a in Adjectives && r == Text(WhoName(args) + " is very " + a + ".")
  {
    var adjective := Adjectives[RandomIndex(u, |Adjectives|)];
    Text(WhoName(args) + " is very " + adjective + ".")
  }

  /*** uptime (bot.js lines 218-223) ***/

  /** Minutes and seconds of an uptime given in milliseconds: `Math.floor(s / 60)` and
      `Math.floor(s % 60)` with `s = ms / 1000`. The pair is the whole number of minutes
      and the whole number of seconds left over. */
  function UptimeParts(ms: nat): (p: (nat, nat))
    ensures p.1 < 60
    ensures 1000 * (60 * p.0 + p.1) <= ms < 1000 * (60 * p.0 + p.1 + 1)
  {
    var s := ms / 1000;
    assert 60 * (s / 60) + s % 60 == s;
    (s / 60, s % 60)
  }

  function UptimeText(ms: nat): string {
    var (minutes, seconds) := UptimeParts(ms);
    "Bot has been online for " + IntString(minutes) + " minutes and " + IntString(seconds) + " seconds."
  }

  /*** timer (bot.js lines 361-370) ***/

  const TimerError := "Please provide a valid number of seconds for the timer."

  /** `ack` is sent at once; `alarm` is scheduled `delayMs` milliseconds later. */
  datatype TimerStep = TimerRefused(reply: Reply) | TimerSet(seconds: int, delayMs: int, ack: Reply, alarm: string)

  /** A timer is set exactly when `parseInt(args[0], 10)` is a positive integer, and the
      delay handed to `setTimeout` is that many seconds in milliseconds. */
  function TimerStart(args: seq<string>, authorMention: string): (t: TimerStep)
    ensures t.TimerSet? <==> ParseArg(FirstArg(args)).Some? && ParseArg(FirstArg(args)).value > 0
    ensures t.TimerSet? ==>
      && ParseArg(FirstArg(args)) == Some(t.seconds)
      && t.delayMs == 1000 * t.seconds && t.delayMs >= 1000
    ensures t.TimerRefused? ==> t.reply == ErrorBox(TimerError)
  {
    var seconds := ParseArg(FirstArg(args));
    if seconds.None? || seconds.value <= 0 then TimerRefused(ErrorBox(TimerError))
    else
      var n := seconds.value;
      TimerSet(n, n * 1000,
               Text("\U{23F3} Timer set for " + IntString(n) + " seconds."),
               authorMention + ", your timer for " + IntString(n) + " seconds is up!")
  }

  /*** crypto (bot.js lines 373-390) ***/

  /** `args[0] ? args[0].toLowerCase() : 'bitcoin'`: the coin is never empty and always in
      lower case. */
  function CryptoCoin(args: seq<string>): (coin: string)
    ensures coin != "" && ToLower(coin) == coin
    ensures |args| > 0 && args[0] != "" ==> coin == ToLower(args[0])
    ensures |args| == 0 || args[0] == "" ==> coin == "bitcoin"
  {
    if |args| > 0 && args[0] != "" then
      var coin := ToLower(args[0]);
      assert forall i :: 0 <= i < |coin| ==> LowerChar(coin[i]) == coin[i];
      coin
    else "bitcoin"
  }

  /** `s.charAt(0).toUpperCase() + s.slice(1)`: only the first character changes, and
      only in case. */
  function Capitalize(s: string): (r: string)
    ensures |r| == |s|
    ensures ToLower(r) == ToLower(s)
    ensures s != [] ==> r[0] == UpperChar(s[0]) && r[1..] == s[1..]
  {
    if s == [] then [] else [UpperChar(s[0])] + s[1..]
  }

  /** The price API's answer: the request (or sending the card, in the same `try`)
      failed, the coin has no (truthy) entry, or its USD price as printed. */
  datatype PriceLookup = RequestFailed | NotListed | Listed(usd: string)

  function CryptoTitle(coin: string): string {
    "Crypto Price: " + Capitalize(coin)
  }

  /** Exactly one reply: the price card, titled with the coin, exactly when the coin is
      listed; an error otherwise. */
  function CryptoReplies(args: seq<string>, lookup: PriceLookup): (r: seq<Reply>)
    ensures |r| == 1
    ensures r[0].Card? <==> lookup.Listed?
    ensures r[0].Card? ==> r[0].title == CryptoTitle(CryptoCoin(args))
    ensures !r[0].Card? ==> r[0].ErrorBox?
  {
    var coin := CryptoCoin(args);
    match lookup
    case RequestFailed => [ErrorBox("Failed to fetch cryptocurrency data.")]
    case NotListed => [ErrorBox("Coin not found or unsupported.")]
    case Listed(usd) => [Card(CryptoTitle(coin), "Current price: $" + usd + " USD")]
  }

  /** The title names the coin that was looked up: lower-casing what follows
      "Crypto Price: " gives the coin back. */
  lemma CryptoTitleNamesCoin(args: seq<string>)
    ensures var coin := CryptoCoin(args);
      var title := CryptoTitle(coin);
      |title| == 14 + |coin| && ToLower(title[14..]) == coin
  {
    var coin := CryptoCoin(args);
    assert CryptoTitle(coin)[14..] == Capitalize(coin);
  }

  /*** kick, ban, mute, unmute (bot.js lines 171-209, 249-277) ***/

  datatype Moderation = Kick | Ban | Mute | Unmute

  function Verb(a: Moderation): string {
    match a
    case Kick => "kick"
    case Ban => "ban"
    case Mute => "mute"
    case Unmute => "unmute"
  }

  predicate NeedsVoice(a: Moderation) {
    a.Mute? || a.Unmute?
  }

  datatype ModStep = ModRefused(reply: Reply) | ModPerform(target: string)

  /** The checks in their order: the author's permission, then a mentioned member (whose
      tag is `mentioned`), then, for mute and unmute, the member's voice channel. */
  function ModerationStart(a: Moderation, hasPermission: bool, mentioned: Option<string>, inVoice: bool): (s: ModStep)
    ensures s.ModPerform? <==> hasPermission && mentioned.Some? && (NeedsVoice(a) ==> inVoice)
    ensures s.ModPerform? ==> s.target == mentioned.value
    ensures !hasPermission ==>
      s == ModRefused(ErrorBox("You do not have permission to " + Verb(a) + " members."))
    ensures hasPermission && mentioned.None? ==>
      s == ModRefused(ErrorBox("Please mention a user to " + Verb(a) + "."))
    ensures hasPermission && mentioned.Some? && NeedsVoice(a) && !inVoice ==>
      s == ModRefused(ErrorBox("User is not in a voice channel."))
  {
    if !hasPermission then ModRefused(ErrorBox("You do not have permission to " + Verb(a) + " members."))
    else if mentioned.None? then ModRefused(ErrorBox("Please mention a user to " + Verb(a) + "."))
    else if NeedsVoice(a) && !inVoice then ModRefused(ErrorBox("User is not in a voice channel."))
    else ModPerform(mentioned.value)
  }

  /** The permission check comes first: without permission nothing about the mention or
      the voice channel matters. */
  lemma PermissionCheckedFirst(a: Moderation, m1: Option<string>, m2: Option<string>, v1: bool, v2: bool)
    ensures ModerationStart(a, false, m1, v1) == ModerationStart(a, false, m2, v2)
  {
  }

  /** `succeeded` says whether the platform action (`kick`, `ban`, `setMute`) and the
      confirmation send, both inside the handler's `try`, succeed.
      There is exactly one reply; it is an error exactly when a check refuses or the
      action fails, and otherwise it starts with the tag of the member acted on. */
  function ModerationReplies(a: Moderation, hasPermission: bool, mentioned: Option<string>, inVoice: bool, succeeded: bool): (r: seq<Reply>)
    ensures |r| == 1
    ensures r[0].ErrorBox? <==> !ModerationStart(a, hasPermission, mentioned, inVoice).ModPerform? || !succeeded
    ensures !r[0].ErrorBox? ==> StartsWith(Shown(r[0]), mentioned.value)
  {
    match ModerationStart(a, hasPermission, mentioned, inVoice)
    case ModRefused(r) => [r]
    case ModPerform(tag) =>
      if !succeeded then [ErrorBox("Failed to " + Verb(a) + " the member.")]
      else match a
        case Kick => [Card("Member Kicked", tag + " has been kicked from the server.")]
        case Ban => [Card("Member Banned", tag + " has been banned from the server.")]
        case Mute => [Text(tag + " has been muted.")]
        case Unmute => [Text(tag + " has been unmuted.")]
  }

  /*** botinfo (bot.js lines 279-284) ***/

  const BotsHeader := "\U{1F916} Bots on this server:\n"

  /** One line per bot tag, in order. */
  function BotLines(tags: seq<string>): string {
    if tags == [] then "" else BotLines(tags[..|tags| - 1]) + tags[|tags| - 1] + "\n"
  }

  /** The `forEach` that appends one line per bot to the header. */
  method BotInfo(botTags: seq<string>) returns (info: string)
    ensures info == BotsHeader + BotLines(botTags)
  {
    info := BotsHeader;
    for i := 0 to |botTags|
      invariant info == BotsHeader + BotLines(botTags[..i])
    {
      assert botTags[..i + 1][..i] == botTags[..i];
      info := info + botTags[i] + "\n";
    }
    assert botTags[..|botTags|] == botTags;
  }

  function CountChar(s: string, c: char): nat {
    if s == [] then 0 else CountChar(s[..|s| - 1], c) + (if s[|s| - 1] == c then 1 else 0)
  }

  lemma {:induction false} CountCharAppend(a: string, b: string, c: char)
    ensures CountChar(a + b, c) == CountChar(a, c) + CountChar(b, c)
    decreases |b|
  {
    if b == [] {
      assert a + b == a;
    } else {
      assert (a + b)[..|a + b| - 1] == a + b[..|b| - 1];
      CountCharAppend(a, b[..|b| - 1], c);
    }
  }

  lemma {:induction false} CountCharAbsent(s: string, c: char)
    requires c !in s
    ensures CountChar(s, c) == 0
    decreases |s|
  {
    if s != [] {
      CountCharAbsent(s[..|s| - 1], c);
    }
  }

  /** When no tag holds a line break, the listing has exactly one line per bot. */
  lemma {:induction false} BotLinesOnePerBot(tags: seq<string>)
    requires forall k :: 0 <= k < |tags| ==> '\n' !in tags[k]
    ensures CountChar(BotLines(tags), '\n') == |tags|
    decreases |tags|
  {
    if tags != [] {
      var init, last := tags[..|tags| - 1], tags[|tags| - 1];
      BotLinesOnePerBot(init);
      CountCharAppend(BotLines(init) + last, "\n", '\n');
      CountCharAppend(BotLines(init), last, '\n');
      CountCharAbsent(last, '\n');
      assert CountChar("\n", '\n') == 1 by {
        assert "\n"[..0] == "";
      }
    }
  }

  /*** the handlers together ***/

  /** What the platform and the outside world answer while a handler runs. One
      `hasPermission` stands for the permission the moderation command checks;
      `elsewhere` is how the handlers outside this model settle. */
  datatype World = World(
    enableClearCommand: bool,
    enableJokeCommand: bool,
    draw: Draw,
    authorMention: string,
    uptimeMs: nat,
    botTags: seq<string>,
    hasPermission: bool,
    mentioned: Option<string>,
    inVoice: bool,
    actionSucceeds: bool,
    joke: Option<Joke>,
    deleted: Option<nat>,
    price: PriceLookup,
    elsewhere: HandlerRun)

  function Moderate(w: World, a: Moderation): HandlerRun {
    Completed(ModerationReplies(a, w.hasPermission, w.mentioned, w.inVoice, w.actionSucceeds))
  }

  /** The commands whose handlers this model covers. */
  const Modelled: set<string> := {
    "roll", "joke", "clear", "words", "who", "uptime", "timer", "crypto", "kick", "ban",
    "mute", "unmute", "botinfo"
  }

  /** Every handler of this model is a key of the `commands` object. */
  lemma ModelledRegistered()
    ensures Modelled <= Registry
  {
  }

  /** `commands[name](message, args)` for the handlers in this model: each of them
      completes with exactly one reply; every other command settles as `elsewhere`. */
  function Run(w: World, name: string, args: seq<string>): (r: HandlerRun)
    ensures name in Modelled ==> r.Completed? && |r.sent| == 1
    ensures name !in Modelled ==> r == w.elsewhere
  {
    if name == "roll" then Completed(RollReplies(args, w.draw))
    else if name == "joke" then Completed(JokeReplies(w.enableJokeCommand, w.joke))
    else if name == "clear" then Completed(ClearReplies(w.enableClearCommand, args, w.deleted))
    else if name == "words" then Completed([WordsReply(args)])
    else if name == "who" then Completed([WhoReply(args, w.draw)])
    else if name == "uptime" then Completed([Text(UptimeText(w.uptimeMs))])
    else if name == "timer" then
      match TimerStart(args, w.authorMention)
      case TimerRefused(r) => Completed([r])
      case TimerSet(_, _, ack, _) => Completed([ack])
    else if name == "crypto" then Completed(CryptoReplies(args, w.price))
    else if name == "kick" then Moderate(w, Kick)
    else if name == "ban" then Moderate(w, Ban)
    else if name == "mute" then Moderate(w, Mute)
    else if name == "unmute" then Moderate(w, Unmute)
    else if name == "botinfo" then Completed([Text(BotsHeader + BotLines(w.botTags))])
    else w.elsewhere
  }

  /** Which handler each modelled name runs, for the entries of the `commands` object
      that no scenario lemma of `Bot` pins. */
  lemma RunRoll(w: World, args: seq<string>)
    ensures Run(w, "roll", args) == Completed(RollReplies(args, w.draw))
  {
  }

  lemma RunWho(w: World, args: seq<string>)
    ensures Run(w, "who", args) == Completed([WhoReply(args, w.draw)])
  {
  }

  lemma RunUptime(w: World, args: seq<string>)
    ensures Run(w, "uptime", args) == Completed([Text(UptimeText(w.uptimeMs))])
  {
  }

  /** `timer` sends the refusal, or the acknowledgement of a timer that is set. */
  lemma RunTimer(w: World, args: seq<string>)
    ensures TimerStart(args, w.authorMention).TimerSet? ==>
      Run(w, "timer", args) == Completed([TimerStart(args, w.authorMention).ack])
    ensures TimerStart(args, w.authorMention).TimerRefused? ==>
      Run(w, "timer", args) == Completed([TimerStart(args, w.authorMention).reply])
  {
  }

  lemma RunCrypto(w: World, args: seq<string>)
    ensures Run(w, "crypto", args) == Completed(CryptoReplies(args, w.price))
  {
  }

  lemma RunBotInfo(w: World, args: seq<string>)
    ensures Run(w, "botinfo", args) == Completed([Text(BotsHeader + BotLines(w.botTags))])
  {
  }

  /** The moderation commands each run their own action. */
  lemma RunKickBan(w: World, args: seq<string>)
    ensures Run(w, "kick", args) == Moderate(w, Kick)
    ensures Run(w, "ban", args) == Moderate(w, Ban)
  {
  }

  lemma RunMuteUnmute(w: World, args: seq<string>)
    ensures Run(w, "mute", args) == Moderate(w, Mute)
    ensures Run(w, "unmute", args) == Moderate(w, Unmute)
  {
  }
}
