/** The `messageCreate` handler of bot.js (lines 409-429): it decides whether a message
    is a command, splits it into a command name and arguments, looks the name up among
    the registered commands, runs the handler and turns a handler failure into a
    generic error reply. */
module Dispatch {
  import opened JsStrings

  /** The keys of the `commands` object (bot.js lines 58-401). */
  const Registry: set<string> := {
    "roll", "joke", "clear", "userinfo", "serverinfo", "ping", "words", "who",
    "prediction", "8ball", "kick", "ban", "random_player", "uptime", "today", "fact",
    "mute", "unmute", "botinfo", "fortune", "ascii", "help", "quote", "timer",
    "crypto", "avatar"
  }

  /** What the handler sees of an incoming message. */
  datatype Message = Message(authorIsBot: bool, authorTag: string, content: string)

  /** A message the bot sends to the channel: plain text, the red "Error" embed of
      `handleError`, or another embed with a title and a description. */
  datatype Reply = Text(body: string) | ErrorBox(description: string) | Card(title: string, description: string)

  /** The text a reply shows: the body of a plain message, the description of an embed. */
  function Shown(r: Reply): string {
    match r
    case Text(b) => b
    case ErrorBox(d) => d
    case Card(_, d) => d
  }

  /** How a handler's promise settles: with the replies it sent, or rejected after
      sending some replies. */
  datatype HandlerRun = Completed(sent: seq<Reply>) | Failed(sent: seq<Reply>, error: string)

  /** The dispatcher's decision about one message. */
  datatype Decision = Ignore | Unknown(name: string) | Invoke(name: string, args: seq<string>)

  /** Everything one message causes: replies in order and lines given to `logWithTime`. */
  datatype Reaction = Reaction(replies: seq<Reply>, log: seq<string>)

  const GenericFailure := "An error occurred while executing the command."

  /** Whether the lower-cased content starts with the lower-cased prefix. */
  predicate Addressed(content: string, prefix: string) {
    StartsWith(ToLower(content), ToLower(prefix))
  }

  /** A message is addressed to the bot exactly when it is at least as long as the
      prefix and its first characters match the prefix's, ignoring ASCII case. */
  lemma AddressedChars(content: string, prefix: string)
    ensures Addressed(content, prefix) <==>
      |prefix| <= |content| && forall i :: 0 <= i < |prefix| ==> LowerChar(content[i]) == LowerChar(prefix[i])
  {
    if |prefix| <= |content| {
      var lc := ToLower(content);
      assert forall i :: 0 <= i < |prefix| ==> lc[..|prefix|][i] == LowerChar(content[i]);
    }
  }

  /** `content.slice(prefix.length).trim().split(/\s+/)`: the first token is the command
      name (before lower-casing), the rest are the arguments. Every argument is a
      non-empty whitespace-free word, the tokens hold exactly the non-whitespace
      characters of the text after the prefix in their order and case, and the name is
      empty exactly when nothing but whitespace follows the prefix. */
  function Tokens(content: string, prefix: string): (ts: seq<string>)
    requires |prefix| <= |content|
    ensures |ts| >= 1
    ensures forall k :: 1 <= k < |ts| ==> IsWord(ts[k])
    ensures Concat(ts) == Squeeze(content[|prefix|..])
    ensures ts[0] == "" <==> AllSpace(content[|prefix|..])
    ensures ts[0] == "" ==> ts == [""]
  {
    SplitTrimmed(content[|prefix|..]);
    SplitWs(Trim(content[|prefix|..]))
  }

  /** Helper for `Tokens`: what splitting the trimmed text gives. */
  lemma SplitTrimmed(s: string)
    ensures !AllSpace(s) ==> forall k :: 0 <= k < |SplitWs(Trim(s))| ==> IsWord(SplitWs(Trim(s))[k])
    ensures Concat(SplitWs(Trim(s))) == Squeeze(s)
    ensures AllSpace(s) ==> SplitWs(Trim(s)) == [""]
  {
    if AllSpace(s) {
      SplitTrimmedBlank(s);
    } else {
      SplitTrimmedWords(s);
    }
    SplitTrimmedSqueeze(s);
  }

  /** Helper for `SplitTrimmed`: a blank text leaves one empty token. */
  lemma SplitTrimmedBlank(s: string)
    requires AllSpace(s)
    ensures SplitWs(Trim(s)) == [""]
  {
    assert Trim(s) == [];
    assert SpaceFrom([], 0) == 0;
  }

  /** Helper for `SplitTrimmed`: any other text splits into words only. */
  lemma SplitTrimmedWords(s: string)
    requires !AllSpace(s)
    ensures forall k :: 0 <= k < |SplitWs(Trim(s))| ==> IsWord(SplitWs(Trim(s))[k])
  {
    var t := Trim(s);
    assert t != [] && !IsSpace(t[0]) && !IsSpace(t[|t| - 1]);
    SplitWordsIndexed(t);
  }

  /** Helper for `SplitTrimmedWords`: `SplitWsWords` by position. */
  lemma SplitWordsIndexed(t: string)
    requires t != [] && !IsSpace(t[0]) && !IsSpace(t[|t| - 1])
    ensures forall k :: 0 <= k < |SplitWs(t)| ==> IsWord(SplitWs(t)[k])
  {
    var ts := SplitWs(t);
    SplitWsWords(t);
    assert forall k :: 0 <= k < |ts| ==> ts[k] in ts;
  }

  /** Helper for `SplitTrimmed`: the tokens keep the non-whitespace characters. */
  lemma SplitTrimmedSqueeze(s: string)
    ensures Concat(SplitWs(Trim(s))) == Squeeze(s)
  {
    SplitWsSqueeze(Trim(s));
  }

  /** The decision for a message: ignored when the author is a bot or the prefix does
      not match, ignoring case; otherwise the lower-cased first token names the command,
      and only a registered name is invoked, with the remaining tokens as arguments. */
  function Decide(authorIsBot: bool, content: string, prefix: string): (d: Decision)
    ensures d.Ignore? <==> authorIsBot || !Addressed(content, prefix)
    ensures d.Invoke? ==> d.name in Registry && forall k :: 0 <= k < |d.args| ==> IsWord(d.args[k])
    ensures d.Unknown? ==> d.name !in Registry
    ensures !d.Ignore? ==>
      var ts := Tokens(content, prefix);
      d.name == ToLower(ts[0]) && (d.Invoke? ==> d.args == ts[1..])
  {
    if authorIsBot || !Addressed(content, prefix) then Ignore
    else
      var ts := Tokens(content, prefix);
      var name := ToLower(ts[0]);
      if name in Registry then Invoke(name, ts[1..]) else Unknown(name)
  }

  /** `commands[name]`: a registered name is invoked with the arguments, any other is
      unknown. */
  function Lookup(name: string, args: seq<string>): Decision {
    if name in Registry then Invoke(name, args) else Unknown(name)
  }

  /** The text of the reply to an unregistered name. */
  function UnknownText(name: string, prefix: string): string {
    "Unknown command: " + name + ". Use `" + prefix + "help` to see available commands."
  }

  function ReceivedLine(name: string, authorTag: string): string {
    "Command received: " + name + " from " + authorTag
  }

  function FailureLine(name: string, error: string): string {
    "Error executing command " + name + ": " + error
  }

  /** The whole reaction to one message; `handler` stands for `commands[name]` called
      with the arguments and awaited. Nothing is logged exactly when the message is
      ignored, and then nothing is sent; otherwise the first log line records the
      command name. An invoked handler's replies come first and in order; a handler that
      completes adds nothing to them and one log line. */
  function OnMessage(m: Message, prefix: string, handler: (string, seq<string>) -> HandlerRun): (r: Reaction)
    ensures r.log == [] <==> Decide(m.authorIsBot, m.content, prefix).Ignore?
    ensures r.log == [] ==> r.replies == []
    ensures r.log != [] ==> r.log[0] == ReceivedLine(Decide(m.authorIsBot, m.content, prefix).name, m.authorTag)
    ensures Decide(m.authorIsBot, m.content, prefix).Invoke? ==>
      var d := Decide(m.authorIsBot, m.content, prefix);
      && handler(d.name, d.args).sent <= r.replies
      && (handler(d.name, d.args).Completed? ==> r.replies == handler(d.name, d.args).sent && |r.log| == 1)
  {
    match Decide(m.authorIsBot, m.content, prefix)
    case Ignore => Reaction([], [])
    case Unknown(name) =>
      Reaction([ErrorBox(UnknownText(name, prefix))], [ReceivedLine(name, m.authorTag)])
    case Invoke(name, args) =>
      match handler(name, args)
      case Completed(sent) => Reaction(sent, [ReceivedLine(name, m.authorTag)])
      case Failed(sent, error) =>
        Reaction(sent + [ErrorBox(GenericFailure)],
                 [ReceivedLine(name, m.authorTag), FailureLine(name, error)])
  }

  /** The converse of the split: when the text after the prefix is whitespace, then words
      separated by any non-empty whitespace runs, then whitespace, the tokens are exactly
      those words. */
  lemma TokensSpaced(content: string, prefix: string, lead: string, ts: seq<string>, ws: seq<string>, trail: string)
    requires |prefix| <= |content|
    requires |ts| >= 1 && |ws| == |ts| - 1
    requires forall k :: 0 <= k < |ts| ==> IsWord(ts[k])
    requires forall k :: 0 <= k < |ws| ==> Gap(ws[k])
    requires AllSpace(lead) && AllSpace(trail)
    requires content[|prefix|..] == lead + Interleave(ts, ws) + trail
    ensures Tokens(content, prefix) == ts
  {
    var body := Interleave(ts, ws);
    InterleaveStart(ts, ws);
    InterleaveEnd(ts, ws);
    TrimAround(lead, body, trail);
    SplitInterleave(ts, ws);
  }

  /** A message from a bot, or one that does not start with the prefix, causes nothing:
      no reply, no log line, and no handler runs. */
  lemma IgnoredMessage(m: Message, prefix: string, handler: (string, seq<string>) -> HandlerRun)
    requires m.authorIsBot || !Addressed(m.content, prefix)
    ensures OnMessage(m, prefix, handler) == Reaction([], [])
  {
  }

  /** Prefix matching ignores case: `!Bot` and `!bot` address the same messages. */
  lemma PrefixCaseInsensitive(content: string, p1: string, p2: string)
    requires ToLower(p1) == ToLower(p2)
    ensures Decide(false, content, p1) == Decide(false, content, p2)
  {
    if Addressed(content, p1) {
      assert |p1| == |p2|;
    }
  }

  /** A message that is only the prefix, possibly followed by whitespace, asks for the
      command with the empty name, which is not registered. */
  lemma BarePrefix(content: string, prefix: string)
    requires Addressed(content, prefix)
    requires AllSpace(content[|prefix|..])
    ensures Decide(false, content, prefix) == Unknown("")
  {
    assert "" !in Registry;
  }

  /** Only the handler of an invoked command can influence the reaction: for every other
      decision, any two handlers give the same reaction. */
  lemma HandlerRunsOnlyOnInvoke(m: Message, prefix: string, h1: (string, seq<string>) -> HandlerRun, h2: (string, seq<string>) -> HandlerRun)
    requires !Decide(m.authorIsBot, m.content, prefix).Invoke?
    ensures OnMessage(m, prefix, h1) == OnMessage(m, prefix, h2)
  {
  }

  /** An unregistered name gets exactly the "Unknown command" reply, quoting the name
      and the configured prefix, and one log line. */
  lemma UnknownCommandReply(m: Message, prefix: string, handler: (string, seq<string>) -> HandlerRun)
    requires !m.authorIsBot && Addressed(m.content, prefix)
    requires ToLower(Tokens(m.content, prefix)[0]) !in Registry
    ensures var name := ToLower(Tokens(m.content, prefix)[0]);
      OnMessage(m, prefix, handler) ==
        Reaction([ErrorBox(UnknownText(name, prefix))], [ReceivedLine(name, m.authorTag)])
  {
  }

  /** A failing handler is contained: its replies stay, one generic error reply follows,
      and the failure is logged with the command name. */
  lemma HandlerFailureContained(m: Message, prefix: string, handler: (string, seq<string>) -> HandlerRun)
    requires Decide(m.authorIsBot, m.content, prefix).Invoke?
    requires var d := Decide(m.authorIsBot, m.content, prefix); handler(d.name, d.args).Failed?
    ensures var d := Decide(m.authorIsBot, m.content, prefix);
      var run := handler(d.name, d.args);
      var r := OnMessage(m, prefix, handler);
      && r.replies == run.sent + [ErrorBox(GenericFailure)]
      && r.log == [ReceivedLine(d.name, m.authorTag), FailureLine(d.name, run.error)]
  {
  }
}
