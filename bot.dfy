/** The bot as a whole: the dispatcher of bot.js lines 409-429 wired to the handlers of
    the `commands` object, and the scenarios that follow from both. */
module Bot {
  import opened JsStrings
  import opened JsNumbers
  import opened Dispatch
  import opened Commands

  /** The reaction to one message, the handlers answering as `w` says. A command this
      model covers gets exactly one reply and one log line. */
  function Handle(m: Message, prefix: string, w: World): (r: Reaction)
    ensures Decide(m.authorIsBot, m.content, prefix).Invoke? && Decide(m.authorIsBot, m.content, prefix).name in Modelled ==>
      |r.replies| == 1 && |r.log| == 1
  {
    OnMessage(m, prefix, (name, args) => Run(w, name, args))
  }

  /** An invoked command whose handler completes: its replies, and the one log line. */
  lemma HandleCompleted(m: Message, prefix: string, w: World, name: string, args: seq<string>)
    requires Decide(m.authorIsBot, m.content, prefix) == Invoke(name, args)
    requires Run(w, name, args).Completed?
    ensures Handle(m, prefix, w) == Reaction(Run(w, name, args).sent, [ReceivedLine(name, m.authorTag)])
  {
    var h := (name, args) => Run(w, name, args);
    assert h(name, args) == Run(w, name, args);
  }

  /** A message that is the prefix, whitespace, words separated by any non-empty
      whitespace, and whitespace, names the lower-cased first word and passes the other
      words. */
  lemma DecideSpaced(prefix: string, lead: string, ts: seq<string>, ws: seq<string>, trail: string)
    requires |ts| >= 1 && |ws| == |ts| - 1
    requires forall k :: 0 <= k < |ts| ==> IsWord(ts[k])
    requires forall k :: 0 <= k < |ws| ==> Gap(ws[k])
    requires AllSpace(lead) && AllSpace(trail)
    ensures Decide(false, prefix + lead + Interleave(ts, ws) + trail, prefix) ==
      Lookup(ToLower(ts[0]), ts[1..])
  {
    var content := prefix + lead + Interleave(ts, ws) + trail;
    PrefixThenRest(prefix, lead, Interleave(ts, ws), trail);
    AddressedByPrefix(content, prefix);
    TokensSpaced(content, prefix, lead, ts, ws, trail);
    DecideFromTokens(content, prefix, ts);
  }

  /** An addressed message whose tokens are known. */
  lemma DecideFromTokens(content: string, prefix: string, ts: seq<string>)
    requires Addressed(content, prefix)
    requires Tokens(content, prefix) == ts
    ensures Decide(false, content, prefix) == Lookup(ToLower(ts[0]), ts[1..])
  {
    var d := Decide(false, content, prefix);
    var name := ToLower(ts[0]);
    if name in Registry {
      assert d == Invoke(name, ts[1..]);
    } else {
      assert d == Unknown(name);
    }
  }

  /** Helper for `RollAnySpacing`: the tokens `roll`, `5-1` name a registered command. */
  lemma RollRegistered(ts: seq<string>)
    requires ts == ["roll", "5-1"]
    ensures Lookup(ToLower(ts[0]), ts[1..]) == Invoke("roll", ["5-1"])
  {
    assert ts[0] == "roll" && ts[1..] == ["5-1"];
    LowerKeeps("roll");
    assert "roll" in Registry;
  }

  /** Helper for `DecideSpaced`: slicing after the prefix leaves the rest. */
  lemma PrefixThenRest(p: string, a: string, b: string, c: string)
    ensures var s := p + a + b + c;
      |p| <= |s| && s[..|p|] == p && s[|p|..] == a + b + c
  {
    var s := p + a + b + c;
    assert s == p + (a + b + c);
  }

  /** Helper for `DecideSpaced`: any text after the prefix itself is addressed to
      the bot. */
  lemma AddressedByPrefix(content: string, prefix: string)
    requires |prefix| <= |content| && content[..|prefix|] == prefix
    ensures Addressed(content, prefix)
  {
    assert ToLower(content)[..|prefix|] == ToLower(prefix) by {
      assert forall i :: 0 <= i < |prefix| ==> content[i] == prefix[i];
    }
  }

  /** `!roll 5-1` asks for the roll command with the argument "5-1", whatever whitespace
      comes between and around the words. */
  lemma RollAnySpacing(lead: string, gap: string, trail: string)
    requires AllSpace(lead) && Gap(gap) && AllSpace(trail)
    ensures Decide(false, "!" + lead + "roll" + gap + "5-1" + trail, "!") == Invoke("roll", ["5-1"])
  {
    var ts, ws := ["roll", "5-1"], [gap];
    assert Interleave(ts, ws) == "roll" + gap + "5-1";
    assert "!" + lead + "roll" + gap + "5-1" + trail == "!" + lead + Interleave(ts, ws) + trail;
    DecideSpaced("!", lead, ts, ws, trail);
    RollRegistered(ts);
  }

  /** `!roll 5-1` rolls in [1, 5]: the reversed bounds are swapped. */
  lemma RollReversedRange(tag: string, w: World)
    ensures Decide(false, "!roll 5-1", "!") == Invoke("roll", ["5-1"])
    ensures RollRange(["5-1"]) == (1, 5)
    ensures exists r :: (1 <= r <= 5 &&
      Handle(Message(false, tag, "!roll 5-1"), "!", w).replies ==
        [Card("\U{1F3B2} Dice Roll", "You rolled: **" + IntString(r) + "**")])
  {
    DecideRoll();
    RangeFiveOne();
    var r := RollResult(1, 5, w.draw);
    RunRoll(w, ["5-1"]);
    HandleCompleted(Message(false, tag, "!roll 5-1"), "!", w, "roll", ["5-1"]);
    assert RollReplies(["5-1"], w.draw) ==
      [Card("\U{1F3B2} Dice Roll", "You rolled: **" + IntString(r) + "**")];
  }

  /** Helper for `RollReversedRange`: the literal message, as `RollAnySpacing` with single spaces. */
  lemma DecideRoll()
    ensures Decide(false, "!roll 5-1", "!") == Invoke("roll", ["5-1"])
  {
    assert "!roll 5-1" == "!" + "" + "roll" + " " + "5-1" + "";
    RollAnySpacing("", " ", "");
  }

  /** Helper for `RollReversedRange`: the bounds of `5-1` before and after the swap. */
  lemma RangeFiveOne()
    ensures RollLow(["5-1"]) == 5 && RollHigh(["5-1"]) == 1
    ensures RollRange(["5-1"]) == (1, 5)
  {
    SplitFiveOne();
    ParseSingleDigit('5');
    ParseSingleDigit('1');
    BoundsOfPieces("5-1", "5", "1", 5, 1);
  }

  /** Helper for `RangeFiveOne`: the contracts of `RollLow` and `RollHigh` applied to an
      argument with two non-zero numeric pieces. */
  lemma BoundsOfPieces(arg: string, a: string, b: string, x: int, y: int)
    requires SplitOn(arg, '-') == [a, b]
    requires ParseInt(a) == Some(x) && x != 0
    requires ParseInt(b) == Some(y) && y != 0
    ensures RollLow([arg]) == x && RollHigh([arg]) == y
  {
  }

  /** Helper for `RangeFiveOne`: `'5-1'.split('-')`. */
  lemma SplitFiveOne()
    ensures SplitOn("5-1", '-') == ["5", "1"]
  {
    assert CharFrom("5-1", '-', 0) == 1;
    assert "5-1"[..1] == "5";
    assert "5-1"[2..] == "1";
    assert CharFrom("1", '-', 0) == 1;
  }

  /** `!foo` with prefix `!` gets the "Unknown command" reply. */
  lemma UnknownFoo(tag: string, w: World)
    ensures Handle(Message(false, tag, "!foo"), "!", w) ==
      Reaction([ErrorBox(UnknownText("foo", "!"))], [ReceivedLine("foo", tag)])
  {
    DecideFoo();
  }

  /** Helper for `UnknownFoo`: the decision for the literal message. */
  lemma DecideFoo()
    ensures Decide(false, "!foo", "!") == Unknown("foo")
  {
    assert Interleave(["foo"], []) == "foo";
    assert "!foo" == "!" + "" + Interleave(["foo"], []) + "";
    DecideSpacedFoo("!");
    FooUnregistered(Decide(false, "!foo", "!"));
  }

  /** Helper for `DecideFoo`: `DecideSpaced` for the single word `foo`. */
  lemma DecideSpacedFoo(prefix: string)
    ensures Decide(false, prefix + "" + Interleave(["foo"], []) + "", prefix) == Lookup("foo", [])
  {
    var ts := ["foo"];
    DecideSpaced(prefix, "", ts, [], "");
    FooLookup(ts);
  }

  /** Helper that steers the solver: the tokens of `foo` are already lower case. */
  lemma FooLookup(ts: seq<string>)
    requires ts == ["foo"]
    ensures Lookup(ToLower(ts[0]), ts[1..]) == Lookup("foo", [])
  {
    assert ts[0] == "foo" && ts[1..] == [];
    LowerKeeps("foo");
  }

  /** Helper that steers the solver: `foo` is not in the registry. */
  lemma FooUnregistered(d: Decision)
    requires d == Lookup("foo", [])
    ensures d == Unknown("foo")
  {
  }

  /** Helper that steers the solver: lower-casing leaves a text without capitals unchanged. */
  lemma LowerKeeps(s: string)
    requires forall i :: 0 <= i < |s| ==> !('A' <= s[i] <= 'Z')
    ensures ToLower(s) == s
  {
  }

  /** Through the dispatcher, `words` reports the number of arguments. */
  lemma WordsCountsArguments(m: Message, prefix: string, w: World, args: seq<string>)
    requires Decide(m.authorIsBot, m.content, prefix) == Invoke("words", args)
    ensures Handle(m, prefix, w).replies == [Text("Word count: " + IntString(|args|))]
  {
    assert Run(w, "words", args) == Completed([WordsReply(args)]);
    HandleCompleted(m, prefix, w, "words", args);
  }

  /** A disabled `joke` or `clear` still passes the dispatcher (and is logged as
      received) and answers "This command is disabled." */
  lemma DisabledCommandAnswers(m: Message, prefix: string, w: World, name: string, args: seq<string>)
    requires Decide(m.authorIsBot, m.content, prefix) == Invoke(name, args)
    requires (name == "joke" && !w.enableJokeCommand) || (name == "clear" && !w.enableClearCommand)
    ensures Handle(m, prefix, w) == Reaction([ErrorBox(Disabled)], [ReceivedLine(name, m.authorTag)])
  {
    if name == "joke" {
      assert Run(w, name, args) == Completed(JokeReplies(false, w.joke));
    } else {
      assert Run(w, name, args) == Completed(ClearReplies(false, args, w.deleted));
    }
    HandleCompleted(m, prefix, w, name, args);
  }

  /** `clear` only ever fetches with a limit from 1 to 100. */
  lemma ClearLimitInRange(enabled: bool, args: seq<string>)
    ensures ClearStart(enabled, args).ClearFetch? ==> 1 <= ClearStart(enabled, args).limit <= 100
  {
  }
}
