/** The few JavaScript string operations the bot's dispatcher and handlers rely on:
    the `\s` character class, `toLowerCase`, `startsWith`, `trim`, `split(/\s+/)`,
    `split('-')` and `join`. Case mapping covers ASCII only. */
module JsStrings {

  /** JavaScript's `\s`: the WhiteSpace and LineTerminator code points. `trim()` and
      `parseInt` skip exactly the same set. */
  predicate IsSpace(c: char) {
    || c == ' ' || c == '\t' || c == '\n' || c == '\U{B}' || c == '\U{C}' || c == '\r'
    || c == '\U{A0}' || c == '\U{1680}' || ('\U{2000}' <= c <= '\U{200A}')
    || c == '\U{2028}' || c == '\U{2029}' || c == '\U{202F}' || c == '\U{205F}'
    || c == '\U{3000}' || c == '\U{FEFF}'
  }

  predicate NoSpace(s: string) {
    forall i :: 0 <= i < |s| ==> !IsSpace(s[i])
  }

  predicate AllSpace(s: string) {
    forall i :: 0 <= i < |s| ==> IsSpace(s[i])
  }

  /** A token of a whitespace split: non-empty and free of whitespace. */
  predicate IsWord(s: string) {
    |s| > 0 && NoSpace(s)
  }

  function LowerChar(c: char): char {
    if 'A' <= c <= 'Z' then (c as int + 32) as char else c
  }

  function UpperChar(c: char): char {
    if 'a' <= c <= 'z' then (c as int - 32) as char else c
  }

  /** `toLowerCase()` on ASCII letters; every other character is kept. */
  function ToLower(s: string): (r: string)
    ensures |r| == |s|
    ensures forall i :: 0 <= i < |s| ==> r[i] == LowerChar(s[i])
  {
    seq(|s|, i requires 0 <= i < |s| => LowerChar(s[i]))
  }

  predicate StartsWith(s: string, p: string) {
    |p| <= |s| && s[..|p|] == p
  }

  /** Removal of leading whitespace (`trimStart`). */
  function TrimStart(s: string): (r: string)
    ensures |r| <= |s| && r == s[|s| - |r|..]
    ensures r == [] || !IsSpace(r[0])
    ensures AllSpace(s[..|s| - |r|])
    decreases |s|
  {
    if |s| > 0 && IsSpace(s[0]) then
      var r := TrimStart(s[1..]);
      assert s[..|s| - |r|] == [s[0]] + s[1..][..|s| - 1 - |r|];
      r
    else s
  }

  /** Removal of trailing whitespace (`trimEnd`). */
  function TrimEnd(s: string): (r: string)
    ensures |r| <= |s| && r == s[..|r|]
    ensures r == [] || !IsSpace(r[|r| - 1])
    ensures AllSpace(s[|r|..])
    ensures r == [] ==> AllSpace(s)
    decreases |s|
  {
    if |s| > 0 && IsSpace(s[|s| - 1]) then
      var r := TrimEnd(s[..|s| - 1]);
      assert s[|r|..] == s[..|s| - 1][|r|..] + [s[|s| - 1]];
      r
    else s
  }

  /** `trim()`: the result neither starts nor ends with whitespace, it is empty exactly
      when the input is all whitespace, and it keeps every non-whitespace character;
      `TrimAround` says where it is cut. */
  function Trim(s: string): (r: string)
    ensures r == [] || (!IsSpace(r[0]) && !IsSpace(r[|r| - 1]))
    ensures r == [] <==> AllSpace(s)
    ensures Squeeze(r) == Squeeze(s)
  {
    TrimFacts(s);
    TrimEnd(TrimStart(s))
  }

  lemma TrimFacts(s: string)
    ensures var r := TrimEnd(TrimStart(s));
      && (r == [] <==> AllSpace(s))
      && Squeeze(r) == Squeeze(s)
  {
    TrimEmptyIff(s);
    TrimKeepsSqueeze(s);
  }

  /** Where `trim()` cuts: whitespace, then a text that neither starts nor ends with
      whitespace, then whitespace, trims to that text. Every string splits that way in
      exactly one way, so this determines `trim()` on every input. */
  lemma TrimAround(lead: string, body: string, trail: string)
    requires AllSpace(lead) && AllSpace(trail)
    requires body == [] || (!IsSpace(body[0]) && !IsSpace(body[|body| - 1]))
    ensures Trim(lead + body + trail) == body
  {
    var s := lead + body + trail;
    if body == [] {
      assert s == lead + trail;
      assert AllSpace(s) by {
        assert forall m :: 0 <= m < |s| ==> s[m] == if m < |lead| then lead[m] else trail[m - |lead|];
      }
    } else {
      assert s == lead + (body + trail);
      TrimStartSkips(lead, body + trail);
      assert (body + trail)[0] == body[0];
      assert TrimStart(body + trail) == body + trail;
      TrimEndSkips(body, trail);
      assert TrimEnd(body) == body;
    }
  }

  /** Leading whitespace does not change what `trimStart` leaves. */
  lemma {:induction false} TrimStartSkips(w: string, s: string)
    requires AllSpace(w)
    ensures TrimStart(w + s) == TrimStart(s)
    decreases |w|
  {
    if w == [] {
      assert w + s == s;
    } else {
      assert (w + s)[0] == w[0];
      assert (w + s)[1..] == w[1..] + s;
      TrimStartSkips(w[1..], s);
    }
  }

  /** Trailing whitespace does not change what `trimEnd` leaves. */
  lemma {:induction false} TrimEndSkips(s: string, w: string)
    requires AllSpace(w)
    ensures TrimEnd(s + w) == TrimEnd(s)
    decreases |w|
  {
    if w == [] {
      assert s + w == s;
    } else {
      var v := w[..|w| - 1];
      assert (s + w)[|s + w| - 1] == w[|w| - 1];
      assert (s + w)[..|s + w| - 1] == s + v;
      TrimEndSkips(s, v);
    }
  }

  lemma TrimEmptyIff(s: string)
    ensures TrimEnd(TrimStart(s)) == [] <==> AllSpace(s)
  {
    var t := TrimStart(s);
    var n := |s| - |t|;
    assert t == s[n..];
    if t == [] {
      assert s[..n] == s;
    } else {
      assert t[0] == s[n];
      assert !AllSpace(s);
      assert !AllSpace(t);
    }
  }

  lemma TrimKeepsSqueeze(s: string)
    ensures Squeeze(TrimEnd(TrimStart(s))) == Squeeze(s)
  {
    TrimStartKeepsSqueeze(s);
    TrimEndKeepsSqueeze(TrimStart(s));
  }

  lemma TrimStartKeepsSqueeze(s: string)
    ensures Squeeze(TrimStart(s)) == Squeeze(s)
  {
    var t := TrimStart(s);
    var n := |s| - |t|;
    var head := s[..n];
    assert t == s[n..];
    assert s == head + t;
    SqueezeAppend(head, t);
    SqueezeAllSpace(head);
    assert Squeeze(head) + Squeeze(t) == Squeeze(t);
  }

  lemma TrimEndKeepsSqueeze(t: string)
    ensures Squeeze(TrimEnd(t)) == Squeeze(t)
  {
    var r := TrimEnd(t);
    assert t == r + t[|r|..];
    SqueezeAppend(r, t[|r|..]);
    SqueezeAllSpace(t[|r|..]);
  }

  /** The characters of `s` that are not whitespace, in order. */
  function Squeeze(s: string): (r: string)
    ensures NoSpace(r)
  {
    if s == [] then []
    else (if IsSpace(s[0]) then [] else [s[0]]) + Squeeze(s[1..])
  }

  lemma {:induction false} SqueezeAppend(a: string, b: string)
    ensures Squeeze(a + b) == Squeeze(a) + Squeeze(b)
  {
    if a != [] {
      assert (a + b)[1..] == a[1..] + b;
      SqueezeAppend(a[1..], b);
    } else {
      assert a + b == b;
    }
  }

  lemma {:induction false} SqueezeAllSpace(s: string)
    requires AllSpace(s)
    ensures Squeeze(s) == []
  {
    if s != [] {
      SqueezeAllSpace(s[1..]);
    }
  }

  lemma {:induction false} SqueezeNoSpace(s: string)
    requires NoSpace(s)
    ensures Squeeze(s) == s
  {
    if s != [] {
      SqueezeNoSpace(s[1..]);
    }
  }

  /** The index of the first whitespace character at or after `i`, or `|s|`. */
  function SpaceFrom(s: string, i: nat): (k: nat)
    requires i <= |s|
    ensures i <= k <= |s|
    ensures forall m :: i <= m < k ==> !IsSpace(s[m])
    ensures k < |s| ==> IsSpace(s[k])
    decreases |s| - i
  {
    if i == |s| || IsSpace(s[i]) then i else SpaceFrom(s, i + 1)
  }

  /** The end of the whitespace run that starts at `i`. */
  function SpaceRunEnd(s: string, i: nat): (k: nat)
    requires i <= |s|
    ensures i <= k <= |s|
    ensures forall m :: i <= m < k ==> IsSpace(s[m])
    ensures k < |s| ==> !IsSpace(s[k])
    decreases |s| - i
  {
    if i == |s| || !IsSpace(s[i]) then i else SpaceRunEnd(s, i + 1)
  }

  /** `s.split(/\s+/)`: the pieces between maximal whitespace runs, in order. Leading
      or trailing whitespace leaves an empty piece, and "" splits to [""]. */
  function SplitWs(s: string): (r: seq<string>)
    ensures |r| >= 1
    ensures forall k :: 0 <= k < |r| ==> NoSpace(r[k])
    ensures forall k :: 0 < k < |r| - 1 ==> r[k] != ""
    ensures s != [] && !IsSpace(s[0]) ==> r[0] != ""
    decreases |s|
  {
    var i := SpaceFrom(s, 0);
    if i == |s| then [s]
    else
      var j := SpaceRunEnd(s, i);
      var rest := SplitWs(s[j..]);
      assert j < |s| ==> !IsSpace(s[j..][0]);
      assert forall m :: 0 <= m < i ==> s[..i][m] == s[m];
      [s[..i]] + rest
  }

  /** A separator of `split(/\s+/)`: a non-empty run of whitespace. */
  predicate Gap(w: string) {
    |w| > 0 && AllSpace(w)
  }

  /** The whitespace runs `s.split(/\s+/)` cuts at, in order: one fewer than the pieces. */
  function Gaps(s: string): (g: seq<string>)
    ensures |g| == |SplitWs(s)| - 1
    ensures forall k :: 0 <= k < |g| ==> Gap(g[k])
    decreases |s|
  {
    var i := SpaceFrom(s, 0);
    if i == |s| then []
    else
      var j := SpaceRunEnd(s, i);
      var w := s[i..j];
      assert forall m :: 0 <= m < |w| ==> w[m] == s[i + m];
      assert |SplitWs(s)| == 1 + |SplitWs(s[j..])|;
      [w] + Gaps(s[j..])
  }

  /** Pieces put back together with the given separators between them. */
  function Interleave(ts: seq<string>, ws: seq<string>): string
    requires |ts| >= 1 && |ws| == |ts| - 1
    decreases |ts|
  {
    if |ts| == 1 then ts[0] else ts[0] + ws[0] + Interleave(ts[1..], ws[1..])
  }

  /** Where `split(/\s+/)` cuts: the pieces with the whitespace runs between them give the
      string back. With `SplitWs`'s own contract (whitespace-free pieces) and `Gaps`'
      (non-empty whitespace runs) this fixes every cut. */
  lemma {:induction false} SplitWsCuts(s: string)
    ensures Interleave(SplitWs(s), Gaps(s)) == s
    decreases |s|
  {
    var i := SpaceFrom(s, 0);
    if i < |s| {
      var j := SpaceRunEnd(s, i);
      var rs, gs := SplitWs(s[j..]), Gaps(s[j..]);
      SplitWsCuts(s[j..]);
      assert Interleave(rs, gs) == s[j..];
      assert SplitWs(s) == [s[..i]] + rs;
      assert Gaps(s) == [s[i..j]] + gs;
      InterleaveCons(s[..i], s[i..j], rs, gs);
      assert s == s[..i] + s[i..j] + s[j..];
    }
  }

  lemma InterleaveCons(t: string, w: string, ts: seq<string>, ws: seq<string>)
    requires |ts| >= 1 && |ws| == |ts| - 1
    ensures Interleave([t] + ts, [w] + ws) == t + w + Interleave(ts, ws)
  {
    assert ([t] + ts)[1..] == ts;
    assert ([w] + ws)[1..] == ws;
  }

  /** The converse: whitespace-free pieces, none empty except possibly the first and the
      last, put together with any non-empty whitespace runs, split back into those
      pieces. In particular words separated by any whitespace split back into the words. */
  lemma {:induction false} SplitInterleave(ts: seq<string>, ws: seq<string>)
    requires |ts| >= 1 && |ws| == |ts| - 1
    requires forall k :: 0 <= k < |ts| ==> NoSpace(ts[k])
    requires forall k :: 0 < k < |ts| - 1 ==> ts[k] != ""
    requires forall k :: 0 <= k < |ws| ==> Gap(ws[k])
    ensures SplitWs(Interleave(ts, ws)) == ts
    decreases |ts|
  {
    var s := Interleave(ts, ws);
    if |ts| == 1 {
      assert SpaceFrom(s, 0) == |s|;
    } else {
      var rest := Interleave(ts[1..], ws[1..]);
      assert s == ts[0] + ws[0] + rest;
      InterleaveStart(ts[1..], ws[1..]);
      SplitWsStep(ts[0], ws[0], rest);
      SplitInterleave(ts[1..], ws[1..]);
      assert ts == [ts[0]] + ts[1..];
    }
  }

  /** One cut of `split(/\s+/)`: a whitespace-free piece, a whitespace run, and a rest
      that does not start with whitespace. */
  lemma SplitWsStep(t: string, w: string, rest: string)
    requires NoSpace(t) && Gap(w)
    requires rest == [] || !IsSpace(rest[0])
    ensures SplitWs(t + w + rest) == [t] + SplitWs(rest)
  {
    var s := t + w + rest;
    assert forall m :: 0 <= m < |t| ==> s[m] == t[m];
    assert s[|t|] == w[0];
    var i := SpaceFrom(s, 0);
    assert i == |t|;
    assert forall m :: |t| <= m < |t| + |w| ==> s[m] == w[m - |t|];
    var j := SpaceRunEnd(s, i);
    assert rest != [] ==> s[|t| + |w|] == rest[0];
    assert j == |t| + |w|;
    assert s[..i] == t;
    assert s[j..] == rest;
  }

  /** Interleaved pieces start with the first piece's first character, or are empty. */
  lemma InterleaveStart(ts: seq<string>, ws: seq<string>)
    requires |ts| >= 1 && |ws| == |ts| - 1
    requires forall k :: 0 <= k < |ts| ==> NoSpace(ts[k])
    requires forall k :: 0 <= k < |ts| - 1 ==> ts[k] != ""
    ensures var s := Interleave(ts, ws); s == [] || !IsSpace(s[0])
    ensures ts[0] != "" ==> Interleave(ts, ws)[0] == ts[0][0]
  {
  }

  /** Interleaved pieces end with the last piece's last character when it is not empty. */
  lemma {:induction false} InterleaveEnd(ts: seq<string>, ws: seq<string>)
    requires |ts| >= 1 && |ws| == |ts| - 1
    requires ts[|ts| - 1] != ""
    ensures var s := Interleave(ts, ws); var l := ts[|ts| - 1];
      |s| > 0 && s[|s| - 1] == l[|l| - 1]
    decreases |ts|
  {
    if |ts| > 1 {
      InterleaveEnd(ts[1..], ws[1..]);
    }
  }

  function Concat(ts: seq<string>): string {
    if ts == [] then "" else ts[0] + Concat(ts[1..])
  }

  /** `ts.join(sep)`. */
  function Join(ts: seq<string>, sep: string): string {
    if |ts| == 0 then ""
    else if |ts| == 1 then ts[0]
    else ts[0] + sep + Join(ts[1..], sep)
  }

  /** Joining with `sep` is interleaving with `sep` between every two pieces. */
  lemma {:induction false} JoinInterleave(ts: seq<string>, sep: string)
    requires |ts| >= 1
    ensures Join(ts, sep) == Interleave(ts, seq(|ts| - 1, _ => sep))
    decreases |ts|
  {
    if |ts| > 1 {
      var ws := seq(|ts| - 1, _ => sep);
      assert ws[0] == sep;
      assert ws[1..] == seq(|ts| - 2, _ => sep);
      JoinInterleave(ts[1..], sep);
    }
  }

  /** `filter(Boolean)` on strings: drops the empty ones and keeps every other one. */
  function FilterNonEmpty(ts: seq<string>): (r: seq<string>)
    ensures |r| <= |ts|
    ensures forall t :: t in r ==> t != "" && t in ts
    ensures forall t :: t in ts && t != "" ==> t in r
  {
    if ts == [] then []
    else (if ts[0] == "" then [] else [ts[0]]) + FilterNonEmpty(ts[1..])
  }

  /** Splitting a string that neither starts nor ends with whitespace yields words only. */
  lemma {:induction false} SplitWsWords(s: string)
    requires s != [] && !IsSpace(s[0]) && !IsSpace(s[|s| - 1])
    ensures forall t :: t in SplitWs(s) ==> IsWord(t)
    decreases |s|
  {
    var i := SpaceFrom(s, 0);
    if i < |s| {
      var j := SpaceRunEnd(s, i);
      assert !IsSpace(s[|s| - 1]);
      assert j < |s|;
      assert s[..i][0] == s[0];
      assert forall m :: 0 <= m < i ==> s[..i][m] == s[m];
      SplitWsWords(s[j..]);
    }
  }

  /** Splitting on whitespace keeps every non-whitespace character, in order and with
      its case: the pieces concatenate to the input with its whitespace removed. */
  lemma {:induction false} SplitWsSqueeze(s: string)
    ensures Concat(SplitWs(s)) == Squeeze(s)
    decreases |s|
  {
    var i := SpaceFrom(s, 0);
    if i == |s| {
      SqueezeNoSpace(s);
      assert Concat([s]) == s + Concat([]);
    } else {
      var j := SpaceRunEnd(s, i);
      SqueezeAroundSpaceRun(s, i, j);
      SplitWsSqueeze(s[j..]);
      assert ([s[..i]] + SplitWs(s[j..]))[1..] == SplitWs(s[j..]);
    }
  }

  /** A word, a whitespace run and the rest: squeezing keeps the word and the rest's
      squeeze. */
  lemma SqueezeAroundSpaceRun(s: string, i: nat, j: nat)
    requires i <= j <= |s|
    requires NoSpace(s[..i]) && AllSpace(s[i..j])
    ensures Squeeze(s) == s[..i] + Squeeze(s[j..])
  {
    var a, b, c := s[..i], s[i..j], s[j..];
    assert s == (a + b) + c;
    SqueezeAppend(a + b, c);
    SqueezeAppend(a, b);
    SqueezeNoSpace(a);
    SqueezeAllSpace(b);
    assert Squeeze(a + b) == a;
  }

  /** Joining words with single spaces and splitting on whitespace gives the words back. */
  lemma {:induction false} SplitJoin(ts: seq<string>)
    requires |ts| >= 1
    requires forall k :: 0 <= k < |ts| ==> IsWord(ts[k])
    ensures SplitWs(Join(ts, " ")) == ts
    decreases |ts|
  {
    var s := Join(ts, " ");
    if |ts| == 1 {
      assert SpaceFrom(s, 0) == |s|;
    } else {
      var t0, rest := ts[0], Join(ts[1..], " ");
      JoinStartsWithWord(ts[1..]);
      assert s == t0 + " " + rest;
      var i := SpaceFrom(s, 0);
      assert forall m :: 0 <= m < |t0| ==> s[m] == t0[m];
      assert s[|t0|] == ' ';
      assert i == |t0|;
      assert s[|t0| + 1] == rest[0];
      var j := SpaceRunEnd(s, i);
      assert j == |t0| + 1;
      assert s[..i] == t0;
      assert s[j..] == rest;
      SplitJoin(ts[1..]);
    }
  }

  lemma {:induction false} JoinStartsWithWord(ts: seq<string>)
    requires |ts| >= 1 && IsWord(ts[0])
    ensures |Join(ts, " ")| > 0 && Join(ts, " ")[0] == ts[0][0]
  {
  }

  /** Filtering works piece by piece: the kept pieces of `a + b` are those of `a`
      followed by those of `b`, so the order is kept. */
  lemma {:induction false} FilterNonEmptyAppend(a: seq<string>, b: seq<string>)
    ensures FilterNonEmpty(a + b) == FilterNonEmpty(a) + FilterNonEmpty(b)
    decreases |a|
  {
    if a == [] {
      assert a + b == b;
    } else {
      assert (a + b)[0] == a[0];
      assert (a + b)[1..] == a[1..] + b;
      FilterNonEmptyAppend(a[1..], b);
    }
  }

  lemma {:induction false} FilterWords(ts: seq<string>)
    requires forall k :: 0 <= k < |ts| ==> ts[k] != ""
    ensures FilterNonEmpty(ts) == ts
    decreases |ts|
  {
    if ts != [] {
      FilterWords(ts[1..]);
    }
  }

  /** The index of the first `c` at or after `i`, or `|s|`. */
  function CharFrom(s: string, c: char, i: nat): (k: nat)
    requires i <= |s|
    ensures i <= k <= |s|
    ensures forall m :: i <= m < k ==> s[m] != c
    ensures k < |s| ==> s[k] == c
    decreases |s| - i
  {
    if i == |s| || s[i] == c then i else CharFrom(s, c, i + 1)
  }

  /** `s.split(c)` for a one-character separator: the pieces between its occurrences. */
  function SplitOn(s: string, c: char): (r: seq<string>)
    ensures |r| >= 1
    ensures forall k :: 0 <= k < |r| ==> c !in r[k]
    decreases |s|
  {
    var i := CharFrom(s, c, 0);
    if i == |s| then [s]
    else [s[..i]] + SplitOn(s[i + 1..], c)
  }

  /** Joining the pieces of `s.split(c)` with `c` gives `s` back. */
  lemma {:induction false} SplitOnJoin(s: string, c: char)
    ensures Join(SplitOn(s, c), [c]) == s
    decreases |s|
  {
    var i := CharFrom(s, c, 0);
    if i < |s| {
      SplitOnJoin(s[i + 1..], c);
      assert s == s[..i] + [c] + s[i + 1..];
    }
  }
}
