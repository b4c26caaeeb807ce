// The two independent passes of Channels/Bash_with_pipe/main.c over one line:
// find_number_command counts commands by jumping from '|' to '|', the tokenizer
// cuts the line at spaces and starts a new command at every token "|".
module Pipeline {
  import opened Sequences
  import opened Wrappers

  const BAR := "|"
  const EXIT := "exit"

  // strcspn with one character.
  function Span(s: string, c: char): (k: nat)
    ensures k <= |s| && c !in s[..k] && (k < |s| ==> s[k] == c)
  {
    if s == [] || s[0] == c then 0 else 1 + Span(s[1..], c)
  }

  // ----- first pass

  // Every jump lands inside the string or on its terminator.
  predicate Safe(s: string) {
    var k := Span(s, '|');
    k < |s| ==> k + 2 <= |s| && Safe(s[k + 2..])
  }

  function NumberOfCommands(s: string): nat
    requires Safe(s)
  {
    var k := Span(s, '|');
    if k == |s| then 1 else 1 + NumberOfCommands(s[k + 2..])
  }

  method FindNumberCommand(line: string) returns (numberCommand: nat)
    requires Safe(line)
    ensures numberCommand == NumberOfCommands(line)
  {
    var str := line;
    numberCommand := 1;
    var size := Span(str, '|');
    while size != |str|
      invariant size == Span(str, '|') && Safe(str)
      invariant numberCommand + NumberOfCommands(str) == NumberOfCommands(line) + 1
      decreases |str|
    {
      numberCommand := numberCommand + 1;
      str := str[size + 2..];
      size := Span(str, '|');
    }
  }

  // ----- second pass

  // One strtok_r with delimiter " ": the next token and the rest of the string.
  function Strtok(s: string): (r: Option<(string, string)>)
    ensures r.Some? ==> |r.value.1| < |s| && r.value.0 != [] && ' ' !in r.value.0
  {
    if s == [] then None
    else if s[0] == ' ' then Strtok(s[1..])
    else
      var k := Span(s, ' ');
      Some((s[..k], s[if k == |s| then k else k + 1..]))
  }

  function Tokens(s: string): seq<string>
    decreases |s|
  {
    match Strtok(s)
    case None => []
    case Some((token, rest)) => [token] + Tokens(rest)
  }

  // The commands of a token list, the first one begun with `current`.
  function Split(current: seq<string>, ts: seq<string>): (r: seq<seq<string>>)
    ensures r != []
    decreases |ts|
  {
    if ts == [] then [current]
    else if ts[0] == BAR then [current] + Split([], ts[1..])
    else Split(current + [ts[0]], ts[1..])
  }

  function Commands(line: string): seq<seq<string>> {
    Split([], Tokens(line))
  }

  // Row c of the argument table holds a command and its terminator.
  ghost predicate RowHolds(args: array2<Option<string>>, c: nat, words: seq<string>)
    reads args
  {
    c < args.Length0 && |words| < args.Length1 &&
    (forall k :: 0 <= k < |words| ==> args[c, k] == Some(words[k])) && args[c, |words|] == None
  }

  lemma {:induction false} SplitFirst(current: seq<string>, ts: seq<string>)
    ensures current <= Split(current, ts)[0]
    decreases |ts|
  {
    if ts != [] && ts[0] != BAR {
      SplitFirst(current + [ts[0]], ts[1..]);
    }
  }

  // The finished rows and the words of the row under construction.
  ghost predicate TableHolds(args: array2<Option<string>>, done: seq<seq<string>>, current: seq<string>)
    reads args
  {
    |done| <= args.Length0 && |current| <= args.Length1 &&
    (forall c: nat :: c < |done| ==> RowHolds(args, c, done[c])) &&
    (forall k :: 0 <= k < |current| && |done| < args.Length0 ==> args[|done|, k] == Some(current[k]))
  }

  method AddWord(args: array2<Option<string>>, index: nat, i: nat, token: string,
                 ghost done: seq<seq<string>>, ghost current: seq<string>)
    requires index == |done| < args.Length0 && i == |current| < args.Length1 && TableHolds(args, done, current)
    modifies args
    ensures TableHolds(args, done, current + [token])
  {
    args[index, i] := Some(token);
  }

  method EndCommand(args: array2<Option<string>>, index: nat, i: nat,
                    ghost done: seq<seq<string>>, ghost current: seq<string>)
    requires index == |done| < args.Length0 && i == |current| < args.Length1 && TableHolds(args, done, current)
    modifies args
    ensures TableHolds(args, done + [current], [])
  {
    args[index, i] := None;
  }

  // The tokenizer loop of main.  It needs no more rows than the first pass
  // counted and no more than 63 words in a command.
  method ReadCommands(line: string, numberCommands: nat, args: array2<Option<string>>) returns (exits: bool, index: nat)
    requires args.Length0 == numberCommands && args.Length1 == 64
    requires Safe(line) && numberCommands == NumberOfCommands(line)
    requires forall c :: 0 <= c < |Commands(line)| ==> |Commands(line)[c]| < 64
    modifies args
    ensures exits <==> "exit" in Tokens(line)
    ensures !exits ==> index + 1 == |Commands(line)| <= numberCommands
    ensures !exits ==> forall c: nat :: c < |Commands(line)| ==> RowHolds(args, c, Commands(line)[c])
  {
    RowsFit(line);
    ghost var cmds, tokens := Commands(line), Tokens(line);
    ghost var done: seq<seq<string>>, current: seq<string>, seen: seq<string> := [], [], [];
    var tmp, i := line, 0;
    index := 0;
    assert [] + tokens == tokens && [] + cmds == cmds;
    while true
      invariant |done| == index < args.Length0 && |current| == i < args.Length1
      invariant cmds == done + Split(current, Tokens(tmp))
      invariant tokens == seen + Tokens(tmp) && EXIT !in seen
      invariant TableHolds(args, done, current)
      decreases |tmp|
    {
      var next := Strtok(tmp);
      if next.None? {
        break;
      }
      var (token, rest) := next.value;
      ghost var later := Tokens(rest);
      Associate(seen, [token], later);
      if token == EXIT {
        assert tokens[|seen|] == EXIT;
        return true, index;
      }
      seen := seen + [token];
      assert ([token] + later)[1..] == later;
      if token == BAR {
        Associate(done, [current], Split([], later));
        EndCommand(args, index, i, done, current);
        done := done + [current];
        index := index + 1;
        i := 0;
        current := [];
      } else {
        SplitFirst(current + [token], later);
        assert cmds[index] == Split(current + [token], later)[0];
        AddWord(args, index, i, token, done, current);
        current := current + [token];
        i := i + 1;
      }
      tmp := rest;
    }
    assert cmds == done + [current];
    EndCommand(args, index, i, done, current);
    return false, index;
  }

  // ----- both passes, read character by character

  // Bars counted by the first pass; skip marks the character after such a bar.
  function Counted(s: string, skip: bool): nat {
    if s == [] then 0
    else if skip then Counted(s[1..], false)
    else if s[0] == '|' then 1 + Counted(s[1..], true)
    else Counted(s[1..], false)
  }

  // A bar that is a token by itself; start says whether s begins a word.
  predicate Alone(s: string, start: bool) {
    s != [] && s[0] == '|' && start && (|s| == 1 || s[1] == ' ')
  }

  function BarTokens(s: string, start: bool): nat {
    if s == [] then 0 else (if Alone(s, start) then 1 else 0) + BarTokens(s[1..], s[0] == ' ')
  }

  predicate AllAlone(s: string, start: bool) {
    s == [] || ((s[0] == '|' ==> Alone(s, start)) && AllAlone(s[1..], s[0] == ' '))
  }

  lemma {:induction false} CountedIsNumber(s: string)
    requires Safe(s)
    ensures NumberOfCommands(s) == 1 + Counted(s, false)
    decreases |s|
  {
    var k := Span(s, '|');
    CountedSkips(s, k);
    if k < |s| {
      assert s[k..][1..] == s[k + 1..] && s[k + 1..][1..] == s[k + 2..];
      CountedIsNumber(s[k + 2..]);
    } else {
      assert s[k..] == [];
    }
  }

  lemma {:induction false} CountedSkips(s: string, k: nat)
    requires k <= |s| && '|' !in s[..k]
    ensures Counted(s, false) == Counted(s[k..], false)
  {
    if k == 0 {
      assert s[0..] == s;
    } else {
      assert s[0] == s[..k][0];
      assert s[1..][..k - 1] == s[..k][1..];
      assert s[1..][k - 1..] == s[k..];
      CountedSkips(s[1..], k - 1);
    }
  }

  function CountBars(ts: seq<string>): nat {
    if ts == [] then 0 else (if ts[0] == BAR then 1 else 0) + CountBars(ts[1..])
  }

  lemma {:induction false} SplitLength(current: seq<string>, ts: seq<string>)
    ensures |Split(current, ts)| == 1 + CountBars(ts)
    decreases |ts|
  {
    if ts != [] {
      SplitLength([], ts[1..]);
      SplitLength(current + [ts[0]], ts[1..]);
    }
  }

  // Inside a word no bar can be a token, up to the next space.
  lemma {:induction false} BarTokensSkip(s: string, k: nat)
    requires k <= |s| && ' ' !in s[..k]
    ensures BarTokens(s, false) == BarTokens(s[k..], false)
  {
    if k == 0 {
      assert s[0..] == s;
    } else {
      assert s[0] == s[..k][0];
      assert s[1..][..k - 1] == s[..k][1..];
      assert s[1..][k - 1..] == s[k..];
      BarTokensSkip(s[1..], k - 1);
    }
  }

  lemma {:induction false} BarTokensAreTokens(s: string)
    ensures CountBars(Tokens(s)) == BarTokens(s, true)
    decreases |s|
  {
    if s != [] {
      if s[0] == ' ' {
        assert Strtok(s) == Strtok(s[1..]);
        BarTokensAreTokens(s[1..]);
      } else {
        var k := Span(s, ' ');
        var rest := s[if k == |s| then k else k + 1..];
        assert Strtok(s) == Some((s[..k], rest));
        assert Tokens(s)[1..] == Tokens(rest);
        BarTokensAreTokens(rest);
        FirstWord(s, k);
        if k < |s| {
          assert s[k..][1..] == rest;
        } else {
          assert s[k..] == [] && rest == [];
        }
      }
    }
  }

  lemma AloneIsBar(s: string, k: nat)
    requires 0 < k <= |s| && ' ' !in s[..k] && (k < |s| ==> s[k] == ' ')
    ensures Alone(s, true) <==> s[..k] == BAR
  {
    if k == 1 {
      assert s[..1] == [s[0]];
    } else {
      assert s[..k][1] == s[1];
    }
  }

  lemma BarTokensInWord(s: string, k: nat)
    requires 0 < k <= |s| && ' ' !in s[..k]
    ensures BarTokens(s[1..], false) == BarTokens(s[k..], false)
  {
    assert s[1..][..k - 1] == s[..k][1..];
    assert s[1..][k - 1..] == s[k..];
    BarTokensSkip(s[1..], k - 1);
  }

  lemma FirstWord(s: string, k: nat)
    requires 0 < k <= |s| && ' ' !in s[..k] && (k < |s| ==> s[k] == ' ')
    ensures BarTokens(s, true) == (if s[..k] == BAR then 1 else 0) + BarTokens(s[k..], false)
  {
    AloneIsBar(s, k);
    BarTokensInWord(s, k);
    assert s[0] == s[..k][0];
  }

  // No bar token escapes the first pass, and it counts nothing else exactly
  // when every bar stands alone.
  lemma {:induction false} PassesCompared(s: string, start: bool)
    ensures BarTokens(s, start) <= Counted(s, false)
    ensures !start ==> BarTokens(s, start) <= Counted(s, true)
    ensures BarTokens(s, start) == Counted(s, false) <==> AllAlone(s, start)
    decreases |s|
  {
    if s != [] {
      var t := s[1..];
      PassesCompared(t, s[0] == ' ');
      if s[0] == '|' && Alone(s, start) && t != [] {
        PassesCompared(t[1..], true);
      }
    }
  }

  // ----- what the passes have to do with each other

  // The first pass never counts too few commands for the second one's rows.
  lemma RowsFit(line: string)
    requires Safe(line)
    ensures |Commands(line)| <= NumberOfCommands(line)
  {
    SplitLength([], Tokens(line));
    BarTokensAreTokens(line);
    CountedIsNumber(line);
    PassesCompared(line, true);
  }

  // Bars with a space or the end of the line on either side.
  predicate BarsStandAlone(line: string) {
    forall i :: 0 <= i < |line| && line[i] == '|' ==>
      (i == 0 || line[i - 1] == ' ') && (i + 1 == |line| || line[i + 1] == ' ')
  }

  lemma {:induction false} AllAloneMeans(s: string, start: bool)
    ensures AllAlone(s, start) <==>
            (s != [] && s[0] == '|' ==> start) &&
            forall i :: 0 <= i < |s| && s[i] == '|' ==>
              (i == 0 || s[i - 1] == ' ') && (i + 1 == |s| || s[i + 1] == ' ')
    decreases |s|
  {
    if s != [] {
      var t := s[1..];
      AllAloneMeans(t, s[0] == ' ');
      assert forall i :: 0 <= i < |t| ==> t[i] == s[i + 1];
      if AllAlone(s, start) {
        forall i | 0 <= i < |s| && s[i] == '|'
          ensures (i == 0 || s[i - 1] == ' ') && (i + 1 == |s| || s[i + 1] == ' ')
        {
          if i > 0 { assert t[i - 1] == '|'; if i > 1 { assert t[i - 2] == s[i - 1]; } }
        }
      }
      if forall i :: 0 <= i < |s| && s[i] == '|' ==> (i == 0 || s[i - 1] == ' ') && (i + 1 == |s| || s[i + 1] == ' ') {
        forall i | 0 <= i < |t| && t[i] == '|'
          ensures (i == 0 || t[i - 1] == ' ') && (i + 1 == |t| || t[i + 1] == ' ')
        {
          assert s[i + 1] == '|';
          if i > 0 { assert t[i - 1] == s[i]; }
          if i + 1 < |t| { assert t[i + 1] == s[i + 2]; }
        }
        if t != [] && t[0] == '|' { assert s[1] == '|'; }
      }
    }
  }

  // The passes agree on the number of commands exactly when every bar of the
  // line stands alone; otherwise some row is left unfilled.
  lemma PassesAgreeIff(line: string)
    requires Safe(line)
    ensures |Commands(line)| == NumberOfCommands(line) <==> BarsStandAlone(line)
  {
    SplitLength([], Tokens(line));
    BarTokensAreTokens(line);
    CountedIsNumber(line);
    PassesCompared(line, true);
    AllAloneMeans(line, true);
  }

  // ----- when the first pass stays inside its string

  function TrailingBars(s: string): nat {
    if s == [] || s[|s| - 1] != '|' then 0 else 1 + TrailingBars(s[..|s| - 1])
  }

  // Whether the character after s would be skipped.
  function Skips(s: string, skip: bool): bool {
    if s == [] then skip else Skips(s[1..], !skip && s[0] == '|')
  }

  lemma {:induction false} SkipsSnoc(s: string, c: char, skip: bool)
    ensures Skips(s + [c], skip) == (!Skips(s, skip) && c == '|')
    decreases |s|
  {
    if s == [] {
      assert s + [c] == [c];
    } else {
      assert (s + [c])[1..] == s[1..] + [c];
      SkipsSnoc(s[1..], c, !skip && s[0] == '|');
    }
  }

  lemma {:induction false} SkipsTrailing(s: string)
    ensures Skips(s, false) <==> TrailingBars(s) % 2 == 1
    decreases |s|
  {
    if s != [] {
      var t := s[..|s| - 1];
      assert t + [s[|s| - 1]] == s;
      SkipsSnoc(t, s[|s| - 1], false);
      SkipsTrailing(t);
    }
  }

  lemma {:induction false} SkipsPrefix(s: string, k: nat)
    requires k <= |s| && '|' !in s[..k]
    ensures Skips(s, false) == Skips(s[k..], false)
    decreases |s|
  {
    if k == 0 {
      assert s[0..] == s;
    } else {
      assert s[0] == s[..k][0];
      assert s[1..][..k - 1] == s[..k][1..];
      assert s[1..][k - 1..] == s[k..];
      SkipsPrefix(s[1..], k - 1);
    }
  }

  // The counting pass reads past the end of its string exactly when the line
  // ends in an odd number of bars.
  lemma {:induction false} SafeIff(s: string)
    ensures Safe(s) <==> TrailingBars(s) % 2 == 0
    decreases |s|
  {
    SkipsTrailing(s);
    var k := Span(s, '|');
    SkipsPrefix(s, k);
    if k + 2 <= |s| {
      assert s[k..][1..] == s[k + 1..] && s[k + 1..][1..] == s[k + 2..];
      SafeIff(s[k + 2..]);
      SkipsTrailing(s[k + 2..]);
    } else if k + 1 == |s| {
      assert s[k..] == ['|'];
      assert s[k..][1..] == [];
    } else {
      assert s[k..] == [];
    }
  }

  // ----- round trip

  predicate IsWord(w: string) {
    w != [] && ' ' !in w && '|' !in w
  }

  predicate IsPipeline(cmds: seq<seq<string>>) {
    cmds != [] && forall c :: 0 <= c < |cmds| ==> cmds[c] != [] && forall k :: 0 <= k < |cmds[c]| ==> IsWord(cmds[c][k])
  }

  function Joined(ts: seq<string>, separator: string): string {
    if ts == [] then [] else if |ts| == 1 then ts[0] else ts[0] + separator + Joined(ts[1..], separator)
  }

  // The line a user types: words joined by spaces, commands by " | ".
  function Rendered(cmds: seq<seq<string>>): string {
    if cmds == [] then []
    else if |cmds| == 1 then Joined(cmds[0], " ")
    else Joined(cmds[0], " ") + " | " + Rendered(cmds[1..])
  }

  function Flat(cmds: seq<seq<string>>): seq<string> {
    if cmds == [] then [] else if |cmds| == 1 then cmds[0] else cmds[0] + [BAR] + Flat(cmds[1..])
  }

  lemma {:induction false} JoinedAppend(a: seq<string>, b: seq<string>)
    requires a != [] && b != []
    ensures Joined(a + b, " ") == Joined(a, " ") + " " + Joined(b, " ")
    decreases |a|
  {
    if |a| == 1 {
      assert (a + b)[1..] == b;
    } else {
      assert (a + b)[1..] == a[1..] + b;
      JoinedAppend(a[1..], b);
      assert a[0] + " " + (Joined(a[1..], " ") + " " + Joined(b, " ")) ==
             (a[0] + " " + Joined(a[1..], " ")) + " " + Joined(b, " ");
    }
  }

  lemma {:induction false} FlatNonEmpty(cmds: seq<seq<string>>)
    requires IsPipeline(cmds)
    ensures Flat(cmds) != []
    decreases |cmds|
  {
    assert cmds[0] != [];
  }

  lemma {:induction false} RenderedIsJoined(cmds: seq<seq<string>>)
    requires IsPipeline(cmds)
    ensures Rendered(cmds) == Joined(Flat(cmds), " ")
    decreases |cmds|
  {
    if |cmds| > 1 {
      var rest := cmds[1..];
      assert IsPipeline(rest);
      RenderedIsJoined(rest);
      FlatNonEmpty(rest);
      var tail := [BAR] + Flat(rest);
      assert cmds[0] + [BAR] + Flat(rest) == cmds[0] + tail;
      JoinedAppend(cmds[0], tail);
      assert tail[1..] == Flat(rest);
      assert Joined(tail, " ") == BAR + " " + Joined(Flat(rest), " ");
      assert Joined(cmds[0], " ") + " " + (BAR + " " + Rendered(rest)) == Joined(cmds[0], " ") + " | " + Rendered(rest);
    }
  }

  lemma {:induction false} SpanAt(w: string, rest: string)
    requires ' ' !in w && (rest == [] || rest[0] == ' ')
    ensures Span(w + rest, ' ') == |w|
  {
    if w == [] {
      assert w + rest == rest;
    } else {
      assert (w + rest)[1..] == w[1..] + rest;
      SpanAt(w[1..], rest);
    }
  }

  predicate IsToken(t: string) {
    t != [] && ' ' !in t
  }

  // Cutting at spaces undoes joining with spaces.
  lemma {:induction false} TokensOfJoined(ts: seq<string>)
    requires forall k :: 0 <= k < |ts| ==> IsToken(ts[k])
    ensures Tokens(Joined(ts, " ")) == ts
    decreases |ts|
  {
    if ts != [] {
      var w := ts[0];
      assert IsToken(w);
      var rest := if |ts| == 1 then [] else " " + Joined(ts[1..], " ");
      var line := Joined(ts, " ");
      assert line == w + rest;
      SpanAt(w, rest);
      assert line[0] == w[0] && line[..|w|] == w;
      if |ts| == 1 {
        assert line[|w|..] == [];
        assert Strtok(line) == Some((w, []));
        assert Tokens([]) == [];
      } else {
        assert line[|w| + 1..] == Joined(ts[1..], " ");
        assert Strtok(line) == Some((w, Joined(ts[1..], " ")));
        TokensOfJoined(ts[1..]);
      }
      assert ts == [w] + ts[1..];
    }
  }

  // A space ends a token wherever it stands, also first, last or twice in a row.
  lemma {:induction false} TokensAtSpace(a: string, b: string)
    ensures Tokens(a + " " + b) == Tokens(a) + Tokens(b)
    decreases |a|
  {
    var s := a + " " + b;
    if a == [] {
      assert s == [' '] + b;
      assert s[1..] == b;
      assert Strtok(s) == Strtok(b);
      assert Tokens(a) == [];
    } else if a[0] == ' ' {
      assert s[1..] == a[1..] + " " + b;
      assert Strtok(s) == Strtok(s[1..]) && Strtok(a) == Strtok(a[1..]);
      TokensAtSpace(a[1..], b);
    } else {
      var k := Span(a, ' ');
      FirstToken(a, b, k);
      if k < |a| {
        TokensAtSpace(a[k + 1..], b);
        Associate([a[..k]], Tokens(a[k + 1..]), Tokens(b));
      }
    }
  }

  // The first token of a line that begins with one, and what remains.
  lemma FirstToken(a: string, b: string, k: nat)
    requires a != [] && a[0] != ' ' && k == Span(a, ' ')
    ensures Tokens(a) == [a[..k]] + Tokens(a[if k == |a| then k else k + 1..])
    ensures Tokens(a + " " + b) == [a[..k]] + Tokens(if k == |a| then b else a[k + 1..] + " " + b)
    ensures k == |a| ==> Tokens(a) == [a[..k]]
  {
    var s := a + " " + b;
    SpanFirst(a, " " + b);
    assert s == a + (" " + b);
    assert s[..k] == a[..k];
    assert s[k + 1..] == if k == |a| then b else a[k + 1..] + " " + b;
    assert k == |a| ==> a[k..] == [];
  }

  lemma {:induction false} SpanFirst(a: string, rest: string)
    requires rest != [] && rest[0] == ' '
    ensures Span(a + rest, ' ') == Span(a, ' ')
  {
    if a == [] {
      assert a + rest == rest;
    } else {
      assert (a + rest)[1..] == a[1..] + rest;
      SpanFirst(a[1..], rest);
    }
  }

  lemma TokensOfWord(w: string)
    requires ' ' !in w
    ensures Tokens(w) == if w == [] then [] else [w]
  {
    if w != [] {
      TokensOfJoined([w]);
    }
  }

  // A bar ends a command wherever it stands among the tokens.
  lemma {:induction false} SplitAtBar(current: seq<string>, ts: seq<string>, us: seq<string>)
    ensures Split(current, ts + [BAR] + us) == Split(current, ts) + Split([], us)
    decreases |ts|
  {
    var all := ts + [BAR] + us;
    if ts == [] {
      assert all[1..] == us;
    } else {
      assert all[0] == ts[0] && all[1..] == ts[1..] + [BAR] + us;
      if ts[0] == BAR {
        SplitAtBar([], ts[1..], us);
        Associate([current], Split([], ts[1..]), Split([], us));
      } else {
        SplitAtBar(current + [ts[0]], ts[1..], us);
      }
    }
  }

  lemma {:induction false} SplitNoBar(current: seq<string>, ts: seq<string>)
    requires BAR !in ts
    ensures Split(current, ts) == [current + ts]
    decreases |ts|
  {
    if ts == [] {
      assert current + ts == current;
    } else {
      assert forall t :: t in ts[1..] ==> t in ts;
      SplitNoBar(current + [ts[0]], ts[1..]);
      assert current + [ts[0]] + ts[1..] == current + ts;
    }
  }

  // What the tokenizer makes of any line: a bar between spaces separates two
  // lines, and a line without such a bar is one command of its tokens.
  lemma CommandsAtBar(a: string, b: string)
    ensures Commands(a + " | " + b) == Commands(a) + Commands(b)
    ensures BAR !in Tokens(a) ==> Commands(a) == [Tokens(a)]
  {
    assert a + " | " + b == a + " " + (BAR + " " + b);
    TokensAtSpace(a, BAR + " " + b);
    TokensAtSpace(BAR, b);
    TokensOfWord(BAR);
    Associate(Tokens(a), [BAR], Tokens(b));
    SplitAtBar([], Tokens(a), Tokens(b));
    if BAR !in Tokens(a) {
      SplitNoBar([], Tokens(a));
      assert [] + Tokens(a) == Tokens(a);
    }
  }

  lemma WordIsNotBar(w: string)
    requires IsWord(w)
    ensures w != BAR
  {
    assert '|' == BAR[0];
  }

  lemma {:induction false} SplitWords(current: seq<string>, ws: seq<string>, rest: seq<string>)
    requires forall k :: 0 <= k < |ws| ==> IsWord(ws[k])
    ensures Split(current, ws + rest) == Split(current + ws, rest)
    decreases |ws|
  {
    if ws == [] {
      assert ws + rest == rest && current + ws == current;
    } else {
      assert IsWord(ws[0]);
      WordIsNotBar(ws[0]);
      assert (ws + rest)[1..] == ws[1..] + rest;
      SplitWords(current + [ws[0]], ws[1..], rest);
      assert current + [ws[0]] + ws[1..] == current + ws;
    }
  }

  // Splitting at bars undoes joining with bars.
  lemma {:induction false} SplitOfFlat(cmds: seq<seq<string>>)
    requires IsPipeline(cmds)
    ensures Split([], Flat(cmds)) == cmds
    decreases |cmds|
  {
    if |cmds| == 1 {
      SplitWords([], cmds[0], []);
      assert cmds[0] + [] == cmds[0] && [] + cmds[0] == cmds[0];
    } else {
      var rest := cmds[1..];
      assert IsPipeline(rest);
      SplitWords([], cmds[0], [BAR] + Flat(rest));
      assert cmds[0] + [BAR] + Flat(rest) == cmds[0] + ([BAR] + Flat(rest));
      assert [] + cmds[0] == cmds[0];
      assert ([BAR] + Flat(rest))[1..] == Flat(rest);
      SplitOfFlat(rest);
      assert cmds == [cmds[0]] + rest;
    }
  }

  lemma {:induction false} FlatTokens(cmds: seq<seq<string>>)
    requires IsPipeline(cmds)
    ensures forall k :: 0 <= k < |Flat(cmds)| ==> IsWord(Flat(cmds)[k]) || Flat(cmds)[k] == BAR
    ensures Flat(cmds) != [] && IsWord(Flat(cmds)[|Flat(cmds)| - 1])
    decreases |cmds|
  {
    if |cmds| > 1 {
      assert IsPipeline(cmds[1..]);
      FlatTokens(cmds[1..]);
    }
    assert cmds[0] != [];
  }

  // Bars that are tokens of their own stand alone in the joined line.
  lemma {:induction false} JoinedAlone(ts: seq<string>)
    requires forall k :: 0 <= k < |ts| ==> IsWord(ts[k]) || ts[k] == BAR
    ensures AllAlone(Joined(ts, " "), true)
    decreases |ts|
  {
    if ts != [] {
      var rest := if |ts| == 1 then [] else " " + Joined(ts[1..], " ");
      assert Joined(ts, " ") == ts[0] + rest;
      if |ts| > 1 {
        JoinedAlone(ts[1..]);
        assert rest[1..] == Joined(ts[1..], " ");
      }
      assert AllAlone(rest, false);
      if ts[0] == BAR {
        assert (ts[0] + rest)[1..] == rest;
      } else {
        assert IsWord(ts[0]);
        WordAlone(ts[0], rest, true);
      }
    }
  }

  lemma {:induction false} WordAlone(w: string, rest: string, start: bool)
    requires ' ' !in w && '|' !in w && AllAlone(rest, false) && (w == [] ==> !start)
    ensures AllAlone(w + rest, start)
    decreases |w|
  {
    if w == [] {
      assert w + rest == rest;
    } else {
      assert (w + rest)[1..] == w[1..] + rest;
      WordAlone(w[1..], rest, false);
    }
  }

  lemma {:induction false} JoinedEnd(ts: seq<string>)
    requires ts != [] && IsWord(ts[|ts| - 1])
    ensures Joined(ts, " ") != [] && Joined(ts, " ")[|Joined(ts, " ")| - 1] != '|'
    decreases |ts|
  {
    if |ts| > 1 {
      JoinedEnd(ts[1..]);
    }
  }

  lemma RenderedTokens(cmds: seq<seq<string>>)
    requires IsPipeline(cmds)
    ensures Tokens(Rendered(cmds)) == Flat(cmds)
  {
    var ts := Flat(cmds);
    RenderedIsJoined(cmds);
    FlatTokens(cmds);
    forall k | 0 <= k < |ts| ensures IsToken(ts[k]) {
      assert IsWord(ts[k]) || ts[k] == BAR;
    }
    TokensOfJoined(ts);
  }

  lemma RenderedBars(cmds: seq<seq<string>>)
    requires IsPipeline(cmds)
    ensures Safe(Rendered(cmds)) && BarsStandAlone(Rendered(cmds))
  {
    RenderedIsJoined(cmds);
    FlatTokens(cmds);
    JoinedEnd(Flat(cmds));
    assert TrailingBars(Rendered(cmds)) == 0;
    SafeIff(Rendered(cmds));
    JoinedAlone(Flat(cmds));
    AllAloneMeans(Rendered(cmds), true);
  }

  // Typing a pipeline and reading it back gives the same commands, and both
  // passes count them alike.
  lemma RoundTrip(cmds: seq<seq<string>>)
    requires IsPipeline(cmds)
    ensures Safe(Rendered(cmds))
    ensures Commands(Rendered(cmds)) == cmds
    ensures NumberOfCommands(Rendered(cmds)) == |cmds|
  {
    RenderedTokens(cmds);
    SplitOfFlat(cmds);
    RenderedBars(cmds);
    PassesAgreeIff(Rendered(cmds));
  }
}
