/** The quoting of Dinit command lines (dinit_gen.go) and the ExecStart splitter that reads them
    back (servicectl_api.go). */
module CommandLine {
  import Sorting

  datatype Result = Ok(words: seq<string>) | TrailingEscape | UnterminatedQuote | Empty

  /** The splitter's variables; `quote` is "" outside quotes and otherwise the open quote. */
  datatype State = State(result: seq<string>, current: string, quote: string, escaped: bool, hasToken: bool)

  const Start := State([], "", "", false, false)

  function Flush(s: State): State
  {
    if s.hasToken then s.(result := s.result + [s.current], current := "", hasToken := false) else s
  }

  predicate IsBlank(c: char) { c == ' ' || c == '\t' || c == '\n' || c == '\r' }

  function Push(s: State, c: char): State { s.(current := s.current + [c], hasToken := true) }

  /** One turn of the byte loop. */
  function Step(s: State, c: char): State
  {
    if s.escaped then Push(s, c).(escaped := false)
    else if c == '\\' then s.(escaped := true, hasToken := true)
    else if s.quote != "" then (if s.quote == [c] then s.(quote := "", hasToken := true) else Push(s, c))
    else if c == '\'' || c == '"' then s.(quote := [c], hasToken := true)
    else if IsBlank(c) then Flush(s)
    else Push(s, c)
  }

  function Run(s: State, text: string): State
    decreases |text|
  {
    if text == "" then s else Run(Step(s, text[0]), text[1..])
  }

  function Finish(s: State): Result
  {
    if s.escaped then TrailingEscape
    else if s.quote != "" then UnterminatedQuote
    else if Flush(s).result == [] then Empty
    else Ok(Flush(s).result)
  }

  function Split(text: string): Result { Finish(Run(Start, text)) }

  /** splitSystemdCommandLine */
  method SplitSystemdCommandLine(command: string) returns (r: Result)
    ensures r == Split(command)
  {
    var result: seq<string> := [];
    var current, quote := "", "";
    var escaped, hasToken := false, false;
    for i := 0 to |command|
      invariant Run(State(result, current, quote, escaped, hasToken), command[i..]) == Run(Start, command)
    {
      var c := command[i];
      assert command[i..][1..] == command[i + 1..];
      if escaped {
        current, hasToken, escaped := current + [c], true, false;
        continue;
      }
      if c == '\\' {
        escaped, hasToken := true, true;
        continue;
      }
      if quote != "" {
        if [c] == quote { quote := ""; } else { current := current + [c]; }
        hasToken := true;
        continue;
      }
      if c == '\'' || c == '"' {
        quote, hasToken := [c], true;
      } else if IsBlank(c) {
        if hasToken { result, current, hasToken := result + [current], "", false; }
      } else {
        current, hasToken := current + [c], true;
      }
    }
    if escaped { return TrailingEscape; }
    if quote != "" { return UnterminatedQuote; }
    if hasToken { result := result + [current]; }
    if |result| == 0 { return Empty; }
    return Ok(result);
  }

  // ----- quoting -----

  predicate IsSpecial(c: char) { IsBlank(c) || c == '"' || c == '\\' }

  predicate NeedsQuotes(s: string) { s == "" || exists i :: 0 <= i < |s| && IsSpecial(s[i]) }

  /** strings.ReplaceAll of one character. */
  function ReplaceAll(s: string, c: char, sub: string): string
  {
    if s == "" then "" else (if s[0] == c then sub else [s[0]]) + ReplaceAll(s[1..], c, sub)
  }

  /** dinitArg */
  function DinitArg(s: string): string
  {
    if !NeedsQuotes(s) then s
    else "\"" + ReplaceAll(ReplaceAll(s, '\\', "\\\\"), '"', "\\\"") + "\""
  }

  function EscapeChar(c: char): string
  {
    if c == '\\' then "\\\\" else if c == '"' then "\\\"" else [c]
  }

  /** Both replacements at once. */
  function Escape(s: string): string
  {
    if s == "" then "" else EscapeChar(s[0]) + Escape(s[1..])
  }

  lemma {:induction false} ReplaceConcat(a: string, b: string, c: char, sub: string)
    ensures ReplaceAll(a + b, c, sub) == ReplaceAll(a, c, sub) + ReplaceAll(b, c, sub)
  {
    if a == "" {
      assert a + b == b;
    } else {
      assert (a + b)[1..] == a[1..] + b;
      ReplaceConcat(a[1..], b, c, sub);
    }
  }

  lemma {:induction false} EscapeIsReplace(s: string)
    ensures ReplaceAll(ReplaceAll(s, '\\', "\\\\"), '"', "\\\"") == Escape(s)
  {
    if s != "" {
      var head := if s[0] == '\\' then "\\\\" else [s[0]];
      ReplaceConcat(head, ReplaceAll(s[1..], '\\', "\\\\"), '"', "\\\"");
      EscapeIsReplace(s[1..]);
      ReplaceShort(s[0]);
    }
  }

  lemma ReplaceShort(c: char)
    ensures var head := if c == '\\' then "\\\\" else [c]; ReplaceAll(head, '"', "\\\"") == EscapeChar(c)
  {
    assert [c][1..] == "";
    assert "\\\\"[1..] == "\\" && "\\"[1..] == "";
    assert ReplaceAll("", '"', "\\\"") == "";
    assert ReplaceAll("\\", '"', "\\\"") == "\\";
  }

  function JoinWords(words: seq<string>): string
  {
    if words == [] then "" else if |words| == 1 then words[0] else words[0] + " " + JoinWords(words[1..])
  }

  function Quoted(args: seq<string>): seq<string>
  {
    seq(|args|, i requires 0 <= i < |args| => DinitArg(args[i]))
  }

  /** The command line as generateLoggerDinit writes it. */
  method CommandText(args: seq<string>) returns (text: string)
    ensures text == JoinWords(Quoted(args))
  {
    var quoted: seq<string> := [];
    for i := 0 to |args|
      invariant quoted == Quoted(args)[..i]
    {
      quoted := quoted + [DinitArg(args[i])];
    }
    assert quoted == Quoted(args);
    text := JoinWords(quoted);
  }

  /** An argument the splitter reads back: no apostrophe, or one inside double quotes. */
  predicate Safe(a: string) { '\'' !in a || NeedsQuotes(a) }

  // ----- reading one argument -----

  lemma {:induction false} RunConcat(s: State, a: string, b: string)
    ensures Run(s, a + b) == Run(Run(s, a), b)
    decreases |a|
  {
    if a == "" {
      assert a + b == b;
    } else {
      assert (a + b)[1..] == a[1..] + b && (a + b)[0] == a[0];
      RunConcat(Step(s, a[0]), a[1..], b);
    }
  }

  /** Between words. */
  predicate Fresh(s: State) { s.current == "" && s.quote == "" && !s.escaped && !s.hasToken }

  lemma {:induction false} RunPlain(s: State, a: string)
    requires s.quote == "" && !s.escaped && '\'' !in a && !NeedsQuotes(a)
    ensures Run(s, a) == s.(current := s.current + a, hasToken := true)
    decreases |a|
  {
    var c := a[0];
    assert c in a && !IsSpecial(a[0]);
    var s1 := Step(s, c);
    assert s1 == Push(s, c);
    if |a| > 1 {
      assert forall x | x in a[1..] :: x in a;
      assert forall i | 0 <= i < |a[1..]| :: !IsSpecial(a[1..][i]) by {
        assert forall i | 0 <= i < |a[1..]| :: a[1..][i] == a[i + 1];
      }
      RunPlain(s1, a[1..]);
    } else {
      assert a[1..] == "";
    }
    assert (s.current + [c]) + a[1..] == s.current + a;
  }

  lemma RunEscaped(s: State, c: char)
    requires s.quote == "\"" && !s.escaped && s.hasToken
    ensures Run(s, EscapeChar(c)) == s.(current := s.current + [c])
  {
    var e := EscapeChar(c);
    if |e| == 2 {
      assert e[1..] == [e[1]] && [e[1]][1..] == "";
      var s1 := Step(s, e[0]);
      assert s1 == s.(escaped := true);
      assert Step(s1, e[1]) == s.(current := s.current + [c]);
      assert Run(s1, [e[1]]) == Run(Step(s1, e[1]), "");
    } else {
      assert e[1..] == "";
      assert Step(s, c) == s.(current := s.current + [c]);
    }
  }

  lemma {:induction false} RunInsideQuotes(s: State, a: string)
    requires s.quote == "\"" && !s.escaped && s.hasToken
    ensures Run(s, Escape(a)) == s.(current := s.current + a)
    decreases |a|
  {
    if a == "" {
      assert s.current + a == s.current;
    } else {
      RunConcat(s, EscapeChar(a[0]), Escape(a[1..]));
      RunEscaped(s, a[0]);
      RunInsideQuotes(s.(current := s.current + [a[0]]), a[1..]);
      assert (s.current + [a[0]]) + a[1..] == s.current + a;
    }
  }

  /** A safe argument is read back whole. */
  lemma RunArgument(s: State, a: string)
    requires Fresh(s) && Safe(a)
    ensures Run(s, DinitArg(a)) == s.(current := a, hasToken := true)
  {
    assert s.current + a == a;
    if !NeedsQuotes(a) {
      RunPlain(s, a);
    } else {
      EscapeIsReplace(a);
      var inside := s.(quote := "\"", hasToken := true);
      assert Step(s, '"') == inside;
      RunConcat(s, "\"", Escape(a) + "\"");
      assert DinitArg(a) == "\"" + (Escape(a) + "\"");
      RunOne(s, '"');
      RunConcat(inside, Escape(a), "\"");
      RunInsideQuotes(inside, a);
      RunOne(inside.(current := a), '"');
    }
  }

  lemma RunOne(s: State, c: char)
    ensures Run(s, [c]) == Step(s, c)
  {
    assert [c][1..] == "";
    assert Run(Step(s, c), "") == Step(s, c);
  }

  lemma QuotedTail(args: seq<string>)
    requires args != []
    ensures Quoted(args)[0] == DinitArg(args[0]) && Quoted(args)[1..] == Quoted(args[1..])
  {
  }

  /** The joined words, taken apart at the first one. */
  lemma JoinParts(args: seq<string>)
    requires args != []
    ensures JoinWords(Quoted(args)) ==
              DinitArg(args[0]) + (if |args| == 1 then "" else " " + JoinWords(Quoted(args[1..])))
  {
    QuotedTail(args);
    hide Quoted, DinitArg;
    if |args| == 1 {
      assert DinitArg(args[0]) + "" == DinitArg(args[0]);
    }
  }

  lemma LastWord(s: State, a: string)
    requires Fresh(s) && Safe(a)
    ensures Finish(Run(s, DinitArg(a) + "")) == Ok(s.result + [a])
  {
    RunArgument(s, a);
    hide Run, DinitArg, Safe;
    assert DinitArg(a) + "" == DinitArg(a);
  }

  /** Reading safe arguments collects them one by one. */
  lemma {:induction false} RunArguments(s: State, args: seq<string>)
    requires Fresh(s) && args != [] && forall i | 0 <= i < |args| :: Safe(args[i])
    ensures Finish(Run(s, JoinWords(Quoted(args)))) == Ok(s.result + args)
    decreases |args|
  {
    hide *;
    JoinParts(args);
    if |args| == 1 {
      LastWord(s, args[0]);
      assert s.result + [args[0]] == s.result + args;
    } else {
      var next := NextWord(s, args[0], JoinWords(Quoted(args[1..])));
      RunArguments(next, args[1..]);
      assert (s.result + [args[0]]) + args[1..] == s.result + args;
    }
  }

  /** A safe word and the blank after it leave the splitter between words. */
  lemma NextWord(s: State, a: string, rest: string) returns (next: State)
    requires Fresh(s) && Safe(a)
    ensures Fresh(next) && next.result == s.result + [a]
    ensures Run(s, DinitArg(a) + (" " + rest)) == Run(next, rest)
  {
    RunArgument(s, a);
    RunConcat(s, DinitArg(a), " " + rest);
    var read := s.(current := a, hasToken := true);
    RunConcat(read, " ", rest);
    RunOne(read, ' ');
    next := s.(result := s.result + [a]);
    assert Step(read, ' ') == next;
    hide Run, DinitArg;
  }

  // ----- an unquoted apostrophe is lost -----

  /** Word `k` is decided to start with `p`: it is finished, or it is being read. */
  ghost predicate StartsWith(s: State, k: nat, p: string)
  {
    if |s.result| > k then p <= s.result[k] else |s.result| == k && s.hasToken && p <= s.current
  }

  lemma {:induction false} StaysDecided(s: State, k: nat, p: string, text: string)
    requires StartsWith(s, k, p)
    ensures StartsWith(Run(s, text), k, p)
    decreases |text|
  {
    if text != "" {
      assert StartsWith(Step(s, text[0]), k, p);
      StaysDecided(Step(s, text[0]), k, p, text[1..]);
    }
  }

  /** A finished word is never touched again. */
  lemma {:induction false} StaysFinished(s: State, k: nat, text: string)
    requires k < |s.result|
    ensures k < |Run(s, text).result| && Run(s, text).result[k] == s.result[k]
    decreases |text|
  {
    if text != "" {
      StaysFinished(Step(s, text[0]), k, text[1..]);
    }
  }

  lemma DecidedWord(s: State, k: nat, p: string)
    requires StartsWith(s, k, p) && Finish(s).Ok?
    ensures k < |Finish(s).words| && p <= Finish(s).words[k]
  {
  }

  /** The state while reading an unquoted word after its first apostrophe: nothing was added to `x`. */
  ghost predicate Swallowing(s: State, k: nat, x: string)
  {
    |s.result| == k && s.current == x && s.hasToken && !s.escaped && (s.quote == "" || s.quote == "'")
  }

  /** Reading the rest of the word either adds a wrong character or leaves everything as it was. */
  lemma {:induction false} ReadRest(s: State, k: nat, x: string, y: string)
    requires Swallowing(s, k, x) && (y == "" || !NeedsQuotes(y))
    ensures Swallowing(Run(s, y), k, x) || exists c :: c != '\'' && StartsWith(Run(s, y), k, x + [c])
    decreases |y|
  {
    if y != "" {
      var c := y[0];
      assert !IsSpecial(y[0]);
      var s1 := Step(s, c);
      if c == '\'' {
        assert Swallowing(s1, k, x);
        assert forall i | 0 <= i < |y[1..]| :: y[1..][i] == y[i + 1];
        ReadRest(s1, k, x, y[1..]);
      } else {
        assert StartsWith(s1, k, x + [c]);
        StaysDecided(s1, k, x + [c], y[1..]);
      }
    }
  }

  lemma AfterWord(s: State, k: nat, x: string, tail: string)
    requires Swallowing(s, k, x) && (tail == "" || tail[0] == ' ')
    ensures var r := Finish(Run(s, tail)); r.Ok? ==> k < |r.words| && (r.words[k] == x || (x + " ") <= r.words[k])
  {
    if tail != "" {
      var s1 := Step(s, ' ');
      assert Run(s, tail) == Run(s1, tail[1..]);
      if s.quote == "" {
        assert s1.result == s.result + [x];
        StaysFinished(s1, k, tail[1..]);
      } else {
        assert StartsWith(s1, k, x + " ");
        StaysDecided(s1, k, x + " ", tail[1..]);
        if Finish(Run(s, tail)).Ok? { DecidedWord(Run(s, tail), k, x + " "); }
      }
    }
  }

  /** An unsafe argument split at its first apostrophe. */
  lemma {:induction false} FirstApostrophe(a: string) returns (x: string, y: string)
    requires '\'' in a
    ensures a == x + "'" + y && '\'' !in x
    decreases |a|
  {
    if a[0] == '\'' {
      x, y := "", a[1..];
      assert a == "" + "'" + a[1..];
    } else {
      assert a == [a[0]] + a[1..];
      var x', y' := FirstApostrophe(a[1..]);
      x, y := [a[0]] + x', y';
      assert a == ([a[0]] + x') + "'" + y';
    }
  }

  lemma PartsUnquoted(a: string, x: string, y: string)
    requires !NeedsQuotes(a) && a == x + "'" + y
    ensures (x == "" || !NeedsQuotes(x)) && (y == "" || !NeedsQuotes(y))
  {
    assert forall i | 0 <= i < |x| :: x[i] == a[i];
    assert forall i | 0 <= i < |y| :: y[i] == a[|x| + 1 + i];
  }

  /** An unsafe argument is never read back as itself. */
  lemma UnsafeWordLost(s: State, a: string, tail: string)
    requires Fresh(s) && !Safe(a) && (tail == "" || tail[0] == ' ')
    ensures var r := Finish(Run(s, DinitArg(a) + tail)); r.Ok? ==> |s.result| < |r.words| && r.words[|s.result|] != a
  {
    var k := |s.result|;
    var x, y := FirstApostrophe(a);
    var s3 := SwallowWord(s, a, x, y, tail);
    var end := Run(s3, tail);
    hide Run, Step, DinitArg;
    assert a[|x|] == '\'' && |a| > |x|;
    if Swallowing(s3, k, x) {
      AfterWord(s3, k, x, tail);
      WrongNext(a, x, ' ');
    } else {
      var c :| c != '\'' && StartsWith(s3, k, x + [c]);
      StaysDecided(s3, k, x + [c], tail);
      if Finish(end).Ok? { DecidedWord(end, k, x + [c]); }
      WrongNext(a, x, c);
    }
  }

  /** The apostrophe opens a quote and adds nothing. */
  lemma QuoteOpens(s: State, x: string)
    requires s.current == x && s.quote == "" && !s.escaped
    ensures Swallowing(Step(s, '\''), |s.result|, x)
  {
  }

  lemma ReadBefore(s: State, x: string)
    requires Fresh(s) && '\'' !in x && (x == "" || !NeedsQuotes(x))
    ensures var s1 := Run(s, x); s1.current == x && s1.quote == "" && !s1.escaped && s1.result == s.result
  {
    if x != "" {
      RunPlain(s, x);
      assert s.current + x == x;
    }
  }

  lemma SwallowWord(s: State, a: string, x: string, y: string, tail: string) returns (s3: State)
    requires Fresh(s) && !Safe(a) && a == x + "'" + y && '\'' !in x
    ensures Run(s, DinitArg(a) + tail) == Run(s3, tail)
    ensures Swallowing(s3, |s.result|, x) || exists c :: c != '\'' && StartsWith(s3, |s.result|, x + [c])
  {
    assert !NeedsQuotes(a) && DinitArg(a) == a;
    hide *;
    PartsUnquoted(a, x, y);
    ReadBefore(s, x);
    var s1 := Run(s, x);
    QuoteOpens(s1, x);
    var s2 := Step(s1, '\'');
    s3 := Run(s2, y);
    assert Run(s, a + tail) == Run(s3, tail) by {
      RunConcat(s, x, "'" + (y + tail));
      RunConcat(s1, "'", y + tail);
      RunOne(s1, '\'');
      RunConcat(s2, y, tail);
      assert a + tail == x + ("'" + (y + tail));
    }
    ReadRest(s2, |s.result|, x, y);
  }

  lemma WrongNext(a: string, x: string, c: char)
    requires |a| > |x| && a[|x|] != c
    ensures !(x + [c] <= a) && a != x
  {
    var p := x + [c];
    assert p[|x|] == c;
  }

  lemma {:induction false} UnsafeListLost(s: State, args: seq<string>, k: nat)
    requires Fresh(s) && k < |args| && !Safe(args[k]) && forall i | 0 <= i < k :: Safe(args[i])
    ensures Finish(Run(s, JoinWords(Quoted(args)))) != Ok(s.result + args)
    decreases |args|
  {
    hide *;
    JoinParts(args);
    if k == 0 {
      UnsafeWordLost(s, args[0], if |args| == 1 then "" else " " + JoinWords(Quoted(args[1..])));
      assert (s.result + args)[|s.result|] == args[0];
    } else {
      var next := NextWord(s, args[0], JoinWords(Quoted(args[1..])));
      UnsafeListLost(next, args[1..], k - 1);
      assert (s.result + [args[0]]) + args[1..] == s.result + args;
    }
  }

  lemma {:induction false} FirstUnsafe(args: seq<string>) returns (k: nat)
    requires exists a :: a in args && !Safe(a)
    ensures k < |args| && !Safe(args[k]) && forall i | 0 <= i < k :: Safe(args[i])
  {
    k := 0;
    while Safe(args[k])
      invariant k < |args| && forall i | 0 <= i < k :: Safe(args[i])
      decreases |args| - k
    {
      assert exists i :: 0 <= i < |args| && !Safe(args[i]);
      k := k + 1;
    }
  }

  /** The round trip, exactly: splitting the joined quoted arguments gives back the arguments if and
      only if there are any and every one that contains an apostrophe is also one that gets quoted. */
  lemma QuoteSplitRoundTrip(args: seq<string>)
    ensures Split(JoinWords(Quoted(args))) == Ok(args) <==> args != [] && forall a | a in args :: Safe(a)
  {
    assert [] + args == args;
    if args == [] {
      assert Split("") == Empty;
    } else if forall a | a in args :: Safe(a) {
      RunArguments(Start, args);
    } else {
      var k := FirstUnsafe(args);
      UnsafeListLost(Start, args, k);
    }
  }

  // ----- every way of writing a command line -----

  /** A character inside quotes: itself, or behind a backslash. */
  datatype Inner = Plain(c: char) | Slashed(c: char)

  /** A part of a word: a bare character, one behind a backslash, or a quoted text. */
  datatype Piece = Bare(c: char) | Escaped(c: char) | Quote(mark: char, inside: seq<Inner>)

  /** A written word and the blanks that follow it. */
  datatype Written = Written(word: seq<Piece>, gap: string)

  predicate GoodInner(mark: char, i: Inner) { i.Plain? ==> i.c != mark && i.c != '\\' }

  predicate GoodPiece(p: Piece)
  {
    match p
    case Bare(c) => c !in " \t\n\r'\"\\"
    case Escaped(_) => true
    case Quote(mark, inside) =>
      (mark == '\'' || mark == '"') && forall i | 0 <= i < |inside| :: GoodInner(mark, inside[i])
  }

  predicate Blanks(s: string) { forall i | 0 <= i < |s| :: s[i] in " \t\n\r" }

  function InnerText(inside: seq<Inner>): string
  {
    if inside == [] then ""
    else (if inside[0].Plain? then [inside[0].c] else ['\\', inside[0].c]) + InnerText(inside[1..])
  }

  function InnerMeans(inside: seq<Inner>): string { seq(|inside|, i requires 0 <= i < |inside| => inside[i].c) }

  function PieceText(p: Piece): string
  {
    match p
    case Bare(c) => [c]
    case Escaped(c) => ['\\', c]
    case Quote(mark, inside) => [mark] + InnerText(inside) + [mark]
  }

  function PieceMeans(p: Piece): string
  {
    match p
    case Bare(c) => [c]
    case Escaped(c) => [c]
    case Quote(_, inside) => InnerMeans(inside)
  }

  function WordText(word: seq<Piece>): string { if word == [] then "" else PieceText(word[0]) + WordText(word[1..]) }

  function WordMeans(word: seq<Piece>): string { if word == [] then "" else PieceMeans(word[0]) + WordMeans(word[1..]) }

  function LineText(ws: seq<Written>): string
  {
    if ws == [] then "" else WordText(ws[0].word) + (ws[0].gap + LineText(ws[1..]))
  }

  function LineMeans(ws: seq<Written>): seq<string>
  {
    if ws == [] then [] else [WordMeans(ws[0].word)] + LineMeans(ws[1..])
  }

  predicate GoodWord(word: seq<Piece>) { word != [] && forall i | 0 <= i < |word| :: GoodPiece(word[i]) }

  /** Words of good pieces, with blanks between any two. */
  predicate GoodLine(ws: seq<Written>)
  {
    forall i | 0 <= i < |ws| :: GoodWord(ws[i].word) && Blanks(ws[i].gap) && (i < |ws| - 1 ==> ws[i].gap != "")
  }

  lemma {:induction false} RunInner(s: State, mark: char, inside: seq<Inner>)
    requires s.quote == [mark] && !s.escaped && s.hasToken && forall i | 0 <= i < |inside| :: GoodInner(mark, inside[i])
    ensures Run(s, InnerText(inside)) == s.(current := s.current + InnerMeans(inside))
    decreases |inside|
  {
    if inside == [] {
      assert s.current + InnerMeans(inside) == s.current;
    } else {
      var c := inside[0].c;
      var head := if inside[0].Plain? then [c] else ['\\', c];
      var s1 := Push(s, c);
      assert Run(s, head) == s1 by {
        if inside[0].Plain? { RunOne(s, c); } else { RunTwo(s, '\\', c); }
      }
      RunConcat(s, head, InnerText(inside[1..]));
      RunInner(s1, mark, inside[1..]);
      assert s1.current + InnerMeans(inside[1..]) == s.current + InnerMeans(inside);
      hide Run, Step;
    }
  }

  lemma RunTwo(s: State, a: char, b: char)
    ensures Run(s, [a, b]) == Step(Step(s, a), b)
  {
    assert [a, b][1..] == [b];
    RunOne(Step(s, a), b);
    hide Step;
  }

  /** Between pieces of a word, or between words. */
  predicate Outside(s: State) { s.quote == "" && !s.escaped }

  lemma RunPiece(s: State, p: Piece)
    requires Outside(s) && GoodPiece(p)
    ensures Run(s, PieceText(p)) == s.(current := s.current + PieceMeans(p), hasToken := true)
  {
    match p
    case Bare(c) => RunOne(s, c);
    case Escaped(c) => RunTwo(s, '\\', c);
    case Quote(mark, inside) =>
      var s1 := Step(s, mark);
      RunOne(s, mark);
      RunConcat(s, [mark], InnerText(inside) + [mark]);
      RunInner(s1, mark, inside);
      RunConcat(s1, InnerText(inside), [mark]);
      RunOne(Run(s1, InnerText(inside)), mark);
      assert [mark] + InnerText(inside) + [mark] == [mark] + (InnerText(inside) + [mark]);
      hide Run, InnerText, InnerMeans;
  }

  lemma {:induction false} RunPieces(s: State, word: seq<Piece>)
    requires Outside(s) && forall i | 0 <= i < |word| :: GoodPiece(word[i])
    ensures Run(s, WordText(word)) == if word == [] then s
              else s.(current := s.current + WordMeans(word), hasToken := true)
    decreases |word|
  {
    WordParts(word);
    hide Run, PieceText, PieceMeans, GoodPiece, WordText, WordMeans;
    if word == [] {
      RunNothing(s);
    } else {
      var s1 := s.(current := s.current + PieceMeans(word[0]), hasToken := true);
      RunPiece(s, word[0]);
      RunConcat(s, PieceText(word[0]), WordText(word[1..]));
      RunPieces(s1, word[1..]);
      assert s1.current + WordMeans(word[1..]) == s.current + WordMeans(word);
    }
  }

  lemma WordParts(word: seq<Piece>)
    ensures word == [] ==> WordText(word) == WordMeans(word) == ""
    ensures word != [] ==> WordText(word) == PieceText(word[0]) + WordText(word[1..])
    ensures word != [] ==> WordMeans(word) == PieceMeans(word[0]) + WordMeans(word[1..])
    ensures |word| == 1 ==> WordMeans(word[1..]) == ""
  {
    hide PieceText, PieceMeans;
  }

  lemma {:induction false} RunBlanks(s: State, gap: string)
    requires Outside(s) && Blanks(gap)
    ensures Run(s, gap) == if gap == "" then s else Flush(s)
    decreases |gap|
  {
    if gap != "" {
      assert Step(s, gap[0]) == Flush(s);
      RunBlanks(Flush(s), gap[1..]);
    }
  }

  /** One word and the blanks behind it. */
  lemma RunWritten(s: State, w: Written, rest: string)
    requires Fresh(s) && GoodWord(w.word) && Blanks(w.gap)
    ensures var read := s.(current := WordMeans(w.word), hasToken := true);
            Run(s, WordText(w.word) + (w.gap + rest)) == Run(if w.gap == "" then read else Flush(read), rest)
  {
    var read := s.(current := WordMeans(w.word), hasToken := true);
    RunPieces(s, w.word);
    assert s.current + WordMeans(w.word) == WordMeans(w.word);
    hide Run, WordText, WordMeans, GoodPiece;
    RunConcat(s, WordText(w.word), w.gap + rest);
    RunConcat(read, w.gap, rest);
    RunBlanks(read, w.gap);
  }

  lemma LineParts(ws: seq<Written>)
    requires ws != []
    ensures LineText(ws) == WordText(ws[0].word) + (ws[0].gap + LineText(ws[1..]))
    ensures LineMeans(ws) == [WordMeans(ws[0].word)] + LineMeans(ws[1..])
    ensures |ws| == 1 ==> LineText(ws[1..]) == "" && LineMeans(ws[1..]) == []
  {
    hide WordText, WordMeans;
  }

  /** What the splitter is told is what it reads: however words are written, with bare characters,
      backslashes and either kind of quotes, and whatever blanks stand around them. */
  lemma {:induction false} RunLine(s: State, ws: seq<Written>)
    requires Fresh(s) && GoodLine(ws) && ws != []
    ensures Finish(Run(s, LineText(ws))) == Ok(s.result + LineMeans(ws))
    decreases |ws|
  {
    var read := s.(current := WordMeans(ws[0].word), hasToken := true);
    LineParts(ws);
    assert GoodWord(ws[0].word) && Blanks(ws[0].gap) && (|ws| > 1 ==> ws[0].gap != "" && GoodLine(ws[1..]));
    hide Run, WordText, WordMeans, GoodWord, LineText, LineMeans, GoodLine, Blanks;
    RunWritten(s, ws[0], LineText(ws[1..]));
    if |ws| == 1 {
      RunNothing(read);
      RunNothing(Flush(read));
      assert [WordMeans(ws[0].word)] + [] == [WordMeans(ws[0].word)];
    } else {
      RunLine(Flush(read), ws[1..]);
      Sorting.Associative(s.result, [WordMeans(ws[0].word)], LineMeans(ws[1..]));
    }
  }

  lemma RunNothing(s: State)
    ensures Run(s, "") == s
  {
  }

  lemma SplitReadsWriting(lead: string, ws: seq<Written>)
    requires Blanks(lead) && GoodLine(ws) && ws != []
    ensures Split(lead + LineText(ws)) == Ok(LineMeans(ws))
  {
    RunConcat(Start, lead, LineText(ws));
    RunBlanks(Start, lead);
    RunLine(Start, ws);
    hide Run, LineText, LineMeans;
    assert [] + LineMeans(ws) == LineMeans(ws);
  }

  /** The errors: only blanks, a backslash at the very end, and a quote that is not closed. */
  lemma SplitErrors(lead: string, s: State, mark: char, inside: seq<Inner>)
    requires Blanks(lead) && Outside(s)
    requires (mark == '\'' || mark == '"') && forall i | 0 <= i < |inside| :: GoodInner(mark, inside[i])
    ensures Split(lead) == Empty
    ensures Finish(Run(s, "\\")) == TrailingEscape
    ensures Finish(Run(s, [mark] + InnerText(inside))) == UnterminatedQuote
  {
    RunBlanks(Start, lead);
    RunOne(s, '\\');
    RunOne(s, mark);
    RunConcat(s, [mark], InnerText(inside));
    RunInner(Step(s, mark), mark, inside);
    hide Run, InnerText, InnerMeans;
  }

  /** dinitArg leaves an argument as it is exactly if it has no blank, double quote or backslash and is not empty. */
  lemma UnquotedExactly(a: string)
    ensures DinitArg(a) == a <==> a != "" && forall i | 0 <= i < |a| :: a[i] !in " \t\r\n\"\\"
  {
    if NeedsQuotes(a) {
      EscapeIsReplace(a);
      EscapeLonger(a);
      assert |DinitArg(a)| > |a|;
    }
    hide Escape, ReplaceAll;
    assert forall i | 0 <= i < |a| :: IsSpecial(a[i]) <==> a[i] in " \t\r\n\"\\";
  }

  lemma {:induction false} EscapeLonger(a: string)
    ensures |Escape(a)| >= |a|
  {
    if a != "" {
      EscapeLonger(a[1..]);
    }
  }
}
