/**
 * The command line of features/CommandShell: a `:`-command is split into a
 * command name and arguments, the name is lower-cased and looked up in a
 * registry of handlers, and the handler acts on the editor through the only
 * capabilities it is given: request a save, request quitting, set the status
 * message.
 */
module Features {

  datatype TokenType = Command | Argument | Separator | EndOfInput

  datatype Token = Token(kind: TokenType, value: string)

  /** The handlers the constructor registers: `w`, `q` and `wq`. */
  datatype Handler = Write | Quit | WriteQuit

  /** What a handler can do to the editor: the quit flag, the status message, and the saves it requested. */
  datatype Effects = Effects(quit: bool, status: string, saves: nat)

  /** std::tolower in the C locale: only A-Z change. */
  function LowerChar(c: char): (d: char)
    ensures !('A' <= d <= 'Z')
    ensures !('A' <= c <= 'Z') ==> d == c
    ensures 'A' <= c <= 'Z' ==> 'a' <= d <= 'z' && d as int - 'a' as int == c as int - 'A' as int
  {
    if 'A' <= c <= 'Z' then (c as int - 'A' as int + 'a' as int) as char else c
  }

  /** toLower: a copy of the string with every character lower-cased. */
  function ToLower(s: string): (r: string)
    ensures |r| == |s|
    ensures forall i :: 0 <= i < |s| ==> r[i] == LowerChar(s[i])
    ensures forall i :: 0 <= i < |r| ==> !('A' <= r[i] <= 'Z')
  {
    seq(|s|, i requires 0 <= i < |s| => LowerChar(s[i]))
  }

  /** Lower-casing twice is lower-casing once. */
  lemma ToLowerIdempotent(s: string)
    ensures ToLower(ToLower(s)) == ToLower(s)
  {
    var once := ToLower(s);
    assert forall i :: 0 <= i < |s| ==> ToLower(once)[i] == once[i];
  }

  /** A string is its own lower-case form exactly when it holds no upper-case letter. */
  lemma ToLowerFixedPoints(s: string)
    ensures ToLower(s) == s <==> forall i :: 0 <= i < |s| ==> !('A' <= s[i] <= 'Z')
  {
    if forall i :: 0 <= i < |s| ==> !('A' <= s[i] <= 'Z') {
      assert forall i :: 0 <= i < |s| ==> ToLower(s)[i] == s[i];
    }
  }

  /** The characters operator>> skips: space, tab, newline, vertical tab, form feed, carriage return. */
  predicate IsSpace(c: char) {
    c == ' ' || c == '\t' || c == '\n' || c as int == 11 || c as int == 12 || c == '\r'
  }

  /** A token's text: not empty and free of white space. */
  predicate IsWord(w: string) {
    w != [] && forall i :: 0 <= i < |w| ==> !IsSpace(w[i])
  }

  /** The command prefix is dropped once, and only when it is the very first character. */
  function StripPrefix(input: string): (r: string)
    ensures |input| > 0 && input[0] == ':' ==> input == ":" + r
    ensures !(|input| > 0 && input[0] == ':') ==> r == input
  {
    if |input| > 0 && input[0] == ':' then input[1..] else input
  }

  /** The longest prefix of `s` without white space. */
  function LeadingWord(s: string): (w: string)
    ensures |w| <= |s| && w == s[..|w|]
    ensures forall i :: 0 <= i < |w| ==> !IsSpace(w[i])
    ensures |w| == |s| || IsSpace(s[|w|])
  {
    if s == [] || IsSpace(s[0]) then [] else [s[0]] + LeadingWord(s[1..])
  }

  /** The segments `iss >> segment` reads from `s`, in order: the maximal runs of non-space characters. */
  function Words(s: string): (ws: seq<string>)
    ensures forall k :: 0 <= k < |ws| ==> IsWord(ws[k])
    decreases |s|
  {
    if s == [] then []
    else if IsSpace(s[0]) then Words(s[1..])
    else
      var w := LeadingWord(s);
      [w] + Words(s[|w|..])
  }

  /** There are no words exactly when the text is empty or all white space. */
  lemma {:induction false} WordsEmptyIffBlank(s: string)
    ensures Words(s) == [] <==> forall i :: 0 <= i < |s| ==> IsSpace(s[i])
    decreases |s|
  {
    if s != [] && IsSpace(s[0]) {
      WordsEmptyIffBlank(s[1..]);
      assert forall i :: 1 <= i < |s| ==> s[i] == s[1..][i - 1];
    }
  }

  /** The leading word of a concatenation. */
  lemma {:induction false} LeadingWordAppend(a: string, t: string)
    ensures LeadingWord(a + t) == if |LeadingWord(a)| < |a| then LeadingWord(a) else a + LeadingWord(t)
    decreases |a|
  {
    if a == [] {
      assert a + t == t;
    } else if IsSpace(a[0]) {
      assert (a + t)[0] == a[0];
    } else {
      var tail := a[1..];
      LeadingWordAppend(tail, t);
      assert (a + t)[0] == a[0];
      assert (a + t)[1..] == tail + t;
      assert LeadingWord(a + t) == [a[0]] + LeadingWord(tail + t);
      assert LeadingWord(a) == [a[0]] + LeadingWord(tail);
      if |LeadingWord(tail)| == |tail| {
        assert LeadingWord(tail) == tail;
        assert [a[0]] + (tail + LeadingWord(t)) == a + LeadingWord(t);
      }
    }
  }

  /** A word followed by nothing or by white space reads as that word, then the words of the rest. */
  lemma WordThenRest(w: string, rest: string)
    requires IsWord(w)
    requires rest == [] || IsSpace(rest[0])
    ensures Words(w + rest) == [w] + Words(rest)
  {
    LeadingWordAppend(w, rest);
    assert LeadingWord(w) == w;
    assert LeadingWord(rest) == [];
    assert (w + rest)[|w|..] == rest;
  }

  /** A leading white-space character is skipped. */
  lemma SkipSpace(c: char, rest: string)
    requires IsSpace(c)
    ensures Words([c] + rest) == Words(rest)
  {
    assert ([c] + rest)[1..] == rest;
  }

  /** A whole word followed by white space: that word, then the words after the space. */
  lemma WordThenSpace(a: string, c: char, b: string)
    requires IsWord(a) && IsSpace(c)
    ensures Words(a + [c] + b) == Words(a) + Words(b)
  {
    WordThenRest(a, []);
    assert a + [] == a;
    WordThenRest(a, [c] + b);
    assert a + [c] + b == a + ([c] + b);
    SkipSpace(c, b);
  }

  /** White space splits: the words of a + [c] + b are the words of a, then those of b. */
  lemma {:induction false} WordsSplitAtSpace(a: string, c: char, b: string)
    requires IsSpace(c)
    ensures Words(a + [c] + b) == Words(a) + Words(b)
    decreases |a|
  {
    var s := a + [c] + b;
    if a == [] {
      assert s[1..] == b;
    } else if IsSpace(a[0]) {
      WordsSplitAtSpace(a[1..], c, b);
      assert s[1..] == a[1..] + [c] + b;
    } else {
      var w := LeadingWord(a);
      LeadingWordAppend(a, [c] + b);
      assert s == a + ([c] + b);
      if |w| < |a| {
        assert LeadingWord(s) == w;
        WordsSplitAtSpace(a[|w|..], c, b);
        assert s[|w|..] == a[|w|..] + [c] + b;
      } else {
        WordThenSpace(a, c, b);
      }
    }
  }

  /** Words typed as tokens: the first is the COMMAND, every later one an ARGUMENT. */
  function Typed(ws: seq<string>): (ts: seq<Token>)
    ensures |ts| == |ws|
    ensures forall k :: 0 <= k < |ts| ==> ts[k].value == ws[k]
    ensures forall k :: 0 <= k < |ts| ==> (ts[k].kind == Command <==> k == 0)
    ensures forall k :: 0 <= k < |ts| ==> ts[k].kind in {Command, Argument}
  {
    seq(|ws|, k requires 0 <= k < |ws| => Token(if k == 0 then Command else Argument, ws[k]))
  }

  /** Typing one more word appends one token, a COMMAND only when it is the first. */
  lemma TypedAppend(ws: seq<string>, w: string)
    ensures Typed(ws + [w]) == Typed(ws) + [Token(if ws == [] then Command else Argument, w)]
  {
    var longer := Typed(ws + [w]);
    var appended := Typed(ws) + [Token(if ws == [] then Command else Argument, w)];
    assert forall k :: 0 <= k < |longer| ==> longer[k] == appended[k];
  }

  /**
   * The tokens of a command line: after the prefix is stripped, one token
   * per word, in order, each non-empty and free of white space, the first
   * the COMMAND and the others ARGUMENTs.
   */
  function Tokens(input: string): (ts: seq<Token>)
    ensures |ts| == |Words(StripPrefix(input))|
    ensures forall k :: 0 <= k < |ts| ==> ts[k].value == Words(StripPrefix(input))[k] && IsWord(ts[k].value)
    ensures forall k :: 0 <= k < |ts| ==> (ts[k].kind == Command <==> k == 0)
  {
    Typed(Words(StripPrefix(input)))
  }

  /** A command line yields no tokens exactly when, after the prefix, it is empty or all white space. */
  lemma NoTokensIffBlank(input: string)
    ensures Tokens(input) == [] <==> forall i :: 0 <= i < |StripPrefix(input)| ==> IsSpace(StripPrefix(input)[i])
  {
    WordsEmptyIffBlank(StripPrefix(input));
  }

  /** The suffix from i is the element at i followed by the suffix from i + 1. */
  lemma SplitHead<T>(s: seq<T>, i: nat)
    requires i < |s|
    ensures s[i..] == [s[i]] + s[i + 1..]
  {
  }

  /** A white-space character ends the pending segment, which becomes a word, and is itself dropped. */
  lemma SpaceEndsSegment(words: seq<string>, segment: string, c: char, rest: string, target: seq<string>)
    requires IsSpace(c)
    requires forall k :: 0 <= k < |segment| ==> !IsSpace(segment[k])
    requires words + Words(segment + ([c] + rest)) == target
    ensures (if segment == [] then words else words + [segment]) + Words(rest) == target
  {
    SkipSpace(c, rest);
    if segment == [] {
      assert segment + ([c] + rest) == [c] + rest;
    } else {
      WordThenRest(segment, [c] + rest);
      assert words + ([segment] + Words(rest)) == (words + [segment]) + Words(rest);
    }
  }

  /** Reading the white-space character clean[i]. */
  lemma ReadSpace(words: seq<string>, segment: string, clean: string, i: nat, target: seq<string>)
    requires i < |clean| && IsSpace(clean[i])
    requires forall k :: 0 <= k < |segment| ==> !IsSpace(segment[k])
    requires words + Words(segment + clean[i..]) == target
    ensures (if segment == [] then words else words + [segment]) + Words("" + clean[i + 1..]) == target
  {
    var rest := clean[i + 1..];
    SplitHead(clean, i);
    SpaceEndsSegment(words, segment, clean[i], rest, target);
    assert "" + rest == rest;
  }

  /** Reading any other character clean[i] moves it into the pending segment. */
  lemma ReadNonSpace(words: seq<string>, segment: string, clean: string, i: nat, target: seq<string>)
    requires i < |clean|
    requires words + Words(segment + clean[i..]) == target
    ensures words + Words((segment + [clean[i]]) + clean[i + 1..]) == target
  {
    assert (segment + [clean[i]]) + clean[i + 1..] == segment + clean[i..];
  }

  /** At the end of the input a pending segment is the last word. */
  lemma ReadEnd(words: seq<string>, segment: string, clean: string, target: seq<string>)
    requires forall k :: 0 <= k < |segment| ==> !IsSpace(segment[k])
    requires words + Words(segment + clean[|clean|..]) == target
    ensures (if segment == [] then words else words + [segment]) == target
  {
    assert segment + clean[|clean|..] == segment;
    if segment != [] {
      WordThenRest(segment, []);
      assert segment + [] == segment;
    }
  }

  /** tokenize: strip the prefix, then read white-space separated segments, marking the first one as the command. */
  method Tokenize(input: string) returns (tokens: seq<Token>)
    ensures tokens == Tokens(input)
  {
    var clean := input;
    if |clean| > 0 && clean[0] == ':' {
      clean := clean[1..];
    }
    assert clean == StripPrefix(input);
    tokens := ReadSegments(clean);
  }

  /** The reading loop of tokenize: one token per maximal run of non-space characters of `clean`. */
  method ReadSegments(clean: string) returns (tokens: seq<Token>)
    ensures tokens == Typed(Words(clean))
  {
    tokens := [];
    ghost var words: seq<string> := [];
    var isFirst := true;
    var segment := "";
    var i := 0;
    assert segment + clean[i..] == clean;
    assert words + Words(clean) == Words(clean);
    while i < |clean|
      invariant 0 <= i <= |clean|
      invariant forall k :: 0 <= k < |segment| ==> !IsSpace(segment[k])
      invariant words + Words(segment + clean[i..]) == Words(clean)
      invariant tokens == Typed(words)
      invariant isFirst <==> words == []
    {
      var c := clean[i];
      if IsSpace(c) {
        ReadSpace(words, segment, clean, i, Words(clean));
        if segment != [] {
          TypedAppend(words, segment);
          tokens := tokens + [Token(if isFirst then Command else Argument, segment)];
          words := words + [segment];
          isFirst := false;
          segment := "";
        }
      } else {
        ReadNonSpace(words, segment, clean, i, Words(clean));
        segment := segment + [c];
      }
      i := i + 1;
    }
    ReadEnd(words, segment, clean, Words(clean));
    if segment != [] {
      TypedAppend(words, segment);
      tokens := tokens + [Token(if isFirst then Command else Argument, segment)];
      words := words + [segment];
    }
  }

  /** The values of every token after the first, in order: the handler's `args`. */
  function Arguments(tokens: seq<Token>): (args: seq<string>)
    requires tokens != []
    ensures |args| + 1 == |tokens|
    ensures forall k :: 0 <= k < |args| ==> args[k] == tokens[k + 1].value
  {
    seq(|tokens| - 1, k requires 0 <= k < |tokens| - 1 => tokens[k + 1].value)
  }

  /**
   * The three built-in handlers: `w` requests a save when it has no
   * argument and otherwise only reports that save-as is not implemented;
   * `q` quits whether or not its argument is `!`; `wq` requests a save,
   * then quits.
   */
  function RunHandler(h: Handler, args: seq<string>, e: Effects): (r: Effects)
    ensures h == Write && args == [] ==> r == e.(saves := e.saves + 1)
    ensures h == Write && args != [] ==> r == e.(status := "Command: Save As to " + args[0] + " (Not Implemented)")
    ensures h == Quit ==> r == e.(quit := true)
    ensures h == WriteQuit ==> r == e.(saves := e.saves + 1, quit := true)
  {
    match h
    case Write =>
      if args == [] then e.(saves := e.saves + 1)
      else e.(status := "Command: Save As to " + args[0] + " (Not Implemented)")
    case Quit =>
      if |args| == 1 && args[0] == "!" then e.(quit := true) else e.(quit := true)
    case WriteQuit =>
      var saved := e.(saves := e.saves + 1);
      saved.(quit := true)
  }

  /** parseAndRun: no tokens do nothing; otherwise the lower-cased name selects a handler or an error message. */
  function Dispatch(registry: map<string, Handler>, tokens: seq<Token>, e: Effects): (r: Effects)
  {
    if tokens == [] then e
    else
      var name := ToLower(tokens[0].value);
      if name in registry then RunHandler(registry[name], Arguments(tokens), e)
      else e.(status := "Error: Unknown command: " + name)
  }

  /** The registry the constructor builds. */
  const BuiltIns: map<string, Handler> := map["w" := Write, "q" := Quit, "wq" := WriteQuit]

  /**
   * The outcome of a dispatch: an empty token list changes nothing; an
   * unregistered name changes only the status, to the error message; a
   * registered one runs its handler on the arguments.
   */
  lemma DispatchOutcomes(registry: map<string, Handler>, tokens: seq<Token>, e: Effects)
    ensures tokens == [] ==> Dispatch(registry, tokens, e) == e
    ensures tokens != [] && ToLower(tokens[0].value) !in registry ==>
      Dispatch(registry, tokens, e) == e.(status := "Error: Unknown command: " + ToLower(tokens[0].value))
    ensures tokens != [] && ToLower(tokens[0].value) in registry ==>
      Dispatch(registry, tokens, e) == RunHandler(registry[ToLower(tokens[0].value)], Arguments(tokens), e)
  {
  }

  /** The case of the command name does not matter: lower-casing it first changes nothing. */
  lemma CommandNameCaseInsensitive(registry: map<string, Handler>, tokens: seq<Token>, e: Effects)
    requires tokens != []
    ensures Dispatch(registry, tokens[0 := tokens[0].(value := ToLower(tokens[0].value))], e)
         == Dispatch(registry, tokens, e)
  {
    var lowered := tokens[0 := tokens[0].(value := ToLower(tokens[0].value))];
    ToLowerIdempotent(tokens[0].value);
    assert Arguments(lowered) == Arguments(tokens);
  }

  /** A name holding an upper-case letter can be registered but never reached, since lookups lower-case. */
  lemma UpperCaseNameUnreachable(name: string, typed: string)
    requires exists i :: 0 <= i < |name| && 'A' <= name[i] <= 'Z'
    ensures ToLower(typed) != name
  {
  }

  /** `:w` requests a save. */
  lemma WriteCommand(e: Effects)
    ensures Dispatch(BuiltIns, Tokens(":w"), e) == e.(saves := e.saves + 1)
  {
    WordThenRest("w", []);
    assert "w" + [] == "w";
    assert StripPrefix(":w") == "w";
    assert ToLower("w") == "w";
  }

  /** The words of a one-word command followed by one space and a one-word argument. */
  lemma CommandWithArgument(name: string, arg: string)
    requires IsWord(name) && IsWord(arg)
    ensures Words(StripPrefix(":" + name + " " + arg)) == [name, arg]
  {
    var line := ":" + name + " " + arg;
    assert StripPrefix(line) == name + [' '] + arg by {
      assert line[0] == ':';
      assert line[1..] == name + [' '] + arg;
    }
    WordsSplitAtSpace(name, ' ', arg);
    WordThenRest(name, []);
    WordThenRest(arg, []);
    assert name + [] == name;
    assert arg + [] == arg;
  }

  /** `:w <path>` saves nothing and only reports that save-as is not implemented. */
  lemma WriteAsCommand(path: string, e: Effects)
    requires IsWord(path)
    ensures Dispatch(BuiltIns, Tokens(":w " + path), e)
         == e.(status := "Command: Save As to " + path + " (Not Implemented)")
  {
    CommandWithArgument("w", path);
    assert ":w " + path == ":" + "w" + " " + path;
    assert ToLower("w") == "w";
  }

  /** `:q` quits. */
  lemma QuitCommand(e: Effects)
    ensures Dispatch(BuiltIns, Tokens(":q"), e) == e.(quit := true)
  {
    WordThenRest("q", []);
    assert "q" + [] == "q";
    assert StripPrefix(":q") == "q";
    assert ToLower("q") == "q";
  }

  /** `:q!` is one token, not `q` with an argument: an unknown command. */
  lemma QuitBangUnknown(e: Effects)
    ensures Dispatch(BuiltIns, Tokens(":q!"), e) == e.(status := "Error: Unknown command: q!")
  {
    WordThenRest("q!", []);
    assert "q!" + [] == "q!";
    assert StripPrefix(":q!") == "q!";
    assert ToLower("q!") == "q!";
  }

  /** `:q <arg>` quits whatever the argument: `:q !` and `:q foo` alike. */
  lemma QuitWithArgument(arg: string, e: Effects)
    requires IsWord(arg)
    ensures Dispatch(BuiltIns, Tokens(":q " + arg), e) == e.(quit := true)
  {
    CommandWithArgument("q", arg);
    assert ":q " + arg == ":" + "q" + " " + arg;
    assert ToLower("q") == "q";
  }

  /** `:wq` requests a save and quits. */
  lemma WriteQuitCommand(e: Effects)
    ensures Dispatch(BuiltIns, Tokens(":wq"), e) == e.(saves := e.saves + 1, quit := true)
  {
    WordThenRest("wq", []);
    assert "wq" + [] == "wq";
    assert StripPrefix(":wq") == "wq";
    assert ToLower("wq") == "wq";
  }

  /** `:WQ` does the same as `:wq`, since command names are lower-cased. */
  lemma UpperCaseWriteQuit(e: Effects)
    ensures Dispatch(BuiltIns, Tokens(":WQ"), e) == e.(saves := e.saves + 1, quit := true)
  {
    WordThenRest("WQ", []);
    assert "WQ" + [] == "WQ";
    assert StripPrefix(":WQ") == "WQ";
    assert ToLower("WQ") == "wq";
  }

  /** Only the first `:` is the prefix: "::w" and " :w" both name the command ":w". */
  lemma PrefixStrippedOnce()
    ensures |Tokens("::w")| == 1 && Tokens("::w")[0].value == ":w"
    ensures |Tokens(" :w")| == 1 && Tokens(" :w")[0].value == ":w"
  {
    WordThenRest(":w", []);
    assert ":w" + [] == ":w";
    WordsSplitAtSpace([], ' ', ":w");
    assert [] + [' '] + ":w" == " :w";
  }

  /** The command shell of features/CommandShell, whose registry changes in place. */
  class CommandShell {
    var registry: map<string, Handler>

    /** The constructor registers `w`, `q` and `wq`. */
    constructor ()
      ensures registry == BuiltIns
    {
      registry := map[];
      new;
      RegisterCommand("w", Write);
      RegisterCommand("q", Quit);
      RegisterCommand("wq", WriteQuit);
    }

    /** registerCommand: the name now maps to `handler`, replacing any earlier registration. */
    method RegisterCommand(name: string, handler: Handler)
      modifies this
      ensures registry == old(registry)[name := handler]
    {
      registry := registry[name := handler];
    }

    /** parseAndRun, with the editor's capabilities passed in and handed back as `Effects`. */
    method ParseAndRun(tokens: seq<Token>, e: Effects) returns (r: Effects)
      ensures r == Dispatch(registry, tokens, e)
    {
      if tokens == [] {
        return e;
      }
      var name := ToLower(tokens[0].value);
      var args: seq<string> := [];
      for i := 1 to |tokens|
        invariant |args| == i - 1
        invariant forall k :: 0 <= k < i - 1 ==> args[k] == tokens[k + 1].value
      {
        args := args + [tokens[i].value];
      }
      assert args == Arguments(tokens);
      if name in registry {
        r := RunHandler(registry[name], args, e);
      } else {
        r := e.(status := "Error: Unknown command: " + name);
      }
    }

    /** execute: tokenize, then parseAndRun. */
    method Execute(input: string, e: Effects) returns (r: Effects)
      ensures r == Dispatch(registry, Tokens(input), e)
    {
      var tokens := Tokenize(input);
      r := ParseAndRun(tokens, e);
    }
  }

  /** After registerCommand the last registration for a name is the one dispatched. */
  lemma LastRegistrationWins(registry: map<string, Handler>, name: string, h: Handler, tokens: seq<Token>, e: Effects)
    requires tokens != [] && ToLower(tokens[0].value) == name
    ensures Dispatch(registry[name := h], tokens, e) == RunHandler(h, Arguments(tokens), e)
  {
  }
}
