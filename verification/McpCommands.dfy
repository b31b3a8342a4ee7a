// The command an MCP tool sends: its raw command line splits back into the words it was made of.
module McpCommands {
  import opened Text
  import opened ShellWords

  // A tool argument; `Other` has the text String() gives.
  datatype Arg = Null | Str(text: string) | Flag(on: bool) | Array(items: seq<string>) | Other(text: string)

  type Args = seq<(string, Arg)>

  datatype CliCommand = CliCommand(command: string, chain: seq<string>, rawCommand: string, value: Option<string>,
                                   positionals: seq<string>, args: Args)

  predicate HasKey(args: Args, key: string) {
    exists a | a in args :: a.0 == key
  }

  // Arguments without the absent ones.
  function Given(args: Args): (r: Args)
    ensures forall a :: a in r <==> a in args && a.1 != Null
  {
    if args == [] then []
    else (if args[0].1 == Null then [] else [args[0]]) + Given(args[1..])
  }

  function Without(args: Args, key: string): (r: Args)
    ensures forall a :: a in r <==> a in args && a.0 != key
  {
    if args == [] then []
    else (if args[0].0 == key then [] else [args[0]]) + Without(args[1..], key)
  }

  function Lookup(args: Args, key: string): (r: Option<Arg>)
    ensures r.Some? ==> (key, r.value) in args
    ensures r.None? ==> !HasKey(args, key)
  {
    if args == [] then None
    else if args[0].0 == key then Some(args[0].1)
    else Lookup(args[1..], key)
  }

  // The positional input, when the command takes one and the argument is text.
  function Positional(positional: bool, params: Args): Option<string> {
    match Lookup(params, "value")
    case Some(Str(text)) => if positional then Some(text) else None
    case _ => None
  }

  function TextOf(arg: Arg): string {
    match arg
    case Str(text) => text
    case Array(items) => JoinWith(items, ",")
    case Other(text) => text
    case Flag(on) => if on then "true" else "false"
    case Null => "null"
  }

  // The option as it is meant, and as it is written.
  function OptionWord(key: string, arg: Arg): string {
    if arg == Flag(true) then "--" + key else "--" + key + "=" + TextOf(arg)
  }

  function OptionPart(key: string, arg: Arg): string {
    if arg == Flag(true) then "--" + key
    else if arg == Flag(false) then "--" + key + "=false"
    else "--" + key + "=" + QuoteShellWord(TextOf(arg))
  }

  function OptionWords(args: Args): (r: seq<string>)
    ensures |r| == |args| && forall i | 0 <= i < |r| :: r[i] == OptionWord(args[i].0, args[i].1)
  {
    seq(|args|, i requires 0 <= i < |args| => OptionWord(args[i].0, args[i].1))
  }

  function OptionParts(args: Args): (r: seq<string>)
    ensures |r| == |args| && forall i | 0 <= i < |r| :: r[i] == OptionPart(args[i].0, args[i].1)
  {
    seq(|args|, i requires 0 <= i < |args| => OptionPart(args[i].0, args[i].1))
  }

  // The words a command is made of: its path, its input, its options.
  function CommandWords(path: seq<string>, value: Option<string>, options: Args): seq<string> {
    path + (if value.Some? then [value.value] else []) + OptionWords(options)
  }

  method GivenArgs(args: Args) returns (params: Args)
    ensures params == Given(args)
  {
    params := [];
    for i := 0 to |args|
      invariant params + Given(args[i..]) == Given(args)
    {
      assert args[i..][1..] == args[i + 1..];
      if args[i].1 != Null {
        ConcatAssociative(params, [args[i]], Given(args[i + 1..]));
        params := params + [args[i]];
      } else {
        assert [] + Given(args[i + 1..]) == Given(args[i + 1..]);
      }
    }
  }

  method WithOptions(front: seq<string>, params: Args) returns (parts: seq<string>)
    ensures parts == front + OptionParts(params)
  {
    parts := front;
    for i := 0 to |params|
      invariant parts == front + OptionParts(params[..i])
    {
      var key, v := params[i].0, params[i].1;
      assert OptionParts(params[..i + 1]) == OptionParts(params[..i]) + [OptionPart(key, v)];
      ConcatAssociative(front, OptionParts(params[..i]), [OptionPart(key, v)]);
      if v.Flag? {
        parts := parts + [if v.on then "--" + key else "--" + key + "=false"];
      } else {
        parts := parts + ["--" + key + "=" + QuoteShellWord(TextOf(v))];
      }
    }
    assert params[..|params|] == params;
  }

  method BuildCliCommand(path: seq<string>, positional: bool, args: Args) returns (c: CliCommand)
    requires path != []
    ensures c.command == path[0] && c.chain == path[1..]
    ensures c.value == Positional(positional, Given(args))
    ensures c.positionals == if c.value.Some? then [c.value.value] else []
    ensures c.args == if c.value.Some? then Without(Given(args), "value") else Given(args)
    ensures c.rawCommand == JoinWith(path + (if c.value.Some? then [QuoteShellWord(c.value.value)] else []) + OptionParts(c.args), " ")
  {
    var params := GivenArgs(args);
    var value := Positional(positional, params);
    var parts := path;
    if value.Some? {
      params := Without(params, "value");
      parts := parts + [QuoteShellWord(value.value)];
    } else {
      assert path + [] == path;
    }
    parts := WithOptions(parts, params);
    c := CliCommand(path[0], path[1..], JoinWith(parts, " "), value, if value.Some? then [value.value] else [], params);
  }

  ghost predicate DistinctKeys(args: Args) {
    forall a, b | a in args && b in args && a.0 == b.0 :: a == b
  }

  lemma {:induction false} FoundByKey(args: Args, key: string, arg: Arg)
    requires DistinctKeys(args)
    ensures Lookup(args, key) == Some(arg) <==> (key, arg) in args
  {
    if args != [] {
      assert forall a :: a in args <==> a == args[0] || a in args[1..];
      FoundByKey(args[1..], key, arg);
    }
  }

  // The argument named value becomes the input exactly when the command takes one and it is text; every other
  // argument that is not null stays an option, and nothing else does.
  lemma InputAndOptions(positional: bool, args: Args)
    requires DistinctKeys(args)
    ensures var value := Positional(positional, Given(args));
            var options := if value.Some? then Without(Given(args), "value") else Given(args);
            && (forall text :: value == Some(text) <==> positional && ("value", Str(text)) in args)
            && (forall a :: a in options <==> a in args && a.1 != Null && !(positional && a.0 == "value" && a.1.Str?))
  {
    var given := Given(args);
    forall arg { FoundByKey(given, "value", arg); }
    var value := Positional(positional, given);
    forall text ensures value == Some(text) <==> positional && ("value", Str(text)) in args {
      assert ("value", Str(text)) in given <==> ("value", Str(text)) in args;
    }
    forall a | a in given && positional && a.0 == "value" && a.1.Str? ensures value.Some? {
      assert ("value", Str(a.1.text)) in args;
    }
    if value.Some? {
      assert ("value", Str(value.value)) in args;
    }
  }

  // A flag is its name alone when set; everything else is written after its name.
  lemma OptionsAreNamed(key: string, text: string, items: seq<string>)
    ensures OptionWord(key, Flag(true)) == "--" + key && OptionWord(key, Flag(false)) == "--" + key + "=" + "false"
    ensures OptionWord(key, Str(text)) == OptionWord(key, Other(text)) == "--" + key + "=" + text
    ensures OptionWord(key, Array(items)) == "--" + key + "=" + JoinWith(items, ",")
  {
  }

  // -------------------------------------------------------------- reading it back

  // Wherever it stands, `part` is read as `word`.
  ghost predicate ReadsAs(part: string, word: string) {
    forall rest, current, inWord :: Words(part + rest, current, inWord) == Words(rest, current + word, true)
  }

  lemma PlainReads(s: string)
    requires Plain(s) && s != ""
    ensures ReadsAs(s, s)
  {
    forall rest, current, inWord ensures Words(s + rest, current, inWord) == Words(rest, current + s, true) {
      PlainText(s, rest, current, inWord);
    }
  }

  lemma QuotedReads(word: string)
    ensures ReadsAs(QuoteShellWord(word), word)
  {
    forall rest, current, inWord ensures Words(QuoteShellWord(word) + rest, current, inWord) == Words(rest, current + word, true) {
      QuotedWord(word, rest, current, inWord);
    }
  }

  lemma PrefixReads(prefix: string, part: string, word: string)
    requires Plain(prefix) && ReadsAs(part, word)
    ensures ReadsAs(prefix + part, prefix + word)
  {
    forall rest, current, inWord
      ensures Words(prefix + part + rest, current, inWord) == Words(rest, current + (prefix + word), true)
    {
      ConcatAssociative(prefix, part, rest);
      ConcatAssociative(current, prefix, word);
      PlainText(prefix, part + rest, current, inWord);
      assert Words(part + rest, current + prefix, inWord || prefix != "") == Words(rest, current + prefix + word, true);
    }
  }

  lemma OptionReads(key: string, arg: Arg)
    requires Plain(key)
    ensures ReadsAs(OptionPart(key, arg), OptionWord(key, arg))
  {
    if arg == Flag(true) {
      PlainReads("--" + key);
    } else {
      var prefix := "--" + key + "=";
      if arg == Flag(false) {
        PlainReads("--" + key + "=false");
        assert prefix + "false" == "--" + key + "=false";
      } else {
        QuotedReads(TextOf(arg));
        PrefixReads(prefix, QuoteShellWord(TextOf(arg)), TextOf(arg));
      }
    }
  }

  ghost predicate AllRead(parts: seq<string>, words: seq<string>) {
    |parts| == |words| && forall i | 0 <= i < |parts| :: ReadsAs(parts[i], words[i])
  }

  lemma {:induction false} JoinedReads(parts: seq<string>, words: seq<string>)
    requires AllRead(parts, words)
    ensures Words(JoinWith(parts, " "), "", false) == words
  {
    if parts != [] {
      var line := JoinWith(parts, " ");
      assert "" + words[0] == words[0];
      if |parts| == 1 {
        assert parts[0] + "" == parts[0];
        assert Words(parts[0] + "", "", false) == Words("", words[0], true);
      } else {
        JoinedReads(parts[1..], words[1..]);
        var rest := " " + JoinWith(parts[1..], " ");
        ConcatAssociative(parts[0], " ", JoinWith(parts[1..], " "));
        assert Words(parts[0] + rest, "", false) == Words(rest, words[0], true);
        assert rest[1..] == JoinWith(parts[1..], " ");
        assert [words[0]] + words[1..] == words;
      }
    }
  }

  lemma AllReadConcat(a: seq<string>, b: seq<string>, v: seq<string>, w: seq<string>)
    requires AllRead(a, v) && AllRead(b, w)
    ensures AllRead(a + b, v + w)
  {
  }

  // The raw command of a tool call splits back into its path, its input and its options: values may hold any
  // characters, names only ordinary ones.
  lemma RawCommandSplitsBack(path: seq<string>, value: Option<string>, options: Args)
    requires forall i | 0 <= i < |path| :: path[i] != "" && Plain(path[i])
    requires forall i | 0 <= i < |options| :: Plain(options[i].0)
    ensures var parts := path + (if value.Some? then [QuoteShellWord(value.value)] else []) + OptionParts(options);
            Words(JoinWith(parts, " "), "", false) == CommandWords(path, value, options)
  {
    var input, read := if value.Some? then [QuoteShellWord(value.value)] else [], if value.Some? then [value.value] else [];
    forall i | 0 <= i < |path| { PlainReads(path[i]); }
    if value.Some? { QuotedReads(value.value); }
    forall i | 0 <= i < |options| { OptionReads(options[i].0, options[i].1); }
    AllReadConcat(path, input, path, read);
    AllReadConcat(path + input, OptionParts(options), path + read, OptionWords(options));
    JoinedReads(path + input + OptionParts(options), path + read + OptionWords(options));
  }

  // A name with a blank in it comes back as two words.
  lemma BlankInNameSplits(a: string, b: string)
    requires Plain(a) && Plain(b) && a != "" && b != ""
    ensures Words(JoinWith([a + " " + b], " "), "", false) == [a, b]
  {
    PlainReads(a);
    PlainReads(b);
    JoinedReads([a, b], [a, b]);
    assert JoinWith([a + " " + b], " ") == a + " " + b;
    assert JoinWith([b], " ") == b && [a, b][1..] == [b];
    assert JoinWith([a, b], " ") == a + " " + b;
  }
}
