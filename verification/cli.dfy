/**
 * The command-line front end: the default command, the one leading option,
 * the dispatch table, and the way a failure is reported at the boundary.
 *
 * The argument list is `$argv` as PHP hands it over: the script path first,
 * then the words typed after it. What reaches the screen is an `Output`;
 * the colouring `display` applies to the tagged text is not modelled.
 */
module CommandLine {
  import opened Results
  import opened Utils
  import OxideComposer

  /** The handlers `init` can pick. A missing install argument is PHP null, here `None`. */
  datatype Command = Install(id: Option<string>) | Update | About | Validate | Help

  /** What `init` decides: the handler and whether exception traces are printed. */
  datatype Invocation = Invocation(command: Command, debug: bool)

  /** The argument list after `parseOptions`, and whether it turned debugging on. */
  datatype Parsed = Parsed(arguments: seq<string>, debug: bool)

  /**
   * What a command leaves on the screen at the boundary:
   * - `Silent`: nothing beyond what the operation itself prints;
   * - `Trace(error)`: the exception's full string form, file, line and stack included;
   * - `Display(text)`: tagged text handed to `display`;
   * - `HelpPage`: the usage banner.
   */
  datatype Output = Silent | Trace(error: OxideComposer.Error) | Display(text: string) | HelpPage

  /** What running a command amounts to: the screen output and the collaborator calls made. */
  datatype Outcome = Outcome(output: Output, trace: seq<OxideComposer.Effect>)

  const ValidText: string := "They seem valid"
  const AboutText: string :=
    "<yellow>Ocomposer is an oxide plugin manager for your servers.</yellow>\n"
    + "<yellow>See https://github.com/tetreum/ocomposer for more information.</yellow>"

  // ---------------------------------------------------------------------
  // Colour tags
  // ---------------------------------------------------------------------

  /** `text` wrapped in the colour tag `tag`, as the handlers build it for `display`. */
  function Tagged(tag: string, text: string): string
  {
    "<" + tag + ">" + text + "</" + tag + ">"
  }

  /** The text inside a `tag` wrapper, if `s` is exactly one such wrapper. */
  function Untag(tag: string, s: string): (r: Option<string>)
    ensures r.Some? ==> |r.value| + 2 * |tag| + 5 == |s|
  {
    var open := "<" + tag + ">";
    var close := "</" + tag + ">";
    if |s| >= |open| + |close| && s[..|open|] == open && s[|s| - |close|..] == close then
      Some(s[|open|..|s| - |close|])
    else None
  }

  /** Unwrapping undoes wrapping, whatever the text. */
  lemma UntagTagged(tag: string, text: string)
    ensures Untag(tag, Tagged(tag, text)) == Some(text)
  {
    var open := "<" + tag + ">";
    var close := "</" + tag + ">";
    var s := Tagged(tag, text);
    assert s == open + text + close;
    assert s[..|open|] == open;
    assert s[|s| - |close|..] == close;
    assert s[|open|..|s| - |close|] == text;
  }

  /** The tagged text contains the text it wraps. */
  lemma TaggedContains(tag: string, text: string)
    ensures Contains(Tagged(tag, text), text)
  {
    var s := Tagged(tag, text);
    assert s == ("<" + tag + ">") + text + ("</" + tag + ">");
    assert OccursAt(s, text, |tag| + 2);
  }

  // ---------------------------------------------------------------------
  // Arguments
  // ---------------------------------------------------------------------

  /** A word that `parseOptions` takes for an option: its first character is `-`. */
  predicate IsOption(word: string)
  {
    |word| > 0 && word[0] == '-'
  }

  /** The first step of `init`: with no command word, the command is `help`. */
  function WithDefault(args: seq<string>): (r: seq<string>)
    requires |args| >= 1
    ensures |r| == (if |args| >= 2 then |args| else 2) && r[..|args|] == args
    ensures |args| >= 2 ==> r == args
    ensures |args| < 2 ==> r[1] == "help" && |r| == 2
  {
    if |args| >= 2 then args else args + ["help"]
  }

  /**
   * `parseOptions`: a leading option is removed and the rest re-indexed;
   * only `-d` has an effect, turning debugging on.
   */
  function ParseOptions(args: seq<string>): (p: Parsed)
    requires |args| >= 2
    ensures IsOption(args[1]) ==> p.arguments == args[..1] + args[2..]
    ensures !IsOption(args[1]) ==> p.arguments == args
    ensures p.debug <==> args[1] == "-d"
  {
    if IsOption(args[1]) then
      Parsed(args[..1] + args[2..], args[1][1..] == "d")
    else
      Parsed(args, false)
  }

  /**
   * The `switch` of `init` on the command word. Once an option has been
   * removed there may be no word left, which falls through to help.
   */
  function Lookup(args: seq<string>): (c: Command)
    ensures c.Install? <==> |args| > 1 && args[1] == "install"
    ensures c.Update? <==> |args| > 1 && args[1] == "update"
    ensures c.About? <==> |args| > 1 && args[1] == "about"
    ensures c.Validate? <==> |args| > 1 && args[1] == "validate"
    ensures c.Install? ==> c.id == if |args| > 2 then Some(args[2]) else None
  {
    if |args| <= 1 then Help
    else
      match args[1]
      case "install" => Install(if |args| > 2 then Some(args[2]) else None)
      case "update" => Update
      case "about" => About
      case "validate" => Validate
      case _ => Help
  }

  /** `init`: default the command, strip the option, dispatch. */
  function Init(args: seq<string>): (inv: Invocation)
    requires |args| >= 1
    ensures inv.debug <==> |args| >= 2 && args[1] == "-d"
    ensures |args| == 1 ==> inv == Invocation(Help, false)
  {
    var parsed := ParseOptions(WithDefault(args));
    Invocation(Lookup(parsed.arguments), parsed.debug)
  }

  // ---------------------------------------------------------------------
  // Facts about argument handling
  // ---------------------------------------------------------------------

  /** The word that selects a command; `help` is a word the table does not know. */
  function Word(c: Command): string
  {
    match c
    case Install(_) => "install"
    case Update => "update"
    case About => "about"
    case Validate => "validate"
    case Help => "help"
  }

  /** A command line that asks for `inv`: the option if debugging, the word, the install id if any. */
  function CommandLineFor(script: string, inv: Invocation): seq<string>
  {
    [script]
    + (if inv.debug then ["-d"] else [])
    + [Word(inv.command)]
    + (if inv.command.Install? && inv.command.id.Some? then [inv.command.id.value] else [])
  }

  /** Every invocation is reachable: `init` reads back exactly what the command line asks for. */
  lemma InitReadsCommandLine(script: string, inv: Invocation)
    ensures Init(CommandLineFor(script, inv)) == inv
  {
  }

  /**
   * A leading option other than the command word disappears: the command is
   * the one chosen without it, and debugging is on exactly when it was `-d`.
   * The word after it must not be an option itself, since only one is removed.
   */
  lemma OptionIsStripped(script: string, option: string, rest: seq<string>)
    requires IsOption(option)
    requires rest == [] || !IsOption(rest[0])
    ensures Init([script, option] + rest) == Invocation(Init([script] + rest).command, option == "-d")
  {
  }

  /** A second option is not stripped: it becomes the command word and selects help. */
  lemma SecondOptionIsHelp(script: string, first: string, second: string, rest: seq<string>)
    requires IsOption(first) && IsOption(second)
    ensures Init([script, first, second] + rest).command == Help
  {
  }

  /** Any word outside the table, including `help` itself, selects help. */
  lemma UnknownWordIsHelp(script: string, word: string, rest: seq<string>)
    requires !IsOption(word)
    requires word !in {"install", "update", "about", "validate"}
    ensures Init([script, word] + rest) == Invocation(Help, false)
  {
  }

  // ---------------------------------------------------------------------
  // Running a command
  // ---------------------------------------------------------------------

  /** The `catch` block the handlers share: the trace when debugging, else the message in red. */
  function Report(e: OxideComposer.Error, debug: bool): (out: Output)
    ensures debug ==> out == Trace(e)
    ensures !debug ==> out.Display?
    ensures out.Display? ==> Untag("red", out.text) == Some(OxideComposer.Message(e)) && Contains(out.text, OxideComposer.Message(e))
  {
    if debug then Trace(e)
    else
      UntagTagged("red", OxideComposer.Message(e));
      TaggedContains("red", OxideComposer.Message(e));
      Display(Tagged("red", OxideComposer.Message(e)))
  }

  /** A run's failure, reported at the boundary; a success prints nothing more. */
  function Conclude<T>(r: OxideComposer.Run<T>, debug: bool): (o: Outcome)
    ensures o.trace == r.trace
    ensures o.output == Silent <==> r.result.Success?
    ensures r.result.Failure? ==> o.output == Report(r.result.error, debug)
  {
    match r.result
    case Success(_) => Outcome(Silent, r.trace)
    case Failure(e) => Outcome(Report(e, debug), r.trace)
  }

  /** The plugin id the manager receives: PHP null used as a property name or in a string is `""`. */
  function IdOrEmpty(id: Option<string>): string
  {
    match id
    case Some(s) => s
    case None => ""
  }

  /**
   * The handler `init` picked, against the working directory `disk` and the
   * collaborators `env`. `validate`, `install` and `update` first build the
   * manager, whose failure is reported like any other. A missing install id
   * is PHP null, which the manager uses as the empty string.
   */
  function Execute(inv: Invocation, disk: OxideComposer.Disk, env: OxideComposer.Env): (o: Outcome)
    ensures inv.command.Help? ==> o == Outcome(HelpPage, [])
    ensures inv.command.About? ==> o == Outcome(Display(AboutText), [])
    ensures inv.command.Validate? ==> o.trace == [] && (o.output == Display(Tagged("green", ValidText)) <==> OxideComposer.Open(disk).Success?)
    ensures !inv.command.Help? && !inv.command.About? && OxideComposer.Open(disk).Failure? ==>
      o == Outcome(Report(OxideComposer.Open(disk).error, inv.debug), [])
    ensures inv.command.Update? && OxideComposer.Open(disk).Success? ==> o == Conclude(OxideComposer.Update(OxideComposer.Open(disk).value, env), inv.debug)
    ensures inv.command.Install? && OxideComposer.Open(disk).Success? ==>
      o == Conclude(OxideComposer.Install(OxideComposer.Open(disk).value, IdOrEmpty(inv.command.id), env), inv.debug)
  {
    match inv.command
    case Help => Outcome(HelpPage, [])
    case About => Outcome(Display(AboutText), [])
    case Validate => (
      match OxideComposer.Open(disk)
      case Failure(e) => Outcome(Report(e, inv.debug), [])
      case Success(_) => Outcome(Display(Tagged("green", ValidText)), []))
    case Install(id) => (
      match OxideComposer.Open(disk)
      case Failure(e) => Outcome(Report(e, inv.debug), [])
      case Success(c) => Conclude(OxideComposer.Install(c, IdOrEmpty(id), env), inv.debug))
    case Update => (
      match OxideComposer.Open(disk)
      case Failure(e) => Outcome(Report(e, inv.debug), [])
      case Success(c) => Conclude(OxideComposer.Update(c, env), inv.debug))
  }

  /**
   * Debugging changes only how a failure is shown: the same calls are made,
   * the same runs succeed, and a failure's message is shown in red without it
   * where the trace is printed with it.
   */
  lemma DebugOnlyChangesReport(c: Command, disk: OxideComposer.Disk, env: OxideComposer.Env)
    ensures Execute(Invocation(c, true), disk, env).trace == Execute(Invocation(c, false), disk, env).trace
    ensures Execute(Invocation(c, true), disk, env).output.Trace? ==>
      Execute(Invocation(c, false), disk, env).output == Report(Execute(Invocation(c, true), disk, env).output.error, false)
    ensures !Execute(Invocation(c, true), disk, env).output.Trace? ==>
      Execute(Invocation(c, false), disk, env).output == Execute(Invocation(c, true), disk, env).output
  {
  }
}
