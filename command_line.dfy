/**
 * The command table and argument parser behind the `blerf` executable:
 * commands register under their name, the first argument selects one, and
 * the rest is parsed into an option object and a list of pass-through
 * arguments, or rejected with exit code 1.
 */
module CommandLine {
  import opened Wrappers
  import opened Strings
  import opened Dicts

  datatype OptionType = EnumType | StringType | CommandArgument

  /** One declared option; `enumValues` is the `enum` list, absent for most options. */
  datatype CommandOption = CommandOption(
    name: string,
    shortName: Option<string>,
    optionType: OptionType,
    enumValues: Option<seq<string>>,
    defaultValue: Option<string>,
    required: bool)

  datatype Command = Command(methodName: string, commandName: string, options: seq<CommandOption>, description: string)

  /** The call a fully parsed command line makes: method, option object (a value may be undefined) and pass-through arguments. */
  datatype Invocation = Invocation(methodName: string, argumentObject: Dict<Option<string>>, args: seq<string>)

  datatype Rejection = InvalidOption(option: string) | InvalidArgument(argument: string)

  /** What `runCommandLineApplication` does with a command line. */
  datatype RunResult = ShowUsage | Rejected(rejection: Rejection) | Invoked(invocation: Invocation)

  /** The number `runCommandLineApplication` resolves to. */
  function ExitCode(r: RunResult): (code: int)
    ensures code == 1 <==> r.Rejected?
    ensures code == 0 <==> !r.Rejected?
  {
    if r.Rejected? then 1 else 0
  }

  /*
   * Looking options up
   */

  /** `options.find(o => o.name === name)`. */
  function OptionNamed(options: seq<CommandOption>, name: string): (r: Option<CommandOption>)
    ensures r.None? <==> forall i :: 0 <= i < |options| ==> options[i].name != name
    ensures r.Some? ==> exists i :: && 0 <= i < |options| && options[i] == r.value && r.value.name == name
                                    && forall j :: 0 <= j < i ==> options[j].name != name
  {
    if |options| == 0 then None
    else if options[0].name == name then Some(options[0])
    else
      var r := OptionNamed(options[1..], name);
      assert forall i :: 1 <= i < |options| ==> options[1..][i - 1] == options[i];
      r
  }

  /** `options.find(o => o.shortName === key)`: an option without a short name matches nothing. */
  function OptionWithShortName(options: seq<CommandOption>, key: string): (r: Option<CommandOption>)
    ensures r.None? <==> forall i :: 0 <= i < |options| ==> options[i].shortName != Some(key)
    ensures r.Some? ==> exists i :: && 0 <= i < |options| && options[i] == r.value && r.value.shortName == Some(key)
                                    && forall j :: 0 <= j < i ==> options[j].shortName != Some(key)
  {
    if |options| == 0 then None
    else if options[0].shortName == Some(key) then Some(options[0])
    else
      var r := OptionWithShortName(options[1..], key);
      assert forall i :: 1 <= i < |options| ==> options[1..][i - 1] == options[i];
      r
  }

  /** The short name `-x` is looked up under, as the code is written: `arg.substr(2)`. */
  function ShortOptionKeyAsWritten(arg: string): string {
    if |arg| <= 2 then "" else arg[2..]
  }

  /** The short name `-x` is looked up under, as intended: everything after the dash. */
  function ShortOptionKey(arg: string): (key: string)
    requires StartsWith(arg, "-")
    ensures arg == "-" + key
  {
    arg[1..]
  }

  /** `argv[i]`, undefined past the end. */
  function ArgAt(argv: seq<string>, i: int): (r: Option<string>)
    ensures r.Some? <==> 0 <= i < |argv|
    ensures r.Some? ==> r.value == argv[i]
  {
    if 0 <= i < |argv| then Some(argv[i]) else None
  }

  /*
   * Parsing
   */

  /**
   * The argument loop from index `i` on, with the option object built so
   * far. `asWritten` selects how a `-x` argument becomes the short name
   * looked up: as the code is written, or as intended.
   */
  function ParseFrom(command: Command, argv: seq<string>, i: nat, argumentObject: Dict<Option<string>>, asWritten: bool): RunResult
    decreases |argv| - i
  {
    if i >= |argv| then Invoked(Invocation(command.methodName, argumentObject, []))
    else if argv[i] == "--" then Invoked(Invocation(command.methodName, argumentObject, argv[i + 1..]))
    else if !StartsWith(argv[i], "-") then Rejected(InvalidArgument(argv[i]))
    else
      match LookupOption(command.options, argv[i], asWritten)
      case None => Rejected(InvalidOption(argv[i]))
      case Some(option) => ParseFrom(command, argv, i + 2, Put(argumentObject, option.name, ArgAt(argv, i + 1)), asWritten)
  }

  /** The option an argument with a leading dash names: by name after `--`, by short name after `-`. */
  function LookupOption(options: seq<CommandOption>, arg: string, asWritten: bool): (r: Option<CommandOption>)
    requires StartsWith(arg, "-")
    ensures r.Some? ==> r.value in options
  {
    if StartsWith(arg, "--") then OptionNamed(options, arg[2..])
    else if asWritten then OptionWithShortName(options, ShortOptionKeyAsWritten(arg))
    else OptionWithShortName(options, ShortOptionKey(arg))
  }

  /** A recognised option stores the next argument under its name and skips it. */
  lemma {:induction false} OptionConsumesNext(command: Command, argv: seq<string>, i: nat, argumentObject: Dict<Option<string>>, asWritten: bool)
    requires i < |argv| && argv[i] != "--" && StartsWith(argv[i], "-")
    requires LookupOption(command.options, argv[i], asWritten).Some?
    ensures ParseFrom(command, argv, i, argumentObject, asWritten) ==
      ParseFrom(command, argv, i + 2, Put(argumentObject, LookupOption(command.options, argv[i], asWritten).value.name, ArgAt(argv, i + 1)), asWritten)
  {
  }

  /** The key `commands[argv[0]]` looks up: a missing first argument is the key "undefined". */
  function CommandKey(argv: seq<string>): string {
    if |argv| == 0 then "undefined" else argv[0]
  }

  /** `runCommandLineApplication` over a command table, with the `-x` lookup as the code is written. */
  function RunSpec(commands: Dict<Command>, argv: seq<string>): RunResult {
    match Get(commands, CommandKey(argv))
    case None => ShowUsage
    case Some(command) => ParseFrom(command, argv, 1, [], true)
  }

  /** Every key of an option object is the name of a declared option. */
  predicate KeysAreOptionNames(argumentObject: Dict<Option<string>>, options: seq<CommandOption>) {
    forall k :: k in Keys(argumentObject) ==> OptionNamed(options, k).Some?
  }

  /** Every key of the parsed option object is the name of one of the command's options. */
  lemma {:induction false} ParsedKeysAreOptionNames(command: Command, argv: seq<string>, i: nat, argumentObject: Dict<Option<string>>, asWritten: bool)
    requires KeysAreOptionNames(argumentObject, command.options)
    ensures var r := ParseFrom(command, argv, i, argumentObject, asWritten);
            r.Invoked? ==> KeysAreOptionNames(r.invocation.argumentObject, command.options)
    decreases |argv| - i
  {
    if i < |argv| && argv[i] != "--" && StartsWith(argv[i], "-") {
      var found := LookupOption(command.options, argv[i], asWritten);
      if found.Some? {
        var next := Put(argumentObject, found.value.name, ArgAt(argv, i + 1));
        assert OptionNamed(command.options, found.value.name).Some? by {
          var j :| 0 <= j < |command.options| && command.options[j] == found.value;
        }
        assert KeysAreOptionNames(next, command.options);
        ParsedKeysAreOptionNames(command, argv, i + 2, next, asWritten);
      }
    }
  }

  /** `args` is everything after some `--` among the arguments that follow the command name. */
  predicate AfterSeparator(argv: seq<string>, args: seq<string>) {
    var k := |argv| - |args|;
    2 <= k && argv[k - 1] == "--" && args == argv[k..]
  }

  /**
   * The pass-through arguments are empty, or everything after a `--` that
   * the loop reached.
   */
  lemma {:induction false} ArgsFollowSeparator(command: Command, argv: seq<string>, i: nat, argumentObject: Dict<Option<string>>, asWritten: bool)
    requires i >= 1
    ensures var r := ParseFrom(command, argv, i, argumentObject, asWritten);
            r.Invoked? && r.invocation.args != [] ==> AfterSeparator(argv, r.invocation.args)
  {
    var j, obj := i, argumentObject;
    while j < |argv| && argv[j] != "--" && StartsWith(argv[j], "-") && LookupOption(command.options, argv[j], asWritten).Some?
      invariant j >= 1
      invariant ParseFrom(command, argv, i, argumentObject, asWritten) == ParseFrom(command, argv, j, obj, asWritten)
      decreases |argv| - j
    {
      OptionConsumesNext(command, argv, j, obj, asWritten);
      obj := Put(obj, LookupOption(command.options, argv[j], asWritten).value.name, ArgAt(argv, j + 1));
      j := j + 2;
    }
    if j >= |argv| {
      assert ParseFrom(command, argv, j, obj, asWritten).invocation.args == [];
    } else if argv[j] == "--" {
      assert ParseFrom(command, argv, j, obj, asWritten).invocation.args == argv[j + 1..];
      assert AfterSeparator(argv, argv[j + 1..]) by {
        assert |argv| - |argv[j + 1..]| == j + 1;
      }
    } else {
      assert ParseFrom(command, argv, j, obj, asWritten).Rejected?;
    }
  }

  /**
   * A rejection names an argument of the command line: an option no
   * declared option matches, or an argument without a leading dash.
   */
  lemma {:induction false} RejectionNamesArgument(command: Command, argv: seq<string>, i: nat, argumentObject: Dict<Option<string>>, asWritten: bool)
    ensures var r := ParseFrom(command, argv, i, argumentObject, asWritten);
            && (r.Rejected? && r.rejection.InvalidArgument? ==>
                  r.rejection.argument in argv && !StartsWith(r.rejection.argument, "-"))
            && (r.Rejected? && r.rejection.InvalidOption? ==>
                  var a := r.rejection.option;
                  && a in argv && StartsWith(a, "-")
                  && (StartsWith(a, "--") ==> OptionNamed(command.options, a[2..]).None?)
                  && (!StartsWith(a, "--") ==>
                        OptionWithShortName(command.options, if asWritten then ShortOptionKeyAsWritten(a) else a[1..]).None?))
    decreases |argv| - i
  {
    if i < |argv| && argv[i] != "--" && StartsWith(argv[i], "-") {
      var found := LookupOption(command.options, argv[i], asWritten);
      if found.Some? {
        RejectionNamesArgument(command, argv, i + 2, Put(argumentObject, found.value.name, ArgAt(argv, i + 1)), asWritten);
      }
    }
  }

  /** `<command> --name value` invokes the command with `value` stored under the option's name. */
  lemma {:induction false} LongOptionStoresValue(commands: Dict<Command>, command: Command, option: CommandOption, value: string)
    requires Get(commands, command.commandName) == Some(command)
    requires OptionNamed(command.options, option.name) == Some(option)
    requires option.name != ""
    ensures RunSpec(commands, [command.commandName, "--" + option.name, value]) ==
            Invoked(Invocation(command.methodName, [(option.name, Some(value))], []))
  {
    var argv := [command.commandName, "--" + option.name, value];
    var obj := [(option.name, Some(value))];
    assert CommandKey(argv) == command.commandName;
    assert argv[1][2..] == option.name;
    assert StartsWith(argv[1], "--") && argv[1] != "--";
    assert LookupOption(command.options, argv[1], true) == Some(option);
    assert Put([], option.name, ArgAt(argv, 2)) == obj;
    assert ParseFrom(command, argv, 3, obj, true) == Invoked(Invocation(command.methodName, obj, []));
  }

  /**
   * As written, `-<d><key> value` invokes the command with `value` stored
   * under the name of the option whose short name is `key`: the character
   * `d` after the dash is skipped.
   */
  lemma {:induction false} ShortOptionStoresValue(commands: Dict<Command>, command: Command, option: CommandOption, d: char, key: string, value: string)
    requires Get(commands, command.commandName) == Some(command)
    requires OptionWithShortName(command.options, key) == Some(option)
    requires d != '-'
    ensures RunSpec(commands, [command.commandName, ['-', d] + key, value]) ==
            Invoked(Invocation(command.methodName, [(option.name, Some(value))], []))
  {
    var argv := [command.commandName, ['-', d] + key, value];
    var obj := [(option.name, Some(value))];
    assert CommandKey(argv) == command.commandName;
    assert argv[1][..2] == ['-', d];
    assert StartsWith(argv[1], "-") && !StartsWith(argv[1], "--") && argv[1] != "--";
    assert ShortOptionKeyAsWritten(argv[1]) == key;
    assert LookupOption(command.options, argv[1], true) == Some(option);
    assert Put([], option.name, ArgAt(argv, 2)) == obj;
    assert ParseFrom(command, argv, 3, obj, true) == Invoked(Invocation(command.methodName, obj, []));
  }

  /**
   * With the intended lookup, `-x value` invokes the command with `value`
   * stored under the name of the option whose short name is `x`.
   */
  lemma {:induction false} ShortOptionIntendedStoresValue(command: Command, option: CommandOption, short: string, value: string)
    requires OptionWithShortName(command.options, short) == Some(option)
    requires short != "" && short[0] != '-'
    ensures ParseFrom(command, [command.commandName, "-" + short, value], 1, [], false) ==
            Invoked(Invocation(command.methodName, [(option.name, Some(value))], []))
  {
    var argv := [command.commandName, "-" + short, value];
    var obj := [(option.name, Some(value))];
    assert argv[1][..2] == ['-', short[0]];
    assert StartsWith(argv[1], "-") && !StartsWith(argv[1], "--") && argv[1] != "--";
    assert ShortOptionKey(argv[1]) == short;
    assert LookupOption(command.options, argv[1], false) == Some(option);
    assert Put([], option.name, ArgAt(argv, 2)) == obj;
    assert ParseFrom(command, argv, 3, obj, false) == Invoked(Invocation(command.methodName, obj, []));
  }

  /**
   * As written, the lookup of `-x value` skips the first character of the
   * short name: `-c` looks for the short name "", so an option whose short
   * name is `c` is never found and the command line is rejected.
   */
  lemma {:induction false} ShortOptionAsWrittenRejected(command: Command, option: CommandOption, c: char, value: string)
    requires option in command.options && option.shortName == Some([c])
    requires c != '-'
    requires forall o :: o in command.options ==> o.shortName != Some("")
    ensures ParseFrom(command, [command.commandName, ['-', c], value], 1, [], true) == Rejected(InvalidOption(['-', c]))
    ensures ParseFrom(command, [command.commandName, ['-', c], value], 1, [], false).Invoked?
  {
    var argv := [command.commandName, ['-', c], value];
    assert argv[1][..2] == ['-', c];
    assert StartsWith(argv[1], "-") && !StartsWith(argv[1], "--") && argv[1] != "--";
    assert ShortOptionKeyAsWritten(argv[1]) == "";
    assert ShortOptionKey(argv[1]) == [c];
    assert OptionWithShortName(command.options, "").None? by {
      forall i | 0 <= i < |command.options|
        ensures command.options[i].shortName != Some("")
      {
        assert command.options[i] in command.options;
      }
    }
    var found := OptionWithShortName(command.options, [c]);
    assert found.Some? by {
      var i :| 0 <= i < |command.options| && command.options[i] == option;
    }
    assert LookupOption(command.options, argv[1], false) == found;
    var obj := Put([], found.value.name, ArgAt(argv, 2));
    assert ParseFrom(command, argv, 3, obj, false) == Invoked(Invocation(command.methodName, obj, []));
  }

  /*
   * Usage text
   */

  /** How one option is shown, without the brackets. */
  function OptionBody(option: CommandOption): (text: string)
    ensures option.optionType == CommandArgument ==> text == "<" + option.name + ">"
    ensures option.optionType != CommandArgument ==> StartsWith(text, "--" + option.name + " <")
    ensures option.optionType == EnumType ==>
      text == "--" + option.name + " <" + Join(if option.enumValues.Some? then option.enumValues.value else [], "|") + ">"
    ensures option.optionType == StringType ==> text == "--" + option.name + " <string>"
  {
    match option.optionType
    case CommandArgument => "<" + option.name + ">"
    case EnumType =>
      var values := if option.enumValues.Some? then option.enumValues.value else [];
      assert StartsWith("--" + option.name + " <" + Join(values, "|") + ">", "--" + option.name + " <");
      "--" + option.name + " <" + Join(values, "|") + ">"
    case StringType =>
      assert StartsWith("--" + option.name + " <string>", "--" + option.name + " <");
      "--" + option.name + " <string>"
  }

  /** What the usage line appends for one option: a space, then the body, in brackets unless the option is required. */
  function OptionText(option: CommandOption): (text: string)
    ensures option.required ==> text == " " + OptionBody(option)
    ensures !option.required ==> text == " [" + OptionBody(option) + "]"
  {
    " " + (if option.required then "" else "[") + OptionBody(option) + (if option.required then "" else "]")
  }

  /** The option texts in declaration order. */
  function OptionsText(options: seq<CommandOption>): string {
    if |options| == 0 then "" else OptionsText(options[..|options| - 1]) + OptionText(options[|options| - 1])
  }

  /** The usage line of one command. */
  function CommandText(programName: string, commandName: string, command: Command): string {
    programName + " " + commandName + OptionsText(command.options)
  }

  /** The lines `usage` writes for one command: the indented usage line, the description if any, a blank line. */
  function CommandUsageLines(programName: string, commandName: string, command: Command): (lines: seq<string>)
    ensures |lines| == if command.description == "" then 2 else 3
    ensures lines[0] == "  " + CommandText(programName, commandName, command) && lines[|lines| - 1] == ""
    ensures command.description != "" ==> lines[1] == "  " + command.description
  {
    ["  " + CommandText(programName, commandName, command)] +
      (if command.description == "" then [] else ["  " + command.description]) +
      [""]
  }

  function CommandsUsageLines(programName: string, commands: Dict<Command>): seq<string> {
    if |commands| == 0 then []
    else CommandsUsageLines(programName, commands[..|commands| - 1]) + CommandUsageLines(programName, commands[|commands| - 1].0, commands[|commands| - 1].1)
  }

  /** Everything `usage` writes. */
  function UsageLines(programName: string, commands: Dict<Command>): (lines: seq<string>)
    ensures |lines| >= 3 && lines[0] == programName + " <command> [options]" && lines[1] == "" && lines[2] == "Commands:"
  {
    [programName + " <command> [options]", "", "Commands:"] + CommandsUsageLines(programName, commands)
  }

  /** Usage lists every registered command under its table key, with its options. */
  lemma {:induction false} UsageListsEveryCommand(programName: string, commands: Dict<Command>, i: int)
    requires 0 <= i < |commands|
    ensures "  " + CommandText(programName, commands[i].0, commands[i].1) in CommandsUsageLines(programName, commands)
    ensures "  " + CommandText(programName, commands[i].0, commands[i].1) in UsageLines(programName, commands)
  {
    var line := "  " + CommandText(programName, commands[i].0, commands[i].1);
    var prefix := commands[..|commands| - 1];
    var last := CommandUsageLines(programName, commands[|commands| - 1].0, commands[|commands| - 1].1);
    if i == |commands| - 1 {
      assert line == last[0];
    } else {
      assert prefix[i] == commands[i];
      UsageListsEveryCommand(programName, prefix, i);
    }
    assert CommandsUsageLines(programName, commands) == CommandsUsageLines(programName, prefix) + last;
    assert line in CommandsUsageLines(programName, commands);
  }

  /** The argument loop of `runCommandLineApplication` for the selected command, from the second argument on. */
  method ParseArguments(command: Command, argv: seq<string>) returns (r: RunResult)
    ensures r == ParseFrom(command, argv, 1, [], true)
    ensures !r.ShowUsage?
  {
    var argumentObject: Dict<Option<string>> := [];
    var args: seq<string> := [];
    var i := 1;
    while i < |argv|
      invariant i >= 1 && args == []
      invariant ParseFrom(command, argv, 1, [], true) == ParseFrom(command, argv, i, argumentObject, true)
      decreases |argv| - i
    {
      var arg := argv[i];
      if arg == "--" {
        args := args + argv[i + 1..];
        assert args == argv[i + 1..];
        break;
      } else if StartsWith(arg, "--") {
        var option := OptionNamed(command.options, arg[2..]);
        assert option == LookupOption(command.options, arg, true);
        if option.None? {
          return Rejected(InvalidOption(arg));
        }
        OptionConsumesNext(command, argv, i, argumentObject, true);
        i := i + 1;
        argumentObject := Put(argumentObject, option.value.name, ArgAt(argv, i));
      } else if StartsWith(arg, "-") {
        var option := OptionWithShortName(command.options, ShortOptionKeyAsWritten(arg));
        assert option == LookupOption(command.options, arg, true);
        if option.None? {
          return Rejected(InvalidOption(arg));
        }
        OptionConsumesNext(command, argv, i, argumentObject, true);
        i := i + 1;
        argumentObject := Put(argumentObject, option.value.name, ArgAt(argv, i));
      } else {
        return Rejected(InvalidArgument(arg));
      }
      i := i + 1;
    }
    r := Invoked(Invocation(command.methodName, argumentObject, args));
  }

  lemma {:induction false} AppendAssociates(a: string, b: string, c: string)
    ensures a + (b + c) == (a + b) + c
  {
  }

  /** The `commandText` that `usage` builds for one command by appending each option's text in turn. */
  method RenderCommandText(programName: string, commandName: string, command: Command) returns (commandText: string)
    ensures commandText == CommandText(programName, commandName, command)
  {
    var head := programName + " " + commandName;
    commandText := head;
    assert OptionsText(command.options[..0]) == "";
    for o := 0 to |command.options|
      invariant commandText == head + OptionsText(command.options[..o])
    {
      assert command.options[..o + 1][..o] == command.options[..o];
      var option := command.options[o];
      var body;
      if option.optionType == CommandArgument {
        body := "<" + option.name + ">";
      } else if option.optionType == EnumType {
        var enumValues := if option.enumValues.Some? then option.enumValues.value else [];
        body := "--" + option.name + " <" + Join(enumValues, "|") + ">";
      } else {
        body := "--" + option.name + " <string>";
      }
      assert body == OptionBody(option);
      var text;
      if option.required {
        text := " " + body;
      } else {
        text := " [" + body + "]";
      }
      assert OptionsText(command.options[..o + 1]) == OptionsText(command.options[..o]) + text;
      AppendAssociates(head, OptionsText(command.options[..o]), text);
      commandText := commandText + text;
    }
    assert command.options[..|command.options|] == command.options;
  }

  /** The lines of `usage`, for a given program name and command table. */
  method RenderUsage(programName: string, commands: Dict<Command>) returns (lines: seq<string>)
    ensures lines == UsageLines(programName, commands)
  {
    lines := [programName + " <command> [options]", "", "Commands:"];
    for c := 0 to |commands|
      invariant lines == UsageLines(programName, commands[..c])
    {
      assert commands[..c + 1][..c] == commands[..c];
      var command := commands[c].1;
      var commandText := RenderCommandText(programName, commands[c].0, command);
      lines := lines + ["  " + commandText];
      if command.description != "" {
        lines := lines + ["  " + command.description];
      }
      lines := lines + [""];
    }
    assert commands[..|commands|] == commands;
  }

  /** The application object: its name and its command table, filled by registration. */
  class CommandLineApplication {
    var programName: string
    var commands: Dict<Command>

    /** A class with no registered command has an empty table (`constructor.commands || {}`). */
    constructor (programName: string)
      ensures this.programName == programName && commands == []
    {
      this.programName := programName;
      commands := [];
    }

    /**
     * The `Command` decorator: stores the command under its name, replacing
     * an earlier one of the same name in place; every other entry stays.
     */
    method RegisterCommand(commandName: string, description: string, methodName: string, options: seq<CommandOption>)
      modifies this
      ensures programName == old(programName)
      ensures commands == Put(old(commands), commandName, Command(methodName, commandName, options, description))
      ensures Get(commands, commandName) == Some(Command(methodName, commandName, options, description))
      ensures forall k :: k != commandName ==> Get(commands, k) == Get(old(commands), k)
    {
      commands := Put(commands, commandName, Command(methodName, commandName, options, description));
    }

    /** `runCommandLineApplication`: selects the command, then parses the remaining arguments in one pass. */
    method Run(argv: seq<string>) returns (r: RunResult)
      ensures r == RunSpec(commands, argv)
      ensures ExitCode(r) == 1 <==> r.Rejected?
    {
      var key := if |argv| == 0 then "undefined" else argv[0];
      var found := Get(commands, key);
      if found.None? {
        return ShowUsage;
      }
      r := ParseArguments(found.value, argv);
    }

    /** `usage`: the header, then each registered command in registration order. */
    method Usage() returns (lines: seq<string>)
      ensures lines == UsageLines(programName, commands)
    {
      lines := RenderUsage(programName, commands);
    }
  }
}
