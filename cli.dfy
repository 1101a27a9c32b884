/** The command line of the runner: `-y/--year`, `-d/--day`, `-p/--part`
    with a value each, and `-h/--help`. `args` stands for argv[1..], so
    argc is |args| + 1. Number parsing (std::stoi) is the parameter `stoi`:
    None where std::stoi throws, which nothing catches. */
module Cli {
  import opened Optional
  import opened Utils

  datatype Config = Config(year: int, day: int, part: int, showHelp: bool)

  /** Year 2025, every day (-1), both parts (-1), no help. */
  const DefaultConfig: Config := Config(2025, -1, -1, false)

  datatype Field = Year | Day | Part

  predicate IsHelp(arg: string) {
    arg == "-h" || arg == "--help"
  }

  /** The field a value option sets, or None for anything else. */
  function FieldOf(arg: string): (f: Option<Field>)
    ensures f.Some? ==> !IsHelp(arg)
  {
    if arg == "-y" || arg == "--year" then Some(Year)
    else if arg == "-d" || arg == "--day" then Some(Day)
    else if arg == "-p" || arg == "--part" then Some(Part)
    else None
  }

  function Get(c: Config, f: Field): (r: int) {
    match f
    case Year => c.year
    case Day => c.day
    case Part => c.part
  }

  function SetField(c: Config, f: Field, v: int): (r: Config)
    ensures Get(r, f) == v
    ensures forall g :: g != f ==> Get(r, g) == Get(c, g)
    ensures r.showHelp == c.showHelp
  {
    match f
    case Year => c.(year := v)
    case Day => c.(day := v)
    case Part => c.(part := v)
  }

  /** The result of parseArgs: a configuration, or the value std::stoi
      threw on, which ends the program. */
  datatype Parse = Parsed(config: Config) | Aborted(value: string)

  function Help(c: Config): (r: Config) {
    c.(showHelp := true)
  }

  /** parseArgs from configuration `c` on the remaining arguments. */
  function ParseFrom(c: Config, rest: seq<string>, stoi: string -> Option<int>): (r: Parse)
    decreases |rest|
  {
    if rest == [] then Parsed(c)
    else if IsHelp(rest[0]) then Parsed(Help(c))
    else
      match FieldOf(rest[0])
      case None => Parsed(Help(c))
      case Some(f) =>
        if |rest| < 2 then Parsed(Help(c))
        else
          match stoi(rest[1])
          case None => Aborted(rest[1])
          case Some(v) => ParseFrom(SetField(c, f, v), rest[2..], stoi)
  }

  /** ParseFrom on the arguments from index `i` on. */
  lemma ParseAt(c: Config, args: seq<string>, i: nat, stoi: string -> Option<int>)
    requires i < |args|
    ensures ParseFrom(c, args[i..], stoi) ==
      if IsHelp(args[i]) || FieldOf(args[i]).None? || i + 1 == |args| then Parsed(Help(c))
      else if stoi(args[i + 1]).None? then Aborted(args[i + 1])
      else ParseFrom(SetField(c, FieldOf(args[i]).value, stoi(args[i + 1]).value), args[i + 2..], stoi)
  {
    var rest := args[i..];
    assert rest[0] == args[i];
    if i + 1 < |args| {
      assert rest[1] == args[i + 1];
      assert rest[2..] == args[i + 2..];
    }
  }

  /** main.cpp parseArgs: one left-to-right pass over the arguments; a
      value option overwrites its field with the next argument, and help,
      a missing value or an unknown option set showHelp and stop. */
  method ParseArgs(args: seq<string>, stoi: string -> Option<int>) returns (p: Parse)
    ensures p == ParseFrom(DefaultConfig, args, stoi)
    ensures args == [] ==> p == Parsed(Config(2025, -1, -1, false))
  {
    var config := DefaultConfig;
    var i := 0;
    while i < |args|
      invariant 0 <= i <= |args|
      invariant ParseFrom(config, args[i..], stoi) == ParseFrom(DefaultConfig, args, stoi)
      decreases |args| - i
    {
      var arg := args[i];
      ParseAt(config, args, i, stoi);
      if arg == "-h" || arg == "--help" {
        config := config.(showHelp := true);
        return Parsed(config);
      } else if arg == "-y" || arg == "--year" {
        if i + 1 < |args| {
          i := i + 1;
          var v := stoi(args[i]);
          if v.None? {
            return Aborted(args[i]);
          }
          config := config.(year := v.value);
        } else {
          config := config.(showHelp := true);
          return Parsed(config);
        }
      } else if arg == "-d" || arg == "--day" {
        if i + 1 < |args| {
          i := i + 1;
          var v := stoi(args[i]);
          if v.None? {
            return Aborted(args[i]);
          }
          config := config.(day := v.value);
        } else {
          config := config.(showHelp := true);
          return Parsed(config);
        }
      } else if arg == "-p" || arg == "--part" {
        if i + 1 < |args| {
          i := i + 1;
          var v := stoi(args[i]);
          if v.None? {
            return Aborted(args[i]);
          }
          config := config.(part := v.value);
        } else {
          config := config.(showHelp := true);
          return Parsed(config);
        }
      } else {
        config := config.(showHelp := true);
        return Parsed(config);
      }
      i := i + 1;
    }
    assert args[i..] == [];
    return Parsed(config);
  }

  /** The exit status main returns after parsing: `showHelp && argc > 1 ? 1 : 0`
      on the help path, 0 after a run. */
  function ExitCode(c: Config, argc: int): (r: int) {
    if c.showHelp then (if c.showHelp && argc > 1 then 1 else 0) else 0
  }

  // ---------------------------------------------------------------- properties

  /** A value option followed by its value. */
  datatype Setting = Setting(flag: string, value: string)

  /** Settings whose flags are value options and whose values parse. */
  predicate Clean(settings: seq<Setting>, stoi: string -> Option<int>) {
    forall i :: 0 <= i < |settings| ==> FieldOf(settings[i].flag).Some? && stoi(settings[i].value).Some?
  }

  /** The settings as a command line. */
  function Flatten(settings: seq<Setting>): (r: seq<string>) {
    if settings == [] then [] else [settings[0].flag, settings[0].value] + Flatten(settings[1..])
  }

  /** The settings applied in order. */
  function Apply(c: Config, settings: seq<Setting>, stoi: string -> Option<int>): (r: Config)
    requires Clean(settings, stoi)
    decreases |settings|
  {
    if settings == [] then c
    else Apply(SetField(c, FieldOf(settings[0].flag).value, stoi(settings[0].value).value), settings[1..], stoi)
  }

  lemma CleanTail(settings: seq<Setting>, stoi: string -> Option<int>)
    requires settings != [] && Clean(settings, stoi)
    ensures Clean(settings[1..], stoi)
  {
    assert forall i :: 0 <= i < |settings| - 1 ==> settings[1..][i] == settings[i + 1];
  }

  /** Clean settings are consumed two arguments at a time, whatever follows. */
  lemma {:induction false} ParseSettings(c: Config, settings: seq<Setting>, rest: seq<string>, stoi: string -> Option<int>)
    requires Clean(settings, stoi)
    ensures ParseFrom(c, Flatten(settings) + rest, stoi) == ParseFrom(Apply(c, settings, stoi), rest, stoi)
    decreases |settings|
  {
    if settings == [] {
      AppendEmpty(rest);
    } else {
      var s := settings[0];
      var tail := Flatten(settings[1..]) + rest;
      AppendAssoc([s.flag, s.value], Flatten(settings[1..]), rest);
      var all := [s.flag, s.value] + tail;
      assert all[0] == s.flag && all[1] == s.value && all[2..] == tail;
      var f, v := FieldOf(s.flag).value, stoi(s.value).value;
      assert ParseFrom(c, all, stoi) == ParseFrom(SetField(c, f, v), tail, stoi);
      CleanTail(settings, stoi);
      ParseSettings(SetField(c, f, v), settings[1..], rest, stoi);
    }
  }

  /** Settings for other fields leave a field and the help flag alone. */
  lemma {:induction false} ApplyUntouched(c: Config, settings: seq<Setting>, f: Field, stoi: string -> Option<int>)
    requires Clean(settings, stoi)
    requires forall j :: 0 <= j < |settings| ==> FieldOf(settings[j].flag) != Some(f)
    ensures Get(Apply(c, settings, stoi), f) == Get(c, f)
    ensures Apply(c, settings, stoi).showHelp == c.showHelp
    decreases |settings|
  {
    if settings != [] {
      CleanTail(settings, stoi);
      assert forall j :: 0 <= j < |settings| - 1 ==> settings[1..][j] == settings[j + 1];
      var g := FieldOf(settings[0].flag).value;
      ApplyUntouched(SetField(c, g, stoi(settings[0].value).value), settings[1..], f, stoi);
    }
  }

  /** For a repeated option the last occurrence wins. */
  lemma {:induction false} LastOccurrenceWins(c: Config, settings: seq<Setting>, f: Field, i: nat, stoi: string -> Option<int>)
    requires Clean(settings, stoi) && i < |settings|
    requires FieldOf(settings[i].flag) == Some(f)
    requires forall j :: i < j < |settings| ==> FieldOf(settings[j].flag) != Some(f)
    ensures Get(Apply(c, settings, stoi), f) == stoi(settings[i].value).value
    decreases i
  {
    CleanTail(settings, stoi);
    var c' := SetField(c, FieldOf(settings[0].flag).value, stoi(settings[0].value).value);
    assert forall j :: 0 < j < |settings| ==> settings[1..][j - 1] == settings[j];
    if i == 0 {
      ApplyUntouched(c', settings[1..], f, stoi);
    } else {
      LastOccurrenceWins(c', settings[1..], f, i - 1, stoi);
    }
  }

  /** Help ends parsing at once: the settings before it are kept and the
      arguments after it are never looked at. */
  lemma HelpStops(settings: seq<Setting>, h: string, after: seq<string>, stoi: string -> Option<int>)
    requires Clean(settings, stoi) && IsHelp(h)
    ensures ParseFrom(DefaultConfig, Flatten(settings) + ([h] + after), stoi)
      == Parsed(Help(Apply(DefaultConfig, settings, stoi)))
  {
    ParseSettings(DefaultConfig, settings, [h] + after, stoi);
  }

  /** A value option as the last argument sets showHelp and keeps the
      settings before it. */
  lemma MissingValueStops(settings: seq<Setting>, flag: string, stoi: string -> Option<int>)
    requires Clean(settings, stoi) && FieldOf(flag).Some?
    ensures ParseFrom(DefaultConfig, Flatten(settings) + [flag], stoi)
      == Parsed(Help(Apply(DefaultConfig, settings, stoi)))
  {
    ParseSettings(DefaultConfig, settings, [flag], stoi);
  }

  /** An unknown option sets showHelp and stops. */
  lemma UnknownOptionStops(settings: seq<Setting>, arg: string, after: seq<string>, stoi: string -> Option<int>)
    requires Clean(settings, stoi) && !IsHelp(arg) && FieldOf(arg).None?
    ensures ParseFrom(DefaultConfig, Flatten(settings) + ([arg] + after), stoi)
      == Parsed(Help(Apply(DefaultConfig, settings, stoi)))
  {
    ParseSettings(DefaultConfig, settings, [arg] + after, stoi);
  }

  /** Conversely, a parse that ends without help consumed the whole command
      line as clean settings. */
  lemma {:induction false} ParsedWithoutHelp(c: Config, rest: seq<string>, stoi: string -> Option<int>)
    returns (settings: seq<Setting>)
    requires !c.showHelp
    requires ParseFrom(c, rest, stoi).Parsed? && !ParseFrom(c, rest, stoi).config.showHelp
    ensures Clean(settings, stoi) && Flatten(settings) == rest
    ensures Apply(c, settings, stoi) == ParseFrom(c, rest, stoi).config
    decreases |rest|
  {
    if rest == [] {
      settings := [];
    } else {
      var f, v := FieldOf(rest[0]).value, stoi(rest[1]).value;
      var more := ParsedWithoutHelp(SetField(c, f, v), rest[2..], stoi);
      settings := [Setting(rest[0], rest[1])] + more;
      assert settings[1..] == more;
      assert rest == [rest[0], rest[1]] + rest[2..];
    }
  }

  /** showHelp is only ever set while an argument is being looked at, so
      every help path exits with status 1. */
  lemma {:induction false} HelpExitsOne(args: seq<string>, stoi: string -> Option<int>)
    requires ParseFrom(DefaultConfig, args, stoi).Parsed?
    ensures var c := ParseFrom(DefaultConfig, args, stoi).config;
      c.showHelp ==> ExitCode(c, |args| + 1) == 1
  {
    if args == [] {
      assert ParseFrom(DefaultConfig, args, stoi) == Parsed(DefaultConfig);
    }
  }
}
