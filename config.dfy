/** The program configuration: options and flags registered by the program,
    filled from the command line and a resource file through AnyOption. Every
    option and flag is registered with AnyOption under its long name and its
    short character, after the built-in help flag (`-h`, `--help`) and, for a
    full parse, the config-file option (`-c`, `--config`). */
module Config {
  import opened Words
  import opened AnyOptions
  import opened AnyOptionFacts

  /** A program option with its current value and usage line. */
  datatype ConfigOption = ConfigOption(shortname: char, name: string, optional: bool, value: string, usage: string)

  /** A program flag with its current value and usage line. */
  datatype ConfigFlag = ConfigFlag(shortname: char, name: string, value: bool, usage: string)

  /** The usage line " -c --name<TAB><TAB>help": the character at offset 2,
      the name from offset 6, two tabs, then the help text. */
  function UsageLine(shortname: char, name: string, help: string): (u: string)
    ensures |u| == 8 + |name| + |help|
    ensures u[..2] == " -" && u[2] == shortname && u[3..6] == " --"
    ensures u[6..6 + |name|] == name && u[6 + |name|..8 + |name|] == "\t\t" && u[8 + |name|..] == help
  {
    " -" + [shortname] + " --" + name + "\t\t" + help
  }

  /** A new option: no value yet (the empty string), mandatory unless said otherwise. */
  function NewOption(shortname: char, name: string, help: string, optional: bool := false): (o: ConfigOption)
    ensures o.shortname == shortname && o.name == name && o.optional == optional
    ensures o.value == "" && o.usage == UsageLine(shortname, name, help)
  {
    ConfigOption(shortname, name, optional, "", UsageLine(shortname, name, help))
  }

  /** A new flag: unset. */
  function NewFlag(shortname: char, name: string, help: string): (f: ConfigFlag)
    ensures f.shortname == shortname && f.name == name && !f.value
    ensures f.usage == UsageLine(shortname, name, help)
  {
    ConfigFlag(shortname, name, false, UsageLine(shortname, name, help))
  }

  // ---------------------------------------------------------------------------
  // The AnyOption records each parse registers

  function OptionRecord(o: ConfigOption, optionalKind: OptType): Entry
  {
    NameCharEntry(o.name, o.shortname, if o.optional then optionalKind else CommonOpt)
  }

  function OptionRecords(options: seq<ConfigOption>, optionalKind: OptType): seq<Entry>
  {
    seq(|options|, k requires 0 <= k < |options| => OptionRecord(options[k], optionalKind))
  }

  function FlagRecords(flags: seq<ConfigFlag>): seq<Entry>
  {
    seq(|flags|, k requires 0 <= k < |flags| => NameCharEntry(flags[k].name, flags[k].shortname, CommonFlag))
  }

  const HelpRecord: Entry := NameCharEntry("help", 'h', CommandFlag)
  const ConfigFileRecord: Entry := NameCharEntry("config", 'c', CommandOpt)

  /** parse registers optional options as command-line options, the others as common ones. */
  function ParseRecords(options: seq<ConfigOption>, flags: seq<ConfigFlag>): seq<Entry>
  {
    [HelpRecord, ConfigFileRecord] + OptionRecords(options, CommandOpt) + FlagRecords(flags)
  }

  /** parse_args registers every option as a common option. */
  function ArgsRecords(options: seq<ConfigOption>, flags: seq<ConfigFlag>): seq<Entry>
  {
    [HelpRecord] + OptionRecords(options, CommonOpt) + FlagRecords(flags)
  }

  /** The resource file read: the `-c` value when it is not empty, else the default. */
  function ConfigFileName(firstPass: seq<Entry>, filename: string): string
  {
    var c := ValueOf(firstPass, ByChar('c'));
    if |c| != 0 then c else filename
  }

  /** The records after processing the file, which is skipped when it cannot be opened. */
  function AfterFile(recs: seq<Entry>, file: Option<seq<string>>): seq<Entry>
  {
    if file.Some? then LinesResult(recs, file.value, '#', '=') else recs
  }

  // ---------------------------------------------------------------------------
  // Copying values out

  datatype Copied = Copied(options: seq<ConfigOption>, ok: bool)

  predicate Missing(o: ConfigOption, recs: seq<Entry>)
  {
    |ValueOf(recs, ByChar(o.shortname))| == 0 && !o.optional
  }

  /** The copy loop: each option takes the value found for its character (an
      optional option without one takes ""), until the first mandatory option
      without a value, where copying stops with failure. */
  function CopyOptions(options: seq<ConfigOption>, recs: seq<Entry>): (c: Copied)
    ensures |c.options| == |options|
    decreases |options|
  {
    if options == [] then Copied([], true)
    else if Missing(options[0], recs) then Copied(options, false)
    else
      var rest := CopyOptions(options[1..], recs);
      Copied([Filled(options[0], recs)] + rest.options, rest.ok)
  }

  /** The option with the value getValue gives for its character. */
  function Filled(o: ConfigOption, recs: seq<Entry>): ConfigOption
  {
    o.(value := ValueOf(recs, ByChar(o.shortname)))
  }

  /** Each flag takes getFlag of its character. */
  function CopyFlags(flags: seq<ConfigFlag>, recs: seq<Entry>): (r: seq<ConfigFlag>)
    ensures |r| == |flags|
  {
    seq(|flags|, k requires 0 <= k < |flags| => flags[k].(value := FlagOf(recs, ByChar(flags[k].shortname))))
  }

  function Prepend(done: seq<ConfigOption>, c: Copied): Copied
  {
    Copied(done + c.options, c.ok)
  }

  lemma CopyStops(was: seq<ConfigOption>, k: nat, recs: seq<Entry>)
    requires k < |was| && Missing(was[k], recs)
    ensures CopyOptions(was[k..], recs) == Copied(was[k..], false)
  {
    assert was[k..][0] == was[k];
  }

  lemma CopyGoesOn(was: seq<ConfigOption>, k: nat, recs: seq<Entry>)
    requires k < |was| && !Missing(was[k], recs)
    ensures var rest := CopyOptions(was[k + 1..], recs);
      CopyOptions(was[k..], recs)
      == Copied([Filled(was[k], recs)] + rest.options, rest.ok)
  {
    assert was[k..][0] == was[k];
    assert was[k..][1..] == was[k + 1..];
  }

  lemma UpdateAt<T>(done: seq<T>, rest: seq<T>, v: T)
    requires |rest| > 0
    ensures (done + rest)[|done| := v] == (done + [v]) + rest[1..]
  {
  }

  /** One step of the copy loop: the slot `k` takes `v`, and `v` moves from the copy still to do to the copy done. */
  lemma Advance(was: seq<ConfigOption>, k: nat, recs: seq<Entry>, done: seq<ConfigOption>, v: ConfigOption)
    requires k < |was| && |done| == k && !Missing(was[k], recs) && v == Filled(was[k], recs)
    requires CopyOptions(was, recs) == Prepend(done, CopyOptions(was[k..], recs))
    ensures (done + was[k..])[k := v] == (done + [v]) + was[k + 1..]
    ensures CopyOptions(was, recs) == Prepend(done + [v], CopyOptions(was[k + 1..], recs))
  {
    CopyGoesOn(was, k, recs);
    UpdateAt(done, was[k..], v);
    assert was[k..][1..] == was[k + 1..];
    PrependTwice(done, v, CopyOptions(was[k + 1..], recs));
  }

  lemma PrependTwice(done: seq<ConfigOption>, v: ConfigOption, c: Copied)
    ensures Prepend(done, Copied([v] + c.options, c.ok)) == Prepend(done + [v], c)
  {
    assert done + ([v] + c.options) == (done + [v]) + c.options;
  }

  /** The first element of `xs` whose name (read by `nameOf`) is `name`, or -1. */
  function FirstNamed<T>(xs: seq<T>, nameOf: T -> string, name: string): (i: int)
    ensures -1 <= i < |xs|
    ensures i >= 0 ==> nameOf(xs[i]) == name
    ensures forall j :: 0 <= j < |xs| && (i == -1 || j < i) ==> nameOf(xs[j]) != name
    decreases |xs|
  {
    if xs == [] then -1
    else if nameOf(xs[0]) == name then 0
    else var r := FirstNamed(xs[1..], nameOf, name); if r < 0 then -1 else r + 1
  }

  class Config {
    var options: seq<ConfigOption>
    var flags: seq<ConfigFlag>

    constructor ()
      ensures options == [] && flags == []
    {
      options := [];
      flags := [];
    }

    /** add_option: appends exactly one option. */
    method AddOption(shortname: char, name: string, help: string, optional: bool := false)
      modifies this`options
      ensures options == old(options) + [NewOption(shortname, name, help, optional)]
    {
      options := options + [NewOption(shortname, name, help, optional)];
    }

    /** add_flag: appends exactly one flag. */
    method AddFlag(shortname: char, name: string, help: string)
      modifies this`flags
      ensures flags == old(flags) + [NewFlag(shortname, name, help)]
    {
      flags := flags + [NewFlag(shortname, name, help)];
    }

    /** Registers the options and flags with `opt`, after the records already there. */
    method Register(opt: AnyOption, optionalKind: OptType)
      modifies opt`options, opt`usage
      ensures opt.options == old(opt.options) + OptionRecords(options, optionalKind) + FlagRecords(flags)
    {
      RegisterOptions(opt, optionalKind);
      RegisterFlags(opt);
    }

    /** The option half of the registration loop. */
    method RegisterOptions(opt: AnyOption, optionalKind: OptType)
      modifies opt`options, opt`usage
      ensures opt.options == old(opt.options) + OptionRecords(options, optionalKind)
    {
      ghost var base := opt.options;
      for k := 0 to |options|
        invariant opt.options == base + OptionRecords(options[..k], optionalKind)
      {
        var i := options[k];
        assert OptionRecords(options[..k + 1], optionalKind) == OptionRecords(options[..k], optionalKind) + [OptionRecord(i, optionalKind)];
        if i.optional {
          opt.AddOption(i.name, i.shortname, optionalKind);
        } else {
          opt.AddOption(i.name, i.shortname, CommonOpt);
        }
        opt.AddUsage(i.usage);
      }
      assert options[..|options|] == options;
    }

    /** The flag half of the registration loop. */
    method RegisterFlags(opt: AnyOption)
      modifies opt`options, opt`usage
      ensures opt.options == old(opt.options) + FlagRecords(flags)
    {
      ghost var base := opt.options;
      for k := 0 to |flags|
        invariant opt.options == base + FlagRecords(flags[..k])
      {
        var i := flags[k];
        assert FlagRecords(flags[..k + 1]) == FlagRecords(flags[..k]) + [NameCharEntry(i.name, i.shortname, CommonFlag)];
        opt.AddOption(i.name, i.shortname, CommonFlag);
        opt.AddUsage(i.usage);
      }
      assert flags[..|flags|] == flags;
    }

    /** The copy loops shared by both parses: options first, stopping with
        -1 at the first mandatory option without a value, then flags. */
    method CopyOut(opt: AnyOption) returns (r: int)
      modifies this`options, this`flags
      ensures var c := CopyOptions(old(options), opt.options);
        && options == c.options
        && (c.ok ==> r == 0 && flags == CopyFlags(old(flags), opt.options))
        && (!c.ok ==> r == -1 && flags == old(flags))
    {
      var ok := CopyOptionValues(opt);
      if !ok {
        return -1;
      }
      CopyFlagValues(opt);
      return 0;
    }

    /** The option copy loop; `ok` is false when it stopped at a mandatory option without a value. */
    method CopyOptionValues(opt: AnyOption) returns (ok: bool)
      modifies this`options
      ensures var c := CopyOptions(old(options), opt.options); options == c.options && ok == c.ok
    {
      ghost var recs := opt.options;
      ghost var was := options;
      ghost var done: seq<ConfigOption> := [];
      for k := 0 to |options|
        invariant |done| == k && options == done + was[k..]
        invariant CopyOptions(was, recs) == Prepend(done, CopyOptions(was[k..], recs))
      {
        var o := options[k];
        assert o == was[k];
        var val := opt.GetValueChar(o.shortname);
        if |val| == 0 && !o.optional {
          assert Missing(o, recs);
          CopyStops(was, k, recs);
          return false;
        }
        assert !Missing(o, recs);
        var v := o.(value := val);
        assert v == Filled(was[k], recs);
        Advance(was, k, recs, done, v);
        options := options[k := v];
        done := done + [v];
      }
      assert was[|was|..] == [];
      assert done + [] == done;
      return true;
    }

    /** The flag copy loop. */
    method CopyFlagValues(opt: AnyOption)
      modifies this`flags
      ensures flags == CopyFlags(old(flags), opt.options)
    {
      ghost var recs := opt.options;
      for k := 0 to |flags|
        invariant |flags| == |old(flags)|
        invariant forall j :: k <= j < |flags| ==> flags[j] == old(flags)[j]
        invariant forall j :: 0 <= j < k ==> flags[j] == CopyFlags(old(flags), recs)[j]
      {
        var b := opt.GetFlagChar(flags[k].shortname);
        flags := flags[k := flags[k].(value := b)];
      }
    }

    /** parse: a first command-line pass; -1 at once on help; the resource
        file named by `-c` (or the default one), read through `readFile`; a
        second command-line pass so that the command line overrides the file;
        then the values are copied out. */
    method Parse(filename: string, argv: seq<string>, readFile: string -> Option<seq<string>>) returns (r: int)
      modifies this`options, this`flags
      ensures var first := ArgsFrom(ParseRecords(old(options), old(flags)), argv, 1, '=');
        var final := ArgsFrom(AfterFile(first, readFile(ConfigFileName(first, filename))), argv, 1, '=');
        var c := CopyOptions(old(options), final);
        && (FlagOf(first, ByChar('h')) ==> r == -1 && options == old(options) && flags == old(flags))
        && (!FlagOf(first, ByChar('h')) ==>
              && options == c.options
              && (c.ok ==> r == 0 && flags == CopyFlags(old(flags), final))
              && (!c.ok ==> r == -1 && flags == old(flags)))
    {
      var opt := NewParser(true);
      opt.ProcessCommandArgs(argv);
      var help := opt.GetFlagChar('h');
      if help {
        return -1;
      }
      ReadConfigFile(opt, filename, readFile);
      opt.ProcessCommandArgs(argv);
      r := CopyOut(opt);
    }

    /** parse_args: the command line alone; -1 on help, otherwise the values are copied out. */
    method ParseArgs(argv: seq<string>) returns (r: int)
      modifies this`options, this`flags
      ensures var recs := ArgsFrom(ArgsRecords(old(options), old(flags)), argv, 1, '=');
        var c := CopyOptions(old(options), recs);
        && (FlagOf(recs, ByChar('h')) ==> r == -1 && options == old(options) && flags == old(flags))
        && (!FlagOf(recs, ByChar('h')) ==>
              && options == c.options
              && (c.ok ==> r == 0 && flags == CopyFlags(old(flags), recs))
              && (!c.ok ==> r == -1 && flags == old(flags)))
    {
      var opt := NewParser(false);
      opt.ProcessCommandArgs(argv);
      var help := opt.GetFlagChar('h');
      if help {
        return -1;
      }
      r := CopyOut(opt);
    }

    /** The AnyOption object of parse (with the config-file option) or of parse_args (without it). */
    method NewParser(withConfigFile: bool) returns (opt: AnyOption)
      ensures fresh(opt)
      ensures opt.options == if withConfigFile then ParseRecords(options, flags) else ArgsRecords(options, flags)
      ensures opt.equalsign == '=' && opt.comment == '#' && opt.delimiter == '='
    {
      opt := new AnyOption();
      opt.AddOption("help", 'h', CommandFlag);
      if withConfigFile {
        opt.AddOption("config", 'c', CommandOpt);
      }
      ghost var head := opt.options;
      assert head == if withConfigFile then [HelpRecord, ConfigFileRecord] else [HelpRecord];
      opt.AddUsage("Usage: ");
      opt.AddUsage("");
      opt.AddUsage(" -h --help\t\tprint this usage message");
      if withConfigFile {
        opt.AddUsage(" -c --config\t\tspecify alternate config file to use");
      }
      assert opt.options == head;
      var kind := if withConfigFile then CommandOpt else CommonOpt;
      Register(opt, kind);
      assert opt.options == head + OptionRecords(options, kind) + FlagRecords(flags);
    }

    /** get_flag: the value of the first flag with that name, false when there is none. */
    method GetFlag(name: string) returns (b: bool)
      ensures var i := FirstNamed(flags, (f: ConfigFlag) => f.name, name); b == (i >= 0 && flags[i].value)
    {
      for k := 0 to |flags|
        invariant forall j :: 0 <= j < k ==> flags[j].name != name
      {
        if flags[k].name == name {
          return flags[k].value;
        }
      }
      return false;
    }

    /** get_value<std::string>: the value of the first option with that name, "" when there is none. */
    method GetValue(name: string) returns (v: string)
      ensures var i := FirstNamed(options, (o: ConfigOption) => o.name, name); v == if i >= 0 then options[i].value else ""
    {
      for k := 0 to |options|
        invariant forall j :: 0 <= j < k ==> options[j].name != name
      {
        if options[k].name == name {
          return options[k].value;
        }
      }
      return "";
    }
  }

  /** Processes the file named by `-c` when it has a value, else the default file. */
  method ReadConfigFile(opt: AnyOption, filename: string, readFile: string -> Option<seq<string>>)
    requires opt.comment == '#' && opt.delimiter == '='
    modifies opt`options
    ensures opt.options == AfterFile(old(opt.options), readFile(ConfigFileName(old(opt.options), filename)))
  {
    var c := opt.GetValueChar('c');
    var ok;
    if |c| != 0 {
      var name := opt.GetValueChar('c');
      ok := opt.ProcessFile(readFile(name));
    } else {
      ok := opt.ProcessFile(readFile(filename));
    }
  }

  // ---------------------------------------------------------------------------
  // Properties of the parses

  /** The first `k` options were filled and the rest are as they were. */
  predicate FilledUpTo(options: seq<ConfigOption>, got: seq<ConfigOption>, k: nat, recs: seq<Entry>)
  {
    && |got| == |options| && k <= |options|
    && (forall j :: 0 <= j < k ==> !Missing(options[j], recs) && got[j] == Filled(options[j], recs))
    && got[k..] == options[k..]
  }

  /** Copying succeeds exactly when no mandatory option lacks a value; then
      every option holds its value ("" for an optional one without); on
      failure the options before the first missing one are filled and that
      one and all after it are untouched. */
  lemma CopyOptionsMeaning(options: seq<ConfigOption>, recs: seq<Entry>)
    ensures var c := CopyOptions(options, recs);
      && (c.ok <==> forall k :: 0 <= k < |options| ==> !Missing(options[k], recs))
      && (c.ok ==> FilledUpTo(options, c.options, |options|, recs))
      && (!c.ok ==> exists k :: 0 <= k < |options| && Missing(options[k], recs) && FilledUpTo(options, c.options, k, recs))
  {
    CopySucceeds(options, recs);
    CopyFills(options, recs);
  }

  lemma {:induction false} CopySucceeds(options: seq<ConfigOption>, recs: seq<Entry>)
    ensures CopyOptions(options, recs).ok <==> forall k :: 0 <= k < |options| ==> !Missing(options[k], recs)
    decreases |options|
  {
    if options != [] && !Missing(options[0], recs) {
      CopySucceeds(options[1..], recs);
      assert forall j :: 1 <= j < |options| ==> options[j] == options[1..][j - 1];
    }
  }

  lemma {:induction false} CopyFills(options: seq<ConfigOption>, recs: seq<Entry>)
    ensures var c := CopyOptions(options, recs);
      && (c.ok ==> FilledUpTo(options, c.options, |options|, recs))
      && (!c.ok ==> exists k :: 0 <= k < |options| && Missing(options[k], recs) && FilledUpTo(options, c.options, k, recs))
    decreases |options|
  {
    var c := CopyOptions(options, recs);
    if options == [] {
    } else if Missing(options[0], recs) {
      assert FilledUpTo(options, c.options, 0, recs);
    } else {
      var tail := options[1..];
      var rest := CopyOptions(tail, recs);
      CopyFills(tail, recs);
      assert c.options == [Filled(options[0], recs)] + rest.options;
      if rest.ok {
        FilledCons(options, c.options, rest.options, |tail|, recs);
      } else {
        var k :| 0 <= k < |tail| && Missing(tail[k], recs) && FilledUpTo(tail, rest.options, k, recs);
        FilledCons(options, c.options, rest.options, k, recs);
      }
    }
  }

  lemma FilledCons(options: seq<ConfigOption>, got: seq<ConfigOption>, rest: seq<ConfigOption>, k: nat, recs: seq<Entry>)
    requires options != [] && !Missing(options[0], recs)
    requires got == [Filled(options[0], recs)] + rest
    requires FilledUpTo(options[1..], rest, k, recs)
    ensures FilledUpTo(options, got, k + 1, recs)
  {
    assert forall j :: 1 <= j < |options| ==> options[j] == options[1..][j - 1] && got[j] == rest[j - 1];
    assert got[k + 1..] == rest[k..];
    assert options[k + 1..] == options[1..][k..];
  }

  /** Record 2 + k of parse is option k's; it is a command-line option exactly when the option is optional. */
  lemma ParseRecordOf(options: seq<ConfigOption>, flags: seq<ConfigFlag>, k: nat)
    requires k < |options|
    ensures var r := ParseRecords(options, flags)[2 + k];
      && r.name == options[k].name && r.ch == options[k].shortname && r.charSet && r.nameSet
      && r.kind == (if options[k].optional then CommandOpt else CommonOpt)
  {
    assert ParseRecords(options, flags)[2 + k] == OptionRecords(options, CommandOpt)[k];
  }

  /** An optional option is registered by parse as a command-line option, so
      the resource file can never change its record: whatever the file, the
      record is the one the first command-line pass left. */
  lemma OptionalNotFromFile(options: seq<ConfigOption>, flags: seq<ConfigFlag>, argv: seq<string>,
                            k: nat, file: Option<seq<string>>)
    requires k < |options| && options[k].optional
    ensures var first := ArgsFrom(ParseRecords(options, flags), argv, 1, '=');
      ParseRecords(options, flags)[2 + k].kind == CommandOpt && AfterFile(first, file)[2 + k] == first[2 + k]
  {
    ParseRecordOf(options, flags, k);
    var first := ArgsFrom(ParseRecords(options, flags), argv, 1, '=');
    assert first[2 + k].kind == CommandOpt;
    if file.Some? {
      FileKeepsCommandRecords(first, file.value, '#', '=');
    }
  }

  /** `-h` and `--help` make both parses stop with -1. */
  lemma HelpStops(options: seq<ConfigOption>, flags: seq<ConfigFlag>, prog: string)
    ensures FlagOf(ArgsFrom(ParseRecords(options, flags), [prog, "-h"], 1, '='), ByChar('h'))
    ensures FlagOf(ArgsFrom(ParseRecords(options, flags), [prog, "--help"], 1, '='), ByChar('h'))
    ensures FlagOf(ArgsFrom(ArgsRecords(options, flags), [prog, "-h"], 1, '='), ByChar('h'))
    ensures FlagOf(ArgsFrom(ArgsRecords(options, flags), [prog, "--help"], 1, '='), ByChar('h'))
  {
    HelpStopsOn(ParseRecords(options, flags), prog);
    HelpStopsOn(ArgsRecords(options, flags), prog);
  }

  lemma HelpStopsOn(recs: seq<Entry>, prog: string)
    requires |recs| > 0 && recs[0] == HelpRecord
    ensures FlagOf(ArgsFrom(recs, [prog, "-h"], 1, '='), ByChar('h'))
    ensures FlagOf(ArgsFrom(recs, [prog, "--help"], 1, '='), ByChar('h'))
  {
    ShortHelp(recs, prog);
    LongHelp(recs, prog);
  }

  /** `-h` sets the help record, which is the first record with character 'h'. */
  lemma ShortHelp(recs: seq<Entry>, prog: string)
    requires |recs| > 0 && recs[0] == HelpRecord
    ensures FlagOf(ArgsFrom(recs, [prog, "-h"], 1, '='), ByChar('h'))
  {
    assert Hit(recs[0], ByChar('h'), CommandLineKinds);
    var raised := Raise(recs, 0);
    assert Hit(raised[0], ByChar('h'), FlagKinds);
    var short: seq<string> := [prog, "-h"];
    assert short[1][1..] == "h";
    assert MatchCharResult(recs, 'h') == Updated(raised, false);
    assert PosixFrom(recs, "h", 0, '=') == Posix(raised, '0');
    assert ArgsFrom(recs, short, 1, '=') == raised;
  }

  /** `--help` sets the same record. */
  lemma LongHelp(recs: seq<Entry>, prog: string)
    requires |recs| > 0 && recs[0] == HelpRecord
    ensures FlagOf(ArgsFrom(recs, [prog, "--help"], 1, '='), ByChar('h'))
  {
    assert Hit(recs[0], ByName("help"), CommandLineKinds);
    var raised := Raise(recs, 0);
    assert Hit(raised[0], ByChar('h'), FlagKinds);
    var long: seq<string> := [prog, "--help"];
    GnuFlag(recs, long, 1, '=', "help");
    assert ArgsFrom(raised, long, 2, '=') == raised;
  }

  /** Under the uniqueness conditions of CommandLineValueWins, option k's
      record is the first one its name and its character find. */
  lemma ParseFinds(options: seq<ConfigOption>, flags: seq<ConfigFlag>, k: nat)
    requires k < |options|
    requires options[k].name != "help" && options[k].name != "config"
    requires options[k].shortname != 'h' && options[k].shortname != 'c'
    requires forall j :: 0 <= j < k ==> options[j].name != options[k].name && options[j].shortname != options[k].shortname
    ensures var recs := ParseRecords(options, flags);
      && FirstMatch(recs, ByName(options[k].name), CommandLineKinds) == 2 + k
      && FirstMatch(recs, ByChar(options[k].shortname), OptKinds) == 2 + k
      && recs[2 + k].kind in CommandOptKinds
  {
    var o := options[k];
    var recs := ParseRecords(options, flags);
    forall i | 2 <= i < 2 + k
      ensures recs[i].name != o.name && recs[i].ch != o.shortname
    {
      ParseRecordOf(options, flags, i - 2);
    }
    ParseRecordOf(options, flags, k);
    assert Hit(recs[2 + k], ByName(o.name), CommandLineKinds);
    assert Hit(recs[2 + k], ByChar(o.shortname), OptKinds);
  }

  /** On any records where `--name` and getValue of `c` find the same option
      record, `--name value` on the command line decides what getValue gives
      after the command-line, file and command-line passes. */
  lemma OverrideReadsBack(recs: seq<Entry>, prog: string, name: string, c: char, value: string, file: Option<seq<string>>)
    requires name != [] && '=' !in name
    requires FirstMatch(recs, ByName(name), CommandLineKinds) >= 0
    requires FirstMatch(recs, ByChar(c), OptKinds) == FirstMatch(recs, ByName(name), CommandLineKinds)
    requires recs[FirstMatch(recs, ByName(name), CommandLineKinds)].kind in CommandOptKinds
    ensures var argv := [prog, "--" + name, value];
      var first := ArgsFrom(recs, argv, 1, '=');
      ValueOf(ArgsFrom(AfterFile(first, file), argv, 1, '='), ByChar(c)) == value
  {
    var first := ArgsFrom(recs, [prog, "--" + name, value], 1, '=');
    var lines := if file.Some? then file.value else [];
    assert AfterFile(first, file) == LinesResult(first, lines, '#', '=');
    OverrideOnLines(recs, prog, name, c, value, lines);
  }

  lemma OverrideOnLines(recs: seq<Entry>, prog: string, name: string, c: char, value: string, lines: seq<string>)
    requires name != [] && '=' !in name
    requires FirstMatch(recs, ByName(name), CommandLineKinds) >= 0
    requires FirstMatch(recs, ByChar(c), OptKinds) == FirstMatch(recs, ByName(name), CommandLineKinds)
    requires recs[FirstMatch(recs, ByName(name), CommandLineKinds)].kind in CommandOptKinds
    ensures var argv := [prog, "--" + name, value];
      var first := ArgsFrom(recs, argv, 1, '=');
      ValueOf(ArgsFrom(LinesResult(first, lines, '#', '='), argv, 1, '='), ByChar(c)) == value
  {
    var argv := [prog, "--" + name, value];
    var first := ArgsFrom(recs, argv, 1, '=');
    var filed := LinesResult(first, lines, '#', '=');
    var final := ArgsFrom(filed, argv, 1, '=');
    CommandLineOverridesFile(recs, prog, name, value, lines, '#', '=', '=');
    FileKeepsCommandRecords(first, lines, '#', '=');
    assert SameKeys(recs, first) && SameKeys(filed, final);
    SameKeysTrans(recs, first, filed);
    SameKeysTrans(recs, filed, final);
    ReadBack(recs, final, ByChar(c), FirstMatch(recs, ByName(name), CommandLineKinds));
  }

  /** A set record that is the first option record for `k` is what getValue answers. */
  lemma ReadBack(recs: seq<Entry>, final: seq<Entry>, k: Key, j: int)
    requires SameKeys(recs, final) && j >= 0 && FirstMatch(recs, k, OptKinds) == j && final[j].isSet
    ensures ValueOf(final, k) == final[j].value
  {
    FirstMatchSameKeys(recs, final, k, OptKinds);
  }

  /** The command line wins in parse: with `--name value` naming option k
      (whose name and character no earlier record shares), whatever the
      resource file says, getValue of its character after the second
      command-line pass is `value`. */
  lemma CommandLineValueWins(options: seq<ConfigOption>, flags: seq<ConfigFlag>, k: nat, prog: string,
                             value: string, file: Option<seq<string>>)
    requires k < |options|
    requires options[k].name != [] && '=' !in options[k].name
    requires options[k].name != "help" && options[k].name != "config"
    requires options[k].shortname != 'h' && options[k].shortname != 'c'
    requires forall j :: 0 <= j < k ==> options[j].name != options[k].name && options[j].shortname != options[k].shortname
    ensures var argv := [prog, "--" + options[k].name, value];
      var first := ArgsFrom(ParseRecords(options, flags), argv, 1, '=');
      var final := ArgsFrom(AfterFile(first, file), argv, 1, '=');
      ValueOf(final, ByChar(options[k].shortname)) == value
  {
    ParseFinds(options, flags, k);
    OverrideReadsBack(ParseRecords(options, flags), prog, options[k].name, options[k].shortname, value, file);
  }
}
