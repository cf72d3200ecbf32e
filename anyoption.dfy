/** AnyOption: a command-line and resource-file option parser over a list of
    option records. Command-line arguments are GNU long options (`--name`,
    `--name=value`, `--name value`) and POSIX clusters (`-abc`, `-ovalue`,
    `-o value`); resource-file lines are `key=value` pairs or bare flag names.
    Every lookup takes the first record that matches, and the parser updates
    the `value` and `set` fields of that record in place.

    An argv element is modelled as the characters in front of its terminating
    NUL; reading past them yields the NUL, which matches none of the characters
    the parser looks for. Each byte of an argument or of a resource-file
    line is one `char`. Printing of usage and unknown-option messages is not
    modelled. */
module AnyOptions {
  import opened Words

  /** The six option kinds of the `type` enum. */
  datatype OptType = CommonOpt | CommandOpt | FileOpt | CommonFlag | CommandFlag | FileFlag

  /** The enum's numeric values. */
  function Code(t: OptType): (n: int)
    ensures 1 <= n <= 3 <==> t in OptKinds
    ensures 4 <= n <= 6 <==> t in FlagKinds
  {
    match t
    case CommonOpt => 1
    case CommandOpt => 2
    case FileOpt => 3
    case CommonFlag => 4
    case CommandFlag => 5
    case FileFlag => 6
  }

  /** Kinds whose records carry a value, and kinds that are flags. */
  const OptKinds: set<OptType> := {CommonOpt, CommandOpt, FileOpt}
  const FlagKinds: set<OptType> := {CommonFlag, CommandFlag, FileFlag}
  /** Kinds the command line may name: options and flags. */
  const CommandLineKinds: set<OptType> := {CommonOpt, CommandOpt, CommonFlag, CommandFlag}
  /** Kinds the command line may give a value to. */
  const CommandOptKinds: set<OptType> := {CommonOpt, CommandOpt}
  /** Kinds a resource-file pair may give a value to, and kinds a bare file line may set. */
  const FileOptKinds: set<OptType> := {CommonOpt, FileOpt}
  const FileFlagKinds: set<OptType> := {CommonFlag, FileFlag}

  /** One option record. `charSet` and `nameSet` say which of `ch` and `name`
      identify the record; the other one is never read. */
  datatype Entry = Entry(name: string, ch: char, kind: OptType, charSet: bool, nameSet: bool,
                         value: string, isSet: bool)

  /** The name-and-character record. */
  function NameCharEntry(n: string, c: char, t: OptType): (e: Entry)
    ensures e.name == n && e.ch == c && e.kind == t
    ensures e.charSet && e.nameSet && !e.isSet
  {
    Entry(n, c, t, true, true, "", false)
  }

  /** The name-only record; its character is left unset (here NUL) and never read. */
  function NameEntry(n: string, t: OptType): (e: Entry)
    ensures e.name == n && e.kind == t
    ensures !e.charSet && e.nameSet && !e.isSet
  {
    Entry(n, '\0', t, false, true, "", false)
  }

  /** The character-only record; its name is the empty string and never read. */
  function CharEntry(c: char, t: OptType): (e: Entry)
    ensures e.ch == c && e.kind == t
    ensures e.charSet && !e.nameSet && !e.isSet
  {
    Entry("", c, t, true, false, "", false)
  }

  /** How a record is looked up: by long name or by option character. */
  datatype Key = ByName(n: string) | ByChar(c: char)

  predicate Matches(e: Entry, k: Key)
  {
    match k
    case ByName(n) => e.nameSet && e.name == n
    case ByChar(c) => e.charSet && e.ch == c
  }

  predicate Hit(e: Entry, k: Key, kinds: set<OptType>)
  {
    Matches(e, k) && e.kind in kinds
  }

  /** The first record from `lo` on that matches `k` with a kind in `kinds`, or -1. */
  function FirstFrom(opts: seq<Entry>, k: Key, kinds: set<OptType>, lo: nat): (r: int)
    requires lo <= |opts|
    ensures r == -1 || lo <= r < |opts|
    ensures r >= 0 ==> Hit(opts[r], k, kinds) && forall j :: lo <= j < r ==> !Hit(opts[j], k, kinds)
    ensures r == -1 ==> forall j :: lo <= j < |opts| ==> !Hit(opts[j], k, kinds)
    decreases |opts| - lo
  {
    if lo == |opts| then -1
    else if Hit(opts[lo], k, kinds) then lo
    else FirstFrom(opts, k, kinds, lo + 1)
  }

  /** The first record that matches `k` with a kind in `kinds`, or -1 when there is none. */
  function FirstMatch(opts: seq<Entry>, k: Key, kinds: set<OptType>): (r: int)
    ensures -1 <= r < |opts|
    ensures r >= 0 ==> Hit(opts[r], k, kinds) && forall j :: 0 <= j < r ==> !Hit(opts[j], k, kinds)
    ensures r == -1 <==> forall j :: 0 <= j < |opts| ==> !Hit(opts[j], k, kinds)
  {
    FirstFrom(opts, k, kinds, 0)
  }

  /** The fields that identify a record and fix its kind. */
  predicate SameKey(e: Entry, f: Entry)
  {
    e.name == f.name && e.ch == f.ch && e.kind == f.kind && e.charSet == f.charSet && e.nameSet == f.nameSet
  }

  /** `b` is `a` with at most the value and set fields changed, and only in
      records whose kind is outside `kept`. */
  predicate Keeps(a: seq<Entry>, b: seq<Entry>, kept: set<OptType>)
  {
    |a| == |b| && forall m :: 0 <= m < |a| ==> SameKey(a[m], b[m]) && (a[m].kind in kept ==> b[m] == a[m])
  }

  /** Kinds that only the resource file may touch, and kinds that only the command line may touch. */
  const FileKinds: set<OptType> := {FileOpt, FileFlag}
  const CommandKinds: set<OptType> := {CommandOpt, CommandFlag}

  /** Record `i` receives `value` and is marked set. */
  function Assign(opts: seq<Entry>, i: int, value: string): (r: seq<Entry>)
    requires 0 <= i < |opts|
    ensures |r| == |opts| && r[i].value == value && r[i].isSet
    ensures SameKey(r[i], opts[i]) && forall m :: 0 <= m < |opts| && m != i ==> r[m] == opts[m]
  {
    opts[i := opts[i].(value := value, isSet := true)]
  }

  /** Record `i` is marked set. */
  function Raise(opts: seq<Entry>, i: int): (r: seq<Entry>)
    requires 0 <= i < |opts|
    ensures |r| == |opts| && r[i].isSet && r[i].value == opts[i].value
    ensures SameKey(r[i], opts[i]) && forall m :: 0 <= m < |opts| && m != i ==> r[m] == opts[m]
  {
    opts[i := opts[i].(isSet := true)]
  }

  // ---------------------------------------------------------------------------
  // Specification of the command-line operations

  /** The records after a lookup and what the lookup found: the index of an
      option record, or -1. */
  datatype Matched = Matched(opts: seq<Entry>, found: int)

  /** matchOpt: the first record named `name` among options and flags of the
      command line; a flag found is set on the spot and -1 returned. */
  function MatchOptResult(opts: seq<Entry>, name: string): (m: Matched)
    ensures |m.opts| == |opts| && -1 <= m.found < |opts|
    ensures Keeps(opts, m.opts, FileKinds)
    ensures m.found >= 0 ==> m.opts == opts && m.opts[m.found].name == name
                             && m.opts[m.found].kind in CommandOptKinds
  {
    var i := FirstMatch(opts, ByName(name), CommandLineKinds);
    if i < 0 then Matched(opts, -1)
    else if opts[i].kind in CommandOptKinds then Matched(opts, i)
    else Matched(Raise(opts, i), -1)
  }

  /** The records after an update and whether a record took the value. */
  datatype Updated = Updated(opts: seq<Entry>, ok: bool)

  /** matchChar: whether the first command-line record with character `c` is
      an option; a flag found is set on the spot. */
  function MatchCharResult(opts: seq<Entry>, c: char): (u: Updated)
    ensures |u.opts| == |opts| && Keeps(opts, u.opts, FileKinds)
    ensures u.ok ==> u.opts == opts
  {
    var i := FirstMatch(opts, ByChar(c), CommandLineKinds);
    if i < 0 then Updated(opts, false)
    else if opts[i].kind in CommandOptKinds then Updated(opts, true)
    else Updated(Raise(opts, i), false)
  }

  /** setValue by name: the record matchOpt finds takes `value`. */
  function SetValueByName(opts: seq<Entry>, name: string, value: string): (u: Updated)
    ensures |u.opts| == |opts| && Keeps(opts, u.opts, FileKinds)
  {
    var m := MatchOptResult(opts, name);
    if m.found < 0 then Updated(m.opts, false)
    else Updated(Assign(m.opts, m.found, value), true)
  }

  /** setValue by character: the first command-line option (not flag) record
      with character `c` takes `value`. */
  function SetValueByChar(opts: seq<Entry>, c: char, value: string): (u: Updated)
    ensures |u.opts| == |opts| && Keeps(opts, u.opts, FileKinds)
  {
    var i := FirstMatch(opts, ByChar(c), CommandOptKinds);
    if i < 0 then Updated(opts, false) else Updated(Assign(opts, i, value), true)
  }

  /** The index of the first `c` in `s`, or |s| when there is none. */
  function FirstIndex(s: string, c: char): (r: nat)
    ensures r <= |s| && (r < |s| ==> s[r] == c)
    ensures forall j :: 0 <= j < r ==> s[j] != c
  {
    if s == [] then 0 else if s[0] == c then 0 else 1 + FirstIndex(s[1..], c)
  }

  /** Where parseGNU splits: the index of the first equals sign, or 0 when there is none. */
  function SplitAt(arg: string, eq: char): (k: nat)
    ensures k < |arg| || k == 0
  {
    var i := FirstIndex(arg, eq);
    if i < |arg| then i else 0
  }

  /** The records after parseGNU and the option name it returns ("" for none). */
  datatype Gnu = Gnu(opts: seq<Entry>, name: string)

  /** parseGNU on the text after "--": a `name=value` text (split at the first
      equals sign, when that sign is not the first character) sets the value at
      once; any other text is looked up whole by matchOpt, and an option's name
      is returned so that the next argument becomes its value. */
  function ParseGnuResult(opts: seq<Entry>, arg: string, eq: char): (g: Gnu)
    ensures |g.opts| == |opts| && Keeps(opts, g.opts, FileKinds)
  {
    var k := SplitAt(arg, eq);
    if k > 0 then Gnu(SetValueByName(opts, arg[..k], arg[k + 1..]).opts, "")
    else
      var m := MatchOptResult(opts, arg);
      Gnu(m.opts, if m.found < 0 then "" else m.opts[m.found].name)
  }

  /** The first index from `j` on holding neither a space nor `eq`. */
  function SkipFill(arg: string, j: nat, eq: char): (r: nat)
    requires j <= |arg|
    ensures j <= r <= |arg|
    ensures forall m :: j <= m < r ==> arg[m] == ' ' || arg[m] == eq
    ensures r < |arg| ==> arg[r] != ' ' && arg[r] != eq
    decreases |arg| - j
  {
    if j < |arg| && (arg[j] == ' ' || arg[j] == eq) then SkipFill(arg, j + 1, eq) else j
  }

  /** The records after parsePOSIX and the character it returns ('0' for none). */
  datatype Posix = Posix(opts: seq<Entry>, ch: char)

  /** parsePOSIX on the text after "-", from position `i`: flag characters are
      set and scanning goes on; the first option character takes the rest of the
      text after spaces and equals signs, or, when it is the last character, is
      returned so that the next argument becomes its value. */
  function PosixFrom(opts: seq<Entry>, arg: string, i: nat, eq: char): (p: Posix)
    ensures |p.opts| == |opts| && Keeps(opts, p.opts, FileKinds)
    decreases |arg| - i
  {
    if i >= |arg| then Posix(opts, '0')
    else
      var m := MatchCharResult(opts, arg[i]);
      if !m.ok then PosixFrom(m.opts, arg, i + 1, eq)
      else if i == |arg| - 1 then Posix(m.opts, arg[i])
      else Posix(SetValueByChar(m.opts, arg[i], arg[SkipFill(arg, i + 1, eq)..]).opts, '0')
  }

  predicate IsLong(a: string)
  {
    |a| >= 2 && a[0] == '-' && a[1] == '-'
  }

  predicate IsShort(a: string)
  {
    |a| >= 1 && a[0] == '-'
  }

  /** processCommandArgs from argument `i` on (it starts at 1: argv[0] is the
      program). A returned option name or character takes the next argument as
      its value, when there is one; anything not starting with '-' is skipped. */
  function ArgsFrom(opts: seq<Entry>, args: seq<string>, i: nat, eq: char): (r: seq<Entry>)
    ensures |r| == |opts| && Keeps(opts, r, FileKinds)
    decreases |args| - i
  {
    if i >= |args| then opts
    else if IsLong(args[i]) then
      var g := ParseGnuResult(opts, args[i][2..], eq);
      if |g.name| > 0 && i < |args| - 1 then ArgsFrom(SetValueByName(g.opts, g.name, args[i + 1]).opts, args, i + 2, eq)
      else ArgsFrom(g.opts, args, i + 1, eq)
    else if IsShort(args[i]) then
      var p := PosixFrom(opts, args[i][1..], 0, eq);
      if p.ch != '0' && i < |args| - 1 then ArgsFrom(SetValueByChar(p.opts, p.ch, args[i + 1]).opts, args, i + 2, eq)
      else ArgsFrom(p.opts, args, i + 1, eq)
    else ArgsFrom(opts, args, i + 1, eq)
  }

  // ---------------------------------------------------------------------------
  // Specification of the resource-file operations

  /** The characters removed from a resource-file line wherever they occur. */
  predicate IsBlank(c: char)
  {
    c == '\r' || c == '\t' || c == ' ' || c == '\n'
  }

  /** The line with every blank character removed, the others kept in order. */
  function StripBlanks(s: string): (r: string)
    ensures |r| <= |s|
    ensures forall i :: 0 <= i < |r| ==> !IsBlank(r[i])
  {
    if s == [] then []
    else StripBlanks(s[..|s| - 1]) + (if IsBlank(s[|s| - 1]) then [] else [s[|s| - 1]])
  }

  /** How often `c` occurs in `s`. */
  function Count(s: string, c: char): (n: nat)
    ensures n == 0 <==> c !in s
    ensures n <= |s|
  {
    if s == [] then 0 else (if s[0] == c then 1 else 0) + Count(s[1..], c)
  }

  /** valuePairs: a one-character key first names the first option character
      of a common or file option; otherwise (or failing that) the key names the
      first such record by name. Unknown keys change nothing. */
  function ValuePairsResult(opts: seq<Entry>, key: string, value: string): (r: seq<Entry>)
    ensures |r| == |opts| && Keeps(opts, r, CommandKinds)
  {
    var i := if |key| == 1 then FirstMatch(opts, ByChar(key[0]), FileOptKinds) else -1;
    if i >= 0 then Assign(opts, i, value)
    else
      var j := FirstMatch(opts, ByName(key), FileOptKinds);
      if j >= 0 then Assign(opts, j, value) else opts
  }

  /** justValue: the same lookup among common and file flags, which are set. */
  function JustValueResult(opts: seq<Entry>, key: string): (r: seq<Entry>)
    ensures |r| == |opts| && Keeps(opts, r, CommandKinds)
  {
    var i := if |key| == 1 then FirstMatch(opts, ByChar(key[0]), FileFlagKinds) else -1;
    if i >= 0 then Raise(opts, i)
    else
      var j := FirstMatch(opts, ByName(key), FileFlagKinds);
      if j >= 0 then Raise(opts, j) else opts
  }

  /** processLine: blanks are removed; an empty line or one starting with the
      comment character is ignored; no delimiter makes a flag line, exactly one
      a key/value pair split at it, and more than one is ignored. */
  function LineResult(opts: seq<Entry>, line: string, comment: char, delimiter: char): (r: seq<Entry>)
    ensures |r| == |opts| && Keeps(opts, r, CommandKinds)
  {
    var s := StripBlanks(line);
    if |s| == 0 || s[0] == comment then opts
    else
      var n := Count(s, delimiter);
      if n == 0 then JustValueResult(opts, s)
      else if n == 1 then
        var pos := FirstIndex(s, delimiter);
        if pos == |s| then opts else ValuePairsResult(opts, s[..pos], s[pos + 1..])
      else opts
  }

  /** The resource file's lines processed in order. */
  function LinesResult(opts: seq<Entry>, lines: seq<string>, comment: char, delimiter: char): (r: seq<Entry>)
    ensures |r| == |opts| && Keeps(opts, r, CommandKinds)
    decreases |lines|
  {
    if lines == [] then opts
    else LinesResult(LineResult(opts, lines[0], comment, delimiter), lines[1..], comment, delimiter)
  }

  // ---------------------------------------------------------------------------
  // Specification of the getters

  /** getValue: the value of the first option record matching `k`, when that
      record was set, and "" otherwise. */
  function ValueOf(opts: seq<Entry>, k: Key): string
  {
    var i := FirstMatch(opts, k, OptKinds);
    if i >= 0 && opts[i].isSet then opts[i].value else ""
  }

  /** getFlag: whether the first flag record matching `k` was set. */
  predicate FlagOf(opts: seq<Entry>, k: Key)
  {
    var i := FirstMatch(opts, k, FlagKinds);
    i >= 0 && opts[i].isSet
  }

  // ---------------------------------------------------------------------------
  // The parser object

  class AnyOption {
    var options: seq<Entry>
    var usage: seq<string>
    const equalsign: char
    var comment: char
    var delimiter: char

    constructor ()
      ensures options == [] && usage == []
      ensures equalsign == '=' && comment == '#' && delimiter == '='
    {
      options := [];
      usage := [];
      equalsign := '=';
      comment := '#';
      delimiter := '=';
    }

    method SetFileCommentChar(c: char)
      modifies this`comment
      ensures comment == c
    {
      comment := c;
    }

    method SetFileDelimiterChar(c: char)
      modifies this`delimiter
      ensures delimiter == c
    {
      delimiter := c;
    }

    /** addOption(name, type): appends a name-only record. */
    method AddNameOption(name: string, t: OptType)
      modifies this`options
      ensures options == old(options) + [NameEntry(name, t)]
    {
      options := options + [NameEntry(name, t)];
    }

    /** addOption(char, type): appends a character-only record. */
    method AddCharOption(c: char, t: OptType)
      modifies this`options
      ensures options == old(options) + [CharEntry(c, t)]
    {
      options := options + [CharEntry(c, t)];
    }

    /** addOption(name, char, type): appends a record known by both. */
    method AddOption(name: string, c: char, t: OptType)
      modifies this`options
      ensures options == old(options) + [NameCharEntry(name, c, t)]
    {
      options := options + [NameCharEntry(name, c, t)];
    }

    method AddUsage(line: string)
      modifies this`usage
      ensures usage == old(usage) + [line]
    {
      usage := usage + [line];
    }

    /** The scan over the records that every lookup performs: the index of the
        first record matching `k` with a kind in `kinds`, or -1. */
    method FindEntry(k: Key, kinds: set<OptType>) returns (idx: int)
      ensures -1 <= idx < |options|
      ensures idx >= 0 ==> Hit(options[idx], k, kinds)
      ensures forall j :: 0 <= j < |options| && (idx == -1 || j < idx) ==> !Hit(options[j], k, kinds)
    {
      for i := 0 to |options|
        invariant forall j :: 0 <= j < i ==> !Hit(options[j], k, kinds)
      {
        if Matches(options[i], k) && options[i].kind in kinds {
          return i;
        }
      }
      return -1;
    }

    /** matchOpt: returns the index of the option record, or -1. */
    method MatchOpt(name: string) returns (found: int)
      modifies this`options
      ensures var m := MatchOptResult(old(options), name); options == m.opts && found == m.found
    {
      var i := FindEntry(ByName(name), CommandLineKinds);
      assert i == FirstMatch(options, ByName(name), CommandLineKinds);
      if i >= 0 {
        if options[i].kind in CommandOptKinds {
          return i;
        }
        options := options[i := options[i].(isSet := true)];
      }
      return -1;
    }

    method MatchChar(c: char) returns (isOption: bool)
      modifies this`options
      ensures var u := MatchCharResult(old(options), c); options == u.opts && isOption == u.ok
    {
      var i := FindEntry(ByChar(c), CommandLineKinds);
      assert i == FirstMatch(options, ByChar(c), CommandLineKinds);
      if i >= 0 {
        if options[i].kind in CommandOptKinds {
          return true;
        }
        options := options[i := options[i].(isSet := true)];
      }
      return false;
    }

    /** setValue(name, value). */
    method SetValueName(name: string, value: string) returns (ok: bool)
      modifies this`options
      ensures var u := SetValueByName(old(options), name, value); options == u.opts && ok == u.ok
    {
      var found := MatchOpt(name);
      if found < 0 {
        return false;
      }
      options := options[found := options[found].(value := value, isSet := true)];
      return true;
    }

    /** setValue(char, value). */
    method SetValueChar(c: char, value: string) returns (ok: bool)
      modifies this`options
      ensures var u := SetValueByChar(old(options), c, value); options == u.opts && ok == u.ok
    {
      var i := FindEntry(ByChar(c), CommandOptKinds);
      assert i == FirstMatch(options, ByChar(c), CommandOptKinds);
      if i < 0 {
        return false;
      }
      options := options[i := options[i].(value := value, isSet := true)];
      return true;
    }

    method ParseGnu(arg: string) returns (matched: string)
      modifies this`options
      ensures var g := ParseGnuResult(old(options), arg, equalsign); options == g.opts && matched == g.name
    {
      var splitAt := 0;
      var i := 0;
      while i < |arg|
        invariant 0 <= i <= |arg|
        invariant (splitAt == 0 && forall j :: 0 <= j < i ==> arg[j] != equalsign)
                  || (i == |arg| && splitAt == SplitAt(arg, equalsign))
      {
        if arg[i] == equalsign {
          splitAt := i;
          assert FirstIndex(arg, equalsign) == i;
          i := |arg|;
        } else {
          i := i + 1;
        }
      }
      assert splitAt == SplitAt(arg, equalsign);
      if splitAt > 0 {
        var ok := SetValueName(arg[..splitAt], arg[splitAt + 1..]);
        return "";
      }
      var found := MatchOpt(arg);
      if found < 0 {
        return "";
      }
      return options[found].name;
    }

    method ParsePosix(arg: string) returns (ch: char)
      modifies this`options
      ensures var p := PosixFrom(old(options), arg, 0, equalsign); options == p.opts && ch == p.ch
    {
      var i := 0;
      while i < |arg|
        invariant 0 <= i <= |arg|
        invariant PosixFrom(options, arg, i, equalsign) == PosixFrom(old(options), arg, 0, equalsign)
      {
        var c := arg[i];
        var isOption := MatchChar(c);
        if isOption {
          if i == |arg| - 1 {
            return c;
          }
          var j := i + 1;
          while j < |arg| && (arg[j] == ' ' || arg[j] == equalsign)
            invariant i + 1 <= j <= |arg|
            invariant SkipFill(arg, j, equalsign) == SkipFill(arg, i + 1, equalsign)
          {
            j := j + 1;
          }
          var ok := SetValueChar(c, arg[j..]);
          return '0';
        }
        i := i + 1;
      }
      return '0';
    }

    /** processCommandArgs over argv (argc is its length). */
    method ProcessCommandArgs(argv: seq<string>)
      modifies this`options
      ensures options == ArgsFrom(old(options), argv, 1, equalsign)
    {
      var i := 1;
      while i < |argv|
        invariant 1 <= i
        invariant ArgsFrom(options, argv, i, equalsign) == ArgsFrom(old(options), argv, 1, equalsign)
        decreases |argv| - i
      {
        var a := argv[i];
        if |a| >= 2 && a[0] == '-' && a[1] == '-' {
          var matched := ParseGnu(a[2..]);
          if |matched| > 0 && i < |argv| - 1 {
            i := i + 1;
            var ok := SetValueName(matched, argv[i]);
          }
        } else if |a| >= 1 && a[0] == '-' {
          var ch := ParsePosix(a[1..]);
          if ch != '0' && i < |argv| - 1 {
            i := i + 1;
            var ok := SetValueChar(ch, argv[i]);
          }
        }
        i := i + 1;
      }
    }

    method ValuePairs(key: string, value: string)
      modifies this`options
      ensures options == ValuePairsResult(old(options), key, value)
    {
      if |key| == 1 {
        var i := FindEntry(ByChar(key[0]), FileOptKinds);
        assert i == FirstMatch(options, ByChar(key[0]), FileOptKinds);
        if i >= 0 {
          options := options[i := options[i].(isSet := true, value := value)];
          return;
        }
      }
      var j := FindEntry(ByName(key), FileOptKinds);
      assert j == FirstMatch(options, ByName(key), FileOptKinds);
      if j >= 0 {
        options := options[j := options[j].(isSet := true, value := value)];
      }
    }

    method JustValue(key: string)
      modifies this`options
      ensures options == JustValueResult(old(options), key)
    {
      if |key| == 1 {
        var i := FindEntry(ByChar(key[0]), FileFlagKinds);
        assert i == FirstMatch(options, ByChar(key[0]), FileFlagKinds);
        if i >= 0 {
          options := options[i := options[i].(isSet := true)];
          return;
        }
      }
      var j := FindEntry(ByName(key), FileFlagKinds);
      assert j == FirstMatch(options, ByName(key), FileFlagKinds);
      if j >= 0 {
        options := options[j := options[j].(isSet := true)];
      }
    }

    method ProcessLine(line: string)
      modifies this`options
      ensures options == LineResult(old(options), line, comment, delimiter)
    {
      var s := "";
      for k := 0 to |line|
        invariant s == StripBlanks(line[..k])
      {
        assert line[..k + 1][..k] == line[..k];
        if !IsBlank(line[k]) {
          s := s + [line[k]];
        }
      }
      assert line[..|line|] == line;
      if |s| == 0 || s[0] == comment {
        return;
      }
      var n := Count(s, delimiter);
      if n == 0 {
        JustValue(s);
      } else if n == 1 {
        var pos := FirstIndex(s, delimiter);
        if pos == |s| {
          return;
        }
        ValuePairs(s[..pos], s[pos + 1..]);
      }
    }

    /** processFile, with the file given as its lines; None when it cannot be opened. */
    method ProcessFile(file: Option<seq<string>>) returns (ok: bool)
      modifies this`options
      ensures ok == file.Some?
      ensures options == if file.Some? then LinesResult(old(options), file.value, comment, delimiter) else old(options)
    {
      if file.None? {
        return false;
      }
      var lines := file.value;
      for k := 0 to |lines|
        invariant LinesResult(options, lines[k..], comment, delimiter) == LinesResult(old(options), lines, comment, delimiter)
      {
        assert lines[k..][1..] == lines[k + 1..];
        ProcessLine(lines[k]);
      }
      return true;
    }

    /** getValue(name). */
    method GetValue(name: string) returns (v: string)
      ensures v == ValueOf(options, ByName(name))
    {
      var i := FindEntry(ByName(name), OptKinds);
      assert i == FirstMatch(options, ByName(name), OptKinds);
      if i >= 0 && options[i].isSet {
        return options[i].value;
      }
      return "";
    }

    /** getValue(char). */
    method GetValueChar(c: char) returns (v: string)
      ensures v == ValueOf(options, ByChar(c))
    {
      var i := FindEntry(ByChar(c), OptKinds);
      assert i == FirstMatch(options, ByChar(c), OptKinds);
      if i >= 0 && options[i].isSet {
        return options[i].value;
      }
      return "";
    }

    /** getFlag(name). */
    method GetFlag(name: string) returns (b: bool)
      ensures b == FlagOf(options, ByName(name))
    {
      var i := FindEntry(ByName(name), FlagKinds);
      assert i == FirstMatch(options, ByName(name), FlagKinds);
      return i >= 0 && options[i].isSet;
    }

    /** getFlag(char). */
    method GetFlagChar(c: char) returns (b: bool)
      ensures b == FlagOf(options, ByChar(c))
    {
      var i := FindEntry(ByChar(c), FlagKinds);
      assert i == FirstMatch(options, ByChar(c), FlagKinds);
      return i >= 0 && options[i].isSet;
    }
  }
}
