/** Properties of the AnyOption specification: what a command-line argument or a
    resource-file line does to the option records, and what the getters then
    answer. */
module AnyOptionFacts {
  import opened AnyOptions

  /** Two record lists that agree on every record's identifying fields. */
  predicate SameKeys(a: seq<Entry>, b: seq<Entry>)
  {
    |a| == |b| && forall m :: 0 <= m < |a| ==> SameKey(a[m], b[m])
  }

  /** Lookups see only the identifying fields, so updates of values and set
      marks never change which record a lookup finds. */
  lemma {:induction false} FirstFromSameKeys(a: seq<Entry>, b: seq<Entry>, k: Key, kinds: set<OptType>, lo: nat)
    requires SameKeys(a, b) && lo <= |a|
    ensures FirstFrom(a, k, kinds, lo) == FirstFrom(b, k, kinds, lo)
    decreases |a| - lo
  {
    if lo < |a| {
      assert Hit(a[lo], k, kinds) == Hit(b[lo], k, kinds);
      FirstFromSameKeys(a, b, k, kinds, lo + 1);
    }
  }

  lemma FirstMatchSameKeys(a: seq<Entry>, b: seq<Entry>, k: Key, kinds: set<OptType>)
    requires SameKeys(a, b)
    ensures FirstMatch(a, k, kinds) == FirstMatch(b, k, kinds)
  {
    FirstFromSameKeys(a, b, k, kinds, 0);
  }

  /** When the first record for `k` among the kinds `wide` has a kind in the
      narrower set `narrow`, it is also the first record among `narrow`. */
  lemma FirstMatchNarrow(opts: seq<Entry>, k: Key, wide: set<OptType>, narrow: set<OptType>)
    requires narrow <= wide
    requires FirstMatch(opts, k, wide) >= 0 && opts[FirstMatch(opts, k, wide)].kind in narrow
    ensures FirstMatch(opts, k, narrow) == FirstMatch(opts, k, wide)
  {
    var j := FirstMatch(opts, k, wide);
    assert Hit(opts[j], k, narrow);
    assert forall m :: 0 <= m < j ==> !Hit(opts[m], k, narrow);
  }

  // ---------------------------------------------------------------------------
  // Getters

  /** A value assigned to the first option record for `k` is what getValue answers. */
  lemma ValueOfAssigned(opts: seq<Entry>, k: Key, v: string)
    requires FirstMatch(opts, k, OptKinds) >= 0
    ensures ValueOf(Assign(opts, FirstMatch(opts, k, OptKinds), v), k) == v
  {
    var j := FirstMatch(opts, k, OptKinds);
    FirstMatchSameKeys(opts, Assign(opts, j, v), k, OptKinds);
  }

  /** Setting the first flag record for `k` makes getFlag answer true. */
  lemma FlagOfRaised(opts: seq<Entry>, k: Key)
    requires FirstMatch(opts, k, FlagKinds) >= 0
    ensures FlagOf(Raise(opts, FirstMatch(opts, k, FlagKinds)), k)
  {
    var j := FirstMatch(opts, k, FlagKinds);
    FirstMatchSameKeys(opts, Raise(opts, j), k, FlagKinds);
  }

  /** getValue answers "" when the first option record for `k` is unset,
      whatever later records hold, and when no option record matches. */
  lemma ValueOfUnset(opts: seq<Entry>, k: Key)
    requires FirstMatch(opts, k, OptKinds) == -1 || !opts[FirstMatch(opts, k, OptKinds)].isSet
    ensures ValueOf(opts, k) == ""
  {
  }

  // ---------------------------------------------------------------------------
  // Command line

  /** `--name value`, with `name` naming an option: the next argument becomes
      its value, whatever it held before, and is consumed. */
  lemma GnuSeparateValue(opts: seq<Entry>, args: seq<string>, i: nat, eq: char, name: string)
    requires i + 1 < |args| && args[i] == "--" + name && name != [] && eq !in name
    requires FirstMatch(opts, ByName(name), CommandLineKinds) >= 0
    requires opts[FirstMatch(opts, ByName(name), CommandLineKinds)].kind in CommandOptKinds
    ensures ArgsFrom(opts, args, i, eq)
            == ArgsFrom(Assign(opts, FirstMatch(opts, ByName(name), CommandLineKinds), args[i + 1]), args, i + 2, eq)
  {
    assert args[i][2..] == name;
    assert SplitAt(name, eq) == 0;
  }

  /** `--name=value`, split at the first equals sign: the option takes the value
      and the next argument is left alone. */
  lemma GnuInlineValue(opts: seq<Entry>, args: seq<string>, i: nat, eq: char, name: string, v: string)
    requires i < |args| && args[i] == "--" + name + [eq] + v && name != [] && eq !in name
    requires FirstMatch(opts, ByName(name), CommandLineKinds) >= 0
    requires opts[FirstMatch(opts, ByName(name), CommandLineKinds)].kind in CommandOptKinds
    ensures ArgsFrom(opts, args, i, eq)
            == ArgsFrom(Assign(opts, FirstMatch(opts, ByName(name), CommandLineKinds), v), args, i + 1, eq)
  {
    var text := name + [eq] + v;
    assert args[i][2..] == text;
    PairLineSplit(name, v, eq);
    assert SplitAt(text, eq) == |name|;
    var g := ParseGnuResult(opts, text, eq);
    assert g == Gnu(SetValueByName(opts, name, v).opts, "");
    GnuReturnsNothing(opts, args, i, eq, g);
  }

  /** A long argument for which parseGNU returns no name leaves the next argument alone. */
  lemma GnuReturnsNothing(opts: seq<Entry>, args: seq<string>, i: nat, eq: char, g: Gnu)
    requires i < |args| && IsLong(args[i])
    requires ParseGnuResult(opts, args[i][2..], eq) == g && g.name == ""
    ensures ArgsFrom(opts, args, i, eq) == ArgsFrom(g.opts, args, i + 1, eq)
  {
  }

  /** `--flag`: the flag is set and no argument is consumed. */
  lemma GnuFlag(opts: seq<Entry>, args: seq<string>, i: nat, eq: char, name: string)
    requires i < |args| && args[i] == "--" + name && eq !in name
    requires FirstMatch(opts, ByName(name), CommandLineKinds) >= 0
    requires opts[FirstMatch(opts, ByName(name), CommandLineKinds)].kind !in CommandOptKinds
    ensures ArgsFrom(opts, args, i, eq)
            == ArgsFrom(Raise(opts, FirstMatch(opts, ByName(name), CommandLineKinds)), args, i + 1, eq)
  {
    assert args[i][2..] == name;
    assert SplitAt(name, eq) == 0;
  }

  /** `-c value`, with `c` the character of an option: the next argument
      becomes its value and is consumed. */
  lemma PosixSeparateValue(opts: seq<Entry>, args: seq<string>, i: nat, eq: char, c: char)
    requires i + 1 < |args| && args[i] == ['-', c] && c != '0' && c != '-'
    requires FirstMatch(opts, ByChar(c), CommandLineKinds) >= 0
    requires opts[FirstMatch(opts, ByChar(c), CommandLineKinds)].kind in CommandOptKinds
    ensures ArgsFrom(opts, args, i, eq)
            == ArgsFrom(Assign(opts, FirstMatch(opts, ByChar(c), CommandLineKinds), args[i + 1]), args, i + 2, eq)
  {
    assert args[i][1..] == [c];
    assert MatchCharResult(opts, c) == Updated(opts, true);
    assert PosixFrom(opts, [c], 0, eq) == Posix(opts, c);
    FirstMatchNarrow(opts, ByChar(c), CommandLineKinds, CommandOptKinds);
  }

  /** `-cvalue` (also `-c=value`, `-c value` in one argument): the option
      takes the rest of the argument after spaces and equals signs. */
  lemma PosixAttachedValue(opts: seq<Entry>, args: seq<string>, i: nat, eq: char, c: char, fill: string, v: string)
    requires i < |args| && args[i] == ['-', c] + fill + v && c != '-'
    requires forall m :: 0 <= m < |fill| ==> fill[m] == ' ' || fill[m] == eq
    requires v != [] && v[0] != ' ' && v[0] != eq
    requires FirstMatch(opts, ByChar(c), CommandLineKinds) >= 0
    requires opts[FirstMatch(opts, ByChar(c), CommandLineKinds)].kind in CommandOptKinds
    ensures ArgsFrom(opts, args, i, eq)
            == ArgsFrom(Assign(opts, FirstMatch(opts, ByChar(c), CommandLineKinds), v), args, i + 1, eq)
  {
    assert args[i][1..] == [c] + fill + v;
    PosixAttached(opts, c, fill, v, eq);
    FirstMatchNarrow(opts, ByChar(c), CommandLineKinds, CommandOptKinds);
  }

  lemma PosixAttached(opts: seq<Entry>, c: char, fill: string, v: string, eq: char)
    requires forall m :: 0 <= m < |fill| ==> fill[m] == ' ' || fill[m] == eq
    requires v != [] && v[0] != ' ' && v[0] != eq
    requires MatchCharResult(opts, c).ok
    ensures PosixFrom(opts, [c] + fill + v, 0, eq) == Posix(SetValueByChar(opts, c, v).opts, '0')
  {
    var text := [c] + fill + v;
    assert text[1..] == fill + v;
    SkipFillOver(text, 1, fill, v, eq);
    assert text[1 + |fill|..] == v;
  }

  lemma {:induction false} SkipFillOver(text: string, j: nat, fill: string, v: string, eq: char)
    requires j + |fill| + |v| == |text| && text[j..] == fill + v
    requires forall m :: 0 <= m < |fill| ==> fill[m] == ' ' || fill[m] == eq
    requires v != [] && v[0] != ' ' && v[0] != eq
    ensures SkipFill(text, j, eq) == j + |fill|
    decreases |fill|
  {
    assert text[j] == (fill + v)[0];
    if fill != [] {
      assert text[j + 1..] == fill[1..] + v;
      SkipFillOver(text, j + 1, fill[1..], v, eq);
    }
  }

  /** `-fc value`: the flag `f` is set, scanning goes on, and the option `c`
      takes the next argument. */
  lemma PosixFlagThenOption(opts: seq<Entry>, args: seq<string>, i: nat, eq: char, f: char, c: char)
    requires i + 1 < |args| && args[i] == ['-', f, c] && c != '0' && f != '-'
    requires FirstMatch(opts, ByChar(f), CommandLineKinds) >= 0
    requires opts[FirstMatch(opts, ByChar(f), CommandLineKinds)].kind !in CommandOptKinds
    requires FirstMatch(opts, ByChar(c), CommandLineKinds) >= 0
    requires opts[FirstMatch(opts, ByChar(c), CommandLineKinds)].kind in CommandOptKinds
    ensures var raised := Raise(opts, FirstMatch(opts, ByChar(f), CommandLineKinds));
      ArgsFrom(opts, args, i, eq)
      == ArgsFrom(Assign(raised, FirstMatch(opts, ByChar(c), CommandLineKinds), args[i + 1]), args, i + 2, eq)
  {
    assert args[i][1..] == [f, c];
    FlagThenOptionScan(opts, eq, f, c);
    var raised := Raise(opts, FirstMatch(opts, ByChar(f), CommandLineKinds));
    var jc := FirstMatch(opts, ByChar(c), CommandLineKinds);
    PosixReturns(opts, args, i, eq, raised, c);
    assert SetValueByChar(raised, c, args[i + 1]) == Updated(Assign(raised, jc, args[i + 1]), true);
  }

  /** A short argument whose scan returns an option character gives the next argument to that option. */
  lemma PosixReturns(opts: seq<Entry>, args: seq<string>, i: nat, eq: char, q: seq<Entry>, c: char)
    requires i + 1 < |args| && IsShort(args[i]) && !IsLong(args[i])
    requires PosixFrom(opts, args[i][1..], 0, eq) == Posix(q, c) && c != '0'
    ensures ArgsFrom(opts, args, i, eq) == ArgsFrom(SetValueByChar(q, c, args[i + 1]).opts, args, i + 2, eq)
  {
  }

  /** The scan of `fc` inside parsePOSIX: the flag is raised and `c` is returned. */
  lemma FlagThenOptionScan(opts: seq<Entry>, eq: char, f: char, c: char)
    requires c != '0'
    requires FirstMatch(opts, ByChar(f), CommandLineKinds) >= 0
    requires opts[FirstMatch(opts, ByChar(f), CommandLineKinds)].kind !in CommandOptKinds
    requires FirstMatch(opts, ByChar(c), CommandLineKinds) >= 0
    requires opts[FirstMatch(opts, ByChar(c), CommandLineKinds)].kind in CommandOptKinds
    ensures PosixFrom(opts, [f, c], 0, eq) == Posix(Raise(opts, FirstMatch(opts, ByChar(f), CommandLineKinds)), c)
    ensures FirstMatch(Raise(opts, FirstMatch(opts, ByChar(f), CommandLineKinds)), ByChar(c), CommandOptKinds)
            == FirstMatch(opts, ByChar(c), CommandLineKinds)
  {
    var jf := FirstMatch(opts, ByChar(f), CommandLineKinds);
    var raised := Raise(opts, jf);
    assert SameKeys(opts, raised);
    FirstMatchSameKeys(opts, raised, ByChar(c), CommandLineKinds);
    FirstMatchNarrow(raised, ByChar(c), CommandLineKinds, CommandOptKinds);
    assert MatchCharResult(opts, f) == Updated(raised, false);
    assert MatchCharResult(raised, c) == Updated(raised, true);
    assert PosixFrom(raised, [f, c], 1, eq) == Posix(raised, c);
  }

  /** An option whose character is '0' cannot take the next argument: `-0 v`
      returns the character '0', which is also parsePOSIX's "nothing" answer,
      so `v` is not consumed as its value. */
  lemma PosixZeroCharTakesNoValue(opts: seq<Entry>, args: seq<string>, i: nat, eq: char)
    requires i + 1 < |args| && args[i] == "-0"
    requires FirstMatch(opts, ByChar('0'), CommandLineKinds) >= 0
    requires opts[FirstMatch(opts, ByChar('0'), CommandLineKinds)].kind in CommandOptKinds
    ensures ArgsFrom(opts, args, i, eq) == ArgsFrom(opts, args, i + 1, eq)
  {
    assert args[i][1..] == ['0'];
  }

  /** `--name` as the last argument, with `name` naming an option: there is no
      next argument to take, so no record changes. */
  lemma GnuLastTakesNothing(opts: seq<Entry>, args: seq<string>, eq: char, name: string)
    requires |args| >= 1 && args[|args| - 1] == "--" + name && name != [] && eq !in name
    requires FirstMatch(opts, ByName(name), CommandLineKinds) >= 0
    requires opts[FirstMatch(opts, ByName(name), CommandLineKinds)].kind in CommandOptKinds
    ensures ArgsFrom(opts, args, |args| - 1, eq) == opts
  {
    assert args[|args| - 1][2..] == name;
  }

  /** `-c` as the last argument, with `c` the character of an option: there is
      no next argument to take, so no record changes. */
  lemma PosixLastTakesNothing(opts: seq<Entry>, args: seq<string>, eq: char, c: char)
    requires |args| >= 1 && args[|args| - 1] == ['-', c] && c != '0' && c != '-'
    requires FirstMatch(opts, ByChar(c), CommandLineKinds) >= 0
    requires opts[FirstMatch(opts, ByChar(c), CommandLineKinds)].kind in CommandOptKinds
    ensures ArgsFrom(opts, args, |args| - 1, eq) == opts
  {
    var i := |args| - 1;
    assert args[i][1..] == [c];
  }

  /** Only the arguments from `i` on matter. */
  lemma {:induction false} ArgsFromSuffix(opts: seq<Entry>, a: seq<string>, b: seq<string>, i: nat, eq: char)
    requires |a| == |b| && forall m :: i <= m < |a| ==> a[m] == b[m]
    ensures ArgsFrom(opts, a, i, eq) == ArgsFrom(opts, b, i, eq)
    decreases |a| - i
  {
    if i < |a| {
      if IsLong(a[i]) {
        var g := ParseGnuResult(opts, a[i][2..], eq);
        ArgsFromSuffix(g.opts, a, b, i + 1, eq);
        if |g.name| > 0 && i < |a| - 1 {
          ArgsFromSuffix(SetValueByName(g.opts, g.name, a[i + 1]).opts, a, b, i + 2, eq);
        }
      } else if IsShort(a[i]) {
        var p := PosixFrom(opts, a[i][1..], 0, eq);
        ArgsFromSuffix(p.opts, a, b, i + 1, eq);
        if p.ch != '0' && i < |a| - 1 {
          ArgsFromSuffix(SetValueByChar(p.opts, p.ch, a[i + 1]).opts, a, b, i + 2, eq);
        }
      } else {
        ArgsFromSuffix(opts, a, b, i + 1, eq);
      }
    }
  }

  /** argv[0] is never looked at. */
  lemma ProgramNameIgnored(opts: seq<Entry>, p: string, q: string, rest: seq<string>, eq: char)
    ensures ArgsFrom(opts, [p] + rest, 1, eq) == ArgsFrom(opts, [q] + rest, 1, eq)
  {
    ArgsFromSuffix(opts, [p] + rest, [q] + rest, 1, eq);
  }

  /** The command line gives values only to common and command-line options
      (never to file options) and sets only common and command-line flags. */
  lemma CommandLineKeepsFileRecords(opts: seq<Entry>, args: seq<string>, eq: char)
    ensures var r := ArgsFrom(opts, args, 1, eq);
      SameKeys(opts, r) && forall m :: 0 <= m < |opts| && opts[m].kind in FileKinds ==> r[m] == opts[m]
  {
  }

  // ---------------------------------------------------------------------------
  // Resource file

  /** Stripping removes exactly the blank characters. */
  lemma {:induction false} StripBlanksMembers(s: string)
    ensures forall c :: c in StripBlanks(s) <==> c in s && !IsBlank(c)
    decreases |s|
  {
    if s != [] {
      var init := s[..|s| - 1];
      StripBlanksMembers(init);
      assert s == init + [s[|s| - 1]];
    }
  }

  /** Stripping keeps order and repeats: a joined line strips to the stripped
      parts, joined. */
  lemma {:induction false} StripBlanksAppend(a: string, b: string)
    ensures StripBlanks(a + b) == StripBlanks(a) + StripBlanks(b)
    decreases |b|
  {
    if b == [] {
      assert a + b == a;
    } else {
      var init := b[..|b| - 1];
      var y := b[|b| - 1];
      assert (a + b)[..|a + b| - 1] == a + init;
      assert (a + b)[|a + b| - 1] == y;
      StripBlanksAppend(a, init);
    }
  }

  /** A single character is removed exactly when it is a blank. */
  lemma StripBlanksSingle(c: char)
    ensures StripBlanks([c]) == if IsBlank(c) then [] else [c]
  {
    assert [c][..0] == [];
  }

  /** A line without blanks is left as it is. */
  lemma {:induction false} StripBlanksNone(s: string)
    requires forall m :: 0 <= m < |s| ==> !IsBlank(s[m])
    ensures StripBlanks(s) == s
    decreases |s|
  {
    if s != [] {
      StripBlanksNone(s[..|s| - 1]);
    }
  }

  lemma {:induction false} CountAppend(a: string, b: string, c: char)
    ensures Count(a + b, c) == Count(a, c) + Count(b, c)
    decreases |a|
  {
    if a != [] {
      assert (a + b)[1..] == a[1..] + b;
      CountAppend(a[1..], b, c);
    } else {
      assert a + b == b;
    }
  }

  /** A blank-free line `key=value` with no other delimiter is a pair: the key
      and value are split at the delimiter and handed to valuePairs. */
  lemma PairLine(opts: seq<Entry>, key: string, value: string, comment: char, delim: char)
    requires forall m :: 0 <= m < |key| ==> !IsBlank(key[m])
    requires forall m :: 0 <= m < |value| ==> !IsBlank(value[m])
    requires !IsBlank(delim) && delim !in key && delim !in value
    requires key == [] || key[0] != comment
    requires key != [] || delim != comment
    ensures LineResult(opts, key + [delim] + value, comment, delim) == ValuePairsResult(opts, key, value)
  {
    var s := key + [delim] + value;
    PairLineShape(key, value, delim);
    assert StripBlanks(s) == s && Count(s, delim) == 1 && FirstIndex(s, delim) == |key|;
    assert s[..|key|] == key && s[|key| + 1..] == value;
  }

  /** A line that strips to `key=value`, with no other delimiter, is a pair,
      whatever blanks it holds: the stripped key and value go to valuePairs. */
  lemma StrippedPairLine(opts: seq<Entry>, line: string, key: string, value: string, comment: char, delim: char)
    requires StripBlanks(line) == key + [delim] + value
    requires delim !in key && delim !in value
    requires key == [] || key[0] != comment
    requires key != [] || delim != comment
    ensures LineResult(opts, line, comment, delim) == ValuePairsResult(opts, key, value)
  {
    var s := key + [delim] + value;
    PairLineCount(key, value, delim);
    PairLineSplit(key, value, delim);
    assert s[0] != comment by {
      if key == [] {
        assert s[0] == delim;
      } else {
        assert s[0] == key[0];
      }
    }
  }

  /** A blank-free `key=value` pair surrounded by blanks on either side of the
      key and of the value, as in " port = 8080 ", is the pair (key, value). */
  lemma PaddedPairLine(opts: seq<Entry>, p1: string, key: string, p2: string, p3: string, value: string, p4: string,
                       comment: char, delim: char)
    requires forall m :: 0 <= m < |p1| ==> IsBlank(p1[m])
    requires forall m :: 0 <= m < |p2| ==> IsBlank(p2[m])
    requires forall m :: 0 <= m < |p3| ==> IsBlank(p3[m])
    requires forall m :: 0 <= m < |p4| ==> IsBlank(p4[m])
    requires forall m :: 0 <= m < |key| ==> !IsBlank(key[m])
    requires forall m :: 0 <= m < |value| ==> !IsBlank(value[m])
    requires !IsBlank(delim) && delim !in key && delim !in value
    requires key == [] || key[0] != comment
    requires key != [] || delim != comment
    ensures LineResult(opts, (p1 + key + p2) + [delim] + (p3 + value + p4), comment, delim) == ValuePairsResult(opts, key, value)
  {
    PaddedPairStrips(p1, key, p2, p3, value, p4, delim);
    StrippedPairLine(opts, (p1 + key + p2) + [delim] + (p3 + value + p4), key, value, comment, delim);
  }

  /** The line " port = 8080 " reaches valuePairs as the key "port" and the value "8080". */
  lemma SpacedPairExample(opts: seq<Entry>)
    ensures LineResult(opts, " port = 8080 ", '#', '=') == ValuePairsResult(opts, "port", "8080")
  {
    PaddedPairLine(opts, " ", "port", " ", " ", "8080", " ", '#', '=');
    assert (" " + "port" + " ") + ['='] + (" " + "8080" + " ") == " port = 8080 ";
  }

  lemma PaddedPairStrips(p1: string, key: string, p2: string, p3: string, value: string, p4: string, delim: char)
    requires forall m :: 0 <= m < |p1| ==> IsBlank(p1[m])
    requires forall m :: 0 <= m < |p2| ==> IsBlank(p2[m])
    requires forall m :: 0 <= m < |p3| ==> IsBlank(p3[m])
    requires forall m :: 0 <= m < |p4| ==> IsBlank(p4[m])
    requires forall m :: 0 <= m < |key| ==> !IsBlank(key[m])
    requires forall m :: 0 <= m < |value| ==> !IsBlank(value[m])
    requires !IsBlank(delim)
    ensures StripBlanks((p1 + key + p2) + [delim] + (p3 + value + p4)) == key + [delim] + value
  {
    var left, right := p1 + key + p2, p3 + value + p4;
    PaddedStrips(p1, key, p2);
    PaddedStrips(p3, value, p4);
    StripBlanksSingle(delim);
    StripBlanksAppend(left, [delim]);
    StripBlanksAppend(left + [delim], right);
  }

  /** Blanks around a blank-free text strip away. */
  lemma PaddedStrips(p: string, x: string, q: string)
    requires forall m :: 0 <= m < |p| ==> IsBlank(p[m])
    requires forall m :: 0 <= m < |q| ==> IsBlank(q[m])
    requires forall m :: 0 <= m < |x| ==> !IsBlank(x[m])
    ensures StripBlanks(p + x + q) == x
  {
    StripBlanksAll(p);
    StripBlanksAll(q);
    StripBlanksNone(x);
    StripBlanksAppend(p, x);
    StripBlanksAppend(p + x, q);
  }

  /** A line made only of blanks strips to nothing. */
  lemma {:induction false} StripBlanksAll(s: string)
    requires forall m :: 0 <= m < |s| ==> IsBlank(s[m])
    ensures StripBlanks(s) == []
    decreases |s|
  {
    if s != [] {
      StripBlanksAll(s[..|s| - 1]);
    }
  }

  lemma PairLineShape(key: string, value: string, delim: char)
    requires forall m :: 0 <= m < |key| ==> !IsBlank(key[m])
    requires forall m :: 0 <= m < |value| ==> !IsBlank(value[m])
    requires !IsBlank(delim) && delim !in key && delim !in value
    ensures var s := key + [delim] + value;
      && StripBlanks(s) == s && Count(s, delim) == 1 && FirstIndex(s, delim) == |key|
      && s[..|key|] == key && s[|key| + 1..] == value
  {
    var s := key + [delim] + value;
    StripBlanksNone(s);
    PairLineCount(key, value, delim);
    PairLineSplit(key, value, delim);
  }

  lemma PairLineCount(key: string, value: string, delim: char)
    requires delim !in key && delim !in value
    ensures Count(key + [delim] + value, delim) == 1
  {
    CountAppend(key + [delim], value, delim);
    CountAppend(key, [delim], delim);
    assert Count([delim], delim) == 1;
  }

  lemma PairLineSplit(key: string, value: string, delim: char)
    requires delim !in key
    ensures var s := key + [delim] + value;
      FirstIndex(s, delim) == |key| && s[..|key|] == key && s[|key| + 1..] == value
  {
    var s := key + [delim] + value;
    assert s[|key|] == delim;
    assert s[..|key|] == key;
  }

  /** A one-character key names an option character first: the first common
      or file option with that character takes the value. */
  lemma PairByCharFirst(opts: seq<Entry>, key: string, value: string)
    requires |key| == 1 && FirstMatch(opts, ByChar(key[0]), FileOptKinds) >= 0
    ensures ValuePairsResult(opts, key, value) == Assign(opts, FirstMatch(opts, ByChar(key[0]), FileOptKinds), value)
  {
  }

  /** Otherwise the first common or file option with that name takes it; unknown keys change nothing. */
  lemma PairByName(opts: seq<Entry>, key: string, value: string)
    requires |key| != 1 || FirstMatch(opts, ByChar(key[0]), FileOptKinds) < 0
    ensures var j := FirstMatch(opts, ByName(key), FileOptKinds);
      ValuePairsResult(opts, key, value) == if j >= 0 then Assign(opts, j, value) else opts
  {
  }

  /** A blank-free line without the delimiter names a flag and goes to justValue. */
  lemma FlagLine(opts: seq<Entry>, key: string, comment: char, delim: char)
    requires forall m :: 0 <= m < |key| ==> !IsBlank(key[m])
    requires key != [] && key[0] != comment && delim !in key
    ensures LineResult(opts, key, comment, delim) == JustValueResult(opts, key)
  {
    StripBlanksNone(key);
  }

  /** Lines with two or more delimiters, empty lines and comment lines change nothing. */
  lemma IgnoredLines(opts: seq<Entry>, line: string, comment: char, delim: char)
    requires var s := StripBlanks(line); s == [] || s[0] == comment || Count(s, delim) >= 2
    ensures LineResult(opts, line, comment, delim) == opts
  {
  }

  /** A resource file never touches a command-line option or flag. */
  lemma FileKeepsCommandRecords(opts: seq<Entry>, lines: seq<string>, comment: char, delim: char)
    ensures var r := LinesResult(opts, lines, comment, delim);
      SameKeys(opts, r) && forall m :: 0 <= m < |opts| && opts[m].kind in CommandKinds ==> r[m] == opts[m]
  {
  }

  /** The command line has the last word: with `--name value` naming an
      option, after a command-line pass, any resource file, and a second
      command-line pass, that option holds `value`. */
  lemma CommandLineOverridesFile(opts: seq<Entry>, prog: string, name: string, value: string,
                                 lines: seq<string>, comment: char, delim: char, eq: char)
    requires name != [] && eq !in name
    requires FirstMatch(opts, ByName(name), CommandLineKinds) >= 0
    requires opts[FirstMatch(opts, ByName(name), CommandLineKinds)].kind in CommandOptKinds
    ensures var args := [prog, "--" + name, value];
      var j := FirstMatch(opts, ByName(name), CommandLineKinds);
      var final := ArgsFrom(LinesResult(ArgsFrom(opts, args, 1, eq), lines, comment, delim), args, 1, eq);
      final[j].value == value && final[j].isSet
  {
    var args := [prog, "--" + name, value];
    var j := FirstMatch(opts, ByName(name), CommandLineKinds);
    var first := ArgsFrom(opts, args, 1, eq);
    var filed := LinesResult(first, lines, comment, delim);
    FileKeepsCommandRecords(first, lines, comment, delim);
    assert SameKeys(opts, first);
    SameKeysTrans(opts, first, filed);
    FirstMatchSameKeys(opts, filed, ByName(name), CommandLineKinds);
    SecondPassSets(filed, args, eq, name, j);
  }

  /** The second pass over `prog --name value` assigns `value` to option `j`. */
  lemma SecondPassSets(filed: seq<Entry>, args: seq<string>, eq: char, name: string, j: int)
    requires |args| == 3 && args[1] == "--" + name && name != [] && eq !in name
    requires j == FirstMatch(filed, ByName(name), CommandLineKinds) && j >= 0
    requires filed[j].kind in CommandOptKinds
    ensures ArgsFrom(filed, args, 1, eq)[j].value == args[2] && ArgsFrom(filed, args, 1, eq)[j].isSet
  {
    GnuSeparateValue(filed, args, 1, eq, name);
    assert ArgsFrom(Assign(filed, j, args[2]), args, 3, eq) == Assign(filed, j, args[2]);
  }

  lemma SameKeysTrans(a: seq<Entry>, b: seq<Entry>, c: seq<Entry>)
    requires SameKeys(a, b) && SameKeys(b, c)
    ensures SameKeys(a, c)
  {
  }
}
