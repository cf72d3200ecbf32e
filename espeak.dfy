/** The text-to-speech wrapper around espeak and an onnx voice: clauses from
    the phonemizer are grouped into sentences by their terminators; every
    non-empty sentence becomes one queued sequence of phoneme ids framed by
    beginning-of-sentence, padding and end-of-sentence ids; the queue is then
    drained in order through the voice model and the samples framed as WAV.
    The phonemizer, the NFD normalisation and the voice model are parameters. */
module Espeak {
  import opened Words
  import opened Wav

  // ---------------------------------------------------------------------------
  // Clause terminators

  const ClauseIntonationFullStop: bv32 := 0x0000_0000
  const ClauseIntonationComma: bv32 := 0x0000_1000
  const ClauseIntonationQuestion: bv32 := 0x0000_2000
  const ClauseIntonationExclamation: bv32 := 0x0000_3000
  const ClauseTypeClause: bv32 := 0x0004_0000
  const ClauseTypeSentence: bv32 := 0x0008_0000

  const ClausePeriod: bv32 := 40 | ClauseIntonationFullStop | ClauseTypeSentence
  const ClauseComma: bv32 := 20 | ClauseIntonationComma | ClauseTypeClause
  const ClauseQuestion: bv32 := 40 | ClauseIntonationQuestion | ClauseTypeSentence
  const ClauseExclamation: bv32 := 45 | ClauseIntonationExclamation | ClauseTypeSentence
  const ClauseColon: bv32 := 30 | ClauseIntonationFullStop | ClauseTypeClause
  const ClauseSemicolon: bv32 := 30 | ClauseIntonationComma | ClauseTypeClause

  /** The terminator espeak reports, as a bit pattern, keeps only its low 20 bits. */
  function Masked(t: bv32): (m: bv32)
    ensures m <= 0x000F_FFFF
  {
    t & 0x000F_FFFF
  }

  /** The text appended to the sentence for a masked terminator. */
  function TerminatorText(m: bv32): string
  {
    if m == ClausePeriod then "."
    else if m == ClauseQuestion then "?"
    else if m == ClauseExclamation then "!"
    else if m == ClauseComma then ", "
    else if m == ClauseColon then ": "
    else if m == ClauseSemicolon then "; "
    else ""
  }

  /** A masked terminator closes the sentence when it carries the sentence type bit. */
  predicate EndsSentence(m: bv32)
  {
    m & ClauseTypeSentence == ClauseTypeSentence
  }

  /** The six clause constants are distinct and survive the mask. */
  lemma ClausesDistinct()
    ensures |{ClausePeriod, ClauseComma, ClauseQuestion, ClauseExclamation, ClauseColon, ClauseSemicolon}| == 6
    ensures Masked(ClausePeriod) == ClausePeriod && Masked(ClauseComma) == ClauseComma
    ensures Masked(ClauseQuestion) == ClauseQuestion && Masked(ClauseExclamation) == ClauseExclamation
    ensures Masked(ClauseColon) == ClauseColon && Masked(ClauseSemicolon) == ClauseSemicolon
  {
  }

  /** Each clause constant has its own text, and every other masked value has none. */
  lemma TerminatorTextIff(m: bv32)
    ensures TerminatorText(m) == "." <==> m == ClausePeriod
    ensures TerminatorText(m) == "?" <==> m == ClauseQuestion
    ensures TerminatorText(m) == "!" <==> m == ClauseExclamation
    ensures TerminatorText(m) == ", " <==> m == ClauseComma
    ensures TerminatorText(m) == ": " <==> m == ClauseColon
    ensures TerminatorText(m) == "; " <==> m == ClauseSemicolon
    ensures TerminatorText(m) == "" <==>
      m !in {ClausePeriod, ClauseComma, ClauseQuestion, ClauseExclamation, ClauseColon, ClauseSemicolon}
  {
    ClausesDistinct();
  }

  /** Period, question and exclamation close a sentence; comma, colon and semicolon do not. */
  lemma SentenceTerminators()
    ensures EndsSentence(ClausePeriod) && EndsSentence(ClauseQuestion) && EndsSentence(ClauseExclamation)
    ensures !EndsSentence(ClauseComma) && !EndsSentence(ClauseColon) && !EndsSentence(ClauseSemicolon)
  {
  }

  /** The bits above the low 20 never change the text or the sentence split. */
  lemma HighBitsIgnored(t: bv32, h: bv32)
    ensures Masked(t ^ (h & 0xFFF0_0000)) == Masked(t)
  {
  }

  // ---------------------------------------------------------------------------
  // Sentences

  /** One phonemizer call: its phonemes (absent when the phonemizer gave none)
      and its terminator. */
  datatype Clause = Clause(phonemes: Option<string>, terminator: bv32)

  function ClauseText(c: Clause): string
  {
    (if c.phonemes.Some? then c.phonemes.value else "") + TerminatorText(Masked(c.terminator))
  }

  /** The sentence strings after the clauses so far: each clause's text goes
      to the last sentence, and a sentence-closing clause opens a new, empty one. */
  function Sentences(clauses: seq<Clause>): (s: seq<string>)
    ensures |s| >= 1
    decreases |clauses|
  {
    if clauses == [] then [""]
    else
      var prev := Sentences(clauses[..|clauses| - 1]);
      var c := clauses[|clauses| - 1];
      var grown := prev[|prev| - 1 := prev[|prev| - 1] + ClauseText(c)];
      if EndsSentence(Masked(c.terminator)) then grown + [""] else grown
  }

  /** The sentences after one more clause. */
  function Grow(prev: seq<string>, c: Clause): seq<string>
    requires |prev| >= 1
  {
    var grown := prev[|prev| - 1 := prev[|prev| - 1] + ClauseText(c)];
    if EndsSentence(Masked(c.terminator)) then grown + [""] else grown
  }

  lemma SentencesSnoc(init: seq<Clause>, c: Clause)
    ensures Sentences(init + [c]) == Grow(Sentences(init), c)
  {
    assert (init + [c])[..|init|] == init;
  }

  lemma UpdateTwice(s: seq<string>, i: nat, a: string, b: string)
    requires i < |s|
    ensures s[i := s[i] + a][i := s[i] + a + b] == s[i := s[i] + (a + b)]
  {
    assert s[i] + a + b == s[i] + (a + b);
  }

  function Concat(s: seq<string>): string
    decreases |s|
  {
    if s == [] then "" else Concat(s[..|s| - 1]) + s[|s| - 1]
  }

  function ClauseTexts(clauses: seq<Clause>): (r: seq<string>)
    ensures |r| == |clauses|
  {
    seq(|clauses|, k requires 0 <= k < |clauses| => ClauseText(clauses[k]))
  }

  function EndCount(clauses: seq<Clause>): nat
    decreases |clauses|
  {
    if clauses == [] then 0
    else EndCount(clauses[..|clauses| - 1]) + (if EndsSentence(Masked(clauses[|clauses| - 1].terminator)) then 1 else 0)
  }

  /** There is one sentence more than there are sentence-closing clauses. */
  lemma {:induction false} SentenceCount(clauses: seq<Clause>)
    ensures |Sentences(clauses)| == 1 + EndCount(clauses)
    decreases |clauses|
  {
    if clauses != [] {
      SentenceCount(clauses[..|clauses| - 1]);
    }
  }

  lemma {:induction false} ConcatUpdateLast(s: seq<string>, x: string)
    requires |s| >= 1
    ensures Concat(s[|s| - 1 := s[|s| - 1] + x]) == Concat(s) + x
  {
    var t := s[|s| - 1 := s[|s| - 1] + x];
    assert t[..|t| - 1] == s[..|s| - 1];
  }

  /** Splitting loses and reorders nothing: the sentences spell out the
      clause texts in order. */
  lemma {:induction false} SentencesSpellClauses(clauses: seq<Clause>)
    ensures Concat(Sentences(clauses)) == Concat(ClauseTexts(clauses))
    decreases |clauses|
  {
    if clauses != [] {
      var init := clauses[..|clauses| - 1];
      var c := clauses[|clauses| - 1];
      SentencesSpellClauses(init);
      var prev := Sentences(init);
      var grown := prev[|prev| - 1 := prev[|prev| - 1] + ClauseText(c)];
      ConcatUpdateLast(prev, ClauseText(c));
      if EndsSentence(Masked(c.terminator)) {
        assert (grown + [""])[..|grown|] == grown;
      }
      assert ClauseTexts(clauses)[..|clauses| - 1] == ClauseTexts(init);
    }
  }

  // ---------------------------------------------------------------------------
  // Phoneme ids

  const Pad: int := 0
  const Bos: int := 1
  const Eos: int := 2

  /** Each id followed by a padding id. */
  function Padded(ids: seq<int>): (r: seq<int>)
    ensures |r| == 2 * |ids|
    decreases |ids|
  {
    if ids == [] then [] else [ids[0], Pad] + Padded(ids[1..])
  }

  /** Position 2i holds the i-th id and position 2i + 1 a padding id. */
  lemma {:induction false} PaddedAt(ids: seq<int>, i: nat)
    requires i < |ids|
    ensures Padded(ids)[2 * i] == ids[i] && Padded(ids)[2 * i + 1] == Pad
    decreases i
  {
    if i > 0 {
      PaddedAt(ids[1..], i - 1);
      assert Padded(ids)[2 * i] == Padded(ids[1..])[2 * (i - 1)];
      assert Padded(ids)[2 * i + 1] == Padded(ids[1..])[2 * (i - 1) + 1];
    }
  }

  lemma {:induction false} PaddedAppend(a: seq<int>, b: seq<int>)
    ensures Padded(a + b) == Padded(a) + Padded(b)
    decreases |a|
  {
    if a == [] {
      assert a + b == b;
    } else {
      assert (a + b)[0] == a[0] && (a + b)[1..] == a[1..] + b;
      PaddedAppend(a[1..], b);
      assert Padded(a + b) == [a[0], Pad] + Padded(a[1..] + b);
      assert Padded(a) == [a[0], Pad] + Padded(a[1..]);
    }
  }

  lemma PaddedSnoc(a: seq<int>, x: int)
    ensures Padded(a + [x]) == Padded(a) + [x, Pad]
  {
    PaddedAppend(a, [x]);
    assert Padded([x]) == [x, Pad] + Padded([]);
  }

  /** The scan state: the ids contributed so far (without padding) and whether
      a `(lang)` switch is open. */
  datatype Scanned = Scanned(ids: seq<int>, inLangFlag: bool)

  /** One code point: inside a switch only ')' matters, and closes it; '('
      opens one; any other code point contributes its ids, if it has any. */
  function ScanStep(s: Scanned, cp: char, idMap: map<char, seq<int>>): Scanned
  {
    if s.inLangFlag then Scanned(s.ids, cp != ')')
    else if cp == '(' then Scanned(s.ids, true)
    else if cp in idMap then Scanned(s.ids + idMap[cp], false)
    else s
  }

  function Scan(s: Scanned, cps: seq<char>, idMap: map<char, seq<int>>): Scanned
    decreases |cps|
  {
    if cps == [] then s else Scan(ScanStep(s, cps[0], idMap), cps[1..], idMap)
  }

  /** The queued ids of one (normalised) sentence. */
  function SentenceIds(cps: seq<char>, idMap: map<char, seq<int>>): seq<int>
  {
    [Bos, Pad] + Padded(Scan(Scanned([], false), cps, idMap).ids) + [Eos]
  }

  /** Every queued sequence starts with BOS and PAD, ends with EOS, has three
      ids more than twice the ids contributed, and holds PAD at every odd
      position before EOS. */
  lemma SentenceIdsShape(cps: seq<char>, idMap: map<char, seq<int>>)
    ensures var r := SentenceIds(cps, idMap);
      && r[0] == Bos && r[1] == Pad && r[|r| - 1] == Eos
      && |r| == 3 + 2 * |Scan(Scanned([], false), cps, idMap).ids|
      && forall j :: 0 <= j < |r| - 1 && j % 2 == 1 ==> r[j] == Pad
  {
    var ids := Scan(Scanned([], false), cps, idMap).ids;
    var r := SentenceIds(cps, idMap);
    forall j | 0 <= j < |r| - 1 && j % 2 == 1
      ensures r[j] == Pad
    {
      if j > 1 {
        var q := (j - 3) / 2;
        assert j == 2 + (2 * q + 1);
        assert r[j] == Padded(ids)[2 * q + 1];
        PaddedAt(ids, q);
      }
    }
  }

  lemma {:induction false} ScanAppend(s: Scanned, a: seq<char>, b: seq<char>, idMap: map<char, seq<int>>)
    ensures Scan(s, a + b, idMap) == Scan(Scan(s, a, idMap), b, idMap)
    decreases |a|
  {
    if a == [] {
      assert a + b == b;
    } else {
      assert (a + b)[0] == a[0] && (a + b)[1..] == a[1..] + b;
      ScanAppend(ScanStep(s, a[0], idMap), a[1..], b, idMap);
      assert Scan(s, a + b, idMap) == Scan(ScanStep(s, a[0], idMap), a[1..] + b, idMap);
    }
  }

  lemma {:induction false} InsideLangFlag(ids: seq<int>, group: seq<char>, idMap: map<char, seq<int>>)
    requires ')' !in group
    ensures Scan(Scanned(ids, true), group + [')'], idMap) == Scanned(ids, false)
    decreases |group|
  {
    if group == [] {
      assert [')'][1..] == [];
    } else {
      assert (group + [')'])[1..] == group[1..] + [')'];
      InsideLangFlag(ids, group[1..], idMap);
    }
  }

  /** A `(lang)` switch, from '(' up to and including the next ')', contributes nothing. */
  lemma LangFlagContributesNothing(s: Scanned, group: seq<char>, rest: seq<char>, idMap: map<char, seq<int>>)
    requires !s.inLangFlag && ')' !in group
    ensures Scan(s, ['('] + group + [')'] + rest, idMap) == Scan(s, rest, idMap)
  {
    assert ['('] + group + [')'] + rest == ['('] + (group + [')']) + rest;
    ScanAppend(s, ['('] + (group + [')']), rest, idMap);
    assert (['('] + (group + [')']))[1..] == group + [')'];
    InsideLangFlag(s.ids, group, idMap);
  }

  /** A '(' that is never closed drops everything after it. */
  lemma {:induction false} UnclosedLangFlag(ids: seq<int>, rest: seq<char>, idMap: map<char, seq<int>>)
    requires ')' !in rest
    ensures Scan(Scanned(ids, true), rest, idMap).ids == ids
    decreases |rest|
  {
    if rest != [] {
      UnclosedLangFlag(ids, rest[1..], idMap);
    }
  }

  /** An unmapped code point outside a switch contributes nothing. */
  lemma UnmappedContributesNothing(s: Scanned, cp: char, rest: seq<char>, idMap: map<char, seq<int>>)
    requires !s.inLangFlag && cp != '(' && cp !in idMap
    ensures Scan(s, [cp] + rest, idMap) == Scan(s, rest, idMap)
  {
    assert ([cp] + rest)[1..] == rest;
  }

  /** The ids of the code points in order. */
  function MappedIds(cps: seq<char>, idMap: map<char, seq<int>>): seq<int>
    requires forall i :: 0 <= i < |cps| ==> cps[i] in idMap
    decreases |cps|
  {
    if cps == [] then [] else idMap[cps[0]] + MappedIds(cps[1..], idMap)
  }

  /** Without switches and unmapped code points, the scan contributes every
      code point's ids, in order. */
  lemma {:induction false} PlainText(acc: seq<int>, cps: seq<char>, idMap: map<char, seq<int>>)
    requires forall i :: 0 <= i < |cps| ==> cps[i] in idMap && cps[i] != '('
    ensures Scan(Scanned(acc, false), cps, idMap) == Scanned(acc + MappedIds(cps, idMap), false)
    decreases |cps|
  {
    if cps != [] {
      PlainText(acc + idMap[cps[0]], cps[1..], idMap);
      assert acc + idMap[cps[0]] + MappedIds(cps[1..], idMap) == acc + (idMap[cps[0]] + MappedIds(cps[1..], idMap));
    }
  }

  // ---------------------------------------------------------------------------
  // The queue and the synthesis

  /** The non-empty sentences, in order. */
  function NonEmpty(sentences: seq<string>): (r: seq<string>)
    ensures |r| <= |sentences|
    ensures forall x :: x in r <==> x in sentences && x != ""
    decreases |sentences|
  {
    if sentences == [] then []
    else
      var last := sentences[|sentences| - 1];
      assert sentences == sentences[..|sentences| - 1] + [last];
      NonEmpty(sentences[..|sentences| - 1]) + (if last == "" then [] else [last])
  }

  /** Filtering keeps order and repeats: the non-empty sentences of a joined
      list are those of the first part followed by those of the second. */
  lemma {:induction false} NonEmptyAppend(a: seq<string>, b: seq<string>)
    ensures NonEmpty(a + b) == NonEmpty(a) + NonEmpty(b)
    decreases |b|
  {
    if b == [] {
      assert a + b == a;
    } else {
      var init := b[..|b| - 1];
      var y := b[|b| - 1];
      assert (a + b)[..|a + b| - 1] == a + init;
      assert (a + b)[|a + b| - 1] == y;
      NonEmptyAppend(a, init);
    }
  }

  /** A single sentence is kept exactly when it is not empty. */
  lemma NonEmptySingle(x: string)
    ensures NonEmpty([x]) == if x == "" then [] else [x]
  {
    assert [x][..0] == [];
  }

  /** One id sequence per non-empty sentence, in order. */
  function IdQueue(sentences: seq<string>, normalize: string -> string, idMap: map<char, seq<int>>): (q: seq<seq<int>>)
    ensures |q| == |NonEmpty(sentences)|
  {
    var ne := NonEmpty(sentences);
    seq(|ne|, i requires 0 <= i < |ne| => SentenceIds(normalize(ne[i]), idMap))
  }

  /** One more sentence adds its ids to the queue, unless it is empty. */
  lemma IdQueueSnoc(sentences: seq<string>, x: string, normalize: string -> string, idMap: map<char, seq<int>>)
    ensures IdQueue(sentences + [x], normalize, idMap)
            == IdQueue(sentences, normalize, idMap) + (if x == "" then [] else [SentenceIds(normalize(x), idMap)])
  {
    var all := sentences + [x];
    assert all[..|all| - 1] == sentences;
  }

  /** The samples of the queue drained in order, or None when the voice model fails on any entry. */
  function Synthesize(queue: seq<seq<int>>, next: seq<int> -> Option<seq<Word32>>): Option<seq<Word32>>
    decreases |queue|
  {
    if queue == [] then Some([])
    else
      var head := next(queue[0]);
      var rest := Synthesize(queue[1..], next);
      if head.Some? && rest.Some? then Some(head.value + rest.value) else None
  }

  /** Synthesis succeeds exactly when every queued entry does. */
  lemma {:induction false} SynthesizeSucceeds(queue: seq<seq<int>>, next: seq<int> -> Option<seq<Word32>>)
    ensures Synthesize(queue, next).Some? <==> forall i :: 0 <= i < |queue| ==> next(queue[i]).Some?
    decreases |queue|
  {
    if queue != [] {
      SynthesizeSucceeds(queue[1..], next);
      assert forall i :: 1 <= i < |queue| ==> queue[i] == queue[1..][i - 1];
    }
  }

  /** The samples come out in queue order: those of the first entries, then those of the rest. */
  lemma {:induction false} SynthesizeAppend(a: seq<seq<int>>, b: seq<seq<int>>, next: seq<int> -> Option<seq<Word32>>)
    ensures var sa := Synthesize(a, next); var sb := Synthesize(b, next);
      Synthesize(a + b, next) == if sa.Some? && sb.Some? then Some(sa.value + sb.value) else None
    decreases |a|
  {
    if a != [] {
      assert (a + b)[0] == a[0] && (a + b)[1..] == a[1..] + b;
      SynthesizeAppend(a[1..], b, next);
      var ra := Synthesize(a[1..], next);
      var rb := Synthesize(b, next);
      if next(a[0]).Some? && ra.Some? && rb.Some? {
        var h := next(a[0]).value;
        assert h + (ra.value + rb.value) == (h + ra.value) + rb.value;
      }
    } else {
      assert a + b == b;
      var rb := Synthesize(b, next);
      if rb.Some? {
        assert [] + rb.value == rb.value;
      }
    }
  }

  function Then(done: seq<Word32>, rest: Option<seq<Word32>>): Option<seq<Word32>>
  {
    if rest.Some? then Some(done + rest.value) else None
  }

  /** One step of the drain loop. */
  lemma DrainStep(done: seq<Word32>, pending: seq<seq<int>>, next: seq<int> -> Option<seq<Word32>>)
    requires pending != []
    ensures next(pending[0]).None? ==> Then(done, Synthesize(pending, next)) == None
    ensures next(pending[0]).Some? ==>
      Then(done, Synthesize(pending, next)) == Then(done + next(pending[0]).value, Synthesize(pending[1..], next))
  {
    var rest := Synthesize(pending[1..], next);
    if next(pending[0]).Some? && rest.Some? {
      var h := next(pending[0]).value;
      assert done + (h + rest.value) == (done + h) + rest.value;
    }
  }

  class SpeechSynth {
    const sampleRate: int
    const phonemeIdMap: map<char, seq<int>>

    constructor (sampleRate: int, phonemeIdMap: map<char, seq<int>>)
      ensures this.sampleRate == sampleRate && this.phonemeIdMap == phonemeIdMap
    {
      this.sampleRate := sampleRate;
      this.phonemeIdMap := phonemeIdMap;
    }

    /** The phonemize loop of start: the sentence strings for the clauses. */
    method Phonemize(clauses: seq<Clause>) returns (sentences: seq<string>)
      ensures sentences == Sentences(clauses)
    {
      sentences := [""];
      for k := 0 to |clauses|
        invariant sentences == Sentences(clauses[..k])
      {
        assert clauses[..k + 1] == clauses[..k] + [clauses[k]];
        SentencesSnoc(clauses[..k], clauses[k]);
        sentences := AddClause(sentences, clauses[k]);
      }
      assert clauses[..|clauses|] == clauses;
    }

    /** One pass of the phonemize loop: the clause's phonemes (when there are
        any) and its terminator's text go to the current sentence, and a
        sentence-closing terminator starts a new, empty one. */
    static method AddClause(sentences: seq<string>, c: Clause) returns (next: seq<string>)
      requires |sentences| >= 1
      ensures next == Grow(sentences, c)
    {
      var current := |sentences| - 1;
      var text := if c.phonemes.Some? then c.phonemes.value else "";
      next := sentences;
      if c.phonemes.Some? {
        next := next[current := next[current] + c.phonemes.value];
      } else {
        assert sentences[current] + text == sentences[current];
        assert sentences[current := sentences[current] + text] == sentences;
      }
      var terminator := Masked(c.terminator);
      var terminatorStr := TerminatorText(terminator);
      next := next[current := next[current] + terminatorStr];
      UpdateTwice(sentences, current, text, terminatorStr);
      if EndsSentence(terminator) {
        next := next + [""];
      }
    }

    /** The id loop of start for one normalised sentence. */
    method SentenceIdsOf(cps: seq<char>) returns (sentenceIds: seq<int>)
      ensures sentenceIds == SentenceIds(cps, phonemeIdMap)
    {
      sentenceIds := [Bos, Pad];
      var inLangFlag := false;
      ghost var acc: seq<int> := [];
      var k := 0;
      while k < |cps|
        invariant 0 <= k <= |cps|
        invariant sentenceIds == [Bos, Pad] + Padded(acc)
        invariant Scan(Scanned(acc, inLangFlag), cps[k..], phonemeIdMap) == Scan(Scanned([], false), cps, phonemeIdMap)
      {
        assert cps[k..][0] == cps[k] && cps[k..][1..] == cps[k + 1..];
        var cp := cps[k];
        if inLangFlag {
          if cp == ')' {
            inLangFlag := false;
          }
        } else if cp == '(' {
          inLangFlag := true;
        } else if cp in phonemeIdMap {
          var found := phonemeIdMap[cp];
          sentenceIds := AppendPadded(sentenceIds, found);
          PaddedAppend(acc, found);
          acc := acc + found;
        }
        k := k + 1;
      }
      sentenceIds := sentenceIds + [Eos];
    }

    /** The inner loop of the id loop: each id of one code point followed by a padding id. */
    static method AppendPadded(ids: seq<int>, found: seq<int>) returns (r: seq<int>)
      ensures r == ids + Padded(found)
    {
      r := ids;
      for m := 0 to |found|
        invariant r == ids + Padded(found[..m])
      {
        assert found[..m + 1] == found[..m] + [found[m]];
        PaddedSnoc(found[..m], found[m]);
        r := r + [found[m]];
        r := r + [Pad];
      }
      assert found[..|found|] == found;
    }

    /** start: -1 when the voice cannot be selected; otherwise 0 and one id
        sequence per non-empty sentence, in order. */
    method Start(voiceOk: bool, clauses: seq<Clause>, normalize: string -> string) returns (r: int, queue: seq<seq<int>>)
      ensures r == 0 <==> voiceOk
      ensures r != 0 ==> r == -1 && queue == []
      ensures r == 0 ==> queue == IdQueue(Sentences(clauses), normalize, phonemeIdMap)
    {
      if !voiceOk {
        return -1, [];
      }
      var sentencePhonemes := Phonemize(clauses);
      queue := [];
      for k := 0 to |sentencePhonemes|
        invariant queue == IdQueue(sentencePhonemes[..k], normalize, phonemeIdMap)
      {
        var phonemesStr := sentencePhonemes[k];
        assert sentencePhonemes[..k + 1] == sentencePhonemes[..k] + [phonemesStr];
        IdQueueSnoc(sentencePhonemes[..k], phonemesStr, normalize, phonemeIdMap);
        if phonemesStr == [] {
          continue;
        }
        var sentenceIds := SentenceIdsOf(normalize(phonemesStr));
        queue := queue + [sentenceIds];
      }
      assert sentencePhonemes[..|sentencePhonemes|] == sentencePhonemes;
      return 0, queue;
    }

    /** convert_text_to_audio: start, then the queue drained in order through
        the voice model `next`, then the samples framed as a WAV image at the
        voice's sample rate. -1, with `audio` left as it was, when start or
        any call of the model fails. */
    method ConvertTextToAudio(voiceOk: bool, clauses: seq<Clause>, normalize: string -> string,
                              next: seq<int> -> Option<seq<Word32>>, audioIn: seq<Byte>)
      returns (r: int, audio: seq<Byte>)
      ensures var sound := Synthesize(IdQueue(Sentences(clauses), normalize, phonemeIdMap), next);
        && (r == 0 <==> voiceOk && sound.Some?)
        && (r == 0 ==> audio == WavFile(sound.value, sampleRate))
        && (r != 0 ==> r == -1 && audio == audioIn)
    {
      var started, phonemeIdQueue := Start(voiceOk, clauses, normalize);
      if started != 0 {
        return -1, audioIn;
      }
      var sound: seq<Word32> := [];
      var pending := phonemeIdQueue;
      if Synthesize(pending, next).Some? {
        assert [] + Synthesize(pending, next).value == Synthesize(pending, next).value;
      }
      while pending != []
        invariant Synthesize(phonemeIdQueue, next) == Then(sound, Synthesize(pending, next))
        decreases |pending|
      {
        DrainStep(sound, pending, next);
        var nextIds := pending[0];
        pending := pending[1..];
        var samples := next(nextIds);
        if samples.None? {
          return -1, audioIn;
        }
        sound := sound + samples.value;
      }
      assert sound + [] == sound;
      audio := FrameWav(sound, sampleRate);
      r := 0;
    }
  }
}
