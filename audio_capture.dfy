/** The microphone side of audio_wrapper: the stream callback that cuts the
    incoming frames into chunks of at least `samplesPerCheck` samples and hands
    the latest one over through a single slot, and the polling step that
    classifies each handed-over chunk and assembles speech segments, framing a
    finished segment as a WAV buffer for transcription.

    The voice-activity classifier and the transcriber are foreign code; they are
    parameters here. The mutex and the atomic run flag are read as plain fields. */
module AudioCapture {
  import opened Words
  import opened Wav

  /** What the stream callback answers PortAudio. */
  datatype StreamResult = Continue | Complete

  /** One callback's effect on the working buffer: the new frames are appended,
      and once the total reaches the threshold it is offered as a chunk and the
      working buffer starts again empty. */
  datatype Accepted = Accepted(buffer: seq<Word32>, chunk: Option<seq<Word32>>)

  function Accept(buffer: seq<Word32>, frames: seq<Word32>, threshold: nat): (a: Accepted)
    ensures a.chunk.Some? <==> |buffer + frames| >= threshold
    ensures a.chunk.Some? ==> a.chunk.value == buffer + frames && a.buffer == []
    ensures a.chunk.None? ==> a.buffer == buffer + frames && |a.buffer| < threshold
  {
    var total := buffer + frames;
    if |total| >= threshold then Accepted([], Some(total)) else Accepted(total, None)
  }

  /** The chunks offered by a run of callbacks that all receive data, and the
      working buffer left behind. */
  datatype Produced = Produced(chunks: seq<seq<Word32>>, buffer: seq<Word32>)

  function Produce(buffer: seq<Word32>, frames: seq<seq<Word32>>, threshold: nat): Produced
    decreases |frames|
  {
    if frames == [] then Produced([], buffer)
    else
      var a := Accept(buffer, frames[0], threshold);
      var rest := Produce(a.buffer, frames[1..], threshold);
      match a.chunk
      case Some(c) => Produced([c] + rest.chunks, rest.buffer)
      case None => rest
  }

  function Flatten(xs: seq<seq<Word32>>): seq<Word32>
  {
    if xs == [] then [] else xs[0] + Flatten(xs[1..])
  }

  lemma FlattenCons(c: seq<Word32>, xs: seq<seq<Word32>>)
    ensures Flatten([c] + xs) == c + Flatten(xs)
  {
    assert ([c] + xs)[0] == c && ([c] + xs)[1..] == xs;
  }

  lemma Assoc(x: seq<Word32>, y: seq<Word32>, z: seq<Word32>)
    ensures x + y + z == x + (y + z)
  {
  }

  /** No sample is lost, duplicated or reordered by the chunking: the offered
      chunks followed by the working buffer are the old buffer followed by every
      frame received. */
  lemma {:induction false} ProduceConserves(buffer: seq<Word32>, frames: seq<seq<Word32>>, threshold: nat)
    ensures Flatten(Produce(buffer, frames, threshold).chunks) + Produce(buffer, frames, threshold).buffer
            == buffer + Flatten(frames)
    decreases |frames|
  {
    if frames != [] {
      var a := Accept(buffer, frames[0], threshold);
      var rest := Produce(a.buffer, frames[1..], threshold);
      ProduceConserves(a.buffer, frames[1..], threshold);
      assert Flatten(frames) == frames[0] + Flatten(frames[1..]);
      Assoc(buffer, frames[0], Flatten(frames[1..]));
      if a.chunk.Some? {
        var c := a.chunk.value;
        assert Produce(buffer, frames, threshold) == Produced([c] + rest.chunks, rest.buffer);
        FlattenCons(c, rest.chunks);
        Assoc(c, Flatten(rest.chunks), rest.buffer);
        assert a.buffer == [] && c == buffer + frames[0];
        assert [] + Flatten(frames[1..]) == Flatten(frames[1..]);
      } else {
        assert Produce(buffer, frames, threshold) == rest;
      }
    }
  }

  /** Every offered chunk reaches the threshold, and the working buffer stays
      below it (or empty, for a zero threshold). */
  lemma {:induction false} ProduceBounds(buffer: seq<Word32>, frames: seq<seq<Word32>>, threshold: nat)
    requires |buffer| < threshold || buffer == []
    ensures var p := Produce(buffer, frames, threshold);
      && (forall i :: 0 <= i < |p.chunks| ==> |p.chunks[i]| >= threshold)
      && (|p.buffer| < threshold || p.buffer == [])
    decreases |frames|
  {
    if frames != [] {
      var a := Accept(buffer, frames[0], threshold);
      ProduceBounds(a.buffer, frames[1..], threshold);
    }
  }

  /** The two buffers of the speech segmenter: the one-chunk pad kept in front
      of speech, and the segment being assembled. */
  datatype Segmenter = Segmenter(preSpeech: seq<Word32>, segment: seq<Word32>)

  /** One classified chunk's effect on the segmenter, and the segment handed
      on for transcription, if any. */
  datatype Stepped = Stepped(next: Segmenter, emitted: Option<seq<Word32>>)

  /** A negative classifier result changes nothing; a positive one starts a
      segment from the pad (or grows the current one) by the chunk; zero
      either ends the current segment with the chunk as trailing pad and emits
      it, or, while idle, keeps the chunk as the new pad. */
  function Step(s: Segmenter, chunk: seq<Word32>, vad: int): Stepped
  {
    if vad < 0 then Stepped(s, None)
    else if vad > 0 then
      if s.segment == [] then Stepped(Segmenter(s.segment, s.preSpeech + chunk), None)
      else Stepped(Segmenter(s.preSpeech, s.segment + chunk), None)
    else if s.segment != [] then Stepped(Segmenter(s.preSpeech, []), Some(s.segment + chunk))
    else Stepped(Segmenter(chunk, s.segment), None)
  }

  /** While a segment is being assembled the pad is empty. */
  predicate SegmenterOk(s: Segmenter)
  {
    s.segment != [] ==> s.preSpeech == []
  }

  lemma StepKeepsSegmenterOk(s: Segmenter, chunk: seq<Word32>, vad: int)
    requires SegmenterOk(s)
    ensures SegmenterOk(Step(s, chunk, vad).next)
  {
  }

  /** The segmenter run over a sequence of chunks with their classifier results. */
  datatype Ran = Ran(last: Segmenter, segments: seq<seq<Word32>>)

  function Run(s: Segmenter, chunks: seq<seq<Word32>>, vads: seq<int>): Ran
    requires |chunks| == |vads|
    decreases |chunks|
  {
    if chunks == [] then Ran(s, [])
    else
      var t := Step(s, chunks[0], vads[0]);
      var rest := Run(t.next, chunks[1..], vads[1..]);
      match t.emitted
      case Some(seg) => Ran(rest.last, [seg] + rest.segments)
      case None => rest
  }

  /** Five chunks of 100 samples classified no, no, yes, yes, no from the idle
      state give one segment of 400 samples: the second silent chunk as pad,
      the two speech chunks and the last chunk as trailing pad. */
  lemma FiveChunkExample(c0: seq<Word32>, c1: seq<Word32>, c2: seq<Word32>, c3: seq<Word32>, c4: seq<Word32>)
    requires |c0| == 100 && |c1| == 100 && |c2| == 100 && |c3| == 100 && |c4| == 100
    ensures var r := Run(Segmenter([], []), [c0, c1, c2, c3, c4], [0, 0, 1, 1, 0]);
      && r.segments == [c1 + c2 + c3 + c4]
      && |r.segments[0]| == 400
      && r.last == Segmenter([], [])
  {
    var cs: seq<seq<Word32>> := [c0, c1, c2, c3, c4];
    var vs: seq<int> := [0, 0, 1, 1, 0];
    var s0 := Segmenter([], []);
    var s1 := Segmenter(c0, []);
    var s2 := Segmenter(c1, []);
    var s3 := Segmenter([], c1 + c2);
    var s4 := Segmenter([], c1 + c2 + c3);
    assert c1 + c2 != [];
    assert c1 + c2 + c3 != [];
    assert Run(s4, cs[4..], vs[4..]) == Ran(Segmenter([], []), [c1 + c2 + c3 + c4]) by {
      assert |cs[4..][1..]| == 0 && |vs[4..][1..]| == 0;
    }
    assert Run(s3, cs[3..], vs[3..]) == Run(s4, cs[4..], vs[4..]) by {
      assert cs[3..][1..] == cs[4..] && vs[3..][1..] == vs[4..];
    }
    assert Run(s2, cs[2..], vs[2..]) == Run(s3, cs[3..], vs[3..]) by {
      assert cs[2..][1..] == cs[3..] && vs[2..][1..] == vs[3..];
    }
    assert Run(s1, cs[1..], vs[1..]) == Run(s2, cs[2..], vs[2..]) by {
      assert cs[1..][1..] == cs[2..] && vs[1..][1..] == vs[2..];
    }
  }

  /** Silence only, from the idle state: nothing is emitted and the pad is the
      last chunk. */
  lemma {:induction false} SilenceEmitsNothing(s: Segmenter, chunks: seq<seq<Word32>>, vads: seq<int>)
    requires s.segment == [] && |chunks| == |vads| && |chunks| > 0
    requires forall i :: 0 <= i < |vads| ==> vads[i] == 0
    ensures Run(s, chunks, vads) == Ran(Segmenter(chunks[|chunks| - 1], []), [])
    decreases |chunks|
  {
    if |chunks| > 1 {
      SilenceEmitsNothing(Segmenter(chunks[0], []), chunks[1..], vads[1..]);
    }
  }

  /** A chunk the classifier failed on is as if it had never arrived. */
  lemma {:induction false} ErrorChunkIsSkipped(s: Segmenter, before: seq<seq<Word32>>, vb: seq<int>, chunk: seq<Word32>, vad: int,
                                               after: seq<seq<Word32>>, va: seq<int>)
    requires |before| == |vb| && |after| == |va| && vad < 0
    ensures Run(s, before + [chunk] + after, vb + [vad] + va) == Run(s, before + after, vb + va)
    decreases |before|
  {
    if before == [] {
      assert before + [chunk] + after == [chunk] + after;
      assert vb + [vad] + va == [vad] + va;
      assert ([chunk] + after)[1..] == after && ([vad] + va)[1..] == va;
      assert before + after == after && vb + va == va;
    } else {
      var t := Step(s, before[0], vb[0]);
      ErrorChunkIsSkipped(t.next, before[1..], vb[1..], chunk, vad, after, va);
      assert (before + [chunk] + after)[1..] == before[1..] + [chunk] + after;
      assert (vb + [vad] + va)[1..] == vb[1..] + [vad] + va;
      assert (before + after)[1..] == before[1..] + after;
      assert (vb + va)[1..] == vb[1..] + va;
    }
  }

  /** The audio capture object. `running` is the shared run flag the stream
      callback polls; the device list, stream handle and sound output are not
      modelled. */
  class AudioWrapper {
    var running: bool
    const micDev: string
    const samplesPerSecond: Word32
    const samplesPerCheck: Word32
    var audioBuffer: seq<Word32>
    var audioToCheck: seq<Word32>
    var audioPending: bool
    var preSpeech: seq<Word32>
    var speechSegment: seq<Word32>

    /** The working buffer stays below the threshold (it is empty for a zero
        threshold), a pending chunk reaches the threshold, and the pad is empty
        while a segment is being assembled. */
    ghost predicate Valid()
      reads this
    {
      && (|audioBuffer| < samplesPerCheck || audioBuffer == [])
      && (audioPending ==> |audioToCheck| >= samplesPerCheck)
      && SegmenterOk(Segmenter(preSpeech, speechSegment))
    }

    /** The fields the configuration sets; every buffer starts empty. */
    constructor (micDev: string, samplesPerSecond: Word32, samplesPerCheck: Word32, running: bool)
      ensures Valid()
      ensures this.micDev == micDev && this.samplesPerSecond == samplesPerSecond
      ensures this.samplesPerCheck == samplesPerCheck && this.running == running
      ensures audioBuffer == [] && audioToCheck == [] && !audioPending
      ensures preSpeech == [] && speechSegment == []
    {
      this.micDev := micDev;
      this.samplesPerSecond := samplesPerSecond;
      this.samplesPerCheck := samplesPerCheck;
      this.running := running;
      audioBuffer := [];
      audioToCheck := [];
      audioPending := false;
      preSpeech := [];
      speechSegment := [];
    }

    /** The index of the first device named `deviceName`, or -1 when none is. */
    method FindDeviceId(deviceNames: seq<string>, deviceName: string) returns (id: int)
      ensures -1 <= id < |deviceNames|
      ensures id >= 0 ==> deviceNames[id] == deviceName && forall j :: 0 <= j < id ==> deviceNames[j] != deviceName
      ensures id == -1 <==> forall j :: 0 <= j < |deviceNames| ==> deviceNames[j] != deviceName
    {
      var i := 0;
      while i < |deviceNames|
        invariant 0 <= i <= |deviceNames|
        invariant forall j :: 0 <= j < i ==> deviceNames[j] != deviceName
      {
        if deviceName == deviceNames[i] {
          return i;
        }
        i := i + 1;
      }
      return -1;
    }

    /** Opening the stream: -1 when the microphone is not found, -2 when the
        stream cannot be opened, -3 when it cannot be started, 0 otherwise.
        The outcomes of the two PortAudio calls are parameters. */
    method Start(deviceNames: seq<string>, openOk: bool, startOk: bool) returns (r: int)
      ensures r == -1 <==> micDev !in deviceNames
      ensures r == -2 <==> micDev in deviceNames && !openOk
      ensures r == -3 <==> micDev in deviceNames && openOk && !startOk
      ensures r == 0 <==> micDev in deviceNames && openOk && startOk
    {
      var id := FindDeviceId(deviceNames, micDev);
      if id == -1 {
        return -1;
      }
      if !openOk {
        return -2;
      }
      if !startOk {
        return -3;
      }
      return 0;
    }

    /** The stream callback. A stopped wrapper completes the stream and
        touches nothing; a callback without input changes nothing; otherwise
        the frames are pushed one by one onto the working buffer, and once it
        reaches the threshold it replaces whatever chunk sits in the slot,
        unread or not, and the slot is marked pending. */
    method RecordCallback(input: Option<seq<Word32>>) returns (r: StreamResult)
      requires Valid()
      modifies this`audioBuffer, this`audioToCheck, this`audioPending
      ensures Valid()
      ensures r == (if running then Continue else Complete)
      ensures !running || input.None? ==>
        audioBuffer == old(audioBuffer) && audioToCheck == old(audioToCheck) && audioPending == old(audioPending)
      ensures running && input.Some? ==>
        var a := Accept(old(audioBuffer), input.value, samplesPerCheck);
        && audioBuffer == a.buffer
        && (a.chunk.Some? ==> audioToCheck == a.chunk.value && audioPending)
        && (a.chunk.None? ==> audioToCheck == old(audioToCheck) && audioPending == old(audioPending))
    {
      if !running {
        return Complete;
      }
      if input.Some? {
        var frames := input.value;
        for i := 0 to |frames|
          invariant audioBuffer == old(audioBuffer) + frames[..i]
          modifies this`audioBuffer
        {
          audioBuffer := audioBuffer + [frames[i]];
        }
        assert frames[..|frames|] == frames;
        if |audioBuffer| >= samplesPerCheck {
          audioToCheck := [];
          audioToCheck, audioBuffer := audioBuffer, audioToCheck;
          audioPending := true;
        }
      }
      return Continue;
    }

    /** One poll of the segmenter. With no chunk pending nothing happens and
        the answer is 0. Otherwise the pending mark is cleared and the chunk
        classified: a negative result answers -2; a finished segment is framed
        as a WAV buffer into `speech`, handed to the transcriber and cleared,
        answering 1, or -5 when the transcriber reports failure (non-zero);
        every other case answers 0. When a silent chunk becomes the pad, the
        old pad is swapped into the slot. `speech` is left as it came unless a
        segment is emitted. */
    method CheckForSpeech(classify: seq<Word32> -> int, transcribe: seq<Word32> -> int, speechIn: seq<Byte>)
      returns (r: int, speech: seq<Byte>)
      requires Valid()
      modifies this`audioToCheck, this`audioPending, this`preSpeech, this`speechSegment
      ensures Valid() && !audioPending
      ensures !old(audioPending) ==>
        r == 0 && speech == speechIn && audioToCheck == old(audioToCheck)
        && preSpeech == old(preSpeech) && speechSegment == old(speechSegment)
      ensures old(audioPending) ==>
        var vad := classify(old(audioToCheck));
        var t := Step(Segmenter(old(preSpeech), old(speechSegment)), old(audioToCheck), vad);
        && preSpeech == t.next.preSpeech && speechSegment == t.next.segment
        && audioToCheck == (if vad == 0 && old(speechSegment) == [] then old(preSpeech) else old(audioToCheck))
        && (t.emitted.Some? ==>
              speech == WavFile(t.emitted.value, samplesPerSecond)
              && r == (if transcribe(t.emitted.value) != 0 then -5 else 1))
        && (t.emitted.None? ==> speech == speechIn && r == (if vad < 0 then -2 else 0))
    {
      speech := speechIn;
      var speechToProcess := false;
      if audioPending {
        audioPending := false;
        var vadResult := classify(audioToCheck);
        if vadResult < 0 {
          return -2, speech;
        } else if vadResult > 0 {
          if |speechSegment| == 0 {
            speechSegment, preSpeech := preSpeech, speechSegment;
          }
          speechSegment := speechSegment + audioToCheck;
        } else {
          if |speechSegment| != 0 {
            speechSegment := speechSegment + audioToCheck;
            speech := FrameWav(speechSegment, samplesPerSecond);
            speechToProcess := true;
          } else {
            preSpeech, audioToCheck := audioToCheck, preSpeech;
          }
        }
      }
      if speechToProcess {
        var failed := transcribe(speechSegment) != 0;
        speechSegment := [];
        if failed {
          return -5, speech;
        }
        return 1, speech;
      }
      return 0, speech;
    }

    /** Drops the segment being assembled. */
    method ClearSpeechBuffer()
      requires Valid()
      modifies this`speechSegment
      ensures Valid() && speechSegment == []
    {
      speechSegment := [];
    }
  }

  /** The static trampoline PortAudio calls: without a wrapper the stream
      completes, otherwise the wrapper's callback answers and updates the
      wrapper's buffers as RecordCallback does, leaving the segmenter alone. */
  method RecordCallbackStatic(w: AudioWrapper?, input: Option<seq<Word32>>) returns (r: StreamResult)
    requires w != null ==> w.Valid()
    modifies w
    ensures w == null ==> r == Complete
    ensures w != null ==> w.Valid() && r == (if w.running then Continue else Complete)
    ensures w != null ==>
      && w.running == old(w.running)
      && w.preSpeech == old(w.preSpeech) && w.speechSegment == old(w.speechSegment)
    ensures w != null && (!w.running || input.None?) ==>
      w.audioBuffer == old(w.audioBuffer) && w.audioToCheck == old(w.audioToCheck) && w.audioPending == old(w.audioPending)
    ensures w != null && w.running && input.Some? ==>
      var a := Accept(old(w.audioBuffer), input.value, w.samplesPerCheck);
      && w.audioBuffer == a.buffer
      && (a.chunk.Some? ==> w.audioToCheck == a.chunk.value && w.audioPending)
      && (a.chunk.None? ==> w.audioToCheck == old(w.audioToCheck) && w.audioPending == old(w.audioPending))
  {
    if w == null {
      return Complete;
    }
    r := w.RecordCallback(input);
  }
}
