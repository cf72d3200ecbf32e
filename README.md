# vision-impaired-glasses: a Dafny model of the sequential core

The program runs smart glasses for people with impaired vision. A camera
thread shows an enhanced picture that a few keys control. An audio thread
cuts the microphone stream into chunks and groups the chunks a voice-activity
detector calls speech into segments. Each segment is framed as a WAV buffer
and transcribed. Answers are spoken back through espeak and an onnx voice. A
small option library (AnyOption) and a configuration facade read the command
line and a resource file.

This project models the bookkeeping around those foreign libraries:

- `words.dfy` (`Words`): byte and word types and an `Option` type.
- `string_utils.dfy` (`StringUtils`): `ltrim`, `rtrim`, `trim`, `lowercase` and
  `trim_and_lowercase` as functions, with their properties as lemmas.
- `wav.dfy` (`Wav`): the 44-byte `wav_hdr_t` header, its little-endian memory
  image, the sample payload, and the byte-by-byte framing loop (`FrameWav`).
- `audio_capture.dfy` (`AudioCapture`): the stream callback's chunk producer;
  the two-state speech segmenter as a specification (`Step`, `Run`); and the
  class `AudioWrapper`, whose methods update the buffers in place and are
  proved against that specification.
- `anyoption.dfy` (`AnyOptions`): the option record list and
  specification functions for every parser operation. The class `AnyOption`
  has methods with the source's loops, each proved equal to its
  specification function.
- `anyoption_facts.dfy` (`AnyOptionFacts`): what GNU and POSIX arguments and
  resource-file lines do to the records, and what the getters answer.
- `config.dfy` (`Config`): the program's options and flags, their
  registration with AnyOption, the `parse` and `parse_args` sequences and the
  copy loops, with the properties of those parses.
- `espeak.dfy` (`Espeak`): clause-terminator masks, the sentence split, the
  phoneme-id sequences with BOS/PAD/EOS framing and `(lang)` filtering, and the
  queue drain into a WAV buffer (class `SpeechSynth`).
- `image_thread.dfy` (`ImageThread`): the per-key view settings and their
  bounds, the crop rectangle, the frame loop, and the one-slot command mailbox
  (class `ImageThreadState`).

Mutexes and atomics are read as plain fields; every operation is sequential.
Samples are only copied, so they are opaque 32-bit words (`Word32`).

Some behaviours of the code are modelled as written and stated as lemmas:

- An option whose character is `'0'` cannot take its value from the next
  argument. `parsePOSIX` uses `'0'` as its "nothing returned" answer
  (`AnyOptionFacts.PosixZeroCharTakesNoValue`).
- `waitKey` results go through a `char`. A key code whose low byte is 255
  reads as "no key" (`ImageThread.SignedCharFacts`).
- A `(` with no closing `)` drops the rest of the sentence's phonemes
  (`Espeak.UnclosedLangFlag`).
- The WAV header says `blockAlign` 2 although each sample takes 4 bytes
  (`Wav.NewHeader`).
- A chunk the callback completes while an unread one is pending replaces it
  (`AudioCapture.AudioWrapper.RecordCallback`).
- The mode key is tested before the `.`/`,` keys, and `.`/`,` act in the
  current mode (`ImageThread.OnKey`, `ImageThread.ModeCycle`).
- A resource file is read only for the records `parse` registers. An optional
  option is registered as a command-line option there, so no file line can
  reach it (`Config.OptionalNotFromFile`).

## Model

| member | source | states |
|---|---|---|
| StringUtils.LTrim | src/string_utils.h:6-10 | the result is a suffix of `s`; everything removed is in `t`; a non-empty result starts outside `t` (longest such prefix removed, all of `s` when every char is in `t`) |
| StringUtils.RTrim | src/string_utils.h:13-17 | the result is a prefix of `s`; everything removed is in `t`; a non-empty result ends outside `t` |
| StringUtils.Trim | src/string_utils.h:20-23 | the right trim followed by the left trim over the same set; `TrimEnds`, `TrimIsTrimmedSlice` and `TrimIdempotent` state what it yields |
| StringUtils.TrimBounds | src/string_utils.h:20-23 | trim keeps a slice `s[i..j]` and everything cut away on either side lies in `t` |
| StringUtils.TrimEnds | src/string_utils.h:20-23 | a non-empty trim result neither begins nor ends with a character of `t` |
| StringUtils.TrimIsTrimmedSlice | src/string_utils.h:20-23 | trim is a contiguous substring of `s` that neither begins nor ends in `t`, with all the cut characters in `t` |
| StringUtils.TrimKeepsTrimmed | src/string_utils.h:20-23 | a string whose ends are outside `t` is returned unchanged |
| StringUtils.TrimIdempotent | src/string_utils.h:20-23 | trimming twice is trimming once |
| StringUtils.AllTrimCharsVanish | src/string_utils.h:6-23 | a string made only of trim characters becomes empty under ltrim, rtrim and trim |
| StringUtils.HyphenIsTrimmed | src/string_utils.h:6 | the default set contains '-', so "--" trims to "" |
| StringUtils.LowerChar | src/string_utils.h:25-29 | each of 'A'..'Z' goes to the letter 32 code points up ('a'..'z'); the result is never an upper-case ASCII letter, and characters outside 'A'..'Z' are unchanged |
| StringUtils.LowercaseUpper | src/string_utils.h:25-29 | a string of upper-case letters becomes, letter by letter, the lower-case letters 32 code points up |
| StringUtils.Lowercase | src/string_utils.h:25-29 | same length; each character is mapped on its own by the "C"-locale tolower, so 'A'..'Z' become 'a'..'z' and nothing else changes |
| StringUtils.TrimAndLowercase | src/string_utils.h:31-34 | lowercase after trim with the default set; `TrimAndLowercaseShape` states its length, characters and that it is already lower case |
| StringUtils.LowercaseIdempotent | src/string_utils.h:25-29 | lowercase is idempotent and leaves no 'A'..'Z' |
| StringUtils.TrimAndLowercaseShape | src/string_utils.h:31-34 | the result has the trimmed length, is the lower-cased trimmed string character by character, and is already lower case |
| Wav.LE16RoundTrip | src/audio/audio_wrapper.cpp:22-40 | reading back a 16-bit little-endian image gives the value |
| Wav.LE32RoundTrip | src/audio/audio_wrapper.cpp:22-40 | reading back a 32-bit little-endian image gives the value |
| Wav.NewHeader | src/audio/audio_wrapper.cpp:280-289 | ChunkSize is numBytes + 36 and Subchunk2Size numBytes (both mod 2^32); format 3, mono, rate and 4·rate bytes per second (mod 2^32), blockAlign 2, 32 bits per sample |
| Wav.HeaderByte | src/audio/audio_wrapper.cpp:285-288 | byte i of the header's memory image, field by field in little-endian order; `SerializeRoundTrip` and `SerializeChunkIds` state what it holds |
| Wav.Serialize | src/audio/audio_wrapper.cpp:22-40 | the header image is 44 bytes long |
| Wav.Parse | src/audio/audio_wrapper.cpp:22-40 | reads every numeric field back from the little-endian header image; the partner of `Serialize` in `SerializeRoundTrip` |
| Wav.SerializeChunkIds | src/audio/audio_wrapper.cpp:22-40 | the image holds "RIFF", "WAVE", "fmt " and "data" at offsets 0, 8, 12 and 36 |
| Wav.SerializeRoundTrip | src/audio/audio_wrapper.cpp:22-40 | parsing the image gives back every numeric field |
| Wav.Payload | src/audio/audio_wrapper.cpp:290 | the payload holds 4 bytes per sample |
| Wav.PayloadRoundTrip | src/audio/audio_wrapper.cpp:290 | the payload decodes to exactly the samples |
| Wav.PayloadAppend | src/audio/audio_wrapper.cpp:290 | the payload of joined samples is the joined payloads |
| Wav.WavFileLayout | src/audio/audio_wrapper.cpp:275-290 | a framed buffer of N samples has length 44 + 4N, the chunk ids, ChunkSize 4N+36, Subchunk2Size 4N, format 3, mono, the rate, 4·rate, blockAlign 2, 32 bits, and the samples as payload |
| Wav.WavFileHeader | src/audio/audio_wrapper.cpp:280-289 | the buffer's first 44 bytes parse to the header built for 4N bytes |
| Wav.WavFilePayload | src/audio/audio_wrapper.cpp:290 | the bytes after the header decode to the samples |
| Wav.FrameWav | src/audio/audio_wrapper.cpp:275-290 | the header-copy loop and the memcpy produce exactly the WAV buffer of the samples |
| Wav.WavFile | src/audio/audio_wrapper.cpp:275-290 | the header for 4N bytes followed by the N samples; `WavFileLayout`, `WavFileHeader` and `WavFilePayload` state its layout |
| AudioCapture.Accept | src/audio/audio_wrapper.cpp:231-240 | a chunk is handed over exactly when buffer ++ frames reaches the threshold; the chunk is then buffer ++ frames and the buffer empties; otherwise the buffer is buffer ++ frames and stays below the threshold |
| AudioCapture.Produce | src/audio/audio_wrapper.cpp:219-245 | the callbacks run one after another over the frames; `ProduceConserves` and `ProduceBounds` state what they hand over |
| AudioCapture.Step | src/audio/audio_wrapper.cpp:257-298 | one classified chunk: error skips it; speech opens a segment from the pad or grows the open one; silence closes and emits an open segment with the chunk as tail, or else keeps the chunk as pad; `StepKeepsSegmenterOk` states its invariant |
| AudioCapture.Run | src/audio/audio_wrapper.cpp:247-315 | `Step` over a run of chunks, collecting the emitted segments; `SilenceEmitsNothing`, `ErrorChunkIsSkipped` and `FiveChunkExample` state its behaviour |
| AudioCapture.ProduceConserves | src/audio/audio_wrapper.cpp:231-240 | over a run of callbacks the chunks followed by the leftover buffer are the old buffer followed by all frames: nothing lost, duplicated or reordered |
| AudioCapture.ProduceBounds | src/audio/audio_wrapper.cpp:231-240 | every chunk reaches the threshold and the leftover buffer stays below it |
| AudioCapture.StepKeepsSegmenterOk | src/audio/audio_wrapper.cpp:253-312 | each classified chunk keeps the invariant that the pad is empty while a segment is open |
| AudioCapture.FiveChunkExample | src/audio/audio_wrapper.cpp:260-312 | 100-sample chunks classified no, no, yes, yes, no emit exactly one 400-sample segment: pad, two speech chunks, trailing chunk |
| AudioCapture.SilenceEmitsNothing | src/audio/audio_wrapper.cpp:267-310 | silence from idle emits nothing and leaves the last chunk as pad |
| AudioCapture.ErrorChunkIsSkipped | src/audio/audio_wrapper.cpp:256-259 | a chunk the classifier fails on has the same effect as a chunk that never arrived |
| AudioCapture.AudioWrapper.constructor | src/audio/audio_wrapper.cpp:44-49 | the configured fields are stored and every buffer starts empty |
| AudioCapture.AudioWrapper.FindDeviceId | src/audio/audio_wrapper.cpp:189-199 | the smallest index whose name equals the request, and -1 exactly when none does |
| AudioCapture.AudioWrapper.Start | src/audio/audio_wrapper.cpp:90-127 | -1 exactly when the microphone is not listed, -2 when opening fails, -3 when starting fails, 0 otherwise |
| AudioCapture.AudioWrapper.RecordCallback | src/audio/audio_wrapper.cpp:219-245 | stopped: Complete and no change; no input: no change; else frames are appended and a full buffer replaces the slot (unread or not) and marks it pending, as `Accept` says |
| AudioCapture.AudioWrapper.CheckForSpeech | src/audio/audio_wrapper.cpp:247-315 | no pending chunk: 0 and no change; else pending cleared and the segmenter moves by `Step`; -2 on a classifier error; an emitted segment is framed as its WAV and answers 1, or -5 when transcription fails |
| AudioCapture.AudioWrapper.ClearSpeechBuffer | src/audio/audio_wrapper.cpp:317-319 | the segment is emptied |
| AudioCapture.RecordCallbackStatic | src/audio/audio_wrapper.cpp:201-216 | without a wrapper the stream completes; otherwise the wrapper's callback answers |
| AnyOptions.Code | src/config/anyoption.h:27-34 | codes 1-3 are exactly the option kinds and 4-6 exactly the flag kinds |
| AnyOptions.NameCharEntry | src/config/anyoption.h:67-69 | char_set and name_set true, set false |
| AnyOptions.NameEntry | src/config/anyoption.h:71-73 | name_set true, char_set false, set false |
| AnyOptions.CharEntry | src/config/anyoption.h:75-77 | char_set true, name_set false, set false |
| AnyOptions.FirstFrom | src/config/anyoption.cpp:139-190 | the first record from a position on that matches the key with a kind in the set, or -1 exactly when none does |
| AnyOptions.FirstMatch | src/config/anyoption.cpp:139-190 | the first record that matches the key with a kind in the set, or -1 exactly when none does |
| AnyOptions.Assign | src/config/anyoption.cpp:201-216 | only the one record changes, taking the value and the set mark, and its key is kept |
| AnyOptions.Raise | src/config/anyoption.cpp:152-157 | only the one record changes, taking the set mark, and its key and value are kept |
| AnyOptions.FirstIndex | src/config/anyoption.cpp:117-122 | the index of the first occurrence of the character, or the length when there is none |
| AnyOptions.SkipFill | src/config/anyoption.cpp:100-103 | the first index from the start on that is neither a space nor the equals sign; everything skipped is one of the two |
| AnyOptions.MatchOptResult | src/config/anyoption.cpp:139-163 | records keep their keys and file-only records are untouched; a found option is returned with the records unchanged (a found flag is set instead) |
| AnyOptions.SetValueByChar | src/config/anyoption.cpp:201-216 | a command-line value never touches a file-only record |
| AnyOptions.LineResult | src/config/anyoption.cpp:235-261 | a resource-file line never touches a command-line-only record |
| AnyOptions.IsBlank | src/config/anyoption.cpp:237-241 | the four characters removed from a resource-file line |
| AnyOptions.Count | src/config/anyoption.cpp:246-249 | the number of delimiters in the line; `CountAppend` states that it adds over joined text |
| AnyOptions.StripBlanks | src/config/anyoption.cpp:237-241 | no '\r', '\t', ' ' or '\n' is left in the line; order is kept, as `StripBlanksAppend` and `StripBlanksSingle` state |
| AnyOptions.MatchCharResult | src/config/anyoption.cpp:165-190 | the first command-line record with character c: an option is reported, a flag is set; `PosixSeparateValue`, `PosixAttached` and `FlagThenOptionScan` use it |
| AnyOptions.SetValueByName | src/config/anyoption.cpp:192-199 | the record matchOpt finds for the name takes the value; `GnuInlineValue` uses it |
| AnyOptions.ParseGnuResult | src/config/anyoption.cpp:113-136 | `--name=value` split at the first equals sign, or the whole name looked up; `GnuInlineValue`, `GnuFlag` and `GnuReturnsNothing` state its cases |
| AnyOptions.PosixFrom | src/config/anyoption.cpp:88-111 | the character scan of one `-...` argument; `PosixAttachedValue`, `PosixFlagThenOption` and `PosixReturns` state its cases |
| AnyOptions.ValuePairsResult | src/config/anyoption.cpp:263-296 | the one-character then by-name lookup of a key among common and file options; `PairByCharFirst` and `PairByName` state it |
| AnyOptions.JustValueResult | src/config/anyoption.cpp:298-329 | the same lookup among common and file flags, which are set; `FlagLine` uses it |
| AnyOptions.LinesResult | src/config/anyoption.cpp:218-233 | every line of the file processed in order; `FileKeepsCommandRecords` and `CommandLineOverridesFile` state what it keeps |
| AnyOptions.ValueOf | src/config/anyoption.cpp:331-349 | the value of the first matching option record when it is set, else ""; `ValueOfAssigned` and `ValueOfUnset` state it |
| AnyOptions.FlagOf | src/config/anyoption.cpp:371-385 | whether the first matching flag record is set; `FlagOfRaised` states it |
| AnyOptions.ArgsFrom | src/config/anyoption.cpp:65-86 | the command line keeps every record's key and never touches a file-only record; a value is taken from the next argument only when there is one (`GnuSeparateValue`, `PosixSeparateValue`, `GnuLastTakesNothing`, `PosixLastTakesNothing`) |
| AnyOptions.AnyOption.constructor | src/config/anyoption.cpp:9-17 | no records; '=' as equals sign, '#' as comment and '=' as delimiter |
| AnyOptions.AnyOption.SetFileCommentChar | src/config/anyoption.cpp:23-26 | the comment character is replaced |
| AnyOptions.AnyOption.SetFileDelimiterChar | src/config/anyoption.cpp:28-31 | the delimiter is replaced |
| AnyOptions.AnyOption.AddOption | src/config/anyoption.cpp:43-56 | exactly one name-and-char record is appended |
| AnyOptions.AnyOption.AddNameOption | src/config/anyoption.cpp:43-56 | exactly one name-only record is appended |
| AnyOptions.AnyOption.AddCharOption | src/config/anyoption.cpp:43-56 | exactly one char-only record is appended |
| AnyOptions.AnyOption.AddUsage | src/config/anyoption.cpp:418-421 | exactly one usage line is appended |
| AnyOptions.AnyOption.FindEntry | src/config/anyoption.cpp:139-190 | the index of the first record matching the key among the kinds, or -1 when none does |
| AnyOptions.AnyOption.MatchOpt | src/config/anyoption.cpp:139-163 | records and answer as `MatchOptResult` |
| AnyOptions.AnyOption.MatchChar | src/config/anyoption.cpp:165-190 | records and answer as `MatchCharResult` |
| AnyOptions.AnyOption.SetValueName | src/config/anyoption.cpp:192-199 | records and answer as `SetValueByName` |
| AnyOptions.AnyOption.SetValueChar | src/config/anyoption.cpp:201-216 | records and answer as `SetValueByChar` |
| AnyOptions.AnyOption.ParseGnu | src/config/anyoption.cpp:113-136 | records and returned name as `ParseGnuResult` |
| AnyOptions.AnyOption.ParsePosix | src/config/anyoption.cpp:88-111 | records and returned character as `PosixFrom` |
| AnyOptions.AnyOption.ProcessCommandArgs | src/config/anyoption.cpp:65-86 | the records become `ArgsFrom` of argv from index 1 |
| AnyOptions.AnyOption.ValuePairs | src/config/anyoption.cpp:263-296 | the records become `ValuePairsResult` |
| AnyOptions.AnyOption.JustValue | src/config/anyoption.cpp:298-329 | the records become `JustValueResult` |
| AnyOptions.AnyOption.ProcessLine | src/config/anyoption.cpp:235-261 | the records become `LineResult` of the line |
| AnyOptions.AnyOption.ProcessFile | src/config/anyoption.cpp:218-233 | true exactly when the file opens; then every line is processed in order, else nothing changes |
| AnyOptions.AnyOption.GetValue | src/config/anyoption.cpp:331-349 | the value of the first matching option record when it is set, else "" |
| AnyOptions.AnyOption.GetValueChar | src/config/anyoption.cpp:351-369 | the same, looked up by character |
| AnyOptions.AnyOption.GetFlag | src/config/anyoption.cpp:371-385 | the set mark of the first matching flag record, false when none matches |
| AnyOptions.AnyOption.GetFlagChar | src/config/anyoption.cpp:387-400 | the same, looked up by character |
| AnyOptionFacts.FirstMatchSameKeys | src/config/anyoption.cpp:139-190 | updates of values and set marks never change which record a lookup finds |
| AnyOptionFacts.ValueOfAssigned | src/config/anyoption.cpp:331-349 | after a value is assigned to the first option record for a key, getValue answers it |
| AnyOptionFacts.FlagOfRaised | src/config/anyoption.cpp:371-400 | after the first flag record for a key is set, getFlag answers true |
| AnyOptionFacts.ValueOfUnset | src/config/anyoption.cpp:331-369 | getValue answers "" when the first option record is unset, whatever later records hold, or when none matches |
| AnyOptionFacts.GnuSeparateValue | src/config/anyoption.cpp:67-73 | `--name value` gives the option the next argument and consumes it |
| AnyOptionFacts.GnuInlineValue | src/config/anyoption.cpp:113-128 | `--name=value`, split at the first '=', sets the value and leaves the next argument alone |
| AnyOptionFacts.GnuFlag | src/config/anyoption.cpp:152-157 | `--flag` sets the flag and consumes no argument |
| AnyOptionFacts.PosixSeparateValue | src/config/anyoption.cpp:75-79 | `-c value` gives option c the next argument and consumes it |
| AnyOptionFacts.PosixAttachedValue | src/config/anyoption.cpp:88-111 | `-cvalue` gives option c the rest of the argument after spaces and '=' |
| AnyOptionFacts.PosixFlagThenOption | src/config/anyoption.cpp:75-111 | in `-fc value` the flag f is set, scanning goes on, and option c takes the next argument |
| AnyOptionFacts.PosixZeroCharTakesNoValue | src/config/anyoption.cpp:75-79 | an option whose character is '0' does not consume the next argument |
| AnyOptionFacts.GnuLastTakesNothing | src/config/anyoption.cpp:69-73 | `--name` naming an option as the last argument changes no record: there is no next argument for its value |
| AnyOptionFacts.PosixLastTakesNothing | src/config/anyoption.cpp:75-79 | `-c` for an option as the last argument changes no record: there is no next argument for its value |
| AnyOptionFacts.ArgsFromSuffix | src/config/anyoption.cpp:65-86 | only the arguments from the current index on matter |
| AnyOptionFacts.ProgramNameIgnored | src/config/anyoption.cpp:67 | argv[0] never affects the records |
| AnyOptionFacts.CommandLineKeepsFileRecords | src/config/anyoption.cpp:201-216 | the command line never changes a FILE_OPT or FILE_FLAG record |
| AnyOptionFacts.StripBlanksMembers | src/config/anyoption.cpp:237-241 | stripping removes exactly the blanks: a character survives iff it was there and is not a blank |
| AnyOptionFacts.StripBlanksNone | src/config/anyoption.cpp:237-241 | a line without blanks is unchanged |
| AnyOptionFacts.StripBlanksAppend | src/config/anyoption.cpp:237-241 | stripping joined text is stripping each part and joining: order is kept |
| AnyOptionFacts.StripBlanksSingle | src/config/anyoption.cpp:237-241 | a single character is removed exactly when it is a blank |
| AnyOptionFacts.StripBlanksAll | src/config/anyoption.cpp:237-241 | an all-blank line strips to the empty line |
| AnyOptionFacts.PaddedStrips | src/config/anyoption.cpp:237-241 | blanks around blank-free text are removed and the text kept |
| AnyOptionFacts.CountAppend | src/config/anyoption.cpp:246-249 | the delimiter count of joined text is the sum of the counts |
| AnyOptionFacts.PairLine | src/config/anyoption.cpp:246-256 | a blank-free `key=value` line with one delimiter goes to valuePairs with the key and value split at it |
| AnyOptionFacts.StrippedPairLine | src/config/anyoption.cpp:237-256 | any line that strips to `key=value` with one delimiter goes to valuePairs with that key and value |
| AnyOptionFacts.PaddedPairLine | src/config/anyoption.cpp:237-256 | a `key = value` line padded with blanks around key and value goes to valuePairs with the unpadded key and value |
| AnyOptionFacts.SpacedPairExample | src/config/anyoption.cpp:237-256 | the line " port = 8080 " sets port to 8080 |
| AnyOptionFacts.PairByCharFirst | src/config/anyoption.cpp:263-282 | a one-character key first sets the first COMMON_OPT or FILE_OPT record with that character |
| AnyOptionFacts.PairByName | src/config/anyoption.cpp:283-296 | otherwise the first such record with that name is set, and an unknown key changes nothing |
| AnyOptionFacts.FlagLine | src/config/anyoption.cpp:250-252 | a blank-free line without the delimiter goes to justValue |
| AnyOptionFacts.IgnoredLines | src/config/anyoption.cpp:237-261 | empty lines, comment lines and lines with two or more delimiters change nothing |
| AnyOptionFacts.FileKeepsCommandRecords | src/config/anyoption.cpp:218-329 | a resource file never changes a COMMAND_OPT or COMMAND_FLAG record |
| AnyOptionFacts.CommandLineOverridesFile | src/config/anyoption.cpp:65-86 | after command line, file and command line again, `--name value` leaves `value` in that option, whatever the file said |
| Config.UsageLine | src/config/config.h:31-33 | the usage is " -", the character, " --", the name, two tabs, then the help text, at fixed offsets |
| Config.NewOption | src/config/config.h:28-34 | name, character and optional stored (optional false by default), empty value, that usage line |
| Config.NewFlag | src/config/config.h:53-59 | the flag starts unset with the same usage format |
| Config.Config.constructor | src/config/config.h:69 | no options and no flags |
| Config.Config.AddOption | src/config/config.cpp:17-20 | exactly one option is appended, order kept |
| Config.Config.AddFlag | src/config/config.cpp:29-32 | exactly one flag is appended, order kept |
| Config.Config.Register | src/config/config.cpp:50-72 | every option, then every flag, is registered under its name and character; optional ones get the given kind |
| Config.Config.NewParser | src/config/config.cpp:50-72 | the new parser holds the help record, the config-file record for `parse`, then the options and flags |
| Config.Config.CopyOptionValues | src/config/config.cpp:97-108 | the options become `CopyOptions` of the parsed records; false at the first mandatory option without a value |
| Config.Config.CopyFlagValues | src/config/config.cpp:109-114 | each flag takes getFlag of its character |
| Config.Config.CopyOut | src/config/config.cpp:97-116 | the copy loops: -1 with the flags untouched when a mandatory value is missing, else 0 with every flag copied |
| Config.Config.Parse | src/config/config.cpp:48-117 | help on the first pass: -1 and nothing copied; else the `-c` or default file is read between two command-line passes and the values copied out as `CopyOptions`/`CopyFlags` say |
| Config.Config.ParseArgs | src/config/config.cpp:128-186 | help: -1 before any copy; else the command-line values are copied out, -1 at the first mandatory option without one, 0 with every flag copied |
| Config.Config.GetFlag | src/config/config.cpp:189-196 | the value of the first flag with that name, false when there is none |
| Config.Config.GetValue | src/config/config.h:112-121 | the value of the first option with that name, "" when there is none |
| Config.FirstNamed | src/config/config.cpp:189-196 | the index of the first element with that name, or -1 exactly when none has it |
| Config.ReadConfigFile | src/config/config.cpp:86-93 | the file named by `-c` is processed when that value is non-empty, else the default file; an unopenable file changes nothing |
| Config.CopyOptions | src/config/config.cpp:97-108 | the copy loop over the options, stopping at the first mandatory option without a value; `CopyOptionsMeaning` states its result |
| Config.CopyOptionsMeaning | src/config/config.cpp:97-108 | copying succeeds iff no mandatory option lacks a value; then every option holds its value ("" for a bare optional one); on failure options before the first missing one are filled and the rest untouched |
| Config.ParseRecordOf | src/config/config.cpp:61-65 | in `parse`, option k's record is a command-line option exactly when the option is optional |
| Config.ParseRecords | src/config/config.cpp:50-72 | the records `parse` registers: help, config, the options (optional ones as command-line options) and the flags |
| Config.ArgsRecords | src/config/config.cpp:128-150 | the records `parse_args` registers: help, every option as a common option, and the flags |
| Config.ConfigFileName | src/config/config.cpp:86-93 | the `-c` value when it is non-empty, else the default file name |
| Config.AfterFile | src/config/config.cpp:86-93 | the file's lines processed in order, or the records unchanged when it cannot be opened |
| Config.OptionalNotFromFile | src/config/config.cpp:61-65 | an optional option's record is the same after the resource file, whatever the file holds |
| Config.HelpStops | src/config/config.cpp:76-80 | `-h` and `--help` set the help flag in both parses, so both answer -1 |
| Config.ParseFinds | src/config/config.cpp:50-72 | with unique names and characters, option k's name and character both find its record |
| Config.OverrideReadsBack | src/config/config.cpp:86-93 | `--name value` decides what getValue of the option's character answers after command line, file, command line |
| Config.CommandLineValueWins | src/config/config.cpp:86-114 | in `parse`, `--name value` for option k gives its character the value `value`, whatever the resource file says |
| Espeak.Masked | src/audio/espeak_wrapper.cpp:244 | the masked terminator keeps only the low 20 bits |
| Espeak.ClausesDistinct | src/audio/espeak_wrapper.cpp:17-31 | the six clause constants are distinct and survive the mask |
| Espeak.TerminatorTextIff | src/audio/espeak_wrapper.cpp:246-258 | "." / "?" / "!" / ", " / ": " / "; " exactly for period / question / exclamation / comma / colon / semicolon, "" for every other value |
| Espeak.TerminatorText | src/audio/espeak_wrapper.cpp:246-258 | the text appended for a clause's terminator; `TerminatorTextIff` states it |
| Espeak.SentenceTerminators | src/audio/espeak_wrapper.cpp:262-265 | period, question and exclamation start a new sentence; comma, colon and semicolon do not |
| Espeak.EndsSentence | src/audio/espeak_wrapper.cpp:262 | whether a terminator starts a new sentence; `SentenceTerminators` states it |
| Espeak.HighBitsIgnored | src/audio/espeak_wrapper.cpp:244 | bits above the low 20 never change the masked terminator |
| Espeak.Sentences | src/audio/espeak_wrapper.cpp:229-266 | there is always at least one sentence string |
| Espeak.SentenceCount | src/audio/espeak_wrapper.cpp:262-265 | there is one sentence more than there are sentence-closing clauses |
| Espeak.SentencesSpellClauses | src/audio/espeak_wrapper.cpp:229-266 | the sentences, joined, spell the clause texts in order: nothing lost or reordered |
| Espeak.Padded | src/audio/espeak_wrapper.cpp:296-303 | padding doubles the id count |
| Espeak.PaddedAt | src/audio/espeak_wrapper.cpp:296-303 | each id is followed by a PAD id |
| Espeak.PaddedAppend | src/audio/espeak_wrapper.cpp:296-303 | padding distributes over joined ids |
| Espeak.SentenceIdsShape | src/audio/espeak_wrapper.cpp:269-314 | every queued sequence starts BOS, PAD, ends EOS, has length 3 + 2·(ids contributed) and PAD at every odd position before EOS |
| Espeak.ScanAppend | src/audio/espeak_wrapper.cpp:285-307 | the code-point scan of joined text is the scan of the second part after the first |
| Espeak.LangFlagContributesNothing | src/audio/espeak_wrapper.cpp:285-295 | code points from '(' up to and including the next ')' contribute nothing |
| Espeak.UnclosedLangFlag | src/audio/espeak_wrapper.cpp:285-295 | after a '(' that is never closed nothing more is contributed |
| Espeak.UnmappedContributesNothing | src/audio/espeak_wrapper.cpp:296-307 | an unmapped code point contributes nothing |
| Espeak.ScanStep | src/audio/espeak_wrapper.cpp:285-307 | one code point: inside a switch only ')' matters and closes it, '(' opens one, any other contributes its mapped ids |
| Espeak.Scan | src/audio/espeak_wrapper.cpp:285-307 | `ScanStep` over a sentence's code points; `ScanAppend` states that it composes |
| Espeak.SentenceIds | src/audio/espeak_wrapper.cpp:275-310 | BOS, PAD, the padded ids of the scan, EOS; `SentenceIdsShape`, `LangFlagContributesNothing` and `PlainText` state its shape |
| Espeak.PlainText | src/audio/espeak_wrapper.cpp:296-307 | without switches, every mapped code point contributes its ids in order |
| Espeak.NonEmpty | src/audio/espeak_wrapper.cpp:270-273 | exactly the non-empty sentences are kept, in order, as `NonEmptyAppend` and `NonEmptySingle` state |
| Espeak.NonEmptyAppend | src/audio/espeak_wrapper.cpp:270-273 | filtering joined sentences is filtering each part and joining |
| Espeak.NonEmptySingle | src/audio/espeak_wrapper.cpp:270-273 | one sentence is kept exactly when it is non-empty |
| Espeak.IdQueue | src/audio/espeak_wrapper.cpp:269-314 | one queued sequence per non-empty sentence |
| Espeak.IdQueueSnoc | src/audio/espeak_wrapper.cpp:269-314 | one more sentence adds its sequence at the back, unless it is empty |
| Espeak.SynthesizeSucceeds | src/audio/espeak_wrapper.cpp:167-176 | synthesis succeeds exactly when the voice model succeeds on every queued entry |
| Espeak.SynthesizeAppend | src/audio/espeak_wrapper.cpp:167-176 | the samples come out in FIFO order: those of the first entries, then those of the rest |
| Espeak.DrainStep | src/audio/espeak_wrapper.cpp:167-176 | one pop of the queue either fails the whole drain or appends that entry's samples |
| Espeak.Synthesize | src/audio/espeak_wrapper.cpp:167-176 | the queue drained front to back through the model, failing on the first failure; `SynthesizeSucceeds` and `SynthesizeAppend` state it |
| Espeak.SpeechSynth.constructor | src/audio/espeak_wrapper.cpp:62-149 | the sample rate and the phoneme id map are those given |
| Espeak.SpeechSynth.Phonemize | src/audio/espeak_wrapper.cpp:229-266 | the phonemize loop builds exactly `Sentences` of the clauses |
| Espeak.SpeechSynth.AddClause | src/audio/espeak_wrapper.cpp:244-265 | one pass appends the clause text to the last sentence and opens a new one after a sentence terminator |
| Espeak.SpeechSynth.SentenceIdsOf | src/audio/espeak_wrapper.cpp:275-310 | the id loop for one sentence builds exactly `SentenceIds` |
| Espeak.SpeechSynth.AppendPadded | src/audio/espeak_wrapper.cpp:296-303 | each id of a code point is pushed followed by PAD |
| Espeak.SpeechSynth.Start | src/audio/espeak_wrapper.cpp:222-317 | 0 exactly when the voice is selected, with one id sequence per non-empty sentence in order; -1 and an empty queue otherwise |
| Espeak.SpeechSynth.ConvertTextToAudio | src/audio/espeak_wrapper.cpp:155-218 | 0 exactly when start and every model call succeed, with the WAV of all samples in queue order at the voice's rate; -1 with the buffer untouched otherwise |
| ImageThread.SignedChar | src/image_thread.cpp:129 | the key is the low byte of waitKey's result read as a signed char |
| ImageThread.SignedCharFacts | src/image_thread.cpp:129-130 | no key (-1) and code 255 both read as -1; codes equal mod 256 are the same key; ASCII codes are unchanged |
| ImageThread.OnKey | src/image_thread.cpp:130-171 | one key's checks in the thread's order; `OnKeyInRange`, `ZoomKeys`, `ModeCycle`, `EdgeKeys`, `ThresholdKeys` and `UnboundKeys` state its effect |
| ImageThread.InitialInRange | src/image_thread.cpp:62-67 | the initial settings are in range |
| ImageThread.InRange | src/image_thread.cpp:62-171 | the ranges the five settings keep: mode 1-3, zoom 0-9, edgeno 30-200 in steps of 10, thresh_lev 18-228 and threshmode 0 or 1 |
| ImageThread.OnKeyInRange | src/image_thread.cpp:130-171 | every key keeps zoom in [0,9], mode in [1,3], edgeno in [30,200], thresh_lev in [18,228] and threshmode in {0,1} |
| ImageThread.ZoomKeys | src/image_thread.cpp:131-136 | '+' increments the zoom only below 9, '-' decrements it only above 0, other keys keep it |
| ImageThread.ModeCycle | src/image_thread.cpp:137-145 | 'm' advances the mode 1→2→3→1 one step per press and changes nothing else; three presses are the identity |
| ImageThread.EdgeKeys | src/image_thread.cpp:146-151 | in mode 2, '.' and ',' move edgeno by 10 under the guards < 200 and > 30, and change nothing else |
| ImageThread.ThresholdKeys | src/image_thread.cpp:152-165 | in mode 3, '.' and ',' move thresh_lev by 10 under the guards < 220 and > 20; 'z' toggles threshmode between 0 and 1 |
| ImageThread.UnboundKeys | src/image_thread.cpp:130-171 | a key with no binding changes nothing |
| ImageThread.Crop | src/image_thread.cpp:76 | the region kept at a zoom level; `CropInFrame` and `CropShrinks` state its bounds |
| ImageThread.CropInFrame | src/image_thread.cpp:76 | for zoom 0..9 the crop has positive size, lies within 1920×1080 and is centred |
| ImageThread.CropShrinks | src/image_thread.cpp:76 | a higher zoom keeps a strictly smaller region |
| ImageThread.Run | src/image_thread.cpp:69-182 | the loop over key results, with 'q' ending it before the check; `RunInRange`, `RunQuits` and `IdleFramesChangeNothing` state it |
| ImageThread.RunInRange | src/image_thread.cpp:69-171 | the settings stay in range over any key sequence |
| ImageThread.RunQuits | src/image_thread.cpp:166-170 | the loop ends through 'q' exactly when some key's low byte is 'q' |
| ImageThread.IdleFramesChangeNothing | src/image_thread.cpp:129-130 | frames without a key leave every setting unchanged |
| ImageThread.Send | src/image_thread.cpp:184-190 | a command is stored only when none is pending; `FirstCommandWins` states it |
| ImageThread.Check | src/image_thread.cpp:173-180 | a pending command is reported and the slot freed; `CheckFreesSlot` and `ChecksReportOnce` state it |
| ImageThread.FirstCommandWins | src/image_thread.cpp:184-190 | a command sent while one is pending is dropped; the first is the one reported |
| ImageThread.CheckFreesSlot | src/image_thread.cpp:173-180 | after the check nothing is pending, the next command is stored, and a second check changes nothing |
| ImageThread.ChecksReportOnce | src/image_thread.cpp:173-190 | with a check after each send every command is reported, in order |
| ImageThread.SendAll | src/image_thread.cpp:173-190 | each command sent and then checked, in order; `ChecksReportOnce` states that each is reported |
| ImageThread.ImageThreadState.constructor | src/image_thread.cpp:9-12 | nothing pending, an empty message, nothing reported |
| ImageThread.ImageThreadState.SendCmd | src/image_thread.cpp:184-190 | the mailbox moves as `Send`: stored only when free |
| ImageThread.ImageThreadState.CheckCommand | src/image_thread.cpp:173-180 | the mailbox moves as `Check`: a pending command is reported and the slot freed |
| ImageThread.ImageThreadState.HandleKey | src/image_thread.cpp:130-171 | the key handling of one pass computes `OnKey` |
| ImageThread.ImageThreadState.ThreadHandler | src/image_thread.cpp:45-182 | no camera: initial settings and no change; else the final settings are `Run` of the keys, the mailbox was checked when a pass reached the check, and 'q' cleared the run flag |

## Left out

- PortAudio, SDL and SDL_mixer: opening and starting the stream are boolean
  parameters of `Start`. `play_from_mem`, `play_from_file`, `list_mics`, the
  destructor's stream poll and the beep on speech are not modelled; they
  only call those libraries.
- The audio wrapper's YAML configuration: the microphone name, sample rate
  and chunk size are constructor parameters.
- whisper: `contains_speech` is the oracle `classify` (negative error, 0
  silence, positive speech) and the transcription is the oracle `transcribe`
  (zero success). whisper answering 3 on a failed detection is not part of
  this model; `CheckForSpeech` treats every positive answer as speech, as
  the code does.
- There is no maximum segment length; the code never enforces one.
- espeak and onnx: the terminator-tagged phonemizer output is the given
  clause sequence. The NFD normalisation and UTF-8 decoding are the
  parameter `normalize`. Inference (`next`) is the oracle `next`, which
  answers the samples of one id sequence or failure. The constructor's
  JSON voice configuration, espeak set-up and onnx session are left out;
  the sample rate and phoneme id map are constructor parameters.
- Floating point: samples are opaque 32-bit words, since the code only
  copies them.
- Characters: a C++ `char` of argv or of the resource file is one Dafny
  `char`, byte for byte, so `length() == 1` and the POSIX per-character scan
  read the same way in the model. No multi-byte encoding is modelled.
- Wav.Serialize: the header bytes are copied from the struct's memory
  (src/audio/audio_wrapper.cpp:285-288); the model assumes a little-endian
  host and a 44-byte struct without padding.
- The transcript text `estimated_text` (src/audio/audio_wrapper.cpp:306) is
  not modelled; only the transcription's status code is.
- The 32-bit header sizes are stored modulo 2^32, as the `uint32_t` fields
  do. There is no overflow error path because the code has none.
- OpenCV: camera capture, resize, the edge and threshold effects, `imshow`
  and `waitKey` are left out. The key results of successive frames are a
  given sequence, and its end stands for the thread being cancelled.
- Threads, mutexes and atomics: every operation runs to completion alone.
  `is_running`, `get_current_frame`, `start` and `cancel` of the image
  thread only manage the thread.
- Console output is not modelled. `printUsage`, `printAutoUsage`,
  `printUnknown`, the verbose messages and the "New Control Command" line
  are left out; the reported commands are kept as the `reported` sequence.
- AnyOption's file stream: `processFile` takes the file as its lines, or
  `None` when it cannot be opened. The file's name is mapped to its lines by
  the parameter `readFile` of `Config.Parse`.
- `config::get_value<T>` for other types than `std::string` is left out; it
  is a stringstream conversion.
- Usage-string registration with AnyOption (`addUsage`) is modelled only as
  appending lines; the usage text is never read back.
