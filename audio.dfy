/** src/audio.py: decide whether an audio file must be resampled to fit a target output, and whether
    a WAV file carries tags to delete. The decoding, resampling and tag rewriting are not modelled. */
module Audio {
  import opened Types
  import opened Strings
  import opened Paths
  import Batch
  import Rename

  /** `AudioTargetOutput`: the format to export to and the highest sample rate and width allowed. */
  datatype AudioTargetOutput = AudioTargetOutput(format: string, maxSampleRateHertz: int, maxSampleWidthBytes: int)

  /** The Alesis Strike Multipad plays 16-bit WAV files at 44.1 kHz. */
  const AlesisStrikeMultipadTargetOutput := AudioTargetOutput("wav", 44100, 2)

  /** What is kept of a decoded `AudioSegment`: its frame rate in hertz and its sample width in bytes. */
  datatype AudioHeader = AudioHeader(frameRate: int, sampleWidth: int)

  /** `AudioScaling`: a decoded file together with the target it must fit. */
  datatype AudioScaling = AudioScaling(audio: AudioHeader, targetOutput: AudioTargetOutput)

  function Min(a: int, b: int): (r: int)
    ensures r <= a && r <= b && (r == a || r == b)
  {
    if a <= b then a else b
  }

  /** `target_sample_rate_hertz`: never above the current rate nor the cap, and one of the two. */
  function TargetSampleRateHertz(s: AudioScaling): (r: int)
    ensures r <= s.audio.frameRate && r <= s.targetOutput.maxSampleRateHertz
    ensures r == s.audio.frameRate || r == s.targetOutput.maxSampleRateHertz
  {
    Min(s.audio.frameRate, s.targetOutput.maxSampleRateHertz)
  }

  /** `target_sample_width_bytes`: never above the current width nor the cap, and one of the two. */
  function TargetSampleWidthBytes(s: AudioScaling): (r: int)
    ensures r <= s.audio.sampleWidth && r <= s.targetOutput.maxSampleWidthBytes
    ensures r == s.audio.sampleWidth || r == s.targetOutput.maxSampleWidthBytes
  {
    Min(s.audio.sampleWidth, s.targetOutput.maxSampleWidthBytes)
  }

  /** `needs_rescaling`: the file is over the cap in rate or in width. */
  function NeedsRescaling(s: AudioScaling): (r: bool)
    ensures r <==> s.audio.frameRate > s.targetOutput.maxSampleRateHertz
                   || s.audio.sampleWidth > s.targetOutput.maxSampleWidthBytes
  {
    TargetSampleWidthBytes(s) != s.audio.sampleWidth || TargetSampleRateHertz(s) != s.audio.frameRate
  }

  /** The header the conversion command writes: the target rate and width. */
  function Rescaled(s: AudioScaling): AudioScaling {
    AudioScaling(AudioHeader(TargetSampleRateHertz(s), TargetSampleWidthBytes(s)), s.targetOutput)
  }

  /** Converting is idempotent: a converted file keeps its targets and needs no further conversion,
      and a file that needs none is left as it is. */
  lemma RescaledSettles(s: AudioScaling)
    ensures !NeedsRescaling(Rescaled(s))
    ensures TargetSampleRateHertz(Rescaled(s)) == TargetSampleRateHertz(s)
    ensures TargetSampleWidthBytes(Rescaled(s)) == TargetSampleWidthBytes(s)
    ensures Rescaled(s) == s <==> !NeedsRescaling(s)
  {
  }

  /** `AudioScaling.__str__`: "<bits>-bit|<rate>Hz -> <target bits>-bit|<target rate>Hz". */
  function Describe(s: AudioScaling): string {
    IntToString(s.audio.sampleWidth * 8)
    + ("-bit|" + (IntToString(s.audio.frameRate)
    + ("Hz -> " + (IntToString(TargetSampleWidthBytes(s) * 8)
    + ("-bit|" + (IntToString(TargetSampleRateHertz(s)) + "Hz"))))))
  }

  /** A decimal number followed by text that starts with a non-digit splits back into the two. */
  lemma SplitNumber(a: nat, b: nat, x: string, y: string)
    requires NatToString(a) + x == NatToString(b) + y
    requires x != [] && !IsDigit(x[0]) && y != [] && !IsDigit(y[0])
    ensures a == b && x == y
  {
    var p, q := NatToString(a), NatToString(b);
    var m := if |p| < |q| then |p| else |q|;
    assert IsDigit((p + x)[m]) <==> m < |p|;
    assert IsDigit((q + y)[m]) <==> m < |q|;
    assert |p| == |q|;
    assert p == (p + x)[..|p|];
    assert q == (q + y)[..|q|];
    assert x == (p + x)[|p|..];
    assert y == (q + y)[|q|..];
    NatToStringInjective(a, b);
  }

  /** A decimal number, then a fixed separator, then the rest: equal texts have equal numbers and
      equal rests. */
  lemma SplitAtSeparator(a: int, b: int, sep: string, x: string, y: string)
    requires a >= 0 && b >= 0
    requires sep != [] && !IsDigit(sep[0])
    requires IntToString(a) + (sep + x) == IntToString(b) + (sep + y)
    ensures a == b && x == y
  {
    SplitNumber(a, b, sep + x, sep + y);
    assert x == (sep + x)[|sep|..];
    assert y == (sep + y)[|sep|..];
  }

  /** Two descriptions are equal only for the same file header and the same targets. */
  lemma DescribeInjective(s: AudioScaling, t: AudioScaling)
    requires s.audio.frameRate >= 0 && s.audio.sampleWidth >= 0 && t.audio.frameRate >= 0 && t.audio.sampleWidth >= 0
    requires s.targetOutput.maxSampleRateHertz >= 0 && s.targetOutput.maxSampleWidthBytes >= 0
    requires t.targetOutput.maxSampleRateHertz >= 0 && t.targetOutput.maxSampleWidthBytes >= 0
    requires Describe(s) == Describe(t)
    ensures s.audio == t.audio
    ensures TargetSampleRateHertz(s) == TargetSampleRateHertz(t)
    ensures TargetSampleWidthBytes(s) == TargetSampleWidthBytes(t)
  {
    var rs, rt := TargetSampleRateHertz(s), TargetSampleRateHertz(t);
    var ws, wt := TargetSampleWidthBytes(s), TargetSampleWidthBytes(t);
    var x3, y3 := IntToString(rs) + "Hz", IntToString(rt) + "Hz";
    var x2, y2 := IntToString(ws * 8) + ("-bit|" + x3), IntToString(wt * 8) + ("-bit|" + y3);
    var x1, y1 := IntToString(s.audio.frameRate) + ("Hz -> " + x2), IntToString(t.audio.frameRate) + ("Hz -> " + y2);
    SplitAtSeparator(s.audio.sampleWidth * 8, t.audio.sampleWidth * 8, "-bit|", x1, y1);
    SplitAtSeparator(s.audio.frameRate, t.audio.frameRate, "Hz -> ", x2, y2);
    SplitAtSeparator(ws * 8, wt * 8, "-bit|", x3, y3);
    assert x3 == IntToString(rs) + ("Hz" + []);
    assert y3 == IntToString(rt) + ("Hz" + []);
    SplitAtSeparator(rs, rt, "Hz", [], []);
  }

  /** `CmdConvertAudioFile`: resample `file` as `audioScaling` says. */
  datatype CmdConvertAudioFile = CmdConvertAudioFile(file: Path, audioScaling: AudioScaling)

  /** `CmdConvertAudioFile.operation_description`. */
  function ConvertDescription(c: CmdConvertAudioFile): (r: string)
    ensures |r| == |Describe(c.audioScaling)| + |c.file.name| + 19
    ensures r[..16] == "Convert audio : " && r[16..16 + |Describe(c.audioScaling)|] == Describe(c.audioScaling)
    ensures r[|r| - 3 - |c.file.name|..|r| - 1] == " (" + c.file.name && r[|r| - 1] == ')'
  {
    Strings.LabelShape("Convert audio : ", Describe(c.audioScaling), c.file.name);
    "Convert audio : " + Describe(c.audioScaling) + " (" + c.file.name + ")"
  }

  /** `AudioConversionCmdGetter.get_command`, given what `AudioSegment.from_wav` read (or raised). */
  function ConversionCommand(target: AudioTargetOutput, file: Path, audio: Result<AudioHeader>)
    : (r: Result<Option<CmdConvertAudioFile>>)
    ensures audio.Err? ==> r == Err(audio.error)
    ensures audio.Ok? ==> r.Ok? && (r.value.Some? <==> audio.value.frameRate > target.maxSampleRateHertz
                                                       || audio.value.sampleWidth > target.maxSampleWidthBytes)
    ensures r.Ok? && r.value.Some? ==> r.value.value.file == file && r.value.value.audioScaling.audio == audio.value
                                       && r.value.value.audioScaling.targetOutput == target
  {
    match audio
    case Err(e) => Err(e)
    case Ok(header) =>
      var scaling := AudioScaling(header, target);
      if NeedsRescaling(scaling) then Ok(Some(CmdConvertAudioFile(file, scaling))) else Ok(None)
  }

  /** One (key, value) pair of `WAVE.items()`. */
  datatype TagItem = TagItem(key: string, value: string)

  /** `CmdDeleteAudioMetadata`: delete the tags `items` of `file`. */
  datatype CmdDeleteAudioMetadata = CmdDeleteAudioMetadata(file: Path, items: seq<TagItem>)

  /** `CmdDeleteAudioMetadata.operation_description`; Python's rendering of the item list is a
      parameter. */
  function MetadataDescription(c: CmdDeleteAudioMetadata, itemsText: seq<TagItem> -> string): (r: string)
    ensures |r| == |itemsText(c.items)| + |c.file.name| + 21
    ensures r[..18] == "Delete metadata : " && r[18..18 + |itemsText(c.items)|] == itemsText(c.items)
    ensures r[|r| - 3 - |c.file.name|..|r| - 1] == " (" + c.file.name && r[|r| - 1] == ')'
  {
    Strings.LabelShape("Delete metadata : ", itemsText(c.items), c.file.name);
    "Delete metadata : " + itemsText(c.items) + " (" + c.file.name + ")"
  }

  /** The command once its `execute()` has run: the tags are deleted and cleared, so `items()`
      reads empty when the description is read again. */
  function Cleared(c: CmdDeleteAudioMetadata): (r: CmdDeleteAudioMetadata)
    ensures r.file == c.file && r.items == []
  {
    c.(items := [])
  }

  /** The "DONE" line of a metadata command shows the emptied tag list. */
  lemma MetadataDoneLine(c: CmdDeleteAudioMetadata, itemsText: seq<TagItem> -> string)
    ensures Batch.Done(MetadataDescription(Cleared(c), itemsText))
            == "DONE : " + "Delete metadata : " + itemsText([]) + " (" + c.file.name + ")"
  {
    var a, b, x, tail := "DONE : ", "Delete metadata : ", itemsText([]), " (" + c.file.name + ")";
    assert MetadataDescription(Cleared(c), itemsText) == b + x + tail;
    assert a + (b + x + tail) == a + b + x + tail;
  }

  /** Each "DONE" line of an accepted metadata batch shows the emptied tag list, not the tags that
      were listed before the question. */
  lemma MetadataDoneLines(cmds: seq<CmdDeleteAudioMetadata>, itemsText: seq<TagItem> -> string)
    ensures var run := Batch.Run(cmds, c => MetadataDescription(c, itemsText), Cleared);
            forall k :: 0 <= k < |cmds| ==>
              run[2 * k + 1] == Batch.Print("DONE : " + "Delete metadata : " + itemsText([]) + " (" + cmds[k].file.name + ")")
  {
    forall k | 0 <= k < |cmds| {
      MetadataDoneLine(cmds[k], itemsText);
    }
  }

  const OnlyWav := "Only 'wav' files are supported at the moment."

  /** `AudioMetadataDeleteCmdGetter.get_command`: `hasWavFormat` is `file_has_format(file, "wav")`
      and `tags` what `WAVE(...)` read (or raised). The format is checked before the file is read. */
  function MetadataCommand(file: Path, hasWavFormat: bool, tags: Result<seq<TagItem>>)
    : (r: Result<Option<CmdDeleteAudioMetadata>>)
    ensures !hasWavFormat ==> r == Err(NotSupported(OnlyWav))
    ensures hasWavFormat && tags.Err? ==> r == Err(tags.error)
    ensures hasWavFormat && tags.Ok? ==> r.Ok? && (r.value.Some? <==> tags.value != [])
    ensures r.Ok? && r.value.Some? ==> r.value.value == CmdDeleteAudioMetadata(file, tags.value)
  {
    if !hasWavFormat then Err(NotSupported(OnlyWav))
    else match tags
      case Err(e) => Err(e)
      case Ok(items) => if items != [] then Ok(Some(CmdDeleteAudioMetadata(file, items))) else Ok(None)
  }

  /** `files.file_has_format(file, format)`, which is not part of this model, as a parameter. */
  type FormatTest = (Path, string) -> bool

  /** The predicate `lambda file: files.file_has_format(file, format)`. */
  function HasFormat(hasFormat: FormatTest, format: string): Path -> bool {
    file => hasFormat(file, format)
  }

  /** An `AudioConversionCmdGetter(target)` as the batch calls it; `read` stands for
      `AudioSegment.from_wav`. */
  function ConversionGetter(target: AudioTargetOutput, read: Path -> Result<AudioHeader>)
    : Path -> Result<Option<CmdConvertAudioFile>>
  {
    file => ConversionCommand(target, file, read(file))
  }

  /** An `AudioMetadataDeleteCmdGetter()` as the batch calls it; `read` stands for `WAVE(...).items()`. */
  function MetadataGetter(hasFormat: FormatTest, read: Path -> Result<seq<TagItem>>)
    : Path -> Result<Option<CmdDeleteAudioMetadata>>
  {
    file => MetadataCommand(file, hasFormat(file, "wav"), read(file))
  }

  /** `normalize_audio_filenames`: a heading, then the rename batch over the files of `format`. */
  method NormalizeAudioFilenames(walk: seq<Batch.WalkEntry>, chain: seq<Rename.Formatter>, hasFormat: FormatTest,
                                 format: string, answer: string)
    returns (raised: Option<Error>, trace: seq<Batch.Event<Rename.CmdRenameFile>>)
    ensures var staged := Batch.Discover(walk, HasFormat(hasFormat, format), Rename.Getter(chain));
            && trace != [] && trace[0] == Batch.Print("File name normalization")
            && (staged.Err? ==> raised == Some(staged.error) && trace[1..] == [])
            && (staged.Ok? ==> raised == None && trace[1..] == Batch.Report(staged.value, Rename.Description, c => c, answer))
  {
    var rest;
    raised, rest := Batch.UpdateFiles(walk, HasFormat(hasFormat, format), Rename.Getter(chain), Rename.Description, c => c, answer);
    trace := [Batch.Print("File name normalization")] + rest;
  }

  /** `convert_audio_files`: a heading, then the conversion batch over the files of the target's format. */
  method ConvertAudioFiles(walk: seq<Batch.WalkEntry>, target: AudioTargetOutput, hasFormat: FormatTest,
                           read: Path -> Result<AudioHeader>, answer: string)
    returns (raised: Option<Error>, trace: seq<Batch.Event<CmdConvertAudioFile>>)
    ensures var staged := Batch.Discover(walk, HasFormat(hasFormat, target.format), ConversionGetter(target, read));
            && trace != [] && trace[0] == Batch.Print("Audio file conversion")
            && (staged.Err? ==> raised == Some(staged.error) && trace[1..] == [])
            && (staged.Ok? ==> raised == None && trace[1..] == Batch.Report(staged.value, ConvertDescription, c => c, answer))
  {
    var rest;
    raised, rest := Batch.UpdateFiles(walk, HasFormat(hasFormat, target.format), ConversionGetter(target, read),
                                      ConvertDescription, c => c, answer);
    trace := [Batch.Print("Audio file conversion")] + rest;
  }

  /** `remove_audio_files_metadata`: a heading, then the metadata batch over the files of `format`;
      the description renders the tag list with `itemsText`. */
  method RemoveAudioFilesMetadata(walk: seq<Batch.WalkEntry>, hasFormat: FormatTest, format: string,
                                  read: Path -> Result<seq<TagItem>>, itemsText: seq<TagItem> -> string, answer: string)
    returns (raised: Option<Error>, trace: seq<Batch.Event<CmdDeleteAudioMetadata>>)
    ensures var staged := Batch.Discover(walk, HasFormat(hasFormat, format), MetadataGetter(hasFormat, read));
            && trace != [] && trace[0] == Batch.Print("Audio file metadata suppression")
            && (staged.Err? ==> raised == Some(staged.error) && trace[1..] == [])
            && (staged.Ok? ==> raised == None
                               && trace[1..] == Batch.Report(staged.value, c => MetadataDescription(c, itemsText), Cleared, answer))
  {
    var rest;
    raised, rest := Batch.UpdateFiles(walk, HasFormat(hasFormat, format), MetadataGetter(hasFormat, read),
                                      c => MetadataDescription(c, itemsText), Cleared, answer);
    trace := [Batch.Print("Audio file metadata suppression")] + rest;
  }

  /** The conversion batch stages a command for a file exactly when the file has the target's format,
      its header reads, and it is over the target in rate or width. */
  lemma ConversionStages(files: seq<Path>, target: AudioTargetOutput, hasFormat: FormatTest,
                         read: Path -> Result<AudioHeader>)
    requires Batch.Collect(files, HasFormat(hasFormat, target.format), ConversionGetter(target, read)).Ok?
    ensures forall c :: c in Batch.Collect(files, HasFormat(hasFormat, target.format), ConversionGetter(target, read)).value
              <==> exists k :: 0 <= k < |files| && hasFormat(files[k], target.format) && read(files[k]).Ok?
                               && NeedsRescaling(AudioScaling(read(files[k]).value, target))
                               && c == CmdConvertAudioFile(files[k], AudioScaling(read(files[k]).value, target))
  {
    Batch.CollectMembers(files, HasFormat(hasFormat, target.format), ConversionGetter(target, read));
  }

  /** The metadata batch over a format other than WAV raises "not supported" on the first file it
      selects, before anything is printed. */
  lemma MetadataRejectsOtherFormats(files: seq<Path>, hasFormat: FormatTest, format: string,
                                    read: Path -> Result<seq<TagItem>>, i: nat)
    requires i < |files| && hasFormat(files[i], format)
    requires forall k :: 0 <= k < |files| && hasFormat(files[k], format) ==> !hasFormat(files[k], "wav")
    ensures Batch.Collect(files, HasFormat(hasFormat, format), MetadataGetter(hasFormat, read))
            == Err(NotSupported(OnlyWav))
  {
    var keep, getter := HasFormat(hasFormat, format), MetadataGetter(hasFormat, read);
    Batch.CollectOk(files, keep, getter);
    assert keep(files[i]) && getter(files[i]).Err?;
    var k := Batch.CollectError(files, keep, getter);
  }
}
