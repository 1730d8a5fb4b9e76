/** src/alesis.py: the same decisions as src/audio.py with the Alesis Strike Multipad's limits built
    in, a metadata getter without a format check, and the test for a supported sample file. */
module Alesis {
  import opened Types
  import opened Strings
  import opened Paths
  import TitleCase
  import Audio
  import Batch
  import Rename

  const AudioTargetFormat := "wav"
  const AudioMaxSampleRateHertz := 44100
  /** 16-bit samples. */
  const AudioMaxSampleWidthBytes := 2

  /** `AudioScaling`: a decoded file; the target is fixed. */
  datatype AudioScaling = AudioScaling(audio: Audio.AudioHeader)

  /** `target_sample_rate_hertz`: never above the current rate nor 44100, and one of the two. */
  function TargetSampleRateHertz(s: AudioScaling): (r: int)
    ensures r <= s.audio.frameRate && r <= AudioMaxSampleRateHertz
    ensures r == s.audio.frameRate || r == AudioMaxSampleRateHertz
  {
    Audio.Min(s.audio.frameRate, AudioMaxSampleRateHertz)
  }

  /** `target_sample_width_bytes`: never above the current width nor 2, and one of the two. */
  function TargetSampleWidthBytes(s: AudioScaling): (r: int)
    ensures r <= s.audio.sampleWidth && r <= AudioMaxSampleWidthBytes
    ensures r == s.audio.sampleWidth || r == AudioMaxSampleWidthBytes
  {
    Audio.Min(s.audio.sampleWidth, AudioMaxSampleWidthBytes)
  }

  /** `needs_rescaling`: the file is above 44.1 kHz or wider than 16 bits. */
  function NeedsRescaling(s: AudioScaling): (r: bool)
    ensures r <==> s.audio.frameRate > 44100 || s.audio.sampleWidth > 2
  {
    TargetSampleWidthBytes(s) != s.audio.sampleWidth || TargetSampleRateHertz(s) != s.audio.frameRate
  }

  /** `AudioScaling.__str__`, in the same format as src/audio.py's. */
  function Describe(s: AudioScaling): string {
    IntToString(s.audio.sampleWidth * 8)
    + ("-bit|" + (IntToString(s.audio.frameRate)
    + ("Hz -> " + (IntToString(TargetSampleWidthBytes(s) * 8)
    + ("-bit|" + (IntToString(TargetSampleRateHertz(s)) + "Hz"))))))
  }

  /** The built-in limits are those of the general model's Alesis target: the same targets, the same
      decision and the same text. */
  lemma AgreesWithAudio(h: Audio.AudioHeader)
    ensures var general := Audio.AudioScaling(h, Audio.AlesisStrikeMultipadTargetOutput);
            && AudioTargetFormat == Audio.AlesisStrikeMultipadTargetOutput.format
            && TargetSampleRateHertz(AudioScaling(h)) == Audio.TargetSampleRateHertz(general)
            && TargetSampleWidthBytes(AudioScaling(h)) == Audio.TargetSampleWidthBytes(general)
            && NeedsRescaling(AudioScaling(h)) == Audio.NeedsRescaling(general)
            && Describe(AudioScaling(h)) == Audio.Describe(general)
  {
  }

  /** `CmdConvertAudioFile`: resample `file` to the Alesis limits. */
  datatype CmdConvertAudioFile = CmdConvertAudioFile(file: Path, audioScaling: AudioScaling)

  /** `CmdConvertAudioFile.operation_description`. */
  function ConvertDescription(c: CmdConvertAudioFile): string {
    "Convert audio : " + Describe(c.audioScaling) + " (" + c.file.name + ")"
  }

  /** The two conversion commands describe themselves alike. */
  lemma ConvertDescriptionAgrees(file: Path, h: Audio.AudioHeader)
    ensures ConvertDescription(CmdConvertAudioFile(file, AudioScaling(h)))
            == Audio.ConvertDescription(Audio.CmdConvertAudioFile(file, Audio.AudioScaling(h, Audio.AlesisStrikeMultipadTargetOutput)))
  {
    AgreesWithAudio(h);
  }

  /** `AlesisAudioConversionCmdGetter.get_command`, given what `AudioSegment.from_wav` read (or raised). */
  function ConversionCommand(file: Path, audio: Result<Audio.AudioHeader>): (r: Result<Option<CmdConvertAudioFile>>)
    ensures audio.Err? ==> r == Err(audio.error)
    ensures audio.Ok? ==> r.Ok? && (r.value.Some? <==> audio.value.frameRate > 44100 || audio.value.sampleWidth > 2)
    ensures r.Ok? && r.value.Some? ==> r.value.value == CmdConvertAudioFile(file, AudioScaling(audio.value))
  {
    match audio
    case Err(e) => Err(e)
    case Ok(header) =>
      var scaling := AudioScaling(header);
      if NeedsRescaling(scaling) then Ok(Some(CmdConvertAudioFile(file, scaling))) else Ok(None)
  }

  /** `AudioMetadataDeleteCmdGetter.get_command` of this file: no format check, a command exactly when
      the file has tags. */
  function MetadataCommand(file: Path, tags: Result<seq<Audio.TagItem>>): (r: Result<Option<Audio.CmdDeleteAudioMetadata>>)
    ensures tags.Err? ==> r == Err(tags.error)
    ensures tags.Ok? ==> r.Ok? && (r.value.Some? <==> tags.value != [])
    ensures r.Ok? && r.value.Some? ==> r.value.value == Audio.CmdDeleteAudioMetadata(file, tags.value)
  {
    match tags
    case Err(e) => Err(e)
    case Ok(items) => if items != [] then Ok(Some(Audio.CmdDeleteAudioMetadata(file, items))) else Ok(None)
  }

  /** The two metadata getters agree on WAV files; on any other file only src/audio.py's raises. */
  lemma MetadataAgrees(file: Path, hasWavFormat: bool, tags: Result<seq<Audio.TagItem>>)
    ensures hasWavFormat ==> MetadataCommand(file, tags) == Audio.MetadataCommand(file, hasWavFormat, tags)
    ensures !hasWavFormat ==> Audio.MetadataCommand(file, hasWavFormat, tags).Err?
  {
  }

  predicate IsDot(c: char) { c == '.' }

  /** `_is_supported_audio_file`: `isFile` is `file.is_file()`; the suffix, lowercased, stripped of
      whitespace and then of dots at both ends, must be "wav". */
  function IsSupportedAudioFile(file: Path, isFile: bool): bool {
    isFile && Trim(Strip(Lower(Suffix(file.name))), IsDot) == AudioTargetFormat
  }

  /** Trimming the dots of a suffix-shaped string drops exactly its leading dot. */
  lemma TrimSuffixDots(u: string)
    requires u != [] && u[0] == '.' && '.' !in u[1..]
    ensures Trim(u, IsDot) == u[1..]
  {
    if |u| > 1 {
      forall k | 1 <= k < |u| ensures u[k] != '.' {
        assert u[k] == u[1..][k - 1];
      }
      TrimAt(u, IsDot, 1, |u|);
    }
  }

  lemma DotWav(u: string)
    requires u != [] && u[0] == '.'
    ensures u[1..] == "wav" <==> u == ".wav"
  {
    assert u == [u[0]] + u[1..];
  }

  /** The test is on the suffix as the title-case formatter normalises it: exactly ".wav". */
  lemma SupportedIff(file: Path, isFile: bool)
    ensures IsSupportedAudioFile(file, isFile) <==> isFile && TitleCase.NewSuffix(file.name) == ".wav"
  {
    if Suffix(file.name) == "" {
      NoSuffixUnsupported(file.name);
    } else {
      TitleCase.NewSuffixShape(file.name);
      var u := TitleCase.NewSuffix(file.name);
      TrimSuffixDots(u);
      DotWav(u);
    }
  }

  lemma NoSuffixUnsupported(name: string)
    requires Suffix(name) == ""
    ensures Trim(Strip(Lower(Suffix(name))), IsDot) == "" && TitleCase.NewSuffix(name) == ""
  {
    assert Lower("") == "";
    assert Strip("") == "";
    assert Trim("", IsDot) == "";
  }

  /** A file whose name ends in ".wav" in any mix of cases, after a non-empty base, is supported. */
  lemma AcceptsAnyCase(dir: string, base: string, ext: string)
    requires base != "" && |ext| == 4 && Lower(ext) == ".wav"
    ensures IsSupportedAudioFile(Path(dir, base + ext), true)
  {
    assert ToLower(ext[0]) == '.';
    forall k | 1 <= k < 4 ensures ext[k] != '.' {
      assert ToLower(ext[k]) == Lower(ext)[k];
    }
    assert '.' !in ext[1..];
    SplitAgain(base, ext);
    TitleCase.LowerStripWav();
    SupportedIff(Path(dir, base + ext), true);
  }

  /** The predicate `_is_supported_audio_file`, with `isFile` standing for `Path.is_file`. */
  function Supported(isFile: Path -> bool): Path -> bool {
    file => IsSupportedAudioFile(file, isFile(file))
  }

  /** An `AlesisAudioConversionCmdGetter()` as the batch calls it; `read` stands for
      `AudioSegment.from_wav`. */
  function ConversionGetter(read: Path -> Result<Audio.AudioHeader>): Path -> Result<Option<CmdConvertAudioFile>> {
    file => ConversionCommand(file, read(file))
  }

  /** This file's `AudioMetadataDeleteCmdGetter()` as the batch calls it. */
  function MetadataGetter(read: Path -> Result<seq<Audio.TagItem>>): Path -> Result<Option<Audio.CmdDeleteAudioMetadata>> {
    file => MetadataCommand(file, read(file))
  }

  /** `normalize_audio_filenames`: the rename batch over the supported files. */
  method NormalizeAudioFilenames(walk: seq<Batch.WalkEntry>, chain: seq<Rename.Formatter>, isFile: Path -> bool,
                                 answer: string)
    returns (raised: Option<Error>, trace: seq<Batch.Event<Rename.CmdRenameFile>>)
    ensures var staged := Batch.Discover(walk, Supported(isFile), Rename.Getter(chain));
            && (staged.Err? ==> raised == Some(staged.error) && trace == [])
            && (staged.Ok? ==> raised == None && trace == Batch.Report(staged.value, Rename.Description, c => c, answer))
  {
    raised, trace := Batch.UpdateFiles(walk, Supported(isFile), Rename.Getter(chain), Rename.Description, c => c, answer);
  }

  /** `convert_audio_files`: the conversion batch over the supported files. */
  method ConvertAudioFiles(walk: seq<Batch.WalkEntry>, isFile: Path -> bool, read: Path -> Result<Audio.AudioHeader>,
                           answer: string)
    returns (raised: Option<Error>, trace: seq<Batch.Event<CmdConvertAudioFile>>)
    ensures var staged := Batch.Discover(walk, Supported(isFile), ConversionGetter(read));
            && (staged.Err? ==> raised == Some(staged.error) && trace == [])
            && (staged.Ok? ==> raised == None && trace == Batch.Report(staged.value, ConvertDescription, c => c, answer))
  {
    raised, trace := Batch.UpdateFiles(walk, Supported(isFile), ConversionGetter(read), ConvertDescription, c => c, answer);
  }

  /** `remove_audio_files_metadata`: the metadata batch over the supported files. */
  method RemoveAudioFilesMetadata(walk: seq<Batch.WalkEntry>, isFile: Path -> bool,
                                  read: Path -> Result<seq<Audio.TagItem>>, itemsText: seq<Audio.TagItem> -> string,
                                  answer: string)
    returns (raised: Option<Error>, trace: seq<Batch.Event<Audio.CmdDeleteAudioMetadata>>)
    ensures var staged := Batch.Discover(walk, Supported(isFile), MetadataGetter(read));
            && (staged.Err? ==> raised == Some(staged.error) && trace == [])
            && (staged.Ok? ==> raised == None
                               && trace == Batch.Report(staged.value, c => Audio.MetadataDescription(c, itemsText), Audio.Cleared, answer))
  {
    raised, trace := Batch.UpdateFiles(walk, Supported(isFile), MetadataGetter(read),
                                       c => Audio.MetadataDescription(c, itemsText), Audio.Cleared, answer);
  }

  /** The Alesis conversion batch stages a command for a file exactly when it is supported (see
      SupportedIff), its header reads, and it is above 44.1 kHz or wider than 16 bits. */
  lemma ConversionStages(files: seq<Path>, isFile: Path -> bool, read: Path -> Result<Audio.AudioHeader>)
    requires Batch.Collect(files, Supported(isFile), ConversionGetter(read)).Ok?
    ensures forall c :: c in Batch.Collect(files, Supported(isFile), ConversionGetter(read)).value
              <==> exists k :: 0 <= k < |files| && IsSupportedAudioFile(files[k], isFile(files[k]))
                               && read(files[k]).Ok?
                               && (read(files[k]).value.frameRate > 44100 || read(files[k]).value.sampleWidth > 2)
                               && c == CmdConvertAudioFile(files[k], AudioScaling(read(files[k]).value))
  {
    Batch.CollectMembers(files, Supported(isFile), ConversionGetter(read));
  }
}
