# Audio file batch fixer — decision layer

This project models the decision layer of a small tool that tidies a directory of audio samples for
the Alesis Strike Multipad. The tool renames files to a normalised convention, down-scales audio
that is above the device's sample rate or sample width, and deletes embedded metadata. Every one of
these jobs follows the same pipeline, `update_files` in `src/files.py`:

1. walk the directory tree;
2. ask a *command getter* for an optional command for each file that passes a predicate;
3. print the staged commands' descriptions and ask for confirmation;
4. on a lone "y", execute every command in order and report how many ran.

The model has these modules, one file each:

- `Types`: `Option`, `Result` and the errors the getters raise. `ValueError` from `with_name` is
  `InvalidName`. The `NotImplementedError` for non-WAV files is `NotSupported`. A failed read is
  `ReadFailed`. A template `str.format` refuses is `FormatFailed`.
- `Strings`: ASCII character classes, `lower`, `strip` and the decimal rendering of integers, with
  the round trip between a number and its digits.
- `Paths`: a `pathlib` path as a directory and a last component, with `suffix`, `stem` and
  `with_name`. The suffix starts at the last dot, and that dot may be neither the first nor the last
  character. `str(path)` is printed in pathlib's normal form: empty and "." components dropped, and
  a root of "/" or "//".
- `TitleCase`: `TitleCaseSanitizerFormatter`. It collapses runs of non-alphanumerics to one space,
  strips, title-cases the stem, and lowercases and strips the suffix.
- `RegexReplace`: `RegexReplaceFileNameFormatter`. It finds the first matching pattern in insertion
  order, then searches for a counter value whose name is free. `__call__` is a method with its two
  loops, proved equal to the function `Rename`.
- `Rename`: `RenameFileCmdGetter`. It folds the formatter chain left to right and stages a rename
  when the final name differs. `get_command` is a method with the chain loop, proved equal to the
  function `Command`.
- `Batch`: `update_files` as a method over any command type. It carries the nested staging loop,
  the listing loop and the execution loop, and is proved equal to the functions `Discover` and
  `Report`. What the batch prints, asks and runs is a trace of events. The "DONE" line reads the
  description again after `execute()`, so it describes the command as its run left it (`after`).
  Rename and conversion commands are unchanged by their run. A metadata command's tag list is
  empty after it (`Audio.Cleared`).
- `Audio` (`src/audio.py`): the scaling decision, the conversion getter, the metadata getter and the
  three entry points, each printing its heading and then running the batch.
- `Alesis` (`src/alesis.py`): the same with the device limits built in. It also has a metadata getter
  with no format check and the supported-file test. Lemmas show that it agrees with `Audio`'s Alesis
  target.

The formatter is not idempotent for every name. A general claim that formatting twice equals
formatting once does not hold for this code. `TitleCase.FormatIdempotent` proves idempotence when
two conditions hold: the stem has a letter or digit, and the normalised suffix is not a bare dot.
Two lemmas show that neither condition can be dropped:

- `TitleCase.SymbolStemNotIdempotent`: "!!.wav" formats to ".wav", which formats to "Wav".
- `TitleCase.BareDotSuffixNotIdempotent`: "a. " formats to "A.", which formats to "A".

A dot-free name made only of symbols formats to the empty name. `with_name("")` then raises, so the rename
getter raises and the whole batch stops before `update_files` prints anything (`Rename.SymbolNameRaises`).

## Model

| member | source | states |
|---|---|---|
| Paths.WithName | src/files.py:55-57 | `with_name` succeeds exactly for a valid last component. It then keeps the parent and replaces only the name; otherwise it raises `InvalidName`. |
| Paths.StemSuffixSplit | src/files.py:69-70 | The name is `stem + suffix`. A non-empty suffix is a dot followed by at least one non-dot character, and the stem before it is non-empty. |
| Rename.Description | src/files.py:43-45 | The rename description is "Rename '" + the old path as `str` prints it + "' -> '" + the new last component + "'". |
| Paths.Suffix | src/files.py:70 | Definition of `PurePath.suffix`; see StemSuffixSplit. |
| Paths.Stem | src/files.py:69 | Definition of `PurePath.stem`; see StemSuffixSplit. |
| Paths.OsJoin | src/files.py:117 | Definition of `os.path.join(root, name)`; see PathTextCurrentDir and PathTextDoubledSlash. |
| Paths.PathStr | src/files.py:45 | Definition of `str(pathlib.Path(text))`; see PathStrIdempotent, AnchoredParts and PartsJoin. |
| Paths.PathText | src/files.py:45 | Definition of `str(file)` for the walked path; see PathTextCurrentDir, PathTextDoubledSlash and Rename.Description. |
| Paths.Parts | src/files.py:117 | Every component pathlib keeps is non-empty, not "." and free of "/". |
| Paths.PartsJoin | src/files.py:45 | Clean components joined by "/" parse back into the same components, and the joined text does not start with "/". |
| Paths.AnchoredParts | src/files.py:45 | A root ("", "/" or "//") followed by clean components parses back into that root and those components. |
| Paths.PathStrIdempotent | src/files.py:45 | The path text printed in a description is in normal form: parsing it again prints the same text. |
| Paths.PathTextCurrentDir | src/files.py:45 | A file under "." prints as its bare name ("./a.wav" prints as "a.wav"). |
| Paths.PathTextDoubledSlash | src/files.py:45 | A doubled slash after a directory prints as one ("music//a.wav" prints as "music/a.wav"). |
| Rename.Apply | src/files.py:57 | Definition of calling one formatter of the chain; see ApplyFormatter and the TitleCase and RegexReplace rows. |
| Rename.Fold | src/files.py:55-57 | A successful chain of one or more formatters yields a path in the original file's directory. An empty chain yields the start path. |
| Rename.FoldAppend | src/files.py:56-57 | Running chain `c1 + c2` is running `c1` and then `c2` on its result. A failure in `c1` stops the chain. |
| Rename.Command | src/files.py:54-61 | A staged rename renames the file itself, within the same directory, to a different name. |
| Rename.GetCommand | src/files.py:54-61 | The loop that reassigns `file_new` once per formatter returns exactly `Command`. |
| Rename.ApplyFormatter | src/files.py:57 | Calling one formatter, with the regex formatter run as its loops, gives `Apply`. |
| Rename.CommandIff | src/files.py:59-61 | The getter raises exactly when the chain raises. It returns None exactly when the chain ends on the original name; otherwise it returns the rename from `file` to the chain's result. |
| Rename.TitleCaseChainSettles | src/files.py:54-71 | A title-case chain stages nothing for a name it already produced (when the idempotence conditions hold). |
| Rename.SymbolNameRaises | src/files.py:55-71 | A dot-free name of symbols only makes the title-case getter raise `InvalidName("")`. |
| TitleCase.NewStem | src/files.py:69 | Definition of the formatted stem; see FormatParts and NewStemFixed. |
| TitleCase.NewSuffix | src/files.py:70 | Definition of the formatted suffix; see FormatParts and NewSuffixShape. |
| TitleCase.Format | src/files.py:67-71 | Definition of `TitleCaseSanitizerFormatter.__call__`; see FormatParts, FormatIdempotent and the counterexample rows. |
| TitleCase.CollapseRuns | src/files.py:69 | The substitution yields letters, digits and single spaces only and keeps every letter and digit in order. It is empty iff its input is, and it starts with a space iff the input starts with a non-alphanumeric. |
| TitleCase.CollapseRunsIsSquash | src/files.py:69 | The substitution equals an independent reference: every non-alphanumeric replaced by a space, then each run of spaces shortened to one. |
| TitleCase.LowerTitle | src/files.py:69 | `title()` changes only the case of letters: lowercased, the result equals the lowercased input. |
| TitleCase.Title | src/files.py:69 | `title()`: a character is upper-cased iff no letter precedes it, and lower-cased otherwise. The length is kept. |
| TitleCase.FormatParts | src/files.py:67-71 | The formatted name is a stem followed by a suffix. The stem is clean (single interior spaces, none at the ends), title-shaped, dot-free, and has the original stem's letters and digits up to case. Lowercased, the stem equals the lowercased, stripped reference substitution of the original stem, which fixes where the word breaks fall. The suffix is the original suffix lowercased and stripped, or "" when there is none. |
| TitleCase.NewSuffixShape | src/files.py:70 | A normalised suffix starts with its only dot and is already lower-case and stripped. |
| TitleCase.NewStemFixed | src/files.py:69 | Sanitising a sanitised stem again changes nothing. |
| TitleCase.ReparseFormatted | src/files.py:67-71 | A formatted name with a non-empty stem splits back into the same stem and suffix. |
| TitleCase.FormatIdempotent | src/files.py:67-71 | f(f(n)) = f(n) whenever the stem has a letter or digit and the normalised suffix is not ".". |
| TitleCase.SymbolStemNotIdempotent | src/files.py:69-71 | "!!.wav" (no alphanumeric in its stem) formats to ".wav", and ".wav" formats to "Wav". |
| TitleCase.BareDotSuffixNotIdempotent | src/files.py:69-71 | "a. " formats to "A.", and "A." formats to "A". |
| TitleCase.FormatSymbolsOnly | src/files.py:69-71 | A non-empty dot-free name with no letter or digit formats to "". |
| RegexReplace.FirstMatch | src/files.py:81-88 | The index found is that of a matching pattern, and no earlier pattern matches. It is the end of the list when none matches. |
| RegexReplace.NewTemplate | src/files.py:81-88 | The result is None iff no pattern matches. Otherwise it is the substitution made by the first matching pattern in insertion order. |
| RegexReplace.FindFirst | src/files.py:81-88 | The scan over the patterns in insertion order returns `FirstMatch`. |
| RegexReplace.BumpedName | src/files.py:95-97 | The bumped name always ends with the normalised suffix. It equals the formatted template exactly when the template already ends with that suffix; otherwise it is the template followed by the suffix. |
| RegexReplace.BumpName | src/files.py:92-98 | A formatted template gives `with_name` of the bumped name: the formatted template, followed by the normalised suffix unless it already ends with it. A bumped path keeps the file's parent directory. A template that `str.format` refuses raises `FormatFailed`; the only other error is `with_name`'s `InvalidName`. |
| RegexReplace.Search | src/files.py:100-104 | Definition: the bounded search from counter 1 over `bump_file_name`; see SearchFound, SearchExhaustedTaken, NeverExhausted and RenamedIsFree. |
| RegexReplace.SearchFrom | src/files.py:100-104 | The counter found lies between the start value and the start value plus the tries allowed. |
| RegexReplace.SearchFound | src/files.py:100-104 | The search stops at a counter whose bumped path is free, and every smaller counter from the start bumped to an existing path. |
| RegexReplace.SearchExhaustedTaken | src/files.py:103-104 | A search that runs out of tries found every counter it tried taken. |
| RegexReplace.BumpWhileExists | src/files.py:90-104 | The `while file_new.exists()` loop, starting at count 1, returns exactly the search from 1 with one more try than there are existing paths, for any counter-to-path function. |
| RegexReplace.Rename | src/files.py:80-106 | With no matching pattern, or an empty substitution, the name is returned unchanged. |
| RegexReplace.Call | src/files.py:80-106 | `__call__` run as its two loops returns exactly `Rename`. |
| RegexReplace.RenamedIsFree | src/files.py:80-106 | With a non-empty substitution, the new name comes from the first matching pattern. It names no existing file, and every counter value from 1 below the one used was taken. |
| RegexReplace.NeverExhausted | src/files.py:103-104 | When counter values 1 to one past the number of existing files bump to distinct paths, the bounded search never gives up. |
| Batch.Done | src/files.py:136 | The line after a command runs is "DONE : " followed by the command's description. |
| Batch.Summary | src/files.py:138 | The closing line is the decimal digits of the number of commands followed by " operations was performed with success.". The digits read back as that number. |
| Batch.EntryPaths | src/files.py:116-117 | The paths of one walk entry are `root` joined with each file name, in order. |
| Batch.Accepted | src/files.py:133 | Definition of `answer.lower().strip() == "y"`; see AcceptedIff. |
| Batch.Collect | src/files.py:115-121 | Definition of the staging loop over a list of files; see CollectMembers, CollectOrder, CollectOk, CollectError and CollectAppend. |
| Batch.Discover | src/files.py:113-121 | Definition of the staging over the whole walk; see StageCommands and FirstErrorRaised. |
| Batch.Report | src/files.py:123-143 | Definition of what is printed, asked and run once commands are staged; see Confirm, ExecutedReport, PromptedReport and LastLine. |
| Batch.Listing | src/files.py:126-127 | One printed description per staged command, in staging order. |
| Batch.ListCommands | src/files.py:126-127 | The listing loop produces exactly `Listing`. |
| Batch.Run | src/files.py:134-136 | Running n commands produces 2n events: the k-th command's execution, then its "DONE" line describing that command as its run left it. |
| Batch.RunCommands | src/files.py:134-136 | The execution loop produces exactly `Run`. |
| Batch.ExecutedRun | src/files.py:134-136 | The execution loop runs every command exactly once, in staging order. |
| Batch.StageEntry | src/files.py:116-121 | The inner loop over one walk entry continues the staging of the files before it. |
| Batch.StageCommands | src/files.py:113-121 | The nested walk loop returns exactly `Discover`: the staged commands, or the first error a getter raised. |
| Batch.Confirm | src/files.py:123-143 | Listing, asking and running the staged commands produces exactly `Report`. |
| Batch.UpdateFiles | src/files.py:109-143 | When a getter raises, the batch raises that error and prints nothing. Otherwise it produces `Report` of the staged commands. |
| Batch.CollectMembers | src/files.py:115-121 | A command is staged iff some selected file's getter returns it. No more commands are staged than there are files. |
| Batch.CollectOrder | src/files.py:115-121 | The staged commands are one per selected file whose getter returns a command, from no other file, in the walk's file order. |
| Batch.CollectOk | src/files.py:115-121 | Staging succeeds iff no selected file's getter raises. |
| Batch.CollectError | src/files.py:115-121 | A failed staging failed on a selected file whose getter raised that error, and every earlier selected file staged cleanly. |
| Batch.FirstErrorRaised | src/files.py:115-121 | A getter raising on a file, after every earlier file staged cleanly, makes the whole walk raise that error. |
| Batch.ExecutedReport | src/files.py:123-143 | Commands run only after an accepted answer, and then all of them, once each, in staging order. With no commands nothing runs. |
| Batch.PromptedReport | src/files.py:123-131 | The question is asked iff at least one command was staged. |
| Batch.LastLine | src/files.py:133-143 | The last line is the success count after acceptance. Otherwise it is "The operation was aborted", or "There is no operation to be performed" with no commands. |
| Batch.AcceptedIff | src/files.py:133 | `answer.lower().strip() == "y"` holds exactly for a single "y" or "Y" with only whitespace around it. |
| Audio.TargetSampleRateHertz | src/audio.py:45-48 | The target rate is at most the current rate and at most the cap, and equals one of them. |
| Audio.TargetSampleWidthBytes | src/audio.py:50-53 | The target width is at most the current width and at most the cap, and equals one of them. |
| Audio.NeedsRescaling | src/audio.py:55-61 | Rescaling is needed iff the rate is above the cap or the width is above the cap. |
| Audio.RescaledSettles | src/audio.py:45-61 | Audio at its targets needs no rescaling and keeps the same targets. A file is already at its targets iff it needs no rescaling. |
| Audio.DescribeInjective | src/audio.py:63-64 | Two equal scaling texts come from the same header and the same targets (for non-negative values). |
| Audio.Describe | src/audio.py:63-64 | Definition of the scaling text; see DescribeInjective and ConvertDescription. |
| Audio.ConvertDescription | src/audio.py:83-85 | The description is "Convert audio : " + the scaling text + " (" + the file name + ")". |
| Audio.ConversionCommand | src/audio.py:94-109 | A failed read raises. Otherwise a command is returned iff the rate or width is above the target, and that command is for this file, its header and the target. |
| Audio.MetadataDescription | src/audio.py:124-126 | The description is "Delete metadata : " + the item list text + " (" + the file name + ")". |
| Audio.MetadataDoneLine | src/audio.py:124-132 | After a metadata command has run, its "DONE" line is "DONE : " + "Delete metadata : " + the text of the empty item list + " (" + the file name + ")". |
| Audio.MetadataDoneLines | src/files.py:134-136 | In an accepted metadata batch every "DONE" line shows the empty item list, not the tags listed before the question. |
| Audio.MetadataCommand | src/audio.py:134-144 | A non-WAV file raises "Only 'wav' files are supported at the moment." before anything is read. A failed read raises. Otherwise a command with the file's tags is returned iff it has tags. |
| Audio.NormalizeAudioFilenames | src/audio.py:147-156 | The heading is printed, then the rename batch runs over the files of the given format. |
| Audio.ConvertAudioFiles | src/audio.py:159-167 | The heading is printed, then the conversion batch runs over the files of the target's format. |
| Audio.RemoveAudioFilesMetadata | src/audio.py:170-177 | The heading is printed, then the metadata batch runs over the files of the given format. Its "DONE" lines describe the commands with their tags deleted. |
| Audio.ConversionStages | src/audio.py:159-167 | The conversion batch stages a command for a file iff it has the target format, its header reads, and it is over the target. |
| Audio.MetadataRejectsOtherFormats | src/audio.py:170-177 | A metadata batch over a non-WAV format raises the not-supported error as soon as it selects a file. |
| Alesis.TargetSampleRateHertz | src/alesis.py:23-26 | The target rate is min(current rate, 44100): at most both, and equal to one of them. |
| Alesis.TargetSampleWidthBytes | src/alesis.py:28-31 | The target width is min(current width, 2): at most both, and equal to one of them. |
| Alesis.NeedsRescaling | src/alesis.py:33-39 | Rescaling is needed iff the rate is above 44100 Hz or the width is above 2 bytes. |
| Alesis.AgreesWithAudio | src/alesis.py:11-42 | The built-in limits agree with `src/audio.py`'s Alesis target in format, targets, decision and text. |
| Alesis.Describe | src/alesis.py:41-42 | Definition of the Alesis scaling text; see AgreesWithAudio. |
| Alesis.ConvertDescription | src/alesis.py:61-63 | Definition of the Alesis conversion description; see ConvertDescriptionAgrees. |
| Alesis.ConvertDescriptionAgrees | src/alesis.py:61-63 | The Alesis conversion description equals `src/audio.py`'s for the Alesis target. |
| Alesis.ConversionCommand | src/alesis.py:72-87 | A failed read raises. Otherwise a command for this file and header is returned iff the rate is above 44100 or the width is above 2. |
| Alesis.MetadataCommand | src/alesis.py:112-118 | There is no format check. A failed read raises; otherwise a command with the tags is returned iff there are tags. |
| Alesis.MetadataAgrees | src/alesis.py:112-118 | On WAV files this getter agrees with `src/audio.py`'s. On any other file only `src/audio.py`'s raises. |
| Alesis.TrimSuffixDots | src/alesis.py:151 | Stripping dots from a suffix-shaped string removes exactly its leading dot. |
| Alesis.IsSupportedAudioFile | src/alesis.py:148-152 | Definition of `_is_supported_audio_file`; see SupportedIff and AcceptsAnyCase. |
| Alesis.SupportedIff | src/alesis.py:148-152 | A path is supported iff it is a file and its suffix, lowercased and stripped, is exactly ".wav". |
| Alesis.AcceptsAnyCase | src/alesis.py:148-152 | A regular file named base + ".wav", in any mix of cases, is supported. |
| Alesis.NormalizeAudioFilenames | src/alesis.py:121-127 | The rename batch runs over the supported files. |
| Alesis.ConvertAudioFiles | src/alesis.py:130-136 | The conversion batch runs over the supported files. |
| Alesis.RemoveAudioFilesMetadata | src/alesis.py:139-145 | The metadata batch runs over the supported files. Its "DONE" lines describe the commands with their tags deleted. |
| Alesis.ConversionStages | src/alesis.py:130-136 | The Alesis conversion batch stages a command for a file iff it is supported, its header reads, and it is above 44.1 kHz or 16 bits. |

## Left out

- The `execute` bodies (pydub resampling and export, mutagen tag deletion, `os.rename`) are outside the model. Running a command is an `Execute` event in the trace.
- An exception raised by `execute` would abort the rest of the batch. That is not modelled, because execution is an opaque event that cannot fail.
- `print` and `input` are modelled as events and an answer string.
- `os.walk` is an input sequence of (directory, file names) entries, so its traversal order is whatever the input says. Sub-directory names are not used.
- `AudioSegment.from_wav` and `WAVE(...)` are inputs. They are a header of frame rate and sample width, a list of tag items, or a read error.
- The text Python prints for the tag item list is a parameter (`itemsText`).
- `files.file_has_format` is not part of this model, so it is an abstract predicate. `Path.is_file` and `Path.exists` are also inputs: a predicate and a finite set of existing paths, fixed for the whole call.
- The regex engine behind the user's patterns and `str.format(count=...)` are abstract functions. Only the fixed `[^0-9a-zA-Z]+` substitution is modelled. `str.format` may refuse a template (`FormatFailed`).
- RegexReplace.Pattern: `pattern.sub` is a total function. A replacement template that makes `re.sub` raise `re.error` is not modelled.
- `Path.exists()` is membership of a `Path` value in the set of existing paths. Two spellings of one file, such as directory "." and directory "", are different members of that set.
- `Rename.Formatter`: any callable other than the two formatters is `Callable`, given by the name or exception it produces for each path; its body is not modelled.
- `lower`, `strip` and `title` are modelled on ASCII only. Unicode case mapping and Unicode whitespace are not modelled.
- Paths are POSIX only: `with_name` refuses an empty name, a name with '/', and ".". Windows separators and drive letters are not modelled.
- RegexReplace.Search: the source's `while exists()` loop never ends when every counter value names an existing file, for example a template that ignores `count`. The model allows one more try than there are existing files and then returns `SearchExhausted`. `RegexReplace.NeverExhausted` proves that this error never occurs when distinct counter values give distinct names. When the template repeats a name among counter values 1 to one more than the number of existing files, and a later value would give a free name, the model returns `SearchExhausted` where the source goes on and returns that free name.
- TitleCase.FormatIdempotent: also requires that the normalised suffix is not a bare "." (`BareDotSuffixNotIdempotent` shows why).
- Audio.DescribeInjective: requires non-negative rates and widths, since a minus sign would break the split between numbers.
- Alesis.ConvertDescription: its text is stated through `Alesis.ConvertDescriptionAgrees` (equal to `Audio.ConvertDescription`, whose contract gives the format), not through a contract of its own.
