/** `update_files` (src/files.py): walk a directory tree, stage one optional command per selected
    file, list them, ask for confirmation and run them all in order only on a "y". */
module Batch {
  import opened Types
  import opened Strings
  import opened Paths

  /** One triple yielded by `os.walk`: a directory and the names of the files directly in it (the
      sub-directory names are not used). */
  datatype WalkEntry = WalkEntry(root: string, files: seq<string>)

  /** What the batch does that can be observed: a printed line, the confirmation prompt, or a
      command's `execute()`. */
  datatype Event<C> = Print(line: string) | Prompt(text: string) | Execute(cmd: C)

  const Header := "The following operations will be performed : "
  const Question := "The operation is not reversible. Do you wish to continue ? (y/N): "
  const Aborted := "The operation was aborted"
  const NothingToDo := "There is no operation to be performed"

  /** The line printed after a command has run. */
  function Done(description: string): (r: string)
    ensures |r| == |description| + 7 && r[..7] == "DONE : " && r[7..] == description
  {
    "DONE : " + description
  }

  /** The closing line of an accepted batch. */
  function Summary(n: nat): (r: string)
    ensures |r| == |NatToString(n)| + 39
    ensures AllDigits(r[..|r| - 39]) && DecimalValue(r[..|r| - 39]) == n
    ensures r[|r| - 39..] == " operations was performed with success."
  {
    DecimalRoundTrip(n);
    var digits := NatToString(n);
    var r := digits + " operations was performed with success.";
    assert r[..|r| - 39] == digits;
    r
  }

  /** `answer.lower().strip() == "y"`. */
  predicate Accepted(answer: string) {
    Strip(Lower(answer)) == "y"
  }

  /** The paths `os.path.join(root, name)` of one walk entry, in its order. */
  function EntryPaths(e: WalkEntry): (r: seq<Path>)
    ensures |r| == |e.files|
    ensures forall k :: 0 <= k < |r| ==> r[k] == Path(e.root, e.files[k])
  {
    seq(|e.files|, k requires 0 <= k < |e.files| => Path(e.root, e.files[k]))
  }

  /** Every file of the walk, in the order the nested loops visit them. */
  function Files(walk: seq<WalkEntry>): seq<Path> {
    if walk == [] then [] else Files(walk[..|walk| - 1]) + EntryPaths(walk[|walk| - 1])
  }

  /** The staging loop: the command of every selected file whose getter returns one, in order, or the
      first error a getter raises. */
  function Collect<C>(files: seq<Path>, keep: Path -> bool, getter: Path -> Result<Option<C>>): Result<seq<C>> {
    if files == [] then Ok([])
    else
      match Collect(files[..|files| - 1], keep, getter)
      case Err(e) => Err(e)
      case Ok(cmds) =>
        var file := files[|files| - 1];
        if !keep(file) then Ok(cmds)
        else match getter(file)
          case Err(e) => Err(e)
          case Ok(None) => Ok(cmds)
          case Ok(Some(c)) => Ok(cmds + [c])
  }

  /** The commands the walk stages. */
  function Discover<C>(walk: seq<WalkEntry>, keep: Path -> bool, getter: Path -> Result<Option<C>>): Result<seq<C>> {
    Collect(Files(walk), keep, getter)
  }

  /** One printed description per staged command. */
  function Listing<C>(cmds: seq<C>, describe: C -> string): (r: seq<Event<C>>)
    ensures |r| == |cmds|
    ensures forall k :: 0 <= k < |cmds| ==> r[k] == Print(describe(cmds[k]))
  {
    seq(|cmds|, k requires 0 <= k < |cmds| => Print(describe(cmds[k])))
  }

  /** Each command run, followed by its "DONE" line. The line describes the command as its own
      `execute()` left it (`after`), since the description is read again once it has run. */
  function Run<C>(cmds: seq<C>, describe: C -> string, after: C -> C): (r: seq<Event<C>>)
    ensures |r| == 2 * |cmds|
    ensures forall k :: 0 <= k < |cmds| ==>
              r[2 * k] == Execute(cmds[k]) && r[2 * k + 1] == Print(Done(describe(after(cmds[k]))))
  {
    if cmds == [] then []
    else Run(cmds[..|cmds| - 1], describe, after)
         + [Execute(cmds[|cmds| - 1]), Print(Done(describe(after(cmds[|cmds| - 1]))))]
  }

  /** What the batch prints, asks and runs once the commands are staged. */
  function Report<C>(cmds: seq<C>, describe: C -> string, after: C -> C, answer: string): seq<Event<C>> {
    if cmds == [] then [Print(NothingToDo)]
    else
      [Print(Header)] + Listing(cmds, describe) + [Prompt(Question)]
      + (if Accepted(answer) then Run(cmds, describe, after) + [Print(Summary(|cmds|))] else [Print(Aborted)])
  }

  /** The commands a trace runs, in order. */
  function Executed<C>(trace: seq<Event<C>>): seq<C> {
    if trace == [] then []
    else Executed(trace[..|trace| - 1]) + (if trace[|trace| - 1].Execute? then [trace[|trace| - 1].cmd] else [])
  }

  /** Whether a trace asks the question. */
  ghost predicate Prompted<C>(trace: seq<Event<C>>) {
    exists k :: 0 <= k < |trace| && trace[k].Prompt?
  }

  /** The first half of `update_files`: the nested walk loop appending to `commands`. An exception
      from a getter ends it. */
  method StageCommands<C>(walk: seq<WalkEntry>, keep: Path -> bool, getter: Path -> Result<Option<C>>)
    returns (r: Result<seq<C>>)
    ensures r == Discover(walk, keep, getter)
  {
    var commands: seq<C> := [];
    var i := 0;
    while i < |walk|
      invariant 0 <= i <= |walk|
      invariant Collect(Files(walk[..i]), keep, getter) == Ok(commands)
    {
      var staged := StageEntry(walk[i], keep, getter, Files(walk[..i]), commands);
      FilesSnoc(walk, i);
      if staged.Err? {
        PrefixError(walk, i + 1, keep, getter);
        return staged;
      }
      commands := staged.value;
      i := i + 1;
    }
    assert walk[..i] == walk;
    return Ok(commands);
  }

  /** The inner loop of `update_files`, over the files of one walk entry, continuing from the
      commands staged for the files `before` it. */
  method StageEntry<C>(entry: WalkEntry, keep: Path -> bool, getter: Path -> Result<Option<C>>,
                       ghost before: seq<Path>, commands: seq<C>)
    returns (r: Result<seq<C>>)
    requires Collect(before, keep, getter) == Ok(commands)
    ensures r == Collect(before + EntryPaths(entry), keep, getter)
  {
    var staged := commands;
    ghost var seen := before;
    var j := 0;
    while j < |entry.files|
      invariant 0 <= j <= |entry.files|
      invariant seen == before + EntryPaths(entry)[..j]
      invariant Collect(seen, keep, getter) == Ok(staged)
    {
      var file := Path(entry.root, entry.files[j]);
      CollectSnoc(seen, file, keep, getter);
      Extend(before, EntryPaths(entry), j);
      if keep(file) {
        var cmd := getter(file);
        if cmd.Err? {
          CollectErrorPrefix(seen + [file], EntryPaths(entry)[j + 1..], keep, getter);
          return Err(cmd.error);
        }
        if cmd.value.Some? {
          staged := staged + [cmd.value.value];
        }
      }
      seen := seen + [file];
      j := j + 1;
    }
    assert EntryPaths(entry)[..j] == EntryPaths(entry);
    return Ok(staged);
  }

  /** Growing a prefix of `before + s` by one element of `s`. */
  lemma Extend<T>(before: seq<T>, s: seq<T>, j: nat)
    requires j < |s|
    ensures before + s[..j + 1] == (before + s[..j]) + [s[j]]
    ensures before + s == (before + s[..j + 1]) + s[j + 1..]
  {
    assert s[..j + 1] == s[..j] + [s[j]];
    assert s == s[..j + 1] + s[j + 1..];
  }

  /** Once some files raise, staging more files after them raises the same error. */
  lemma CollectErrorPrefix<C>(a: seq<Path>, b: seq<Path>, keep: Path -> bool, getter: Path -> Result<Option<C>>)
    requires Collect(a, keep, getter).Err?
    ensures Collect(a + b, keep, getter) == Collect(a, keep, getter)
  {
    CollectAppend(a, b, keep, getter);
  }

  /** A walk whose first `i` entries raise raises that error. */
  lemma PrefixError<C>(walk: seq<WalkEntry>, i: nat, keep: Path -> bool, getter: Path -> Result<Option<C>>)
    requires i <= |walk|
    requires Collect(Files(walk[..i]), keep, getter).Err?
    ensures Discover(walk, keep, getter) == Collect(Files(walk[..i]), keep, getter)
  {
    assert walk == walk[..i] + walk[i..];
    FilesAppend(walk[..i], walk[i..]);
    CollectErrorPrefix(Files(walk[..i]), Files(walk[i..]), keep, getter);
  }

  /** Staging one more file. */
  lemma CollectSnoc<C>(files: seq<Path>, file: Path, keep: Path -> bool, getter: Path -> Result<Option<C>>)
    requires Collect(files, keep, getter).Ok?
    ensures var cmds := Collect(files, keep, getter).value;
            Collect(files + [file], keep, getter)
            == if !keep(file) then Ok(cmds)
               else match getter(file)
                 case Err(e) => Err(e)
                 case Ok(None) => Ok(cmds)
                 case Ok(Some(c)) => Ok(cmds + [c])
  {
    assert (files + [file])[..|files|] == files;
  }

  /** The walk up to entry `i` inclusive. */
  lemma FilesSnoc(walk: seq<WalkEntry>, i: nat)
    requires i < |walk|
    ensures Files(walk[..i + 1]) == Files(walk[..i]) + EntryPaths(walk[i])
  {
    assert walk[..i + 1][..i] == walk[..i];
  }

  /** The second half of `update_files`: list the commands, ask, and run them on a "y". */
  method Confirm<C>(commands: seq<C>, describe: C -> string, after: C -> C, answer: string)
    returns (trace: seq<Event<C>>)
    ensures trace == Report(commands, describe, after, answer)
  {
    if commands == [] {
      return [Print(NothingToDo)];
    }
    var listed := ListCommands(commands, describe);
    trace := [Print(Header)] + listed + [Prompt(Question)];
    if Accepted(answer) {
      var ran := RunCommands(commands, describe, after);
      trace := trace + (ran + [Print(Summary(|commands|))]);
    } else {
      trace := trace + [Print(Aborted)];
    }
  }

  /** The loop printing each staged command's description. */
  method ListCommands<C>(commands: seq<C>, describe: C -> string) returns (trace: seq<Event<C>>)
    ensures trace == Listing(commands, describe)
  {
    trace := [];
    for k := 0 to |commands|
      invariant trace == Listing(commands[..k], describe)
    {
      trace := trace + [Print(describe(commands[k]))];
    }
    assert commands[..|commands|] == commands;
  }

  /** The loop executing each command and printing its "DONE" line. */
  method RunCommands<C>(commands: seq<C>, describe: C -> string, after: C -> C) returns (trace: seq<Event<C>>)
    ensures trace == Run(commands, describe, after)
  {
    trace := [];
    for k := 0 to |commands|
      invariant trace == Run(commands[..k], describe, after)
    {
      assert commands[..k + 1][..k] == commands[..k];
      trace := trace + [Execute(commands[k])];
      trace := trace + [Print(Done(describe(after(commands[k]))))];
    }
    assert commands[..|commands|] == commands;
  }

  /** `update_files`: stage, then confirm. An exception from a getter ends the batch before anything
      is printed. */
  method UpdateFiles<C>(walk: seq<WalkEntry>, keep: Path -> bool, getter: Path -> Result<Option<C>>,
                        describe: C -> string, after: C -> C, answer: string)
    returns (raised: Option<Error>, trace: seq<Event<C>>)
    ensures Discover(walk, keep, getter).Err? ==>
              raised == Some(Discover(walk, keep, getter).error) && trace == []
    ensures Discover(walk, keep, getter).Ok? ==>
              raised == None && trace == Report(Discover(walk, keep, getter).value, describe, after, answer)
  {
    var staged := StageCommands(walk, keep, getter);
    if staged.Err? {
      return Some(staged.error), [];
    }
    raised := None;
    trace := Confirm(staged.value, describe, after, answer);
  }

  /** The files of two walks one after the other. */
  lemma {:induction false} FilesAppend(a: seq<WalkEntry>, b: seq<WalkEntry>)
    ensures Files(a + b) == Files(a) + Files(b)
    decreases |b|
  {
    if b == [] {
      assert a + b == a;
    } else {
      var b' := b[..|b| - 1];
      var last := b[|b| - 1];
      assert (a + b)[..|a + b| - 1] == a + b';
      assert (a + b)[|a + b| - 1] == last;
      assert Files(a + b) == Files(a + b') + EntryPaths(last);
      FilesAppend(a, b');
      assert Files(b) == Files(b') + EntryPaths(last);
      assert (Files(a) + Files(b')) + EntryPaths(last) == Files(a) + (Files(b') + EntryPaths(last));
    }
  }

  /** Staging two lists of files one after the other: the commands of the first, then those of the
      second, unless one of them raises (the first one's error wins). */
  lemma {:induction false} CollectAppend<C>(a: seq<Path>, b: seq<Path>, keep: Path -> bool,
                                            getter: Path -> Result<Option<C>>)
    ensures Collect(a + b, keep, getter)
            == match Collect(a, keep, getter)
               case Err(e) => Err(e)
               case Ok(x) =>
                 match Collect(b, keep, getter)
                 case Err(e) => Err(e)
                 case Ok(y) => Ok(x + y)
    decreases |b|
  {
    if b == [] {
      assert a + b == a;
      match Collect(a, keep, getter)
      case Err(e) =>
      case Ok(x) => assert x + [] == x;
    } else {
      var b' := b[..|b| - 1];
      assert (a + b)[..|a + b| - 1] == a + b';
      assert (a + b)[|a + b| - 1] == b[|b| - 1];
      CollectAppend(a, b', keep, getter);
      match Collect(a, keep, getter)
      case Err(e) =>
      case Ok(x) =>
        match Collect(b', keep, getter)
        case Err(e) =>
        case Ok(y) =>
          match getter(b[|b| - 1])
          case Err(e) =>
          case Ok(None) =>
          case Ok(Some(c)) => assert x + (y + [c]) == (x + y) + [c];
    }
  }

  /** The files of a walk, split around the `j`th file of its `i`th entry. */
  lemma FilesAround(walk: seq<WalkEntry>, i: nat, j: nat)
    requires i < |walk| && j < |walk[i].files|
    ensures Files(walk) == (Files(walk[..i]) + EntryPaths(walk[i])[..j + 1])
                           + (EntryPaths(walk[i])[j + 1..] + Files(walk[i + 1..]))
  {
    var entry := walk[i];
    FilesSplit(walk, i);
    var x, y := EntryPaths(entry)[..j + 1], EntryPaths(entry)[j + 1..];
    assert EntryPaths(entry) == x + y;
    Regroup(Files(walk[..i]), x, y, Files(walk[i + 1..]));
  }

  /** The files of a walk, split around its `i`th entry. */
  lemma FilesSplit(walk: seq<WalkEntry>, i: nat)
    requires i < |walk|
    ensures Files(walk) == (Files(walk[..i]) + EntryPaths(walk[i])) + Files(walk[i + 1..])
  {
    var entry := walk[i];
    var front := walk[..i] + [entry];
    FilesOne(entry);
    FilesAppend(walk[..i], [entry]);
    SplitAt(walk, i);
    FilesAppend(front, walk[i + 1..]);
  }

  lemma SplitAt<T>(s: seq<T>, i: nat)
    requires i < |s|
    ensures (s[..i] + [s[i]]) + s[i + 1..] == s
  {
  }

  lemma FilesOne(entry: WalkEntry)
    ensures Files([entry]) == EntryPaths(entry)
  {
    assert [entry][..0] == [];
  }

  lemma Regroup(p: seq<Path>, x: seq<Path>, y: seq<Path>, q: seq<Path>)
    ensures (p + (x + y)) + q == (p + x) + (y + q)
  {
  }

  /** A getter raising on the `j`th file of the `i`th walk entry, after every earlier file staged
      cleanly, makes the whole walk raise that error. */
  lemma FirstErrorRaised<C>(walk: seq<WalkEntry>, keep: Path -> bool, getter: Path -> Result<Option<C>>,
                            i: nat, j: nat)
    requires i < |walk| && j < |walk[i].files|
    requires Collect(Files(walk[..i]) + EntryPaths(walk[i])[..j], keep, getter).Ok?
    requires keep(Path(walk[i].root, walk[i].files[j]))
    requires getter(Path(walk[i].root, walk[i].files[j])).Err?
    ensures Discover(walk, keep, getter) == Err(getter(Path(walk[i].root, walk[i].files[j])).error)
  {
    var entry := walk[i];
    var e := getter(Path(entry.root, entry.files[j])).error;
    var front := Files(walk[..i]) + EntryPaths(entry)[..j + 1];
    assert front[..|front| - 1] == Files(walk[..i]) + EntryPaths(entry)[..j];
    assert Collect(front, keep, getter) == Err(e);
    FilesAround(walk, i, j);
    CollectAppend(front, EntryPaths(entry)[j + 1..] + Files(walk[i + 1..]), keep, getter);
  }

  /** A command is staged exactly when some selected file's getter returns it; at most one command
      per file. */
  lemma {:induction false} CollectMembers<C>(files: seq<Path>, keep: Path -> bool, getter: Path -> Result<Option<C>>)
    requires Collect(files, keep, getter).Ok?
    ensures |Collect(files, keep, getter).value| <= |files|
    ensures forall c :: c in Collect(files, keep, getter).value <==>
              exists k :: 0 <= k < |files| && keep(files[k]) && getter(files[k]) == Ok(Some(c))
  {
    if files != [] {
      var front := files[..|files| - 1];
      CollectMembers(front, keep, getter);
      forall k | 0 <= k < |front| ensures files[k] == front[k] { }
    }
  }

  /** The staged commands, one for each selected file whose getter returns a command and for no
      other file, in the order of the files: `idx` gives the file each command came from. */
  lemma {:induction false} CollectOrder<C>(files: seq<Path>, keep: Path -> bool, getter: Path -> Result<Option<C>>)
    returns (idx: seq<nat>)
    requires Collect(files, keep, getter).Ok?
    ensures var cmds := Collect(files, keep, getter).value;
            |idx| == |cmds|
            && (forall m :: 0 <= m < |idx| ==>
                  idx[m] < |files| && keep(files[idx[m]]) && getter(files[idx[m]]) == Ok(Some(cmds[m])))
            && (forall m, n :: 0 <= m < n < |idx| ==> idx[m] < idx[n])
            && (forall k :: 0 <= k < |files| && keep(files[k]) && getter(files[k]).Ok? && getter(files[k]).value.Some?
                  ==> k in idx)
  {
    if files == [] {
      idx := [];
    } else {
      var front, file := files[..|files| - 1], files[|files| - 1];
      var before := CollectOrder(front, keep, getter);
      var cmds := Collect(front, keep, getter).value;
      forall k | 0 <= k < |front| ensures files[k] == front[k] { }
      if keep(file) && getter(file).Ok? && getter(file).value.Some? {
        idx := before + [|files| - 1];
        assert Collect(files, keep, getter).value == cmds + [getter(file).value.value];
      } else {
        idx := before;
      }
    }
  }

  /** The walk stages without error exactly when no selected file's getter raises. */
  lemma {:induction false} CollectOk<C>(files: seq<Path>, keep: Path -> bool, getter: Path -> Result<Option<C>>)
    ensures Collect(files, keep, getter).Ok? <==>
              forall k :: 0 <= k < |files| && keep(files[k]) ==> getter(files[k]).Ok?
  {
    if files != [] {
      var front := files[..|files| - 1];
      CollectOk(front, keep, getter);
      forall k | 0 <= k < |front| ensures files[k] == front[k] { }
    }
  }

  /** A failed walk failed on a selected file whose getter raised that error, after every earlier
      selected file staged cleanly. */
  lemma {:induction false} CollectError<C>(files: seq<Path>, keep: Path -> bool, getter: Path -> Result<Option<C>>)
    returns (k: nat)
    requires Collect(files, keep, getter).Err?
    ensures k < |files| && keep(files[k]) && getter(files[k]) == Err(Collect(files, keep, getter).error)
    ensures forall m :: 0 <= m < k && keep(files[m]) ==> getter(files[m]).Ok?
  {
    var front := files[..|files| - 1];
    if Collect(front, keep, getter).Err? {
      k := CollectError(front, keep, getter);
      forall m | 0 <= m <= k ensures files[m] == front[m] { }
    } else {
      k := |files| - 1;
      CollectOk(front, keep, getter);
      forall m | 0 <= m < k ensures files[m] == front[m] { }
    }
  }

  /** The commands a trace runs when it is made of two parts. */
  lemma {:induction false} ExecutedAppend<C>(a: seq<Event<C>>, b: seq<Event<C>>)
    ensures Executed(a + b) == Executed(a) + Executed(b)
    decreases |b|
  {
    if b == [] {
      assert a + b == a;
    } else {
      assert (a + b)[..|a + b| - 1] == a + b[..|b| - 1];
      ExecutedAppend(a, b[..|b| - 1]);
    }
  }

  lemma {:induction false} ExecutedListing<C>(cmds: seq<C>, describe: C -> string)
    ensures Executed(Listing(cmds, describe)) == []
    decreases |cmds|
  {
    if cmds != [] {
      var l := Listing(cmds, describe);
      assert l[..|l| - 1] == Listing(cmds[..|cmds| - 1], describe);
      ExecutedListing(cmds[..|cmds| - 1], describe);
    }
  }

  /** The run loop executes every command once, in order. */
  lemma {:induction false} ExecutedRun<C>(cmds: seq<C>, describe: C -> string, after: C -> C)
    ensures Executed(Run(cmds, describe, after)) == cmds
    decreases |cmds|
  {
    if cmds != [] {
      var last := cmds[|cmds| - 1];
      var tail: seq<Event<C>> := [Execute(last), Print(Done(describe(after(last))))];
      ExecutedRun(cmds[..|cmds| - 1], describe, after);
      ExecutedAppend(Run(cmds[..|cmds| - 1], describe, after), tail);
      assert tail[..|tail| - 1] == [Execute(last)];
      assert [Execute(last)][..0] == [];
      assert Executed([Execute(last)]) == [last];
      assert Executed(tail) == Executed([Execute(last)]);
      assert cmds[..|cmds| - 1] + [last] == cmds;
    }
  }

  /** Commands run only after a "y", then all of them, each once, in the order they were staged;
      with no command staged nothing runs. */
  lemma ExecutedReport<C>(cmds: seq<C>, describe: C -> string, after: C -> C, answer: string)
    ensures Executed(Report(cmds, describe, after, answer)) == if cmds != [] && Accepted(answer) then cmds else []
  {
    if cmds != [] {
      var shown := [Print(Header)] + Listing(cmds, describe) + [Prompt(Question)];
      ExecutedListing(cmds, describe);
      ExecutedAppend([Print(Header)], Listing(cmds, describe));
      ExecutedAppend([Print(Header)] + Listing(cmds, describe), [Prompt(Question)]);
      assert Executed(shown) == [];
      if Accepted(answer) {
        ExecutedRun(cmds, describe, after);
        ExecutedAppend(Run(cmds, describe, after), [Print(Summary(|cmds|))]);
        ExecutedAppend(shown, Run(cmds, describe, after) + [Print(Summary(|cmds|))]);
      } else {
        ExecutedAppend(shown, [Print(Aborted)]);
      }
    }
  }

  /** The question is asked exactly when some command was staged. */
  lemma PromptedReport<C>(cmds: seq<C>, describe: C -> string, after: C -> C, answer: string)
    ensures Prompted(Report(cmds, describe, after, answer)) <==> cmds != []
  {
    var t := Report(cmds, describe, after, answer);
    if cmds != [] {
      assert t[|cmds| + 1] == Prompt(Question);
    } else {
      assert t == [Print(NothingToDo)];
    }
  }

  /** After a "y" the last line reports the number of staged commands; otherwise it says the batch
      was aborted, or that there was nothing to do. */
  lemma LastLine<C>(cmds: seq<C>, describe: C -> string, after: C -> C, answer: string)
    ensures var t := Report(cmds, describe, after, answer);
            t != [] && t[|t| - 1] == (if cmds == [] then Print(NothingToDo)
                                      else if Accepted(answer) then Print(Summary(|cmds|))
                                      else Print(Aborted))
  {
  }

  /** The answers accepted are a single "y" or "Y" with only whitespace around it. */
  ghost predicate LoneYes(answer: string, i: int) {
    0 <= i < |answer| && (answer[i] == 'y' || answer[i] == 'Y')
    && forall k :: 0 <= k < |answer| && k != i ==> IsWhitespace(answer[k])
  }

  lemma AcceptedOnlyYes(answer: string) returns (i: nat)
    requires Accepted(answer)
    ensures LoneYes(answer, i)
  {
    var l := Lower(answer);
    var a, b := StripSplit(l);
    assert l == a + "y" + b;
    i := |a|;
    assert l[i] == 'y';
    forall k | 0 <= k < |answer| && k != i ensures IsWhitespace(answer[k]) {
      if k < i {
        assert l[k] == a[k];
      } else {
        assert l[k] == b[k - i - 1];
      }
      assert l[k] == ToLower(answer[k]);
    }
  }

  lemma AcceptedYes(answer: string, i: nat)
    requires LoneYes(answer, i)
    ensures Accepted(answer)
  {
    var l := Lower(answer);
    assert l[i] == 'y';
    forall k | 0 <= k < |l| && k != i ensures IsWhitespace(l[k]) {
      assert l[k] == ToLower(answer[k]);
    }
    TrimAt(l, IsWhitespace, i, i + 1);
    assert l[i..i + 1] == "y";
  }

  /** `answer.lower().strip() == "y"` holds exactly for a lone "y" or "Y" among whitespace. */
  lemma AcceptedIff(answer: string)
    ensures Accepted(answer) <==> exists i :: LoneYes(answer, i)
  {
    if Accepted(answer) {
      var i := AcceptedOnlyYes(answer);
    }
    if exists i :: LoneYes(answer, i) {
      var i :| LoneYes(answer, i);
      AcceptedYes(answer, i);
    }
  }
}
