/** RenameFileCmdGetter (src/files.py): run a chain of name formatters over a file and stage a rename
    when the chain changes its name. */
module Rename {
  import opened Types
  import opened Strings
  import opened Paths
  import TitleCase
  import RegexReplace

  /** `CmdRenameFile`: rename `file` to `fileNew`. */
  datatype CmdRenameFile = CmdRenameFile(file: Path, fileNew: Path)

  /** `CmdRenameFile.operation_description`. */
  function Description(c: CmdRenameFile): (r: string)
    ensures |r| == |PathText(c.file)| + |c.fileNew.name| + 15
    ensures r[..8] == "Rename '" && r[|r| - 1] == '\''
    ensures r[8..8 + |PathText(c.file)|] == PathText(c.file)
    ensures r[8 + |PathText(c.file)|..14 + |PathText(c.file)|] == "' -> '"
    ensures r[|r| - 1 - |c.fileNew.name|..|r| - 1] == c.fileNew.name
  {
    var path := PathText(c.file);
    RenameShape(path, c.fileNew.name);
    "Rename '" + path + "' -> '" + c.fileNew.name + "'"
  }

  lemma RenameShape(path: string, name: string)
    ensures var r := "Rename '" + path + "' -> '" + name + "'";
            && |r| == |path| + |name| + 15
            && r[..8] == "Rename '" && r[|r| - 1] == '\''
            && r[8..8 + |path|] == path && r[8 + |path|..14 + |path|] == "' -> '"
            && r[|r| - 1 - |name|..|r| - 1] == name
  {
    var r := "Rename '" + path + "' -> '" + name + "'";
    assert r == (("Rename '" + path) + "' -> '") + name + "'";
  }

  /** The formatters a chain can hold; the regex formatter carries its patterns, its count template
      formatting and the paths that exist on disk when it runs. Any other callable is `Callable`,
      given by the name it returns, or the exception it raises, for each path. */
  datatype Formatter =
    | TitleCaseSanitizer
    | RegexReplaceFileName(patterns: seq<RegexReplace.Pattern>, format: RegexReplace.Formatting, existing: set<Path>)
    | Callable(call: Path -> Result<string>)

  /** Calling one formatter on a path. */
  function Apply(f: Formatter, p: Path): Result<string> {
    match f
    case TitleCaseSanitizer => Ok(TitleCase.Format(p))
    case RegexReplaceFileName(patterns, format, existing) => RegexReplace.Rename(patterns, format, existing, p)
    case Callable(call) => call(p)
  }

  /** The same call, with the regex formatter run as its loops. */
  method ApplyFormatter(f: Formatter, p: Path) returns (r: Result<string>)
    ensures r == Apply(f, p)
  {
    match f
    case TitleCaseSanitizer =>
      r := Ok(TitleCase.Format(p));
    case RegexReplaceFileName(patterns, format, existing) =>
      r := RegexReplace.Call(patterns, format, existing, p);
    case Callable(call) =>
      r := call(p);
  }

  /** The chain folded left to right from `cur`: each formatter sees the path the previous one
      produced, and each result becomes the last component of `file`. */
  function Fold(file: Path, chain: seq<Formatter>, cur: Path): (r: Result<Path>)
    ensures r.Ok? && chain != [] ==> r.value.dir == file.dir
    ensures r.Ok? && chain == [] ==> r.value == cur
  {
    if chain == [] then Ok(cur)
    else match Apply(chain[0], cur)
      case Err(e) => Err(e)
      case Ok(name) =>
        match WithName(file, name)
        case Err(e) => Err(e)
        case Ok(next) => Fold(file, chain[1..], next)
  }

  /** `RenameFileCmdGetter.get_command`, as a value. */
  function Command(chain: seq<Formatter>, file: Path): (r: Result<Option<CmdRenameFile>>)
    ensures r.Ok? && r.value.Some? ==> r.value.value.file == file
    ensures r.Ok? && r.value.Some? ==> r.value.value.fileNew.dir == file.dir
    ensures r.Ok? && r.value.Some? ==> r.value.value.fileNew.name != file.name
  {
    match WithName(file, file.name)
    case Err(e) => Err(e)
    case Ok(start) =>
      match Fold(file, chain, start)
      case Err(e) => Err(e)
      case Ok(fileNew) => if fileNew.name != file.name then Ok(Some(CmdRenameFile(file, fileNew))) else Ok(None)
  }

  /** A `RenameFileCmdGetter` with the chain `chain`, as the batch calls it. */
  function Getter(chain: seq<Formatter>): Path -> Result<Option<CmdRenameFile>> {
    file => Command(chain, file)
  }

  /** `RenameFileCmdGetter.get_command` as the source runs it: `file_new` reassigned once per
      formatter. */
  method GetCommand(chain: seq<Formatter>, file: Path) returns (r: Result<Option<CmdRenameFile>>)
    ensures r == Command(chain, file)
  {
    var start := WithName(file, file.name);
    if start.Err? {
      return Err(start.error);
    }
    var fileNew := start.value;
    var i := 0;
    while i < |chain|
      invariant 0 <= i <= |chain|
      invariant Fold(file, chain, start.value) == Fold(file, chain[i..], fileNew)
    {
      var name := ApplyFormatter(chain[i], fileNew);
      if name.Err? {
        return Err(name.error);
      }
      var next := WithName(file, name.value);
      if next.Err? {
        return Err(next.error);
      }
      assert chain[i..][1..] == chain[i + 1..];
      fileNew := next.value;
      i := i + 1;
    }
    if fileNew.name != file.name {
      return Ok(Some(CmdRenameFile(file, fileNew)));
    }
    return Ok(None);
  }

  /** Running two chains one after the other is running their concatenation. */
  lemma {:induction false} FoldAppend(file: Path, c1: seq<Formatter>, c2: seq<Formatter>, cur: Path)
    ensures Fold(file, c1 + c2, cur)
            == match Fold(file, c1, cur) case Err(e) => Err(e) case Ok(mid) => Fold(file, c2, mid)
  {
    if c1 == [] {
      assert c1 + c2 == c2;
    } else {
      assert (c1 + c2)[0] == c1[0];
      assert (c1 + c2)[1..] == c1[1..] + c2;
      match Apply(c1[0], cur)
      case Err(e) =>
      case Ok(name) =>
        match WithName(file, name)
        case Err(e) =>
        case Ok(next) => FoldAppend(file, c1[1..], c2, next);
    }
  }

  /** A rename is staged exactly when the chain ends on another name; it renames the file itself and
      keeps its parent directory. */
  lemma CommandIff(chain: seq<Formatter>, file: Path)
    requires ValidName(file.name)
    ensures Fold(file, chain, file).Ok? <==> Command(chain, file).Ok?
    ensures Fold(file, chain, file).Ok? ==>
              (Command(chain, file).value.None? <==> Fold(file, chain, file).value.name == file.name)
    ensures Fold(file, chain, file).Ok? && Command(chain, file).value.Some? ==>
              Command(chain, file).value.value == CmdRenameFile(file, Fold(file, chain, file).value)
    ensures Fold(file, chain, file).Err? ==> Command(chain, file) == Err(Fold(file, chain, file).error)
  {
  }

  /** A chain of the title-case formatter alone stages nothing for a name it already produced. */
  lemma TitleCaseChainSettles(p: Path)
    requires TitleCase.Alnums(Stem(p.name)) != []
    requires TitleCase.NewSuffix(p.name) != "."
    requires ValidName(TitleCase.Format(p))
    ensures Command([TitleCaseSanitizer], Path(p.dir, TitleCase.Format(p))) == Ok(None)
  {
    var q := Path(p.dir, TitleCase.Format(p));
    TitleCase.FormatIdempotent(p);
    assert [TitleCaseSanitizer][1..] == [];
    assert Fold(q, [TitleCaseSanitizer], q) == Ok(q);
  }

  /** A name with no letter, digit or dot formats to "", which `with_name` refuses: the getter raises
      instead of staging a rename. */
  lemma SymbolNameRaises(dir: string, name: string)
    requires ValidName(name) && '.' !in name
    requires forall i :: 0 <= i < |name| ==> !IsAlnum(name[i])
    ensures Command([TitleCaseSanitizer], Path(dir, name)) == Err(InvalidName(""))
  {
    TitleCase.FormatSymbolsOnly(dir, name);
  }
}
