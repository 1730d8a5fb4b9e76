/** RegexReplaceFileNameFormatter (src/files.py): rename a file after the first pattern that matches
    its name, bumping a counter in the new name until it names no existing file. */
module RegexReplace {
  import opened Types
  import opened Strings
  import opened Paths
  import opened TitleCase

  /** One entry of the pattern dictionary: whether `pattern.search(name)` finds a match, and what
      `pattern.sub(template, name)` returns. The regex engine itself is not modelled. */
  datatype Pattern = Pattern(search: string -> bool, sub: string -> string)

  /** `str.format(count=n)` applied to a template, left abstract; None when it raises (a template
      that names another field, a bad format spec). */
  type Formatting = (string, nat) -> Option<string>

  /** The position of the first pattern, in insertion order, that matches `name`; `|patterns|` when
      none does. */
  function FirstMatch(patterns: seq<Pattern>, name: string): (i: nat)
    ensures i <= |patterns|
    ensures i < |patterns| ==> patterns[i].search(name)
    ensures forall k :: 0 <= k < i ==> !patterns[k].search(name)
  {
    if patterns == [] then 0
    else if patterns[0].search(name) then 0
    else 1 + FirstMatch(patterns[1..], name)
  }

  /** The `next(...)` over the patterns: the substitution made by the first matching pattern, or None. */
  function NewTemplate(patterns: seq<Pattern>, name: string): (r: Option<string>)
    ensures r.None? <==> forall k :: 0 <= k < |patterns| ==> !patterns[k].search(name)
    ensures r.Some? ==> FirstMatch(patterns, name) < |patterns|
                        && r.value == patterns[FirstMatch(patterns, name)].sub(name)
  {
    var i := FirstMatch(patterns, name);
    if i < |patterns| then Some(patterns[i].sub(name)) else None
  }

  /** `bump_file_name` for the counter value `count`: the formatted template, followed by the file's
      lowercased, stripped suffix unless it already ends with it. */
  function BumpName(file: Path, template: string, format: Formatting, count: nat): (r: Result<Path>)
    ensures format(template, count).None? ==> r == Err(FormatFailed(template))
    ensures format(template, count).Some? ==> r == WithName(file, BumpedName(file.name, format(template, count).value))
    ensures r.Err? ==> r.error == FormatFailed(template) || r.error.InvalidName?
    ensures r.Ok? ==> r.value.dir == file.dir
  {
    match format(template, count)
    case None => Err(FormatFailed(template))
    case Some(stem) => WithName(file, BumpedName(file.name, stem))
  }

  /** The name `bump_file_name` builds from a formatted template: it always ends with the normalised
      suffix, and removing that suffix again gives back the formatted template unless the template
      already ended with it. */
  function BumpedName(name: string, stem: string): (r: string)
    ensures EndsWith(r, NewSuffix(name))
    ensures r == stem || r[..|r| - |NewSuffix(name)|] == stem
    ensures EndsWith(stem, NewSuffix(name)) <==> r == stem
  {
    var suffix := NewSuffix(name);
    if EndsWith(stem, suffix) then stem
    else
      assert (stem + suffix)[..|stem|] == stem;
      stem + suffix
  }

  /** Where the counter search stops. */
  datatype Found = Found(path: Path, count: nat)

  /** `bump_file_name` as a function of the counter value. */
  function Bumps(file: Path, template: string, format: Formatting): (bump: nat -> Result<Path>)
    ensures forall count: nat :: bump(count) == BumpName(file, template, format, count)
  {
    (count: nat) => BumpName(file, template, format, count)
  }

  /** The `while file_new.exists()` search from counter `count`, with `fuel` more bumps allowed;
      `bump` gives the path tried for each counter value. */
  function SearchFrom(bump: nat -> Result<Path>, existing: set<Path>, template: string,
                      count: nat, fuel: nat): (r: Result<Found>)
    ensures r.Ok? ==> count <= r.value.count <= count + fuel
    decreases fuel
  {
    var b := bump(count);
    if b.Err? then Err(b.error)
    else if b.value !in existing then Ok(Found(b.value, count))
    else if fuel == 0 then Err(SearchExhausted(template))
    else SearchFrom(bump, existing, template, count + 1, fuel - 1)
  }

  /** Counter value `j` bumps to a path that exists. */
  predicate Taken(bump: nat -> Result<Path>, existing: set<Path>, j: nat) {
    bump(j).Ok? && bump(j).value in existing
  }

  /** A taken counter moves the search on to the next one while tries remain. */
  lemma SearchMovesOn(bump: nat -> Result<Path>, existing: set<Path>, template: string, count: nat, fuel: nat)
    requires Taken(bump, existing, count) && fuel > 0
    ensures SearchFrom(bump, existing, template, count, fuel)
            == SearchFrom(bump, existing, template, count + 1, fuel - 1)
  {
  }

  /** A taken counter with no try left ends the search. */
  lemma SearchGivesUp(bump: nat -> Result<Path>, existing: set<Path>, template: string, count: nat)
    requires Taken(bump, existing, count)
    ensures SearchFrom(bump, existing, template, count, 0) == Err(SearchExhausted(template))
  {
  }

  /** A counter that is not taken ends the search with its path, or with the error bumping raised. */
  lemma SearchStops(bump: nat -> Result<Path>, existing: set<Path>, template: string, count: nat, fuel: nat)
    requires !Taken(bump, existing, count)
    ensures SearchFrom(bump, existing, template, count, fuel)
            == if bump(count).Err? then Err(bump(count).error) else Ok(Found(bump(count).value, count))
  {
  }

  /** A successful search stops at the first counter value whose path is free. */
  lemma {:induction false} SearchFound(bump: nat -> Result<Path>, existing: set<Path>, template: string,
                                       count: nat, fuel: nat)
    requires SearchFrom(bump, existing, template, count, fuel).Ok?
    ensures var found := SearchFrom(bump, existing, template, count, fuel).value;
            && bump(found.count) == Ok(found.path)
            && found.path !in existing
            && forall j :: count <= j < found.count ==> Taken(bump, existing, j)
    decreases fuel
  {
    if Taken(bump, existing, count) {
      if fuel == 0 {
        SearchGivesUp(bump, existing, template, count);
      }
      SearchMovesOn(bump, existing, template, count, fuel);
      var count', fuel' := count + 1, fuel - 1;
      assert SearchFrom(bump, existing, template, count, fuel) == SearchFrom(bump, existing, template, count', fuel');
      SearchFound(bump, existing, template, count', fuel');
    } else {
      SearchStops(bump, existing, template, count, fuel);
    }
    var found := SearchFrom(bump, existing, template, count, fuel).value;
    forall j | count <= j < found.count ensures Taken(bump, existing, j) {
      TakenBeforeFound(bump, existing, template, count, fuel, j);
    }
  }

  /** The search moved past counter `j` only because its path was taken. */
  lemma {:induction false} TakenBeforeFound(bump: nat -> Result<Path>, existing: set<Path>, template: string,
                                            count: nat, fuel: nat, j: nat)
    requires SearchFrom(bump, existing, template, count, fuel).Ok?
    requires count <= j < SearchFrom(bump, existing, template, count, fuel).value.count
    ensures Taken(bump, existing, j)
    decreases fuel
  {
    if !Taken(bump, existing, count) {
      SearchStops(bump, existing, template, count, fuel);
    } else if j > count {
      if fuel == 0 {
        SearchGivesUp(bump, existing, template, count);
      }
      SearchMovesOn(bump, existing, template, count, fuel);
      var count', fuel' := count + 1, fuel - 1;
      assert SearchFrom(bump, existing, template, count, fuel) == SearchFrom(bump, existing, template, count', fuel');
      TakenBeforeFound(bump, existing, template, count', fuel', j);
    }
  }

  /** A search that runs out of tries, over bumps that never report exhaustion themselves, found every
      one of its tries taken. */
  lemma SearchExhaustedTaken(bump: nat -> Result<Path>, existing: set<Path>, template: string, count: nat, fuel: nat)
    requires forall j: nat :: bump(j) != Err(SearchExhausted(template))
    requires SearchFrom(bump, existing, template, count, fuel) == Err(SearchExhausted(template))
    ensures forall j :: count <= j <= count + fuel ==> Taken(bump, existing, j)
  {
    forall j | count <= j <= count + fuel ensures Taken(bump, existing, j) {
      TakenBeforeExhausted(bump, existing, template, count, fuel, j);
    }
  }

  /** An exhausted search found counter `j` taken. */
  lemma {:induction false} TakenBeforeExhausted(bump: nat -> Result<Path>, existing: set<Path>, template: string,
                                                count: nat, fuel: nat, j: nat)
    requires forall j: nat :: bump(j) != Err(SearchExhausted(template))
    requires SearchFrom(bump, existing, template, count, fuel) == Err(SearchExhausted(template))
    requires count <= j <= count + fuel
    ensures Taken(bump, existing, j)
    decreases fuel
  {
    assert bump(count) != Err(SearchExhausted(template));
    if !Taken(bump, existing, count) {
      SearchStops(bump, existing, template, count, fuel);
    } else if j > count {
      SearchMovesOn(bump, existing, template, count, fuel);
      var count', fuel' := count + 1, fuel - 1;
      assert SearchFrom(bump, existing, template, count, fuel) == SearchFrom(bump, existing, template, count', fuel');
      TakenBeforeExhausted(bump, existing, template, count', fuel', j);
    }
  }

  /** The counter search from 1, allowed one more try than there are existing files. */
  function Search(file: Path, template: string, format: Formatting, existing: set<Path>): Result<Found> {
    SearchFrom(Bumps(file, template, format), existing, template, 1, |existing|)
  }

  /** `RegexReplaceFileNameFormatter.__call__`: the new name, or the old one when no pattern matches
      or the substitution is empty. */
  function Rename(patterns: seq<Pattern>, format: Formatting, existing: set<Path>, file: Path): (r: Result<string>)
    ensures (forall k :: 0 <= k < |patterns| ==> !patterns[k].search(file.name)) ==> r == Ok(file.name)
    ensures NewTemplate(patterns, file.name) == Some("") ==> r == Ok(file.name)
  {
    match NewTemplate(patterns, file.name)
    case None => Ok(file.name)
    case Some(template) =>
      if template == "" then Ok(file.name)
      else match Search(file, template, format, existing)
        case Ok(found) => Ok(found.path.name)
        case Err(e) => Err(e)
  }

  /** The `while file_new.exists()` loop: bump the counter while the produced path exists. `bump`
      is the `bump_file_name` closure, as a function of the counter value. */
  method BumpWhileExists(bump: nat -> Result<Path>, existing: set<Path>, template: string)
    returns (r: Result<Found>)
    ensures r == SearchFrom(bump, existing, template, 1, |existing|)
  {
    var counter := 1;
    ghost var fuel: nat := |existing|;
    var bumped := bump(counter);
    if bumped.Err? {
      SearchStops(bump, existing, template, counter, fuel);
      return Err(bumped.error);
    }
    var fileNew := bumped.value;
    while fileNew in existing
      invariant counter >= 1 && counter + fuel == |existing| + 1
      invariant bump(counter) == Ok(fileNew)
      invariant SearchFrom(bump, existing, template, 1, |existing|) == SearchFrom(bump, existing, template, counter, fuel)
      decreases fuel
    {
      if counter == |existing| + 1 {
        SearchGivesUp(bump, existing, template, counter);
        return Err(SearchExhausted(template));
      }
      SearchMovesOn(bump, existing, template, counter, fuel);
      counter, fuel := counter + 1, fuel - 1;
      bumped := bump(counter);
      if bumped.Err? {
        SearchStops(bump, existing, template, counter, fuel);
        return Err(bumped.error);
      }
      fileNew := bumped.value;
    }
    SearchStops(bump, existing, template, counter, fuel);
    return Ok(Found(fileNew, counter));
  }

  /** The scan over the patterns in insertion order, stopping at the first one that matches. */
  method FindFirst(patterns: seq<Pattern>, name: string) returns (i: nat)
    ensures i == FirstMatch(patterns, name)
  {
    i := 0;
    while i < |patterns| && !patterns[i].search(name)
      invariant i <= |patterns|
      invariant forall k :: 0 <= k < i ==> !patterns[k].search(name)
    {
      i := i + 1;
    }
  }

  /** The formatter as the source runs it: a scan for the first matching pattern, then the counter
      search. */
  method Call(patterns: seq<Pattern>, format: Formatting, existing: set<Path>, file: Path) returns (r: Result<string>)
    ensures r == Rename(patterns, format, existing, file)
  {
    var i := FindFirst(patterns, file.name);
    if i == |patterns| {
      return Ok(file.name);
    }
    var template := patterns[i].sub(file.name);
    assert NewTemplate(patterns, file.name) == Some(template);
    if template == "" {
      return Ok(file.name);
    }
    var found := BumpWhileExists(Bumps(file, template, format), existing, template);
    if found.Err? {
      return Err(found.error);
    }
    return Ok(found.value.path.name);
  }

  /** The name the formatter picks comes from the first matching pattern, names no existing file, and
      every smaller counter value produced an existing one. */
  lemma RenamedIsFree(patterns: seq<Pattern>, format: Formatting, existing: set<Path>, file: Path)
    requires NewTemplate(patterns, file.name).Some? && NewTemplate(patterns, file.name).value != ""
    requires Rename(patterns, format, existing, file).Ok?
    ensures var i := FirstMatch(patterns, file.name);
            var template := patterns[i].sub(file.name);
            var found := Search(file, template, format, existing).value;
            && i < |patterns|
            && Rename(patterns, format, existing, file).value == found.path.name
            && Path(file.dir, found.path.name) !in existing
            && 1 <= found.count <= |existing| + 1
            && BumpName(file, template, format, found.count) == Ok(found.path)
            && forall j :: 1 <= j < found.count ==> Taken(Bumps(file, template, format), existing, j)
  {
    var i := FirstMatch(patterns, file.name);
    var template := patterns[i].sub(file.name);
    assert NewTemplate(patterns, file.name) == Some(template);
    var found := Search(file, template, format, existing).value;
    SearchFound(Bumps(file, template, format), existing, template, 1, |existing|);
    assert found.path.dir == file.dir;
    assert Path(file.dir, found.path.name) == found.path;
  }

  /** A function that takes no value twice on `1..n` and lands in `s` there needs `n` elements of
      `s`. */
  lemma {:induction false} Pigeonhole(f: nat -> Path, n: nat, s: set<Path>)
    requires forall m, k :: 1 <= m < k <= n ==> f(m) != f(k)
    requires forall j :: 1 <= j <= n ==> f(j) in s
    ensures n <= |s|
  {
    if n > 0 {
      var rest := s - {f(n)};
      forall j | 1 <= j <= n - 1 ensures f(j) in rest {
        assert f(j) != f(n);
      }
      Pigeonhole(f, n - 1, rest);
    }
  }

  /** The bound on the search never shows when every counter value up to one past the number of
      existing files bumps to a different outcome: some counter then names a free file. */
  lemma NeverExhausted(file: Path, template: string, format: Formatting, existing: set<Path>)
    requires forall m, k :: 1 <= m < k <= |existing| + 1 ==>
               BumpName(file, template, format, m) != BumpName(file, template, format, k)
    ensures Search(file, template, format, existing) != Err(SearchExhausted(template))
  {
    var bump := Bumps(file, template, format);
    if Search(file, template, format, existing) == Err(SearchExhausted(template)) {
      forall j: nat ensures bump(j) != Err(SearchExhausted(template)) {
        assert bump(j) == BumpName(file, template, format, j);
      }
      SearchExhaustedTaken(bump, existing, template, 1, |existing|);
      var n := |existing| + 1;
      var f := (j: nat) => if bump(j).Ok? then bump(j).value else file;
      forall m, k | 1 <= m < k <= n ensures f(m) != f(k) {
        assert Taken(bump, existing, m) && Taken(bump, existing, k);
      }
      forall j | 1 <= j <= n ensures f(j) in existing {
        assert Taken(bump, existing, j);
      }
      Pigeonhole(f, n, existing);
      assert false;
    }
  }
}
