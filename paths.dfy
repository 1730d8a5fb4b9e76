/** The part of `pathlib.PurePath` the pipeline uses: name, suffix, stem and `with_name`. */
module Paths {
  import opened Types
  import opened Strings

  /** A file path: the text of its parent directory ("" when it has none) and its last component. */
  datatype Path = Path(dir: string, name: string)

  /** `os.path.join(dir, name)`: a name starting with "/" replaces the directory. */
  function OsJoin(dir: string, name: string): string {
    if name != "" && name[0] == '/' then name
    else if dir == "" || EndsWith(dir, "/") then dir + name
    else dir + "/" + name
  }

  /** `str.find(c)`, with `|s|` instead of -1 when `c` does not occur. */
  function Find(s: string, c: char): (i: nat)
    ensures i <= |s| && (i < |s| ==> s[i] == c)
    ensures forall k :: 0 <= k < i ==> s[k] != c
  {
    if s == [] || s[0] == c then 0 else 1 + Find(s[1..], c)
  }

  /** A component pathlib keeps: not empty, not ".", no separator. */
  predicate CleanPart(t: string) {
    t != "" && t != "." && '/' !in t
  }

  /** The components of a POSIX path text as pathlib parses them: split on "/", the empty and "."
      components dropped ("a//b" and "a/./b" are "a/b"; ".." is kept). */
  function Parts(s: string): (r: seq<string>)
    ensures forall k :: 0 <= k < |r| ==> CleanPart(r[k])
    decreases |s|
  {
    if s == [] then []
    else
      var i := Find(s, '/');
      var head := s[..i];
      (if head == "" || head == "." then [] else [head]) + (if i < |s| then Parts(s[i + 1..]) else [])
  }

  /** The root pathlib keeps: exactly two leading slashes stay "//", one or three and more are "/". */
  function Anchor(s: string): (r: string)
    ensures r == "" || r == "/" || r == "//"
  {
    if |s| >= 2 && s[0] == '/' && s[1] == '/' && (|s| == 2 || s[2] != '/') then "//"
    else if s != [] && s[0] == '/' then "/"
    else ""
  }

  /** Components joined by "/". */
  function JoinParts(ps: seq<string>): string {
    if ps == [] then "" else if |ps| == 1 then ps[0] else ps[0] + "/" + JoinParts(ps[1..])
  }

  /** `str(pathlib.Path(s))`: the root, then the kept components; "." when there is neither. */
  function PathStr(s: string): string {
    var a, ps := Anchor(s), Parts(s);
    if a == "" && ps == [] then "." else a + JoinParts(ps)
  }

  /** `str(path)`, for the path `os.path.join(dir, name)`. */
  function PathText(p: Path): string {
    PathStr(OsJoin(p.dir, p.name))
  }

  /** The names `with_name` accepts (POSIX flavour). */
  predicate ValidName(n: string) {
    n != "" && '/' !in n && n != "."
  }

  /** `PurePath.with_name`: the same parent with a new last component, or ValueError. */
  function WithName(p: Path, n: string): (r: Result<Path>)
    ensures r.Ok? <==> ValidName(n)
    ensures r.Ok? ==> r.value.dir == p.dir && r.value.name == n
    ensures r.Err? ==> r.error == InvalidName(n)
  {
    if ValidName(n) then Ok(Path(p.dir, n)) else Err(InvalidName(n))
  }

  /** `str.rfind(c)`: the last index of `c` in `s`, or -1 when there is none. */
  function RFind(s: string, c: char): (i: int)
    ensures -1 <= i < |s|
    ensures 0 <= i ==> s[i] == c
    ensures forall k :: i < k < |s| ==> s[k] != c
  {
    if s == [] then -1
    else if s[|s| - 1] == c then |s| - 1
    else RFind(s[..|s| - 1], c)
  }

  /** A name has a suffix when its last dot is neither its first nor its last character. */
  predicate HasSuffix(name: string) {
    0 < RFind(name, '.') < |name| - 1
  }

  /** `PurePath.suffix`: from the last dot on, or "". */
  function Suffix(name: string): string {
    if HasSuffix(name) then name[RFind(name, '.')..] else ""
  }

  /** `PurePath.stem`: the name without its suffix. */
  function Stem(name: string): string {
    if HasSuffix(name) then name[..RFind(name, '.')] else name
  }

  /** Stem and suffix split the name; a suffix is a dot, then at least one character, no other dot. */
  lemma StemSuffixSplit(name: string)
    ensures Stem(name) + Suffix(name) == name
    ensures Suffix(name) != "" ==>
      |Suffix(name)| >= 2 && Suffix(name)[0] == '.' && '.' !in Suffix(name)[1..] && Stem(name) != ""
  {
    if HasSuffix(name) {
      var s := Suffix(name);
      forall k | 1 <= k < |s| ensures s[k] != '.' {
        assert s[k] == name[RFind(name, '.') + k];
      }
    }
  }

  /** A name without dots has no suffix. */
  lemma NoDotNoSuffix(t: string)
    requires '.' !in t
    ensures Suffix(t) == "" && Stem(t) == t
  {
  }

  /** A non-empty stem followed by a suffix-shaped tail splits back into the two. */
  lemma {:induction false} SplitAgain(t: string, x: string)
    requires t != ""
    requires |x| >= 2 && x[0] == '.' && '.' !in x[1..]
    ensures RFind(t + x, '.') == |t|
    ensures Suffix(t + x) == x && Stem(t + x) == t
  {
    var n := t + x;
    assert n[|t|] == '.';
    forall k | |t| < k < |n| ensures n[k] != '.' {
      assert n[k] == x[1..][k - |t| - 1];
    }
  }

  /** Clean components joined by "/" parse back into the same components. */
  lemma {:induction false} PartsJoin(ps: seq<string>)
    requires forall k :: 0 <= k < |ps| ==> CleanPart(ps[k])
    ensures Parts(JoinParts(ps)) == ps
    ensures ps != [] ==> JoinParts(ps) != [] && JoinParts(ps)[0] != '/'
    decreases |ps|
  {
    if |ps| == 1 {
      PartsOne(ps[0]);
    } else if ps != [] {
      var h, rest := ps[0], JoinParts(ps[1..]);
      assert JoinParts(ps) == h + "/" + rest;
      PartsJoin(ps[1..]);
      PartsCons(h, rest);
    }
  }

  /** A clean component alone is one component. */
  lemma PartsOne(t: string)
    requires CleanPart(t)
    ensures Parts(t) == [t]
  {
    assert Find(t, '/') == |t|;
    assert t[..|t|] == t;
  }

  /** The first slash of `h + "/" + rest` when `h` has none is the one after `h`. */
  lemma FindAfter(h: string, rest: string)
    requires '/' !in h
    ensures Find(h + "/" + rest, '/') == |h|
  {
    var s := h + "/" + rest;
    assert s[|h|] == '/';
    forall k | 0 <= k < |h| ensures s[k] != '/' {
      assert s[k] == h[k];
    }
  }

  /** A component followed by a slash is kept, then parsing goes on after the slash. */
  lemma PartsCons(h: string, rest: string)
    requires '/' !in h
    ensures Parts(h + "/" + rest) == (if h == "" || h == "." then [] else [h]) + Parts(rest)
  {
    var s := h + "/" + rest;
    FindAfter(h, rest);
    assert s[..|h|] == h;
    assert s[|h| + 1..] == rest;
  }

  /** A leading slash adds no component. */
  lemma PartsSlash(s: string)
    ensures Parts("/" + s) == Parts(s)
  {
    var t := "/" + s;
    assert Find(t, '/') == 0;
    assert t[..0] == "" && t[1..] == s;
  }

  /** `str(Path(str(p))) == str(p)`: the text pathlib prints is already in its normal form. */
  lemma PathStrIdempotent(s: string)
    ensures PathStr(PathStr(s)) == PathStr(s)
  {
    var a, ps := Anchor(s), Parts(s);
    if a == "" && ps == [] {
      assert Find(".", '/') == 1;
      assert "."[..1] == ".";
    } else {
      AnchoredParts(a, ps);
      assert PathStr(s) == a + JoinParts(ps);
    }
  }

  /** A root followed by clean components parses back into that root and those components. */
  lemma AnchoredParts(a: string, ps: seq<string>)
    requires a == "" || a == "/" || a == "//"
    requires forall k :: 0 <= k < |ps| ==> CleanPart(ps[k])
    ensures Anchor(a + JoinParts(ps)) == a && Parts(a + JoinParts(ps)) == ps
  {
    var j := JoinParts(ps);
    PartsJoin(ps);
    if a == "" {
      assert a + j == j;
    } else if a == "/" {
      PartsSlash(j);
      assert j != [] ==> ("/" + j)[1] == j[0];
    } else {
      DoubleSlashParts(j);
    }
  }

  lemma DoubleSlashParts(j: string)
    requires j == [] || j[0] != '/'
    ensures Anchor("//" + j) == "//" && Parts("//" + j) == Parts(j)
  {
    PartsSlash(j);
    PartsSlash("/" + j);
    assert "//" + j == "/" + ("/" + j);
    assert j != [] ==> ("//" + j)[2] == j[0];
  }

  /** A file in "." prints as its bare name. */
  lemma PathTextCurrentDir(name: string)
    requires CleanPart(name)
    ensures PathText(Path(".", name)) == name
  {
    PartsJoin([name]);
    PartsCons(".", name);
    assert OsJoin(".", name) == "." + "/" + name;
  }

  /** A doubled slash after a directory prints as one. */
  lemma PathTextDoubledSlash(dir: string, name: string)
    requires CleanPart(dir) && CleanPart(name)
    ensures PathText(Path(dir + "//", name)) == dir + "/" + name
  {
    var s := dir + "/" + ("/" + name);
    DoubledSlashJoin(dir, name);
    DoubledSlashParts(dir, name);
    assert Anchor(s) == "" by {
      assert s[0] == dir[0];
    }
    assert JoinParts([dir, name]) == dir + "/" + name;
  }

  lemma DoubledSlashJoin(dir: string, name: string)
    requires CleanPart(name)
    ensures OsJoin(dir + "//", name) == dir + "/" + ("/" + name)
  {
    assert EndsWith(dir + "//", "/");
  }

  lemma DoubledSlashParts(dir: string, name: string)
    requires CleanPart(dir) && CleanPart(name)
    ensures Parts(dir + "/" + ("/" + name)) == [dir, name]
  {
    PartsJoin([name]);
    PartsSlash(name);
    PartsCons(dir, "/" + name);
  }
}
