/** TitleCaseSanitizerFormatter (src/files.py): sanitise the stem into title-cased words and
    normalise the suffix. */
module TitleCase {
  import opened Strings
  import opened Paths

  predicate NotAlnum(c: char) { !IsAlnum(c) }

  /** The letters and digits of `s`, in order. */
  function Alnums(s: string): (r: string)
    ensures |r| <= |s|
  {
    if s == [] then [] else (if IsAlnum(s[0]) then [s[0]] else []) + Alnums(s[1..])
  }

  /** What a name's stem carries through the formatter: its letters and digits, case ignored. */
  function Key(s: string): string {
    Lower(Alnums(s))
  }

  /** Only letters, digits and spaces, and never two spaces in a row. */
  ghost predicate SingleSpaced(t: string) {
    (forall i :: 0 <= i < |t| ==> IsAlnum(t[i]) || t[i] == ' ')
    && (forall i, j :: 0 <= i < j < |t| && j == i + 1 ==> !(t[i] == ' ' && t[j] == ' '))
  }

  /** Single-spaced words with no space at either end. */
  ghost predicate CleanStem(t: string) {
    SingleSpaced(t) && (t == [] || (t[0] != ' ' && t[|t| - 1] != ' '))
  }

  /** Python's title case on ASCII: a letter is upper case exactly when no letter precedes it. */
  ghost predicate TitleShaped(t: string) {
    (t != [] && IsLetter(t[0]) ==> IsUpper(t[0]))
    && (forall i, j :: 0 <= i < j < |t| && j == i + 1 && IsLetter(t[j]) ==> (IsUpper(t[j]) <==> !IsLetter(t[i])))
  }

  lemma {:induction false} AlnumsAppend(a: string, b: string)
    ensures Alnums(a + b) == Alnums(a) + Alnums(b)
  {
    if a != [] {
      var h := if IsAlnum(a[0]) then [a[0]] else [];
      assert (a + b)[0] == a[0];
      assert (a + b)[1..] == a[1..] + b;
      AlnumsAppend(a[1..], b);
      calc {
        Alnums(a + b);
        h + Alnums(a[1..] + b);
        h + (Alnums(a[1..]) + Alnums(b));
        (h + Alnums(a[1..])) + Alnums(b);
      }
    } else {
      assert a + b == b;
    }
  }

  lemma {:induction false} AlnumsNone(a: string)
    requires forall i :: 0 <= i < |a| ==> !IsAlnum(a[i])
    ensures Alnums(a) == []
  {
    if a != [] {
      AlnumsNone(a[1..]);
    }
  }

  /** Dropping a leading run of non-alphanumerics keeps the letters and digits. */
  lemma NonAlnumPrefix(s: string, rest: string)
    requires rest == TrimLeft(s, NotAlnum)
    ensures Alnums(rest) == Alnums(s)
  {
    var k := |s| - |rest|;
    assert s == s[..k] + rest;
    AlnumsAppend(s[..k], rest);
    AlnumsNone(s[..k]);
  }

  /** `re.sub("[^0-9a-zA-Z]+", " ", s)`: every maximal run of other characters becomes one space. */
  function CollapseRuns(s: string): (r: string)
    ensures SingleSpaced(r)
    ensures Alnums(r) == Alnums(s)
    ensures r == [] <==> s == []
    ensures r != [] ==> (r[0] == ' ' <==> !IsAlnum(s[0]))
    decreases |s|
  {
    if s == [] then []
    else if IsAlnum(s[0]) then
      var tail := CollapseRuns(s[1..]);
      ConsSingleSpaced(s[0], tail);
      [s[0]] + tail
    else
      var rest := TrimLeft(s[1..], NotAlnum);
      NonAlnumPrefix(s[1..], rest);
      var tail := CollapseRuns(rest);
      ConsSingleSpaced(' ', tail);
      [' '] + tail
  }

  /** Each character outside `[0-9a-zA-Z]` replaced by a space. */
  function Mask(s: string): (r: string)
    ensures |r| == |s|
    ensures forall i :: 0 <= i < |s| ==> r[i] == (if IsAlnum(s[i]) then s[i] else ' ')
  {
    seq(|s|, i requires 0 <= i < |s| => if IsAlnum(s[i]) then s[i] else ' ')
  }

  /** Every run of spaces shortened to one space. */
  function Squash(t: string): string {
    if t == [] then []
    else if |t| >= 2 && t[0] == ' ' && t[1] == ' ' then Squash(t[1..])
    else [t[0]] + Squash(t[1..])
  }

  /** The substitution puts one space exactly where each maximal run of other characters was: it is
      masking those characters to spaces and then squashing the runs of spaces. */
  lemma {:induction false} CollapseRunsIsSquash(s: string)
    ensures CollapseRuns(s) == Squash(Mask(s))
    decreases |s|
  {
    if s != [] {
      var m := Mask(s);
      assert m[1..] == Mask(s[1..]);
      CollapseRunsIsSquash(s[1..]);
      if !IsAlnum(s[0]) && |s| >= 2 && !IsAlnum(s[1]) {
        assert s[1..][1..] == s[2..];
        assert TrimLeft(s[1..], NotAlnum) == TrimLeft(s[2..], NotAlnum);
        assert CollapseRuns(s[1..]) == [' '] + CollapseRuns(TrimLeft(s[2..], NotAlnum));
      } else if !IsAlnum(s[0]) {
        assert TrimLeft(s[1..], NotAlnum) == s[1..];
      }
    }
  }

  /** One more letter, digit or space in front of a single-spaced string, not doubling a space. */
  lemma ConsSingleSpaced(c: char, t: string)
    requires SingleSpaced(t)
    requires IsAlnum(c) || c == ' '
    requires c == ' ' && t != [] ==> t[0] != ' '
    ensures SingleSpaced([c] + t)
    ensures ([c] + t)[0] == c && ([c] + t)[1..] == t
  {
    var r := [c] + t;
    assert r[1..] == t;
    forall i, j | 0 <= i < j < |r| && j == i + 1 ensures !(r[i] == ' ' && r[j] == ' ') {
      if i > 0 {
        assert r[i] == t[i - 1] && r[j] == t[j - 1];
      }
    }
  }

  /** Python's `str.title()`, the previous character's casedness carried in `afterLetter`. */
  function TitleFrom(s: string, afterLetter: bool): (r: string)
    ensures |r| == |s|
    ensures forall i :: 0 <= i < |s| ==>
      r[i] == (if (if i == 0 then afterLetter else IsLetter(s[i - 1])) then ToLower(s[i]) else ToUpper(s[i]))
  {
    if s == [] then []
    else [if afterLetter then ToLower(s[0]) else ToUpper(s[0])] + TitleFrom(s[1..], IsLetter(s[0]))
  }

  /** `str.title()` on ASCII. */
  function Title(s: string): (r: string)
    ensures |r| == |s|
    ensures forall i :: 0 <= i < |s| ==>
      r[i] == (if i > 0 && IsLetter(s[i - 1]) then ToLower(s[i]) else ToUpper(s[i]))
  {
    TitleFrom(s, false)
  }

  /** The formatted stem: runs collapsed, stripped, title-cased. */
  function NewStem(name: string): string {
    Title(Strip(CollapseRuns(Stem(name))))
  }

  /** The formatted suffix: lowercased and stripped, "" when the name has none. */
  function NewSuffix(name: string): string {
    if Suffix(name) != "" then Strip(Lower(Suffix(name))) else ""
  }

  /** `TitleCaseSanitizerFormatter.__call__`. */
  function Format(p: Path): string {
    NewStem(p.name) + NewSuffix(p.name)
  }

  // Facts about the pieces.

  /** What a case change keeps of a character. */
  lemma CaseFacts(c: char)
    ensures IsLetter(ToUpper(c)) == IsLetter(c) && IsLetter(ToLower(c)) == IsLetter(c)
    ensures IsAlnum(ToUpper(c)) == IsAlnum(c) && IsAlnum(ToLower(c)) == IsAlnum(c)
    ensures (ToUpper(c) == ' ') == (c == ' ') && (ToLower(c) == ' ') == (c == ' ')
    ensures (ToUpper(c) == '.') == (c == '.') && (ToLower(c) == '.') == (c == '.')
    ensures ToUpper(ToUpper(c)) == ToUpper(c) && ToLower(ToLower(c)) == ToLower(c)
    ensures ToUpper(ToLower(c)) == ToUpper(c) && ToLower(ToUpper(c)) == ToLower(c)
  {
  }

  /** A slice of a single-spaced string is single-spaced. */
  lemma SingleSpacedSlice(t: string, i: nat, j: nat)
    requires SingleSpaced(t) && i <= j <= |t|
    ensures SingleSpaced(t[i..j])
  {
    var u := t[i..j];
    forall k, l | 0 <= k < l < |u| && l == k + 1 ensures !(u[k] == ' ' && u[l] == ' ') {
      assert u[k] == t[i + k] && u[l] == t[i + l];
    }
  }

  /** Stripping a single-spaced string leaves clean words. */
  lemma StripSingleSpaced(t: string)
    requires SingleSpaced(t)
    ensures CleanStem(Strip(t))
  {
    var r := Strip(t);
    var a, b := StripSplit(t);
    assert r == t[|a|..|a| + |r|];
    SingleSpacedSlice(t, |a|, |a| + |r|);
  }

  /** Stripping keeps the letters and digits. */
  lemma StripKeepsAlnums(t: string)
    ensures Alnums(Strip(t)) == Alnums(t)
  {
    var r := Strip(t);
    var a, b := StripSplit(t);
    forall k | 0 <= k < |a| ensures !IsAlnum(a[k]) {
      assert IsWhitespace(a[k]);
    }
    forall k | 0 <= k < |b| ensures !IsAlnum(b[k]) {
      assert IsWhitespace(b[k]);
    }
    AlnumsNone(a);
    AlnumsNone(b);
    AlnumsAppend(a + r, b);
    AlnumsAppend(a, r);
    calc {
      Alnums(t);
      Alnums((a + r) + b);
      Alnums(a) + Alnums(r) + Alnums(b);
      Alnums(r);
    }
  }

  /** Strings with alphanumerics in the same places and equal up to case have the same key. */
  lemma {:induction false} KeyOfSameShape(s: string, t: string)
    requires |s| == |t|
    requires forall i :: 0 <= i < |s| ==> (IsAlnum(s[i]) <==> IsAlnum(t[i])) && ToLower(s[i]) == ToLower(t[i])
    ensures Key(s) == Key(t)
  {
    if s != [] {
      var s', t' := s[1..], t[1..];
      forall i | 0 <= i < |s'| ensures (IsAlnum(s'[i]) <==> IsAlnum(t'[i])) && ToLower(s'[i]) == ToLower(t'[i]) {
        assert s'[i] == s[i + 1] && t'[i] == t[i + 1];
      }
      KeyOfSameShape(s', t');
      var hs := if IsAlnum(s[0]) then [s[0]] else [];
      var ht := if IsAlnum(t[0]) then [t[0]] else [];
      assert Lower(hs) == Lower(ht);
      LowerAppend(hs, Alnums(s'));
      LowerAppend(ht, Alnums(t'));
    }
  }

  lemma LowerAppend(a: string, b: string)
    ensures Lower(a + b) == Lower(a) + Lower(b)
  {
  }

  /** Title case keeps which positions hold letters, digits and spaces. */
  lemma TitleKeepsShape(s: string)
    ensures forall i :: 0 <= i < |s| ==> (IsLetter(Title(s)[i]) <==> IsLetter(s[i]))
    ensures forall i :: 0 <= i < |s| ==> (IsAlnum(Title(s)[i]) <==> IsAlnum(s[i]))
    ensures forall i :: 0 <= i < |s| ==> (Title(s)[i] == ' ' <==> s[i] == ' ')
    ensures forall i :: 0 <= i < |s| ==> ToLower(Title(s)[i]) == ToLower(s[i])
  {
    forall i | 0 <= i < |s| ensures (IsLetter(Title(s)[i]) <==> IsLetter(s[i]))
      && (IsAlnum(Title(s)[i]) <==> IsAlnum(s[i])) && (Title(s)[i] == ' ' <==> s[i] == ' ')
      && ToLower(Title(s)[i]) == ToLower(s[i])
    {
      var t := Title(s);
      assert t[i] == (if i > 0 && IsLetter(s[i - 1]) then ToLower(s[i]) else ToUpper(s[i]));
      CaseFacts(s[i]);
    }
  }

  lemma TitleKeepsKey(s: string)
    ensures Key(Title(s)) == Key(s)
  {
    TitleKeepsShape(s);
    KeyOfSameShape(s, Title(s));
  }

  /** Title case changes only the case of letters. */
  lemma LowerTitle(s: string)
    ensures Lower(Title(s)) == Lower(s)
  {
    var t := Title(s);
    forall i | 0 <= i < |s| ensures Lower(t)[i] == Lower(s)[i] {
      CaseFacts(s[i]);
      assert t[i] == (if i > 0 && IsLetter(s[i - 1]) then ToLower(s[i]) else ToUpper(s[i]));
    }
  }

  /** Title case is title-shaped and a fixed point of itself. */
  lemma TitleProperties(s: string)
    ensures TitleShaped(Title(s))
    ensures Title(Title(s)) == Title(s)
  {
    var t := Title(s);
    TitleKeepsShape(s);
    if s != [] {
      CaseFacts(s[0]);
    }
    forall i, j | 0 <= i < j < |t| && j == i + 1 && IsLetter(t[j]) ensures IsUpper(t[j]) <==> !IsLetter(t[i]) {
      assert t[j] == (if IsLetter(s[i]) then ToLower(s[j]) else ToUpper(s[j]));
      CaseFacts(s[j]);
    }
    forall i | 0 <= i < |s| ensures Title(t)[i] == t[i] {
      assert t[i] == (if i > 0 && IsLetter(s[i - 1]) then ToLower(s[i]) else ToUpper(s[i]));
      assert Title(t)[i] == (if i > 0 && IsLetter(t[i - 1]) then ToLower(t[i]) else ToUpper(t[i]));
      CaseFacts(s[i]);
    }
  }

  /** Collapsing runs changes nothing in a string that is already single-spaced. */
  lemma {:induction false} CollapseSingleSpaced(t: string)
    requires SingleSpaced(t)
    ensures CollapseRuns(t) == t
  {
    if t != [] {
      SingleSpacedSlice(t, 1, |t|);
      CollapseSingleSpaced(t[1..]);
      if !IsAlnum(t[0]) {
        assert t[1..] == [] || t[1] != ' ';
        assert TrimLeft(t[1..], NotAlnum) == t[1..];
      }
    }
  }

  /** Trimming a string whose ends are kept changes nothing. */
  lemma TrimKept(s: string, drop: char -> bool)
    requires s == [] || (!drop(s[0]) && !drop(s[|s| - 1]))
    ensures Trim(s, drop) == s
  {
  }

  /** Lowercasing keeps where the dots are and is idempotent. */
  lemma LowerFacts(s: string)
    ensures forall k :: 0 <= k < |s| ==> (Lower(s)[k] == '.' <==> s[k] == '.')
    ensures Lower(Lower(s)) == Lower(s)
  {
    forall k | 0 <= k < |s| ensures (Lower(s)[k] == '.' <==> s[k] == '.') && Lower(Lower(s))[k] == Lower(s)[k] {
      CaseFacts(s[k]);
    }
  }

  /** Lowercasing and stripping a suffix keeps its dot in front and adds no other dot. */
  lemma NewSuffixShape(name: string)
    requires Suffix(name) != ""
    ensures var x := NewSuffix(name);
      x != [] && x[0] == '.' && '.' !in x[1..] && Lower(x) == x && Strip(x) == x
  {
    StemSuffixSplit(name);
    var sfx := Suffix(name);
    var l := Lower(sfx);
    LowerFacts(sfx);
    assert l[0] == '.';
    StripKeepsFront(l);
    var x := Strip(l);
    assert x[0] == '.';
    forall k | 1 <= k < |x| ensures x[k] != '.' {
      assert x[k] == l[k];
      assert sfx[k] == sfx[1..][k - 1];
    }
    assert Lower(x) == Lower(l)[..|x|];
    TrimKept(x, IsWhitespace);
  }

  /** Title case keeps a string clean, and a clean string has no dot. */
  lemma TitleKeepsClean(s: string)
    requires CleanStem(s)
    ensures CleanStem(Title(s)) && '.' !in Title(s)
  {
    var t := Title(s);
    TitleKeepsShape(s);
    forall i | 0 <= i < |t| ensures IsAlnum(t[i]) || t[i] == ' ' {
      assert IsAlnum(s[i]) || s[i] == ' ';
    }
    forall i, j | 0 <= i < j < |t| && j == i + 1 ensures !(t[i] == ' ' && t[j] == ' ') {
      assert !(s[i] == ' ' && s[j] == ' ');
    }
  }

  /** The formatted stem is clean, title-shaped and dot-free. */
  lemma NewStemShape(name: string)
    ensures CleanStem(NewStem(name)) && TitleShaped(NewStem(name)) && '.' !in NewStem(name)
  {
    var collapsed := CollapseRuns(Stem(name));
    StripSingleSpaced(collapsed);
    TitleProperties(Strip(collapsed));
    TitleKeepsClean(Strip(collapsed));
  }

  /** The formatted stem keeps the stem's letters and digits, up to case. */
  lemma NewStemKey(name: string)
    ensures Key(NewStem(name)) == Key(Stem(name))
  {
    var collapsed := CollapseRuns(Stem(name));
    StripKeepsAlnums(collapsed);
    TitleKeepsKey(Strip(collapsed));
  }

  // What the formatter promises.

  /** The formatted name is a clean title-cased stem keeping the stem's letters and digits, followed by
      the original suffix lowercased and stripped (or nothing when there is no suffix). */
  lemma FormatParts(p: Path) returns (stem: string, suffix: string)
    ensures Format(p) == stem + suffix
    ensures CleanStem(stem) && TitleShaped(stem) && '.' !in stem
    ensures Key(stem) == Key(Stem(p.name))
    ensures Lower(stem) == Lower(Strip(Squash(Mask(Stem(p.name)))))
    ensures Suffix(p.name) == "" ==> suffix == ""
    ensures Suffix(p.name) != "" ==> suffix == Strip(Lower(Suffix(p.name)))
  {
    stem, suffix := NewStem(p.name), NewSuffix(p.name);
    NewStemShape(p.name);
    NewStemKey(p.name);
    CollapseRunsIsSquash(Stem(p.name));
    LowerTitle(Strip(CollapseRuns(Stem(p.name))));
  }

  /** Formatting a formatted stem again changes nothing. */
  lemma NewStemFixed(name: string)
    ensures Title(Strip(CollapseRuns(NewStem(name)))) == NewStem(name)
  {
    var t := NewStem(name);
    NewStemShape(name);
    TitleProperties(Strip(CollapseRuns(Stem(name))));
    CollapseSingleSpaced(t);
    if t != [] {
      assert IsAlnum(t[0]) && IsAlnum(t[|t| - 1]);
    }
    TrimKept(t, IsWhitespace);
    assert Strip(CollapseRuns(t)) == t;
  }

  lemma NewStemNoDot(name: string)
    ensures '.' !in NewStem(name)
  {
    NewStemShape(name);
  }

  /** A formatted name whose stem is non-empty splits back into that stem and suffix. */
  lemma ReparseFormatted(name: string)
    requires NewStem(name) != [] && NewSuffix(name) != "."
    ensures Stem(NewStem(name) + NewSuffix(name)) == NewStem(name)
    ensures NewSuffix(NewStem(name) + NewSuffix(name)) == NewSuffix(name)
  {
    var t, x := NewStem(name), NewSuffix(name);
    NewStemNoDot(name);
    if x == "" {
      assert t + x == t;
      NoDotNoSuffix(t);
    } else {
      ReparseSuffix(name, t, x);
    }
  }

  lemma ReparseSuffix(name: string, t: string, x: string)
    requires t != [] && x == NewSuffix(name) && x != "" && x != "."
    ensures Stem(t + x) == t && NewSuffix(t + x) == x
  {
    NewSuffixShape(name);
    SplitAgain(t, x);
  }

  /** Formatting twice is formatting once, provided the stem has a letter or digit and the suffix does
      not reduce to a bare dot. */
  lemma FormatIdempotent(p: Path)
    requires Alnums(Stem(p.name)) != []
    requires NewSuffix(p.name) != "."
    ensures Format(Path(p.dir, Format(p))) == Format(p)
  {
    var t := NewStem(p.name);
    NewStemKey(p.name);
    assert |Key(t)| == |Alnums(t)|;
    assert |Key(Stem(p.name))| == |Alnums(Stem(p.name))|;
    NewStemFixed(p.name);
    ReparseFormatted(p.name);
    var n := Format(p);
    assert NewStem(n) == Title(Strip(CollapseRuns(t)));
  }

  // Two names for which formatting twice differs from formatting once, computed one step at a time.

  lemma SplitDotSpace()
    ensures Suffix("a. ") == ". " && Stem("a. ") == "a"
  {
    assert "a. "[..2] == "a.";
    assert "a."[..1] == "a";
  }

  lemma FormatDotSpaceSteps()
    ensures CollapseRuns("a") == "a" && Strip("a") == "a" && Title("a") == "A"
    ensures Strip(Lower(". ")) == "."
  {
    assert "a"[1..] == "";
    assert Lower(". ") == ". ";
    assert ". "[..1] == ".";
  }

  lemma ReformatBareDotSteps()
    ensures Suffix("A.") == "" && Stem("A.") == "A."
    ensures CollapseRuns("A.") == "A " && Strip("A ") == "A" && Title("A") == "A"
  {
    assert "A."[1..] == ".";
    CollapseDot();
    assert "A "[..1] == "A";
  }

  lemma CollapseDot()
    ensures CollapseRuns(".") == " "
  {
    assert "."[1..] == "";
    assert TrimLeft("", NotAlnum) == "";
  }

  lemma FormatDotSpace()
    ensures Format(Path("", "a. ")) == "A."
  {
    SplitDotSpace();
    FormatDotSpaceSteps();
    assert NewStem("a. ") == "A";
    assert NewSuffix("a. ") == ".";
  }

  lemma FormatBareDot()
    ensures Format(Path("", "A.")) == "A"
  {
    ReformatBareDotSteps();
    assert NewStem("A.") == "A";
    assert NewSuffix("A.") == "";
  }

  /** A suffix that strips down to a bare dot is no suffix once it ends the name: "a. " formats to
      "A.", which formats to "A". */
  lemma BareDotSuffixNotIdempotent()
    ensures Alnums(Stem("a. ")) != []
    ensures Format(Path("", "a. ")) == "A." && Format(Path("", "A.")) == "A"
  {
    SplitDotSpace();
    assert Alnums("a") == "a";
    FormatDotSpace();
    FormatBareDot();
  }

  lemma SplitSymbolStem()
    ensures Suffix("!!.wav") == ".wav" && Stem("!!.wav") == "!!"
    ensures Suffix(".wav") == "" && Stem(".wav") == ".wav"
  {
    assert "!!.wav"[..5] == "!!.wa";
    assert "!!.wa"[..4] == "!!.w";
    assert "!!.w"[..3] == "!!.";
  }

  /** A run with no letter or digit collapses to one space. */
  lemma CollapseNonAlnums(s: string)
    requires s != [] && forall i :: 0 <= i < |s| ==> !IsAlnum(s[i])
    ensures CollapseRuns(s) == " "
  {
  }

  /** Letters and digits alone are left as they are. */
  lemma CollapseAlnums(t: string)
    requires forall i :: 0 <= i < |t| ==> IsAlnum(t[i])
    ensures CollapseRuns(t) == t
  {
    CollapseSingleSpaced(t);
  }

  /** One symbol before letters and digits becomes a space. */
  lemma CollapseLead(c: char, t: string)
    requires !IsAlnum(c) && t != [] && forall i :: 0 <= i < |t| ==> IsAlnum(t[i])
    ensures CollapseRuns([c] + t) == [' '] + t
  {
    assert ([c] + t)[1..] == t;
    assert TrimLeft(t, NotAlnum) == t;
    CollapseAlnums(t);
  }

  lemma CollapseDotWav()
    ensures CollapseRuns(".wav") == " wav"
  {
    assert ".wav" == ['.'] + "wav";
    CollapseLead('.', "wav");
  }

  lemma StripSymbolSteps()
    ensures Strip(" ") == "" && Strip(" wav") == "wav"
  {
    assert " wav"[1..] == "wav";
  }

  lemma LowerStripWav()
    ensures Lower(".wav") == ".wav" && Strip(".wav") == ".wav"
  {
    assert Lower(".wav") == ".wav";
  }

  lemma TitleWav()
    ensures Title("") == "" && Title("wav") == "Wav"
  {
  }

  lemma FormatSymbolStem()
    ensures Format(Path("", "!!.wav")) == ".wav"
  {
    SplitSymbolStem();
    CollapseNonAlnums("!!");
    StripSymbolSteps();
    LowerStripWav();
    TitleWav();
    assert NewStem("!!.wav") == "";
    assert NewSuffix("!!.wav") == ".wav";
  }

  lemma FormatBareSuffix()
    ensures Format(Path("", ".wav")) == "Wav"
  {
    SplitSymbolStem();
    CollapseDotWav();
    StripSymbolSteps();
    TitleWav();
    assert NewStem(".wav") == "Wav";
    assert NewSuffix(".wav") == "";
  }

  /** A stem with no letter or digit vanishes, and the suffix left alone becomes a stem: "!!.wav"
      formats to ".wav", which formats to "Wav". */
  lemma SymbolStemNotIdempotent()
    ensures Alnums(Stem("!!.wav")) == []
    ensures Format(Path("", "!!.wav")) == ".wav" && Format(Path("", ".wav")) == "Wav"
  {
    SplitSymbolStem();
    AlnumsNone("!!");
    FormatSymbolStem();
    FormatBareSuffix();
  }

  /** A name made only of symbols, with no dot, formats to the empty name. */
  lemma FormatSymbolsOnly(dir: string, name: string)
    requires name != [] && '.' !in name
    requires forall i :: 0 <= i < |name| ==> !IsAlnum(name[i])
    ensures Format(Path(dir, name)) == ""
  {
    NoDotNoSuffix(name);
    CollapseNonAlnums(name);
    StripSymbolSteps();
    TitleWav();
    assert NewStem(name) == "";
  }
}
