/** ASCII character classes and the few `str` methods the pipeline relies on. */
module Strings {

  predicate IsDigit(c: char) { '0' <= c <= '9' }
  predicate IsUpper(c: char) { 'A' <= c <= 'Z' }
  predicate IsLower(c: char) { 'a' <= c <= 'z' }
  predicate IsLetter(c: char) { IsUpper(c) || IsLower(c) }

  /** The class `[0-9a-zA-Z]`. */
  predicate IsAlnum(c: char) { IsDigit(c) || IsLetter(c) }

  /** The ASCII characters for which Python's `str.isspace` holds. */
  predicate IsWhitespace(c: char) {
    c == ' ' || (9 <= c as int <= 13) || (28 <= c as int <= 31)
  }

  function ToUpper(c: char): (r: char)
    ensures IsLetter(c) ==> IsUpper(r) && (IsUpper(c) ==> r == c)
    ensures !IsLetter(c) ==> r == c
  {
    if IsLower(c) then (c as int - 32) as char else c
  }

  function ToLower(c: char): (r: char)
    ensures IsLetter(c) ==> IsLower(r) && (IsLower(c) ==> r == c)
    ensures !IsLetter(c) ==> r == c
  {
    if IsUpper(c) then (c as int + 32) as char else c
  }

  /** `str.lower()` on ASCII; other characters are kept. */
  function Lower(s: string): (r: string)
    ensures |r| == |s|
    ensures forall i :: 0 <= i < |s| ==> r[i] == ToLower(s[i])
  {
    seq(|s|, i requires 0 <= i < |s| => ToLower(s[i]))
  }

  /** Drops the leading characters satisfying `drop`. */
  function TrimLeft(s: string, drop: char -> bool): (r: string)
    ensures |r| <= |s| && r == s[|s| - |r|..]
    ensures forall i :: 0 <= i < |s| - |r| ==> drop(s[i])
    ensures r == [] || !drop(r[0])
  {
    if s != [] && drop(s[0]) then TrimLeft(s[1..], drop) else s
  }

  /** How many leading characters `str.strip` drops. */
  function TrimStart(s: string, drop: char -> bool): (i: nat)
    ensures i <= |s|
    ensures forall k :: 0 <= k < i ==> drop(s[k])
    ensures i < |s| ==> !drop(s[i])
  {
    if s == [] || !drop(s[0]) then 0
    else
      var i := TrimStart(s[1..], drop);
      assert forall k :: 1 <= k <= i ==> s[k] == s[1..][k - 1];
      1 + i
  }

  /** Where the trailing run of dropped characters starts. */
  function TrimEnd(s: string, drop: char -> bool): (j: nat)
    ensures j <= |s|
    ensures forall k :: j <= k < |s| ==> drop(s[k])
    ensures 0 < j ==> !drop(s[j - 1])
  {
    if s == [] || !drop(s[|s| - 1]) then |s|
    else
      var j := TrimEnd(s[..|s| - 1], drop);
      assert forall k :: j <= k < |s| - 1 ==> s[k] == s[..|s| - 1][k];
      j
  }

  /** `str.strip(chars)`: the slice of `s` left once both ends are dropped. */
  function Trim(s: string, drop: char -> bool): (r: string)
    ensures TrimStart(s, drop) + |r| <= |s|
    ensures r == s[TrimStart(s, drop)..TrimStart(s, drop) + |r|]
    ensures forall k :: 0 <= k < TrimStart(s, drop) ==> drop(s[k])
    ensures forall k :: TrimStart(s, drop) + |r| <= k < |s| ==> drop(s[k])
    ensures r == [] || (!drop(r[0]) && !drop(r[|r| - 1]))
  {
    var i := TrimStart(s, drop);
    if i == |s| then "" else s[i..TrimEnd(s, drop)]
  }

  /** `str.strip()` with no argument. */
  function Strip(s: string): string {
    Trim(s, IsWhitespace)
  }

  /** `Strip(t)` is `t` less a run of whitespace at each end. */
  lemma StripSplit(t: string) returns (a: string, b: string)
    ensures t == a + Strip(t) + b
    ensures forall k :: 0 <= k < |a| ==> IsWhitespace(a[k])
    ensures forall k :: 0 <= k < |b| ==> IsWhitespace(b[k])
    ensures Strip(t) == [] || (!IsWhitespace(Strip(t)[0]) && !IsWhitespace(Strip(t)[|Strip(t)| - 1]))
  {
    var r := Strip(t);
    var i := TrimStart(t, IsWhitespace);
    var j := i + |r|;
    a, b := t[..i], t[j..];
    SliceThree(t, i, j);
    forall k | 0 <= k < |a| ensures IsWhitespace(a[k]) {
      assert a[k] == t[k];
    }
    forall k | 0 <= k < |b| ensures IsWhitespace(b[k]) {
      assert b[k] == t[j + k];
    }
  }

  lemma SliceThree<T>(t: seq<T>, i: nat, j: nat)
    requires i <= j <= |t|
    ensures t == t[..i] + t[i..j] + t[j..]
  {
  }

  /** Stripping a string that starts with a non-space keeps a non-empty prefix of it. */
  lemma StripKeepsFront(l: string)
    requires l != [] && !IsWhitespace(l[0])
    ensures Strip(l) != [] && Strip(l) == l[..|Strip(l)|]
  {
    var a, b := StripSplit(l);
    assert l == Strip(l) + b;
  }

  /** `Trim(s, drop)` is the slice between the first and the last kept characters. */
  lemma TrimAt(s: string, drop: char -> bool, i: nat, j: nat)
    requires i < j <= |s|
    requires forall k :: 0 <= k < i ==> drop(s[k])
    requires forall k :: j <= k < |s| ==> drop(s[k])
    requires !drop(s[i]) && !drop(s[j - 1])
    ensures Trim(s, drop) == s[i..j]
  {
  }

  /** The layout of a "<head><text> (<name>)" message. */
  lemma LabelShape(head: string, text: string, name: string)
    ensures var r := head + text + " (" + name + ")";
            && |r| == |head| + |text| + |name| + 3
            && r[..|head|] == head && r[|head|..|head| + |text|] == text
            && r[|r| - 3 - |name|..|r| - 1] == " (" + name && r[|r| - 1] == ')'
  {
    var r := head + text + " (" + name + ")";
    assert r == (head + text) + (" (" + name) + ")";
  }

  /** `str.endswith(suffix)`; every string ends with "". */
  predicate EndsWith(s: string, suffix: string) {
    |suffix| <= |s| && s[|s| - |suffix|..] == suffix
  }

  predicate AllDigits(s: string) {
    forall i :: 0 <= i < |s| ==> IsDigit(s[i])
  }

  function DigitChar(d: nat): (c: char)
    requires d < 10
    ensures IsDigit(c) && c as int - '0' as int == d
  {
    ('0' as int + d) as char
  }

  /** Python's `str(n)` for a natural number: decimal digits, no leading zero. */
  function NatToString(n: nat): (r: string)
    ensures 1 <= |r| && AllDigits(r)
    ensures 1 < |r| ==> r[0] != '0'
  {
    if n < 10 then [DigitChar(n)] else NatToString(n / 10) + [DigitChar(n % 10)]
  }

  /** Python's `str(i)` for any integer. */
  function IntToString(i: int): string {
    if i < 0 then "-" + NatToString(-i) else NatToString(i)
  }

  /** The number a string of decimal digits denotes: the inverse of NatToString. */
  function DecimalValue(s: string): nat
    requires AllDigits(s)
  {
    if s == [] then 0 else 10 * DecimalValue(s[..|s| - 1]) + (s[|s| - 1] as int - '0' as int)
  }

  /** Reading back the digits Python prints for `n` gives `n`. */
  lemma {:induction false} DecimalRoundTrip(n: nat)
    ensures DecimalValue(NatToString(n)) == n
  {
    if n >= 10 {
      var s := NatToString(n);
      assert s[..|s| - 1] == NatToString(n / 10);
      DecimalRoundTrip(n / 10);
    }
  }

  /** Two naturals print the same only if they are equal. */
  lemma NatToStringInjective(m: nat, n: nat)
    requires NatToString(m) == NatToString(n)
    ensures m == n
  {
    DecimalRoundTrip(m);
    DecimalRoundTrip(n);
  }
}
