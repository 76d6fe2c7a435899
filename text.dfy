/** String helpers that dmm.go takes from Go's standard library (strings,
    strconv and fmt), restricted to what the scraper relies on. Strings are
    sequences of Unicode code points; the character classes used by the
    patterns are ASCII. */
module Text {

  datatype Option<+T> = None | Some(value: T)

  // ---------------------------------------------------------------------
  // Character classes

  predicate IsDigit(c: char) { '0' <= c <= '9' }

  predicate IsLower(c: char) { 'a' <= c <= 'z' }

  predicate IsUpper(c: char) { 'A' <= c <= 'Z' }

  /** `[a-z]` under the `(?i)` flag, ASCII only. */
  predicate IsLetter(c: char) { IsLower(c) || IsUpper(c) }

  /** Case-insensitive equality of one character with an ASCII lower-case letter or a digit. */
  predicate FoldEq(c: char, lit: char)
    requires IsLower(lit) || IsDigit(lit)
  {
    c == lit || (IsLower(lit) && c as int == lit as int - 32)
  }

  /** unicode.IsSpace, as used by strings.TrimSpace. */
  predicate IsSpace(c: char)
  {
    c == '\t' || c == '\n' || c == '\U{000B}' || c == '\U{000C}' || c == '\r' || c == ' ' ||
    c == '\U{0085}' || c == '\U{00A0}' || c == '\U{1680}' ||
    ('\U{2000}' <= c <= '\U{200A}') ||
    c == '\U{2028}' || c == '\U{2029}' || c == '\U{202F}' || c == '\U{205F}' || c == '\U{3000}'
  }

  predicate AllDigits(s: string) { forall i :: 0 <= i < |s| ==> IsDigit(s[i]) }

  predicate AllZeros(s: string) { forall i :: 0 <= i < |s| ==> s[i] == '0' }

  // ---------------------------------------------------------------------
  // strings.ToUpper, strings.HasPrefix, strings.Contains

  function UpperChar(c: char): (u: char)
    ensures IsLower(c) ==> IsUpper(u) && u as int == c as int - 32
    ensures !IsLower(c) ==> u == c
  {
    if IsLower(c) then (c as int - 32) as char else c
  }

  /** strings.ToUpper on text whose letters are ASCII. */
  function ToUpper(s: string): (r: string)
    ensures |r| == |s|
    ensures forall i :: 0 <= i < |s| ==> r[i] == UpperChar(s[i])
  {
    if s == [] then [] else [UpperChar(s[0])] + ToUpper(s[1..])
  }

  predicate HasPrefix(s: string, p: string)
  {
    |p| <= |s| && s[..|p|] == p
  }

  /** `t` occurs in `s` starting at index `i`. */
  predicate OccursAt(s: string, t: string, i: int)
  {
    0 <= i && i + |t| <= |s| && s[i..i + |t|] == t
  }

  /** strings.Contains: some occurrence of `t` in `s`. */
  predicate Contains(s: string, t: string)
  {
    exists i :: 0 <= i <= |s| - |t| && OccursAt(s, t, i)
  }

  // ---------------------------------------------------------------------
  // strings.TrimSpace

  /** Number of white-space characters at the start of `s`. */
  function LeadingSpaces(s: string): (n: nat)
    ensures n <= |s|
    ensures forall i :: 0 <= i < n ==> IsSpace(s[i])
    ensures n == |s| || !IsSpace(s[n])
  {
    if s == [] || !IsSpace(s[0]) then 0 else 1 + LeadingSpaces(s[1..])
  }

  /** Number of white-space characters at the end of `s`. */
  function TrailingSpaces(s: string): (n: nat)
    ensures n <= |s|
    ensures forall i :: |s| - n <= i < |s| ==> IsSpace(s[i])
    ensures n == |s| || !IsSpace(s[|s| - 1 - n])
  {
    if s == [] || !IsSpace(s[|s| - 1]) then 0 else 1 + TrailingSpaces(s[..|s| - 1])
  }

  /** strings.TrimSpace: the text between the leading and the trailing white space. */
  function TrimSpace(s: string): (r: string)
    ensures exists i, j ::
              0 <= i <= j <= |s| && r == s[i..j] &&
              (forall k :: 0 <= k < i ==> IsSpace(s[k])) &&
              (forall k :: j <= k < |s| ==> IsSpace(s[k]))
    ensures r == [] || (!IsSpace(r[0]) && !IsSpace(r[|r| - 1]))
  {
    var a := LeadingSpaces(s);
    var rest := s[a..];
    var b := TrailingSpaces(rest);
    assert rest[..|rest| - b] == s[a..|s| - b];
    s[a..|s| - b]
  }

  // ---------------------------------------------------------------------
  // Decimal values and strconv.Atoi

  function DigitValue(c: char): (d: nat)
    requires IsDigit(c)
    ensures d < 10
  {
    c as int - '0' as int
  }

  /** The value of a decimal digit string, most significant digit first. */
  function Value(ds: string): nat
    requires AllDigits(ds)
  {
    if ds == [] then 0 else Value(ds[..|ds| - 1]) * 10 + DigitValue(ds[|ds| - 1])
  }

  function Pow10(n: nat): (p: nat)
    ensures p >= 1
  {
    if n == 0 then 1 else 10 * Pow10(n - 1)
  }

  lemma {:induction false} ValueBound(ds: string)
    requires AllDigits(ds)
    ensures Value(ds) < Pow10(|ds|)
  {
    if ds != [] {
      ValueBound(ds[..|ds| - 1]);
    }
  }

  lemma {:induction false} ValueOfZeros(z: string)
    requires AllZeros(z)
    ensures AllDigits(z) && Value(z) == 0
  {
    if z != [] {
      ValueOfZeros(z[..|z| - 1]);
    }
  }

  /** Leading zeros do not change the value of a digit string. */
  lemma {:induction false} ValueIgnoresLeadingZeros(z: string, ds: string)
    requires AllZeros(z) && AllDigits(ds)
    ensures AllDigits(z + ds) && Value(z + ds) == Value(ds)
  {
    if ds == [] {
      assert z + ds == z;
      ValueOfZeros(z);
    } else {
      var init := ds[..|ds| - 1];
      ValueIgnoresLeadingZeros(z, init);
      assert (z + ds)[..|z + ds| - 1] == z + init;
    }
  }

  const MaxInt64: int := 0x7fff_ffff_ffff_ffff
  const MinInt64: int := -0x8000_0000_0000_0000

  /** strconv.Atoi on a 64-bit platform: an optional sign, then one or more
      decimal digits, and a value that fits in an int. */
  function Atoi(t: string): (r: Option<int>)
    ensures AllDigits(t) && t != [] && Value(t) <= MaxInt64 ==> r == Some(Value(t))
    ensures t == [] ==> r == None
    ensures r.Some? ==> MinInt64 <= r.value <= MaxInt64
  {
    if t == [] then None
    else if t[0] == '+' || t[0] == '-' then
      var body := t[1..];
      if body == [] || !AllDigits(body) then None
      else
        var v: int := if t[0] == '-' then 0 - Value(body) as int else Value(body);
        if MinInt64 <= v <= MaxInt64 then Some(v) else None
    else if !AllDigits(t) then None
    else if Value(t) <= MaxInt64 then Some(Value(t))
    else None
  }

  // ---------------------------------------------------------------------
  // fmt's "%0Ns" verb as the scraper uses it

  function Zeros(n: nat): (z: string)
    ensures |z| == n && AllZeros(z)
  {
    if n == 0 then [] else Zeros(n - 1) + ['0']
  }

  /** Left-pads `s` with '0' to at least `width` characters; never truncates. */
  function PadLeft(s: string, width: nat): (r: string)
    ensures |r| == if |s| < width then width else |s|
  {
    if |s| < width then Zeros(width - |s|) + s else s
  }

  /** The padded text is some zeros followed by the text itself. */
  lemma PadLeftShape(s: string, width: nat)
    ensures |s| <= |PadLeft(s, width)|
    ensures PadLeft(s, width) == PadLeft(s, width)[..|PadLeft(s, width)| - |s|] + s
    ensures AllZeros(PadLeft(s, width)[..|PadLeft(s, width)| - |s|])
  {
    var r := PadLeft(s, width);
    if |s| < width {
      assert r[..|r| - |s|] == Zeros(width - |s|);
    }
  }

  /** Padding keeps a digit string a digit string of the same value. */
  lemma PadLeftValue(s: string, width: nat)
    requires AllDigits(s)
    ensures AllDigits(PadLeft(s, width)) && Value(PadLeft(s, width)) == Value(s)
  {
    var r := PadLeft(s, width);
    PadLeftShape(s, width);
    ValueIgnoresLeadingZeros(r[..|r| - |s|], s);
  }
}
