/** dmmParseCode (dmm.go:159-166): the catalog code scraped from a detail
    page is rewritten to UPPER(prefix) + "-" + digits, where prefix and
    digits are the two groups of the first match of

      (?i)((?:3d|2d|[a-z])+)(\d+)

    A unit `3d`/`2d` starts with a digit and a letter unit does not, so at
    any position at most one unit can start: the units from a start form a
    single chain. The greedy `+` walks that chain as far as it goes and
    backs off to the last chain point where a digit stands; the greedy
    `\d+` then takes the whole digit run. */
module CanonicalCode {
  import opened Text

  /** One match: group 1 is s[start..prefixEnd], group 2 is s[prefixEnd..end]. */
  datatype CodeMatch = CodeMatch(start: nat, prefixEnd: nat, end: nat)

  // ---------------------------------------------------------------------
  // Reference description of the pattern

  /** A unit of length `l` starts at `i`: one letter, or `3d`/`2d` in any case. */
  predicate CodeUnitAt(s: string, i: nat, l: nat)
  {
    (l == 1 && i < |s| && IsLetter(s[i])) ||
    (l == 2 && i + 1 < |s| && (s[i] == '3' || s[i] == '2') && FoldEq(s[i + 1], 'd'))
  }

  /** s[i..e] splits into units (possibly none). */
  ghost predicate Chain(s: string, i: nat, e: nat)
    decreases e - i
  {
    i == e ||
    (i < e && CodeUnitAt(s, i, 1) && Chain(s, i + 1, e)) ||
    (i + 1 < e && CodeUnitAt(s, i, 2) && Chain(s, i + 2, e))
  }

  /** Group 1 can be s[p..e]: one or more units, and a digit right after them. */
  ghost predicate PrefixStop(s: string, p: nat, e: nat)
  {
    p < e < |s| && Chain(s, p, e) && IsDigit(s[e])
  }

  /** Some match of the pattern starts at `p`. */
  ghost predicate CodeMatchesAt(s: string, p: nat)
  {
    exists e :: PrefixStop(s, p, e)
  }

  // ---------------------------------------------------------------------
  // The search

  /** Length of the unit starting at `i`, or 0 when none does. */
  function UnitLen(s: string, i: nat): (l: nat)
    ensures l <= 2
    ensures l != 0 ==> CodeUnitAt(s, i, l) && i + l <= |s|
    ensures l == 0 ==> !CodeUnitAt(s, i, 1) && !CodeUnitAt(s, i, 2)
  {
    if i + 1 < |s| && (s[i] == '3' || s[i] == '2') && FoldEq(s[i + 1], 'd') then 2
    else if i < |s| && IsLetter(s[i]) then 1
    else 0
  }

  /** A chain is empty or starts with the one unit that stands at its start. */
  lemma ChainFirst(s: string, i: nat, e: nat)
    requires Chain(s, i, e)
    ensures i == e || (UnitLen(s, i) != 0 && i + UnitLen(s, i) <= e && Chain(s, i + UnitLen(s, i), e))
  {
  }

  /** The greedy unit run from `i`: follow the chain to its end, then keep
      the last chain point after `i` where a digit stands. */
  function GreedyStop(s: string, i: nat): (r: Option<nat>)
    requires i <= |s|
    decreases |s| - i
    ensures r.Some? ==> PrefixStop(s, i, r.value)
    ensures r.Some? ==> forall e :: r.value < e ==> !PrefixStop(s, i, e)
    ensures r.None? ==> forall e :: !PrefixStop(s, i, e)
  {
    var l := UnitLen(s, i);
    if l == 0 then
      assert forall e :: Chain(s, i, e) ==> e == i by {
        forall e | Chain(s, i, e) ensures e == i {
          ChainFirst(s, i, e);
        }
      }
      None
    else
      var later := GreedyStop(s, i + l);
      assert forall e :: i + l < e && PrefixStop(s, i, e) ==> PrefixStop(s, i + l, e) by {
        forall e | i + l < e && PrefixStop(s, i, e) ensures PrefixStop(s, i + l, e) {
          ChainFirst(s, i, e);
        }
      }
      assert forall e :: PrefixStop(s, i, e) ==> i + l <= e by {
        forall e | PrefixStop(s, i, e) ensures i + l <= e {
          ChainFirst(s, i, e);
        }
      }
      if later.Some? then
        assert Chain(s, i, later.value);
        later
      else if i + l < |s| && IsDigit(s[i + l]) then
        assert Chain(s, i, i + l) by { assert Chain(s, i + l, i + l); }
        Some(i + l)
      else None
  }

  /** The length of the run of digits starting at `a`. */
  function DigitsFrom(s: string, a: nat): (n: nat)
    requires a <= |s|
    decreases |s| - a
    ensures a + n <= |s|
    ensures forall k :: a <= k < a + n ==> IsDigit(s[k])
    ensures a + n == |s| || !IsDigit(s[a + n])
  {
    if a < |s| && IsDigit(s[a]) then 1 + DigitsFrom(s, a + 1) else 0
  }

  /** `m` is the match the pattern reports when tried at m.start: the
      longest unit run followed by a digit, then the whole digit run. */
  ghost predicate Reported(s: string, m: CodeMatch)
  {
    PrefixStop(s, m.start, m.prefixEnd) &&
    (forall e :: m.prefixEnd < e ==> !PrefixStop(s, m.start, e)) &&
    m.prefixEnd < m.end <= |s| &&
    (forall k :: m.prefixEnd <= k < m.end ==> IsDigit(s[k])) &&
    (m.end == |s| || !IsDigit(s[m.end]))
  }

  /** The match the pattern reports when tried at `p`. */
  function CodeMatchAt(s: string, p: nat): (r: Option<CodeMatch>)
    requires p <= |s|
    ensures r.Some? <==> CodeMatchesAt(s, p)
    ensures r.Some? ==> r.value.start == p && Reported(s, r.value)
  {
    var g := GreedyStop(s, p);
    if g.Some? then Some(CodeMatch(p, g.value, g.value + DigitsFrom(s, g.value))) else None
  }

  /** regexp.FindStringSubmatch from `from` on. */
  function CodeFindFrom(s: string, from: nat): (r: Option<CodeMatch>)
    requires from <= |s|
    decreases |s| - from
    ensures r.Some? ==> from <= r.value.start && Reported(s, r.value)
    ensures r.Some? ==> forall p :: from <= p < r.value.start ==> !CodeMatchesAt(s, p)
    ensures r.None? ==> forall p :: from <= p <= |s| ==> !CodeMatchesAt(s, p)
  {
    var m := CodeMatchAt(s, from);
    if m.Some? then m
    else if from == |s| then None
    else CodeFindFrom(s, from + 1)
  }

  /** regexp.FindStringSubmatch: the first match in `code`. */
  function CodeFindFirst(code: string): (r: Option<CodeMatch>)
    ensures r.None? <==> forall p :: 0 <= p <= |code| ==> !CodeMatchesAt(code, p)
    ensures r.Some? ==> Reported(code, r.value)
    ensures r.Some? ==> forall p :: 0 <= p < r.value.start ==> !CodeMatchesAt(code, p)
  {
    var r := CodeFindFrom(code, 0);
    assert r.Some? ==> CodeMatchesAt(code, r.value.start);
    r
  }

  /** `r` is the canonical form of `code`: with no match the input itself;
      otherwise, for the leftmost start where the pattern matches, the longest
      unit run followed by a digit, upper-cased, a dash, and the whole digit
      run after it. */
  ghost predicate Canonical(code: string, r: string)
  {
    ((forall p :: 0 <= p <= |code| ==> !CodeMatchesAt(code, p)) ==> r == code) &&
    ((exists p :: 0 <= p <= |code| && CodeMatchesAt(code, p)) ==>
      exists m :: Reported(code, m) &&
        (forall q :: 0 <= q < m.start ==> !CodeMatchesAt(code, q)) &&
        r == ToUpper(code[m.start..m.prefixEnd]) + "-" + code[m.prefixEnd..m.end])
  }

  /** dmmParseCode. */
  function ParseCode(code: string): (r: string)
    ensures Canonical(code, r)
  {
    var m := CodeFindFirst(code);
    if m.Some? then
      var cm := m.value;
      ToUpper(code[cm.start..cm.prefixEnd]) + "-" + code[cm.prefixEnd..cm.end]
    else code
  }

  // ---------------------------------------------------------------------
  // Lemmas

  /** In a text made of letters, a dash and digits, no unit chain that
      starts among the letters ends on a digit. */
  lemma {:induction false} ChainStaysInLetters(s: string, n: nat, p: nat, e: nat)
    requires n < |s| && s[n] == '-'
    requires forall k :: 0 <= k < n ==> IsLetter(s[k])
    requires p <= n && Chain(s, p, e)
    ensures e <= n
    decreases e - p
  {
    ChainFirst(s, p, e);
    if p < e {
      ChainStaysInLetters(s, n, p + UnitLen(s, p), e);
    }
  }

  /** A canonical code whose prefix is made of letters is left as it is. */
  lemma {:induction false} LetterCodeIsFixed(prefix: string, digits: string)
    requires forall k :: 0 <= k < |prefix| ==> IsLetter(prefix[k])
    requires AllDigits(digits)
    ensures ParseCode(prefix + "-" + digits) == prefix + "-" + digits
  {
    var s := prefix + "-" + digits;
    var n := |prefix|;
    assert s[n] == '-';
    forall p | 0 <= p <= |s| ensures !CodeMatchesAt(s, p) {
      if p <= n {
        forall e: nat | Chain(s, p, e) ensures e <= n {
          ChainStaysInLetters(s, n, p, e);
        }
      } else if p < |s| {
        assert s[p] == digits[p - n - 1];
        assert UnitLen(s, p) == 0;
        forall e: nat | Chain(s, p, e) ensures e == p {
          ChainFirst(s, p, e);
        }
      }
    }
  }

  /** ParseCode settles after one step when the prefix it finds is made of letters. */
  lemma ParseCodeLettersIdempotent(code: string)
    requires CodeFindFirst(code).Some? ==>
      forall k :: CodeFindFirst(code).value.start <= k < CodeFindFirst(code).value.prefixEnd ==> IsLetter(code[k])
    ensures ParseCode(ParseCode(code)) == ParseCode(code)
  {
    var m := CodeFindFirst(code);
    if m.Some? {
      var prefix := code[m.value.start..m.value.prefixEnd];
      var up := ToUpper(prefix);
      forall k | 0 <= k < |up| ensures IsLetter(up[k]) {
        assert prefix[k] == code[m.value.start + k];
      }
      var digits := code[m.value.prefixEnd..m.value.end];
      assert AllDigits(digits) by {
        forall k | 0 <= k < |digits| ensures IsDigit(digits[k]) {
          assert digits[k] == code[m.value.prefixEnd + k];
        }
      }
      LetterCodeIsFixed(up, digits);
    }
  }

  /** ParseCode in terms of the match it found. */
  lemma ParseCodeOf(code: string, m: CodeMatch)
    requires CodeFindFirst(code) == Some(m)
    ensures m.start <= m.prefixEnd <= m.end <= |code|
    ensures ParseCode(code) == ToUpper(code[m.start..m.prefixEnd]) + "-" + code[m.prefixEnd..m.end]
  {
  }

  lemma ThreeDMatch(s: string)
    requires s == "ab3d123"
    ensures CodeFindFirst(s) == Some(CodeMatch(0, 4, 7))
  {
    assert UnitLen(s, 4) == 0 && UnitLen(s, 2) == 2;
    assert GreedyStop(s, 4) == None;
    assert GreedyStop(s, 2) == Some(4);
    assert GreedyStop(s, 0) == Some(4);
    assert DigitsFrom(s, 4) == 3;
  }

  /** A code whose prefix ends in a `3d` unit is canonicalised with that
      unit in its prefix, */
  lemma ParseCodeThreeD(s: string)
    requires s == "ab3d123"
    ensures ParseCode(s) == "AB3D-123"
  {
    ThreeDMatch(s);
    ParseCodeOf(s, CodeMatch(0, 4, 7));
    var u := ToUpper(s[0..4]);
    assert u == "AB3D" by {
      assert u[0] == 'A' && u[1] == 'B' && u[2] == '3' && u[3] == 'D';
    }
    assert s[4..7] == "123";
  }

  lemma ThreeDAgainMatch(t: string)
    requires t == "AB3D-123"
    ensures CodeFindFirst(t) == Some(CodeMatch(0, 2, 3))
  {
    assert UnitLen(t, 4) == 0 && UnitLen(t, 2) == 2;
    assert GreedyStop(t, 4) == None;
    assert GreedyStop(t, 2) == None;
    assert GreedyStop(t, 0) == Some(2);
    assert DigitsFrom(t, 2) == 1;
  }

  /** but that canonical form is not kept on a second pass: the dash now
      stops the unit run, and the pattern backs off to the digit of the unit. */
  lemma ParseCodeThreeDAgain(t: string)
    requires t == "AB3D-123"
    ensures ParseCode(t) == "AB-3"
  {
    ThreeDAgainMatch(t);
    ParseCodeOf(t, CodeMatch(0, 2, 3));
    var u := ToUpper(t[0..2]);
    assert u == "AB" by {
      assert u[0] == 'A' && u[1] == 'B';
    }
    assert t[2..3] == "3";
  }
}
