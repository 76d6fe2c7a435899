/** The query-side logic of the DMM scraper (dmm.go): turning a free-form
    query into search keywords, deciding whether two catalog codes name the
    same title, and trimming a keyword down to the text that is searched for. */
module Dmm {
  import opened Text
  import opened CodePattern

  // ---------------------------------------------------------------------
  // dmmGuess

  /** The keyword built from one match with the number padded to `width`:
      UPPER(prefix) + "-" + the number left-padded with '0' (fmt's "%0Ns"). */
  function Variant(s: string, m: Match, width: nat): string
    requires WellFormed(s, m)
  {
    ToUpper(Prefix(s, m)) + "-" + PadLeft(Number(s, m), width)
  }

  /** A keyword is group 1 in upper case, a dash, then zeros and group 2: at
      least `width` characters after the dash, and group 2 never cut short. */
  lemma VariantShape(s: string, m: Match, width: nat)
    requires WellFormed(s, m)
    ensures var r, p, num := Variant(s, m, width), |Prefix(s, m)|, Number(s, m);
      |r| == p + 1 + (if |num| < width then width else |num|) &&
      r[..p] == ToUpper(Prefix(s, m)) && r[p] == '-' &&
      r[|r| - |num|..] == num && AllZeros(r[p + 1..|r| - |num|])
  {
    var num := Number(s, m);
    var n := PadLeft(num, width);
    PadLeftShape(num, width);
    JoinShape(ToUpper(Prefix(s, m)), n[..|n| - |num|], num);
  }

  /** The parts of `u` + "-" + `z` + `num` can be read back. */
  lemma JoinShape(u: string, z: string, num: string)
    ensures var r := u + "-" + (z + num);
      r[..|u|] == u && r[|u|] == '-' && r[|r| - |num|..] == num && r[|u| + 1..|r| - |num|] == z
  {
    var r := u + "-" + (z + num);
    assert r[|r| - |num|..] == num;
    assert r[|u| + 1..|r| - |num|] == z;
  }

  /** The keywords of one match: at most three, exactly three when group 2
      has at most three characters, and a single one once it has five or
      more, since padding never shortens it. */
  function MatchVariants(s: string, m: Match): (r: set<string>)
    requires WellFormed(s, m)
    ensures 1 <= |r| <= 3
    ensures |Number(s, m)| <= 3 ==> |r| == 3
    ensures |Number(s, m)| >= 5 ==> |r| == 1
  {
    var a, b, c := Variant(s, m, 3), Variant(s, m, 4), Variant(s, m, 5);
    if |Number(s, m)| <= 3 then
      assert |a| < |b| < |c| by {
        VariantShape(s, m, 3);
        VariantShape(s, m, 4);
        VariantShape(s, m, 5);
      }
      {a, b, c}
    else if |Number(s, m)| >= 5 then
      assert a == b == c by {
        assert PadLeft(Number(s, m), 3) == PadLeft(Number(s, m), 5) == PadLeft(Number(s, m), 4);
      }
      {a, b, c}
    else
      {a, b, c}
  }

  /** The keyword sets of the matches, in order. */
  function VariantSets(s: string, ms: seq<Match>): (r: seq<set<string>>)
    requires forall i :: 0 <= i < |ms| ==> WellFormed(s, ms[i])
    ensures |r| == |ms| && forall i :: 0 <= i < |ms| ==> r[i] == MatchVariants(s, ms[i])
  {
    seq(|ms|, i requires 0 <= i < |ms| => MatchVariants(s, ms[i]))
  }

  /** The union of a sequence of sets, built left to right. */
  function Union<T>(ss: seq<set<T>>): set<T>
  {
    if ss == [] then {} else Union(ss[..|ss| - 1]) + ss[|ss| - 1]
  }

  /** An element of the union belongs to one of the sets, and conversely. */
  lemma {:induction false} UnionMember<T>(ss: seq<set<T>>, x: T)
    ensures x in Union(ss) <==> exists i :: 0 <= i < |ss| && x in ss[i]
  {
    if ss != [] {
      var init := ss[..|ss| - 1];
      UnionMember(init, x);
      if i :| 0 <= i < |ss| && x in ss[i] {
        if i < |init| {
          assert init[i] == ss[i];
        }
      }
      if x in Union(init) {
        var i :| 0 <= i < |init| && x in init[i];
        assert init[i] == ss[i];
      }
    }
  }

  lemma UnionWhole<T>(ss: seq<set<T>>)
    ensures Union(ss[..|ss|]) == Union(ss)
  {
    assert ss[..|ss|] == ss;
  }

  /** The union of sets of at most three elements each has at most three
      elements per set. */
  lemma {:induction false} UnionSize<T>(ss: seq<set<T>>)
    requires forall i :: 0 <= i < |ss| ==> |ss[i]| <= 3
    ensures |Union(ss)| <= 3 * |ss|
  {
    if ss != [] {
      var init := ss[..|ss| - 1];
      UnionSize(init);
      assert |Union(init) + ss[|ss| - 1]| <= |Union(init)| + |ss[|ss| - 1]|;
    }
  }

  /** All keywords of a sequence of matches: a keyword comes from one of the
      matches, every match contributes its keywords, and there are at most
      three per match. */
  function Variants(s: string, ms: seq<Match>): (r: set<string>)
    requires forall i :: 0 <= i < |ms| ==> WellFormed(s, ms[i])
    ensures forall k :: k in r <==> exists i :: 0 <= i < |ms| && k in MatchVariants(s, ms[i])
    ensures |r| <= 3 * |ms|
  {
    var sets := VariantSets(s, ms);
    forall k ensures k in Union(sets) <==> exists i :: 0 <= i < |ms| && k in MatchVariants(s, ms[i]) {
      UnionMember(sets, k);
    }
    UnionSize(sets);
    Union(sets)
  }

  /** Adding the keywords of one more match to those of the earlier ones. */
  lemma VariantsStep(s: string, ms: seq<Match>, i: nat)
    requires forall i :: 0 <= i < |ms| ==> WellFormed(s, ms[i])
    requires i < |ms|
    ensures Union(VariantSets(s, ms)[..i + 1]) == Union(VariantSets(s, ms)[..i]) + MatchVariants(s, ms[i])
  {
    var sets := VariantSets(s, ms)[..i + 1];
    assert sets[..i] == VariantSets(s, ms)[..i];
  }

  /** A query yields no keyword exactly when the code pattern matches
      nowhere in it. */
  lemma GuessSummary(query: string)
    ensures Variants(query, FindAll(query)) == {} <==> FindFirst(query).None?
  {
    var matches := FindAll(query);
    if matches != [] {
      assert Variant(query, matches[0], 3) in MatchVariants(query, matches[0]);
    }
  }

  /** One turn of the loop in Guess adds the keywords of the next match. */
  lemma GuessStep(s: string, ms: seq<Match>, i: nat, before: set<string>, series: string, num: string)
    requires forall i :: 0 <= i < |ms| ==> WellFormed(s, ms[i])
    requires i < |ms| && before == Union(VariantSets(s, ms)[..i])
    requires series == ToUpper(Prefix(s, ms[i])) && num == Number(s, ms[i])
    ensures before + {series + "-" + PadLeft(num, 3)} + {series + "-" + PadLeft(num, 4)} +
            {series + "-" + PadLeft(num, 5)} == Union(VariantSets(s, ms)[..i + 1])
  {
    VariantsStep(s, ms, i);
  }

  /** dmmGuess: every match of the code pattern in the query contributes its
      prefix in upper case and its number padded to widths 3, 4 and 5;
      Variants and GuessSummary state what that set holds. */
  method Guess(query: string) returns (keywords: set<string>)
    ensures keywords == Variants(query, FindAll(query))
  {
    var matches := FindAll(query);
    keywords := CollectKeywords(query, matches);
  }

  /** The loop of dmmGuess over the matches, adding three keywords per match
      to the set. */
  method CollectKeywords(query: string, matches: seq<Match>) returns (keywords: set<string>)
    requires forall i :: 0 <= i < |matches| ==> WellFormed(query, matches[i])
    ensures keywords == Variants(query, matches)
  {
    keywords := {};
    for i := 0 to |matches|
      invariant keywords == Union(VariantSets(query, matches)[..i])
    {
      var m := matches[i];
      var series := ToUpper(Prefix(query, m));
      var num := Number(query, m);
      ghost var before := keywords;
      keywords := keywords + {series + "-" + PadLeft(num, 3)};
      keywords := keywords + {series + "-" + PadLeft(num, 4)};
      keywords := keywords + {series + "-" + PadLeft(num, 5)};
      GuessStep(query, matches, i, before, series, num);
    }
    UnionWhole(VariantSets(query, matches));
  }

  /** The number part of a keyword is a digit string of at least `width`
      (so at least three) characters that ends with the captured number,
      is never shorter than it, and denotes the same integer. */
  lemma PaddedNumber(s: string, m: Match, width: nat)
    requires IsMatch(s, m) && WellFormed(s, m) && 3 <= width <= 5
    ensures var num := Number(s, m);
            var n := PadLeft(num, width);
            |n| >= width && |n| >= |num| && n[|n| - |num|..] == num &&
            AllDigits(n) && Value(n) == NumberValue(s, m)
  {
    PadLeftShape(Number(s, m), width);
    PadLeftValue(Number(s, m), width);
  }

  // ---------------------------------------------------------------------
  // dmmIsCodeEqual

  /** dmmIsCodeEqual: both codes must match the pattern, the first matches
      must have the same prefix (compared exactly, so case matters), and
      their numbers must parse to the same integer. strconv.Atoi never fails
      here, because group 2 is a digit string whose value is below 100000
      (`NumberValueBound`). */
  function IsCodeEqual(lcode: string, rcode: string): (r: bool)
    ensures FindFirst(lcode).None? || FindFirst(rcode).None? ==> !r
    ensures FindFirst(lcode).Some? && FindFirst(rcode).Some? ==>
      (r <==> Prefix(lcode, FindFirst(lcode).value) == Prefix(rcode, FindFirst(rcode).value) &&
              NumberValue(lcode, FindFirst(lcode).value) == NumberValue(rcode, FindFirst(rcode).value))
  {
    var lmeta := FindFirst(lcode);
    var rmeta := FindFirst(rcode);
    if lmeta.None? || rmeta.None? then false
    else if Prefix(lcode, lmeta.value) != Prefix(rcode, rmeta.value) then false
    else
      var lnum := Atoi(Number(lcode, lmeta.value));
      var rnum := Atoi(Number(rcode, rmeta.value));
      assert lnum == Some(NumberValue(lcode, lmeta.value));
      assert rnum == Some(NumberValue(rcode, rmeta.value));
      if lnum.None? then false
      else if rnum.None? then false
      else lnum.value == rnum.value
  }

  /** The test does not depend on the order of its arguments. */
  lemma IsCodeEqualSymmetric(lcode: string, rcode: string)
    ensures IsCodeEqual(lcode, rcode) == IsCodeEqual(rcode, lcode)
  {
  }

  /** A code equals itself exactly when the pattern matches it. */
  lemma IsCodeEqualReflexive(code: string)
    ensures IsCodeEqual(code, code) <==> FindFirst(code).Some?
  {
  }

  /** Codes whose first matches have the same prefix and numbers that differ
      only in leading zeros are equal. */
  lemma IsCodeEqualIgnoresZeros(lcode: string, rcode: string, zeros: nat)
    requires FindFirst(lcode).Some? && FindFirst(rcode).Some?
    requires Prefix(lcode, FindFirst(lcode).value) == Prefix(rcode, FindFirst(rcode).value)
    requires Number(lcode, FindFirst(lcode).value) == Zeros(zeros) + Number(rcode, FindFirst(rcode).value)
    ensures IsCodeEqual(lcode, rcode)
  {
    var lm := FindFirst(lcode).value;
    var rm := FindFirst(rcode).value;
    assert NumberValue(rcode, rm) == Value(Number(rcode, rm));
    ValueIgnoresLeadingZeros(Zeros(zeros), Number(rcode, rm));
  }

  /** The first match in "abc-123" and in "ABC-123": group 1 is the three
      letters, group 2 is "123". */
  lemma AbcFirstMatch(s: string)
    requires s == "abc-123" || s == "ABC-123"
    ensures FindFirst(s) == Some(Match(0, 3, 4, 7))
  {
    assert Search(s, 3, 3) == Some(Stop(3, 3));
    assert Search(s, 2, 2) == Some(Stop(3, 3));
    assert Search(s, 1, 1) == Some(Stop(3, 3));
    assert Search(s, 0, 0) == Some(Stop(3, 3));
    assert NumberEnd(s, 4) == 7;
    assert MatchAt(s, 0) == Some(Match(0, 3, 4, 7));
    assert FindFrom(s, 0) == MatchAt(s, 0);
  }

  /** The first match in "ab-0000012345": `0*` takes all five zeros, so
      group 2 is "0000012345". */
  lemma ZeroPaddedFirstMatch(s: string)
    requires s == "ab-0000012345"
    ensures FindFirst(s) == Some(Match(0, 2, 3, 13))
  {
    assert Search(s, 2, 2) == Some(Stop(2, 2));
    assert Search(s, 1, 1) == Some(Stop(2, 2));
    assert Search(s, 0, 0) == Some(Stop(2, 2));
    assert ZeroRun(s, 8) == 0 && ZeroRun(s, 3) == 5;
    assert DigitRun(s, 13) == 0 && DigitRun(s, 8) == 5 && DigitRun(s, 3) == 10;
    assert NumberEnd(s, 3) == 13;
    assert MatchAt(s, 0) == Some(Match(0, 2, 3, 13));
    assert FindFrom(s, 0) == MatchAt(s, 0);
  }

  /** Group 2 of "ab-0000012345" is five zeros and then "12345". */
  lemma ZeroPaddedNumber(s: string)
    requires s == "ab-0000012345"
    ensures s[3..13] == Zeros(5) + "12345"
  {
    assert Zeros(5) == "00000";
  }

  /** The first match in "ab-12345". */
  lemma PlainFirstMatch(s: string)
    requires s == "ab-12345"
    ensures FindFirst(s) == Some(Match(0, 2, 3, 8))
    ensures Number(s, Match(0, 2, 3, 8)) == "12345"
  {
    assert s[3..8] == "12345";
    assert Search(s, 2, 2) == Some(Stop(2, 2));
    assert Search(s, 1, 1) == Some(Stop(2, 2));
    assert Search(s, 0, 0) == Some(Stop(2, 2));
    assert DigitRun(s, 8) == 0 && DigitRun(s, 3) == 5;
    assert NumberEnd(s, 3) == 8;
    assert MatchAt(s, 0) == Some(Match(0, 2, 3, 8));
    assert FindFrom(s, 0) == MatchAt(s, 0);
  }

  /** "ab-0000012345" and "ab-12345" name the same title. */
  lemma ZeroPaddedCodesEqual(l: string, r: string)
    requires l == "ab-0000012345" && r == "ab-12345"
    ensures IsCodeEqual(l, r)
  {
    ZeroPaddedFirstMatch(l);
    PlainFirstMatch(r);
    ZeroPaddedNumber(l);
    IsCodeEqualIgnoresZeros(l, r, 5);
  }

  /** Prefixes are compared as written: the same code in another case is
      not equal, although the pattern itself ignores case. */
  lemma IsCodeEqualCaseSensitive(l: string, r: string)
    requires l == "abc-123" && r == "ABC-123"
    ensures !IsCodeEqual(l, r)
  {
    AbcFirstMatch(l);
    AbcFirstMatch(r);
    assert Prefix(l, Match(0, 3, 4, 7))[0] != Prefix(r, Match(0, 3, 4, 7))[0];
  }

  // ---------------------------------------------------------------------
  // A code of another site

  /** In "FC2-917114" no unit run can reach past the "2": the "2" is not
      followed by a `d`, and the "C" before it is not an `s`. */
  lemma Fc2PrefixEnds(s: string, p: nat, j: nat)
    requires s == "FC2-917114"
    requires PrefixSpan(s, p, j)
    ensures j <= 2
  {
    var n :| (IsT28At(s, p) && j == p + 3) || (1 <= n <= MaxUnits && UnitsSpan(s, p, j, n));
    assert !IsT28At(s, p);
    if p <= 2 {
      UnitsStopAt(s, p, j, n, 2);
    }
  }

  /** "FC2-917114" does not match the pattern at all, so dmmIsCodeEqual
      rejects it against every code, itself included. */
  lemma Fc2CodeNeverEqual(s: string, other: string)
    requires s == "FC2-917114"
    ensures FindFirst(s).None?
    ensures !IsCodeEqual(s, other) && !IsCodeEqual(other, s)
  {
    forall p | 0 <= p <= |s| ensures !MatchesAt(s, p) {
      forall j | PrefixSpan(s, p, j) ensures !TailStarts(s, j) {
        Fc2PrefixEnds(s, p, j);
      }
    }
  }

  // ---------------------------------------------------------------------
  // The search term of dmmSearchKeyword

  /** Position of the first ASCII letter at or after `i`, if any. */
  function FirstLetter(s: string, i: nat): (r: Option<nat>)
    requires i <= |s|
    decreases |s| - i
    ensures r.Some? ==> i <= r.value < |s| && IsLetter(s[r.value])
    ensures forall k :: i <= k < |s| && (r.None? || k < r.value) ==> !IsLetter(s[k])
  {
    if i == |s| then None
    else if IsLetter(s[i]) then Some(i)
    else FirstLetter(s, i + 1)
  }

  /** Position of the first line feed at or after `i`, or |s|. */
  function LineEnd(s: string, i: nat): (j: nat)
    requires i <= |s|
    decreases |s| - i
    ensures i <= j <= |s| && (j == |s| || s[j] == '\n')
    ensures forall k :: i <= k < j ==> s[k] != '\n'
  {
    if i == |s| || s[i] == '\n' then i else LineEnd(s, i + 1)
  }

  /** The text that is searched for: the leftmost match of `(?i)[a-z].*`,
      which runs from the first letter up to the end of its line (`.` does
      not match a line feed), or "" when the keyword has no letter. */
  function SearchTerm(keyword: string): (r: string)
    ensures r == "" <==> forall k :: 0 <= k < |keyword| ==> !IsLetter(keyword[k])
    ensures r != "" ==> exists i, j ::
      0 <= i < j <= |keyword| && r == keyword[i..j] && IsLetter(keyword[i]) &&
      (forall k :: 0 <= k < i ==> !IsLetter(keyword[k])) &&
      (forall k :: i <= k < j ==> keyword[k] != '\n') &&
      (j == |keyword| || keyword[j] == '\n')
  {
    var first := FirstLetter(keyword, 0);
    if first.None? then ""
    else keyword[first.value..LineEnd(keyword, first.value)]
  }
}
