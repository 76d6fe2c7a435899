/** The catalog-code pattern of dmm.go (`dmmRe`):

      (?i)((?:t28|(?:3d|2d|s2|[a-z]){1,7}?))[-_]?(0*(\d{2,5}))

    Go's regexp reports, among the matches that start leftmost, the one a
    backtracking matcher would find first. This module writes that matcher
    out by hand, as a depth-first search that tries the alternatives in the
    pattern's own priority order:
      - the literal `t28` before the unit run;
      - the lazy `{1,7}?` run tries to stop after each unit before taking
        another one, and a unit is tried as `3d`, `2d`, `s2`, then one letter;
      - `[-_]?` takes the separator when it can;
      - `0*` takes as many zeros as still leave two digits for `\d{2,5}`,
        which then takes up to five digits.
    The ghost predicates below describe, independently of that search order,
    which spans of a text the pattern can match at all; the contracts show
    that the search finds a match exactly when one exists, and the leftmost one. */
module CodePattern {
  import opened Text

  /** One match: group 1 is s[start..prefixEnd], group 2 is s[numStart..end]. */
  datatype Match = Match(start: nat, prefixEnd: nat, numStart: nat, end: nat)

  /** Where the lazy unit run stopped: the end of group 1 and the units taken. */
  datatype Stop = Stop(prefixEnd: nat, units: nat)

  const MaxUnits: nat := 7

  predicate IsSeparator(c: char) { c == '-' || c == '_' }

  // ---------------------------------------------------------------------
  // Reference description of the pattern

  /** A two-character unit `3d`, `2d` or `s2` (any case) starts at `i`. */
  predicate IsPairUnit(s: string, i: nat)
  {
    i + 1 < |s| &&
    (((s[i] == '3' || s[i] == '2') && FoldEq(s[i + 1], 'd')) ||
     (FoldEq(s[i], 's') && s[i + 1] == '2'))
  }

  /** A unit of length `l` of the prefix run starts at `i`. */
  predicate UnitAt(s: string, i: nat, l: nat)
  {
    (l == 1 && i < |s| && IsLetter(s[i])) || (l == 2 && IsPairUnit(s, i))
  }

  /** The literal `t28` (any case) starts at `i`. */
  predicate IsT28At(s: string, i: nat)
  {
    i + 2 < |s| && FoldEq(s[i], 't') && s[i + 1] == '2' && s[i + 2] == '8'
  }

  /** s[i..j] splits into exactly `n` units. */
  ghost predicate UnitsSpan(s: string, i: nat, j: nat, n: nat)
    decreases n
  {
    if n == 0 then i == j
    else (UnitAt(s, i, 1) && UnitsSpan(s, i + 1, j, n - 1)) ||
         (UnitAt(s, i, 2) && UnitsSpan(s, i + 2, j, n - 1))
  }

  /** s[i..j] can be group 1. */
  ghost predicate PrefixSpan(s: string, i: nat, j: nat)
  {
    (IsT28At(s, i) && j == i + 3) || exists n :: 1 <= n <= MaxUnits && UnitsSpan(s, i, j, n)
  }

  /** Every character of s[a..b] is a digit. */
  predicate DigitsIn(s: string, a: nat, b: nat)
    requires a <= b <= |s|
  {
    forall i :: a <= i < b ==> IsDigit(s[i])
  }

  /** Every character of s[a..b] is '0'. */
  predicate ZerosIn(s: string, a: nat, b: nat)
    requires a <= b <= |s|
  {
    forall i :: a <= i < b ==> s[i] == '0'
  }

  /** s[a..b] reads as `z` zeros followed by two to five characters. */
  ghost predicate ZerosThenShort(s: string, a: nat, b: nat, z: nat)
    requires a <= b <= |s|
  {
    z <= b - a && 2 <= b - a - z <= 5 && ZerosIn(s, a, a + z)
  }

  /** s[a..b] can be group 2: some zeros, then two to five digits. */
  ghost predicate NumberShape(s: string, a: nat, b: nat)
  {
    a + 2 <= b <= |s| && DigitsIn(s, a, b) && exists z :: ZerosThenShort(s, a, b, z)
  }

  /** After group 1 ends at `j`, an optional separator and group 2 at s[a..b]. */
  ghost predicate TailSpan(s: string, j: nat, a: nat, b: nat)
  {
    j <= |s| && (a == j || (a == j + 1 && j < |s| && IsSeparator(s[j]))) && NumberShape(s, a, b)
  }

  /** `m` is one way for the pattern to match `s`. */
  ghost predicate IsMatch(s: string, m: Match)
  {
    PrefixSpan(s, m.start, m.prefixEnd) && TailSpan(s, m.prefixEnd, m.numStart, m.end)
  }

  /** Two digits start at `a`. */
  predicate TwoDigitsAt(s: string, a: nat)
  {
    a + 2 <= |s| && IsDigit(s[a]) && IsDigit(s[a + 1])
  }

  /** `[-_]?(0*(\d{2,5}))` can match from `j` on; TailStartsSpan shows that
      this is the case exactly when some TailSpan starts at `j`. */
  predicate TailStarts(s: string, j: nat)
  {
    TwoDigitsAt(s, j) || (j < |s| && IsSeparator(s[j]) && TwoDigitsAt(s, j + 1))
  }

  /** Some match of the pattern starts at `p`. */
  ghost predicate MatchesAt(s: string, p: nat)
  {
    exists j :: PrefixSpan(s, p, j) && TailStarts(s, j)
  }

  // ---------------------------------------------------------------------
  // Which match is reported

  /** s[i..] begins with the units whose lengths `ls` lists, in order. */
  ghost predicate UnitSeq(s: string, i: nat, ls: seq<nat>)
    decreases |ls|
  {
    ls == [] || (UnitAt(s, i, ls[0]) && UnitSeq(s, i + ls[0], ls[1..]))
  }

  /** Where the units `ls` taken from `i` end. */
  function SeqEnd(i: nat, ls: seq<nat>): nat
    decreases |ls|
  {
    if ls == [] then i else SeqEnd(i + ls[0], ls[1..])
  }

  /** `u` is tried before `v` by a backtracking matcher: the lazy run tries
      to stop before it takes another unit, and tries a two-character unit
      before a single letter. */
  ghost predicate Before(u: seq<nat>, v: seq<nat>)
    decreases |u|
  {
    if u == [] then v != []
    else v != [] && ((u[0] == 2 && v[0] == 1) || (u[0] == v[0] && Before(u[1..], v[1..])))
  }

  /** With `count` units already taken up to `pos`, the further units `ls`
      end group 1 where group 2 can follow. */
  ghost predicate Candidate(s: string, pos: nat, count: nat, ls: seq<nat>)
  {
    1 <= count + |ls| <= MaxUnits && UnitSeq(s, pos, ls) && TailStarts(s, SeqEnd(pos, ls))
  }

  /** `ls` is the candidate that comes first in backtracking order. */
  ghost predicate FirstUnits(s: string, pos: nat, count: nat, ls: seq<nat>)
  {
    Candidate(s, pos, count, ls) && forall v :: Candidate(s, pos, count, v) ==> !Before(v, ls)
  }

  /** No unit run from `pos` on ends where group 2 can follow. */
  ghost predicate NoCandidate(s: string, pos: nat, count: nat)
  {
    forall ls :: !Candidate(s, pos, count, ls)
  }

  /** Group 1 of the match reported at `p` ends at `e`: after `t28` when group
      2 can follow it, and otherwise after the first unit run in backtracking
      order that group 2 can follow. */
  ghost predicate ReportedPrefix(s: string, p: nat, e: nat)
  {
    if IsT28At(s, p) && TailStarts(s, p + 3) then e == p + 3
    else exists ls :: FirstUnits(s, p, 0, ls) && e == SeqEnd(p, ls)
  }

  /** `m` is the match Go reports when the pattern is tried at m.start: the
      preferred group 1, then the separator whenever there is one, then the
      longest group 2. */
  ghost predicate Reported(s: string, m: Match)
  {
    ReportedPrefix(s, m.start, m.prefixEnd) &&
    TailSpan(s, m.prefixEnd, m.numStart, m.end) &&
    forall a: nat, b: nat :: TailSpan(s, m.prefixEnd, a, b) ==> a == m.numStart && b <= m.end
  }

  // ---------------------------------------------------------------------
  // The search

  /** Length of the run of digits starting at `a`. */
  function DigitRun(s: string, a: nat): (n: nat)
    requires a <= |s|
    decreases |s| - a
    ensures a + n <= |s| && DigitsIn(s, a, a + n)
    ensures a + n == |s| || !IsDigit(s[a + n])
  {
    if a < |s| && IsDigit(s[a]) then 1 + DigitRun(s, a + 1) else 0
  }

  /** Length of the run of '0' starting at `a`. */
  function ZeroRun(s: string, a: nat): (n: nat)
    requires a <= |s|
    decreases |s| - a
    ensures a + n <= |s| && ZerosIn(s, a, a + n)
    ensures a + n == |s| || s[a + n] != '0'
  {
    if a < |s| && s[a] == '0' then 1 + ZeroRun(s, a + 1) else 0
  }

  /** `0*(\d{2,5})` at `a`, which starts with two digits: the end of group 2.
      The greedy `0*` followed by the greedy `\d{2,5}` yields the longest
      span that group 2 can have at `a`. */
  function NumberEnd(s: string, a: nat): (b: nat)
    requires TwoDigitsAt(s, a)
    ensures NumberShape(s, a, b)
    ensures forall b': nat :: NumberShape(s, a, b') ==> b' <= b
  {
    var d := DigitRun(s, a);
    var z := ZeroRun(s, a);
    var j := if z < d - 2 then z else d - 2;
    var k := if d - j < 5 then d - j else 5;
    assert ZerosThenShort(s, a, a + j + k, j);
    assert forall b': nat :: NumberShape(s, a, b') ==> b' <= a + j + k by {
      forall b': nat | NumberShape(s, a, b') ensures b' <= a + j + k {
        var z': nat :| ZerosThenShort(s, a, b', z');
        assert b' <= a + d by { assert a + d == |s| || !IsDigit(s[a + d]); }
        assert z' <= z by { assert a + z == |s| || s[a + z] != '0'; }
      }
    }
    a + j + k
  }

  /** `[-_]?(0*(\d{2,5}))` at `j`: the span of group 2, taking the separator
      when it can. Group 2 can start nowhere else, and ends nowhere later. */
  function Tail(s: string, j: nat): (r: (nat, nat))
    requires TailStarts(s, j)
    ensures TailSpan(s, j, r.0, r.1)
    ensures forall a: nat, b: nat :: TailSpan(s, j, a, b) ==> a == r.0 && b <= r.1
  {
    if j < |s| && IsSeparator(s[j]) then (j + 1, NumberEnd(s, j + 1))
    else (j, NumberEnd(s, j))
  }

  /** The lazy unit run, `count` units already taken up to `pos`: first try
      to stop here; otherwise take one more unit, trying `3d`, `2d` and `s2`
      before a single letter. */
  function Search(s: string, pos: nat, count: nat): (r: Option<Stop>)
    requires pos <= |s| && count <= MaxUnits
    decreases MaxUnits - count
    ensures r.Some? ==> count <= r.value.units && 1 <= r.value.units <= MaxUnits
    ensures r.Some? ==> pos + (r.value.units - count) <= r.value.prefixEnd <= |s|
    ensures r.Some? ==> UnitsSpan(s, pos, r.value.prefixEnd, r.value.units - count)
    ensures r.Some? ==> TailStarts(s, r.value.prefixEnd)
    ensures r.None? ==> forall n: nat, j: nat ::
              1 <= count + n <= MaxUnits && UnitsSpan(s, pos, j, n) ==> !TailStarts(s, j)
  {
    if count >= 1 && TailStarts(s, pos) then Some(Stop(pos, count))
    else if count == MaxUnits then None
    else
      var pair := if IsPairUnit(s, pos) then Search(s, pos + 2, count + 1) else None;
      if pair.Some? then pair
      else if pos < |s| && IsLetter(s[pos]) then Search(s, pos + 1, count + 1)
      else None
  }

  /** A candidate that takes a unit at `pos` goes on as a candidate after it. */
  lemma CandidateRest(s: string, pos: nat, count: nat, v: seq<nat>)
    requires Candidate(s, pos, count, v) && v != []
    ensures (v[0] == 1 || v[0] == 2) && pos + v[0] <= |s| && UnitAt(s, pos, v[0])
    ensures Candidate(s, pos + v[0], count + 1, v[1..])
  {
  }

  /** Prepending the unit at `pos` to the first candidate after it gives the
      first candidate at `pos`, when the search cannot stop at `pos` and, for
      a letter, no candidate begins with a two-character unit. */
  lemma ExtendFirst(s: string, pos: nat, count: nat, l: nat, ls': seq<nat>)
    requires !(count >= 1 && TailStarts(s, pos))
    requires UnitAt(s, pos, l) && FirstUnits(s, pos + l, count + 1, ls')
    requires l == 1 ==> !IsPairUnit(s, pos) || NoCandidate(s, pos + 2, count + 1)
    ensures FirstUnits(s, pos, count, [l] + ls') && SeqEnd(pos, [l] + ls') == SeqEnd(pos + l, ls')
  {
    var ls := [l] + ls';
    assert ls[1..] == ls';
    forall v | Candidate(s, pos, count, v) ensures !Before(v, ls) {
      assert v != [] by { assert v == [] ==> SeqEnd(pos, v) == pos; }
      CandidateRest(s, pos, count, v);
      if v[0] == l {
        assert !Before(v[1..], ls');
      }
    }
  }

  /** The search that takes the unit at `pos` and then succeeds ends where
      the first candidate at `pos` ends, under the conditions of ExtendFirst. */
  lemma ExtendSearch(s: string, pos: nat, count: nat, l: nat)
    requires pos + l <= |s| && count < MaxUnits && !(count >= 1 && TailStarts(s, pos))
    requires UnitAt(s, pos, l) && SearchIsFirst(s, pos + l, count + 1) && Search(s, pos + l, count + 1).Some?
    requires l == 1 ==> !IsPairUnit(s, pos) || NoCandidate(s, pos + 2, count + 1)
    ensures exists ls :: FirstUnits(s, pos, count, ls) &&
                         SeqEnd(pos, ls) == Search(s, pos + l, count + 1).value.prefixEnd
  {
    var ls' :| FirstUnits(s, pos + l, count + 1, ls') &&
               SeqEnd(pos + l, ls') == Search(s, pos + l, count + 1).value.prefixEnd;
    ExtendFirst(s, pos, count, l, ls');
  }

  /** Search from `pos` stops at the end of the first candidate in
      backtracking order, and finds nothing exactly when there is none. */
  ghost predicate SearchIsFirst(s: string, pos: nat, count: nat)
    requires pos <= |s| && count <= MaxUnits
  {
    var r := Search(s, pos, count);
    (r.Some? ==> exists ls :: FirstUnits(s, pos, count, ls) && SeqEnd(pos, ls) == r.value.prefixEnd) &&
    (r.None? ==> NoCandidate(s, pos, count))
  }

  /** One step of SearchFirst: when the search does not stop at `pos`, it is
      first if the searches after the next unit are. */
  lemma SearchFirstStep(s: string, pos: nat, count: nat)
    requires pos <= |s| && count < MaxUnits && !(count >= 1 && TailStarts(s, pos))
    requires IsPairUnit(s, pos) ==> SearchIsFirst(s, pos + 2, count + 1)
    requires pos < |s| && IsLetter(s[pos]) ==> SearchIsFirst(s, pos + 1, count + 1)
    ensures SearchIsFirst(s, pos, count)
  {
    var pair := if IsPairUnit(s, pos) then Search(s, pos + 2, count + 1) else None;
    var letter := pos < |s| && IsLetter(s[pos]);
    var single := if letter then Search(s, pos + 1, count + 1) else None;
    var r := Search(s, pos, count);
    assert r == if pair.Some? then pair else single;
    if pair.Some? {
      ExtendSearch(s, pos, count, 2);
    } else if single.Some? {
      ExtendSearch(s, pos, count, 1);
    } else {
      forall v | Candidate(s, pos, count, v) ensures false {
        assert v != [] by { assert v == [] ==> SeqEnd(pos, v) == pos; }
        CandidateRest(s, pos, count, v);
      }
    }
  }

  /** Search stops at the end of the first candidate in backtracking order,
      and finds nothing exactly when there is no candidate. */
  lemma {:induction false} SearchFirst(s: string, pos: nat, count: nat)
    requires pos <= |s| && count <= MaxUnits
    ensures SearchIsFirst(s, pos, count)
    decreases MaxUnits - count
  {
    if count >= 1 && TailStarts(s, pos) {
      assert FirstUnits(s, pos, count, []) && SeqEnd(pos, []) == pos;
    } else if count == MaxUnits {
      assert Search(s, pos, count).None?;
      forall ls ensures !Candidate(s, pos, count, ls) {
        assert ls == [] ==> SeqEnd(pos, ls) == pos;
      }
    } else {
      if IsPairUnit(s, pos) {
        SearchFirst(s, pos + 2, count + 1);
      }
      if pos < |s| && IsLetter(s[pos]) {
        SearchFirst(s, pos + 1, count + 1);
      }
      SearchFirstStep(s, pos, count);
    }
  }

  /** The match that the pattern reports when it is tried at `p`. */
  function MatchAt(s: string, p: nat): (r: Option<Match>)
    requires p <= |s|
    ensures r.Some? ==> r.value.start == p && IsMatch(s, r.value) && WellFormed(s, r.value)
    ensures r.Some? <==> MatchesAt(s, p)
    ensures r.Some? ==> Reported(s, r.value)
  {
    if IsT28At(s, p) && TailStarts(s, p + 3) then
      var t := Tail(s, p + 3);
      Some(Match(p, p + 3, t.0, t.1))
    else
      var h := Search(s, p, 0);
      SearchFirst(s, p, 0);
      if h.Some? then
        var t := Tail(s, h.value.prefixEnd);
        Some(Match(p, h.value.prefixEnd, t.0, t.1))
      else
        None
  }

  /** The spans of a match lie in order inside the text. */
  predicate WellFormed(s: string, m: Match)
  {
    m.start < m.prefixEnd <= m.numStart && m.numStart + 2 <= m.end <= |s|
  }

  /** regexp.FindStringSubmatch from `from` on: the leftmost match. */
  function FindFrom(s: string, from: nat): (r: Option<Match>)
    requires from <= |s|
    decreases |s| - from
    ensures r.Some? ==> from <= r.value.start && IsMatch(s, r.value) && WellFormed(s, r.value)
    ensures r.Some? ==> Reported(s, r.value)
  {
    var m := MatchAt(s, from);
    if m.Some? then m
    else if from == |s| then None
    else FindFrom(s, from + 1)
  }

  /** The pattern matches at no position in [a, b). */
  ghost predicate NoMatchIn(s: string, a: nat, b: nat)
  {
    forall p :: a <= p < b ==> !MatchesAt(s, p)
  }

  /** FindFrom finds the leftmost position from `from` on where the pattern
      matches, and nothing exactly when it matches nowhere from there. */
  lemma {:induction false} FindFromLeftmost(s: string, from: nat)
    requires from <= |s|
    ensures FindFrom(s, from).Some? ==>
      MatchesAt(s, FindFrom(s, from).value.start) && NoMatchIn(s, from, FindFrom(s, from).value.start)
    ensures FindFrom(s, from).None? ==> NoMatchIn(s, from, |s| + 1)
    decreases |s| - from
  {
    var m := MatchAt(s, from);
    if m.Some? {
      assert FindFrom(s, from) == m;
    } else if from == |s| {
      assert FindFrom(s, from).None?;
    } else {
      FindFromLeftmost(s, from + 1);
      assert FindFrom(s, from) == FindFrom(s, from + 1);
    }
  }

  /** regexp.FindStringSubmatch: the match that is reported at the leftmost
      position where the pattern matches, and none exactly when the pattern
      matches nowhere. */
  function FindFirst(s: string): (r: Option<Match>)
    ensures r.Some? ==> IsMatch(s, r.value) && WellFormed(s, r.value) && Reported(s, r.value)
    ensures r.Some? ==> forall p :: 0 <= p < r.value.start ==> !MatchesAt(s, p)
    ensures r.None? <==> forall p :: 0 <= p <= |s| ==> !MatchesAt(s, p)
  {
    FindFromLeftmost(s, 0);
    FindFrom(s, 0)
  }

  /** regexp.FindAllStringSubmatch from `from` on: successive
      non-overlapping matches, each search resuming where the last match ended. */
  function FindAllFrom(s: string, from: nat): (ms: seq<Match>)
    requires from <= |s|
    decreases |s| - from
    ensures forall i :: 0 <= i < |ms| ==> WellFormed(s, ms[i]) && from <= ms[i].start
    ensures forall i :: 0 < i < |ms| ==> ms[i - 1].end <= ms[i].start
  {
    var m := FindFrom(s, from);
    if m.None? then []
    else
      var rest := FindAllFrom(s, m.value.end);
      assert ([m.value] + rest)[1..] == rest;
      [m.value] + rest
  }

  /** Every match in `ms` is a match of the pattern, with the groups Go
      reports at its start. */
  ghost predicate AllReported(s: string, ms: seq<Match>)
    decreases |ms|
  {
    ms == [] || (IsMatch(s, ms[0]) && Reported(s, ms[0]) && AllReported(s, ms[1..]))
  }

  /** regexp.FindAllStringSubmatch with no limit: the first match, further
      matches in order until none is left, each with the groups Go reports at
      its start. FindAllFromChain shows that each match after the first is the
      leftmost one from where the previous one ended, and FindAllFromEnds that
      none is left after the last. */
  function FindAll(s: string): (ms: seq<Match>)
    ensures forall i :: 0 <= i < |ms| ==> WellFormed(s, ms[i])
    ensures AllReported(s, ms)
    ensures forall i :: 0 < i < |ms| ==> ms[i - 1].end <= ms[i].start
    ensures ms == [] <==> FindFirst(s).None?
    ensures ms != [] ==> ms[0] == FindFirst(s).value
  {
    FindAllFromSound(s, 0);
    FindAllFrom(s, 0)
  }

  /** Capture group 1. */
  function Prefix(s: string, m: Match): string
    requires WellFormed(s, m)
  {
    s[m.start..m.prefixEnd]
  }

  /** Capture group 2: the number with its leading zeros. */
  function Number(s: string, m: Match): string
    requires WellFormed(s, m)
  {
    s[m.numStart..m.end]
  }

  /** The integer that group 2 denotes. */
  function NumberValue(s: string, m: Match): (v: nat)
    requires IsMatch(s, m) && WellFormed(s, m)
    ensures AllDigits(Number(s, m)) && v == Value(Number(s, m)) && v < 100000
  {
    NumberValueBound(s, m);
    Value(Number(s, m))
  }

  // ---------------------------------------------------------------------
  // Lemmas

  /** The cheap test the search uses holds exactly when group 2 can follow. */
  lemma TailStartsSpan(s: string, j: nat)
    requires j <= |s|
    ensures TailStarts(s, j) <==> exists a, b :: TailSpan(s, j, a, b)
  {
    if TailStarts(s, j) {
      var t := Tail(s, j);
      assert TailSpan(s, j, t.0, t.1);
    }
    if a: nat, b: nat :| TailSpan(s, j, a, b) {
      assert IsDigit(s[a]) && IsDigit(s[a + 1]);
    }
  }

  /** Every match that FindAll reports is a match of the pattern, with the
      groups that Go reports at its start. */
  lemma {:induction false} FindAllFromSound(s: string, from: nat)
    requires from <= |s|
    ensures AllReported(s, FindAllFrom(s, from))
    decreases |s| - from
  {
    var m := FindFrom(s, from);
    if m.Some? {
      var rest := FindAllFrom(s, m.value.end);
      FindAllFromSound(s, m.value.end);
      assert FindAllFrom(s, from) == [m.value] + rest;
      assert ([m.value] + rest)[1..] == rest;
    }
  }

  /** FindAll starts with the leftmost match from `from`, is empty exactly
      when there is none, and no match follows its last one. */
  lemma {:induction false} FindAllFromEnds(s: string, from: nat)
    requires from <= |s|
    ensures var ms := FindAllFrom(s, from);
      (ms == [] <==> FindFrom(s, from).None?) &&
      (ms != [] ==> FindFrom(s, from) == Some(ms[0]) && FindFrom(s, ms[|ms| - 1].end).None?)
    decreases |s| - from
  {
    var m := FindFrom(s, from);
    var ms := FindAllFrom(s, from);
    if m.None? {
      assert ms == [];
    } else {
      var rest := FindAllFrom(s, m.value.end);
      assert ms == [m.value] + rest;
      FindAllFromEnds(s, m.value.end);
      if rest == [] {
        assert ms[|ms| - 1] == m.value;
      } else {
        assert ms[|ms| - 1] == rest[|rest| - 1];
      }
    }
  }

  /** Each match FindAll reports after the first is the leftmost match from
      where the previous one ended. */
  lemma {:induction false} FindAllFromChain(s: string, from: nat)
    requires from <= |s|
    ensures var ms := FindAllFrom(s, from);
      forall i :: 0 < i < |ms| ==> FindFrom(s, ms[i - 1].end) == Some(ms[i])
    decreases |s| - from
  {
    var m := FindFrom(s, from);
    var ms := FindAllFrom(s, from);
    if m.None? {
      assert ms == [];
    } else {
      var rest := FindAllFrom(s, m.value.end);
      assert ms == [m.value] + rest;
      FindAllFromChain(s, m.value.end);
      FindAllFromEnds(s, m.value.end);
      forall i | 0 < i < |ms| ensures FindFrom(s, ms[i - 1].end) == Some(ms[i]) {
        if i == 1 {
          assert ms[0] == m.value && ms[1] == rest[0];
        } else {
          assert ms[i] == rest[i - 1] && ms[i - 1] == rest[i - 2];
        }
      }
    }
  }

  /** Of two different unit runs from the same position, one is tried first. */
  lemma {:induction false} BeforeTotal(s: string, i: nat, u: seq<nat>, v: seq<nat>)
    requires UnitSeq(s, i, u) && UnitSeq(s, i, v) && u != v
    ensures Before(u, v) || Before(v, u)
    decreases |u|
  {
    if u != [] && v != [] && u[0] == v[0] {
      assert u == [u[0]] + u[1..] && v == [v[0]] + v[1..];
      BeforeTotal(s, i + u[0], u[1..], v[1..]);
    }
  }

  /** The reported match at a position is unique: Reported fixes both groups. */
  lemma ReportedUnique(s: string, m: Match, m': Match)
    requires Reported(s, m) && Reported(s, m') && m.start == m'.start
    ensures m == m'
  {
    var p := m.start;
    if !(IsT28At(s, p) && TailStarts(s, p + 3)) {
      var ls :| FirstUnits(s, p, 0, ls) && m.prefixEnd == SeqEnd(p, ls);
      var ls' :| FirstUnits(s, p, 0, ls') && m'.prefixEnd == SeqEnd(p, ls');
      assert ls == ls' by {
        if ls != ls' {
          BeforeTotal(s, p, ls, ls');
        }
      }
    }
    assert m.prefixEnd == m'.prefixEnd;
  }

  /** "s23d12": the pair units `s2`, `3d` are taken before a single letter, so
      group 1 is "s23d" and group 2 "12" (not "s" and "23"). */
  lemma PairBeforeLetter(s: string)
    requires s == "s23d12"
    ensures FindFirst(s) == Some(Match(0, 4, 4, 6))
  {
    assert Search(s, 4, 2) == Some(Stop(4, 2));
    assert Search(s, 2, 1) == Some(Stop(4, 2));
    assert Search(s, 0, 0) == Some(Stop(4, 2));
    assert NumberEnd(s, 4) == 6;
    assert MatchAt(s, 0) == Some(Match(0, 4, 4, 6));
    assert FindFrom(s, 0) == MatchAt(s, 0);
  }

  /** "t2812": the literal `t28` is group 1 and "12" group 2. */
  lemma T28First(s: string)
    requires s == "t2812"
    ensures FindFirst(s) == Some(Match(0, 3, 3, 5))
  {
    assert NumberEnd(s, 3) == 5;
    assert MatchAt(s, 0) == Some(Match(0, 3, 3, 5));
    assert FindFrom(s, 0) == MatchAt(s, 0);
  }

  /** "ab0000012345": `0*` takes all five zeros, so group 2 is
      "0000012345" and not "00000". */
  lemma ZerosTakenFirst(s: string)
    requires s == "ab0000012345"
    ensures FindFirst(s) == Some(Match(0, 2, 2, 12))
  {
    assert Search(s, 2, 2) == Some(Stop(2, 2));
    assert Search(s, 1, 1) == Some(Stop(2, 2));
    assert Search(s, 0, 0) == Some(Stop(2, 2));
    assert ZeroRun(s, 7) == 0;
    assert ZeroRun(s, 2) == 5;
    assert DigitRun(s, 12) == 0;
    assert DigitRun(s, 7) == 5;
    assert DigitRun(s, 2) == 10;
    assert NumberEnd(s, 2) == 12;
    assert MatchAt(s, 0) == Some(Match(0, 2, 2, 12));
    assert FindFrom(s, 0) == MatchAt(s, 0);
  }

  /** "ab1234567": `\d{2,5}` stops after five digits, so group 2 is "12345". */
  lemma FiveDigitsAtMost(s: string)
    requires s == "ab1234567"
    ensures FindFirst(s) == Some(Match(0, 2, 2, 7))
  {
    assert Search(s, 2, 2) == Some(Stop(2, 2));
    assert Search(s, 1, 1) == Some(Stop(2, 2));
    assert Search(s, 0, 0) == Some(Stop(2, 2));
    assert ZeroRun(s, 2) == 0;
    assert DigitRun(s, 9) == 0;
    assert DigitRun(s, 5) == 4;
    assert DigitRun(s, 2) == 7;
    assert NumberEnd(s, 2) == 7;
    assert MatchAt(s, 0) == Some(Match(0, 2, 2, 7));
    assert FindFrom(s, 0) == MatchAt(s, 0);
  }

  /** A unit run from `i` cannot step over position `b` when no unit starts
      at `b` and no two-character unit starts just before it. */
  lemma {:induction false} UnitsStopAt(s: string, i: nat, j: nat, n: nat, b: nat)
    requires i <= b && UnitsSpan(s, i, j, n)
    requires !UnitAt(s, b, 1) && !UnitAt(s, b, 2)
    requires b == 0 || !UnitAt(s, b - 1, 2)
    ensures j <= b
    decreases n
  {
    if n > 0 {
      if UnitAt(s, i, 1) && UnitsSpan(s, i + 1, j, n - 1) {
        UnitsStopAt(s, i + 1, j, n - 1, b);
      } else {
        UnitsStopAt(s, i + 2, j, n - 1, b);
      }
    }
  }

  lemma Pow10Five(k: nat)
    requires k <= 5
    ensures Pow10(k) <= 100000
  {
    assert Pow10(1) == 10;
    assert Pow10(2) == 100;
    assert Pow10(3) == 1000;
    assert Pow10(4) == 10000;
    assert Pow10(5) == 100000;
  }

  /** Group 2 of any match is a digit string of at least two characters
      whose value is below 100000 (at most five significant digits). */
  lemma NumberValueBound(s: string, m: Match)
    requires IsMatch(s, m) && WellFormed(s, m)
    ensures AllDigits(Number(s, m)) && |Number(s, m)| >= 2 && Value(Number(s, m)) < 100000
  {
    var num := Number(s, m);
    var z: nat :| ZerosThenShort(s, m.numStart, m.end, z);
    assert AllDigits(num) by {
      forall i | 0 <= i < |num| ensures IsDigit(num[i]) {
        assert num[i] == s[m.numStart + i];
      }
    }
    assert AllZeros(num[..z]) by {
      forall i | 0 <= i < z ensures num[..z][i] == '0' {
        assert num[..z][i] == s[m.numStart + i];
      }
    }
    assert num == num[..z] + num[z..];
    ValueIgnoresLeadingZeros(num[..z], num[z..]);
    ValueBound(num[z..]);
    Pow10Five(|num[z..]|);
  }
}
