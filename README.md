# dmm.go catalog-code handling, in Dafny

This project models the part of the DMM scraper (`dmm.go`) that has real logic:
- the catalog-code pattern `dmmRe`, written out as a hand-made leftmost-first matcher;
- `dmmGuess`, which expands a free-form query into zero-padded keyword variants;
- `dmmIsCodeEqual`, the fail-closed equality test that rejects false search hits;
- `dmmParseCode`, which canonicalises a scraped code to `PREFIX-DIGITS`;
- the record assembly of `dmmParse`: header fields, the cover fallback, the row-by-row label dispatch into a `MovieMeta`, and the emit decision;
- the keyword trim `(?i)[a-z].*` of `dmmSearchKeyword`.

Modules:
- `Text` (text.dfy) holds the library behaviour the code relies on: ASCII character classes, `strings.ToUpper`, `HasPrefix`, `Contains`, `TrimSpace`, `strconv.Atoi` on a 64-bit `int`, and `fmt`'s `%0Ns` as a zero left-pad to a minimum width.
- `CodePattern` (code_pattern.dfy) holds the `dmmRe` matcher. It is proved against ghost predicates that describe which spans the pattern can match and which one Go's backtracking order reports: the search finds a match exactly when one exists, at the leftmost position, with the groups a leftmost-first matcher gives.
- `CanonicalCode` (canonical_code.dfy) holds the matcher for `((?:3d|2d|[a-z])+)(\d+)` and `ParseCode`.
- `Dmm` (dmm.dfy) holds `Guess`, whose loop over the matches (`CollectKeywords`) adds to a set, plus `IsCodeEqual` and `SearchTerm`.
- `DetailPage` (detail_page.dfy) holds `ParseDetail`, an imperative method that builds the record field by field over the table rows. It is proved equal to a fold `Assemble`, whose properties are lemmas.

The document queries are abstracted. A `Page` holds only what the selectors return:
- the headline text;
- the `src` of the sample image;
- the `href` of the sample link, if it has one;
- the table rows, each as (label-cell text, next-cell text, link texts of the next cell).

Behaviour of `dmm.go` a reader may not expect:
- Prefixes are compared exactly, so case matters (`Dmm.IsCodeEqualCaseSensitive`), even though the pattern itself ignores case.
- "FC2-917114" is not matched by `dmmRe` at all, so `dmmIsCodeEqual` rejects it against every code (`Dmm.Fc2CodeNeverEqual`). Group 1 holds a digit only inside a `3d`, `2d` or `s2` unit or the literal `t28`; the "2" of "FC2" is neither followed by `d` nor preceded by `s`.
- A scraped code is not always `UPPER-DIGITS`: when the simpler pattern does not match, `dmmParseCode` returns its input unchanged (`CanonicalCode.ParseCode`).
- A release date made only of dashes leaves `ReleaseDate` at its earlier value (empty, or the value of an earlier date row). It does not clear the field (`DetailPage.FoldRowsLastWrite`, `DetailPage.AssembleReleaseDate`).

## Model

| member | source | states |
|---|---|---|
| Text.ToUpper | dmm.go:37 | same length; every ASCII lower-case letter becomes upper case, everything else is kept |
| Text.HasPrefix | dmm.go:110 | `strings.HasPrefix`: the text starts with the given prefix (a definition, used by `Cover`) |
| Text.Contains | dmm.go:118-147 | `strings.Contains`: the text occurs at some position (a definition, used by `FieldOf`) |
| Text.TrimSpace | dmm.go:119 | the result is a slice of the input with only white space cut off both ends, and it neither starts nor ends with white space |
| Text.Atoi | dmm.go:55-63 | a non-empty digit string whose value fits in int64 parses to that value; the empty string fails; every result lies in the int64 range |
| Text.PadLeft | dmm.go:39-41 | `%0Ns`: the length is the width, or the input's length when that is longer (never truncates) |
| Text.PadLeftShape | dmm.go:39-41 | the padded text is some '0' characters followed by the input itself |
| Text.PadLeftValue | dmm.go:39-41 | padding a digit string keeps it a digit string of the same value |
| Text.ValueIgnoresLeadingZeros | dmm.go:55-65 | leading zeros do not change the value of a digit string |
| CodePattern.NumberEnd | dmm.go:30 | `0*(\d{2,5})` from a position with two digits: the span has the right shape (zeros, then two to five digits), and no span of that shape from there ends later |
| CodePattern.Tail | dmm.go:30 | `[-_]?(0*(\d{2,5}))`: a valid group-2 span after the optional separator; every such span starts where this one does (the separator is taken whenever it can be) and ends no later |
| CodePattern.TailStartsSpan | dmm.go:30 | the two-digit look-ahead the search uses holds exactly when some separator-plus-number span can follow |
| CodePattern.Search | dmm.go:30 | the lazy `{1,7}?` run stops at a valid unit split followed by a number; when it fails, no split of 1 to 7 units from there is followed by a number |
| CodePattern.SearchFirst | dmm.go:30 | the run stops at the end of the first candidate in backtracking order (stop before taking a unit, `3d`/`2d`/`s2` before a single letter), and finds nothing exactly when no run is followed by a number |
| CodePattern.BeforeTotal | dmm.go:30 | of two different unit runs from one position, one is tried before the other |
| CodePattern.ReportedUnique | dmm.go:30 | the groups of the reported match are fixed by its start position |
| CodePattern.MatchAt | dmm.go:30 | a match is reported at `p` exactly when the pattern can match at `p`; it is `t28` when a number can follow that, else the first unit run in backtracking order, then the separator if present, then the longest number |
| CodePattern.FindFrom | dmm.go:47 | any match found starts at or after the search start, is well formed and has the groups Go reports at its start |
| CodePattern.FindFromLeftmost | dmm.go:47 | the match found is at the leftmost position where the pattern matches; none is found exactly when it matches nowhere |
| CodePattern.FindFirst | dmm.go:47-48 | `FindStringSubmatch`: the reported match at the leftmost matching position, or none exactly when the pattern matches nowhere |
| CodePattern.FindAllFrom | dmm.go:34 | all matches are well formed and non-overlapping, in order |
| CodePattern.FindAll | dmm.go:34 | `FindAllStringSubmatch`: every match has the groups Go reports at its start; matches are in order, empty exactly when there is no first match, and start with the first match |
| CodePattern.FindAllFromEnds | dmm.go:34 | the list starts with the leftmost match, is empty exactly when there is none, and nothing matches after its last match |
| CodePattern.FindAllFromChain | dmm.go:34 | each later match is the leftmost one from where the previous match ended |
| CodePattern.FindAllFromSound | dmm.go:34 | every listed match is a match of the pattern with the groups Go reports at its start |
| CodePattern.PairBeforeLetter | dmm.go:30 | "s23d12" gives group 1 "s23d" and group 2 "12": `s2` is tried before the letter `s` |
| CodePattern.T28First | dmm.go:30 | "t2812" gives group 1 "t28" and group 2 "12" |
| CodePattern.ZerosTakenFirst | dmm.go:30 | "ab0000012345" gives group 2 "0000012345": `0*` takes the zeros before `\d{2,5}` |
| CodePattern.FiveDigitsAtMost | dmm.go:30 | "ab1234567" gives group 2 "12345": at most five digits after the zeros |
| CodePattern.UnitsStopAt | dmm.go:30 | a unit run cannot cross a position where no unit starts and no two-character unit starts just before it |
| CodePattern.NumberValueBound | dmm.go:55-63 | group 2 is a digit string of at least two characters with a value below 100000 |
| CodePattern.NumberValue | dmm.go:55-60 | the integer group 2 denotes, bounded below 100000 |
| CanonicalCode.GreedyStop | dmm.go:160 | the greedy run of `3d`, `2d` or letter units stops at the farthest unit boundary that is followed by a digit, or reports none when no boundary is |
| CanonicalCode.CodeMatchAt | dmm.go:160-161 | a match is reported at `p` exactly when the pattern matches there; it has the longest prefix and the whole digit run |
| CanonicalCode.CodeFindFrom | dmm.go:161 | the leftmost match from a position, or none when nothing matches from there |
| CanonicalCode.CodeFindFirst | dmm.go:161 | none exactly when the pattern matches nowhere; otherwise the reported match at the leftmost matching position |
| CanonicalCode.ParseCode | dmm.go:159-166 | with no match, the input unchanged; otherwise the upper-cased group 1, a dash and group 2 of the match at the leftmost matching position |
| CanonicalCode.LetterCodeIsFixed | dmm.go:159-166 | a code of letters, a dash and digits is returned unchanged |
| CanonicalCode.ParseCodeLettersIdempotent | dmm.go:159-166 | a second ParseCode changes nothing when the first found a prefix of letters only |
| CanonicalCode.ParseCodeThreeD | dmm.go:160-163 | "ab3d123" becomes "AB3D-123" |
| CanonicalCode.ParseCodeThreeDAgain | dmm.go:160-163 | "AB3D-123" becomes "AB-3": ParseCode is not idempotent once a `3d` unit is in the prefix |
| Dmm.Variant | dmm.go:37-41 | one keyword: upper-cased group 1, a dash, group 2 padded with '0' to a width (a definition) |
| Dmm.VariantShape | dmm.go:37-41 | a keyword reads back as the upper-cased group 1, a dash, only zeros, and group 2 at the end; it is group 2's length or the width long after the dash, whichever is more |
| Dmm.MatchVariants | dmm.go:39-41 | one match adds one to three keywords: exactly three when group 2 has at most three digits, a single one when it has five |
| Dmm.Variants | dmm.go:36-42 | a keyword is produced exactly when it is one of the variants of some match; at most three keywords per match |
| Dmm.Guess | dmm.go:33-44 | the keyword set is the variants of all matches `FindAll` reports |
| Dmm.CollectKeywords | dmm.go:36-42 | the loop adds, match by match, that match's three keywords, and ends with the variants of all matches |
| Dmm.GuessSummary | dmm.go:33-44 | the set is empty exactly when the query has no match |
| Dmm.PaddedNumber | dmm.go:38-41 | the number part of a keyword has at least `width` (so at least 3) digits, ends with the captured number and has the same value |
| Dmm.IsCodeEqual | dmm.go:46-66 | false when either side has no match; otherwise true exactly when the prefixes are equal as strings and the numbers are equal as integers |
| Dmm.IsCodeEqualSymmetric | dmm.go:46-66 | the result does not depend on the order of the arguments |
| Dmm.IsCodeEqualReflexive | dmm.go:46-66 | a code equals itself exactly when it matches the pattern |
| Dmm.IsCodeEqualIgnoresZeros | dmm.go:55-65 | codes whose numbers differ only by leading zeros are equal |
| Dmm.ZeroPaddedFirstMatch | dmm.go:47-48 | in "ab-0000012345" group 1 is "ab" and group 2 runs from after the dash to the end |
| Dmm.ZeroPaddedNumber | dmm.go:47-48 | that group 2 is five zeros followed by "12345" |
| Dmm.PlainFirstMatch | dmm.go:47-48 | in "ab-12345" group 1 is "ab" and group 2 is "12345" |
| Dmm.ZeroPaddedCodesEqual | dmm.go:46-65 | "ab-0000012345" and "ab-12345" are equal codes |
| Dmm.AbcFirstMatch | dmm.go:47-48 | in "abc-123" and "ABC-123" group 1 is the three letters and group 2 is "123" |
| Dmm.IsCodeEqualCaseSensitive | dmm.go:52-54 | "abc-123" and "ABC-123" are not equal, because prefixes are compared exactly |
| Dmm.Fc2PrefixEnds | dmm.go:30 | in "FC2-917114" no possible group 1 reaches past the "2" |
| Dmm.Fc2CodeNeverEqual | dmm.go:47-51 | "FC2-917114" has no match, so it is unequal to every code on either side |
| Dmm.FirstLetter | dmm.go:73 | the first ASCII letter at or after a position, and none when there is none |
| Dmm.LineEnd | dmm.go:73 | the first line feed at or after a position, or the end of the text; no line feed before it |
| Dmm.SearchTerm | dmm.go:73 | empty exactly when the keyword has no letter; otherwise the text from the first letter up to the end of its line |
| DetailPage.FieldOf | dmm.go:118-147 | a row label selects the first field, in chain order, whose label text it contains, and none when it contains none |
| DetailPage.FieldOfChain | dmm.go:118-147 | the field selection is the source's `if/else if` chain of `strings.Contains` tests |
| DetailPage.IsDashes | dmm.go:120 | `^-+$`: one or more dashes and nothing else (a definition) |
| DetailPage.Cover | dmm.go:109-112 | the cover is the thumbnail when the href is missing or starts with "javascript", and the href otherwise |
| DetailPage.Header | dmm.go:104-112 | before the table is read the record holds the URL, headline, thumbnail and cover, and every table field is empty |
| DetailPage.ApplyRow | dmm.go:114-150 | one row never changes the page, title or images, and a row whose label selects nothing changes nothing |
| DetailPage.ApplyRowChain | dmm.go:118-149 | one row changes the record exactly as the chain of tests in the row callback does |
| DetailPage.ApplyRowEffect | dmm.go:113-150 | a row writes at most one field, the one it selects (nothing for a dash-only date) |
| DetailPage.FoldRows | dmm.go:113-150 | applying the rows in order never changes the page, title or images |
| DetailPage.Assemble | dmm.go:104-150 | the page is the URL, the title the headline, and the cover the href unless it is missing or a javascript link, in which case the thumbnail |
| DetailPage.ParseDetail | dmm.go:104-156 | the record built field by field equals `Assemble`; the record is emitted exactly when `IsCodeEqual(keyword, code)` holds |
| DetailPage.LastWrite | dmm.go:113-150 | the last row that writes a field, and that no later row writes it |
| DetailPage.FoldRowsLastWrite | dmm.go:113-150 | each field ends up with what the last row writing it wrote, or keeps its earlier value |
| DetailPage.AssembleReleaseDate | dmm.go:118-123 | the release date is empty or the trimmed text of a date row, and it is never a dash run |
| DetailPage.AssembleCode | dmm.go:147-148 | the code is ParseCode of the last product-number row's value, or empty when there is no such row |
| DetailPage.EmittedNeedsCodeRow | dmm.go:152-156 | a record is emitted only if the table has a product-number row |

## Left out

- Fetching and parsing pages (`newDocument`, `httpx.GetContentInUTF8`, `http.Get`, dmm.go:77-81, 98-102) is network I/O. A fetch error means no record; the model starts from the fetched page.
- `dmmSearch` and `dmmSearchKeyword` (dmm.go:18-27, 83-93) are goroutine fan-out with a `sync.WaitGroup`. The channel send (dmm.go:155) is modelled only as the `emitted` result of `ParseDetail`.
- The goquery selector calls (`Find`, `Each`, `Map`, `Attr`, `Next`) are replaced by the `Page` and `Row` values they produce. A missing `src` on the sample image reads as "".
- The search URL built with `url.QueryEscape` (dmm.go:70-72) is not modelled; only the keyword trim (dmm.go:73) is, as `SearchTerm`.
- `glog` logging is a write-only side effect and is left out.
- `mapset.Set` is modelled as a `set<string>`, so iteration order is not modelled.
- Case folding is ASCII only. Go's `(?i)` also folds U+017F into `s` and U+212A into `k`, and `strings.ToUpper` also upper-cases non-ASCII letters.
- `fmt` itself is not modelled; `%0Ns` on a string is modelled as a zero left-pad to a minimum width.
- The `MovieMeta` declaration is not part of this model. Its fields are taken from their uses in `dmmParse`.
- fc2_test.go and mgstage_test.go test other scrapers over the network and are not part of this model.
- Dmm.IsCodeEqual: the two `strconv.Atoi` error branches (dmm.go:56-59, 61-64) are kept in the body but proved unreachable, because group 2 is a digit string whose value is below 100000.
