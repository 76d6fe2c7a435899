/** Record assembly in dmmParse (dmm.go:104-156): a product page, reduced
    to what the scraper reads from it, is turned into a MovieMeta, and the
    record is emitted only when its catalog code equals the keyword that
    found the page. The document queries (goquery selectors) are replaced by
    their results: the headline text, the `src` of the sample image, the
    `href` of the sample link when it has one, and the rows of the detail
    table, each with the text of its first cell, the text of the next cell
    and the texts of the links in that next cell. */
module DetailPage {
  import opened Text
  import opened CanonicalCode
  import Dmm
  import CodePattern

  /** The fields of a movie record that dmm.go sets. */
  datatype MovieMeta = MovieMeta(
    page: string,
    title: string,
    thumbnailImage: string,
    coverImage: string,
    releaseDate: string,
    movieLength: string,
    actresses: seq<string>,
    directors: seq<string>,
    series: string,
    maker: string,
    labelName: string,   // the record's Label field
    genres: seq<string>,
    code: string)

  /** Go's zero value of the record. */
  const EmptyMeta := MovieMeta("", "", "", "", "", "", [], [], "", "", "", [], "")

  /** One row of the detail table. */
  datatype Row = Row(heading: string, value: string, anchors: seq<string>)

  /** What the scraper reads from a product page. An absent `src` reads as "". */
  datatype Page = Page(title: string, thumbnail: string, coverHref: Option<string>, rows: seq<Row>)

  /** The record fields that a table row can set. */
  datatype Field = ReleaseDate | MovieLength | Actresses | Directors | Series | Maker | Label | Genres | Code

  /** The value of a field, text or a list of link texts. */
  datatype FieldValue = Text(text: string) | Texts(texts: seq<string>)

  function Get(meta: MovieMeta, f: Field): FieldValue
  {
    match f
    case ReleaseDate => Text(meta.releaseDate)
    case MovieLength => Text(meta.movieLength)
    case Actresses => Texts(meta.actresses)
    case Directors => Texts(meta.directors)
    case Series => Text(meta.series)
    case Maker => Text(meta.maker)
    case Label => Text(meta.labelName)
    case Genres => Texts(meta.genres)
    case Code => Text(meta.code)
  }

  // ---------------------------------------------------------------------
  // The label table

  /** The fields in the order the row labels are tested. */
  const Order: seq<Field> := [ReleaseDate, MovieLength, Actresses, Directors, Series, Maker, Label, Genres, Code]

  /** The label texts that select each field. */
  function Labels(f: Field): seq<string>
  {
    match f
    case ReleaseDate => ["開始日", "発売日"]
    case MovieLength => ["収録時間"]
    case Actresses => ["出演者"]
    case Directors => ["監督"]
    case Series => ["シリーズ"]
    case Maker => ["メーカー"]
    case Label => ["レーベル"]
    case Genres => ["ジャンル"]
    case Code => ["品番"]
  }

  /** The row label contains one of the texts that select `f`. */
  predicate Mentions(heading: string, f: Field)
  {
    exists j :: 0 <= j < |Labels(f)| && Contains(heading, Labels(f)[j])
  }

  /** `r` is the first field in table order that the heading mentions, and
      none when it mentions none. */
  ghost predicate FirstMentioned(heading: string, r: Option<Field>)
  {
    (r.Some? ==>
      Mentions(heading, r.value) && forall j :: 0 <= j < OrderIndex(r.value) ==> !Mentions(heading, Order[j])) &&
    (r.None? <==> forall f :: !Mentions(heading, f))
  }

  /** The field a row with this heading sets. */
  function FieldOf(heading: string): (r: Option<Field>)
    ensures FirstMentioned(heading, r)
  {
    if Mentions(heading, ReleaseDate) then Some(ReleaseDate)
    else if Mentions(heading, MovieLength) then Some(MovieLength)
    else if Mentions(heading, Actresses) then Some(Actresses)
    else if Mentions(heading, Directors) then Some(Directors)
    else if Mentions(heading, Series) then Some(Series)
    else if Mentions(heading, Maker) then Some(Maker)
    else if Mentions(heading, Label) then Some(Label)
    else if Mentions(heading, Genres) then Some(Genres)
    else if Mentions(heading, Code) then Some(Code)
    else
      assert forall f :: !Mentions(heading, f) by {
        forall f ensures !Mentions(heading, f) {
          assert Order[OrderIndex(f)] == f;
        }
      }
      None
  }

  /** Where a field stands in the table. */
  function OrderIndex(f: Field): (k: nat)
    ensures k < |Order| && Order[k] == f
  {
    match f
    case ReleaseDate => 0
    case MovieLength => 1
    case Actresses => 2
    case Directors => 3
    case Series => 4
    case Maker => 5
    case Label => 6
    case Genres => 7
    case Code => 8
  }

  /** `^-+$`: one or more dashes and nothing else. */
  predicate IsDashes(s: string)
  {
    |s| > 0 && forall i :: 0 <= i < |s| ==> s[i] == '-'
  }

  // ---------------------------------------------------------------------
  // Assembling the record

  /** The cover image: the sample link's `href`, unless it is missing or a
      `javascript` link, in which case the thumbnail. */
  function Cover(thumbnail: string, href: Option<string>): (r: string)
    ensures r == thumbnail || (href.Some? && r == href.value)
    ensures HasPrefix(r, "javascript") ==> r == thumbnail
    ensures href.None? ==> r == thumbnail
    ensures href.Some? && !HasPrefix(href.value, "javascript") ==> r == href.value
  {
    if href.None? || HasPrefix(href.value, "javascript") then thumbnail else href.value
  }

  /** The record before the table is read: the page address, the headline,
      the thumbnail and the cover, and every table field still empty. */
  function Header(url: string, page: Page): (r: MovieMeta)
    ensures r.page == url && r.title == page.title && r.thumbnailImage == page.thumbnail
    ensures r.coverImage == Cover(page.thumbnail, page.coverHref)
    ensures forall f :: Get(r, f) == Get(EmptyMeta, f)
  {
    EmptyMeta.(page := url, title := page.title, thumbnailImage := page.thumbnail,
               coverImage := Cover(page.thumbnail, page.coverHref))
  }

  /** The effect of one table row: it never changes the page, title or
      images, and a row whose heading selects nothing changes nothing;
      ApplyRowEffect gives its effect on the table fields. */
  function ApplyRow(meta: MovieMeta, row: Row): (r: MovieMeta)
    ensures r.page == meta.page && r.title == meta.title
    ensures r.thumbnailImage == meta.thumbnailImage && r.coverImage == meta.coverImage
    ensures FieldOf(row.heading).None? ==> r == meta
  {
    match FieldOf(row.heading)
    case None => meta
    case Some(f) =>
      match f
      case ReleaseDate =>
        var date := TrimSpace(row.value);
        if IsDashes(date) then meta else meta.(releaseDate := date)
      case MovieLength => meta.(movieLength := row.value)
      case Actresses => meta.(actresses := row.anchors)
      case Directors => meta.(directors := row.anchors)
      case Series => meta.(series := row.value)
      case Maker => meta.(maker := row.value)
      case Label => meta.(labelName := row.value)
      case Genres => meta.(genres := row.anchors)
      case Code => meta.(code := ParseCode(row.value))
  }

  /** The rows applied in order; they never change the page address, the
      title or the images. */
  function FoldRows(meta: MovieMeta, rows: seq<Row>): (r: MovieMeta)
    ensures r.page == meta.page && r.title == meta.title
    ensures r.thumbnailImage == meta.thumbnailImage && r.coverImage == meta.coverImage
  {
    if rows == [] then meta else ApplyRow(FoldRows(meta, rows[..|rows| - 1]), rows[|rows| - 1])
  }

  /** The record dmmParse builds from a page. Its page address, title and
      images are the URL, the headline, the thumbnail, and the sample link
      unless it is missing or a `javascript` link, in which case the
      thumbnail again. */
  function Assemble(url: string, page: Page): (r: MovieMeta)
    ensures r.page == url && r.title == page.title && r.thumbnailImage == page.thumbnail
    ensures r.coverImage ==
      if page.coverHref.None? || HasPrefix(page.coverHref.value, "javascript") then page.thumbnail
      else page.coverHref.value
  {
    FoldRows(Header(url, page), page.rows)
  }

  lemma MentionsOne(heading: string, f: Field, text: string)
    requires Labels(f) == [text]
    ensures Mentions(heading, f) <==> Contains(heading, text)
  {
    if Contains(heading, text) {
      assert Labels(f)[0] == text;
    }
  }

  /** The labels dmmParse tests, spelled as the chain of tests in the source. */
  lemma FieldOfChain(k: string)
    ensures FieldOf(k) ==
      if Contains(k, "開始日") || Contains(k, "発売日") then Some(ReleaseDate)
      else if Contains(k, "収録時間") then Some(MovieLength)
      else if Contains(k, "出演者") then Some(Actresses)
      else if Contains(k, "監督") then Some(Directors)
      else if Contains(k, "シリーズ") then Some(Series)
      else if Contains(k, "メーカー") then Some(Maker)
      else if Contains(k, "レーベル") then Some(Label)
      else if Contains(k, "ジャンル") then Some(Genres)
      else if Contains(k, "品番") then Some(Code)
      else None
  {
    assert Mentions(k, ReleaseDate) <==> Contains(k, "開始日") || Contains(k, "発売日") by {
      assert Labels(ReleaseDate)[0] == "開始日" && Labels(ReleaseDate)[1] == "発売日";
    }
    MentionsOne(k, MovieLength, "収録時間");
    MentionsOne(k, Actresses, "出演者");
    MentionsOne(k, Directors, "監督");
    MentionsOne(k, Series, "シリーズ");
    MentionsOne(k, Maker, "メーカー");
    MentionsOne(k, Label, "レーベル");
    MentionsOne(k, Genres, "ジャンル");
    MentionsOne(k, Code, "品番");
  }

  /** One row, as the chain of tests in dmmParse applies it. */
  lemma ApplyRowChain(meta: MovieMeta, row: Row)
    ensures ApplyRow(meta, row) ==
      var k := row.heading;
      if Contains(k, "開始日") || Contains(k, "発売日") then
        (if IsDashes(TrimSpace(row.value)) then meta else meta.(releaseDate := TrimSpace(row.value)))
      else if Contains(k, "収録時間") then meta.(movieLength := row.value)
      else if Contains(k, "出演者") then meta.(actresses := row.anchors)
      else if Contains(k, "監督") then meta.(directors := row.anchors)
      else if Contains(k, "シリーズ") then meta.(series := row.value)
      else if Contains(k, "メーカー") then meta.(maker := row.value)
      else if Contains(k, "レーベル") then meta.(labelName := row.value)
      else if Contains(k, "ジャンル") then meta.(genres := row.anchors)
      else if Contains(k, "品番") then meta.(code := ParseCode(row.value))
      else meta
  {
    FieldOfChain(row.heading);
  }

  /** The table rows applied one more row at a time. */
  lemma FoldRowsStep(meta: MovieMeta, rows: seq<Row>, i: nat)
    requires i < |rows|
    ensures FoldRows(meta, rows[..i + 1]) == ApplyRow(FoldRows(meta, rows[..i]), rows[i])
  {
    assert rows[..i + 1][..i] == rows[..i];
  }

  /** dmmParse after the page has been fetched: the header fields, then the
      table rows through the chain of label tests, then the accept decision. */
  method ParseDetail(url: string, keyword: string, page: Page) returns (meta: MovieMeta, emitted: bool)
    ensures meta == Assemble(url, page)
    ensures emitted == Dmm.IsCodeEqual(keyword, meta.code)
  {
    meta := EmptyMeta;
    meta := meta.(page := url);
    meta := meta.(title := page.title);
    meta := meta.(thumbnailImage := page.thumbnail);
    var ok := page.coverHref.Some?;
    meta := meta.(coverImage := if ok then page.coverHref.value else "");
    if !ok || HasPrefix(meta.coverImage, "javascript") {
      meta := meta.(coverImage := meta.thumbnailImage);
    }
    assert meta == Header(url, page);
    for i := 0 to |page.rows|
      invariant meta == FoldRows(Header(url, page), page.rows[..i])
    {
      var row := page.rows[i];
      var k := row.heading;
      ghost var before := meta;
      if Contains(k, "開始日") || Contains(k, "発売日") {
        var date := TrimSpace(row.value);
        var matched := IsDashes(date);
        if !matched {
          meta := meta.(releaseDate := date);
        }
      } else if Contains(k, "収録時間") {
        meta := meta.(movieLength := row.value);
      } else if Contains(k, "出演者") {
        meta := meta.(actresses := row.anchors);
      } else if Contains(k, "監督") {
        meta := meta.(directors := row.anchors);
      } else if Contains(k, "シリーズ") {
        meta := meta.(series := row.value);
      } else if Contains(k, "メーカー") {
        meta := meta.(maker := row.value);
      } else if Contains(k, "レーベル") {
        meta := meta.(labelName := row.value);
      } else if Contains(k, "ジャンル") {
        meta := meta.(genres := row.anchors);
      } else if Contains(k, "品番") {
        meta := meta.(code := ParseCode(row.value));
      }
      ApplyRowChain(before, row);
      FoldRowsStep(Header(url, page), page.rows, i);
    }
    assert page.rows[..|page.rows|] == page.rows;
    emitted := Dmm.IsCodeEqual(keyword, meta.code);
  }

  // ---------------------------------------------------------------------
  // What the rows do to the record

  /** The field a row actually writes: the one its heading selects, except
      that a release date made only of dashes writes nothing. */
  function Effect(row: Row): Option<Field>
  {
    match FieldOf(row.heading)
    case Some(ReleaseDate) => if IsDashes(TrimSpace(row.value)) then None else Some(ReleaseDate)
    case other => other
  }

  /** The value a row writes into field `f` when it writes that field. */
  function Written(row: Row, f: Field): FieldValue
  {
    match f
    case ReleaseDate => Text(TrimSpace(row.value))
    case MovieLength => Text(row.value)
    case Series => Text(row.value)
    case Maker => Text(row.value)
    case Label => Text(row.value)
    case Actresses => Texts(row.anchors)
    case Directors => Texts(row.anchors)
    case Genres => Texts(row.anchors)
    case Code => Text(ParseCode(row.value))
  }

  /** A row changes at most one table field, the one it writes (Effect), to
      the value it writes there (Written); a date made only of dashes writes
      nothing. */
  lemma ApplyRowEffect(meta: MovieMeta, row: Row, f: Field)
    ensures Get(ApplyRow(meta, row), f) == if Effect(row) == Some(f) then Written(row, f) else Get(meta, f)
  {
    match FieldOf(row.heading)
    case None =>
    case Some(g) =>
      if g == ReleaseDate && IsDashes(TrimSpace(row.value)) {
        assert ApplyRow(meta, row) == meta;
      }
  }

  /** The field each row writes. */
  function Effects(rows: seq<Row>): (es: seq<Option<Field>>)
    ensures |es| == |rows| && forall i :: 0 <= i < |rows| ==> es[i] == Effect(rows[i])
  {
    seq(|rows|, i requires 0 <= i < |rows| => Effect(rows[i]))
  }

  /** The last position of `Some(f)` in `es`. */
  function LastIndex(es: seq<Option<Field>>, f: Field): (r: Option<nat>)
    ensures r.Some? ==> r.value < |es| && es[r.value] == Some(f)
    ensures r.Some? ==> forall j :: r.value < j < |es| ==> es[j] != Some(f)
    ensures r.None? ==> forall j :: 0 <= j < |es| ==> es[j] != Some(f)
  {
    if es == [] then None
    else if es[|es| - 1] == Some(f) then Some(|es| - 1)
    else
      var r := LastIndex(es[..|es| - 1], f);
      assert forall j :: 0 <= j < |es| - 1 ==> es[..|es| - 1][j] == es[j];
      r
  }

  /** The last of the rows that writes field `f`. */
  function LastWrite(rows: seq<Row>, f: Field): (r: Option<nat>)
    ensures r.Some? ==> r.value < |rows| && Effect(rows[r.value]) == Some(f)
    ensures r.Some? ==> forall j :: r.value < j < |rows| ==> Effect(rows[j]) != Some(f)
    ensures r.None? ==> forall j :: 0 <= j < |rows| ==> Effect(rows[j]) != Some(f)
  {
    LastIndex(Effects(rows), f)
  }

  /** The last write wins: after the rows, a field holds what the last row
      writing it wrote, and keeps its earlier value when no row writes it. */
  lemma {:induction false} FoldRowsLastWrite(meta: MovieMeta, rows: seq<Row>, f: Field)
    ensures Get(FoldRows(meta, rows), f) ==
      if LastWrite(rows, f).Some? then Written(rows[LastWrite(rows, f).value], f) else Get(meta, f)
  {
    if rows != [] {
      var init, last := rows[..|rows| - 1], rows[|rows| - 1];
      FoldRowsLastWrite(meta, init, f);
      ApplyRowEffect(FoldRows(meta, init), last, f);
      LastWriteStep(rows, f);
    }
  }

  lemma LastWriteStep(rows: seq<Row>, f: Field)
    requires rows != []
    ensures var init := rows[..|rows| - 1];
      LastWrite(rows, f) == if Effect(rows[|rows| - 1]) == Some(f) then Some(|rows| - 1) else LastWrite(init, f)
    ensures var init := rows[..|rows| - 1];
      Effect(rows[|rows| - 1]) != Some(f) && LastWrite(init, f).Some? ==>
        rows[LastWrite(init, f).value] == init[LastWrite(init, f).value]
  {
    var es := Effects(rows);
    assert es[..|es| - 1] == Effects(rows[..|rows| - 1]);
  }

  /** The release date of the record is empty, or the trimmed text of a
      release-date row that is not made only of dashes; it is never a dash run. */
  lemma AssembleReleaseDate(url: string, page: Page)
    ensures var d := Assemble(url, page).releaseDate;
      d == "" ||
      exists i :: 0 <= i < |page.rows| && FieldOf(page.rows[i].heading) == Some(ReleaseDate) &&
        d == TrimSpace(page.rows[i].value) && !IsDashes(d)
    ensures !IsDashes(Assemble(url, page).releaseDate)
  {
    FoldRowsLastWrite(Header(url, page), page.rows, ReleaseDate);
    var w := LastWrite(page.rows, ReleaseDate);
    if w.Some? {
      var row := page.rows[w.value];
      assert FieldOf(row.heading) == Some(ReleaseDate);
    }
  }

  /** The code of the record is the canonical form (ParseCode) of the value
      of the last row headed by the product number, or "" when there is none. */
  lemma AssembleCode(url: string, page: Page)
    ensures var c := Assemble(url, page).code;
      if LastWrite(page.rows, Code).Some? then c == ParseCode(page.rows[LastWrite(page.rows, Code).value].value)
      else c == ""
  {
    var meta := Header(url, page);
    FoldRowsLastWrite(meta, page.rows, Code);
    assert Get(meta, Code) == Text("");
    var w := LastWrite(page.rows, Code);
    if w.Some? {
      assert Written(page.rows[w.value], Code) == Text(ParseCode(page.rows[w.value].value));
    }
  }

  /** A record is emitted only when the keyword and the record's code both
      match the code pattern, which needs a product-number row. */
  lemma EmittedNeedsCodeRow(url: string, keyword: string, page: Page)
    requires Dmm.IsCodeEqual(keyword, Assemble(url, page).code)
    ensures exists i :: 0 <= i < |page.rows| && FieldOf(page.rows[i].heading) == Some(Code)
  {
    AssembleCode(url, page);
    var w := LastWrite(page.rows, Code);
    if w.Some? {
      assert Effect(page.rows[w.value]) == Some(Code);
    }
  }
}
