/**
 * The DOI importer: for each article in turn it finds the current
 * publication, takes its first DOI and all its titles, and appends to the
 * output file one `INSERT ... SELECT` statement that attaches the DOI to the
 * publication holding those titles. Missing data raises a diagnostic on
 * standard error but never skips an article.
 */
module DoiImport {
  import opened Wrappers
  import opened Php
  import opened NativeXml
  import opened SqlLiteral

  /** The decimal form of an article index, as string interpolation of an int gives it. */
  function NatToString(n: nat): (s: string)
    ensures IsDigitString(s)
    decreases n
  {
    var digit := ['0' + (n % 10) as char];
    if n < 10 then digit else NatToString(n / 10) + digit
  }

  /** The decimal form reads back as the number. */
  lemma {:induction false} NatToStringValue(n: nat)
    ensures DigitsValue(NatToString(n)) == n
    decreases n
  {
    var s := NatToString(n);
    if n >= 10 {
      NatToStringValue(n / 10);
      assert s[..|s| - 1] == NatToString(n / 10);
    } else {
      assert s[..|s| - 1] == [];
    }
  }

  function NoPublicationMessage(i: nat): string {
    "The article " + NatToString(i) + " has no publications"
  }

  function NoDoiMessage(i: nat): string {
    "The article " + NatToString(i) + " has no DOI"
  }

  /** `k` is the position of the first `pkp:id` whose `type` is `doi`. */
  predicate FirstDoiAt(ids: seq<Identifier>, k: int) {
    0 <= k < |ids| && ids[k].idType == Some("doi") && forall j :: 0 <= j < k ==> ids[j].idType != Some("doi")
  }

  /** `pkp:id[@type = 'doi']`, first item, text content. */
  function FirstDoi(ids: seq<Identifier>): (r: Option<string>)
    ensures r.None? <==> forall j :: 0 <= j < |ids| ==> ids[j].idType != Some("doi")
    ensures r.Some? ==> exists k :: FirstDoiAt(ids, k) && r.value == ids[k].text
  {
    if ids == [] then None
    else if ids[0].idType == Some("doi") then
      assert FirstDoiAt(ids, 0);
      Some(ids[0].text)
    else
      var r := FirstDoi(ids[1..]);
      assert forall j :: 1 <= j < |ids| ==> ids[j] == ids[1..][j - 1];
      if r.Some? then
        var k :| FirstDoiAt(ids[1..], k) && r.value == ids[1..][k].text;
        assert FirstDoiAt(ids, k + 1);
        r
      else r
  }

  /** The current publication of an article, as the stripper finds it too. */
  function CurrentPublication(a: Article): Option<Publication> {
    match CurrentPublicationIndex(a.publications, a.currentPublicationId)
    case None => None
    case Some(k) => Some(a.publications[k])
  }

  /** The DOI found for an article: none without a current publication. */
  function ArticleDoi(a: Article): Option<string> {
    match CurrentPublication(a)
    case None => None
    case Some(p) => FirstDoi(p.ids)
  }

  /** What one statement carries: the titles to look the publication up by, and the DOI value. */
  datatype DoiRow = DoiRow(titles: seq<string>, doi: string)

  /**
   * The row of an article: the current publication's titles, untrimmed and
   * in document order, and its DOI, the empty string when it has none.
   */
  function ArticleRow(a: Article): DoiRow {
    match CurrentPublication(a)
    case None => DoiRow([], "")
    case Some(p) => DoiRow(p.titles, ArticleDoi(a).GetOr(""))
  }

  /** What an article writes to standard error (the messages carry no line break). */
  function ArticleDiagnostics(i: nat, a: Article): string {
    var doi := ArticleDoi(a);
    (if CurrentPublication(a).None? then NoPublicationMessage(i) else "")
    + (if doi.Some? && Truthy(doi.value) then "" else NoDoiMessage(i))
  }

  /** A value `addslashes`-escaped and wrapped in single quotes. */
  function Quote(v: string): string {
    "'" + AddSlashes(v) + "'"
  }

  /** Each title quoted. */
  function QuotedTitles(titles: seq<string>): (r: seq<string>)
    ensures |r| == |titles|
    ensures forall k :: 0 <= k < |r| ==> r[k] == Quote(titles[k])
  {
    if titles == [] then [] else [Quote(titles[0])] + QuotedTitles(titles[1..])
  }

  /** The loop building `$titles`. */
  method QuoteTitles(titles: seq<string>) returns (quoted: seq<string>)
    ensures quoted == QuotedTitles(titles)
  {
    quoted := [];
    var i := 0;
    while i < |titles|
      invariant 0 <= i <= |titles|
      invariant quoted == QuotedTitles(titles[..i])
    {
      QuotedTitlesSnoc(titles[..i], titles[i]);
      assert titles[..i] + [titles[i]] == titles[..i + 1];
      quoted := quoted + [Quote(titles[i])];
      i := i + 1;
    }
    assert titles[..i] == titles;
  }

  lemma QuotedTitlesSnoc(titles: seq<string>, t: string)
    ensures QuotedTitles(titles + [t]) == QuotedTitles(titles) + [Quote(t)]
  {
    assert forall k :: 0 <= k < |titles| ==> (titles + [t])[k] == titles[k];
  }

  /**
   * The fixed text of a statement: what comes before the title list, what
   * comes between it and the DOI literal's opening quote, and what follows
   * the DOI literal's closing quote.
   */
  datatype Template = Template(head: string, middle: string, end: string)

  /** The statement text up to the lookup list. */
  const SelectHead :=
    "INSERT INTO publication_settings (publication_id, setting_name, setting_value, locale)"
    + "\nSELECT (SELECT DISTINCT ps.publication_id FROM publication_settings ps WHERE ps.setting_name = 'title' AND ps.setting_value "

  /** The brackets around the title list: the list's own, then the subquery's closing one. */
  const LookupOpen := "IN ("
  const LookupClose := "))"

  /** The importer's statement template. */
  const DoiTemplate := Template(
    SelectHead + LookupOpen,
    LookupClose + " AS publication_id, 'pub-id::doi' AS setting_name, '",
    " " + "AS setting_value, '' AS locale;\n\n")

  /** The separator between quoted titles. */
  const TitleSeparator := ", "

  /** The statement for an already quoted title list and a raw DOI value. */
  function Fill(t: Template, quotedTitles: seq<string>, doi: string): string {
    t.head + (Join(quotedTitles, TitleSeparator) + (t.middle + (AddSlashes(doi) + ("'" + t.end))))
  }

  /** The statement an article appends: only its titles and DOI vary. */
  function Statement(row: DoiRow): string {
    Fill(DoiTemplate, QuotedTitles(row.titles), row.doi)
  }

  /**
   * The rows written from article `i` on: one per article, in order, up to
   * the first article whose current publication id breaks the query, where
   * the run stops.
   */
  function RowsFrom(articles: seq<Article>, i: nat): (r: seq<DoiRow>)
    requires i <= |articles|
    ensures |r| <= |articles| - i
    ensures forall k :: 0 <= k < |r| ==> r[k] == ArticleRow(articles[i + k])
    ensures forall k :: i <= k < i + |r| ==> QuotableInXPath(articles[k].currentPublicationId)
    ensures i + |r| < |articles| ==> !QuotableInXPath(articles[i + |r|].currentPublicationId)
    decreases |articles| - i
  {
    if i == |articles| || !QuotableInXPath(articles[i].currentPublicationId) then []
    else
      var rest := RowsFrom(articles, i + 1);
      var r := [ArticleRow(articles[i])] + rest;
      assert forall k :: 1 <= k < |r| ==> r[k] == rest[k - 1];
      r
  }

  /** The diagnostics written from article `i` on, up to the same stopping point. */
  function DiagnosticsFrom(articles: seq<Article>, i: nat): string
    requires i <= |articles|
    decreases |articles| - i
  {
    if i == |articles| || !QuotableInXPath(articles[i].currentPublicationId) then ""
    else ArticleDiagnostics(i, articles[i]) + DiagnosticsFrom(articles, i + 1)
  }

  /** The output the rows produce, statement after statement. */
  function Render(rows: seq<DoiRow>): string {
    if rows == [] then "" else Statement(rows[0]) + Render(rows[1..])
  }

  /** Reads a title list back: nothing, or quoted literals separated by the separator. */
  function ParseTitles(s: string): (r: Option<(seq<string>, string)>)
    ensures r.Some? ==> |r.value.1| <= |s|
  {
    if |s| > 0 && s[0] == '\'' then ParseTitleItems(s[1..]) else Some(([], s))
  }

  function ParseTitleItems(s: string): (r: Option<(seq<string>, string)>)
    ensures r.Some? ==> |r.value.1| < |s|
    decreases |s|
  {
    match ReadLiteral(s)
    case None => None
    case Some((t, rest)) =>
      if |rest| > 2 && rest[..2] == TitleSeparator && rest[2] == '\'' then
        match ParseTitleItems(rest[3..])
        case None => None
        case Some((ts, after)) => Some(([t] + ts, after))
      else Some(([t], rest))
  }

  /** Whether `s` starts with `p`. */
  predicate StartsWith(s: string, p: string) {
    |p| <= |s| && s[..|p|] == p
  }

  /** Reads one statement of template `t` back: its row and the text after it. */
  function ParseStatement(t: Template, s: string): (r: Option<(DoiRow, string)>)
    ensures r.Some? ==> |r.value.1| < |s|
  {
    if !StartsWith(s, t.head) then None
    else
      match ParseTitles(s[|t.head|..])
      case None => None
      case Some((titles, rest)) =>
        if !StartsWith(rest, t.middle) then None
        else
          match ReadLiteral(rest[|t.middle|..])
          case None => None
          case Some((doi, after)) =>
            if !StartsWith(after, t.end) then None
            else Some((DoiRow(titles, doi), after[|t.end|..]))
  }

  /** Reads a whole output back, statement by statement. */
  function ParseStatements(s: string): Option<seq<DoiRow>>
    decreases |s|
  {
    if s == [] then Some([])
    else
      match ParseStatement(DoiTemplate, s)
      case None => None
      case Some((row, rest)) =>
        match ParseStatements(rest)
        case None => None
        case Some(rows) => Some([row] + rows)
  }

  /** A non-empty quoted title list starts with its first quoted title. */
  lemma QuotedJoinUnfold(ts: seq<string>, sep: string)
    requires ts != []
    ensures Join(QuotedTitles(ts), sep)
      == Quote(ts[0]) + (if |ts| == 1 then "" else sep + Join(QuotedTitles(ts[1..]), sep))
  {
    var q := QuotedTitles(ts);
    assert q[1..] == QuotedTitles(ts[1..]);
    if |ts| > 1 {
      JoinCons(q[0], q[1..], sep);
      assert [q[0]] + q[1..] == q;
    }
  }

  /** Where the reading of an item list goes after the closing quote of `v`. */
  lemma ReadQuoted(v: string, rest: string)
    requires rest == [] || rest[0] != '\''
    ensures Quote(v)[0] == '\''
    ensures ReadLiteral(Quote(v)[1..] + rest) == Some((v, rest))
  {
    assert Quote(v)[1..] + rest == AddSlashes(v) + "'" + rest;
    ReadAddSlashes(v, rest);
  }

  /** `p + x` starts with `p`, and what follows `p` is `x`. */
  lemma PrefixSplit(p: string, x: string)
    ensures StartsWith(p + x, p) && (p + x)[|p|..] == x
  {
    assert (p + x)[..|p|] == p;
  }

  lemma DropFirstAppend(a: string, b: string, c: string)
    requires a != []
    ensures (a + b)[1..] + c == a[1..] + (b + c)
  {
    assert (a + b)[1..] == a[1..] + b;
  }

  lemma Requote(sep: string, q: string, rest: string)
    requires q != [] && q[0] == '\''
    ensures sep + q + rest == sep + ("'" + (q[1..] + rest))
  {
    assert q == "'" + q[1..];
  }

  /** After a literal, the separator and an opening quote lead to the next item. */
  lemma ParseTitleItemsStep(s: string, t: string, after: string)
    requires ReadLiteral(s) == Some((t, TitleSeparator + ("'" + after)))
    ensures ParseTitleItems(s) == match ParseTitleItems(after) case None => None case Some((ts, r)) => Some(([t] + ts, r))
  {
    var rest := TitleSeparator + ("'" + after);
    assert |rest| > 2 && rest[..2] == TitleSeparator && rest[2] == '\'';
    assert rest[3..] == after;
  }

  /** After a literal, a closing parenthesis ends the list. */
  lemma ParseTitleItemsLast(s: string, t: string, rest: string)
    requires ReadLiteral(s) == Some((t, rest)) && |rest| > 0 && rest[0] == ')'
    ensures ParseTitleItems(s) == Some(([t], rest))
  {
  }

  lemma {:induction false} TitleItemsRoundTrip(ts: seq<string>, rest: string)
    requires ts != [] && |rest| > 0 && rest[0] == ')'
    ensures ParseTitleItems(Join(QuotedTitles(ts), TitleSeparator)[1..] + rest) == Some((ts, rest))
    decreases |ts|
  {
    var sep := TitleSeparator;
    QuotedJoinUnfold(ts, sep);
    var j := Join(QuotedTitles(ts), sep);
    var more := if |ts| == 1 then "" else sep + Join(QuotedTitles(ts[1..]), sep);
    var q := Quote(ts[0]);
    assert j == q + more;
    DropFirstAppend(q, more, rest);
    if |ts| == 1 {
      assert more + rest == rest;
      ReadQuoted(ts[0], rest);
      ParseTitleItemsLast(j[1..] + rest, ts[0], rest);
      assert ts == [ts[0]];
    } else {
      var j' := Join(QuotedTitles(ts[1..]), sep);
      QuotedJoinUnfold(ts[1..], sep);
      ReadQuoted(ts[1], []);
      var after := j'[1..] + rest;
      assert j'[0] == '\'';
      Requote(sep, j', rest);
      assert sep[0] == ',';
      ReadQuoted(ts[0], more + rest);
      ParseTitleItemsStep(j[1..] + rest, ts[0], after);
      TitleItemsRoundTrip(ts[1..], rest);
      assert [ts[0]] + ts[1..] == ts;
    }
  }

  /** The titles clause reads back as the titles, with or without any. */
  lemma TitlesRoundTrip(ts: seq<string>, rest: string)
    requires |rest| > 0 && rest[0] == ')'
    ensures ParseTitles(Join(QuotedTitles(ts), TitleSeparator) + rest) == Some((ts, rest))
  {
    if ts == [] {
      assert Join(QuotedTitles(ts), TitleSeparator) + rest == rest;
    } else {
      var j := Join(QuotedTitles(ts), TitleSeparator);
      QuotedJoinUnfold(ts, TitleSeparator);
      ReadQuoted(ts[0], []);
      assert (j + rest)[0] == '\'';
      assert (j + rest)[1..] == j[1..] + rest;
      TitleItemsRoundTrip(ts, rest);
    }
  }

  /** The shape of template the reading relies on: the title list is closed by `)` and the DOI literal by the end text. */
  predicate WellFormed(t: Template) {
    |t.middle| > 0 && t.middle[0] == ')' && |t.end| > 0 && t.end[0] != '\''
  }

  lemma DoiTemplateWellFormed()
    ensures WellFormed(DoiTemplate)
  {
  }

  /**
   * The escaping keeps every value in its literal: a statement reads back as
   * exactly the titles and DOI it was built from, and reading resumes right
   * after it.
   */
  lemma StatementRoundTrip(t: Template, row: DoiRow, more: string)
    requires WellFormed(t)
    ensures ParseStatement(t, Fill(t, QuotedTitles(row.titles), row.doi) + more) == Some((row, more))
  {
    var j := Join(QuotedTitles(row.titles), TitleSeparator);
    var r3 := t.end + more;
    var r2 := AddSlashes(row.doi) + ("'" + r3);
    var r1 := t.middle + r2;
    FillThen(t.head, j, t.middle, AddSlashes(row.doi), t.end, more);
    TitlesRoundTrip(row.titles, r1);
    assert r2 == AddSlashes(row.doi) + "'" + r3;
    ReadAddSlashes(row.doi, r3);
    ParseStatementOfParts(t, j, r1, r2, r3, more, row);
  }

  /** Reading a statement segment by segment: head, titles, middle, DOI literal, end. */
  lemma ParseStatementOfParts(t: Template, j: string, r1: string, r2: string, r3: string, more: string, row: DoiRow)
    requires r1 == t.middle + r2 && r3 == t.end + more
    requires ParseTitles(j + r1) == Some((row.titles, r1))
    requires ReadLiteral(r2) == Some((row.doi, r3))
    ensures ParseStatement(t, t.head + (j + r1)) == Some((row, more))
  {
    PrefixSplit(t.head, j + r1);
    PrefixSplit(t.middle, r2);
    PrefixSplit(t.end, more);
  }

  /** Appending after a filled template reaches into its last piece. */
  lemma FillThen(head: string, titles: string, middle: string, doi: string, end: string, more: string)
    ensures head + (titles + (middle + (doi + ("'" + end)))) + more
      == head + (titles + (middle + (doi + ("'" + (end + more)))))
  {
    AppendAssoc("'", end, more);
    AppendAssoc(doi, "'" + end, more);
    AppendAssoc(middle, doi + ("'" + end), more);
    AppendAssoc(titles, middle + (doi + ("'" + end)), more);
    AppendAssoc(head, titles + (middle + (doi + ("'" + end))), more);
  }

  /** Reading a whole output is reading its first statement, then the rest. */
  lemma ParseStatementsStep(s: string, row: DoiRow, rest: string)
    requires ParseStatement(DoiTemplate, s) == Some((row, rest))
    ensures ParseStatements(s) == match ParseStatements(rest) case None => None case Some(rows) => Some([row] + rows)
  {
    assert |rest| < |s|;
  }

  /** The output file reads back as the rows, one statement per row, in order. */
  lemma {:induction false} RenderRoundTrip(rows: seq<DoiRow>)
    ensures ParseStatements(Render(rows)) == Some(rows)
  {
    if rows != [] {
      var rest := Render(rows[1..]);
      var s := Render(rows);
      assert s == Statement(rows[0]) + rest;
      DoiTemplateWellFormed();
      StatementRoundTrip(DoiTemplate, rows[0], rest);
      ParseStatementsStep(s, rows[0], rest);
      RenderRoundTrip(rows[1..]);
      assert [rows[0]] + rows[1..] == rows;
    }
  }

  /** With no titles the lookup clause is `IN ())`: the head ends in `IN (` and the middle starts with `))`. */
  lemma EmptyTitleClause(doi: string)
    ensures Statement(DoiRow([], doi))
      == DoiTemplate.head + (DoiTemplate.middle + (AddSlashes(doi) + ("'" + DoiTemplate.end)))
    ensures DoiTemplate.head[|DoiTemplate.head| - 4..] == "IN (" && DoiTemplate.middle[..2] == "))"
  {
    assert Join(QuotedTitles([]), TitleSeparator) == "";
    PrefixSplit(SelectHead, LookupOpen);
    assert (LookupClose + " AS publication_id, 'pub-id::doi' AS setting_name, '")[..2] == LookupClose;
  }

  /**
   * An article without a current publication still gets its statement, with
   * no titles and an empty DOI, and raises both diagnostics.
   */
  lemma MissingPublicationStillEmits(i: nat, a: Article)
    requires forall j :: 0 <= j < |a.publications| ==> !HasId(a.publications[j], a.currentPublicationId)
    ensures ArticleRow(a) == DoiRow([], "")
    ensures ArticleDiagnostics(i, a) == NoPublicationMessage(i) + NoDoiMessage(i)
  {
  }

  /** A DOI of `0` is falsy: it raises the diagnostic and is still emitted as `'0'`. */
  lemma ZeroDoi(i: nat, a: Article)
    requires ArticleDoi(a) == Some("0")
    ensures ArticleRow(a).doi == "0"
    ensures ArticleDiagnostics(i, a) == (if CurrentPublication(a).None? then NoPublicationMessage(i) else "") + NoDoiMessage(i)
  {
  }

  /** The importer over one loaded document. */
  class DoiImporter {
    const document: Document
    /** The contents of the output file; statements are appended to it. */
    var output: string
    /** What has been written to standard error. */
    var diagnostics: string

    constructor(document: Document, output: string)
      ensures this.document == document && this.output == output && diagnostics == ""
    {
      this.document := document;
      this.output := output;
      diagnostics := "";
    }

    /**
     * The run: each article appends its statement, after its diagnostics,
     * until an article whose current publication id breaks the query stops
     * it; `completed` tells whether every article was reached.
     */
    method Process() returns (completed: bool)
      modifies this
      ensures output == old(output) + Render(RowsFrom(document.articles, 0))
      ensures diagnostics == old(diagnostics) + DiagnosticsFrom(document.articles, 0)
      ensures completed <==> forall k :: 0 <= k < |document.articles| ==> QuotableInXPath(document.articles[k].currentPublicationId)
    {
      var articles := document.articles;
      ghost var finalOutput := old(output) + Render(RowsFrom(articles, 0));
      ghost var finalDiagnostics := old(diagnostics) + DiagnosticsFrom(articles, 0);
      var i := 0;
      while i < |articles|
        invariant 0 <= i <= |articles|
        invariant finalOutput == output + Render(RowsFrom(articles, i))
        invariant finalDiagnostics == diagnostics + DiagnosticsFrom(articles, i)
        invariant forall k :: 0 <= k < i ==> QuotableInXPath(articles[k].currentPublicationId)
      {
        var a := articles[i];
        if !QuotableInXPath(a.currentPublicationId) {
          RunStops(articles, i);
          return false;
        }
        var sql, diag := ProcessArticle(i, a);
        Advance(articles, i, output, diagnostics);
        output := output + sql;
        diagnostics := diagnostics + diag;
        i := i + 1;
      }
      RunStops(articles, i);
      return true;
    }
  }

  /** Article `i` is reached: it contributes its statement and its diagnostics, then the run goes on. */
  lemma ArticleStep(articles: seq<Article>, i: nat)
    requires i < |articles| && QuotableInXPath(articles[i].currentPublicationId)
    ensures Render(RowsFrom(articles, i)) == Statement(ArticleRow(articles[i])) + Render(RowsFrom(articles, i + 1))
    ensures DiagnosticsFrom(articles, i) == ArticleDiagnostics(i, articles[i]) + DiagnosticsFrom(articles, i + 1)
  {
    var rows := RowsFrom(articles, i);
    assert rows == [ArticleRow(articles[i])] + RowsFrom(articles, i + 1);
    assert rows[1..] == RowsFrom(articles, i + 1);
  }

  /** The same step, seen from text already written. */
  lemma Advance(articles: seq<Article>, i: nat, output: string, diagnostics: string)
    requires i < |articles| && QuotableInXPath(articles[i].currentPublicationId)
    ensures output + Render(RowsFrom(articles, i))
      == (output + Statement(ArticleRow(articles[i]))) + Render(RowsFrom(articles, i + 1))
    ensures diagnostics + DiagnosticsFrom(articles, i)
      == (diagnostics + ArticleDiagnostics(i, articles[i])) + DiagnosticsFrom(articles, i + 1)
  {
    ArticleStep(articles, i);
    AppendAssoc(output, Statement(ArticleRow(articles[i])), Render(RowsFrom(articles, i + 1)));
    AppendAssoc(diagnostics, ArticleDiagnostics(i, articles[i]), DiagnosticsFrom(articles, i + 1));
  }

  /** The run has stopped at `i`: nothing more is written. */
  lemma RunStops(articles: seq<Article>, i: nat)
    requires i == |articles| || (i < |articles| && !QuotableInXPath(articles[i].currentPublicationId))
    ensures Render(RowsFrom(articles, i)) == "" && DiagnosticsFrom(articles, i) == ""
  {
  }

  /** The body of the article loop: the statement it appends and what it writes to standard error. */
  method ProcessArticle(i: nat, a: Article) returns (sql: string, diag: string)
    ensures sql == Statement(ArticleRow(a))
    ensures diag == ArticleDiagnostics(i, a)
  {
    var publication := CurrentPublication(a);
    diag := "";
    if publication.None? {
      diag := diag + NoPublicationMessage(i);
    }
    var doi := if publication.Some? then FirstDoi(publication.value.ids) else None;
    if !(doi.Some? && Truthy(doi.value)) {
      diag := diag + NoDoiMessage(i);
    }
    var titles := if publication.Some? then publication.value.titles else [];
    var quoted := QuoteTitles(titles);
    sql := Fill(DoiTemplate, quoted, doi.GetOr(""));
  }
}
