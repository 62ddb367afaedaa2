/**
 * The pre-import instructions the stripper writes when accumulation is on:
 * the locale list and the SQL script that creates the missing genres, whose
 * rows come from a `SELECT ... UNION ALL SELECT ...` list of genre names.
 * The SQL itself is constant text here; only what is interpolated into it
 * varies.
 */
module Instructions {
  import opened Wrappers
  import opened Php
  import opened SqlLiteral

  /** Each genre name as `addcslashes($genre, "'\\")` leaves it. */
  function EscapedGenres(genres: seq<string>): seq<string> {
    if genres == [] then [] else [AddCSlashesQuoteBackslash(genres[0])] + EscapedGenres(genres[1..])
  }

  const GenreRowSeparator := "'" + NextRow

  /** `$genreList`: one `SELECT '<escaped name>' AS genre` row per genre, joined by `UNION ALL`. */
  function GenreList(genres: seq<string>): string {
    "SELECT '" + Join(EscapedGenres(genres), GenreRowSeparator) + "' AS genre"
  }

  /** With no genres the list is still one row, holding the empty name. */
  lemma EmptyGenreList()
    ensures GenreList([]) == "SELECT '' AS genre"
  {
  }

  /** What follows each value in the list once its closing quote has been read. */
  const RowTail := " AS genre"
  const NextRow := RowTail + " UNION ALL SELECT '"

  /** Reads a genre list back: the names of its rows, in order. */
  function ParseGenreList(s: string): Option<seq<string>> {
    if |s| >= 8 && s[..8] == "SELECT '" then ParseGenreRows(s[8..]) else None
  }

  function ParseGenreRows(s: string): Option<seq<string>>
    decreases |s|
  {
    match ReadLiteral(s)
    case None => None
    case Some((g, rest)) =>
      if rest == RowTail then Some([g])
      else if |rest| >= |NextRow| && rest[..|NextRow|] == NextRow then
        match ParseGenreRows(rest[|NextRow|..])
        case None => None
        case Some(gs) => Some([g] + gs)
      else None
  }

  /** The last row of a list reads back as its genre. */
  lemma ParseLastRow(g: string)
    ensures ParseGenreRows(AddCSlashesQuoteBackslash(g) + "' AS genre") == Some([g])
  {
    assert "' AS genre" == "'" + RowTail;
    assert AddCSlashesQuoteBackslash(g) + "' AS genre" == AddCSlashesQuoteBackslash(g) + "'" + RowTail;
    ReadAddCSlashes(g, RowTail);
  }

  /** A row followed by the separator reads back as its genre, then reading goes on with the next row. */
  lemma ParseRowThenMore(g: string, later: string, gs: seq<string>)
    requires ParseGenreRows(later) == Some(gs)
    ensures ParseGenreRows(AddCSlashesQuoteBackslash(g) + GenreRowSeparator + later) == Some([g] + gs)
  {
    var e := AddCSlashesQuoteBackslash(g);
    var rest := NextRow + later;
    assert e + GenreRowSeparator + later == e + "'" + rest;
    ReadAddCSlashes(g, rest);
    assert |rest| > |RowTail|;
    assert rest[..|NextRow|] == NextRow && rest[|NextRow|..] == later;
  }

  lemma {:induction false} ParseGenreRowsOfJoin(genres: seq<string>)
    requires genres != []
    ensures ParseGenreRows(Join(EscapedGenres(genres), GenreRowSeparator) + "' AS genre") == Some(genres)
    decreases |genres|
  {
    var e := EscapedGenres(genres);
    assert e[0] == AddCSlashesQuoteBackslash(genres[0]) && e[1..] == EscapedGenres(genres[1..]);
    if |genres| == 1 {
      ParseLastRow(genres[0]);
      assert genres == [genres[0]];
    } else {
      var later := Join(e[1..], GenreRowSeparator) + "' AS genre";
      JoinCons(e[0], e[1..], GenreRowSeparator);
      assert [e[0]] + e[1..] == e;
      assert Join(e, GenreRowSeparator) + "' AS genre" == e[0] + GenreRowSeparator + later;
      ParseGenreRowsOfJoin(genres[1..]);
      ParseRowThenMore(genres[0], later, genres[1..]);
      assert [genres[0]] + genres[1..] == genres;
    }
  }

  /**
   * The escaping keeps every name inside its own literal: a non-empty genre
   * list reads back as exactly the genres it was built from.
   */
  lemma GenreListRoundTrip(genres: seq<string>)
    requires genres != []
    ensures ParseGenreList(GenreList(genres)) == Some(genres)
  {
    var body := Join(EscapedGenres(genres), GenreRowSeparator) + "' AS genre";
    assert GenreList(genres) == "SELECT '" + body;
    assert GenreList(genres)[8..] == body;
    ParseGenreRowsOfJoin(genres);
  }

  /** Because the empty list still has a row, it reads the same as a list holding one empty name. */
  lemma EmptyGenreListReadsAsEmptyName()
    ensures ParseGenreList(GenreList([])) == Some([""])
  {
    GenreListRoundTrip([""]);
    assert EscapedGenres([""]) == [""];
    assert GenreList([""]) == GenreList([]);
  }

  /**
   * The script of step 2 before `trim` is applied to each of its lines, with
   * the genre list and the journal path interpolated (the path unescaped).
   * The source indents every line; the indentation is left out here since
   * `trim` removes it and every indented line starts with template text.
   */
  function RawGenreScript(genreList: string, journal: string): string {
    ScriptHead + genreList + ScriptJoin + journal + ScriptTail
  }

  const ScriptHead :=
    "CREATE TEMPORARY TABLE imported_genres AS\n"
    + "SELECT\n"
    + "j.journal_id AS context_id,\n"
    + "j.primary_locale AS locale,\n"
    + "imported.genre AS name,\n"
    + "(\n"
    + "SELECT MAX(g.seq)\n"
    + "FROM genres g\n"
    + "WHERE g.context_id = j.journal_id\n"
    + ") + ROW_NUMBER() OVER (ORDER BY imported.genre) AS seq\n"
    + "FROM ("

  const ScriptJoin := ") AS imported\nINNER JOIN journals j ON j.path = '"

  const ScriptTail :=
    "'\n"
    + "LEFT JOIN genre_settings gs ON gs.setting_name = 'name' AND gs.setting_value = imported.genre\n"
    + "LEFT JOIN genres g ON j.journal_id = g.context_id AND gs.genre_id = g.genre_id\n"
    + "WHERE g.genre_id IS NULL;\n"
    + "\n"
    + "INSERT INTO genres (context_id, seq)\n"
    + "SELECT ig.context_id, ig.seq\n"
    + "FROM imported_genres ig;\n"
    + "\n"
    + "INSERT INTO genre_settings (genre_id, locale, setting_name, setting_value, setting_type)\n"
    + "SELECT g.genre_id, ig.locale, 'name', ig.name, 'string'\n"
    + "FROM imported_genres ig\n"
    + "INNER JOIN genres g ON g.context_id = ig.context_id AND g.seq = ig.seq;\n"
    + "\n"
    + "DROP TABLE imported_genres;"

  function TrimAll(lines: seq<string>): (r: seq<string>)
    ensures |r| == |lines|
    ensures forall k :: 0 <= k < |r| ==> r[k] == Trim(lines[k])
  {
    if lines == [] then [] else [Trim(lines[0])] + TrimAll(lines[1..])
  }

  /** `implode("\n", array_map('trim', explode("\n", <script>)))`. */
  function GenreScript(genreList: string, journal: string): string {
    Join(TrimAll(Split(RawGenreScript(genreList, journal), '\n')), "\n")
  }

  const Step1 := "#1. Ensure the following locales are enabled in the journal:"
  const Step2 := "#2. Run the query below, it will ensure the required genres exist:"
  const Step3 := "#3. Import the stripped XMLs."

  /** The instructions file: its lines joined by line breaks, `script` being the genre script. */
  function InstructionsText(locales: seq<string>, script: string): string {
    Join([Step1, Join(locales, ", "), "", Step2, "```sql", script, "```", "", Step3], "\n")
  }

  /** The instructions written for the given locale and genre sets and destination journal path. */
  function InstructionsFile(locales: seq<string>, genres: seq<string>, journal: string): string {
    InstructionsText(locales, GenreScript(GenreList(genres), journal))
  }

  /** Joining lines with line breaks, spelled out for the nine lines of the instructions. */
  lemma JoinNineLines(l0: string, l1: string, l2: string, l3: string, l4: string, l5: string, l6: string, l7: string, l8: string)
    ensures Join([l0, l1, l2, l3, l4, l5, l6, l7, l8], "\n")
      == l0 + "\n" + (l1 + "\n" + (l2 + "\n" + (l3 + "\n" + (l4 + "\n" + (l5 + "\n" + (l6 + "\n" + (l7 + "\n" + l8)))))))
  {
    var sep := "\n";
    var t8 := [l8];
    var t7 := [l7] + t8;
    JoinCons(l7, t8, sep);
    var t6 := [l6] + t7;
    JoinCons(l6, t7, sep);
    var t5 := [l5] + t6;
    JoinCons(l5, t6, sep);
    var t4 := [l4] + t5;
    JoinCons(l4, t5, sep);
    var t3 := [l3] + t4;
    JoinCons(l3, t4, sep);
    var t2 := [l2] + t3;
    JoinCons(l2, t3, sep);
    var t1 := [l1] + t2;
    JoinCons(l1, t2, sep);
    JoinCons(l0, t1, sep);
    assert [l0, l1, l2, l3, l4, l5, l6, l7, l8] == [l0] + t1;
  }

  /**
   * The layout of the instructions: the locale list, comma separated, on the
   * line after step 1; the genre script fenced as SQL after step 2; step 3
   * last.
   */
  lemma InstructionsLayout(locales: seq<string>, script: string)
    ensures InstructionsText(locales, script)
      == Step1 + "\n" + (Join(locales, ", ") + "\n\n" + (Step2 + "\n```sql\n" + (script + "\n```\n\n" + Step3)))
  {
    var nl := "\n";
    JoinNineLines(Step1, Join(locales, ", "), "", Step2, "```sql", script, "```", "", Step3);
    var last := "```" + nl + ("" + nl + Step3);
    assert script + nl + last == script + "\n```\n\n" + Step3;
    var middle := "```sql" + nl + (script + nl + last);
    assert Step2 + nl + middle == Step2 + "\n```sql\n" + (script + "\n```\n\n" + Step3);
    var rest := "" + nl + (Step2 + nl + middle);
    assert Join(locales, ", ") + nl + rest == Join(locales, ", ") + "\n\n" + (Step2 + "\n```sql\n" + (script + "\n```\n\n" + Step3));
  }
}
