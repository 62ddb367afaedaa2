# native-xml-stripper and doi-importer, modelled in Dafny

Two command-line PHP scripts work on an OJS/PKP Native XML export.

**The stripper.** `NativeXmlFilter::process` walks the articles one at a time. For each article it does four things:

- It keeps only the current publication: the first `pkp:publication` holding a `pkp:id` equal to the article's `current_publication_id`.
- It drops every `pkp:submission_file` that is not referenced by one of that publication's galleys. A file with an owner reference is judged by its owner's id.
- In each surviving submission file it keeps only the first `pkp:file` whose `id` equals the file's `file_id`.
- It optionally overwrites the `uploader` attribute.

When an instructions path is configured, the stripper also accumulates two insertion-ordered sets, seeded from a side file (`data.json`). One holds the locales found in the articles of the document; the other holds the genres of the surviving submission files. After every article it rewrites the instructions file and the side file. The instructions file holds the locale list and an SQL script that creates the missing genres. An error aborts the run, and only a run that reaches the end saves the document.

**The DOI importer.** `DoiImporter::process` appends one `INSERT ... SELECT` statement per article to an output file. The statement looks the publication up by its escaped titles and attaches the first DOI of the current publication. A missing publication or DOI writes a diagnostic to standard error, but the statement is still written.

The model is in two layers:

- **Types and operations.** The document is a tree of datatypes (`NativeXml`). Each script is a class whose fields are what the script changes:
  - `NativeXmlFilter` has the pruned document, the report last written and the saved document.
  - `DoiImporter` has the output file and the standard-error text.
  - Each `process` is a method with the source's loop. It is proved against a specification function: `Run`/`RunFrom` and `RowsFrom`/`Render`.
  - The inner loops are methods proved against functions: `KeepOnly`, `CollectSubmissionFileIds`, `PruneSubmissionFiles`, `AddAll` and `QuoteTitles`.
  - PHP's built-ins are modelled in module `Php`: truthiness, loose `in_array`, `addslashes`, `addcslashes`, `implode`, `explode` and `trim`.
- **Partners for the properties.**
  - A MySQL single-quoted-literal reader (`SqlLiteral.ReadLiteral`). Both escapings are proved safe against it: whatever is escaped and quoted reads back unchanged, and the literal closes exactly where the script closes it.
  - Parsers for the genre list and the DOI statements, with round-trip lemmas.
  - A reference function `PruneArticles` that prunes each article on its own, with lemmas tying the whole run to it.
  - Idempotence of the pruning.
  - Lemmas on what the accumulated sets hold: no duplicates, where the locales come from, and which genres they contain.

Behaviours of the code that are easy to misread:

- A DOI of `0` is falsy. It raises the "no DOI" diagnostic, yet `'0'` is still written into the statement.
- A quote in `current_publication_id` that leaves the XPath query malformed aborts the run at that article in both scripts. In the DOI importer this happens before that article's diagnostics are written. The model treats every quote this way (see below).
- The `file_id` comparison in `pkp:file[@id = …]` is numeric, because the value is interpolated unquoted. An empty `file_id` makes the query malformed.
- The instructions and side file are rewritten after every article, so an aborted run leaves the report of the last article that completed.

## Model

| member | source | states |
|---|---|---|
| Php.InArray | native-xml-stripper.php:69-73 | true exactly when some haystack element equals the needle under PHP's loose string comparison (digit strings compared by value) |
| Php.AddSlashes | doi-importer.php:56-59 | specification function, no contract of its own: PHP's `addslashes`; `ReadAddSlashes`, `AddSlashesConcat`, `AddSlashesPlain` and `AddSlashesQuote` state what it does |
| Php.AddCSlashesQuoteBackslash | native-xml-stripper.php:112 | specification function, no contract of its own: `addcslashes($genre, "'\\")`; `ReadAddCSlashes` states what it does |
| Php.Truthy | native-xml-stripper.php:78 | specification predicate, no contract of its own: PHP's truth value of a string, as also used at native-xml-stripper.php:39 and doi-importer.php:49; `ProcessSubmissionFile`, `RunWithoutAccumulation` and `ZeroDoi` state what follows |
| Php.LooseEquals | native-xml-stripper.php:69-73 | specification predicate, no contract of its own: PHP's loose comparison of two strings; `InArray` states what follows |
| Php.Join | doi-importer.php:60 | specification function, no contract of its own: `implode`; `Split` is proved to be its inverse, and `QuotedJoinUnfold` and `InstructionsLayout` state its shape |
| Php.Split | native-xml-stripper.php:119 | `explode` on one character: at least one part, no part holds the delimiter, and joining the parts with the delimiter gives back the input |
| Php.TrimLeft | native-xml-stripper.php:119 | the result is a suffix of the input, everything dropped is whitespace, and the result does not start with whitespace |
| Php.TrimRight | native-xml-stripper.php:119 | the result is a prefix of the input, everything dropped is whitespace, and the result does not end with whitespace |
| Php.Trim | native-xml-stripper.php:119 | the result is a contiguous slice of the input, everything dropped before and after it is whitespace, and it neither starts nor ends with whitespace |
| Instructions.TrimAll | native-xml-stripper.php:119 | one line out per line in, each trimmed |
| OrderedSet.InsertAll | native-xml-stripper.php:43-44 | writing keys into a PHP array used as a set: the old keys stay in front in place, membership is the union, and no key appears twice |
| OrderedSet.InsertAllPresent | native-xml-stripper.php:107-109 | writing keys that are all present already leaves the set unchanged |
| OrderedSet.InsertAllAppend | native-xml-stripper.php:82-85 | writing `xs` and then `ys` is the same as writing `xs + ys` |
| OrderedSet.AddAll | native-xml-stripper.php:107-109 | the key-writing loop computes `InsertAll` |
| NativeXml.HasId | native-xml-stripper.php:51 | specification predicate, no contract of its own: the `pkp:id[text() = '…']` test, which an empty id never passes; `CurrentPublicationIndex` states what follows |
| NativeXml.QuotableInXPath | native-xml-stripper.php:49-51 | specification predicate, no contract of its own: the id can sit inside the query's quoted literal; `PruneArticle`, `QuotedPublicationIdStopsRun` and `RowsFrom` state what follows |
| NativeXml.DocumentLocales | native-xml-stripper.php:107 | specification function, no contract of its own: the `//@locale` scan over the articles; `StepKeepsLocales` and `RunLocales` state what follows |
| NativeXml.CurrentPublicationIndex | native-xml-stripper.php:51 | the first publication holding the id is found; none when no publication holds it; an empty id never matches |
| Stripper.GalleyFileIds | native-xml-stripper.php:63-65 | an id is collected exactly when some galley of the publication references it |
| Stripper.CollectSubmissionFileIds | native-xml-stripper.php:62-65 | the collection loop, walking each galley's references in turn, gathers exactly `GalleyFileIds`: the galley reference ids in document order |
| Stripper.FileMatches | native-xml-stripper.php:87-88 | specification predicate, no contract of its own: the unquoted `pkp:file[@id = …]` test, a numeric comparison; `CurrentFileIndex` states what follows |
| Stripper.CurrentFileIndex | native-xml-stripper.php:88 | the first revision whose id equals `file_id` numerically; none exactly when no revision matches |
| Stripper.ProcessSubmissionFile | native-xml-stripper.php:78-97 | processing goes on exactly when `file_id` is non-empty and some revision matches; an empty `file_id` is a malformed query and a non-empty one without a matching revision is a missing file; on success one revision is left, the first match; the uploader is overwritten only when the option is truthy; everything else is unchanged |
| Stripper.PruneArticle | native-xml-stripper.php:49-98 | a quote in the id gives a malformed query; no publication holding the id stops the run; otherwise exactly one publication is left, the first match, with the id and the article's own locales unchanged |
| Stripper.ErrorPersists | native-xml-stripper.php:67-98 | an error on a prefix of the submission files is the error of the whole loop |
| Stripper.KeepOnly | native-xml-stripper.php:56-60 | the removal loop leaves exactly the chosen node |
| Stripper.PruneSubmissionFiles | native-xml-stripper.php:67-98 | the submission-file loop computes `ProcessSubmissionFiles`, its error included |
| Stripper.ProcessArticle | native-xml-stripper.php:49-98 | the article body computes `PruneArticle`, its errors included |
| Stripper.RunFromFails | native-xml-stripper.php:52-54 | a failing article ends the run with its error; the document and the last report are left as they were |
| Stripper.RunFromSucceeds | native-xml-stripper.php:48-111 | a pruned article replaces the original in place, and the sets are updated when accumulation is on |
| Stripper.Survives | native-xml-stripper.php:67-76 | specification predicate, no contract of its own: a file with an owner reference is kept when the owner's id is among the galley ids, any other file when its own id is; `Survivors` states what follows |
| Stripper.WithUploader | native-xml-stripper.php:78-80 | specification function, no contract of its own: the uploader is overwritten only for a truthy option; `ProcessSubmissionFile` states it |
| Stripper.ResolveFile | native-xml-stripper.php:87-97 | specification function, no contract of its own: an empty `file_id` is malformed, no matching revision is a missing file, else only the first match is kept; `ProcessSubmissionFile` states it |
| Stripper.ProcessSubmissionFiles | native-xml-stripper.php:67-98 | specification function, no contract of its own: the submission-file loop; `SubmissionFilesAreProcessedSurvivors` states what it computes |
| Stripper.InitialAccumulator | native-xml-stripper.php:39-45 | specification function, no contract of its own: the sets are seeded from the side file only when the instructions path is truthy; `RunWithoutAccumulation` and `RunNoDuplicates` state what follows |
| Stripper.Accumulate | native-xml-stripper.php:82-85 | specification function, no contract of its own: the surviving genres and the document's locales are written into the sets; `AccumulateDuplicateFree`, `RunLocales` and `RunGenres` state what follows |
| Stripper.Genres | native-xml-stripper.php:82-85 | specification function, no contract of its own: the `genre` attributes of the surviving submission files, in document order; `RunFromGenres` and `RunGenres` state what follows |
| Stripper.ReportOf | native-xml-stripper.php:110-153 | specification function, no contract of its own: the instructions file and side file written from the sets; `NativeXmlFilter.WriteReport`, `InstructionsLayout` and `RunNoDuplicates` state what follows |
| Stripper.RunFrom | native-xml-stripper.php:48-155 | specification function, no contract of its own: the article loop from one article on; `RunFromPrunes`, `RunFromFails` and `RunFromSucceeds` state what it computes |
| Stripper.Run | native-xml-stripper.php:39-156 | specification function, no contract of its own: the whole run; `NativeXmlFilter.Process` is proved to end in its state and `RunIsPruneArticles` states what it computes |
| Stripper.NativeXmlFilter.constructor | native-xml-stripper.php:23-27 | the filter starts on the loaded document, with nothing written or saved |
| Stripper.NativeXmlFilter.WriteReport | native-xml-stripper.php:113-153 | the instructions file and the side file are rewritten from the sets, and nothing else changes |
| Stripper.NativeXmlFilter.Process | native-xml-stripper.php:37-157 | the run ends in the state `Run` gives: the pruned document, the error that stopped it, the report last written (the old one when nothing was written), and the document saved only when there was no error |
| StripperProperties.Survivors | native-xml-stripper.php:67-76 | the submission files kept are exactly the ones whose id, or owner's id, is among the galley ids |
| StripperProperties.PruneArticleSubmissionFiles | native-xml-stripper.php:49-98 | with a quotable id whose first matching publication is `k`, pruning succeeds exactly when every submission file surviving against `k`'s galleys can be processed; it then keeps publication `k` alone, changes nothing else of the article but its submission files, and those are each survivor processed, in order; otherwise it fails with the first failing survivor's error |
| StripperProperties.SubmissionFilesAreProcessedSurvivors | native-xml-stripper.php:67-98 | the loop succeeds exactly when every survivor can be processed, and then yields each processed survivor in order; otherwise it fails with the error of the first survivor that cannot be |
| StripperProperties.ProcessedFileIsFixed | native-xml-stripper.php:78-97 | a processed submission file keeps its id, owner reference, genre and locales, and processing it again changes nothing |
| StripperProperties.SubmissionFilesIdempotent | native-xml-stripper.php:67-98 | running the submission-file loop on its own output gives the same output |
| StripperProperties.PruneArticleIdempotent | native-xml-stripper.php:49-98 | pruning a pruned article gives the same article |
| StripperProperties.SubmissionFileLocalesShrink | native-xml-stripper.php:67-98 | the submission-file loop only removes locales |
| StripperProperties.PublicationLocalesInclude | native-xml-stripper.php:56-60 | each publication's locales are among its article's publication locales |
| StripperProperties.PrunedArticleLocales | native-xml-stripper.php:49-98 | pruning an article only removes locales |
| StripperProperties.ArticlesLocalesReplace | native-xml-stripper.php:107-109 | replacing an article by one with fewer locales can only shrink the document's locales |
| StripperProperties.StepKeepsLocales | native-xml-stripper.php:107-109 | after an article is processed, every locale the `//@locale` scan finds was in the document before |
| StripperProperties.PruneArticles | native-xml-stripper.php:48-98 | reference for the article loop: each article pruned on its own; on success the length is unchanged |
| StripperProperties.PruneArticlesOk | native-xml-stripper.php:48-98 | the reference succeeds exactly when every article prunes, and then holds each article's pruned form at its position |
| StripperProperties.PruneArticlesErr | native-xml-stripper.php:48-98 | a failing reference carries the error of the first article that fails |
| StripperProperties.RunFromPrunes | native-xml-stripper.php:48-155 | the loop from any article on agrees with the reference on the remaining articles and leaves the earlier ones alone |
| StripperProperties.RunIsPruneArticles | native-xml-stripper.php:48-156 | a run ends without error exactly when every article prunes; the document is then the pruned articles; otherwise the error is the first failing article's |
| StripperProperties.NoCurrentPublicationStopsRun | native-xml-stripper.php:51-54 | the first article without a matching publication stops the run with that error |
| StripperProperties.QuotedPublicationIdStopsRun | native-xml-stripper.php:49-51 | the first article whose current publication id holds a quote stops the run with a malformed query |
| StripperProperties.RunFromWithoutAccumulation | native-xml-stripper.php:106 | without accumulation the loop writes no report |
| StripperProperties.RunWithoutAccumulation | native-xml-stripper.php:39-45 | when no truthy instructions path is configured, a run writes neither the instructions nor the side file |
| StripperProperties.AccumulateDuplicateFree | native-xml-stripper.php:106-111 | one accumulation step keeps both sets free of duplicates |
| StripperProperties.RunFromNoDuplicates | native-xml-stripper.php:106-111 | the sets written during the loop never list a value twice |
| StripperProperties.RunNoDuplicates | native-xml-stripper.php:150-153 | the side file written by a run lists each locale and each genre once |
| StripperProperties.RunFromLocalesSettled | native-xml-stripper.php:107-109 | once the locale set covers the document, later articles add no locale |
| StripperProperties.RunLocales | native-xml-stripper.php:107-110 | the final locale list is the side file's locales followed by the document's locales once the first article is pruned, whatever the later articles do |
| StripperProperties.RunFromGenres | native-xml-stripper.php:82-85 | when every remaining article prunes, the genres written are the current set followed by the surviving files' genres, article by article |
| StripperProperties.RunGenres | native-xml-stripper.php:82-85 | when every article prunes, the final genre list is the side file's genres followed by the genres of the surviving submission files in the saved document |
| Instructions.EmptyGenreList | native-xml-stripper.php:112 | with no genres the list is the single row `SELECT '' AS genre` |
| Instructions.ParseLastRow | native-xml-stripper.php:112 | the last escaped row reads back as its genre |
| Instructions.ParseRowThenMore | native-xml-stripper.php:112 | a row followed by the `UNION ALL` separator reads back as its genre, and reading goes on with the next row |
| Instructions.ParseGenreRowsOfJoin | native-xml-stripper.php:112 | the joined escaped rows read back as the genres, in order |
| Instructions.GenreListRoundTrip | native-xml-stripper.php:112 | the `addcslashes` escaping keeps each genre inside its own literal: a non-empty list reads back as exactly its genres |
| Instructions.EmptyGenreListReadsAsEmptyName | native-xml-stripper.php:112 | the list written for no genres reads like a list holding one empty genre name |
| Instructions.EscapedGenres | native-xml-stripper.php:112 | specification function, no contract of its own: each genre passed through `addcslashes($genre, "'\\")`; `ParseGenreRowsOfJoin` and `GenreListRoundTrip` state what follows |
| Instructions.GenreList | native-xml-stripper.php:112 | specification function, no contract of its own: the `UNION ALL` genre list; `GenreListRoundTrip` and `EmptyGenreList` state what it holds |
| Instructions.RawGenreScript | native-xml-stripper.php:119-144 | specification function, no contract of its own: the genre script before trimming, with the genre list and the journal path spliced in; `GenreScript` trims it |
| Instructions.GenreScript | native-xml-stripper.php:119-144 | specification function, no contract of its own: the genre script with every line trimmed; `TrimAll` states the trimming |
| Instructions.InstructionsText | native-xml-stripper.php:113-148 | specification function, no contract of its own: the nine lines of the instructions file joined by line breaks; `InstructionsLayout` states its layout |
| Instructions.InstructionsFile | native-xml-stripper.php:113-148 | specification function, no contract of its own: the instructions file; `InstructionsLayout` states its layout |
| Instructions.JoinNineLines | native-xml-stripper.php:113-148 | helper for `InstructionsLayout`: joining nine lines with line breaks puts exactly one break between neighbours |
| Instructions.InstructionsLayout | native-xml-stripper.php:113-148 | the instructions file is step 1, the comma-separated locales, a blank line, step 2, the script fenced as SQL, a blank line and step 3 |
| SqlLiteral.ReadAddSlashes | doi-importer.php:56-59 | an `addslashes`-escaped value followed by a quote reads back as the value, and reading resumes right after that quote |
| SqlLiteral.ReadAddCSlashes | native-xml-stripper.php:112 | the same for `addcslashes($genre, "'\\")` |
| SqlLiteral.AddSlashesConcat | doi-importer.php:56 | `addslashes` distributes over concatenation |
| SqlLiteral.AddSlashesPlain | doi-importer.php:56 | a value without quotes, backslashes or NUL is left unchanged |
| SqlLiteral.AddSlashesQuote | doi-importer.php:56 | a quote between ordinary text gets exactly one backslash (`O'Brien` becomes `O\'Brien`) |
| DoiImport.NatToString | doi-importer.php:45 | the article index is written as a string of decimal digits |
| DoiImport.NatToStringValue | doi-importer.php:45 | the digits written denote the index |
| DoiImport.CurrentPublication | doi-importer.php:41-43 | specification function, no contract of its own: the first publication holding the article's current id; `MissingPublicationStillEmits` states what follows |
| DoiImport.ArticleDoi | doi-importer.php:48 | specification function, no contract of its own: the first DOI of the current publication, none without one; `FirstDoi`, `MissingPublicationStillEmits` and `ZeroDoi` state what follows |
| DoiImport.FirstDoi | doi-importer.php:48 | none exactly when no `pkp:id` has type `doi`; otherwise the text of the first that has |
| DoiImport.Quote | doi-importer.php:56 | specification function, no contract of its own: a value `addslashes`-escaped inside single quotes; `ReadQuoted` states that it reads back |
| DoiImport.QuotedTitles | doi-importer.php:55-56 | one quoted title per title, each `addslashes`-escaped and wrapped in quotes |
| DoiImport.QuoteTitles | doi-importer.php:53-57 | the title loop builds `QuotedTitles` |
| DoiImport.QuotedTitlesSnoc | doi-importer.php:53-57 | quoting one more title appends its quoted form |
| DoiImport.RowsFrom | doi-importer.php:40-65 | one row per article, in order, each built from that article, stopping at the first article whose id breaks the query |
| DoiImport.ArticleRow | doi-importer.php:43-59 | specification function, no contract of its own: the titles and DOI an article's statement carries; `MissingPublicationStillEmits` and `StatementRoundTrip` state what follows |
| DoiImport.ArticleDiagnostics | doi-importer.php:44-51 | specification function, no contract of its own: the "no publications" and "no DOI" messages; `MissingPublicationStillEmits` and `ZeroDoi` state when each is raised |
| DoiImport.Fill | doi-importer.php:59-62 | specification function, no contract of its own: the statement template `DoiTemplate` filled with the joined quoted titles and the escaped DOI; `StatementRoundTrip` and `EmptyTitleClause` state what it holds |
| DoiImport.Statement | doi-importer.php:59-62 | specification function, no contract of its own: the row filled into the statement template `DoiTemplate`; `StatementRoundTrip` and `EmptyTitleClause` state what it holds |
| DoiImport.DiagnosticsFrom | doi-importer.php:40-51 | specification function, no contract of its own: the standard-error text from one article on, up to the first id that breaks the query; `DoiImporter.Process` and `ArticleStep` state what follows |
| DoiImport.Render | doi-importer.php:64 | specification function, no contract of its own: the statements appended in order; `RenderRoundTrip` states what it holds |
| DoiImport.QuotedJoinUnfold | doi-importer.php:60 | a non-empty joined title list starts with its first quoted title, then the separator and the rest |
| DoiImport.ReadQuoted | doi-importer.php:56 | a quoted title opens with a quote, and its literal reads back as the title |
| DoiImport.TitleItemsRoundTrip | doi-importer.php:60 | the joined quoted titles read back as the titles, with reading stopping at the closing parenthesis |
| DoiImport.TitlesRoundTrip | doi-importer.php:60-62 | the `IN (...)` list reads back as the titles, with or without any |
| DoiImport.DoiTemplateWellFormed | doi-importer.php:61-62 | the statement text closes the title list with `)` and does not start the DOI tail with a quote |
| DoiImport.StatementRoundTrip | doi-importer.php:59-62 | a statement reads back as exactly its titles and DOI, and reading resumes right after it |
| DoiImport.RenderRoundTrip | doi-importer.php:61-64 | the appended output reads back as the rows, one statement per row, in order |
| DoiImport.EmptyTitleClause | doi-importer.php:60-62 | with no titles the statement is the template with nothing between head and middle, and the lookup clause reads `IN ())`: the head ends in `IN (` and the middle starts with `))` |
| DoiImport.MissingPublicationStillEmits | doi-importer.php:43-51 | an article without a current publication still gets a statement, with no titles and an empty DOI, and raises both diagnostics |
| DoiImport.ZeroDoi | doi-importer.php:48-59 | the DOI `0` raises the "no DOI" diagnostic yet is written as `'0'` |
| DoiImport.DoiImporter.constructor | doi-importer.php:23-27 | the importer starts on the loaded document and the existing output, with nothing on standard error |
| DoiImport.DoiImporter.Process | doi-importer.php:37-66 | the output file gains exactly the rendered rows and standard error gains exactly their diagnostics; the run completes exactly when no current publication id holds a quote |
| DoiImport.ArticleStep | doi-importer.php:40-64 | a reachable article contributes its statement and diagnostics, then the run goes on with the next |
| DoiImport.Advance | doi-importer.php:64 | appending an article's statement and diagnostics to what was already written leaves what the rest of the run writes |
| DoiImport.RunStops | doi-importer.php:40-43 | at the end of the document, or at an article whose id breaks the query, nothing more is written |
| DoiImport.ProcessArticle | doi-importer.php:41-62 | the loop body's statement is `Statement(ArticleRow(a))` and its standard-error text is the article's diagnostics |

## Left out

- Command-line parsing and the `Configuration` class: the options `process` reads are a parameter.
- Loading and saving the DOM, and the XPath engine: the document is a typed tree, and each path query is an accessor.
- File reading and writing, JSON encoding and decoding, and STDERR: they are fields or parameters (the side file's lists, the report, the output text, the diagnostics).
- The author user-group override (`native-xml-stripper.php:100-104`): its path is absolute from the root, so it matches nothing in an export holding articles.
- What the generated SQL does inside the database: only its text, and how its literals are read, is modelled.
- PHP array-key coercion: digit-string genres and locales would become integer keys in `$data`. A decoded side file whose value is falsy (such as `0`) or not an object is also not modelled.
- Numeric-string rules are limited to strings of decimal digits, both for `in_array` and for the XPath number comparison. Signs, decimals, exponents and surrounding whitespace are not modelled.
- `locale` attributes inside `pkp:file` elements, and the relative order of different children of an article: each node kind keeps its own document order.
- DoiImport.ArticleRow, DoiImport.ArticleDiagnostics and DoiImport.MissingPublicationStillEmits: without a current publication, the DOI and title queries get no context node, so PHP evaluates `pkp:id[@type = 'doi']` and `pkp:title` from the root element. The model assumes that the root element has no `pkp:id` of type `doi` and no `pkp:title` child, and so gives no DOI and no titles. An export whose root element carries a DOI `pkp:id` (a single-issue export, say) would lend that DOI to the statement in the source and suppress the "no DOI" message.
- The indentation of the genre script: `trim` removes it from every line, and every indented line starts with template text.
- Stripper.NativeXmlFilter.Process: after an error, the modelled document is the state before the failing article. The source may already have removed that article's other publications, but the document is not saved in that case, so nothing observable differs.
- Stripper.RunFromSucceeds: genres are added after the revision check rather than before it. This is equivalent, because an article that fails that check aborts the run before its genres are ever written.
- Stripper.PruneArticle, NativeXml.QuotableInXPath, StripperProperties.QuotedPublicationIdStopsRun, DoiImport.RowsFrom and DoiImport.DoiImporter.Process: every `current_publication_id` holding a quote is modelled as making the XPath query malformed and aborting the run. In the source, an id whose quotes leave the query well-formed, such as `1' or '1`, yields a valid query that selects the first publication with any `pkp:id`, and the run goes on.
- Stripper.FileMatches, Stripper.CurrentFileIndex, Php.LooseEquals and Php.InArray: digit strings are compared by their exact value. XPath compares numbers as doubles, so `9007199254740993` matches `9007199254740992` there. PHP 8 compares digit strings that overflow a 64-bit integer as strings, so `"09223372036854775808"` and `"9223372036854775808"` are not equal.
- Stripper.ResolveFile, Stripper.ProcessSubmissionFile, Stripper.FileMatches and Stripper.CurrentFileIndex: a non-empty `file_id` that is not a string of digits is modelled as matching no revision, so the run aborts with a missing file. In the source it is spliced unquoted into `pkp:file[@id = …]`. A name such as `abc` is a valid path that matches nothing, as modelled. Text such as `1x` makes the query malformed. An injection such as `@id` or `1 or 1` gives a valid query that selects the first revision, and the source keeps that revision and goes on.
- NativeXml.DocumentLocales and StripperProperties.RunLocales: the modelled document holds only articles, so the `//@locale` scan sees only the locales inside articles. Locales on other elements of the export are not modelled, so the final locale list is stated without them.
