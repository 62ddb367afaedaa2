/**
 * The stripper: for each article in turn, keep only its current publication,
 * the submission files that publication's galleys use and, in each of those,
 * the one file revision the submission file names; optionally overwrite the
 * uploader; and, when an instructions file is configured, accumulate the
 * locales and genres seen and rewrite the instructions and the side file.
 */
module Stripper {
  import opened Wrappers
  import opened Php
  import opened NativeXml
  import opened OrderedSet
  import opened Instructions

  /** The options `process` reads (the author-group option is not part of this model). */
  datatype Configuration = Configuration(uploader: Option<string>, instructions: Option<string>, journal: Option<string>)

  /** The locale and genre lists of the side file (`data.json`). */
  datatype SideData = SideData(locales: seq<string>, genres: seq<string>)

  /**
   * Why a run stops: a query the XPath engine rejects, an article with no
   * current publication ("This article has no publications"), or a surviving
   * submission file with no matching `pkp:file` ("The <file> entry with ID
   * was not found").
   */
  datatype FilterError = MalformedQuery | NoCurrentPublication | FileNotFound

  /** `pkp:article_galley/pkp:submission_file_ref/@id`: the file ids of the galleys, in document order. */
  function GalleyFileIds(galleys: seq<Galley>): (r: seq<string>)
    ensures forall x :: x in r <==> exists g :: 0 <= g < |galleys| && x in galleys[g].fileRefs
  {
    if galleys == [] then []
    else
      var init := galleys[..|galleys| - 1];
      var r := GalleyFileIds(init) + galleys[|galleys| - 1].fileRefs;
      assert forall g :: 0 <= g < |init| ==> init[g] == galleys[g];
      r
  }

  /**
   * The loop collecting `$submissionFileIds`: the query's nodes are the
   * reference ids of each galley in turn, appended one at a time.
   */
  method CollectSubmissionFileIds(p: Publication) returns (ids: seq<string>)
    ensures ids == GalleyFileIds(p.galleys)
  {
    ids := [];
    var g := 0;
    while g < |p.galleys|
      invariant 0 <= g <= |p.galleys|
      invariant ids == GalleyFileIds(p.galleys[..g])
    {
      var refs := p.galleys[g].fileRefs;
      var j := 0;
      while j < |refs|
        invariant 0 <= j <= |refs|
        invariant ids == GalleyFileIds(p.galleys[..g]) + refs[..j]
      {
        ids := ids + [refs[j]];
        j := j + 1;
      }
      assert p.galleys[..g + 1][..g] == p.galleys[..g];
      assert refs[..j] == refs;
      g := g + 1;
    }
    assert p.galleys[..g] == p.galleys;
  }

  /**
   * Whether a submission file is kept: one with an owner reference survives
   * when the owner's id is among the kept ids, any other when its own id is.
   */
  predicate Survives(sf: SubmissionFile, kept: seq<string>) {
    match sf.ownerRef
    case Some(owner) => InArray(owner, kept)
    case None => InArray(sf.id, kept)
  }

  /** `pkp:file[@id = <fileId>]` with `fileId` unquoted: the two are compared as numbers. */
  predicate FileMatches(f: FileEntry, fileId: string) {
    IsDigitString(fileId) && IsDigitString(f.id) && DigitsValue(f.id) == DigitsValue(fileId)
  }

  /** `k` is the position of the first revision that `fileId` matches. */
  predicate FirstMatchingFile(files: seq<FileEntry>, fileId: string, k: int) {
    0 <= k < |files| && FileMatches(files[k], fileId) && forall j :: 0 <= j < k ==> !FileMatches(files[j], fileId)
  }

  /** `k` is the position of the first publication holding the id `pid`. */
  predicate FirstMatchingPublication(pubs: seq<Publication>, pid: string, k: int) {
    0 <= k < |pubs| && HasId(pubs[k], pid) && forall j :: 0 <= j < k ==> !HasId(pubs[j], pid)
  }

  /** The first `pkp:file` the query above matches. */
  function CurrentFileIndex(files: seq<FileEntry>, fileId: string): (r: Option<nat>)
    ensures r.Some? ==> r.value < |files| && FileMatches(files[r.value], fileId)
    ensures r.Some? ==> forall j :: 0 <= j < r.value ==> !FileMatches(files[j], fileId)
    ensures r.None? <==> forall j :: 0 <= j < |files| ==> !FileMatches(files[j], fileId)
  {
    if files == [] then None
    else if FileMatches(files[0], fileId) then Some(0)
    else
      match CurrentFileIndex(files[1..], fileId)
      case None => None
      case Some(k) => Some(k + 1)
  }

  /** The uploader override is applied when the option is set to a truthy string. */
  function WithUploader(sf: SubmissionFile, uploader: Option<string>): SubmissionFile {
    if uploader.Some? && Truthy(uploader.value) then sf.(uploader := uploader) else sf
  }

  /**
   * A surviving submission file after its revisions are pruned: only the
   * first `pkp:file` matching its `file_id` is left. An empty `file_id` makes
   * the query malformed.
   */
  function ResolveFile(sf: SubmissionFile): Result<SubmissionFile, FilterError> {
    if sf.fileId == "" then Err(MalformedQuery)
    else
      match CurrentFileIndex(sf.files, sf.fileId)
      case None => Err(FileNotFound)
      case Some(k) => Ok(sf.(files := [sf.files[k]]))
  }

  /**
   * What happens to a surviving submission file: the run goes on exactly when
   * its `file_id` is non-empty and some revision matches it; the file then
   * keeps only the first matching revision, takes the configured uploader if
   * there is one, and is otherwise unchanged.
   */
  function ProcessSubmissionFile(sf: SubmissionFile, uploader: Option<string>): (r: Result<SubmissionFile, FilterError>)
    ensures r.Ok? <==> sf.fileId != "" && exists j :: 0 <= j < |sf.files| && FileMatches(sf.files[j], sf.fileId)
    ensures sf.fileId == "" ==> r == Err(MalformedQuery)
    ensures sf.fileId != "" && r.Err? ==> r == Err(FileNotFound)
    ensures r.Ok? ==> |r.value.files| == 1
    ensures r.Ok? ==> exists k :: FirstMatchingFile(sf.files, sf.fileId, k) && r.value.files[0] == sf.files[k]
    ensures r.Ok? ==> r.value.uploader == (if uploader.Some? && Truthy(uploader.value) then uploader else sf.uploader)
    ensures r.Ok? ==> r.value.(files := sf.files, uploader := sf.uploader) == sf
  {
    ResolveFile(WithUploader(sf, uploader))
  }

  /**
   * The submission-file loop: the processed survivors, in document order, or
   * the first error a survivor raises.
   */
  function ProcessSubmissionFiles(sfs: seq<SubmissionFile>, kept: seq<string>, uploader: Option<string>)
    : Result<seq<SubmissionFile>, FilterError>
  {
    if sfs == [] then Ok([])
    else
      match ProcessSubmissionFiles(sfs[..|sfs| - 1], kept, uploader)
      case Err(e) => Err(e)
      case Ok(done) =>
        var last := sfs[|sfs| - 1];
        if !Survives(last, kept) then Ok(done)
        else
          match ProcessSubmissionFile(last, uploader)
          case Err(e) => Err(e)
          case Ok(p) => Ok(done + [p])
  }

  /**
   * One article after pruning, or the error that stops the run. A pruned
   * article has exactly one publication, the first whose id matches; its
   * submission files are what the submission-file loop leaves of the
   * original ones, given that publication's galleys; nothing else changes.
   * Failures: a quote in the id, or no publication holding it.
   */
  function PruneArticle(a: Article, uploader: Option<string>): (r: Result<Article, FilterError>)
    ensures !QuotableInXPath(a.currentPublicationId) ==> r == Err(MalformedQuery)
    ensures QuotableInXPath(a.currentPublicationId) ==>
      ((forall j :: 0 <= j < |a.publications| ==> !HasId(a.publications[j], a.currentPublicationId))
      ==> r == Err(NoCurrentPublication))
    ensures r.Ok? ==> |r.value.publications| == 1
    ensures r.Ok? ==> exists k ::
      FirstMatchingPublication(a.publications, a.currentPublicationId, k) && r.value.publications[0] == a.publications[k]
    ensures r.Ok? ==> r.value.currentPublicationId == a.currentPublicationId && r.value.locales == a.locales
  {
    if !QuotableInXPath(a.currentPublicationId) then Err(MalformedQuery)
    else
      match CurrentPublicationIndex(a.publications, a.currentPublicationId)
      case None => Err(NoCurrentPublication)
      case Some(k) =>
        var current := a.publications[k];
        match ProcessSubmissionFiles(a.submissionFiles, GalleyFileIds(current.galleys), uploader)
        case Err(e) => Err(e)
        case Ok(sfs) => Ok(a.(publications := [current], submissionFiles := sfs))
  }

  /** An error met on a prefix of the submission files is the error of the whole loop. */
  lemma {:induction false} ErrorPersists(sfs: seq<SubmissionFile>, n: nat, kept: seq<string>, uploader: Option<string>)
    requires n <= |sfs| && ProcessSubmissionFiles(sfs[..n], kept, uploader).Err?
    ensures ProcessSubmissionFiles(sfs, kept, uploader) == ProcessSubmissionFiles(sfs[..n], kept, uploader)
    decreases |sfs| - n
  {
    if n < |sfs| {
      var init := sfs[..|sfs| - 1];
      assert init[..n] == sfs[..n];
      ErrorPersists(init, n, kept, uploader);
    } else {
      assert sfs[..n] == sfs;
    }
  }

  /**
   * The loop `foreach (... as $node) { if ($node !== $current) $node->remove(); }`:
   * every node but the chosen one is dropped.
   */
  method KeepOnly<T>(nodes: seq<T>, current: nat) returns (kept: seq<T>)
    requires current < |nodes|
    ensures kept == [nodes[current]]
  {
    kept := [];
    var i := 0;
    while i < |nodes|
      invariant 0 <= i <= |nodes|
      invariant kept == if current < i then [nodes[current]] else []
    {
      if i == current {
        kept := kept + [nodes[i]];
      }
      i := i + 1;
    }
  }

  /** The submission-file loop of one article. */
  method PruneSubmissionFiles(sfs: seq<SubmissionFile>, kept: seq<string>, uploader: Option<string>)
    returns (r: Result<seq<SubmissionFile>, FilterError>)
    ensures r == ProcessSubmissionFiles(sfs, kept, uploader)
  {
    var done: seq<SubmissionFile> := [];
    var i := 0;
    while i < |sfs|
      invariant 0 <= i <= |sfs|
      invariant ProcessSubmissionFiles(sfs[..i], kept, uploader) == Ok(done)
    {
      assert sfs[..i + 1][..i] == sfs[..i];
      var sf := sfs[i];
      if Survives(sf, kept) {
        sf := WithUploader(sf, uploader);
        if sf.fileId == "" {
          ErrorPersists(sfs, i + 1, kept, uploader);
          return Err(MalformedQuery);
        }
        var current := CurrentFileIndex(sf.files, sf.fileId);
        if current.None? {
          ErrorPersists(sfs, i + 1, kept, uploader);
          return Err(FileNotFound);
        }
        var files := KeepOnly(sf.files, current.value);
        done := done + [sf.(files := files)];
      }
      i := i + 1;
    }
    assert sfs[..i] == sfs;
    return Ok(done);
  }

  /** The body of the article loop, up to the accumulation step. */
  method ProcessArticle(a: Article, uploader: Option<string>) returns (r: Result<Article, FilterError>)
    ensures r == PruneArticle(a, uploader)
  {
    var pid := a.currentPublicationId;
    if !QuotableInXPath(pid) {
      return Err(MalformedQuery);
    }
    var current := CurrentPublicationIndex(a.publications, pid);
    if current.None? {
      return Err(NoCurrentPublication);
    }
    var publications := KeepOnly(a.publications, current.value);
    var ids := CollectSubmissionFileIds(a.publications[current.value]);
    var sfs := PruneSubmissionFiles(a.submissionFiles, ids, uploader);
    if sfs.Err? {
      return Err(sfs.error);
    }
    return Ok(a.(publications := publications, submissionFiles := sfs.value));
  }

  /** The `genre` attributes of the given submission files, in document order. */
  function Genres(sfs: seq<SubmissionFile>): seq<string> {
    if sfs == [] then [] else Genres(sfs[..|sfs| - 1]) + [sfs[|sfs| - 1].genre]
  }

  /** `$data`: the locale and genre sets, as insertion-ordered key lists. */
  datatype Accumulator = Accumulator(locales: seq<string>, genres: seq<string>)

  /** Accumulation is on when an instructions path is configured and truthy. */
  predicate Accumulates(cfg: Configuration) {
    cfg.instructions.Some? && Truthy(cfg.instructions.value)
  }

  /** The sets at the start of a run, from the side file's lists (`array_fill_keys`). */
  function InitialAccumulator(cfg: Configuration, side: SideData): Option<Accumulator> {
    if Accumulates(cfg) then Some(Accumulator(InsertAll([], side.locales), InsertAll([], side.genres))) else None
  }

  /** The sets after an article: its surviving genres, then every locale now in the document. */
  function Accumulate(acc: Accumulator, d: Document, a: Article): Accumulator {
    Accumulator(InsertAll(acc.locales, DocumentLocales(d)), InsertAll(acc.genres, Genres(a.submissionFiles)))
  }

  /** The instructions file and side file as written from the sets. */
  datatype Report = Report(instructions: string, data: SideData)

  function ReportOf(acc: Accumulator, cfg: Configuration): Report {
    Report(InstructionsFile(acc.locales, acc.genres, cfg.journal.GetOr("")), SideData(acc.locales, acc.genres))
  }

  /**
   * Where a run ends: the document as the article loop left it, the sets as
   * the report was last written from them during the run (None when no
   * report was written), and the error that stopped it, if any. Only a run
   * without error saves the document.
   */
  datatype Outcome = Outcome(document: Document, written: Option<Accumulator>, error: Option<FilterError>)

  /** The article loop from article `i` on. */
  function RunFrom(d: Document, i: nat, cfg: Configuration, acc: Option<Accumulator>, written: Option<Accumulator>): Outcome
    requires i <= |d.articles|
    decreases |d.articles| - i
  {
    if i == |d.articles| then Outcome(d, written, None)
    else
      match PruneArticle(d.articles[i], cfg.uploader)
      case Err(e) => Outcome(d, written, Some(e))
      case Ok(a) =>
        var d' := Document(d.articles[i := a]);
        match acc
        case None => RunFrom(d', i + 1, cfg, None, written)
        case Some(ac) =>
          var ac' := Accumulate(ac, d', a);
          RunFrom(d', i + 1, cfg, Some(ac'), Some(ac'))
  }

  /** One step of the article loop when article `i` fails: the run stops there. */
  lemma RunFromFails(d: Document, i: nat, cfg: Configuration, acc: Option<Accumulator>, written: Option<Accumulator>)
    requires i < |d.articles| && PruneArticle(d.articles[i], cfg.uploader).Err?
    ensures RunFrom(d, i, cfg, acc, written) == Outcome(d, written, Some(PruneArticle(d.articles[i], cfg.uploader).error))
  {
  }

  /** The state after one article succeeds. */
  function StepDocument(d: Document, i: nat, a: Article): Document
    requires i < |d.articles|
  {
    Document(d.articles[i := a])
  }

  function StepAccumulator(acc: Option<Accumulator>, d: Document, a: Article): Option<Accumulator> {
    if acc.Some? then Some(Accumulate(acc.value, d, a)) else None
  }

  /** One step of the article loop when article `i` is pruned to `a`. */
  lemma RunFromSucceeds(d: Document, i: nat, cfg: Configuration, acc: Option<Accumulator>, written: Option<Accumulator>, a: Article)
    requires i < |d.articles| && PruneArticle(d.articles[i], cfg.uploader) == Ok(a)
    ensures var d' := StepDocument(d, i, a);
      var acc' := StepAccumulator(acc, d', a);
      RunFrom(d, i, cfg, acc, written) == RunFrom(d', i + 1, cfg, acc', if acc'.Some? then acc' else written)
  {
  }

  /** `process()` on document `d`, with `side` the contents of the side file. */
  function Run(d: Document, cfg: Configuration, side: SideData): Outcome {
    RunFrom(d, 0, cfg, InitialAccumulator(cfg, side), None)
  }

  /** The filter over one loaded document. */
  class NativeXmlFilter {
    const configuration: Configuration
    /** The side file's lists as read when the run starts (empty when the file is absent). */
    const sideFile: SideData
    /** The DOM, pruned in place. */
    var document: Document
    /** The contents of the instructions file and the side file as last written. */
    var report: Option<Report>
    /** The document as saved to the output. */
    var saved: Option<Document>

    constructor(configuration: Configuration, sideFile: SideData, document: Document)
      ensures this.configuration == configuration && this.sideFile == sideFile && this.document == document
      ensures report == None && saved == None
    {
      this.configuration := configuration;
      this.sideFile := sideFile;
      this.document := document;
      report := None;
      saved := None;
    }

    /** Rewrites the instructions file and the side file from the sets. */
    method WriteReport(acc: Accumulator)
      modifies this
      ensures report == Some(ReportOf(acc, configuration))
      ensures document == old(document) && saved == old(saved)
    {
      report := Some(ReportOf(acc, configuration));
    }

    /**
     * The run: the document is pruned article by article; the instructions
     * and side file are rewritten after every article when accumulation is
     * on; the document is saved only when no article raises an error.
     */
    method Process() returns (error: Option<FilterError>)
      modifies this
      ensures var o := Run(old(document), configuration, sideFile);
        && document == o.document
        && error == o.error
        && report == (if o.written.Some? then Some(ReportOf(o.written.value, configuration)) else old(report))
        && saved == (if o.error.None? then Some(o.document) else old(saved))
    {
      var acc := InitialAccumulator(configuration, sideFile);
      var written: Option<Accumulator> := None;
      var i := 0;
      while i < |document.articles|
        invariant 0 <= i <= |document.articles|
        invariant RunFrom(document, i, configuration, acc, written) == Run(old(document), configuration, sideFile)
        invariant report == (if written.Some? then Some(ReportOf(written.value, configuration)) else old(report))
        invariant saved == old(saved)
        decreases |document.articles| - i
      {
        var r := ProcessArticle(document.articles[i], configuration.uploader);
        if r.Err? {
          RunFromFails(document, i, configuration, acc, written);
          return Some(r.error);
        }
        RunFromSucceeds(document, i, configuration, acc, written, r.value);
        var d' := StepDocument(document, i, r.value);
        if acc.Some? {
          var genres := AddAll(acc.value.genres, Genres(r.value.submissionFiles));
          var locales := AddAll(acc.value.locales, DocumentLocales(d'));
          acc := Some(Accumulator(locales, genres));
          written := acc;
          WriteReport(acc.value);
        }
        document := d';
        i := i + 1;
      }
      saved := Some(document);
      return None;
    }
  }
}
