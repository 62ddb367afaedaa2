/**
 * What a stripper run guarantees: which submission files survive, that
 * pruning is idempotent, that only removal happens (so locales never appear),
 * how the whole in-place run relates to pruning each article on its own, and
 * what the accumulated locale and genre sets hold.
 */
module StripperProperties {
  import opened Wrappers
  import opened NativeXml
  import opened OrderedSet
  import opened Stripper

  /** The submission files the owner-ref / own-id rule keeps, in document order. */
  function Survivors(sfs: seq<SubmissionFile>, kept: seq<string>): (r: seq<SubmissionFile>)
    ensures |r| <= |sfs|
    ensures forall x :: x in r <==> x in sfs && Survives(x, kept)
  {
    if sfs == [] then []
    else
      var init := sfs[..|sfs| - 1];
      var last := sfs[|sfs| - 1];
      assert sfs == init + [last];
      Survivors(init, kept) + (if Survives(last, kept) then [last] else [])
  }

  /** Every one of `s` can be processed. */
  predicate AllProcessable(s: seq<SubmissionFile>, u: Option<string>) {
    forall k :: 0 <= k < |s| ==> ProcessSubmissionFile(s[k], u).Ok?
  }

  /** `r` is `s` with each file processed. */
  predicate ProcessedEach(s: seq<SubmissionFile>, u: Option<string>, r: seq<SubmissionFile>) {
    |r| == |s| && forall k :: 0 <= k < |s| ==> Ok(r[k]) == ProcessSubmissionFile(s[k], u)
  }

  /** `k` is the first of `s` that cannot be processed, and `e` its error. */
  predicate FirstFailingFile(s: seq<SubmissionFile>, u: Option<string>, k: int, e: FilterError) {
    0 <= k < |s| && ProcessSubmissionFile(s[k], u) == Err(e)
    && forall j :: 0 <= j < k ==> ProcessSubmissionFile(s[j], u).Ok?
  }

  /**
   * The submission-file loop processes exactly the survivors, one for one:
   * it succeeds when every survivor can be processed, yielding each processed
   * survivor in order, and otherwise stops with the error of the first
   * survivor that cannot be.
   */
  lemma {:induction false} SubmissionFilesAreProcessedSurvivors(sfs: seq<SubmissionFile>, kept: seq<string>, u: Option<string>)
    ensures var s := Survivors(sfs, kept);
      var res := ProcessSubmissionFiles(sfs, kept, u);
      && (res.Ok? <==> AllProcessable(s, u))
      && (res.Ok? ==> ProcessedEach(s, u, res.value))
      && (res.Err? ==> exists k :: FirstFailingFile(s, u, k, res.error))
  {
    if sfs != [] {
      var init := sfs[..|sfs| - 1];
      var last := sfs[|sfs| - 1];
      SubmissionFilesAreProcessedSurvivors(init, kept, u);
      var si := Survivors(init, kept);
      var s := Survivors(sfs, kept);
      var tail := if Survives(last, kept) then [last] else [];
      assert s == si + tail;
      assert forall k :: 0 <= k < |si| ==> s[k] == si[k];
      var ri := ProcessSubmissionFiles(init, kept, u);
      var res := ProcessSubmissionFiles(sfs, kept, u);
      if ri.Err? {
        assert res == ri;
        var k :| FirstFailingFile(si, u, k, ri.error);
        assert FirstFailingFile(s, u, k, res.error);
      } else if !Survives(last, kept) {
        assert s == si;
      } else {
        assert s[|si|] == last;
        var pl := ProcessSubmissionFile(last, u);
        if pl.Err? {
          assert res == Err(pl.error);
          assert FirstFailingFile(s, u, |si|, res.error);
        } else {
          assert res == Ok(ri.value + [pl.value]);
          assert ProcessedEach(s, u, res.value);
        }
      }
    }
  }

  /** A processed submission file is left as it is by processing it again. */
  lemma ProcessedFileIsFixed(sf: SubmissionFile, u: Option<string>, p: SubmissionFile)
    requires ProcessSubmissionFile(sf, u) == Ok(p)
    ensures p.id == sf.id && p.ownerRef == sf.ownerRef && p.genre == sf.genre && p.locales == sf.locales
    ensures ProcessSubmissionFile(p, u) == Ok(p)
  {
    var k :| FirstMatchingFile(sf.files, sf.fileId, k) && p.files[0] == sf.files[k];
    assert p.files == [sf.files[k]];
    assert CurrentFileIndex(p.files, p.fileId) == Some(0);
  }

  /** Running the submission-file loop again over its own result removes and changes nothing. */
  lemma {:induction false} SubmissionFilesIdempotent(sfs: seq<SubmissionFile>, kept: seq<string>, u: Option<string>, r: seq<SubmissionFile>)
    requires ProcessSubmissionFiles(sfs, kept, u) == Ok(r)
    ensures ProcessSubmissionFiles(r, kept, u) == Ok(r)
  {
    if sfs != [] {
      var init := sfs[..|sfs| - 1];
      var last := sfs[|sfs| - 1];
      var done := ProcessSubmissionFiles(init, kept, u).value;
      SubmissionFilesIdempotent(init, kept, u, done);
      if Survives(last, kept) {
        var p := ProcessSubmissionFile(last, u).value;
        assert r == done + [p];
        ProcessedFileIsFixed(last, u, p);
        assert Survives(p, kept);
        assert r[..|r| - 1] == done && r[|r| - 1] == p;
      }
    }
  }

  /**
   * Idempotence: pruning an already pruned article succeeds and leaves it as
   * it is, since its current publication, the kept ids and each file's
   * matching revision all persist.
   */
  lemma PruneArticleIdempotent(a: Article, u: Option<string>, a': Article)
    requires PruneArticle(a, u) == Ok(a')
    ensures PruneArticle(a', u) == Ok(a')
  {
    var current := a'.publications[0];
    var k :| FirstMatchingPublication(a.publications, a.currentPublicationId, k) && current == a.publications[k];
    assert a'.publications == [current];
    assert CurrentPublicationIndex(a'.publications, a'.currentPublicationId) == Some(0);
    SubmissionFilesIdempotent(a.submissionFiles, GalleyFileIds(current.galleys), u, a'.submissionFiles);
  }

  /**
   * Pruning an article whose current publication is `k` keeps that
   * publication alone and processes exactly the submission files its
   * galleys own: it succeeds when every survivor can be processed, with each
   * survivor processed in order, and otherwise fails with the error of the
   * first survivor that cannot be.
   */
  lemma PruneArticleSubmissionFiles(a: Article, u: Option<string>, k: nat)
    requires QuotableInXPath(a.currentPublicationId)
    requires FirstMatchingPublication(a.publications, a.currentPublicationId, k)
    ensures var s := Survivors(a.submissionFiles, GalleyFileIds(a.publications[k].galleys));
      var r := PruneArticle(a, u);
      && (r.Ok? <==> AllProcessable(s, u))
      && (r.Ok? ==> r.value == a.(publications := [a.publications[k]], submissionFiles := r.value.submissionFiles))
      && (r.Ok? ==> ProcessedEach(s, u, r.value.submissionFiles))
      && (r.Err? ==> exists j :: FirstFailingFile(s, u, j, r.error))
  {
    assert CurrentPublicationIndex(a.publications, a.currentPublicationId) == Some(k);
    SubmissionFilesAreProcessedSurvivors(a.submissionFiles, GalleyFileIds(a.publications[k].galleys), u);
  }

  /** The submission-file loop only removes submission files, and keeps the locales of those it keeps. */
  lemma {:induction false} SubmissionFileLocalesShrink(sfs: seq<SubmissionFile>, kept: seq<string>, u: Option<string>, r: seq<SubmissionFile>)
    requires ProcessSubmissionFiles(sfs, kept, u) == Ok(r)
    ensures forall x :: x in SubmissionFileLocales(r) ==> x in SubmissionFileLocales(sfs)
  {
    if sfs != [] {
      var init := sfs[..|sfs| - 1];
      var last := sfs[|sfs| - 1];
      var done := ProcessSubmissionFiles(init, kept, u).value;
      SubmissionFileLocalesShrink(init, kept, u, done);
      if Survives(last, kept) {
        var p := ProcessSubmissionFile(last, u).value;
        assert r == done + [p];
        assert r[..|r| - 1] == done && r[|r| - 1] == p;
        assert p.locales == last.locales;
      }
    }
  }

  /** The locales of any one publication are among those of the list holding it. */
  lemma {:induction false} PublicationLocalesInclude(pubs: seq<Publication>, k: nat)
    requires k < |pubs|
    ensures forall x :: x in pubs[k].locales ==> x in PublicationLocales(pubs)
  {
    var init := pubs[..|pubs| - 1];
    if k < |pubs| - 1 {
      PublicationLocalesInclude(init, k);
      assert init[k] == pubs[k];
    }
  }

  /** Pruning an article adds no locale: every locale left in it was there before. */
  lemma PrunedArticleLocales(a: Article, u: Option<string>, a': Article)
    requires PruneArticle(a, u) == Ok(a')
    ensures forall x :: x in ArticleLocales(a') ==> x in ArticleLocales(a)
  {
    var current := a'.publications[0];
    var k :| FirstMatchingPublication(a.publications, a.currentPublicationId, k) && current == a.publications[k];
    assert a'.publications == [current];
    assert PublicationLocales(a'.publications) == current.locales by {
      assert a'.publications[..0] == [];
    }
    PublicationLocalesInclude(a.publications, k);
    SubmissionFileLocalesShrink(a.submissionFiles, GalleyFileIds(current.galleys), u, a'.submissionFiles);
  }

  /** Replacing one article by one with fewer locales gives a document with fewer locales. */
  lemma {:induction false} ArticlesLocalesReplace(articles: seq<Article>, i: nat, a: Article)
    requires i < |articles|
    requires forall x :: x in ArticleLocales(a) ==> x in ArticleLocales(articles[i])
    ensures forall x :: x in ArticlesLocales(articles[i := a]) ==> x in ArticlesLocales(articles)
  {
    var n := |articles|;
    var updated := articles[i := a];
    var init := articles[..n - 1];
    assert updated[..n - 1] == if i < n - 1 then init[i := a] else init;
    if i < n - 1 {
      ArticlesLocalesReplace(init, i, a);
      assert updated[n - 1] == articles[n - 1];
    }
  }

  /** Processing an article only removes nodes, so the document's locales can only be lost. */
  lemma StepKeepsLocales(d: Document, i: nat, u: Option<string>, a: Article)
    requires i < |d.articles| && PruneArticle(d.articles[i], u) == Ok(a)
    ensures forall x :: x in DocumentLocales(StepDocument(d, i, a)) ==> x in DocumentLocales(d)
  {
    PrunedArticleLocales(d.articles[i], u, a);
    ArticlesLocalesReplace(d.articles, i, a);
  }

  /**
   * The reference for the in-place article loop: each article pruned on its
   * own, or the first article's error.
   */
  function PruneArticles(articles: seq<Article>, u: Option<string>): (r: Result<seq<Article>, FilterError>)
    ensures r.Ok? ==> |r.value| == |articles|
  {
    if articles == [] then Ok([])
    else
      match PruneArticle(articles[0], u)
      case Err(e) => Err(e)
      case Ok(a) =>
        match PruneArticles(articles[1..], u)
        case Err(e) => Err(e)
        case Ok(rest) => Ok([a] + rest)
  }

  /** The reference succeeds exactly when every article prunes, each article then pruned on its own. */
  lemma {:induction false} PruneArticlesOk(articles: seq<Article>, u: Option<string>)
    ensures var r := PruneArticles(articles, u);
      && (r.Ok? <==> forall k :: 0 <= k < |articles| ==> PruneArticle(articles[k], u).Ok?)
      && (r.Ok? ==> forall k :: 0 <= k < |articles| ==> Ok(r.value[k]) == PruneArticle(articles[k], u))
  {
    if articles != [] {
      var tail := articles[1..];
      PruneArticlesOk(tail, u);
      PruneArticlesStep(articles, u);
      var first := PruneArticle(articles[0], u);
      var rest := PruneArticles(tail, u);
      forall k | 1 <= k < |articles|
        ensures articles[k] == tail[k - 1]
      {
      }
      if first.Ok? && rest.Ok? {
        var r := [first.value] + rest.value;
        forall k | 0 <= k < |articles|
          ensures Ok(r[k]) == PruneArticle(articles[k], u)
        {
          if k > 0 {
            assert r[k] == rest.value[k - 1];
          }
        }
      } else if first.Ok? {
        var j :| 0 <= j < |tail| && PruneArticle(tail[j], u).Err?;
        assert PruneArticle(articles[j + 1], u).Err?;
      }
    }
  }

  /** A failing reference fails with the error of its first failing article. */
  lemma {:induction false} PruneArticlesErr(articles: seq<Article>, u: Option<string>)
    requires PruneArticles(articles, u).Err?
    ensures exists k :: FirstFailingArticle(articles, u, k) && PruneArticle(articles[k], u) == Err(PruneArticles(articles, u).error)
  {
    var first := PruneArticle(articles[0], u);
    if first.Err? {
      assert FirstFailingArticle(articles, u, 0);
    } else {
      var tail := articles[1..];
      PruneArticlesErr(tail, u);
      var k :| FirstFailingArticle(tail, u, k) && PruneArticle(tail[k], u) == Err(PruneArticles(tail, u).error);
      assert forall j :: 1 <= j <= k + 1 ==> articles[j] == tail[j - 1];
      assert FirstFailingArticle(articles, u, k + 1);
    }
  }

  /** One unfolding of the reference. */
  lemma PruneArticlesStep(articles: seq<Article>, u: Option<string>)
    requires articles != []
    ensures var first := PruneArticle(articles[0], u);
      var rest := PruneArticles(articles[1..], u);
      PruneArticles(articles, u)
      == if first.Err? then Err(first.error)
         else if rest.Err? then Err(rest.error)
         else Ok([first.value] + rest.value)
  {
  }

  /** `k` is the first article whose pruning fails. */
  predicate FirstFailingArticle(articles: seq<Article>, u: Option<string>, k: int) {
    0 <= k < |articles| && PruneArticle(articles[k], u).Err?
    && forall j :: 0 <= j < k ==> PruneArticle(articles[j], u).Ok?
  }

  /** The Ok-step of the induction below: one more pruned article in front of the rest. */
  lemma PrependPruned(prefix: seq<Article>, a: Article, rest: Result<seq<Article>, FilterError>, o: Outcome)
    requires rest.Err? ==> o.error == Some(rest.error)
    requires rest.Ok? ==> o.error == None && o.document == Document(prefix + [a] + rest.value)
    ensures var whole: Result<seq<Article>, FilterError> := if rest.Err? then Err(rest.error) else Ok([a] + rest.value);
      && (whole.Err? ==> o.error == Some(whole.error))
      && (whole.Ok? ==> o.error == None && o.document == Document(prefix + whole.value))
  {
    if rest.Ok? {
      assert prefix + [a] + rest.value == prefix + ([a] + rest.value);
    }
  }

  /** The article loop from `i` on prunes the articles after `i` each on its own and leaves the others. */
  lemma {:induction false} RunFromPrunes(d: Document, i: nat, cfg: Configuration, acc: Option<Accumulator>, w: Option<Accumulator>)
    requires i <= |d.articles|
    ensures var o := RunFrom(d, i, cfg, acc, w);
      var p := PruneArticles(d.articles[i..], cfg.uploader);
      && (p.Err? ==> o.error == Some(p.error))
      && (p.Ok? ==> o.error == None && o.document == Document(d.articles[..i] + p.value))
    decreases |d.articles| - i
  {
    var u := cfg.uploader;
    if i == |d.articles| {
      assert d.articles[..i] + [] == d.articles;
    } else {
      var tail := d.articles[i..];
      assert tail[0] == d.articles[i];
      PruneArticlesStep(tail, u);
      var r := PruneArticle(d.articles[i], u);
      if r.Err? {
        RunFromFails(d, i, cfg, acc, w);
      } else {
        var a := r.value;
        RunFromSucceeds(d, i, cfg, acc, w, a);
        var d' := StepDocument(d, i, a);
        var acc' := StepAccumulator(acc, d', a);
        RunFromPrunes(d', i + 1, cfg, acc', if acc'.Some? then acc' else w);
        assert d'.articles[i + 1..] == tail[1..];
        assert d'.articles[..i + 1] == d.articles[..i] + [a];
        var o := RunFrom(d', i + 1, cfg, acc', if acc'.Some? then acc' else w);
        var rest := PruneArticles(tail[1..], u);
        assert RunFrom(d, i, cfg, acc, w) == o;
        assert PruneArticles(tail, u) == if rest.Err? then Err(rest.error) else Ok([a] + rest.value);
        PrependPruned(d.articles[..i], a, rest, o);
      }
    }
  }

  /**
   * The whole run against the reference: it ends without error exactly when
   * every article prunes on its own, the document then being the pruned
   * articles; otherwise it stops with the first failing article's error, and
   * the document is never saved.
   */
  lemma RunIsPruneArticles(d: Document, cfg: Configuration, side: SideData)
    ensures var o := Run(d, cfg, side);
      var p := PruneArticles(d.articles, cfg.uploader);
      && (o.error.None? <==> p.Ok?)
      && (p.Ok? ==> o.document == Document(p.value))
      && (p.Err? ==> o.error == Some(p.error))
  {
    var o := RunFrom(d, 0, cfg, InitialAccumulator(cfg, side), None);
    assert Run(d, cfg, side) == o;
    RunFromPrunes(d, 0, cfg, InitialAccumulator(cfg, side), None);
    assert d.articles[0..] == d.articles;
    var p := PruneArticles(d.articles, cfg.uploader);
    if p.Ok? {
      assert d.articles[..0] + p.value == p.value;
    }
  }

  /** An article without a current publication stops the run, once the articles before it have been pruned. */
  lemma NoCurrentPublicationStopsRun(d: Document, cfg: Configuration, side: SideData, k: nat)
    requires k < |d.articles| && forall j :: 0 <= j < k ==> PruneArticle(d.articles[j], cfg.uploader).Ok?
    requires QuotableInXPath(d.articles[k].currentPublicationId)
    requires forall j :: 0 <= j < |d.articles[k].publications| ==> !HasId(d.articles[k].publications[j], d.articles[k].currentPublicationId)
    ensures Run(d, cfg, side).error == Some(NoCurrentPublication)
  {
    RunIsPruneArticles(d, cfg, side);
    var p := PruneArticles(d.articles, cfg.uploader);
    PruneArticlesOk(d.articles, cfg.uploader);
    PruneArticlesErr(d.articles, cfg.uploader);
    var f :| FirstFailingArticle(d.articles, cfg.uploader, f) && PruneArticle(d.articles[f], cfg.uploader) == Err(p.error);
    assert f == k;
  }

  /** Likewise an article whose current publication id holds a quote, which breaks the query. */
  lemma QuotedPublicationIdStopsRun(d: Document, cfg: Configuration, side: SideData, k: nat)
    requires k < |d.articles| && forall j :: 0 <= j < k ==> PruneArticle(d.articles[j], cfg.uploader).Ok?
    requires !QuotableInXPath(d.articles[k].currentPublicationId)
    ensures Run(d, cfg, side).error == Some(MalformedQuery)
  {
    RunIsPruneArticles(d, cfg, side);
    var p := PruneArticles(d.articles, cfg.uploader);
    PruneArticlesOk(d.articles, cfg.uploader);
    PruneArticlesErr(d.articles, cfg.uploader);
    var f :| FirstFailingArticle(d.articles, cfg.uploader, f) && PruneArticle(d.articles[f], cfg.uploader) == Err(p.error);
    assert f == k;
  }

  /** Without accumulation no report is ever written. */
  lemma {:induction false} RunFromWithoutAccumulation(d: Document, i: nat, cfg: Configuration, w: Option<Accumulator>)
    requires i <= |d.articles|
    ensures RunFrom(d, i, cfg, None, w).written == w
    decreases |d.articles| - i
  {
    if i < |d.articles| {
      match PruneArticle(d.articles[i], cfg.uploader)
      case Err(_) =>
        RunFromFails(d, i, cfg, None, w);
      case Ok(a) =>
        RunFromSucceeds(d, i, cfg, None, w, a);
        RunFromWithoutAccumulation(StepDocument(d, i, a), i + 1, cfg, w);
    }
  }

  lemma RunWithoutAccumulation(d: Document, cfg: Configuration, side: SideData)
    requires !Accumulates(cfg)
    ensures Run(d, cfg, side).written == None
  {
    RunFromWithoutAccumulation(d, 0, cfg, None);
  }

  /** Neither set holds a value twice. */
  predicate DuplicateFree(acc: Option<Accumulator>) {
    acc.Some? ==> NoDuplicates(acc.value.locales) && NoDuplicates(acc.value.genres)
  }

  /** Accumulating keeps the sets free of duplicates. */
  lemma AccumulateDuplicateFree(acc: Option<Accumulator>, w: Option<Accumulator>, d: Document, a: Article)
    requires DuplicateFree(acc) && DuplicateFree(w)
    ensures var acc' := StepAccumulator(acc, d, a);
      DuplicateFree(acc') && DuplicateFree(if acc'.Some? then acc' else w)
  {
  }

  lemma {:induction false} RunFromNoDuplicates(d: Document, i: nat, cfg: Configuration, acc: Option<Accumulator>, w: Option<Accumulator>)
    requires i <= |d.articles|
    requires DuplicateFree(acc) && DuplicateFree(w)
    ensures DuplicateFree(RunFrom(d, i, cfg, acc, w).written)
    decreases |d.articles| - i
  {
    if i < |d.articles| {
      var r := PruneArticle(d.articles[i], cfg.uploader);
      if r.Err? {
        RunFromFails(d, i, cfg, acc, w);
      } else {
        var a := r.value;
        RunFromSucceeds(d, i, cfg, acc, w, a);
        var d' := StepDocument(d, i, a);
        var acc' := StepAccumulator(acc, d', a);
        var w' := if acc'.Some? then acc' else w;
        AccumulateDuplicateFree(acc, w, d', a);
        RunFromNoDuplicates(d', i + 1, cfg, acc', w');
      }
    } else {
      assert RunFrom(d, i, cfg, acc, w).written == w;
    }
  }

  /** The sets never hold a value twice, so the written lists say each locale and genre once. */
  lemma RunNoDuplicates(d: Document, cfg: Configuration, side: SideData)
    ensures var o := Run(d, cfg, side);
      o.written.Some? ==> NoDuplicates(o.written.value.locales) && NoDuplicates(o.written.value.genres)
  {
    assert NoDuplicates([]);
    RunFromNoDuplicates(d, 0, cfg, InitialAccumulator(cfg, side), None);
  }

  /** Once the locale set holds every locale of the document, later articles add none. */
  lemma {:induction false} RunFromLocalesSettled(d: Document, i: nat, cfg: Configuration, ac: Accumulator)
    requires i <= |d.articles|
    requires forall x :: x in DocumentLocales(d) ==> x in ac.locales
    ensures var o := RunFrom(d, i, cfg, Some(ac), Some(ac));
      o.written.Some? && o.written.value.locales == ac.locales
    decreases |d.articles| - i
  {
    if i < |d.articles| {
      match PruneArticle(d.articles[i], cfg.uploader)
      case Err(_) =>
        RunFromFails(d, i, cfg, Some(ac), Some(ac));
      case Ok(a) =>
        RunFromSucceeds(d, i, cfg, Some(ac), Some(ac), a);
        var d' := StepDocument(d, i, a);
        StepKeepsLocales(d, i, cfg.uploader, a);
        InsertAllPresent(ac.locales, DocumentLocales(d'));
        var ac' := Accumulate(ac, d', a);
        assert ac'.locales == ac.locales;
        RunFromLocalesSettled(d', i + 1, cfg, ac');
    }
  }

  /**
   * The locale scan covers the whole document, later articles included;
   * since processing only removes nodes, the final locale set is the side
   * file's locales followed by the locales present once the first article
   * is pruned, whatever happens to the articles after it.
   */
  lemma RunLocales(d: Document, cfg: Configuration, side: SideData)
    requires Accumulates(cfg) && |d.articles| > 0 && PruneArticle(d.articles[0], cfg.uploader).Ok?
    ensures var d0 := StepDocument(d, 0, PruneArticle(d.articles[0], cfg.uploader).value);
      var o := Run(d, cfg, side);
      o.written.Some? && o.written.value.locales == InsertAll(InsertAll([], side.locales), DocumentLocales(d0))
  {
    var a := PruneArticle(d.articles[0], cfg.uploader).value;
    var ac := InitialAccumulator(cfg, side).value;
    RunFromSucceeds(d, 0, cfg, Some(ac), None, a);
    var d0 := StepDocument(d, 0, a);
    var ac' := Accumulate(ac, d0, a);
    RunFromLocalesSettled(d0, 1, cfg, ac');
  }

  /** Every genre of the given articles' submission files, article by article. */
  function AllGenres(articles: seq<Article>): seq<string> {
    if articles == [] then [] else Genres(articles[0].submissionFiles) + AllGenres(articles[1..])
  }

  lemma {:induction false} RunFromGenres(d: Document, i: nat, cfg: Configuration, ac: Accumulator, w: Option<Accumulator>)
    requires i <= |d.articles| && PruneArticles(d.articles[i..], cfg.uploader).Ok?
    requires i < |d.articles| || w == Some(ac)
    ensures var o := RunFrom(d, i, cfg, Some(ac), w);
      o.written.Some?
      && o.written.value.genres == InsertAll(ac.genres, AllGenres(PruneArticles(d.articles[i..], cfg.uploader).value))
    decreases |d.articles| - i
  {
    var u := cfg.uploader;
    var tail := d.articles[i..];
    if i == |d.articles| {
      assert tail == [];
      assert RunFrom(d, i, cfg, Some(ac), w) == Outcome(d, w, None);
    } else {
      assert tail[0] == d.articles[i];
      PruneArticlesStep(tail, u);
      var first := PruneArticle(d.articles[i], u);
      var rest := PruneArticles(tail[1..], u);
      assert first.Ok? && rest.Ok?;
      var a := first.value;
      var ps := [a] + rest.value;
      assert PruneArticles(tail, u).value == ps;
      RunFromSucceeds(d, i, cfg, Some(ac), w, a);
      var d' := StepDocument(d, i, a);
      var ac' := Accumulate(ac, d', a);
      assert d'.articles[i + 1..] == tail[1..];
      assert ps[1..] == rest.value;
      assert AllGenres(ps) == Genres(a.submissionFiles) + AllGenres(rest.value);
      InsertAllAppend(ac.genres, Genres(a.submissionFiles), AllGenres(rest.value));
      var o := RunFrom(d, i, cfg, Some(ac), w);
      var o' := RunFrom(d', i + 1, cfg, Some(ac'), Some(ac'));
      assert o == o';
      assert ac'.genres == InsertAll(ac.genres, Genres(a.submissionFiles));
      RunFromGenres(d', i + 1, cfg, ac', Some(ac'));
    }
  }

  /**
   * When every article prunes, the final genre set is the side file's genres
   * followed by the genres of the surviving submission files, article by
   * article; a removed submission file contributes no genre.
   */
  lemma RunGenres(d: Document, cfg: Configuration, side: SideData)
    requires Accumulates(cfg) && |d.articles| > 0 && PruneArticles(d.articles, cfg.uploader).Ok?
    ensures var o := Run(d, cfg, side);
      o.written.Some?
      && o.written.value.genres == InsertAll(InsertAll([], side.genres), AllGenres(o.document.articles))
  {
    assert d.articles[0..] == d.articles;
    RunFromGenres(d, 0, cfg, InitialAccumulator(cfg, side).value, None);
    RunIsPruneArticles(d, cfg, side);
  }
}
