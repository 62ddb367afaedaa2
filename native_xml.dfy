/**
 * The parts of a Native XML export that the two scripts read or change, as a
 * typed tree. Each path query of the scripts becomes an accessor here.
 * "In document order" is the order of the sequences.
 */
module NativeXml {
  import opened Wrappers

  /** A `pkp:id` element: its `type` attribute, if any, and its text. */
  datatype Identifier = Identifier(idType: Option<string>, text: string)

  /** A `pkp:article_galley`: the `id` attributes of its `pkp:submission_file_ref` children. */
  datatype Galley = Galley(fileRefs: seq<string>)

  /**
   * A `pkp:publication`: its `pkp:id` and `pkp:title` children (titles as
   * their untrimmed text content), its galleys, and every `locale`
   * attribute inside it.
   */
  datatype Publication = Publication(ids: seq<Identifier>, titles: seq<string>, galleys: seq<Galley>, locales: seq<string>)

  /** A `pkp:file` revision of a submission file, by its `id` attribute. */
  datatype FileEntry = FileEntry(id: string)

  /**
   * A `pkp:submission_file`: its `id`, `file_id` and `genre` attributes (the
   * empty string when absent, as `getAttribute` gives), the `id` of its first
   * owner `pkp:submission_file_ref`, its `uploader` attribute, its
   * `pkp:file` children and every `locale` attribute inside it.
   */
  datatype SubmissionFile = SubmissionFile(
    id: string,
    fileId: string,
    ownerRef: Option<string>,
    genre: string,
    uploader: Option<string>,
    files: seq<FileEntry>,
    locales: seq<string>)

  /**
   * A `pkp:article`: its `current_publication_id` attribute, the `locale`
   * attributes on it and on its other descendants, then its submission files
   * and its publications, in the order a Native XML export lists them.
   */
  datatype Article = Article(
    currentPublicationId: string,
    locales: seq<string>,
    submissionFiles: seq<SubmissionFile>,
    publications: seq<Publication>)

  /** The articles of the document, as `//pkp:article` finds them. */
  datatype Document = Document(articles: seq<Article>)

  /**
   * `pkp:id[text() = '<t>']` matches in the publication. An empty `pkp:id`
   * has no text node, so the empty id matches nothing.
   */
  predicate HasId(p: Publication, t: string) {
    t != "" && exists k :: 0 <= k < |p.ids| && p.ids[k].text == t
  }

  /**
   * Whether the current publication id can go into the single-quoted XPath
   * literal `'<pid>'` both scripts build; a quote would end the literal early.
   */
  predicate QuotableInXPath(pid: string) {
    '\'' !in pid
  }

  /**
   * `pkp:publication/pkp:id[text() = '<pid>']/..`, first item: the index of
   * the first publication, in document order, holding an id equal to `pid`.
   */
  function CurrentPublicationIndex(pubs: seq<Publication>, pid: string): (r: Option<nat>)
    ensures r.Some? ==> r.value < |pubs| && HasId(pubs[r.value], pid)
    ensures r.Some? ==> forall j :: 0 <= j < r.value ==> !HasId(pubs[j], pid)
    ensures r.None? <==> forall j :: 0 <= j < |pubs| ==> !HasId(pubs[j], pid)
  {
    if pubs == [] then None
    else if HasId(pubs[0], pid) then Some(0)
    else
      match CurrentPublicationIndex(pubs[1..], pid)
      case None => None
      case Some(k) => Some(k + 1)
  }

  /** Every `locale` attribute of the given submission files, in document order. */
  function SubmissionFileLocales(sfs: seq<SubmissionFile>): seq<string> {
    if sfs == [] then [] else SubmissionFileLocales(sfs[..|sfs| - 1]) + sfs[|sfs| - 1].locales
  }

  /** Every `locale` attribute of the given publications, in document order. */
  function PublicationLocales(pubs: seq<Publication>): seq<string> {
    if pubs == [] then [] else PublicationLocales(pubs[..|pubs| - 1]) + pubs[|pubs| - 1].locales
  }

  /** Every `locale` attribute inside the article. */
  function ArticleLocales(a: Article): seq<string> {
    a.locales + SubmissionFileLocales(a.submissionFiles) + PublicationLocales(a.publications)
  }

  function ArticlesLocales(articles: seq<Article>): seq<string> {
    if articles == [] then [] else ArticlesLocales(articles[..|articles| - 1]) + ArticleLocales(articles[|articles| - 1])
  }

  /** `//@locale`: every `locale` attribute of the document, in document order. */
  function DocumentLocales(d: Document): seq<string> {
    ArticlesLocales(d.articles)
  }
}
