/**
 * The scrape routines of `main.py` and the dispatch over the four modes.
 * Pages arrive as already-parsed element sequences (see `Soup`), every
 * fetched page comes from the `Site` the run is given, and `urljoin` is the
 * site's `join` function.
 */
module Scraper {
  import opened Wrappers
  import opened PyStr
  import opened Soup
  import opened Exceptions
  import opened Constants
  import opened Utils
  import opened VersionPattern

  /** One cell of a result table: a string, or a count in the PEP summary. */
  datatype Cell = Text(text: string) | Num(count: nat)

  type Row = seq<Cell>

  /** The `results` list a routine hands to the output stage: a header row first. */
  type Table = seq<Row>

  // ---------------------------------------------------------------------
  // One row per item, as long as no item raises
  // ---------------------------------------------------------------------

  /**
   * A loop that appends `f(x)` for every `x` in order and lets the first
   * exception escape: the rows of every item, or the first item's error.
   */
  function MapAll<T, U>(xs: seq<T>, f: T -> Result<U, ScrapeError>): (r: Result<seq<U>, ScrapeError>)
    ensures r.Success? ==> |r.value| == |xs|
    decreases |xs|
  {
    if xs == [] then Success([])
    else
      var init :- MapAll(xs[..|xs| - 1], f);
      var last :- f(xs[|xs| - 1]);
      Success(init + [last])
  }

  /** When every item succeeds, the rows are the items' rows, in order. */
  lemma {:induction false} MapAllRows<T, U>(xs: seq<T>, f: T -> Result<U, ScrapeError>)
    ensures MapAll(xs, f).Success? <==> forall k | 0 <= k < |xs| :: f(xs[k]).Success?
    ensures MapAll(xs, f).Success? ==> forall k | 0 <= k < |xs| :: MapAll(xs, f).value[k] == f(xs[k]).value
    decreases |xs|
  {
    if xs != [] {
      var init := xs[..|xs| - 1];
      MapAllRows(init, f);
      assert forall k | 0 <= k < |init| :: init[k] == xs[k];
    }
  }

  /** Otherwise the exception is that of the first item that raises. */
  lemma {:induction false} MapAllFirstFailure<T, U>(xs: seq<T>, f: T -> Result<U, ScrapeError>)
    ensures MapAll(xs, f).Failure? ==> exists k | 0 <= k < |xs| ::
      && f(xs[k]).Failure?
      && MapAll(xs, f).error == f(xs[k]).error
      && forall j | 0 <= j < k :: f(xs[j]).Success?
    decreases |xs|
  {
    if xs != [] {
      var init := xs[..|xs| - 1];
      MapAllFirstFailure(init, f);
      MapAllRows(init, f);
      assert forall k | 0 <= k < |init| :: init[k] == xs[k];
    }
  }

  /** One more item: its row is appended, or its exception ends the loop. */
  lemma MapAllStep<T, U>(xs: seq<T>, f: T -> Result<U, ScrapeError>, i: nat)
    requires i < |xs| && MapAll(xs[..i], f).Success?
    ensures f(xs[i]).Success? ==> MapAll(xs[..i + 1], f) == Success(MapAll(xs[..i], f).value + [f(xs[i]).value])
    ensures f(xs[i]).Failure? ==> MapAll(xs[..i + 1], f) == Failure(f(xs[i]).error)
  {
    assert xs[..i + 1][..i] == xs[..i];
  }

  /** Once an exception has escaped, the later items change nothing. */
  lemma {:induction false} MapAllSticks<T, U>(xs: seq<T>, f: T -> Result<U, ScrapeError>, n: nat)
    requires n <= |xs| && MapAll(xs[..n], f).Failure?
    ensures MapAll(xs, f) == MapAll(xs[..n], f)
    decreases |xs|
  {
    if n < |xs| {
      var init := xs[..|xs| - 1];
      assert init[..n] == xs[..n];
      MapAllSticks(init, f, n);
    } else {
      assert xs[..n] == xs;
    }
  }

  /** `results = [header]`, then one appended row per item: the shape of both table routines. */
  function Headed<T>(header: Row, xs: seq<T>, f: T -> Result<Row, ScrapeError>): Result<Table, ScrapeError> {
    var rows :- MapAll(xs, f);
    Success([header] + rows)
  }

  /** The table fails exactly when some item raises, with the first such item's exception. */
  lemma HeadedFails<T>(header: Row, xs: seq<T>, f: T -> Result<Row, ScrapeError>)
    ensures Headed(header, xs, f).Failure? <==> exists k | 0 <= k < |xs| :: f(xs[k]).Failure?
    ensures Headed(header, xs, f).Failure? ==> exists k | 0 <= k < |xs| ::
      && f(xs[k]) == Failure(Headed(header, xs, f).error)
      && forall j | 0 <= j < k :: f(xs[j]).Success?
  {
    MapAllRows(xs, f);
    MapAllFirstFailure(xs, f);
  }

  /** Otherwise it is the header followed by one row per item, in order. */
  lemma HeadedRows<T>(header: Row, xs: seq<T>, f: T -> Result<Row, ScrapeError>)
    requires Headed(header, xs, f).Success?
    ensures var t := Headed(header, xs, f).value;
      && |t| == |xs| + 1
      && t[0] == header
      && forall k | 0 <= k < |xs| :: f(xs[k]).Success? && t[k + 1] == f(xs[k]).value
  {
    MapAllRows(xs, f);
    var rows := MapAll(xs, f).value;
    var t := [header] + rows;
    forall k | 0 <= k < |xs|
      ensures t[k + 1] == rows[k]
    {
    }
  }

  // ---------------------------------------------------------------------
  // whats_new
  // ---------------------------------------------------------------------

  /**
   * The "What's New" index page: the section's subtree holds the wrapper
   * `div`, whose subtree holds the `li` items, whose subtree holds links.
   */
  type TocItem = Element<Doc<()>>
  type WhatsNewPage = Doc<Doc<Doc<Doc<()>>>>

  /** An article page, each element with its `.text`. */
  type ArticlePage = Doc<string>

  const WHATS_NEW_SECTION: Filter := Filter("section", map["id" := "what-s-new-in-python"], {})
  const TOCTREE_WRAPPER: Filter := Filter("div", map["class" := "toctree-wrapper"], {})
  const TOCTREE_ITEM: Filter := Filter("li", map["class" := "toctree-l1"], {})
  const LINK: Filter := Filter("a", map[], {})
  const TITLE: Filter := Filter("h1", map[], {})
  const DEFINITIONS: Filter := Filter("dl", map[], {})

  const WHATS_NEW_HEADER: Row := [Text("Ссылка на статью"), Text("Заголовок"), Text("Редактор, автор")]

  /** `urljoin(MAIN_DOC_URL, 'whatsnew/')`. */
  function WhatsNewUrl(join: (string, string) -> string): string {
    join(MAIN_DOC_URL, "whatsnew/")
  }

  /**
   * `section.find('a')['href']`: the `href` of the item's first link; no
   * link, or a first link without `href`, raises.
   */
  function ItemHref(item: TocItem): (r: Result<string, ScrapeError>)
    ensures r.Failure? ==> r.error == MissingHref
    ensures var first := FindFirst(item.content, LINK);
      r.Success? <==> first.Some? && "href" in item.content[first.value].attrs
    ensures r.Success? ==> r.value == item.content[FindFirst(item.content, LINK).value].attrs["href"]
  {
    match FindFirst(item.content, LINK)
    case None => Failure(MissingHref)
    case Some(i) =>
      var a := item.content[i];
      if "href" in a.attrs then Success(a.attrs["href"]) else Failure(MissingHref)
  }

  /**
   * The row for the article at `link`: its link, its `h1` text and its `dl`
   * text on one line; a missing `h1` or `dl` raises, `h1` checked first.
   */
  function ArticleRow(link: string, page: Fetched<ArticlePage>): (r: Result<Row, ScrapeError>)
    ensures page.Failed? ==> r == Failure(page.error)
    ensures page.Page? ==> (r.Failure? <==> FindTag(page.doc, TITLE).Failure? || FindTag(page.doc, DEFINITIONS).Failure?)
    ensures page.Page? && FindTag(page.doc, TITLE).Failure? ==> r == Failure(ParserFindTag(TITLE))
    ensures page.Page? && FindTag(page.doc, TITLE).Success? && FindTag(page.doc, DEFINITIONS).Failure? ==>
      r == Failure(ParserFindTag(DEFINITIONS))
    ensures r.Success? ==>
      && |r.value| == 3
      && r.value[0] == Text(link)
      && r.value[1] == Text(FindTag(page.doc, TITLE).value.content)
      && r.value[2] == Text(ReplaceNewlines(FindTag(page.doc, DEFINITIONS).value.content))
      && '\n' !in r.value[2].text
  {
    match page
    case Failed(e) => Failure(e)
    case Page(doc) =>
      var h1 :- FindTag(doc, TITLE);
      var dl :- FindTag(doc, DEFINITIONS);
      Success([Text(link), Text(h1.content), Text(ReplaceNewlines(dl.content))])
  }

  /**
   * The loop body for one toctree item: the item's link joined onto the
   * index URL, then the row of the article found there.
   */
  function ArticleFor(item: TocItem, join: (string, string) -> string, pages: string -> Fetched<ArticlePage>)
    : (r: Result<Row, ScrapeError>)
    ensures ItemHref(item).Failure? ==> r == Failure(MissingHref)
    ensures ItemHref(item).Success? ==>
      var link := join(WhatsNewUrl(join), ItemHref(item).value);
      r == ArticleRow(link, pages(link))
    ensures r.Success? ==>
      && ItemHref(item).Success?
      && |r.value| == 3
      && r.value[0] == Text(join(WhatsNewUrl(join), ItemHref(item).value))
      && r.value[2].Text? && '\n' !in r.value[2].text
  {
    var href :- ItemHref(item);
    var link := join(WhatsNewUrl(join), href);
    ArticleRow(link, pages(link))
  }

  /**
   * The toctree items of the index page, in document order; a missing
   * section or wrapper raises, the section looked up first.
   */
  function TocItems(doc: WhatsNewPage): (r: Result<Doc<Doc<()>>, ScrapeError>)
    ensures FindTag(doc, WHATS_NEW_SECTION).Failure? ==> r == Failure(ParserFindTag(WHATS_NEW_SECTION))
    ensures FindTag(doc, WHATS_NEW_SECTION).Success? ==>
      var wrapper := FindTag(FindTag(doc, WHATS_NEW_SECTION).value.content, TOCTREE_WRAPPER);
      && (wrapper.Failure? ==> r == Failure(ParserFindTag(TOCTREE_WRAPPER)))
      && (wrapper.Success? ==> r.Success? && |r.value| <= |wrapper.value.content|)
    ensures r.Success? ==> forall k | 0 <= k < |r.value| :: Matches(r.value[k], TOCTREE_ITEM)
  {
    var mainDiv :- FindTag(doc, WHATS_NEW_SECTION);
    var divWithUl :- FindTag(mainDiv.content, TOCTREE_WRAPPER);
    FindAllMembers(divWithUl.content, TOCTREE_ITEM);
    Success(FindAll(divWithUl.content, TOCTREE_ITEM))
  }

  /**
   * Once both lookups succeed, the items are exactly the wrapper's
   * `li.toctree-l1` elements, in document order.
   */
  lemma TocItemsAll(doc: WhatsNewPage)
    requires TocItems(doc).Success?
    ensures FindTag(doc, WHATS_NEW_SECTION).Success?
    ensures FindTag(FindTag(doc, WHATS_NEW_SECTION).value.content, TOCTREE_WRAPPER).Success?
    ensures TocItems(doc).value
      == FindAll(FindTag(FindTag(doc, WHATS_NEW_SECTION).value.content, TOCTREE_WRAPPER).value.content, TOCTREE_ITEM)
  {
  }

  /** What `whats_new` returns or raises. */
  function WhatsNewTable(page: Fetched<WhatsNewPage>, join: (string, string) -> string, pages: string -> Fetched<ArticlePage>)
    : Result<Table, ScrapeError>
  {
    match page
    case Failed(e) => Failure(e)
    case Page(doc) =>
      var items :- TocItems(doc);
      Headed(WHATS_NEW_HEADER, items, item => ArticleFor(item, join, pages))
  }

  /**
   * A fetch failure or a missing section or wrapper on the index page is
   * fatal: `whats_new` raises that exception before reading any article.
   */
  lemma WhatsNewIndexFatal(page: Fetched<WhatsNewPage>, join: (string, string) -> string, pages: string -> Fetched<ArticlePage>)
    ensures page.Failed? ==> WhatsNewTable(page, join, pages) == Failure(page.error)
    ensures page.Page? && TocItems(page.doc).Failure? ==>
      WhatsNewTable(page, join, pages) == Failure(TocItems(page.doc).error)
    ensures page.Page? && FindTag(page.doc, WHATS_NEW_SECTION).Failure? ==>
      WhatsNewTable(page, join, pages) == Failure(ParserFindTag(WHATS_NEW_SECTION))
  {
  }

  /**
   * An article that cannot be read stops the whole routine: the table fails
   * exactly when some toctree item does, with the first such item's exception.
   */
  lemma WhatsNewFails(doc: WhatsNewPage, join: (string, string) -> string, pages: string -> Fetched<ArticlePage>)
    requires TocItems(doc).Success?
    ensures var items := TocItems(doc).value;
      WhatsNewTable(Page(doc), join, pages).Failure? <==>
        exists k | 0 <= k < |items| :: ArticleFor(items[k], join, pages).Failure?
    ensures var items := TocItems(doc).value;
      var r := WhatsNewTable(Page(doc), join, pages);
      r.Failure? ==> exists k | 0 <= k < |items| ::
        && ArticleFor(items[k], join, pages) == Failure(r.error)
        && forall j | 0 <= j < k :: ArticleFor(items[j], join, pages).Success?
  {
    WhatsNewHeaded(doc, join, pages);
    ArticlesFail(TocItems(doc).value, join, pages);
  }

  /** Once the toctree items are found, `whats_new` is the article loop over them. */
  lemma WhatsNewHeaded(doc: WhatsNewPage, join: (string, string) -> string, pages: string -> Fetched<ArticlePage>)
    requires TocItems(doc).Success?
    ensures WhatsNewTable(Page(doc), join, pages) == Headed(WHATS_NEW_HEADER, TocItems(doc).value, item => ArticleFor(item, join, pages))
  {
  }

  /** `Headed` over the article rows fails iff some item does, with the first item's exception. */
  lemma ArticlesFail(items: seq<TocItem>, join: (string, string) -> string, pages: string -> Fetched<ArticlePage>)
    ensures var r := Headed(WHATS_NEW_HEADER, items, item => ArticleFor(item, join, pages));
      r.Failure? <==> exists k | 0 <= k < |items| :: ArticleFor(items[k], join, pages).Failure?
    ensures var r := Headed(WHATS_NEW_HEADER, items, item => ArticleFor(item, join, pages));
      r.Failure? ==> exists k | 0 <= k < |items| ::
        && ArticleFor(items[k], join, pages) == Failure(r.error)
        && forall j | 0 <= j < k :: ArticleFor(items[j], join, pages).Success?
  {
    var f := item => ArticleFor(item, join, pages);
    HeadedFails(WHATS_NEW_HEADER, items, f);
    assert forall k | 0 <= k < |items| :: f(items[k]) == ArticleFor(items[k], join, pages);
  }

  /**
   * Otherwise the table is the header and one row per toctree item, in
   * order, each the row `ArticleFor` describes.
   */
  lemma WhatsNewRows(doc: WhatsNewPage, join: (string, string) -> string, pages: string -> Fetched<ArticlePage>)
    requires TocItems(doc).Success? && WhatsNewTable(Page(doc), join, pages).Success?
    ensures var items := TocItems(doc).value;
      var t := WhatsNewTable(Page(doc), join, pages).value;
      && |t| == |items| + 1
      && t[0] == WHATS_NEW_HEADER
      && forall k | 0 <= k < |items| ::
           && ArticleFor(items[k], join, pages).Success?
           && t[k + 1] == ArticleFor(items[k], join, pages).value
  {
    var items := TocItems(doc).value;
    var f := item => ArticleFor(item, join, pages);
    WhatsNewHeaded(doc, join, pages);
    HeadedRows(WHATS_NEW_HEADER, items, f);
    var t := Headed(WHATS_NEW_HEADER, items, f).value;
    forall k | 0 <= k < |items|
      ensures ArticleFor(items[k], join, pages).Success? && t[k + 1] == ArticleFor(items[k], join, pages).value
    {
      assert f(items[k]) == ArticleFor(items[k], join, pages);
    }
  }

  /**
   * The body of `whats_new`'s loop for one toctree item: read its link,
   * fetch the article, find its `h1` and `dl`.
   */
  method ReadArticle(section: TocItem, whatsNewUrl: string, join: (string, string) -> string,
                     pages: string -> Fetched<ArticlePage>)
    returns (r: Result<Row, ScrapeError>)
    requires whatsNewUrl == WhatsNewUrl(join)
    ensures r == ArticleFor(section, join, pages)
  {
    var href :- ItemHref(section);
    var versionLink := join(whatsNewUrl, href);
    var soup := pages(versionLink);
    if soup.Failed? {
      return Failure(soup.error);
    }
    var h1 :- FindTag(soup.doc, TITLE);
    var dl :- FindTag(soup.doc, DEFINITIONS);
    var dlText := ReplaceNewlines(dl.content);
    return Success([Text(versionLink), Text(h1.content), Text(dlText)]);
  }

  /** `whats_new`: the loop that appends a row per toctree item. */
  method WhatsNew(page: Fetched<WhatsNewPage>, join: (string, string) -> string, pages: string -> Fetched<ArticlePage>)
    returns (r: Result<Table, ScrapeError>)
    ensures r == WhatsNewTable(page, join, pages)
  {
    var whatsNewUrl := WhatsNewUrl(join);
    if page.Failed? {
      return Failure(page.error);
    }
    var mainDiv :- FindTag(page.doc, WHATS_NEW_SECTION);
    var divWithUl :- FindTag(mainDiv.content, TOCTREE_WRAPPER);
    var sectionsByPython := FindAll(divWithUl.content, TOCTREE_ITEM);
    r := ArticleTable(sectionsByPython, whatsNewUrl, join, pages);
  }

  /** The loop of `whats_new`: one row per toctree item, after the header. */
  method ArticleTable(sectionsByPython: seq<TocItem>, whatsNewUrl: string, join: (string, string) -> string,
                      pages: string -> Fetched<ArticlePage>)
    returns (r: Result<Table, ScrapeError>)
    requires whatsNewUrl == WhatsNewUrl(join)
    ensures r == Headed(WHATS_NEW_HEADER, sectionsByPython, item => ArticleFor(item, join, pages))
  {
    ghost var f := item => ArticleFor(item, join, pages);
    var results: Table := [WHATS_NEW_HEADER];
    assert sectionsByPython[..0] == [];
    for i := 0 to |sectionsByPython|
      invariant MapAll(sectionsByPython[..i], f).Success?
      invariant results == [WHATS_NEW_HEADER] + MapAll(sectionsByPython[..i], f).value
    {
      MapAllStep(sectionsByPython, f, i);
      var row := ReadArticle(sectionsByPython[i], whatsNewUrl, join, pages);
      assert row == f(sectionsByPython[i]);
      if row.Failure? {
        MapAllSticks(sectionsByPython, f, i + 1);
        return Failure(row.error);
      }
      results := results + [row.value];
    }
    assert sectionsByPython[..|sectionsByPython|] == sectionsByPython;
    return Success(results);
  }

  // ---------------------------------------------------------------------
  // latest_versions
  // ---------------------------------------------------------------------

  /** A `ul` of the sidebar: its `.text`, and its subtree of links with their `.text`. */
  datatype ListContent = ListContent(text: string, subtree: Doc<string>)

  /** The main documentation page: the sidebar's subtree holds the `ul` lists. */
  type DocsIndexPage = Doc<Doc<ListContent>>

  const SIDEBAR: Filter := Filter("div", map["class" := "sphinxsidebarwrapper"], {})
  const LIST: Filter := Filter("ul", map[], {})
  const ALL_VERSIONS := "All versions"
  const NO_ALL_VERSIONS: ScrapeError := Parsing("Не найден раздел \"All versions\" в боковом меню.")

  const LATEST_VERSIONS_HEADER: Row := [Text("Ссылка на документацию"), Text("Версия"), Text("Статус")]

  /** The first list, from `from` on, whose text mentions "All versions". */
  function AllVersionsFrom(uls: Doc<ListContent>, from: nat): (r: Option<nat>)
    requires from <= |uls|
    ensures r.Some? ==> from <= r.value < |uls| && Contains(uls[r.value].content.text, ALL_VERSIONS)
    ensures r.Some? ==> forall j | from <= j < r.value :: !Contains(uls[j].content.text, ALL_VERSIONS)
    ensures r.None? <==> forall j | from <= j < |uls| :: !Contains(uls[j].content.text, ALL_VERSIONS)
    decreases |uls| - from
  {
    if from == |uls| then None
    else if Contains(uls[from].content.text, ALL_VERSIONS) then Some(from)
    else AllVersionsFrom(uls, from + 1)
  }

  /** The sidebar's links under "All versions", or `ParsingError`. */
  function VersionLinks(doc: DocsIndexPage): Result<Doc<string>, ScrapeError> {
    var sidebar :- FindTag(doc, SIDEBAR);
    var ulTags := FindAll(sidebar.content, LIST);
    match AllVersionsFrom(ulTags, 0)
    case None => Failure(NO_ALL_VERSIONS)
    case Some(i) => Success(FindAll(ulTags[i].content.subtree, LINK))
  }

  /**
   * Without a sidebar `find_tag` raises; otherwise the links are those of
   * the first list whose text mentions "All versions", and `ParsingError`
   * is raised exactly when no list does.
   */
  lemma VersionLinksSearch(doc: DocsIndexPage)
    ensures FindTag(doc, SIDEBAR).Failure? ==> VersionLinks(doc) == Failure(ParserFindTag(SIDEBAR))
    ensures FindTag(doc, SIDEBAR).Success? ==>
      var uls := FindAll(FindTag(doc, SIDEBAR).value.content, LIST);
      var r := VersionLinks(doc);
      && (r.Failure? <==> forall j | 0 <= j < |uls| :: !Contains(uls[j].content.text, ALL_VERSIONS))
      && (r.Failure? ==> r.error == NO_ALL_VERSIONS)
      && (r.Success? ==> exists i | 0 <= i < |uls| ::
            && Contains(uls[i].content.text, ALL_VERSIONS)
            && (forall j | 0 <= j < i :: !Contains(uls[j].content.text, ALL_VERSIONS))
            && r.value == FindAll(uls[i].content.subtree, LINK))
  {
  }

  /** One link's row: `a_tag['href']` (which raises when absent), then the version split of its text. */
  function VersionRow(a: Element<string>): (r: Result<Row, ScrapeError>)
    ensures r.Failure? <==> "href" !in a.attrs
    ensures r.Failure? ==> r.error == MissingHref
    ensures r.Success? ==> r.value == [Text(a.attrs["href"]), Text(VersionSplit(a.content).version), Text(VersionSplit(a.content).status)]
  {
    if "href" !in a.attrs then Failure(MissingHref)
    else
      var sp := VersionSplit(a.content);
      Success([Text(a.attrs["href"]), Text(sp.version), Text(sp.status)])
  }

  /** What `latest_versions` returns or raises. */
  function LatestVersionsTable(page: Fetched<DocsIndexPage>): Result<Table, ScrapeError> {
    match page
    case Failed(e) => Failure(e)
    case Page(doc) =>
      var links :- VersionLinks(doc);
      Headed(LATEST_VERSIONS_HEADER, links, VersionRow)
  }

  /** Once the links are found, the table fails exactly when some link lacks its `href`. */
  lemma LatestVersionsFails(doc: DocsIndexPage)
    requires VersionLinks(doc).Success?
    ensures var links := VersionLinks(doc).value;
      LatestVersionsTable(Page(doc)).Failure? <==> exists k | 0 <= k < |links| :: "href" !in links[k].attrs
    ensures LatestVersionsTable(Page(doc)).Failure? ==> LatestVersionsTable(Page(doc)).error == MissingHref
  {
    HeadedFails(LATEST_VERSIONS_HEADER, VersionLinks(doc).value, VersionRow);
  }

  /**
   * Otherwise the table is the header and one row per link, in link order:
   * the link's `href`, then the two groups of the version pattern (or the
   * raw text and "").
   */
  lemma LatestVersionsRows(doc: DocsIndexPage)
    requires VersionLinks(doc).Success? && LatestVersionsTable(Page(doc)).Success?
    ensures var links := VersionLinks(doc).value;
      var t := LatestVersionsTable(Page(doc)).value;
      && |t| == |links| + 1
      && t[0] == LATEST_VERSIONS_HEADER
      && forall k | 0 <= k < |links| ::
           && "href" in links[k].attrs
           && t[k + 1] == [Text(links[k].attrs["href"]),
                           Text(VersionSplit(links[k].content).version),
                           Text(VersionSplit(links[k].content).status)]
  {
    HeadedRows(LATEST_VERSIONS_HEADER, VersionLinks(doc).value, VersionRow);
  }

  /**
   * The sidebar lookup and the for/else of `latest_versions`: the links of
   * the first list that mentions "All versions".
   */
  method FindVersionLinks(doc: DocsIndexPage) returns (r: Result<Doc<string>, ScrapeError>)
    ensures r == VersionLinks(doc)
  {
    var sidebar :- FindTag(doc, SIDEBAR);
    var ulTags := FindAll(sidebar.content, LIST);
    var i := 0;
    while i < |ulTags|
      invariant i <= |ulTags|
      invariant AllVersionsFrom(ulTags, i) == AllVersionsFrom(ulTags, 0)
    {
      if Contains(ulTags[i].content.text, ALL_VERSIONS) {
        assert AllVersionsFrom(ulTags, 0) == Some(i);
        return Success(FindAll(ulTags[i].content.subtree, LINK));
      }
      i := i + 1;
    }
    assert AllVersionsFrom(ulTags, 0) == None;
    return Failure(NO_ALL_VERSIONS);
  }

  /** The body of the loop over the links: `href`, then `re.search` or the fallback. */
  method ReadVersionLink(aTag: Element<string>) returns (r: Result<Row, ScrapeError>)
    ensures r == VersionRow(aTag)
  {
    if "href" !in aTag.attrs {
      return Failure(MissingHref);
    }
    var link := aTag.attrs["href"];
    var textMatch := Search(aTag.content);
    var version, status;
    if textMatch.Some? {
      version, status := textMatch.value.version, textMatch.value.status;
    } else {
      version, status := aTag.content, "";
    }
    return Success([Text(link), Text(version), Text(status)]);
  }

  /** `latest_versions`: find the list, then append a row per link. */
  method LatestVersions(page: Fetched<DocsIndexPage>) returns (r: Result<Table, ScrapeError>)
    ensures r == LatestVersionsTable(page)
  {
    if page.Failed? {
      return Failure(page.error);
    }
    var aTags := FindVersionLinks(page.doc);
    if aTags.Failure? {
      return Failure(aTags.error);
    }
    assert LatestVersionsTable(page) == Headed(LATEST_VERSIONS_HEADER, aTags.value, VersionRow);
    r := VersionTable(aTags.value);
  }

  /** The loop of `latest_versions`: one row per link, after the header. */
  method VersionTable(aTags: seq<Element<string>>) returns (r: Result<Table, ScrapeError>)
    ensures r == Headed(LATEST_VERSIONS_HEADER, aTags, VersionRow)
  {
    var results: Table := [LATEST_VERSIONS_HEADER];
    assert aTags[..0] == [];
    for k := 0 to |aTags|
      invariant MapAll(aTags[..k], VersionRow).Success?
      invariant results == [LATEST_VERSIONS_HEADER] + MapAll(aTags[..k], VersionRow).value
    {
      MapAllStep(aTags, VersionRow, k);
      var row := ReadVersionLink(aTags[k]);
      if row.Failure? {
        MapAllSticks(aTags, VersionRow, k + 1);
        return Failure(row.error);
      }
      results := results + [row.value];
    }
    assert aTags[..|aTags|] == aTags;
    return Success(results);
  }

  // ---------------------------------------------------------------------
  // pep
  // ---------------------------------------------------------------------

  const PEP_HEADER: Row := [Text("Статус"), Text("Количество")]

  /** `list(status_counts.items())`: one row per status, in insertion order. */
  function TallyRows(t: Tally): (r: seq<Row>)
    ensures |r| == |t.keys|
    ensures forall k | 0 <= k < |r| :: r[k] == [Text(t.keys[k]), Num(t.Count(t.keys[k]))]
  {
    seq(|t.keys|, k requires 0 <= k < |t.keys| => [Text(t.keys[k]), Num(t.Count(t.keys[k]))])
  }

  /** What `pep` returns (`None` for an empty PEP list) or raises. */
  function PepTable(index: Fetched<PepIndex>, pages: string -> Fetched<ArticlePage>, join: (string, string) -> string)
    : Result<Option<Table>, ScrapeError>
  {
    var pepLinks :- PepList(index, join);
    if pepLinks == [] then Success(None)
    else
      var summary :- PepSummary(pepLinks, pages);
      Success(Some([PEP_HEADER] + TallyRows(summary.tally)))
  }

  /**
   * A fetch failure of the index or a missing `index-by-category` section
   * is fatal: `pep` raises that exception before reading any PEP page.
   */
  lemma PepIndexFatal(index: Fetched<PepIndex>, pages: string -> Fetched<ArticlePage>, join: (string, string) -> string)
    ensures index.Failed? ==> PepTable(index, pages, join) == Failure(index.error)
    ensures index.Page? && FindTag(index.doc, INDEX_SECTION).Failure? ==>
      PepTable(index, pages, join) == Failure(ParserFindTag(INDEX_SECTION))
    ensures PepList(index, join).Failure? ==> PepTable(index, pages, join) == Failure(PepList(index, join).error)
  {
  }

  /** An index that lists no PEP produces no table. */
  lemma PepEmptyList(index: Fetched<PepIndex>, pages: string -> Fetched<ArticlePage>, join: (string, string) -> string)
    requires PepList(index, join) == Success([])
    ensures PepTable(index, pages, join) == Success(None)
  {
  }

  /** Otherwise the table is the header followed by the rows of the reconciled tally. */
  lemma PepReport(index: Fetched<PepIndex>, pages: string -> Fetched<ArticlePage>, join: (string, string) -> string)
    requires PepList(index, join).Success? && PepList(index, join).value != []
    ensures var refs := PepList(index, join).value;
      PepSummary(refs, pages).Failure? ==> PepTable(index, pages, join) == Failure(PepSummary(refs, pages).error)
    ensures var refs := PepList(index, join).value;
      PepSummary(refs, pages).Success? ==>
        PepTable(index, pages, join) == Success(Some([PEP_HEADER] + SummaryRows(Observations(refs, pages))))
  {
  }

  /** The tally rows `process_pep_data`'s result lists, for the observed PEPs. */
  function SummaryRows(obs: seq<Observation>): seq<Row> {
    match Summarize(obs)
    case Success(rec) => TallyRows(rec.tally)
    case Failure(_) => []
  }

  /**
   * One row per distinct status shown, with the number of PEPs showing it,
   * and a "Total" row with the number of PEPs that show any status; "Total"
   * comes last unless a PEP shows "Total" itself.
   */
  lemma SummaryRowsCount(obs: seq<Observation>)
    requires Summarize(obs).Success?
    ensures var rows := SummaryRows(obs);
      forall k | 0 <= k < |rows| ::
        && |rows[k]| == 2 && rows[k][0].Text?
        && rows[k][1] == Num(if rows[k][0].text == "Total" then Tallied(obs) else Occurrences(obs, rows[k][0].text))
    ensures var rows := SummaryRows(obs);
      Occurrences(obs, "Total") == 0 ==> |rows| > 0 && rows[|rows| - 1] == [Text("Total"), Num(Tallied(obs))]
  {
    SummarizeTotal(obs);
  }

  /**
   * Every status shown, and "Total", has exactly one row, and there is no
   * other row: each row is "Total" or a status some PEP showed.
   */
  lemma SummaryRowsCover(obs: seq<Observation>)
    requires Summarize(obs).Success?
    ensures var rows := SummaryRows(obs);
      forall j, k | 0 <= j < k < |rows| :: rows[j][0] != rows[k][0]
    ensures var rows := SummaryRows(obs);
      forall s | s == "Total" || Occurrences(obs, s) > 0 :: exists k | 0 <= k < |rows| :: rows[k][0] == Text(s)
    ensures var rows := SummaryRows(obs);
      forall k | 0 <= k < |rows| :: rows[k][0] == Text("Total") || Occurrences(obs, rows[k][0].text) > 0
  {
    var tally := Summarize(obs).value.tally;
    TallyRowsNames(tally);
    SummaryKeys(obs);
  }

  /** The first cells of a counter's rows name each of its keys once. */
  lemma TallyRowsNames(t: Tally)
    requires t.Valid()
    ensures var rows := TallyRows(t);
      forall j, k | 0 <= j < k < |rows| :: rows[j][0] != rows[k][0]
    ensures var rows := TallyRows(t);
      forall s | s in t.counts :: exists k | 0 <= k < |rows| :: rows[k][0] == Text(s)
    ensures var rows := TallyRows(t);
      forall k | 0 <= k < |rows| :: rows[k][0].Text? && rows[k][0].text in t.counts
  {
    var rows := TallyRows(t);
    forall s | s in t.counts
      ensures exists k | 0 <= k < |rows| :: rows[k][0] == Text(s)
    {
      var i :| 0 <= i < |t.keys| && t.keys[i] == s;
      assert rows[i][0] == Text(s);
    }
  }

  /** `pep`: read the index, stop on an empty list, reconcile the statuses, list the tally. */
  method Pep(index: Fetched<PepIndex>, pages: string -> Fetched<ArticlePage>, join: (string, string) -> string)
    returns (r: Result<Option<Table>, ScrapeError>)
    ensures r == PepTable(index, pages, join)
  {
    var pepLinks :- ParsePepList(index, join);
    if |pepLinks| == 0 {
      return Success(None);
    }
    var statusCounts :- ProcessPepData(pepLinks, pages);
    return Success(Some([PEP_HEADER] + TallyRows(statusCounts.tally)));
  }

  // ---------------------------------------------------------------------
  // Modes and the entry point
  // ---------------------------------------------------------------------

  datatype Mode = WhatsNewMode | LatestVersionsMode | DownloadMode | PepMode

  /** The keys of `MODE_TO_FUNCTION`, in order. */
  const MODE_NAMES: seq<string> := ["whats-new", "latest-versions", "download", "pep"]

  function ModeName(m: Mode): string {
    match m
    case WhatsNewMode => "whats-new"
    case LatestVersionsMode => "latest-versions"
    case DownloadMode => "download"
    case PepMode => "pep"
  }

  /** The `choices` check of the `mode` argument. */
  function ParseMode(arg: string): (r: Option<Mode>)
    ensures r.Some? <==> arg in MODE_NAMES
    ensures r.Some? ==> ModeName(r.value) == arg
  {
    if arg == "whats-new" then Some(WhatsNewMode)
    else if arg == "latest-versions" then Some(LatestVersionsMode)
    else if arg == "download" then Some(DownloadMode)
    else if arg == "pep" then Some(PepMode)
    else None
  }

  /**
   * The modes are exactly the four names of `MODE_TO_FUNCTION`: every name
   * is accepted and means its own mode, and nothing else is accepted.
   */
  lemma ModeNames()
    ensures forall m: Mode :: ParseMode(ModeName(m)) == Some(m) && ModeName(m) in MODE_NAMES
    ensures forall arg :: ParseMode(arg).Some? <==> arg in MODE_NAMES
    ensures forall arg | ParseMode(arg).Some? :: ModeName(ParseMode(arg).value) == arg
    ensures |MODE_NAMES| == 4 && forall i, j | 0 <= i < j < 4 :: MODE_NAMES[i] != MODE_NAMES[j]
  {
  }

  /**
   * Everything a run reads from the network, already parsed: `join` stands
   * for `urljoin`, `pages` for the article and PEP pages by URL, and
   * `download` for how the `download` routine ends (it returns nothing).
   */
  datatype Site = Site(
    join: (string, string) -> string,
    docsIndex: Fetched<DocsIndexPage>,
    whatsNewPage: Fetched<WhatsNewPage>,
    pepIndex: Fetched<PepIndex>,
    pages: string -> Fetched<ArticlePage>,
    download: Option<ScrapeError>)

  /** `MODE_TO_FUNCTION[mode](session)`: the routine's results, `None`, or its exception. */
  function Run(mode: Mode, site: Site): (r: Result<Option<Table>, ScrapeError>)
    ensures mode.WhatsNewMode? ==>
      var t := WhatsNewTable(site.whatsNewPage, site.join, site.pages);
      && (r.Failure? <==> t.Failure?)
      && (r.Failure? ==> r.error == t.error)
      && (r.Success? ==> r.value == Some(t.value))
    ensures mode.LatestVersionsMode? ==>
      var t := LatestVersionsTable(site.docsIndex);
      && (r.Failure? <==> t.Failure?)
      && (r.Failure? ==> r.error == t.error)
      && (r.Success? ==> r.value == Some(t.value))
    ensures mode.DownloadMode? ==>
      && (r.Failure? <==> site.download.Some?)
      && (r.Failure? ==> r.error == site.download.value)
      && (r.Success? ==> r.value.None?)
    ensures mode.PepMode? ==> r == PepTable(site.pepIndex, site.pages, site.join)
  {
    match mode
    case WhatsNewMode =>
      var t :- WhatsNewTable(site.whatsNewPage, site.join, site.pages);
      Success(Some(t))
    case LatestVersionsMode =>
      var t :- LatestVersionsTable(site.docsIndex);
      Success(Some(t))
    case DownloadMode =>
      if site.download.Some? then Failure(site.download.value) else Success(None)
    case PepMode => PepTable(site.pepIndex, site.pages, site.join)
  }

  /** How `main` ends: usage error, a table handed to the output stage, nothing, or a logged exception. */
  datatype Outcome = Rejected | Output(table: Table) | NoOutput | Logged(error: ScrapeError)

  /** `main`: parse the mode, run its routine, and output any result; an exception is logged. */
  function Launch(arg: string, site: Site): (r: Outcome)
    ensures r.Rejected? <==> arg !in MODE_NAMES
    ensures r.Output? ==> arg in MODE_NAMES && Run(ParseMode(arg).value, site) == Success(Some(r.table))
    ensures r.Logged? ==> arg in MODE_NAMES && Run(ParseMode(arg).value, site) == Failure(r.error)
    ensures r.NoOutput? ==> arg in MODE_NAMES && Run(ParseMode(arg).value, site) == Success(None)
  {
    match ParseMode(arg)
    case None => Rejected
    case Some(mode) =>
      match Run(mode, site)
      case Failure(e) => Logged(e)
      case Success(None) => NoOutput
      case Success(Some(t)) => Output(t)
  }

  /**
   * A table reaches the output stage exactly when the routine returned one;
   * `download` never produces one, `whats-new` and `latest-versions` always
   * do unless they raise, and an exception never escapes `main`.
   */
  lemma LaunchOutput(arg: string, site: Site)
    ensures Launch(arg, site).Rejected? <==> arg !in MODE_NAMES
    ensures Launch(arg, site).Output? <==> ParseMode(arg).Some? && Run(ParseMode(arg).value, site).Success? && Run(ParseMode(arg).value, site).value.Some?
    ensures Launch(arg, site).Logged? <==> ParseMode(arg).Some? && Run(ParseMode(arg).value, site).Failure?
    ensures arg == "download" ==> !Launch(arg, site).Output?
    ensures arg == "whats-new" || arg == "latest-versions" ==> !Launch(arg, site).NoOutput?
  {
    ModeNames();
  }
}
