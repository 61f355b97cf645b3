/**
 * The helpers of the scraper: locating a tag or failing, reading a PEP's
 * status, listing the PEPs of the index and reconciling their statuses
 * with the expected-status table.
 */
module Utils {
  import opened Wrappers
  import opened PyStr
  import opened Soup
  import opened Exceptions
  import opened Constants

  /** What `get_soup` gives for one URL: the parsed page, or the exception it raised. */
  datatype Fetched<P> = Page(doc: P) | Failed(error: ScrapeError)

  /**
   * `find_tag`: the first element of `doc` that matches `f`, or a
   * `ParserFindTagException` naming the filter. It never yields "nothing".
   */
  function FindTag<C>(doc: Doc<C>, f: Filter): (r: Result<Element<C>, ScrapeError>)
    ensures r.Failure? <==> forall j | 0 <= j < |doc| :: !Matches(doc[j], f)
    ensures r.Failure? ==> r.error == ParserFindTag(f)
  {
    match FindFirst(doc, f)
    case Some(i) => Success(doc[i])
    case None => Failure(ParserFindTag(f))
  }

  /** What `find_tag` returns is the first element of `doc` that matches. */
  lemma FindTagFirst<C>(doc: Doc<C>, f: Filter)
    ensures FindTag(doc, f).Success? ==> exists i | 0 <= i < |doc| ::
      && doc[i] == FindTag(doc, f).value
      && Matches(doc[i], f)
      && forall j | 0 <= j < i :: !Matches(doc[j], f)
  {
  }

  // ---------------------------------------------------------------------
  // get_pep_status
  // ---------------------------------------------------------------------

  /** `soup.find('abbr', title=True)`: an abbreviation that carries a title. */
  const STATUS_ABBR: Filter := Filter("abbr", map[], {"title"})

  /**
   * `get_pep_status`: the stripped text of the first titled abbreviation of
   * the PEP page, `None` when the page has none; a failed fetch propagates.
   */
  function GetPepStatus(page: Fetched<Doc<string>>): (r: Result<Option<string>, ScrapeError>)
    ensures page.Failed? ==> r == Failure(page.error)
    ensures page.Page? ==> r.Success?
  {
    match page
    case Failed(e) => Failure(e)
    case Page(doc) =>
      match FindFirst(doc, STATUS_ABBR)
      case Some(i) => Success(Some(Strip(doc[i].content)))
      case None => Success(None)
  }

  /**
   * The status read from a page is the stripped text of its first titled
   * abbreviation, and there is none exactly when no abbreviation carries a title.
   */
  lemma GetPepStatusReads(doc: Doc<string>)
    ensures GetPepStatus(Page(doc)).value.None? <==> forall j | 0 <= j < |doc| :: !Matches(doc[j], STATUS_ABBR)
    ensures GetPepStatus(Page(doc)).value.Some? ==> exists i | 0 <= i < |doc| ::
      && Matches(doc[i], STATUS_ABBR)
      && (forall j | 0 <= j < i :: !Matches(doc[j], STATUS_ABBR))
      && GetPepStatus(Page(doc)).value.value == Strip(doc[i].content)
  {
  }

  // ---------------------------------------------------------------------
  // parse_pep_list
  // ---------------------------------------------------------------------

  /**
   * One `td` cell of the index table: the text of its first `abbr` (if any),
   * its own text, and the `href` of its first link (absent when the cell has
   * no link or the link has no `href`).
   */
  datatype Column = Column(abbr: Option<string>, text: string, href: Option<string>)

  /** One `tr` of the table, as its `td` cells. */
  type PepRow = seq<Column>

  /** The index page: each element's content is the list of its `tr` rows. */
  type PepIndex = Doc<seq<PepRow>>

  const INDEX_SECTION: Filter := Filter("section", map["id" := "index-by-category"], {})

  /** A PEP reference: category letter, PEP number and absolute URL. */
  datatype PepRef = PepRef(letter: string, number: string, url: string)

  /**
   * The category letter: the second character of the stripped abbreviation
   * text when that text is longer than one character, "" otherwise.
   */
  function CategoryLetter(abbr: Option<string>): (r: string)
    ensures |r| <= 1
    ensures r == "" <==> abbr.None? || |Strip(abbr.value)| <= 1
    ensures r != "" ==> r == [Strip(abbr.value)[1]]
  {
    var abbrText := if abbr.Some? then Strip(abbr.value) else "";
    if |abbrText| > 1 then [abbrText[1]] else ""
  }

  /** What one body row of the index table contributes. */
  datatype RowOutcome = Skip | Keep(ref: PepRef) | Abort(error: ScrapeError)

  /**
   * One pass of the `parse_pep_list` loop: rows without cells and the row of
   * PEP "0" are skipped; a row with a single cell raises `IndexError`; a kept
   * row without a link raises; any other row yields its reference.
   */
  function ReadRow(row: PepRow, join: (string, string) -> string): (r: RowOutcome)
    ensures r.Skip? <==> |row| == 0 || (|row| >= 2 && Strip(row[1].text) == "0")
    ensures r.Abort? <==> |row| == 1 || (|row| >= 2 && Strip(row[1].text) != "0" && row[1].href.None?)
    ensures r.Abort? ==> r.error == (if |row| == 1 then IndexOutOfRange else MissingHref)
    ensures r.Keep? ==>
      && r.ref.number == Strip(row[1].text) != "0"
      && r.ref.letter == CategoryLetter(row[0].abbr)
      && r.ref.url == join(PEP_DOC_URL, row[1].href.value)
  {
    if |row| == 0 then Skip
    else if |row| < 2 then Abort(IndexOutOfRange)
    else
      var number := Strip(row[1].text);
      if number == "0" then Skip
      else match row[1].href
        case None => Abort(MissingHref)
        case Some(href) => Keep(PepRef(CategoryLetter(row[0].abbr), number, join(PEP_DOC_URL, href)))
  }

  /** The outcome of every body row, in row order. */
  function RowOutcomes(rows: seq<PepRow>, join: (string, string) -> string): (r: seq<RowOutcome>)
    ensures |r| == |rows|
    ensures forall i | 0 <= i < |rows| :: r[i] == ReadRow(rows[i], join)
  {
    seq(|rows|, i requires 0 <= i < |rows| => ReadRow(rows[i], join))
  }

  /**
   * The list the loop appends to, outcome by outcome, or the exception of
   * the first row that raises.
   */
  function Gather(outcomes: seq<RowOutcome>): (r: Result<seq<PepRef>, ScrapeError>)
    ensures r.Success? ==> |r.value| <= |outcomes|
    decreases |outcomes|
  {
    if outcomes == [] then Success([])
    else
      var refs :- Gather(outcomes[..|outcomes| - 1]);
      match outcomes[|outcomes| - 1]
      case Skip => Success(refs)
      case Keep(ref) => Success(refs + [ref])
      case Abort(e) => Failure(e)
  }

  /** The references of the kept rows, in row order: an independent statement of the result. */
  function Kept(outcomes: seq<RowOutcome>): seq<PepRef>
    decreases |outcomes|
  {
    if outcomes == [] then []
    else (if outcomes[0].Keep? then [outcomes[0].ref] else []) + Kept(outcomes[1..])
  }

  lemma {:induction false} KeptSnoc(outcomes: seq<RowOutcome>, last: RowOutcome)
    ensures Kept(outcomes + [last]) == Kept(outcomes) + (if last.Keep? then [last.ref] else [])
    decreases |outcomes|
  {
    var tail: seq<PepRef> := if last.Keep? then [last.ref] else [];
    if outcomes == [] {
      assert [last][1..] == [];
      assert Kept([last]) == tail + Kept([]);
    } else {
      var head: seq<PepRef> := if outcomes[0].Keep? then [outcomes[0].ref] else [];
      var rest := outcomes[1..];
      assert (outcomes + [last])[0] == outcomes[0];
      assert (outcomes + [last])[1..] == rest + [last];
      assert Kept(outcomes + [last]) == head + Kept(rest + [last]);
      KeptSnoc(rest, last);
      assert Kept(outcomes) == head + Kept(rest);
    }
  }

  /** Every kept reference is the reference of some kept row. */
  lemma {:induction false} KeptFromRows(outcomes: seq<RowOutcome>)
    ensures forall k | 0 <= k < |Kept(outcomes)| ::
      exists i | 0 <= i < |outcomes| :: outcomes[i].Keep? && outcomes[i].ref == Kept(outcomes)[k]
    decreases |outcomes|
  {
    if outcomes != [] {
      var tail := outcomes[1..];
      KeptFromRows(tail);
      var head: seq<PepRef> := if outcomes[0].Keep? then [outcomes[0].ref] else [];
      assert Kept(outcomes) == head + Kept(tail);
      forall k | 0 <= k < |Kept(outcomes)|
        ensures exists i | 0 <= i < |outcomes| :: outcomes[i].Keep? && outcomes[i].ref == Kept(outcomes)[k]
      {
        if k < |head| {
          assert outcomes[0].Keep? && outcomes[0].ref == Kept(outcomes)[k];
        } else {
          var i :| 0 <= i < |tail| && tail[i].Keep? && tail[i].ref == Kept(tail)[k - |head|];
          assert outcomes[i + 1] == tail[i];
        }
      }
    } else {
      assert Kept(outcomes) == [];
    }
  }

  /** Order and completeness: with no row raising, one reference per kept row, in row order. */
  lemma {:induction false} GatherInOrder(outcomes: seq<RowOutcome>)
    ensures Gather(outcomes).Success? ==> Gather(outcomes).value == Kept(outcomes)
    decreases |outcomes|
  {
    if outcomes != [] {
      var prefix := outcomes[..|outcomes| - 1];
      GatherInOrder(prefix);
      assert prefix + [outcomes[|outcomes| - 1]] == outcomes;
      KeptSnoc(prefix, outcomes[|outcomes| - 1]);
    }
  }

  /** The loop raises exactly when some row raises, and then with the first such row's exception. */
  lemma {:induction false} GatherFails(outcomes: seq<RowOutcome>)
    ensures Gather(outcomes).Failure? <==> exists i | 0 <= i < |outcomes| :: outcomes[i].Abort?
    ensures Gather(outcomes).Failure? ==> exists i | 0 <= i < |outcomes| ::
      && outcomes[i].Abort?
      && outcomes[i].error == Gather(outcomes).error
      && forall j | 0 <= j < i :: !outcomes[j].Abort?
    decreases |outcomes|
  {
    if outcomes != [] {
      var prefix := outcomes[..|outcomes| - 1];
      GatherFails(prefix);
      assert forall i | 0 <= i < |prefix| :: prefix[i] == outcomes[i];
    }
  }

  /** Once a prefix raises, the rows after it change nothing. */
  lemma {:induction false} GatherAbortSticks(outcomes: seq<RowOutcome>, n: nat)
    requires n <= |outcomes|
    requires Gather(outcomes[..n]).Failure?
    ensures Gather(outcomes) == Gather(outcomes[..n])
    decreases |outcomes| - n
  {
    if n < |outcomes| {
      assert outcomes[..n + 1][..n] == outcomes[..n];
      CollectStep(outcomes, n);
      GatherAbortSticks(outcomes, n + 1);
    } else {
      assert outcomes[..n] == outcomes;
    }
  }

  /** One more row: `Gather` of the longer prefix extends the shorter one. */
  lemma CollectStep(outcomes: seq<RowOutcome>, n: nat)
    requires n < |outcomes|
    ensures Gather(outcomes[..n + 1]) ==
      match Gather(outcomes[..n])
      case Failure(e) => Failure(e)
      case Success(refs) =>
        match outcomes[n]
        case Skip => Success(refs)
        case Keep(ref) => Success(refs + [ref])
        case Abort(e) => Failure(e)
  {
    assert outcomes[..n + 1][..n] == outcomes[..n];
  }

  /** What the `parse_pep_list` loop yields for the body rows. */
  function CollectRefs(rows: seq<PepRow>, join: (string, string) -> string): (r: Result<seq<PepRef>, ScrapeError>)
    ensures r.Success? ==> |r.value| <= |rows|
    ensures r.Success? ==> forall k | 0 <= k < |r.value| :: r.value[k].number != "0"
  {
    var outcomes := RowOutcomes(rows, join);
    GatherInOrder(outcomes);
    KeptFromRows(outcomes);
    Gather(outcomes)
  }

  /** `table_rows = section.find_all('tr')[1:]`: every row but the header. */
  function BodyRows(rows: seq<PepRow>): (r: seq<PepRow>)
    ensures |rows| == 0 ==> r == []
    ensures |rows| > 0 ==> r == rows[1..]
  {
    if |rows| == 0 then [] else rows[1..]
  }

  /** What `parse_pep_list` returns or raises for the fetched index page. */
  function PepList(index: Fetched<PepIndex>, join: (string, string) -> string): (r: Result<seq<PepRef>, ScrapeError>)
    ensures index.Failed? ==> r == Failure(index.error)
    ensures index.Page? && FindTag(index.doc, INDEX_SECTION).Failure? ==> r == Failure(ParserFindTag(INDEX_SECTION))
    ensures r.Success? ==> forall k | 0 <= k < |r.value| :: r.value[k].number != "0"
  {
    match index
    case Failed(e) => Failure(e)
    case Page(doc) =>
      var section :- FindTag(doc, INDEX_SECTION);
      CollectRefs(BodyRows(section.content), join)
  }

  /**
   * Once the section is found, the PEP list is the kept references of the
   * body rows, one per kept row, in row order.
   */
  lemma PepListKept(index: Fetched<PepIndex>, join: (string, string) -> string)
    requires index.Page? && PepList(index, join).Success?
    ensures FindTag(index.doc, INDEX_SECTION).Success?
    ensures PepList(index, join).value
      == Kept(RowOutcomes(BodyRows(FindTag(index.doc, INDEX_SECTION).value.content), join))
  {
    GatherInOrder(RowOutcomes(BodyRows(FindTag(index.doc, INDEX_SECTION).value.content), join));
  }

  /** `parse_pep_list`, the loop that appends to `pep_links`. */
  method ParsePepList(index: Fetched<PepIndex>, join: (string, string) -> string)
    returns (r: Result<seq<PepRef>, ScrapeError>)
    ensures r == PepList(index, join)
    ensures r.Success? ==> forall k | 0 <= k < |r.value| :: r.value[k].number != "0"
  {
    if index.Failed? {
      return Failure(index.error);
    }
    var section :- FindTag(index.doc, INDEX_SECTION);
    var tableRows := BodyRows(section.content);
    var pepLinks: seq<PepRef> := [];
    ghost var outcomes := RowOutcomes(tableRows, join);
    for i := 0 to |tableRows|
      invariant Gather(outcomes[..i]) == Success(pepLinks)
    {
      CollectStep(outcomes, i);
      var columns := tableRows[i];
      if |columns| == 0 {
        continue;
      }
      if |columns| < 2 {
        GatherAbortSticks(outcomes, i + 1);
        return Failure(IndexOutOfRange);
      }
      var pepNumber := Strip(columns[1].text);
      if pepNumber == "0" {
        continue;
      }
      var secondLetter := CategoryLetter(columns[0].abbr);
      if columns[1].href.None? {
        GatherAbortSticks(outcomes, i + 1);
        return Failure(MissingHref);
      }
      var pepLink := join(PEP_DOC_URL, columns[1].href.value);
      pepLinks := pepLinks + [PepRef(secondLetter, pepNumber, pepLink)];
    }
    assert outcomes[..|tableRows|] == outcomes;
    return Success(pepLinks);
  }

  // ---------------------------------------------------------------------
  // process_pep_data
  // ---------------------------------------------------------------------

  /** `EXPECTED_STATUS.get(letter, ("Unknown",))`. */
  function ExpectedFor(letter: string): (r: seq<string>)
    ensures |r| > 0
    ensures letter in EXPECTED_STATUS ==> r == EXPECTED_STATUS[letter]
    ensures letter !in EXPECTED_STATUS ==> r == ["Unknown"]
  {
    ExpectedStatusNonEmpty();
    if letter in EXPECTED_STATUS then EXPECTED_STATUS[letter] else ["Unknown"]
  }

  predicate NoDuplicates(keys: seq<string>) {
    forall i, j | 0 <= i < j < |keys| :: keys[i] != keys[j]
  }

  /** A dictionary lookup that reads 0 for a missing key, as a `Counter` does. */
  function Get(counts: map<string, nat>, s: string): nat {
    if s in counts then counts[s] else 0
  }

  /** `sum(counter.values())`, summed in key order. */
  function SumOver(keys: seq<string>, counts: map<string, nat>): nat
    decreases |keys|
  {
    if keys == [] then 0 else Get(counts, keys[0]) + SumOver(keys[1..], counts)
  }

  /**
   * The `Counter` of statuses: its keys in first-insertion order (the order
   * `items()` lists them in) and their counts.
   */
  datatype Tally = Tally(keys: seq<string>, counts: map<string, nat>) {

    ghost predicate Valid() {
      && NoDuplicates(keys)
      && (forall s :: s in counts <==> s in keys)
    }

    /** Every listed status was counted at least once. */
    ghost predicate Positive() {
      forall s | s in counts :: counts[s] > 0
    }

    /** `counter[s]`. */
    function Count(s: string): nat {
      Get(counts, s)
    }

    /** `counter[key] = value`: a new key goes last, an existing one keeps its place. */
    function Set(key: string, value: nat): (t: Tally)
      requires Valid()
      ensures t.Valid()
      ensures Positive() && value > 0 ==> t.Positive()
      ensures t.Count(key) == value
      ensures forall s | s != key :: t.Count(s) == Count(s)
      ensures t.keys == if key in keys then keys else keys + [key]
    {
      Tally(if key in counts then keys else keys + [key], counts[key := value])
    }

    /** `sum(counter.values())`. */
    function Sum(): nat {
      SumOver(keys, counts)
    }
  }

  lemma {:induction false} SumOverUnaffected(keys: seq<string>, counts: map<string, nat>, key: string, value: nat)
    requires key !in keys
    ensures SumOver(keys, counts[key := value]) == SumOver(keys, counts)
    decreases |keys|
  {
    if keys != [] {
      SumOverUnaffected(keys[1..], counts, key, value);
    }
  }

  lemma {:induction false} SumOverUpdated(keys: seq<string>, counts: map<string, nat>, key: string, value: nat)
    requires NoDuplicates(keys) && key in keys
    ensures SumOver(keys, counts[key := value]) + Get(counts, key) == SumOver(keys, counts) + value
    decreases |keys|
  {
    if keys[0] == key {
      assert key !in keys[1..];
      SumOverUnaffected(keys[1..], counts, key, value);
    } else {
      SumOverUpdated(keys[1..], counts, key, value);
    }
  }

  lemma {:induction false} SumOverSnoc(keys: seq<string>, key: string, counts: map<string, nat>)
    ensures SumOver(keys + [key], counts) == SumOver(keys, counts) + Get(counts, key)
    decreases |keys|
  {
    if keys == [] {
      assert [key][1..] == [];
    } else {
      assert (keys + [key])[1..] == keys[1..] + [key];
      SumOverSnoc(keys[1..], key, counts);
    }
  }

  /** Setting one count changes the sum by exactly the difference. */
  lemma SumAfterSet(t: Tally, key: string, value: nat)
    requires t.Valid()
    ensures t.Set(key, value).Sum() + t.Count(key) == t.Sum() + value
  {
    if key in t.keys {
      SumOverUpdated(t.keys, t.counts, key, value);
    } else {
      SumOverUnaffected(t.keys, t.counts, key, value);
      SumOverSnoc(t.keys, key, t.counts[key := value]);
    }
  }

  /** A logged mismatch: the PEP's URL, the status it shows and the statuses expected. */
  datatype Mismatch = Mismatch(url: string, actual: string, expected: seq<string>)

  /**
   * The state of the `process_pep_data` loop: the counter, the mismatches
   * and the messages of the caught `RuntimeError`s (the last two are only
   * logged by the source).
   */
  datatype Reconciliation = Reconciliation(tally: Tally, mismatches: seq<Mismatch>, errors: seq<string>)

  const EMPTY_RECONCILIATION: Reconciliation := Reconciliation(Tally([], map[]), [], [])

  /** What reading one PEP's page gave: `get_pep_status`'s result or exception. */
  datatype Observation = Observation(ref: PepRef, read: Result<Option<string>, ScrapeError>)

  /** Each PEP of `refs` read from `pages` at its URL, in order. */
  function Observations(refs: seq<PepRef>, pages: string -> Fetched<Doc<string>>): (r: seq<Observation>)
    ensures |r| == |refs|
    ensures forall i | 0 <= i < |refs| :: r[i] == Observation(refs[i], GetPepStatus(pages(refs[i].url)))
  {
    seq(|refs|, i requires 0 <= i < |refs| => Observation(refs[i], GetPepStatus(pages(refs[i].url))))
  }

  /** The status an observation contributes: only a non-empty one is counted. */
  function ShownStatus(o: Observation): (r: Option<string>)
    ensures r.Some? <==> o.read.Success? && o.read.value.Some? && o.read.value.value != ""
    ensures r.Some? ==> r.value == o.read.value.value
  {
    match o.read
    case Success(Some(s)) => if s != "" then Some(s) else None
    case _ => None
  }

  /** Reading raised something other than `RuntimeError`: the loop does not catch it. */
  predicate Escapes(o: Observation) {
    o.read.Failure? && !o.read.error.Runtime?
  }

  /** Reading raised a `RuntimeError`, which the loop catches and records. */
  predicate Caught(o: Observation) {
    o.read.Failure? && o.read.error.Runtime?
  }

  /** One pass of the `process_pep_data` loop for one PEP. */
  function Visit(acc: Reconciliation, o: Observation): (r: Result<Reconciliation, ScrapeError>)
    requires acc.tally.Valid() && acc.tally.Positive()
    ensures r.Success? ==> r.value.tally.Valid() && r.value.tally.Positive()
  {
    var expected := ExpectedFor(o.ref.letter);
    match o.read
    case Failure(Runtime(message)) => Success(acc.(errors := acc.errors + [message]))
    case Failure(e) => Failure(e)
    case Success(status) =>
      if status.None? || status.value == "" then Success(acc)
      else
        var s := status.value;
        var tally := acc.tally.Set(s, acc.tally.Count(s) + 1);
        var mismatches := if s in expected then acc.mismatches else acc.mismatches + [Mismatch(o.ref.url, s, expected)];
        Success(Reconciliation(tally, mismatches, acc.errors))
  }

  /**
   * What one PEP does to the loop state: an uncaught exception ends the
   * loop; a `RuntimeError` only adds its message; an empty or missing
   * status changes nothing; a status is counted once more, and recorded as a
   * mismatch exactly when it is outside the set expected for the PEP's letter.
   */
  lemma VisitEffect(acc: Reconciliation, o: Observation)
    requires acc.tally.Valid() && acc.tally.Positive()
    ensures Visit(acc, o).Failure? <==> Escapes(o)
    ensures Visit(acc, o).Failure? ==> Visit(acc, o).error == o.read.error
    ensures Caught(o) ==> Visit(acc, o) == Success(acc.(errors := acc.errors + [o.read.error.message]))
    ensures Visit(acc, o).Success? && !Caught(o) ==> Visit(acc, o).value.errors == acc.errors
    ensures Visit(acc, o).Success? && ShownStatus(o).None? ==>
      Visit(acc, o).value.tally == acc.tally && Visit(acc, o).value.mismatches == acc.mismatches
    ensures ShownStatus(o).Some? ==>
      var s := ShownStatus(o).value;
      var r := Visit(acc, o);
      && r.Success?
      && (forall x :: r.value.tally.Count(x) == acc.tally.Count(x) + (if x == s then 1 else 0))
      && r.value.mismatches ==
        (if s in ExpectedFor(o.ref.letter) then acc.mismatches
         else acc.mismatches + [Mismatch(o.ref.url, s, ExpectedFor(o.ref.letter))])
  {
  }

  /**
   * A PEP filed under "D" (deferred) whose page shows "Active" is counted
   * and flagged; a letter missing from the table expects only "Unknown".
   */
  lemma DeferredButActive(acc: Reconciliation, url: string, number: string)
    requires acc.tally.Valid() && acc.tally.Positive()
    ensures var r := Visit(acc, Observation(PepRef("D", number, url), Success(Some("Active"))));
      && r.Success?
      && r.value.tally.Count("Active") == acc.tally.Count("Active") + 1
      && r.value.mismatches == acc.mismatches + [Mismatch(url, "Active", ["Deferred"])]
    ensures var r := Visit(acc, Observation(PepRef("X", number, url), Success(Some("Final"))));
      r.Success? && r.value.mismatches == acc.mismatches + [Mismatch(url, "Final", ["Unknown"])]
  {
    ExpectedStatusEntries();
    assert "X" !in EXPECTED_STATUS;
    VisitEffect(acc, Observation(PepRef("D", number, url), Success(Some("Active"))));
    VisitEffect(acc, Observation(PepRef("X", number, url), Success(Some("Final"))));
  }

  /** The loop over the observations, before "Total" is set. */
  function Reconcile(obs: seq<Observation>): (r: Result<Reconciliation, ScrapeError>)
    ensures r.Success? ==> r.value.tally.Valid() && r.value.tally.Positive()
    decreases |obs|
  {
    if obs == [] then Success(EMPTY_RECONCILIATION)
    else
      var acc :- Reconcile(obs[..|obs| - 1]);
      Visit(acc, obs[|obs| - 1])
  }

  /** The number of observations that show status `s`. */
  function Occurrences(obs: seq<Observation>, s: string): nat
    decreases |obs|
  {
    if obs == [] then 0
    else Occurrences(obs[..|obs| - 1], s) + (if ShownStatus(obs[|obs| - 1]) == Some(s) then 1 else 0)
  }

  /** The number of observations that show a non-empty status. */
  function Tallied(obs: seq<Observation>): nat
    decreases |obs|
  {
    if obs == [] then 0
    else Tallied(obs[..|obs| - 1]) + (if ShownStatus(obs[|obs| - 1]).Some? then 1 else 0)
  }

  /** The PEPs, in order, whose shown status is outside the set expected for their letter. */
  function ExpectedMismatches(obs: seq<Observation>): seq<Mismatch>
    decreases |obs|
  {
    if obs == [] then []
    else
      var last := obs[|obs| - 1];
      var shown := ShownStatus(last);
      var expected := ExpectedFor(last.ref.letter);
      ExpectedMismatches(obs[..|obs| - 1])
        + (if shown.Some? && shown.value !in expected then [Mismatch(last.ref.url, shown.value, expected)] else [])
  }

  /** The messages of the `RuntimeError`s raised while reading the PEPs, in order. */
  function RuntimeMessages(obs: seq<Observation>): seq<string>
    decreases |obs|
  {
    if obs == [] then []
    else
      var last := obs[|obs| - 1];
      RuntimeMessages(obs[..|obs| - 1]) + (if Caught(last) then [last.read.error.message] else [])
  }

  /**
   * Only a non-`RuntimeError` exception stops the loop: the loop fails
   * exactly when some PEP's reading raises one, and with the first one.
   */
  lemma {:induction false} ReconcileFails(obs: seq<Observation>)
    ensures Reconcile(obs).Failure? <==> exists i | 0 <= i < |obs| :: Escapes(obs[i])
    ensures Reconcile(obs).Failure? ==> exists i | 0 <= i < |obs| ::
      && Escapes(obs[i])
      && Reconcile(obs).error == obs[i].read.error
      && forall j | 0 <= j < i :: !Escapes(obs[j])
    decreases |obs|
  {
    if obs != [] {
      var prefix := obs[..|obs| - 1];
      ReconcileFails(prefix);
      if Reconcile(prefix).Success? {
        VisitEffect(Reconcile(prefix).value, obs[|obs| - 1]);
      }
      assert forall i | 0 <= i < |prefix| :: prefix[i] == obs[i];
    }
  }

  /**
   * Counting: every status is counted once per PEP showing it, and the
   * counts add up to the number of PEPs that show a non-empty status.
   */
  lemma {:induction false} ReconcileCounts(obs: seq<Observation>)
    requires Reconcile(obs).Success?
    ensures forall s :: Reconcile(obs).value.tally.Count(s) == Occurrences(obs, s)
    ensures Reconcile(obs).value.tally.Sum() == Tallied(obs)
    decreases |obs|
  {
    if obs != [] {
      var prefix, last := obs[..|obs| - 1], obs[|obs| - 1];
      ReconcileCounts(prefix);
      var acc := Reconcile(prefix).value;
      VisitEffect(acc, last);
      if ShownStatus(last).Some? {
        var s := ShownStatus(last).value;
        SumAfterSet(acc.tally, s, acc.tally.Count(s) + 1);
      }
    }
  }

  /** The summary lists "Total" and exactly the statuses some PEP showed. */
  lemma SummaryKeys(obs: seq<Observation>)
    requires Summarize(obs).Success?
    ensures forall s :: s in Summarize(obs).value.tally.counts <==> s == "Total" || Occurrences(obs, s) > 0
  {
    var before := Reconcile(obs).value.tally;
    ReconcileCounts(obs);
    assert Summarize(obs).value.tally.counts == before.counts["Total" := before.Sum()];
    forall s | s != "Total"
      ensures s in before.counts <==> Occurrences(obs, s) > 0
    {
      assert before.Count(s) == Occurrences(obs, s);
    }
  }

  /** What is logged: exactly the mismatching PEPs and the caught errors, in order. */
  lemma {:induction false} ReconcileLog(obs: seq<Observation>)
    requires Reconcile(obs).Success?
    ensures Reconcile(obs).value.mismatches == ExpectedMismatches(obs)
    ensures Reconcile(obs).value.errors == RuntimeMessages(obs)
    decreases |obs|
  {
    if obs != [] {
      ReconcileLog(obs[..|obs| - 1]);
      VisitEffect(Reconcile(obs[..|obs| - 1]).value, obs[|obs| - 1]);
    }
  }

  /** One more PEP: the loop state after it is `Visit` of the state before it. */
  lemma ReconcileStep(obs: seq<Observation>, i: nat)
    requires i < |obs|
    requires Reconcile(obs[..i]).Success?
    ensures Reconcile(obs[..i + 1]) == Visit(Reconcile(obs[..i]).value, obs[i])
  {
    assert obs[..i + 1][..i] == obs[..i];
  }

  /** Once a prefix fails, the PEPs after it change nothing. */
  lemma {:induction false} ReconcileAbortSticks(obs: seq<Observation>, n: nat)
    requires n <= |obs|
    requires Reconcile(obs[..n]).Failure?
    ensures Reconcile(obs) == Reconcile(obs[..n])
    decreases |obs| - n
  {
    if n < |obs| {
      assert obs[..n + 1][..n] == obs[..n];
      assert Reconcile(obs[..n + 1]) == Reconcile(obs[..n]);
      ReconcileAbortSticks(obs, n + 1);
    } else {
      assert obs[..n] == obs;
    }
  }

  /** The loop followed by `status_counts["Total"] = sum(status_counts.values())`. */
  function Summarize(obs: seq<Observation>): (r: Result<Reconciliation, ScrapeError>)
    ensures r.Success? ==> r.value.tally.Valid()
  {
    var rec :- Reconcile(obs);
    Success(rec.(tally := rec.tally.Set("Total", rec.tally.Sum())))
  }

  /**
   * "Total" is the number of PEPs that show a non-empty status; every other
   * status keeps its count, and "Total" is listed last unless a PEP already
   * showed "Total" as its status.
   */
  lemma SummarizeTotal(obs: seq<Observation>)
    requires Summarize(obs).Success?
    ensures Summarize(obs).value.tally.Count("Total") == Tallied(obs)
    ensures forall s | s != "Total" :: Summarize(obs).value.tally.Count(s) == Occurrences(obs, s)
    ensures Occurrences(obs, "Total") == 0 ==>
      var keys := Summarize(obs).value.tally.keys;
      |keys| > 0 && keys[|keys| - 1] == "Total"
  {
    var before := Reconcile(obs).value.tally;
    ReconcileCounts(obs);
    var after := before.Set("Total", before.Sum());
    assert Summarize(obs).value.tally == after;
    if Occurrences(obs, "Total") == 0 {
      assert "Total" !in before.keys;
    }
  }

  /** What `process_pep_data` returns or raises for the PEPs of `refs`. */
  function PepSummary(refs: seq<PepRef>, pages: string -> Fetched<Doc<string>>): Result<Reconciliation, ScrapeError> {
    Summarize(Observations(refs, pages))
  }

  /**
   * The body of `process_pep_data`'s loop for one PEP: read its status,
   * record a `RuntimeError`, or count the status and flag it when unexpected.
   */
  method CheckPep(statusCounts: Tally, mismatchedPeps: seq<Mismatch>, errors: seq<string>,
                  ref: PepRef, pages: string -> Fetched<Doc<string>>)
    returns (r: Result<Reconciliation, ScrapeError>)
    requires statusCounts.Valid() && statusCounts.Positive()
    ensures r == Visit(Reconciliation(statusCounts, mismatchedPeps, errors), Observation(ref, GetPepStatus(pages(ref.url))))
  {
    var expectedStatuses := ExpectedFor(ref.letter);
    var fetched := GetPepStatus(pages(ref.url));
    ghost var acc := Reconciliation(statusCounts, mismatchedPeps, errors);
    ghost var o := Observation(ref, fetched);
    if fetched.Failure? {
      if fetched.error.Runtime? {
        r := Success(Reconciliation(statusCounts, mismatchedPeps, errors + [fetched.error.message]));
        assert Visit(acc, o) == r;
        return;
      }
      r := Failure(fetched.error);
      assert Visit(acc, o) == r;
      return;
    }
    var actualStatus := fetched.value;
    if actualStatus.None? || actualStatus.value == "" {
      r := Success(Reconciliation(statusCounts, mismatchedPeps, errors));
      assert Visit(acc, o) == r;
      return;
    }
    var status := actualStatus.value;
    var counts := statusCounts.Set(status, statusCounts.Count(status) + 1);
    var mismatched := mismatchedPeps;
    if status !in expectedStatuses {
      mismatched := mismatched + [Mismatch(ref.url, status, expectedStatuses)];
    }
    r := Success(Reconciliation(counts, mismatched, errors));
    assert Visit(acc, o) == r;
  }

  /** `process_pep_data`: the loop, then `status_counts["Total"] = sum(...)`. */
  method ProcessPepData(refs: seq<PepRef>, pages: string -> Fetched<Doc<string>>)
    returns (r: Result<Reconciliation, ScrapeError>)
    ensures r == PepSummary(refs, pages)
  {
    var statusCounts := Tally([], map[]);
    var mismatchedPeps: seq<Mismatch> := [];
    var errors: seq<string> := [];
    ghost var obs := Observations(refs, pages);
    for i := 0 to |refs|
      invariant Reconcile(obs[..i]) == Success(Reconciliation(statusCounts, mismatchedPeps, errors))
    {
      ReconcileStep(obs, i);
      var next := CheckPep(statusCounts, mismatchedPeps, errors, refs[i], pages);
      if next.Failure? {
        ReconcileAbortSticks(obs, i + 1);
        return Failure(next.error);
      }
      statusCounts, mismatchedPeps, errors := next.value.tally, next.value.mismatches, next.value.errors;
    }
    assert obs[..|refs|] == obs;
    statusCounts := statusCounts.Set("Total", statusCounts.Sum());
    return Success(Reconciliation(statusCounts, mismatchedPeps, errors));
  }
}
