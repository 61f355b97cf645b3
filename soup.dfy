/**
 * What the scraper needs from a parsed HTML page: elements in document
 * (depth-first) order, each with its tag name, its attributes and the part of
 * its content the scraper reads, already extracted (its text, its rows, its
 * nested elements). `find` is the first element in that order that matches a
 * filter; `find_all` keeps every match, in order.
 */
module Soup {
  import opened Wrappers

  /**
   * A `find` filter: a tag name, attributes that must have a given value, and
   * attributes that need only be present (`title=True`).
   */
  datatype Filter = Filter(tag: string, equals: map<string, string>, present: set<string>)

  datatype Element<C> = Element(name: string, attrs: map<string, string>, content: C)

  /** The elements of a page or of a subtree, in document order. */
  type Doc<C> = seq<Element<C>>

  predicate Matches<C>(e: Element<C>, f: Filter) {
    && e.name == f.tag
    && (forall a | a in f.equals :: a in e.attrs && e.attrs[a] == f.equals[a])
    && f.present <= e.attrs.Keys
  }

  /** Index of the first element at or after `from` that matches `f`. */
  function FirstMatchFrom<C>(doc: Doc<C>, f: Filter, from: nat): (r: Option<nat>)
    requires from <= |doc|
    ensures r.Some? ==> from <= r.value < |doc| && Matches(doc[r.value], f)
    ensures r.Some? ==> forall j | from <= j < r.value :: !Matches(doc[j], f)
    ensures r.None? ==> forall j | from <= j < |doc| :: !Matches(doc[j], f)
    decreases |doc| - from
  {
    if from == |doc| then None
    else if Matches(doc[from], f) then Some(from)
    else FirstMatchFrom(doc, f, from + 1)
  }

  /** `soup.find(...)`, as the index of the element found. */
  function FindFirst<C>(doc: Doc<C>, f: Filter): (r: Option<nat>)
    ensures r.Some? ==> r.value < |doc| && Matches(doc[r.value], f)
    ensures r.Some? ==> forall j | 0 <= j < r.value :: !Matches(doc[j], f)
    ensures r.None? <==> forall j | 0 <= j < |doc| :: !Matches(doc[j], f)
  {
    FirstMatchFrom(doc, f, 0)
  }

  /** The positions, from `from` on, of the elements that match `f`, in increasing order. */
  function MatchPositions<C>(doc: Doc<C>, f: Filter, from: nat): (idx: seq<nat>)
    requires from <= |doc|
    ensures forall k | 0 <= k < |idx| :: from <= idx[k] < |doc| && Matches(doc[idx[k]], f)
    ensures forall k, l | 0 <= k < l < |idx| :: idx[k] < idx[l]
    ensures forall j | from <= j < |doc| && Matches(doc[j], f) :: j in idx
    decreases |doc| - from
  {
    if from == |doc| then []
    else
      var rest := MatchPositions(doc, f, from + 1);
      if Matches(doc[from], f) then [from] + rest else rest
  }

  /** The elements at `MatchPositions(doc, f, from)`, in that order. */
  function FindAllFrom<C>(doc: Doc<C>, f: Filter, from: nat): (r: Doc<C>)
    requires from <= |doc|
    ensures var idx := MatchPositions(doc, f, from);
      |r| == |idx| && forall k | 0 <= k < |r| :: r[k] == doc[idx[k]]
    decreases |doc| - from
  {
    if from == |doc| then []
    else
      var rest := FindAllFrom(doc, f, from + 1);
      if Matches(doc[from], f) then [doc[from]] + rest else rest
  }

  /**
   * `soup.find_all(...)`: an order-preserving filter, holding one entry per
   * matching position of the document, in document order.
   */
  function FindAll<C>(doc: Doc<C>, f: Filter): (r: Doc<C>)
    ensures var idx := MatchPositions(doc, f, 0);
      && |r| == |idx|
      && (forall k | 0 <= k < |r| :: r[k] == doc[idx[k]])
      && (forall k, l | 0 <= k < l < |idx| :: idx[k] < idx[l])
      && (forall j | 0 <= j < |doc| :: Matches(doc[j], f) <==> j in idx)
  {
    FindAllFrom(doc, f, 0)
  }

  /** Hence every entry of `find_all` matches and comes from the document, and every match is an entry. */
  lemma FindAllMembers<C>(doc: Doc<C>, f: Filter)
    ensures |FindAll(doc, f)| <= |doc|
    ensures forall k | 0 <= k < |FindAll(doc, f)| :: Matches(FindAll(doc, f)[k], f) && FindAll(doc, f)[k] in doc
    ensures forall j | 0 <= j < |doc| && Matches(doc[j], f) :: doc[j] in FindAll(doc, f)
  {
    var r, idx := FindAll(doc, f), MatchPositions(doc, f, 0);
    IncreasingWithin(idx, |doc|);
    forall j | 0 <= j < |doc| && Matches(doc[j], f)
      ensures doc[j] in r
    {
      var k :| 0 <= k < |idx| && idx[k] == j;
      assert r[k] == doc[j];
    }
  }

  /** A strictly increasing sequence of positions below `n` has at most `n` entries. */
  lemma {:induction false} IncreasingWithin(idx: seq<nat>, n: nat)
    requires forall k | 0 <= k < |idx| :: idx[k] < n
    requires forall k, l | 0 <= k < l < |idx| :: idx[k] < idx[l]
    ensures |idx| <= n
    decreases n
  {
    if idx != [] {
      var last := idx[|idx| - 1];
      IncreasingWithin(idx[..|idx| - 1], last);
    }
  }
}
