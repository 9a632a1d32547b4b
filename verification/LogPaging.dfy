/**
 Following Members@odata.nextLink through the pages of a log: the lazy iterator of the Python SDK
 and the callback loop of the C++ SDK, over a server that answers every URI with some page.
 */
module LogPaging {
  import opened Wrappers

  type Uri = string

  /** A decoded response; `isObject` is false for a body that is no JSON object. */
  datatype Page<T> = Page(success: bool, isObject: bool, members: seq<T>, nextLink: Option<Uri>)

  /** The URI to go on with: a page that failed, or that has no link or an empty one, is the last. */
  function Follow<T>(p: Page<T>): Option<Uri> {
    if p.success && p.isObject && p.nextLink.Some? && p.nextLink.value != "" then p.nextLink else None
  }

  /** The first n pages of the chain that starts at a URI. */
  function Pages<T>(fetch: Uri -> Page<T>, uri: Option<Uri>, n: nat): (ps: seq<Page<T>>)
    ensures |ps| <= n
    decreases n
  {
    if n == 0 || uri.None? then [] else [fetch(uri.value)] + Pages(fetch, Follow(fetch(uri.value)), n - 1)
  }

  /** Where the chain stands after n pages. */
  function UriAfter<T>(fetch: Uri -> Page<T>, uri: Option<Uri>, n: nat): Option<Uri>
    decreases n
  {
    if n == 0 || uri.None? then uri else UriAfter(fetch, Follow(fetch(uri.value)), n - 1)
  }

  /** The chain is over after at most n pages. */
  predicate Ends<T>(fetch: Uri -> Page<T>, uri: Option<Uri>, n: nat) {
    UriAfter(fetch, uri, n).None?
  }

  lemma {:induction false} NextPage<T>(fetch: Uri -> Page<T>, uri: Option<Uri>, n: nat)
    ensures var here := UriAfter(fetch, uri, n);
            && (here.Some? ==> |Pages(fetch, uri, n)| == n)
            && Pages(fetch, uri, n + 1) == Pages(fetch, uri, n) + (if here.Some? then [fetch(here.value)] else [])
            && UriAfter(fetch, uri, n + 1) == (if here.Some? then Follow(fetch(here.value)) else None)
    decreases n
  {
    if n > 0 && uri.Some? {
      NextPage(fetch, Follow(fetch(uri.value)), n - 1);
    }
  }

  /** The first m pages are the beginning of the first n. */
  lemma {:induction false} PagesPrefix<T>(fetch: Uri -> Page<T>, uri: Option<Uri>, m: nat, n: nat)
    requires m <= n
    ensures Pages(fetch, uri, m) <= Pages(fetch, uri, n)
    ensures |Pages(fetch, uri, m)| == if m <= |Pages(fetch, uri, n)| then m else |Pages(fetch, uri, n)|
    decreases m
  {
    if m > 0 && uri.Some? {
      PagesPrefix(fetch, Follow(fetch(uri.value)), m - 1, n - 1);
    }
  }

  lemma {:induction false} EndedStays<T>(fetch: Uri -> Page<T>, uri: Option<Uri>, m: nat, n: nat)
    requires m <= n && Ends(fetch, uri, m)
    ensures Ends(fetch, uri, n) && Pages(fetch, uri, n) == Pages(fetch, uri, m)
    decreases m
  {
    if m > 0 && uri.Some? {
      EndedStays(fetch, Follow(fetch(uri.value)), m - 1, n - 1);
    }
  }

  /**
   A chain of pages: the first comes from the first URI, each further one from the link of the one
   before, and it ends early only behind a page that failed, is no object or has no link to follow.
   */
  lemma {:induction false} PagesLinked<T>(fetch: Uri -> Page<T>, start: Uri, n: nat)
    requires n > 0
    ensures var ps := Pages(fetch, Some(start), n);
            && ps != [] && ps[0] == fetch(start)
            && (forall k | 0 <= k < |ps| - 1 ::
                  && ps[k].success && ps[k].isObject && ps[k].nextLink.Some? && ps[k].nextLink.value != ""
                  && ps[k + 1] == fetch(ps[k].nextLink.value))
            && (|ps| < n ==>
                  var last := ps[|ps| - 1];
                  !last.success || !last.isObject || last.nextLink.None? || last.nextLink.value == "")
    decreases n
  {
    var p := fetch(start);
    var next := Follow(p);
    assert Pages(fetch, Some(start), n) == [p] + Pages(fetch, next, n - 1);
    if n > 1 && next.Some? {
      PagesLinked(fetch, next.value, n - 1);
    }
  }

  /** The chain is over after n pages exactly when one more cannot be had. */
  lemma EndsMeaning<T>(fetch: Uri -> Page<T>, uri: Option<Uri>, n: nat)
    ensures Ends(fetch, uri, n) <==> |Pages(fetch, uri, n + 1)| <= n
  {
    NextPage(fetch, uri, n);
  }

  // ----- Python: a generator -----

  class PageIterator<T> {
    const fetch: Uri -> Page<T>
    const start: Uri
    const maxPages: Option<nat>
    var entriesUri: Option<Uri>
    var page: nat

    ghost predicate Valid()
      reads this
    {
      && entriesUri == UriAfter(fetch, Some(start), page)
      && (maxPages.Some? ==> page <= maxPages.value)
    }

    /** Everything yielded so far. */
    ghost function Yielded(): seq<Page<T>>
      reads this
    {
      Pages(fetch, Some(start), page)
    }

    constructor (fetch: Uri -> Page<T>, start: Uri, maxPages: Option<nat>)
      ensures Valid() && Yielded() == []
      ensures this.fetch == fetch && this.start == start && this.maxPages == maxPages
    {
      this.fetch, this.start, this.maxPages := fetch, start, maxPages;
      entriesUri, page := Some(start), 0;
    }

    /**
     Resume the generator.  It needs no assumption about the server: on a cyclic chain it simply
     never ends by itself.
     */
    method Next() returns (r: Option<Page<T>>)
      requires Valid()
      modifies this`entriesUri, this`page
      ensures Valid()
      ensures r.Some? ==> Yielded() == old(Yielded()) + [r.value] && page == old(page) + 1
      ensures r.None? ==> page == old(page)
      ensures r.None? <==> Ends(fetch, Some(start), old(page)) || (maxPages.Some? && old(page) == maxPages.value)
    {
      NextPage(fetch, Some(start), page);
      if entriesUri.None? { return None; }
      if maxPages.Some? && page >= maxPages.value { return None; }
      var resp := fetch(entriesUri.value);
      page := page + 1;
      entriesUri := Follow(resp);
      return Some(resp);
    }
  }

  /** Draining the iterator; `bound` bounds the chain when no page limit does. */
  method Collect<T>(fetch: Uri -> Page<T>, start: Uri, maxPages: Option<nat>, ghost bound: nat)
      returns (pages: seq<Page<T>>)
    requires maxPages.Some? || Ends(fetch, Some(start), bound)
    ensures pages == Pages(fetch, Some(start), if maxPages.Some? then maxPages.value else bound)
  {
    ghost var limit := if maxPages.Some? then maxPages.value else bound;
    var it := new PageIterator(fetch, start, maxPages);
    pages := [];
    while true
      invariant it.Valid() && pages == it.Yielded() && it.page <= limit
      decreases limit - it.page
    {
      NextPage(fetch, Some(start), it.page);
      if maxPages.None? && it.page == bound {
        assert it.entriesUri.None?;
      }
      ghost var n := it.page;
      var r := it.Next();
      if r.None? {
        if n < limit {
          EndedStays(fetch, Some(start), n, limit);
        }
        break;
      }
      pages := pages + [r.value];
    }
  }

  // ----- C++: a loop with a callback -----

  /**
   What the loop delivers: the first pages of the chain, at least one, up to and including the
   first on which the callback says stop, or to the end of the chain.  The callback may depend on
   all pages seen.
   */
  ghost predicate IsDelivery<T>(fetch: Uri -> Page<T>, start: Uri, onPage: seq<Page<T>> -> bool, delivered: seq<Page<T>>) {
    && delivered != []
    && delivered == Pages(fetch, Some(start), |delivered|)
    && (forall n | 1 <= n < |delivered| :: onPage(Pages(fetch, Some(start), n)))
    && (!onPage(delivered) || Ends(fetch, Some(start), |delivered|))
  }

  /** Some page within the bound ends the loop. */
  ghost predicate LoopEnds<T>(fetch: Uri -> Page<T>, start: Uri, onPage: seq<Page<T>> -> bool, bound: nat) {
    Ends(fetch, Some(start), bound) || exists n | 1 <= n <= bound :: !onPage(Pages(fetch, Some(start), n))
  }

  method IterEntries<T>(fetch: Uri -> Page<T>, start: Uri, onPage: seq<Page<T>> -> bool, ghost bound: nat)
      returns (delivered: seq<Page<T>>)
    requires start != ""
    requires LoopEnds(fetch, start, onPage, bound)
    ensures IsDelivery(fetch, start, onPage, delivered)
  {
    delivered := [];
    var nextUri := start;
    while nextUri != ""
      invariant delivered == Pages(fetch, Some(start), |delivered|)
      invariant UriAfter(fetch, Some(start), |delivered|) == if nextUri == "" then None else Some(nextUri)
      invariant forall n | 1 <= n <= |delivered| :: onPage(Pages(fetch, Some(start), n))
      invariant nextUri == "" ==> delivered != []
      decreases bound - |delivered|
    {
      if |delivered| >= bound && Ends(fetch, Some(start), bound) {
        EndedStays(fetch, Some(start), bound, |delivered|);
      }
      NextPage(fetch, Some(start), |delivered|);
      var resp := fetch(nextUri);
      delivered := delivered + [resp];
      if !onPage(delivered) { break; }
      nextUri := "";
      if resp.success && resp.isObject {
        if resp.nextLink.Some? {
          nextUri := resp.nextLink.value;
        }
      }
    }
  }

  /** There is one delivery at most, and none where no page ends the loop. */
  lemma DeliveryUnique<T>(fetch: Uri -> Page<T>, start: Uri, onPage: seq<Page<T>> -> bool, ps: seq<Page<T>>, qs: seq<Page<T>>)
    requires IsDelivery(fetch, start, onPage, ps) && IsDelivery(fetch, start, onPage, qs)
    ensures ps == qs
    ensures LoopEnds(fetch, start, onPage, |ps|)
  {
    if |ps| < |qs| {
      EndedStays(fetch, Some(start), |ps|, |qs|);
    } else if |qs| < |ps| {
      EndedStays(fetch, Some(start), |qs|, |ps|);
    }
  }

  /**
   The two loops deliver the same pages: a callback that never stops is an iterator without a
   limit, one that stops at page m >= 1 is max_pages = m, on a chain that ends and on one that
   does not.
   */
  lemma LoopsAgree<T>(fetch: Uri -> Page<T>, start: Uri, onPage: seq<Page<T>> -> bool, maxPages: Option<nat>,
                      delivered: seq<Page<T>>, bound: nat)
    requires IsDelivery(fetch, start, onPage, delivered)
    requires maxPages != Some(0)
    requires forall n: nat :: var ps := Pages(fetch, Some(start), n);
               onPage(ps) <==> maxPages.None? || |ps| < maxPages.value
    ensures maxPages.Some? ==> delivered == Pages(fetch, Some(start), maxPages.value)
    ensures maxPages.None? ==> Ends(fetch, Some(start), |delivered|)
    ensures maxPages.None? && Ends(fetch, Some(start), bound) ==> delivered == Pages(fetch, Some(start), bound)
  {
    var d := |delivered|;
    assert delivered == Pages(fetch, Some(start), d);
    if maxPages.Some? {
      var m := maxPages.value;
      if d < m {
        EndedStays(fetch, Some(start), d, m);
      } else if m < d {
        PagesPrefix(fetch, Some(start), m, d);
      }
    } else if Ends(fetch, Some(start), bound) {
      if d <= bound {
        EndedStays(fetch, Some(start), d, bound);
      } else {
        EndedStays(fetch, Some(start), bound, d);
      }
    }
  }

  // ----- Against a server that cuts a log into pages -----

  lemma {:induction false} MembersMeaning<T>(ps: seq<Page<T>>, p: Page<T>)
    ensures Members<T>([]) == [] && Members(ps + [p]) == Members(ps) + p.members
  {
    if ps == [] {
      assert ps + [p] == [p] && [p][1..] == [];
    } else {
      assert (ps + [p])[1..] == ps[1..] + [p];
      MembersMeaning(ps[1..], p);
    }
  }

  function Members<T>(pages: seq<Page<T>>): seq<T> {
    if pages == [] then [] else pages[0].members + Members(pages[1..])
  }

  /**
   The server holds `log`; asked from offset o it answers `cut(o)` entries, at least one unless
   the log is over, and links to the first entry it left out, if there is one.
   */
  ghost predicate Serves<T>(fetch: Uri -> Page<T>, log: seq<T>, uriOf: nat -> Uri, cut: nat -> nat) {
    forall o: nat | o <= |log| :: ServesFrom(fetch, log, uriOf, cut, o)
  }

  predicate ServesFrom<T(==)>(fetch: Uri -> Page<T>, log: seq<T>, uriOf: nat -> Uri, cut: nat -> nat, o: nat)
    requires o <= |log|
  {
    && uriOf(o) != ""
    && o + cut(o) <= |log|
    && (o < |log| ==> cut(o) >= 1)
    && fetch(uriOf(o)) == Page(true, true, log[o..o + cut(o)], if o + cut(o) < |log| then Some(uriOf(o + cut(o))) else None)
  }

  /** Every entry from the offset on, once and in order, in at most one page per entry (one page for none). */
  lemma {:induction false} WholeLogOnce<T>(fetch: Uri -> Page<T>, log: seq<T>, uriOf: nat -> Uri, cut: nat -> nat, o: nat)
    requires Serves(fetch, log, uriOf, cut) && o <= |log|
    ensures Ends(fetch, Some(uriOf(o)), |log| - o + 1)
    ensures Members(Pages(fetch, Some(uriOf(o)), |log| - o + 1)) == log[o..]
    decreases |log| - o
  {
    assert ServesFrom(fetch, log, uriOf, cut, o);
    var p := fetch(uriOf(o));
    var next := o + cut(o);
    var n := |log| - o;
    assert Pages(fetch, Some(uriOf(o)), n + 1) == [p] + Pages(fetch, Follow(p), n);
    assert Members([p] + Pages(fetch, Follow(p), n)) == p.members + Members(Pages(fetch, Follow(p), n));
    if next < |log| {
      assert ServesFrom(fetch, log, uriOf, cut, next);
      assert Follow(p) == Some(uriOf(next));
      WholeLogOnce(fetch, log, uriOf, cut, next);
      EndedStays(fetch, Some(uriOf(next)), |log| - next + 1, n);
      assert log[o..] == log[o..next] + log[next..];
    } else {
      assert Follow(p) == None;
      assert Pages<T>(fetch, None, n) == [];
      assert log[o..] == log[o..next];
    }
  }

  lemma {:induction false} MembersPrefix<T>(ps: seq<Page<T>>, qs: seq<Page<T>>)
    requires ps <= qs
    ensures Members(ps) <= Members(qs)
  {
    if ps != [] {
      MembersPrefix(ps[1..], qs[1..]);
    }
  }

  /** With a page limit, a prefix of the same chain, and so of the same entries. */
  lemma LimitedLogIsPrefix<T>(fetch: Uri -> Page<T>, log: seq<T>, uriOf: nat -> Uri, cut: nat -> nat, o: nat, m: nat)
    requires Serves(fetch, log, uriOf, cut) && o <= |log|
    ensures var all := Pages(fetch, Some(uriOf(o)), |log| - o + 1);
            && Pages(fetch, Some(uriOf(o)), m) == all[..if m <= |all| then m else |all|]
            && Members(Pages(fetch, Some(uriOf(o)), m)) <= log[o..]
  {
    WholeLogOnce(fetch, log, uriOf, cut, o);
    var n := |log| - o + 1;
    var uri := Some(uriOf(o));
    if m <= n {
      PagesPrefix(fetch, uri, m, n);
    } else {
      EndedStays(fetch, uri, n, m);
    }
    MembersPrefix(Pages(fetch, uri, m), Pages(fetch, uri, n));
  }
}
