/**
 The synchronous log iteration from end to end: the producer thread runs the page iterator against
 a server that cuts a log into pages, and the consumer yields what comes through the queue.
 */
module LogIteration {
  import opened Wrappers
  import LogPaging
  import PageBridge

  /** The producer's iterator, over a chain of at most `bound` pages: all pages, or some and then an exception. */
  ghost predicate Iterates<T>(script: PageBridge.Script<LogPaging.Page<T>>, fetch: LogPaging.Uri -> LogPaging.Page<T>,
                              start: LogPaging.Uri, maxPages: Option<nat>, bound: nat) {
    var all := LogPaging.Pages(fetch, Some(start), if maxPages.Some? then maxPages.value else bound);
    script.pages <= all && (!script.fails ==> script.pages == all)
  }

  lemma ChainMembers<T>(fetch: LogPaging.Uri -> LogPaging.Page<T>, log: seq<T>, uriOf: nat -> LogPaging.Uri, cut: nat -> nat,
                        o: nat, maxPages: Option<nat>)
    requires LogPaging.Serves(fetch, log, uriOf, cut) && o <= |log|
    ensures var n := if maxPages.Some? then maxPages.value else |log| - o + 1;
            LogPaging.Members(LogPaging.Pages(fetch, Some(uriOf(o)), n)) <= log[o..]
  {
    if maxPages.Some? {
      LogPaging.LimitedLogIsPrefix(fetch, log, uriOf, cut, o, maxPages.value);
    } else {
      LogPaging.WholeLogOnce(fetch, log, uriOf, cut, o);
    }
  }

  /**
   In every state of every interleaving the entries yielded are the beginning of the log from the
   offset on; when the consumer returns without a page limit they are all of it, once and in
   order; and a run that is over, was not given up and met no exception has got there.
   */
  lemma LogThroughTheBridge<T(!new)>(fetch: LogPaging.Uri -> LogPaging.Page<T>, log: seq<T>, uriOf: nat -> LogPaging.Uri,
                                     cut: nat -> nat, o: nat, maxPages: Option<nat>,
                                     script: PageBridge.Script<LogPaging.Page<T>>,
                                     run: seq<PageBridge.State<LogPaging.Page<T>>>, k: nat)
    requires LogPaging.Serves(fetch, log, uriOf, cut) && o <= |log|
    requires Iterates(script, fetch, uriOf(o), maxPages, |log| - o + 1)
    requires PageBridge.IsRun(script, run) && k < |run|
    ensures LogPaging.Members(run[k].yielded) <= log[o..]
    ensures maxPages.None? && run[k].consumer.Returned? ==> LogPaging.Members(run[k].yielded) == log[o..]
    ensures (forall step :: step != PageBridge.Abandon ==> !PageBridge.Enabled(script, run[k], step)) ==>
              script.fails || run[k].consumer.Abandoned? || run[k].consumer.Returned?
  {
    var n := if maxPages.Some? then maxPages.value else |log| - o + 1;
    ChainMembers(fetch, log, uriOf, cut, o, maxPages);
    PageBridge.PagesConserved(script, run, k);
    PageBridge.OutcomeFaithful(script, run, k);
    LogPaging.MembersPrefix(run[k].yielded, LogPaging.Pages(fetch, Some(uriOf(o)), n));
    if maxPages.None? {
      LogPaging.WholeLogOnce(fetch, log, uriOf, cut, o);
    }
    if forall step :: step != PageBridge.Abandon ==> !PageBridge.Enabled(script, run[k], step) {
      PageBridge.ConsumerNeverStuck(script, run, k);
    }
  }
}
