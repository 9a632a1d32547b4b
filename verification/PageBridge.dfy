/**
 The synchronous page iterator of the Python SDK: a producer thread runs the asynchronous iterator
 and fills a FIFO queue, ended by a sentinel; the consumer takes items off and yields the pages.
 Producer and consumer interleave freely, and the consumer may abandon the iteration.
 */
module PageBridge {

  datatype Item<P> = Page(page: P) | Failure(reason: string) | Sentinel

  /** What the asynchronous iterator does: some pages, then a normal end or an exception. */
  datatype Script<P> = Script(pages: seq<P>, fails: bool, reason: string)

  datatype ProducerPc = Producing | Finishing | Finished

  datatype ConsumerPc = Consuming | Joining | Returned | Raised(reason: string) | Abandoned

  datatype State<P> = State(
    produced: nat,              // pages put so far
    producer: ProducerPc,
    queue: seq<Item<P>>,
    yielded: seq<P>,
    consumer: ConsumerPc)

  datatype Step = PutPage | EndIteration | PutSentinel | Get | Join | Abandon

  function Start<P>(): State<P> {
    State(0, Producing, [], [], Consuming)
  }

  predicate Enabled<P>(script: Script<P>, s: State<P>, step: Step) {
    match step
    case PutPage => s.producer.Producing? && s.produced < |script.pages|
    case EndIteration => s.producer.Producing? && s.produced >= |script.pages|
    case PutSentinel => s.producer.Finishing?
    case Get => s.consumer.Consuming? && s.queue != []
    case Join => s.consumer.Joining? && s.producer.Finished?
    case Abandon => s.consumer.Consuming?
  }

  function Apply<P>(script: Script<P>, s: State<P>, step: Step): State<P>
    requires Enabled(script, s, step)
  {
    match step
    case PutPage => s.(queue := s.queue + [Page(script.pages[s.produced])], produced := s.produced + 1)
    // the iterator is over: an exception is queued, a normal end queues nothing
    case EndIteration =>
      if script.fails then s.(queue := s.queue + [Failure(script.reason)], producer := Finishing)
      else s.(producer := Finishing)
    case PutSentinel => s.(queue := s.queue + [Sentinel], producer := Finished)
    case Get =>
      var item, rest := s.queue[0], s.queue[1..];
      (match item
       case Sentinel => s.(queue := rest, consumer := Joining)
       case Failure(reason) => s.(queue := rest, consumer := Raised(reason))
       case Page(p) => s.(queue := rest, yielded := s.yielded + [p]))
    case Join => s.(consumer := Returned)
    case Abandon => s.(consumer := Abandoned)
  }

  ghost predicate Next<P(!new)>(script: Script<P>, s: State<P>, t: State<P>) {
    exists step :: Enabled(script, s, step) && t == Apply(script, s, step)
  }

  ghost predicate IsRun<P(!new)>(script: Script<P>, run: seq<State<P>>) {
    && run != [] && run[0] == Start()
    && forall k | 0 <= k < |run| - 1 :: Next(script, run[k], run[k + 1])
  }

  function AsItems<P>(pages: seq<P>): (r: seq<Item<P>>)
    ensures |r| == |pages| && forall k | 0 <= k < |pages| :: r[k] == Page(pages[k])
  {
    seq(|pages|, k requires 0 <= k < |pages| => Page(pages[k]))
  }

  /** What the producer puts after its pages, up to where it stands. */
  function Tail<P>(script: Script<P>, producer: ProducerPc): seq<Item<P>> {
    (if !producer.Producing? && script.fails then [Failure(script.reason)] else [])
    + (if producer.Finished? then [Sentinel] else [])
  }

  ghost predicate Inv<P>(script: Script<P>, s: State<P>) {
    && s.produced <= |script.pages|
    && (!s.producer.Producing? ==> s.produced == |script.pages|)
    && match s.consumer
       case Joining => s.producer.Finished? && !script.fails && s.yielded == script.pages && s.queue == []
       case Returned => s.producer.Finished? && !script.fails && s.yielded == script.pages && s.queue == []
       case Raised(reason) =>
         && !s.producer.Producing? && script.fails && reason == script.reason && s.yielded == script.pages
         && s.queue == if s.producer.Finished? then [Sentinel] else []
       case _ => InFlight(script, s)
  }

  /** Pages yielded, then pages queued, are the pages produced; the tail comes behind them. */
  ghost predicate InFlight<P>(script: Script<P>, s: State<P>)
    requires s.produced <= |script.pages|
  {
    && |s.yielded| <= s.produced
    && s.yielded == script.pages[..|s.yielded|]
    && s.queue == AsItems(script.pages[|s.yielded|..s.produced]) + Tail(script, s.producer)
  }

  lemma PutKeepsInv<P>(script: Script<P>, s: State<P>, step: Step)
    requires Inv(script, s) && Enabled(script, s, step)
    requires step.PutPage? || step.EndIteration? || step.PutSentinel?
    ensures Inv(script, Apply(script, s, step))
  {
    if step.PutPage? && (s.consumer.Consuming? || s.consumer.Abandoned?) {
      var n, p := |s.yielded|, script.pages[s.produced];
      assert script.pages[n..s.produced + 1] == script.pages[n..s.produced] + [p];
      assert AsItems(script.pages[n..s.produced] + [p]) == AsItems(script.pages[n..s.produced]) + [Page(p)];
    }
  }

  lemma FrontItem<P>(pages: seq<P>, tail: seq<Item<P>>)
    requires pages != []
    ensures var queue := AsItems(pages) + tail;
            queue[0] == Page(pages[0]) && queue[1..] == AsItems(pages[1..]) + tail
  {
  }

  lemma GetKeepsInv<P>(script: Script<P>, s: State<P>)
    requires Inv(script, s) && Enabled(script, s, Get)
    ensures Inv(script, Apply(script, s, Get))
  {
    var n := |s.yielded|;
    if n < s.produced {
      var p := script.pages[n];
      assert script.pages[n..s.produced][0] == p;
      FrontItem(script.pages[n..s.produced], Tail(script, s.producer));
      hide AsItems, Tail;
      assert script.pages[..n + 1] == script.pages[..n] + [p];
      assert script.pages[n..s.produced][1..] == script.pages[n + 1..s.produced];
    } else {
      assert s.queue == Tail(script, s.producer);
      assert script.pages[..|script.pages|] == script.pages;
    }
  }

  lemma {:induction false} RunKeepsInv<P(!new)>(script: Script<P>, run: seq<State<P>>, k: nat)
    requires IsRun(script, run) && k < |run|
    ensures Inv(script, run[k])
  {
    if k == 0 {
      assert script.pages[..0] == [];
    } else {
      RunKeepsInv(script, run, k - 1);
      var s := run[k - 1];
      assert Next(script, s, run[k - 1 + 1]);
      var step :| Enabled(script, s, step) && run[k] == Apply(script, s, step);
      if step.Get? {
        GetKeepsInv(script, s);
      } else if step.PutPage? || step.EndIteration? || step.PutSentinel? {
        PutKeepsInv(script, s, step);
      }
    }
  }

  // ----- Results over all runs -----

  /** While the consumer is at work, pages yielded and pages queued are the pages produced, in order. */
  lemma PagesConserved<P(!new)>(script: Script<P>, run: seq<State<P>>, k: nat)
    requires IsRun(script, run) && k < |run|
    ensures var s := run[k];
            && |s.yielded| <= s.produced <= |script.pages|
            && s.yielded <= script.pages[..s.produced]
            && (s.consumer.Consuming? ==>
                  && s.produced - |s.yielded| <= |s.queue|
                  && AsItems(script.pages[..s.produced]) == AsItems(s.yielded) + s.queue[..s.produced - |s.yielded|])
  {
    RunKeepsInv(script, run, k);
    var s := run[k];
    if s.consumer.Consuming? {
      var n := |s.yielded|;
      assert script.pages[..s.produced] == s.yielded + script.pages[n..s.produced];
      assert s.queue[..s.produced - n] == AsItems(script.pages[n..s.produced]);
    }
  }

  /** A sentinel is queued only when the producer is through, it is the last item, and there is never another. */
  lemma SentinelIsLast<P(!new)>(script: Script<P>, run: seq<State<P>>, k: nat)
    requires IsRun(script, run) && k < |run|
    ensures var s := run[k];
            && (forall j | 0 <= j < |s.queue| :: s.queue[j].Sentinel? <==> s.producer.Finished? && j == |s.queue| - 1)
            && (s.producer.Finished? <==> (s.queue != [] && s.queue[|s.queue| - 1].Sentinel?)
                                          || s.consumer.Joining? || s.consumer.Returned?)
            && (s.consumer.Joining? || s.consumer.Returned? ==> s.queue == [])
  {
    RunKeepsInv(script, run, k);
    var s := run[k];
    if s.consumer.Consuming? || s.consumer.Abandoned? {
      var ahead, tail := AsItems(script.pages[|s.yielded|..s.produced]), Tail(script, s.producer);
      assert forall j | 0 <= j < |s.queue| :: s.queue[j] == if j < |ahead| then ahead[j] else tail[j - |ahead|];
    }
  }

  /**
   When the consumer returns, it has yielded every page of a run that did not fail; when it raises,
   it raises the producer's exception, after every page.
   */
  lemma OutcomeFaithful<P(!new)>(script: Script<P>, run: seq<State<P>>, k: nat)
    requires IsRun(script, run) && k < |run|
    ensures run[k].consumer.Returned? || run[k].consumer.Joining? ==> !script.fails && run[k].yielded == script.pages
    ensures run[k].consumer.Raised? ==>
              script.fails && run[k].consumer.reason == script.reason && run[k].yielded == script.pages
  {
    RunKeepsInv(script, run, k);
  }

  /** What is still to be done: it shrinks with every step, so no run goes on forever. */
  function Remaining<P>(script: Script<P>, s: State<P>): int {
    2 * (|script.pages| - s.produced)
    + (match s.producer case Producing => 5 case Finishing => 2 case Finished => 0)
    + |s.queue|
    + (match s.consumer case Consuming => 2 case Joining => 1 case _ => 0)
  }

  lemma RunsEnd<P(!new)>(script: Script<P>, run: seq<State<P>>, k: nat, step: Step)
    requires IsRun(script, run) && k < |run| && Enabled(script, run[k], step)
    ensures 0 <= Remaining(script, Apply(script, run[k], step)) < Remaining(script, run[k])
  {
    RunKeepsInv(script, run, k);
  }

  /**
   The consumer is never stuck: a run in which nothing but giving up is possible has a finished
   producer, and a consumer that returned, raised or gave up before.
   */
  lemma ConsumerNeverStuck<P(!new)>(script: Script<P>, run: seq<State<P>>, k: nat)
    requires IsRun(script, run) && k < |run|
    requires forall step :: step != Abandon ==> !Enabled(script, run[k], step)
    ensures run[k].producer.Finished?
    ensures run[k].consumer.Returned? || run[k].consumer.Raised? || run[k].consumer.Abandoned?
  {
    RunKeepsInv(script, run, k);
    var s := run[k];
    assert !Enabled(script, s, PutPage) && !Enabled(script, s, EndIteration) && !Enabled(script, s, PutSentinel);
    assert !Enabled(script, s, Get) && !Enabled(script, s, Join);
    if s.consumer.Consuming? {
      ItemOrProducer(script, run, k);
      assert false;
    }
  }

  /** Waiting for an item, the consumer has one, or the producer still has something to put. */
  lemma ItemOrProducer<P(!new)>(script: Script<P>, run: seq<State<P>>, k: nat)
    requires IsRun(script, run) && k < |run| && run[k].consumer.Consuming?
    ensures Enabled(script, run[k], Get)
         || Enabled(script, run[k], PutPage) || Enabled(script, run[k], EndIteration) || Enabled(script, run[k], PutSentinel)
    ensures Enabled(script, run[k], Abandon) && Apply(script, run[k], Abandon) == run[k].(consumer := Abandoned)
  {
    RunKeepsInv(script, run, k);
  }
}
