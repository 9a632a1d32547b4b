/**
 The C++ listener with any number of connection threads.  A state holds the shared data and one
 program counter per connection; a step is one action of one thread: a connection is accepted,
 a record that is no object is skipped, an event is recorded under the mutex, or one callback is
 called.  Nothing orders the steps of different connections.
 */
module ConcurrentListener {
  import opened EventRecorder

  /**
   A connection: its peer, the records its request turned out to hold (none when the request is
   dropped), how many of them are behind it, and the callbacks the latest event still has to reach.
   */
  datatype Conn = Conn(ip: string, records: seq<Record>, next: nat, todo: seq<Target>)

  /** An event in the order of the mutex, with the connection that brought it. */
  datatype Entry = Entry(conn: nat, received: Received)

  datatype Call = Call(conn: nat, target: Target, event: Event)

  datatype State = State(
    buffer: seq<Event>,
    stats: map<string, nat>,
    conns: seq<Conn>,
    history: seq<Entry>,
    calls: seq<Call>)

  datatype Config = Config(bufferSize: nat, tables: Tables)

  datatype Step =
    | Accept(ip: string, records: seq<Record>)
    | Skip(id: nat)
    | Record(id: nat)
    | Invoke(id: nat)

  /** The latest event of a connection, when callbacks are outstanding. */
  function Current(c: Conn): Event
    requires 0 < c.next <= |c.records| && c.records[c.next - 1].Object?
  {
    c.records[c.next - 1].event
  }

  ghost predicate Enabled(s: State, step: Step) {
    match step
    case Accept(_, _) => true
    case Skip(id) => id < |s.conns| && var c := s.conns[id];
      c.todo == [] && c.next < |c.records| && c.records[c.next].NotAnObject?
    case Record(id) => id < |s.conns| && var c := s.conns[id];
      c.todo == [] && c.next < |c.records| && c.records[c.next].Object?
    case Invoke(id) => id < |s.conns| && var c := s.conns[id];
      c.todo != [] && 0 < c.next <= |c.records| && c.records[c.next - 1].Object?
  }

  /** Push the event, then drop from the front while the buffer is too long. */
  function Push(buffer: seq<Event>, event: Event, size: nat): seq<Event> {
    LastN(buffer + [event], size)
  }

  function Apply(cfg: Config, s: State, step: Step): State
    requires Enabled(s, step)
  {
    match step
    case Accept(ip, records) => s.(conns := s.conns + [Conn(ip, records, 0, [])])
    case Skip(id) =>
      var c := s.conns[id];
      s.(conns := s.conns[id := c.(next := c.next + 1)])
    case Record(id) =>
      var c := s.conns[id];
      var event := c.records[c.next].event;
      s.(buffer := Push(s.buffer, event, cfg.bufferSize),
         stats := Incremented(s.stats, c.ip),
         history := s.history + [Entry(id, Received(c.ip, event))],
         conns := s.conns[id := c.(next := c.next + 1, todo := Targets(cfg.tables, event))])
    case Invoke(id) =>
      var c := s.conns[id];
      s.(calls := s.calls + [Call(id, c.todo[0], Current(c))],
         conns := s.conns[id := c.(todo := c.todo[1..])])
  }

  const START := State([], map[], [], [], [])

  ghost predicate Next(cfg: Config, s: State, t: State) {
    exists step :: Enabled(s, step) && t == Apply(cfg, s, step)
  }

  /** Any interleaving, from the moment the listener starts. */
  ghost predicate IsRun(cfg: Config, run: seq<State>) {
    && run != [] && run[0] == START
    && forall k | 0 <= k < |run| - 1 :: Next(cfg, run[k], run[k + 1])
  }

  // ----- What the history and the calls say about one connection -----

  function Global(history: seq<Entry>): (r: seq<Received>)
    ensures |r| == |history|
  {
    if history == [] then [] else Global(history[..|history| - 1]) + [history[|history| - 1].received]
  }

  lemma {:induction false} GlobalMeaning(history: seq<Entry>, k: nat)
    requires k < |history|
    ensures Global(history)[k] == history[k].received
  {
    if k < |history| - 1 {
      GlobalMeaning(history[..|history| - 1], k);
    }
  }

  function HistoryOf(history: seq<Entry>, id: nat): seq<Event> {
    if history == [] then []
    else
      var last := history[|history| - 1];
      HistoryOf(history[..|history| - 1], id) + (if last.conn == id then [last.received.event] else [])
  }

  function CallsOf(calls: seq<Call>, id: nat): seq<(Target, Event)> {
    if calls == [] then []
    else
      var last := calls[|calls| - 1];
      CallsOf(calls[..|calls| - 1], id) + (if last.conn == id then [(last.target, last.event)] else [])
  }

  /** Where a history has entries of a connection, and where a call log has its calls, or those of a target. */
  function EntryPlaces(history: seq<Entry>, id: nat): set<nat> {
    set k | 0 <= k < |history| && history[k].conn == id
  }

  function CallPlaces(calls: seq<Call>, id: nat): set<nat> {
    set k | 0 <= k < |calls| && calls[k].conn == id
  }

  /** The part of a connection: as many events as entries, each at the place that the entries before it leave it. */
  lemma {:induction false} HistoryOfCount(history: seq<Entry>, id: nat)
    ensures |HistoryOf(history, id)| == |EntryPlaces(history, id)|
  {
    if history != [] {
      var n := |history| - 1;
      var init := history[..n];
      HistoryOfCount(init, id);
      assert EntryPlaces(history, id) == EntryPlaces(init, id) + (if history[n].conn == id then {n} else {}) by {
        assert forall k | 0 <= k < n :: init[k] == history[k];
      }
      assert n !in EntryPlaces(init, id);
    }
  }

  lemma {:induction false} HistoryOfAt(history: seq<Entry>, id: nat, k: nat)
    requires k < |history| && history[k].conn == id
    ensures |HistoryOf(history[..k], id)| < |HistoryOf(history, id)|
    ensures HistoryOf(history, id)[|HistoryOf(history[..k], id)|] == history[k].received.event
  {
    if k < |history| - 1 {
      HistoryOfAt(history[..|history| - 1], id, k);
      assert history[..|history| - 1][..k] == history[..k];
    }
  }

  /** And of its calls. */
  lemma {:induction false} CallsOfCount(calls: seq<Call>, id: nat)
    ensures |CallsOf(calls, id)| == |CallPlaces(calls, id)|
  {
    if calls != [] {
      var n := |calls| - 1;
      var init := calls[..n];
      CallsOfCount(init, id);
      assert CallPlaces(calls, id) == CallPlaces(init, id) + (if calls[n].conn == id then {n} else {}) by {
        assert forall k | 0 <= k < n :: init[k] == calls[k];
      }
      assert n !in CallPlaces(init, id);
    }
  }

  lemma {:induction false} CallsOfAt(calls: seq<Call>, id: nat, k: nat)
    requires k < |calls| && calls[k].conn == id
    ensures |CallsOf(calls[..k], id)| < |CallsOf(calls, id)|
    ensures CallsOf(calls, id)[|CallsOf(calls[..k], id)|] == (calls[k].target, calls[k].event)
  {
    if k < |calls| - 1 {
      CallsOfAt(calls[..|calls| - 1], id, k);
      assert calls[..|calls| - 1][..k] == calls[..k];
    }
  }

  /** Callbacks a connection has scheduled and not yet called. */
  function Outstanding(c: Conn): seq<(Target, Event)> {
    if c.todo != [] && 0 < c.next <= |c.records| && c.records[c.next - 1].Object?
    then Aimed(c.todo, Current(c)) else []
  }

  ghost predicate ConnOk(cfg: Config, s: State, id: nat)
    requires id < |s.conns|
  {
    var c := s.conns[id];
    && c.next <= |c.records|
    && (c.todo != [] ==> 0 < c.next && c.records[c.next - 1].Object?)
    && HistoryOf(s.history, id) == Parsed(c.records[..c.next])
    && CallsOf(s.calls, id) + Outstanding(c) == Deliveries(cfg.tables, Parsed(c.records[..c.next]))
  }

  ghost predicate Inv(cfg: Config, s: State) {
    && s.buffer == LastN(EventsOf(Global(s.history)), cfg.bufferSize)
    && Counted(s.stats, Global(s.history), COUNTER_WRAP)
    && (forall k | 0 <= k < |s.history| ::
          s.history[k].conn < |s.conns| && s.history[k].received.ip == s.conns[s.history[k].conn].ip)
    && (forall k | 0 <= k < |s.calls| :: s.calls[k].conn < |s.conns|)
    && (forall id | 0 <= id < |s.conns| :: ConnOk(cfg, s, id))
  }

  lemma AppendEntry(history: seq<Entry>, e: Entry, id: nat)
    ensures Global(history + [e]) == Global(history) + [e.received]
    ensures HistoryOf(history + [e], id) == HistoryOf(history, id) + (if e.conn == id then [e.received.event] else [])
  {
    assert (history + [e])[..|history|] == history;
  }

  lemma AppendCall(calls: seq<Call>, c: Call, id: nat)
    ensures CallsOf(calls + [c], id) == CallsOf(calls, id) + (if c.conn == id then [(c.target, c.event)] else [])
  {
    assert (calls + [c])[..|calls|] == calls;
  }

  lemma {:induction false} NoTrace(history: seq<Entry>, calls: seq<Call>, id: nat)
    requires forall k | 0 <= k < |history| :: history[k].conn != id
    requires forall k | 0 <= k < |calls| :: calls[k].conn != id
    ensures HistoryOf(history, id) == [] && CallsOf(calls, id) == []
    decreases |history| + |calls|
  {
    if history != [] {
      NoTrace(history[..|history| - 1], calls, id);
    } else if calls != [] {
      NoTrace(history, calls[..|calls| - 1], id);
    }
  }

  // ----- Every step keeps the invariant -----

  lemma AcceptKeepsConn(cfg: Config, s: State, ip: string, records: seq<Record>, id: nat)
    requires Inv(cfg, s) && id <= |s.conns|
    ensures ConnOk(cfg, Apply(cfg, s, Accept(ip, records)), id)
  {
    hide Counted, EventsOf, LastN, HistoryOf, CallsOf;
    if id == |s.conns| {
      NoTrace(s.history, s.calls, id);
      assert records[..0] == [];
    } else {
      assert ConnOk(cfg, s, id);
      hide Parsed, Deliveries;
    }
  }

  lemma KeptByAccept(cfg: Config, s: State, ip: string, records: seq<Record>)
    requires Inv(cfg, s)
    ensures Inv(cfg, Apply(cfg, s, Accept(ip, records)))
  {
    hide Counted, EventsOf, LastN, ConnOk;
    var t := Apply(cfg, s, Accept(ip, records));
    forall id | 0 <= id < |t.conns|
      ensures ConnOk(cfg, t, id)
    {
      AcceptKeepsConn(cfg, s, ip, records, id);
    }
  }

  lemma SkipKeepsConn(cfg: Config, s: State, me: nat, id: nat)
    requires Enabled(s, Skip(me)) && id < |s.conns|
    requires ConnOk(cfg, s, me) && ConnOk(cfg, s, id)
    ensures ConnOk(cfg, Apply(cfg, s, Skip(me)), id)
  {
    hide HistoryOf, CallsOf, Parsed, Deliveries;
    var c := s.conns[me];
    assert c.records[..c.next + 1] == c.records[..c.next] + [c.records[c.next]];
    ParsedAppend(c.records[..c.next], c.records[c.next]);
    assert Parsed(c.records[..c.next]) + [] == Parsed(c.records[..c.next]);
  }

  lemma KeptBySkip(cfg: Config, s: State, me: nat)
    requires Inv(cfg, s) && Enabled(s, Skip(me))
    ensures Inv(cfg, Apply(cfg, s, Skip(me)))
  {
    hide Counted, EventsOf, LastN, ConnOk;
    var t := Apply(cfg, s, Skip(me));
    forall id | 0 <= id < |t.conns|
      ensures ConnOk(cfg, t, id)
    {
      SkipKeepsConn(cfg, s, me, id);
    }
  }

  lemma RecordKeepsConn(cfg: Config, s: State, me: nat, id: nat)
    requires Enabled(s, Record(me)) && id < |s.conns|
    requires ConnOk(cfg, s, me) && ConnOk(cfg, s, id)
    ensures ConnOk(cfg, Apply(cfg, s, Record(me)), id)
  {
    hide Incremented, Targets, LastN, HistoryOf, CallsOf, Parsed, Deliveries;
    var c := s.conns[me];
    var event := c.records[c.next].event;
    AppendEntry(s.history, Entry(me, Received(c.ip, event)), id);
    if id == me {
      assert c.records[..c.next + 1] == c.records[..c.next] + [c.records[c.next]];
      ParsedAppend(c.records[..c.next], c.records[c.next]);
      DeliveriesAppend(cfg.tables, Parsed(c.records[..c.next]), event);
      assert CallsOf(s.calls, me) + [] == CallsOf(s.calls, me);
    } else {
      assert HistoryOf(s.history, id) + [] == HistoryOf(s.history, id);
    }
  }

  lemma KeptByRecord(cfg: Config, s: State, me: nat)
    requires Inv(cfg, s) && Enabled(s, Record(me))
    ensures Inv(cfg, Apply(cfg, s, Record(me)))
  {
    hide Counted, EventsOf, Incremented, Targets, ConnOk;
    var t := Apply(cfg, s, Record(me));
    var c := s.conns[me];
    var r := Received(c.ip, c.records[c.next].event);
    AppendEntry(s.history, Entry(me, r), me);
    HistoryAppend(Global(s.history), r);
    IncrementCounts(s.stats, Global(s.history), r);
    LastNAbsorbs(EventsOf(Global(s.history)), [r.event], cfg.bufferSize);
    hide LastN;
    forall id | 0 <= id < |t.conns|
      ensures ConnOk(cfg, t, id)
    {
      RecordKeepsConn(cfg, s, me, id);
    }
  }

  lemma OutstandingStep(c: Conn)
    requires c.todo != [] && 0 < c.next <= |c.records| && c.records[c.next - 1].Object?
    ensures Outstanding(c) == [(c.todo[0], Current(c))] + Outstanding(c.(todo := c.todo[1..]))
  {
  }

  lemma MoveOver<T>(done: seq<T>, x: T, rest: seq<T>)
    ensures done + ([x] + rest) == done + [x] + rest
    ensures done + [] == done
  {
  }

  lemma InvokeKeepsConn(cfg: Config, s: State, me: nat, id: nat)
    requires Enabled(s, Invoke(me)) && id < |s.conns|
    requires ConnOk(cfg, s, me) && ConnOk(cfg, s, id)
    ensures ConnOk(cfg, Apply(cfg, s, Invoke(me)), id)
  {
    hide HistoryOf, CallsOf, Parsed, Deliveries, Outstanding, Current;
    var c, t := s.conns[me], Apply(cfg, s, Invoke(me));
    var called, rest := (c.todo[0], Current(c)), Outstanding(c.(todo := c.todo[1..]));
    AppendCall(s.calls, Call(me, c.todo[0], Current(c)), id);
    assert t.history == s.history && t.calls == s.calls + [Call(me, c.todo[0], Current(c))];
    OutstandingStep(c);
    MoveOver(CallsOf(s.calls, id), called, rest);
    if id == me {
      assert t.conns[me] == c.(todo := c.todo[1..]);
      hide Apply, Enabled;
      assert CallsOf(t.calls, me) + Outstanding(t.conns[me]) == CallsOf(s.calls, me) + Outstanding(c);
    } else {
      assert t.conns[id] == s.conns[id];
      hide Apply, Enabled;
      assert CallsOf(t.calls, id) == CallsOf(s.calls, id);
    }
  }

  lemma KeptByInvoke(cfg: Config, s: State, me: nat)
    requires Inv(cfg, s) && Enabled(s, Invoke(me))
    ensures Inv(cfg, Apply(cfg, s, Invoke(me)))
  {
    hide Counted, EventsOf, LastN, ConnOk;
    var t := Apply(cfg, s, Invoke(me));
    forall id | 0 <= id < |t.conns|
      ensures ConnOk(cfg, t, id)
    {
      InvokeKeepsConn(cfg, s, me, id);
    }
  }

  lemma {:induction false} RunKeepsInv(cfg: Config, run: seq<State>, k: nat)
    requires IsRun(cfg, run) && k < |run|
    ensures Inv(cfg, run[k])
  {
    hide Apply, Enabled;
    if k == 0 {
      StartInv(cfg);
    } else {
      RunKeepsInv(cfg, run, k - 1);
      assert Next(cfg, run[k - 1], run[k - 1 + 1]);
      var step :| Enabled(run[k - 1], step) && run[k] == Apply(cfg, run[k - 1], step);
      match step
      case Accept(ip, records) => KeptByAccept(cfg, run[k - 1], ip, records);
      case Skip(id) => KeptBySkip(cfg, run[k - 1], id);
      case Record(id) => KeptByRecord(cfg, run[k - 1], id);
      case Invoke(id) => KeptByInvoke(cfg, run[k - 1], id);
    }
  }

  lemma StartInv(cfg: Config)
    ensures Inv(cfg, START)
  {
  }

  // ----- Results over all runs -----

  lemma LastEvents(history: seq<Entry>, n: nat)
    ensures var last := LastN(EventsOf(Global(history)), n);
            && |last| == (if |history| <= n then |history| else n)
            && forall j | 0 <= j < |last| :: last[j] == history[|history| - |last| + j].received.event
  {
    hide EventsOf, Global, LastN;
    var events := EventsOf(Global(history));
    LastNMeaning(events, n);
    forall j | 0 <= j < |history| ensures events[j] == history[j].received.event {
      EventsMeaning(Global(history), j);
      GlobalMeaning(history, j);
    }
  }

  /** The ring buffer is the last bufferSize events of one history shared by all connections. */
  lemma BufferIsLastEvents(cfg: Config, run: seq<State>, k: nat)
    requires IsRun(cfg, run) && k < |run|
    ensures var buffer, history := run[k].buffer, run[k].history;
            && |buffer| == (if |history| <= cfg.bufferSize then |history| else cfg.bufferSize)
            && forall j | 0 <= j < |buffer| :: buffer[j] == history[|history| - |buffer| + j].received.event
  {
    hide EventsOf, Global, LastN, IsRun, ConnOk, Counted;
    RunKeepsInv(cfg, run, k);
    LastEvents(run[k].history, cfg.bufferSize);
  }

  lemma {:induction false} ParsedPrefix(records: seq<Record>, n: nat)
    requires n <= |records|
    ensures Parsed(records[..n]) <= Parsed(records)
    decreases |records| - n
  {
    if n == |records| {
      assert records[..n] == records;
    } else {
      assert records[..n + 1] == records[..n] + [records[n]];
      ParsedAppend(records[..n], records[n]);
      ParsedPrefix(records, n + 1);
    }
  }

  lemma {:induction false} DeliveriesPrefix(t: Tables, events: seq<Event>, n: nat)
    requires n <= |events|
    ensures Deliveries(t, events[..n]) <= Deliveries(t, events)
    decreases |events| - n
  {
    if n == |events| {
      assert events[..n] == events;
    } else {
      assert events[..n + 1] == events[..n] + [events[n]];
      DeliveriesAppend(t, events[..n], events[n]);
      DeliveriesPrefix(t, events, n + 1);
    }
  }

  /**
   A connection's part of the history is a prefix of what it parsed, in order; its calls are a
   prefix of what its payload must deliver, so nothing is delivered twice or out of order; and
   when it has finished, both are complete.
   */
  lemma ConnectionFaithful(cfg: Config, run: seq<State>, k: nat, id: nat)
    requires IsRun(cfg, run) && k < |run| && id < |run[k].conns|
    ensures var s, c := run[k], run[k].conns[id];
            && HistoryOf(s.history, id) <= Parsed(c.records)
            && CallsOf(s.calls, id) <= Deliveries(cfg.tables, HistoryOf(s.history, id))
            && Deliveries(cfg.tables, HistoryOf(s.history, id)) <= Deliveries(cfg.tables, Parsed(c.records))
            && (c.next >= |c.records| && c.todo == [] ==>
                 && HistoryOf(s.history, id) == Parsed(c.records)
                 && CallsOf(s.calls, id) == Deliveries(cfg.tables, Parsed(c.records)))
            && forall j | 0 <= j < |s.history| && s.history[j].conn == id :: s.history[j].received.ip == c.ip
  {
    RunKeepsInv(cfg, run, k);
    var s, c := run[k], run[k].conns[id];
    assert ConnOk(cfg, s, id);
    hide Deliveries, Parsed, HistoryOf, CallsOf;
    ParsedPrefix(c.records, c.next);
    var parsed := Parsed(c.records);
    var n := |Parsed(c.records[..c.next])|;
    assert Parsed(c.records[..c.next]) == parsed[..n];
    DeliveriesPrefix(cfg.tables, parsed, n);
    if c.next >= |c.records| && c.todo == [] {
      assert c.records[..c.next] == c.records;
      assert CallsOf(s.calls, id) + [] == CallsOf(s.calls, id);
    }
  }

  // ----- Nothing is taken back, and all of it comes -----

  /** The history and the calls only grow, and a connection keeps its peer and its records and never goes back. */
  lemma {:induction false} RunsGrow(cfg: Config, run: seq<State>, i: nat, k: nat)
    requires IsRun(cfg, run) && i <= k < |run|
    ensures run[i].history <= run[k].history && run[i].calls <= run[k].calls
    ensures |run[i].conns| <= |run[k].conns|
    ensures forall id | 0 <= id < |run[i].conns| ::
              var c, d := run[i].conns[id], run[k].conns[id];
              c.ip == d.ip && c.records == d.records && c.next <= d.next
  {
    if i < k {
      RunsGrow(cfg, run, i, k - 1);
      hide Targets, Push, Incremented, Current;
      assert Next(cfg, run[k - 1], run[k - 1 + 1]);
    }
  }

  /** What a connection still has to do: one step for every record to come, one for every callback. */
  function ConnWork(t: Tables, c: Conn): nat {
    |c.todo| + RecordWork(t, if c.next <= |c.records| then c.records[c.next..] else [])
  }

  function RecordWork(t: Tables, records: seq<Record>): nat {
    if records == [] then 0
    else 1 + (if records[0].Object? then |Targets(t, records[0].event)| else 0) + RecordWork(t, records[1..])
  }

  function Work(t: Tables, conns: seq<Conn>): nat {
    if conns == [] then 0 else Work(t, conns[..|conns| - 1]) + ConnWork(t, conns[|conns| - 1])
  }

  lemma {:induction false} WorkUpdate(t: Tables, conns: seq<Conn>, id: nat, c: Conn)
    requires id < |conns|
    ensures Work(t, conns[id := c]) == Work(t, conns) - ConnWork(t, conns[id]) + ConnWork(t, c)
  {
    hide ConnWork;
    var init := conns[..|conns| - 1];
    if id == |conns| - 1 {
      assert conns[id := c][..|conns| - 1] == init;
    } else {
      assert conns[id := c][..|conns| - 1] == init[id := c];
      WorkUpdate(t, init, id, c);
    }
  }

  /** A connection can always be accepted; it brings its own work. */
  lemma AcceptBringsWork(cfg: Config, s: State, ip: string, records: seq<Record>)
    ensures Enabled(s, Accept(ip, records))
    ensures var t := Apply(cfg, s, Accept(ip, records));
            && t == s.(conns := s.conns + [Conn(ip, records, 0, [])])
            && Work(cfg.tables, t.conns) == Work(cfg.tables, s.conns) + RecordWork(cfg.tables, records)
  {
    var t := Apply(cfg, s, Accept(ip, records));
    assert t.conns[..|s.conns|] == s.conns;
    assert records[0..] == records;
  }

  /** Every other step does exactly one unit of the work. */
  lemma StepsDoWork(cfg: Config, s: State, step: Step)
    requires Enabled(s, step) && !step.Accept?
    ensures Work(cfg.tables, Apply(cfg, s, step).conns) == Work(cfg.tables, s.conns) - 1
  {
    hide Targets, Push, Incremented, Current, Work;
    var t := Apply(cfg, s, step);
    var id := match step case Skip(id) => id case Record(id) => id case Invoke(id) => id case Accept(_, _) => 0;
    var c := s.conns[id];
    WorkUpdate(cfg.tables, s.conns, id, t.conns[id]);
    if !step.Invoke? {
      assert c.records[c.next..][1..] == c.records[c.next + 1..];
    }
  }

  lemma IdleConn(t: Tables, c: Conn)
    requires c.next <= |c.records|
    ensures ConnWork(t, c) == 0 <==> c.next == |c.records| && c.todo == []
  {
  }

  /** No work is left exactly when every connection is through its records and its callbacks. */
  lemma WorkIsUnfinished(cfg: Config, run: seq<State>, k: nat)
    requires IsRun(cfg, run) && k < |run|
    ensures Work(cfg.tables, run[k].conns) == 0 <==>
            forall id | 0 <= id < |run[k].conns| ::
              run[k].conns[id].next == |run[k].conns[id].records| && run[k].conns[id].todo == []
  {
    RunKeepsInv(cfg, run, k);
    var s := run[k];
    NoWork(cfg.tables, s.conns);
    hide Work, ConnWork;
    forall id | 0 <= id < |s.conns|
      ensures ConnWork(cfg.tables, s.conns[id]) == 0 <==>
              s.conns[id].next == |s.conns[id].records| && s.conns[id].todo == []
    {
      assert ConnOk(cfg, s, id);
      IdleConn(cfg.tables, s.conns[id]);
    }
  }

  /** As long as there is work some thread has a step, so that exactly that many steps finish every connection. */
  lemma WorkGoesOn(cfg: Config, run: seq<State>, k: nat)
    requires IsRun(cfg, run) && k < |run|
    ensures Work(cfg.tables, run[k].conns) == 0 <==> forall step | Enabled(run[k], step) :: step.Accept?
  {
    var s := run[k];
    if Work(cfg.tables, s.conns) == 0 {
      forall step | Enabled(s, step) ensures step.Accept? {
        if !step.Accept? {
          StepsDoWork(cfg, s, step);
        }
      }
    } else {
      RunKeepsInv(cfg, run, k);
      WorkIsUnfinished(cfg, run, k);
      var id :| 0 <= id < |s.conns| && !(s.conns[id].next == |s.conns[id].records| && s.conns[id].todo == []);
      assert ConnOk(cfg, s, id);
      hide Inv, Work;
      OneCanStep(s, id);
    }
  }

  lemma OneCanStep(s: State, id: nat)
    requires id < |s.conns| && s.conns[id].next <= |s.conns[id].records|
    requires s.conns[id].todo != [] ==> 0 < s.conns[id].next && s.conns[id].records[s.conns[id].next - 1].Object?
    requires !(s.conns[id].next == |s.conns[id].records| && s.conns[id].todo == [])
    ensures exists step :: Enabled(s, step) && !step.Accept?
  {
    var c := s.conns[id];
    if c.todo != [] {
      assert Enabled(s, Invoke(id));
    } else if c.records[c.next].Object? {
      assert Enabled(s, Record(id));
    } else {
      assert Enabled(s, Skip(id));
    }
  }

  lemma {:induction false} NoWork(t: Tables, conns: seq<Conn>)
    ensures Work(t, conns) == 0 <==> forall id | 0 <= id < |conns| :: ConnWork(t, conns[id]) == 0
  {
    hide ConnWork;
    if conns != [] {
      var init := conns[..|conns| - 1];
      NoWork(t, init);
      assert forall id | 0 <= id < |init| :: init[id] == conns[id];
    }
  }

  // ----- Counters add up -----

  ghost function Pick(ips: set<string>): string
    requires ips != {}
  {
    var ip :| ip in ips; ip
  }

  ghost function SumCounts(ips: set<string>, history: seq<Received>): nat {
    if ips == {} then 0 else CountOf(history, Pick(ips)) + SumCounts(ips - {Pick(ips)}, history)
  }

  lemma {:induction false} SumAppend(ips: set<string>, history: seq<Received>, r: Received)
    ensures SumCounts(ips, history + [r]) == SumCounts(ips, history) + (if r.ip in ips then 1 else 0)
  {
    if ips != {} {
      SumAppend(ips - {Pick(ips)}, history, r);
      HistoryAppend(history, r);
    }
  }

  lemma {:induction false} SumOfNothing(ips: set<string>)
    ensures SumCounts(ips, []) == 0
  {
    if ips != {} {
      SumOfNothing(ips - {Pick(ips)});
    }
  }

  lemma {:induction false} SumIsLength(ips: set<string>, history: seq<Received>)
    requires forall k | 0 <= k < |history| :: history[k].ip in ips
    ensures SumCounts(ips, history) == |history|
  {
    if history == [] {
      SumOfNothing(ips);
    } else {
      var init, last := history[..|history| - 1], history[|history| - 1];
      SumIsLength(ips, init);
      SumAppend(ips, init, last);
      assert history == init + [last];
    }
  }

  lemma {:induction false} CountedSeen(history: seq<Received>, k: nat)
    requires k < |history|
    ensures CountOf(history, history[k].ip) > 0
  {
    if k < |history| - 1 {
      CountedSeen(history[..|history| - 1], k);
    }
  }

  ghost function SumStats(stats: map<string, nat>, ips: set<string>): nat
    requires ips <= stats.Keys
  {
    if ips == {} then 0 else stats[Pick(ips)] + SumStats(stats, ips - {Pick(ips)})
  }

  /** Counters that wrapped lose multiples of 2^32, so the sums are equal only if none did. */
  lemma {:induction false} WrappedSums(stats: map<string, nat>, ips: set<string>, history: seq<Received>)
    requires ips <= stats.Keys
    requires forall ip | ip in ips :: stats[ip] == CountOf(history, ip) % COUNTER_WRAP
    ensures SumStats(stats, ips) <= SumCounts(ips, history)
    ensures SumStats(stats, ips) == SumCounts(ips, history) <==> forall ip | ip in ips :: CountOf(history, ip) < COUNTER_WRAP
  {
    if ips != {} {
      var ip := Pick(ips);
      WrappedSums(stats, ips - {ip}, history);
      assert stats[ip] <= CountOf(history, ip);
      assert stats[ip] == CountOf(history, ip) <==> CountOf(history, ip) < COUNTER_WRAP;
      if SumStats(stats, ips) == SumCounts(ips, history) {
        forall other | other in ips ensures CountOf(history, other) < COUNTER_WRAP {
          assert other == ip || other in ips - {ip};
        }
      }
    }
  }

  /** The counters are those of the addresses in the history, each its count modulo 2^32. */
  lemma StatsAreCounts(cfg: Config, run: seq<State>, k: nat, ip: string)
    requires IsRun(cfg, run) && k < |run|
    ensures var stats, n := run[k].stats, CountOf(Global(run[k].history), ip);
            && (ip in stats <==> n > 0)
            && (ip in stats ==> stats[ip] == n % 0x1_0000_0000)
  {
    RunKeepsInv(cfg, run, k);
  }

  ghost predicate NoneWrapped(history: seq<Received>) {
    forall ip :: CountOf(history, ip) < 0x1_0000_0000
  }

  /** The per-address counters add up to the length of the history exactly as long as none of them has wrapped. */
  lemma StatsSumToHistory(cfg: Config, run: seq<State>, k: nat)
    requires IsRun(cfg, run) && k < |run|
    ensures SumStats(run[k].stats, run[k].stats.Keys) == |run[k].history| <==> NoneWrapped(Global(run[k].history))
  {
    RunKeepsInv(cfg, run, k);
    CountersSum(run[k].stats, Global(run[k].history));
  }

  lemma CountersSum(stats: map<string, nat>, history: seq<Received>)
    requires Counted(stats, history, COUNTER_WRAP)
    ensures SumStats(stats, stats.Keys) == |history| <==> NoneWrapped(history)
  {
    forall j | 0 <= j < |history| ensures history[j].ip in stats.Keys {
      CountedSeen(history, j);
    }
    SumIsLength(stats.Keys, history);
    WrappedSums(stats, stats.Keys, history);
    if SumStats(stats, stats.Keys) == |history| {
      forall ip ensures CountOf(history, ip) < 0x1_0000_0000 {
        assert ip !in stats.Keys ==> CountOf(history, ip) == 0;
      }
    }
  }

  // ----- Global callbacks keep step with the history -----

  function Waiting(todo: seq<Target>, target: Target): nat {
    if todo == [] then 0 else (if todo[0] == target then 1 else 0) + Waiting(todo[1..], target)
  }

  function WaitingAll(conns: seq<Conn>, target: Target): nat {
    if conns == [] then 0 else WaitingAll(conns[..|conns| - 1], target) + Waiting(conns[|conns| - 1].todo, target)
  }

  function TimesCalled(calls: seq<Call>, target: Target): nat {
    if calls == [] then 0
    else TimesCalled(calls[..|calls| - 1], target) + (if calls[|calls| - 1].target == target then 1 else 0)
  }

  /** Where a call log has calls of a target. */
  function TargetPlaces(calls: seq<Call>, target: Target): set<nat> {
    set k | 0 <= k < |calls| && calls[k].target == target
  }

  lemma {:induction false} TimesCalledMeaning(calls: seq<Call>, target: Target)
    ensures TimesCalled(calls, target) == |TargetPlaces(calls, target)|
  {
    if calls != [] {
      var n := |calls| - 1;
      var init := calls[..n];
      TimesCalledMeaning(init, target);
      LastPlace(calls, target);
      hide TargetPlaces;
    }
  }

  lemma LastPlace(calls: seq<Call>, target: Target)
    requires calls != []
    ensures |TargetPlaces(calls, target)|
         == |TargetPlaces(calls[..|calls| - 1], target)| + (if calls[|calls| - 1].target == target then 1 else 0)
  {
    var n := |calls| - 1;
    var before := TargetPlaces(calls[..n], target);
    assert TargetPlaces(calls, target) == if calls[n].target == target then before + {n} else before;
  }

  lemma {:induction false} WaitingUpdate(conns: seq<Conn>, id: nat, c: Conn, target: Target)
    requires id < |conns|
    ensures WaitingAll(conns[id := c], target)
         == WaitingAll(conns, target) - Waiting(conns[id].todo, target) + Waiting(c.todo, target)
  {
    var init := conns[..|conns| - 1];
    if id == |conns| - 1 {
      assert conns[id := c][..|conns| - 1] == init;
    } else {
      assert conns[id := c][..|conns| - 1] == init[id := c];
      WaitingUpdate(init, id, c, target);
    }
  }

  lemma {:induction false} WaitingNone(todo: seq<Target>, target: Target)
    requires target !in todo
    ensures Waiting(todo, target) == 0
  {
    if todo != [] {
      WaitingNone(todo[1..], target);
    }
  }

  lemma {:induction false} WaitingSome(todo: seq<Target>, target: Target)
    requires target in todo
    ensures Waiting(todo, target) > 0
  {
    if todo[0] != target {
      WaitingSome(todo[1..], target);
    }
  }

  /** Every event schedules every global callback once. */
  lemma OncePerEvent(t: Tables, e: Event, i: nat)
    requires i < t.any
    ensures Waiting(Targets(t, e), Any(i)) == 1
  {
    hide Targets;
    TargetsAreMatches(t, e, Any(i));
    var ts := Targets(t, e);
    var k :| 0 <= k < |ts| && ts[k] == Any(i);
    forall j | 0 <= j < |ts| && j != k ensures ts[j] != Any(i) {
      assert if j < k then Before(ts[j], ts[k]) else Before(ts[k], ts[j]);
    }
    WaitingOnce(ts, k);
  }

  lemma {:induction false} WaitingOnce(ts: seq<Target>, k: nat)
    requires k < |ts| && forall j | 0 <= j < |ts| && j != k :: ts[j] != ts[k]
    ensures Waiting(ts, ts[k]) == 1
  {
    if k == 0 {
      WaitingNone(ts[1..], ts[0]);
    } else {
      WaitingOnce(ts[1..], k - 1);
    }
  }

  /** Calls made and calls owed to a global callback, less the events recorded: no step changes the balance. */
  function Balance(s: State, target: Target): int {
    TimesCalled(s.calls, target) + WaitingAll(s.conns, target) - |s.history|
  }

  lemma StepKeepsBalance(cfg: Config, s: State, step: Step, i: nat)
    requires Enabled(s, step) && i < cfg.tables.any
    ensures Balance(Apply(cfg, s, step), Any(i)) == Balance(s, Any(i))
  {
    hide Targets, Push, Incremented, Current;
    var t := Apply(cfg, s, step);
    match step
    case Accept(ip, records) =>
      assert t.conns[..|s.conns|] == s.conns;
    case Skip(id) =>
      WaitingUpdate(s.conns, id, t.conns[id], Any(i));
    case Record(id) =>
      WaitingUpdate(s.conns, id, t.conns[id], Any(i));
      OncePerEvent(cfg.tables, s.conns[id].records[s.conns[id].next].event, i);
    case Invoke(id) =>
      WaitingUpdate(s.conns, id, t.conns[id], Any(i));
      assert t.calls[..|s.calls|] == s.calls;
      hide WaitingAll;
  }

  lemma {:induction false} CallsAndWaiting(cfg: Config, run: seq<State>, k: nat, i: nat)
    requires IsRun(cfg, run) && k < |run| && i < cfg.tables.any
    ensures Balance(run[k], Any(i)) == 0
  {
    hide Apply, Enabled;
    if k > 0 {
      CallsAndWaiting(cfg, run, k - 1, i);
      hide Balance;
      assert Next(cfg, run[k - 1], run[k - 1 + 1]);
      var step :| Enabled(run[k - 1], step) && run[k] == Apply(cfg, run[k - 1], step);
      StepKeepsBalance(cfg, run[k - 1], step, i);
    }
  }

  lemma {:induction false} NobodyWaits(conns: seq<Conn>, target: Target)
    ensures WaitingAll(conns, target) == 0 <==> forall id | 0 <= id < |conns| :: target !in conns[id].todo
  {
    if conns != [] {
      var init, last := conns[..|conns| - 1], conns[|conns| - 1];
      NobodyWaits(init, target);
      if target in last.todo {
        WaitingSome(last.todo, target);
      } else {
        WaitingNone(last.todo, target);
        if WaitingAll(init, target) == 0 {
          assert forall id | 0 <= id < |conns| - 1 :: conns[id] == init[id];
        } else {
          var id :| 0 <= id < |init| && target in init[id].todo;
          assert conns[id] == init[id];
        }
      }
    }
  }

  /** A global callback is never ahead of the history, and level with it exactly when no thread still owes it a call. */
  lemma GlobalCallsFollowHistory(cfg: Config, run: seq<State>, k: nat, i: nat)
    requires IsRun(cfg, run) && k < |run| && i < cfg.tables.any
    ensures TimesCalled(run[k].calls, Any(i)) <= |run[k].history|
    ensures TimesCalled(run[k].calls, Any(i)) == |run[k].history|
       <==> forall id | 0 <= id < |run[k].conns| :: Any(i) !in run[k].conns[id].todo
  {
    CallsAndWaiting(cfg, run, k, i);
    NobodyWaits(run[k].conns, Any(i));
  }
}
