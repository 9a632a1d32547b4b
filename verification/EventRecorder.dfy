/**
 What the three event listeners keep and call for every received event: a ring buffer of the
 last events, counters per source address, and the callbacks that match.  The specification
 functions come first, then the C++, Python and Rust bookkeeping that computes them.
 */
module EventRecorder {

  datatype Event = Event(eventType: string, messageId: string, raw: string)

  /** A member of a posted Events array. */
  datatype Record = NotAnObject | Object(event: Event)

  /** One entry of the history: who sent it and what it was. */
  datatype Received = Received(ip: string, event: Event)

  /** Numbers of registered callbacks, by table. */
  datatype Tables = Tables(any: nat, byType: map<string, nat>, byRegistry: map<string, nat>)

  /** A registered callback: its table and its position there. */
  datatype Target = Any(i: nat) | ByType(name: string, i: nat) | ByRegistry(prefix: string, i: nat)

  /** The events among the records of a payload, in order. */
  function Parsed(records: seq<Record>): seq<Event> {
    if records == [] then []
    else
      var last := records[|records| - 1];
      Parsed(records[..|records| - 1]) + (if last.Object? then [last.event] else [])
  }

  function EventsOf(history: seq<Received>): (es: seq<Event>)
    ensures |es| == |history|
  {
    if history == [] then [] else EventsOf(history[..|history| - 1]) + [history[|history| - 1].event]
  }

  function CountOf(history: seq<Received>, ip: string): nat {
    if history == [] then 0
    else CountOf(history[..|history| - 1], ip) + (if history[|history| - 1].ip == ip then 1 else 0)
  }

  function LastN<T>(s: seq<T>, n: nat): seq<T> {
    if |s| <= n then s else s[|s| - n..]
  }

  // ----- What these functions pick out -----

  /** Where a payload has objects. */
  function ObjectPlaces(records: seq<Record>): set<nat> {
    set k | 0 <= k < |records| && records[k].Object?
  }

  /** As many events as records that are objects. */
  lemma {:induction false} ParsedCount(records: seq<Record>)
    ensures |Parsed(records)| == |ObjectPlaces(records)|
  {
    if records != [] {
      var n := |records| - 1;
      var init := records[..n];
      ParsedCount(init);
      assert ObjectPlaces(records) == ObjectPlaces(init) + (if records[n].Object? then {n} else {}) by {
        assert forall k | 0 <= k < n :: init[k] == records[k];
      }
      assert n !in ObjectPlaces(init);
    }
  }

  /** Each of them is there, at the place that the objects before it leave it. */
  lemma {:induction false} ParsedAt(records: seq<Record>, k: nat)
    requires k < |records| && records[k].Object?
    ensures |Parsed(records[..k])| < |Parsed(records)|
    ensures Parsed(records)[|Parsed(records[..k])|] == records[k].event
  {
    if k < |records| - 1 {
      var init := records[..|records| - 1];
      ParsedAt(init, k);
      assert init[..k] == records[..k];
    }
  }

  lemma {:induction false} EventsMeaning(history: seq<Received>, k: nat)
    requires k < |history|
    ensures EventsOf(history)[k] == history[k].event
  {
    if k < |history| - 1 {
      EventsMeaning(history[..|history| - 1], k);
    }
  }

  /** Where a history has entries of an address. */
  function PlacesOf(history: seq<Received>, ip: string): set<nat> {
    set k | 0 <= k < |history| && history[k].ip == ip
  }

  lemma {:induction false} CountMeaning(history: seq<Received>, ip: string)
    ensures CountOf(history, ip) == |PlacesOf(history, ip)|
  {
    if history != [] {
      var n := |history| - 1;
      var init := history[..n];
      CountMeaning(init, ip);
      assert PlacesOf(history, ip) == PlacesOf(init, ip) + (if history[n].ip == ip then {n} else {}) by {
        assert forall k | 0 <= k < n :: init[k] == history[k];
      }
      assert n !in PlacesOf(init, ip);
    }
  }

  /** The last n: the end of the sequence, as long as fits. */
  lemma LastNMeaning<T>(s: seq<T>, n: nat)
    ensures |LastN(s, n)| == if |s| <= n then |s| else n
    ensures LastN(s, n) == s[|s| - |LastN(s, n)|..]
  {
  }

  // ----- The last-N law -----

  /** Only the last n elements matter for what the last n will be. */
  lemma LastNAbsorbs<T>(s: seq<T>, t: seq<T>, n: nat)
    ensures LastN(LastN(s, n) + t, n) == LastN(s + t, n)
  {
    if |s| > n {
      var whole, part := s + t, s[|s| - n..] + t;
      assert forall i | 0 <= i < |part| :: part[i] == whole[i + |s| - n];
      assert LastN(part, n) == LastN(whole, n);
    }
  }

  lemma HistoryAppend(history: seq<Received>, r: Received)
    ensures EventsOf(history + [r]) == EventsOf(history) + [r.event]
    ensures forall ip :: CountOf(history + [r], ip) == CountOf(history, ip) + (if r.ip == ip then 1 else 0)
  {
    assert (history + [r])[..|history|] == history;
  }

  lemma ParsedAppend(records: seq<Record>, r: Record)
    ensures Parsed(records + [r]) == Parsed(records) + (if r.Object? then [r.event] else [])
  {
    assert (records + [r])[..|records|] == records;
  }

  // ----- Which callbacks an event reaches -----

  /** The registry of a message id: everything before the first dot. */
  function RegistryPrefix(id: string): (p: string)
    ensures p <= id && '.' !in p
    ensures |p| < |id| ==> id[|p|] == '.'
  {
    if id == "" || id[0] == '.' then "" else [id[0]] + RegistryPrefix(id[1..])
  }

  /** The ensures of RegistryPrefix leave no other choice. */
  lemma {:induction false} RegistryPrefixUnique(id: string, p: string)
    requires p <= id && '.' !in p && (|p| < |id| ==> id[|p|] == '.')
    ensures p == RegistryPrefix(id)
  {
    if id != "" && id[0] != '.' {
      RegistryPrefixUnique(id[1..], p[1..]);
      assert p == [id[0]] + p[1..];
    }
  }

  function AnyTargets(n: nat): (ts: seq<Target>)
    ensures |ts| == n && forall k | 0 <= k < n :: ts[k] == Any(k)
  {
    seq(n, (k: nat) => Any(k))
  }

  function TypeTargets(name: string, n: nat): (ts: seq<Target>)
    ensures |ts| == n && forall k | 0 <= k < n :: ts[k] == ByType(name, k)
  {
    seq(n, (k: nat) => ByType(name, k))
  }

  function RegistryTargets(prefix: string, n: nat): (ts: seq<Target>)
    ensures |ts| == n && forall k | 0 <= k < n :: ts[k] == ByRegistry(prefix, k)
  {
    seq(n, (k: nat) => ByRegistry(prefix, k))
  }

  /** All callbacks of an event in calling order: global, then by type, then by registry. */
  function Targets(t: Tables, e: Event): seq<Target> {
    AnyTargets(t.any)
    + (if e.eventType != "" && e.eventType in t.byType then TypeTargets(e.eventType, t.byType[e.eventType]) else [])
    + (if e.messageId != "" && RegistryPrefix(e.messageId) in t.byRegistry
       then RegistryTargets(RegistryPrefix(e.messageId), t.byRegistry[RegistryPrefix(e.messageId)]) else [])
  }

  function Rank(c: Target): nat {
    match c
    case Any(_) => 0
    case ByType(_, _) => 1
    case ByRegistry(_, _) => 2
  }

  ghost predicate Before(c: Target, d: Target) {
    Rank(c) < Rank(d) || (Rank(c) == Rank(d) && c.i < d.i)
  }

  /** Exactly the registered callbacks that match, each once, in table order and then in order of registration. */
  lemma TargetsAreMatches(t: Tables, e: Event, c: Target)
    ensures c in Targets(t, e) <==>
            match c
            case Any(i) => i < t.any
            case ByType(name, i) => name != "" && name == e.eventType && name in t.byType && i < t.byType[name]
            case ByRegistry(prefix, i) =>
              e.messageId != "" && prefix == RegistryPrefix(e.messageId) && prefix in t.byRegistry && i < t.byRegistry[prefix]
    ensures forall j, k | 0 <= j < k < |Targets(t, e)| :: Before(Targets(t, e)[j], Targets(t, e)[k])
  {
    var p := RegistryPrefix(e.messageId);
    var a := AnyTargets(t.any);
    var b := if e.eventType != "" && e.eventType in t.byType then TypeTargets(e.eventType, t.byType[e.eventType]) else [];
    var d := if e.messageId != "" && p in t.byRegistry then RegistryTargets(p, t.byRegistry[p]) else [];
    assert Targets(t, e) == a + b + d;
    assert c in Targets(t, e) <==> c in a || c in b || c in d;
    match c
    case Any(i) => assert i < |a| ==> a[i] == c;
    case ByType(name, i) => assert i < |b| ==> b[i] == ByType(e.eventType, i);
    case ByRegistry(prefix, i) => assert i < |d| ==> d[i] == ByRegistry(p, i);
  }

  /** An event that reaches all three tables: one global callback, two for its type, one for its registry. */
  lemma TargetsSample(t: Tables, e: Event)
    requires t.any == 1
    requires e.eventType == "Alert" && "Alert" in t.byType && t.byType["Alert"] == 2
    requires e.messageId == "Base.1.8.GeneralError" && "Base" in t.byRegistry && t.byRegistry["Base"] == 1
    ensures Targets(t, e) == [Any(0), ByType("Alert", 0), ByType("Alert", 1), ByRegistry("Base", 0)]
  {
    BaseRegistry();
    hide RegistryPrefix;
    assert AnyTargets(1) == [Any(0)];
    assert TypeTargets("Alert", 2) == [ByType("Alert", 0), ByType("Alert", 1)];
    assert RegistryTargets("Base", 1) == [ByRegistry("Base", 0)];
  }

  lemma BaseRegistry()
    ensures RegistryPrefix("Base.1.8.GeneralError") == "Base"
  {
    var id := "Base.1.8.GeneralError";
    assert id[..4] == "Base" && id[4] == '.';
    RegistryPrefixUnique(id, "Base");
  }

  /** Everything a payload makes a listener call. */
  function Deliveries(t: Tables, events: seq<Event>): seq<(Target, Event)> {
    if events == [] then []
    else
      var last := events[|events| - 1];
      Deliveries(t, events[..|events| - 1]) + Aimed(Targets(t, last), last)
  }

  function Aimed(cs: seq<Target>, e: Event): (r: seq<(Target, Event)>)
    ensures |r| == |cs| && forall k | 0 <= k < |cs| :: r[k] == (cs[k], e)
  {
    seq(|cs|, k requires 0 <= k < |cs| => (cs[k], e))
  }

  lemma DeliveriesAppend(t: Tables, events: seq<Event>, e: Event)
    ensures Deliveries(t, events + [e]) == Deliveries(t, events) + Aimed(Targets(t, e), e)
  {
    assert (events + [e])[..|events|] == events;
  }

  lemma DeliveriesOfOne(t: Tables, e: Event)
    ensures Deliveries(t, []) == [] && Deliveries(t, [e]) == Aimed(Targets(t, e), e)
  {
    hide Targets, Aimed;
    DeliveriesAppend(t, [], e);
    assert [] + [e] == [e] && [] + Aimed(Targets(t, e), e) == Aimed(Targets(t, e), e);
  }

  /** A payload's deliveries are those of its events, one after the other. */
  lemma {:induction false} DeliveriesMeaning(t: Tables, events: seq<Event>, more: seq<Event>)
    ensures Deliveries(t, events + more) == Deliveries(t, events) + Deliveries(t, more)
    decreases |more|
  {
    if more == [] {
      assert events + more == events;
    } else {
      hide Deliveries, Targets, Aimed;
      var init, last := more[..|more| - 1], more[|more| - 1];
      DeliveriesMeaning(t, events, init);
      DeliveriesAppend(t, events + init, last);
      DeliveriesAppend(t, init, last);
      Regroup(events, init, [last]);
      Regroup(Deliveries(t, events), Deliveries(t, init), Aimed(Targets(t, last), last));
      assert more == init + [last];
    }
  }

  lemma Regroup<T>(a: seq<T>, b: seq<T>, c: seq<T>)
    ensures a + b + c == a + (b + c)
  {
  }

  lemma AimedNothing(calls: seq<(Target, Event)>, e: Event)
    ensures calls + Aimed([], e) == calls
  {
  }

  lemma ThreeTables(calls: seq<(Target, Event)>, a: seq<Target>, b: seq<Target>, c: seq<Target>, e: Event)
    ensures calls + Aimed(a, e) + Aimed(b, e) + Aimed(c, e) == calls + Aimed(a + b + c, e)
  {
    assert Aimed(a + b + c, e) == Aimed(a, e) + Aimed(b, e) + Aimed(c, e);
  }

  // ----- Counters -----

  const COUNTER_WRAP: nat := 0x1_0000_0000

  /** Counters that agree with the history up to the wrap-around of their type; 0 stands for no wrap-around. */
  ghost predicate Counted(stats: map<string, nat>, history: seq<Received>, wrap: nat) {
    && (forall ip :: ip in stats <==> CountOf(history, ip) > 0)
    && (forall ip | ip in stats :: stats[ip] == if wrap == 0 then CountOf(history, ip) else CountOf(history, ip) % wrap)
  }

  function Bumped(stats: map<string, nat>, ip: string, amount: nat): map<string, nat> {
    stats[ip := (if ip in stats then stats[ip] else 0) + amount]
  }

  /** ip_stats_[ip]++ on 32-bit counters. */
  function Incremented(stats: map<string, nat>, ip: string): map<string, nat> {
    stats[ip := ((if ip in stats then stats[ip] else 0) + 1) % COUNTER_WRAP]
  }

  lemma IncrementCounts(stats: map<string, nat>, history: seq<Received>, r: Received)
    requires Counted(stats, history, COUNTER_WRAP)
    ensures Counted(Incremented(stats, r.ip), history + [r], COUNTER_WRAP)
  {
    HistoryAppend(history, r);
    hide CountOf;
    var n := CountOf(history, r.ip);
    assert (n % COUNTER_WRAP + 1) % COUNTER_WRAP == (n + 1) % COUNTER_WRAP;
  }

  lemma BatchCounts(stats: map<string, nat>, history: seq<Received>, ip: string, events: seq<Event>)
    requires Counted(stats, history, 0) && events != []
    ensures Counted(Bumped(stats, ip, |events|), history + Sent(ip, events), 0)
  {
    SentFacts(history, ip, events);
  }

  /** The history entries of one payload. */
  function Sent(ip: string, events: seq<Event>): seq<Received> {
    if events == [] then [] else Sent(ip, events[..|events| - 1]) + [Received(ip, events[|events| - 1])]
  }

  lemma {:induction false} SentMeaning(ip: string, events: seq<Event>)
    ensures |Sent(ip, events)| == |events|
    ensures forall k | 0 <= k < |events| :: Sent(ip, events)[k] == Received(ip, events[k])
  {
    if events != [] {
      SentMeaning(ip, events[..|events| - 1]);
    }
  }

  lemma {:induction false} SentFacts(history: seq<Received>, ip: string, events: seq<Event>)
    ensures EventsOf(history + Sent(ip, events)) == EventsOf(history) + events
    ensures forall other :: CountOf(history + Sent(ip, events), other)
                         == CountOf(history, other) + (if other == ip then |events| else 0)
  {
    hide EventsOf, CountOf;
    if events == [] {
      assert history + Sent(ip, events) == history;
      assert EventsOf(history) + events == EventsOf(history);
    } else {
      var init, last := events[..|events| - 1], events[|events| - 1];
      SentFacts(history, ip, init);
      HistoryAppend(history + Sent(ip, init), Received(ip, last));
      assert history + Sent(ip, events) == history + Sent(ip, init) + [Received(ip, last)];
      assert EventsOf(history) + events == EventsOf(history) + init + [last];
    }
  }

  lemma SentAppend(ip: string, events: seq<Event>, e: Event)
    ensures Sent(ip, events + [e]) == Sent(ip, events) + [Received(ip, e)]
  {
    assert (events + [e])[..|events|] == events;
  }

  /** Call the callbacks of one table entry in order of registration; the result logs the calls. */
  method CallEach(cs: seq<Target>, event: Event) returns (made: seq<(Target, Event)>)
    ensures made == Aimed(cs, event)
  {
    made := [];
    for n := 0 to |cs|
      invariant made == Aimed(cs[..n], event)
    {
      made := made + [(cs[n], event)];
    }
    assert cs[..|cs|] == cs;
  }

  // ----- C++: one event at a time under the mutex, then its callbacks -----

  class CppListener {
    const bufferSize: nat
    const tables: Tables
    var eventBuffer: seq<Event>
    var ipStats: map<string, nat>
    var calls: seq<(Target, Event)>
    ghost var history: seq<Received>

    ghost predicate Valid()
      reads this
    {
      && eventBuffer == LastN(EventsOf(history), bufferSize)
      && Counted(ipStats, history, COUNTER_WRAP)
    }

    constructor (bufferSize: nat, tables: Tables)
      ensures Valid() && history == [] && calls == []
      ensures this.bufferSize == bufferSize && this.tables == tables
    {
      this.bufferSize, this.tables := bufferSize, tables;
      eventBuffer, ipStats, calls, history := [], map[], [], [];
    }

    method RecordEvent(event: Event, ip: string)
      requires Valid()
      modifies this`eventBuffer, this`ipStats, this`history
      ensures Valid()
      ensures history == old(history) + [Received(ip, event)]
    {
      hide Counted, Incremented, EventsOf;
      HistoryAppend(history, Received(ip, event));
      LastNAbsorbs(EventsOf(history), [event], bufferSize);
      IncrementCounts(ipStats, history, Received(ip, event));
      ipStats := Incremented(ipStats, ip);
      history := history + [Received(ip, event)];
      eventBuffer := eventBuffer + [event];
      while |eventBuffer| > bufferSize
        invariant LastN(eventBuffer, bufferSize) == LastN(EventsOf(history), bufferSize)
        modifies this`eventBuffer
      {
        eventBuffer := eventBuffer[1..];
      }
    }

    method Dispatch(event: Event)
      modifies this`calls
      ensures calls == old(calls) + Aimed(Targets(tables, event), event)
    {
      hide AnyTargets, TypeTargets, RegistryTargets, Aimed, RegistryPrefix;
      ghost var global, typed: seq<Target>, registry: seq<Target> := AnyTargets(tables.any), [], [];
      AimedNothing(old(calls) + Aimed(global, event), event);
      var made := CallEach(AnyTargets(tables.any), event);
      calls := calls + made;
      if event.eventType != "" {
        if event.eventType in tables.byType {
          typed := TypeTargets(event.eventType, tables.byType[event.eventType]);
          made := CallEach(TypeTargets(event.eventType, tables.byType[event.eventType]), event);
          calls := calls + made;
        }
      }
      assert calls == old(calls) + Aimed(global, event) + Aimed(typed, event);
      AimedNothing(calls, event);
      if event.messageId != "" {
        var prefix := RegistryPrefix(event.messageId);
        if prefix in tables.byRegistry {
          registry := RegistryTargets(prefix, tables.byRegistry[prefix]);
          made := CallEach(RegistryTargets(prefix, tables.byRegistry[prefix]), event);
          calls := calls + made;
        }
      }
      ThreeTables(old(calls), global, typed, registry, event);
    }

    /** A POST handled with no other connection in between. */
    method HandlePost(records: seq<Record>, ip: string)
      requires Valid()
      modifies this
      ensures Valid()
      ensures history == old(history) + Sent(ip, Parsed(records))
      ensures calls == old(calls) + Deliveries(tables, Parsed(records))
    {
      hide Counted, EventsOf, Aimed, Targets;
      for n := 0 to |records|
        invariant Valid()
        invariant history == old(history) + Sent(ip, Parsed(records[..n]))
        invariant calls == old(calls) + Deliveries(tables, Parsed(records[..n]))
      {
        var rec := records[n];
        assert records[..n + 1] == records[..n] + [rec];
        ParsedAppend(records[..n], rec);
        if rec.NotAnObject? {
          assert Parsed(records[..n]) + [] == Parsed(records[..n]);
          continue;
        }
        SentAppend(ip, Parsed(records[..n]), rec.event);
        DeliveriesAppend(tables, Parsed(records[..n]), rec.event);
        RecordEvent(rec.event, ip);
        Dispatch(rec.event);
      }
      assert records[..|records|] == records;
    }
  }

  // ----- Python: the whole payload at once, into a bounded deque -----

  method ParseRecords(records: seq<Record>) returns (events: seq<Event>)
    ensures events == Parsed(records)
  {
    events := [];
    for n := 0 to |records|
      invariant events == Parsed(records[..n])
    {
      assert records[..n + 1] == records[..n] + [records[n]];
      ParsedAppend(records[..n], records[n]);
      if records[n].NotAnObject? { continue; }
      events := events + [records[n].event];
    }
    assert records[..|records|] == records;
  }

  class PythonListener {
    const bufferSize: nat
    const tables: Tables
    var eventBuffer: seq<Event>
    var ipStats: map<string, nat>
    ghost var history: seq<Received>

    ghost predicate Valid()
      reads this
    {
      && eventBuffer == LastN(EventsOf(history), bufferSize)
      && Counted(ipStats, history, 0)
    }

    constructor (bufferSize: nat, tables: Tables)
      ensures Valid() && history == []
      ensures this.bufferSize == bufferSize && this.tables == tables
    {
      this.bufferSize, this.tables := bufferSize, tables;
      eventBuffer, ipStats, history := [], map[], [];
    }

    /** deque.extend with maxlen: each append to a full deque drops its left end. */
    method Extend(events: seq<Event>)
      requires |eventBuffer| <= bufferSize
      modifies this`eventBuffer
      ensures eventBuffer == LastN(old(eventBuffer) + events, bufferSize)
    {
      ghost var start := eventBuffer;
      for n := 0 to |events|
        invariant eventBuffer == LastN(start + events[..n], bufferSize)
      {
        assert start + events[..n + 1] == start + events[..n] + [events[n]];
        LastNAbsorbs(start + events[..n], [events[n]], bufferSize);
        eventBuffer := eventBuffer + [events[n]];
        if |eventBuffer| > bufferSize {
          eventBuffer := eventBuffer[1..];
        }
      }
      assert events[..|events|] == events;
    }

    method ParsePayload(records: seq<Record>, ip: string) returns (events: seq<Event>)
      requires Valid()
      modifies this`eventBuffer, this`ipStats, this`history
      ensures Valid() && events == Parsed(records)
      ensures history == old(history) + Sent(ip, events)
    {
      hide Counted, EventsOf, Bumped, Parsed;
      events := ParseRecords(records);
      SentFacts(history, ip, events);
      LastNAbsorbs(EventsOf(history), events, bufferSize);
      if events != [] {
        BatchCounts(ipStats, history, ip, events);
        ipStats := Bumped(ipStats, ip, |events|);
        Extend(events);
      } else {
        assert history + Sent(ip, events) == history;
      }
      history := history + Sent(ip, events);
    }

    method BuildDispatchTasks(event: Event) returns (tasks: seq<Target>)
      ensures tasks == Targets(tables, event)
    {
      tasks := [];
      for i := 0 to tables.any
        invariant tasks == AnyTargets(i)
      {
        tasks := tasks + [Any(i)];
      }
      ghost var mid := tasks;
      if event.eventType != "" && event.eventType in tables.byType {
        for i := 0 to tables.byType[event.eventType]
          invariant tasks == mid + TypeTargets(event.eventType, i)
        {
          tasks := tasks + [ByType(event.eventType, i)];
        }
      }
      mid := tasks;
      if event.messageId != "" {
        var prefix := RegistryPrefix(event.messageId);
        if prefix in tables.byRegistry {
          for i := 0 to tables.byRegistry[prefix]
            invariant tasks == mid + RegistryTargets(prefix, i)
          {
            tasks := tasks + [ByRegistry(prefix, i)];
          }
        }
      }
    }
  }

  // ----- Rust: pop before push, at a fixed capacity, counting posts -----

  const RUST_CAPACITY: nat := 500

  /** Counting requests keeps counters that count events right exactly on a request with one event. */
  lemma OnePostOneEvent(stats: map<string, nat>, history: seq<Received>, ip: string, events: seq<Event>)
    requires Counted(stats, history, 0)
    ensures Counted(Bumped(stats, ip, 1), history + Sent(ip, events), 0) <==> |events| == 1
  {
    if |events| == 1 {
      BatchCounts(stats, history, ip, events);
    } else {
      SentFacts(history, ip, events);
      hide CountOf, Sent;
      var after, whole := Bumped(stats, ip, 1), history + Sent(ip, events);
      assert ip in after && after[ip] == CountOf(history, ip) + 1 by {
        assert ip in stats <==> CountOf(history, ip) > 0;
      }
      assert CountOf(whole, ip) == CountOf(history, ip) + |events|;
      assert !(ip in after && after[ip] == CountOf(whole, ip));
    }
  }

  /** Over any number of requests: counters of requests count events exactly when every address sent as many of either. */
  lemma RequestsForEvents(stats: map<string, nat>, posts: seq<Received>, history: seq<Received>)
    requires Counted(stats, posts, 0)
    ensures Counted(stats, history, 0) <==> SameCounts(posts, history)
  {
    if Counted(stats, history, 0) {
      forall ip
        ensures CountOf(posts, ip) == CountOf(history, ip)
      {
        assert ip in stats <==> CountOf(posts, ip) > 0;
      }
    }
  }

  ghost predicate SameCounts(some: seq<Received>, others: seq<Received>) {
    forall ip :: CountOf(some, ip) == CountOf(others, ip)
  }

  /** A request without events, and one with two, on a fresh listener. */
  lemma RequestsMiscount(e: Event)
    ensures Counted(map[], [], 0)
    ensures !Counted(Bumped(map[], "10.0.0.1", 1), Sent("10.0.0.1", []), 0)
    ensures !Counted(Bumped(map[], "10.0.0.1", 1), Sent("10.0.0.1", [e, e]), 0)
  {
    OnePostOneEvent(map[], [], "10.0.0.1", []);
    OnePostOneEvent(map[], [], "10.0.0.1", [e, e]);
    assert [] + Sent("10.0.0.1", []) == Sent("10.0.0.1", []);
    assert [] + Sent("10.0.0.1", [e, e]) == Sent("10.0.0.1", [e, e]);
  }

  /**
   The Rust registry does not skip events without a message id: their prefix is empty, and a
   callback registered for the empty prefix gets them.
   */
  function RustTargets(t: Tables, e: Event): seq<Target> {
    AnyTargets(t.any)
    + (if e.eventType != "" && e.eventType in t.byType then TypeTargets(e.eventType, t.byType[e.eventType]) else [])
    + (if RegistryPrefix(e.messageId) in t.byRegistry
       then RegistryTargets(RegistryPrefix(e.messageId), t.byRegistry[RegistryPrefix(e.messageId)]) else [])
  }

  /** Exactly the registered callbacks for the event, its type or its prefix, the empty one included, in the same order. */
  lemma RustTargetsAreMatches(t: Tables, e: Event, c: Target)
    ensures c in RustTargets(t, e) <==>
            match c
            case Any(i) => i < t.any
            case ByType(name, i) => name != "" && name == e.eventType && name in t.byType && i < t.byType[name]
            case ByRegistry(prefix, i) =>
              prefix == RegistryPrefix(e.messageId) && prefix in t.byRegistry && i < t.byRegistry[prefix]
    ensures forall j, k | 0 <= j < k < |RustTargets(t, e)| :: Before(RustTargets(t, e)[j], RustTargets(t, e)[k])
  {
    var p := RegistryPrefix(e.messageId);
    var a := AnyTargets(t.any);
    var b := if e.eventType != "" && e.eventType in t.byType then TypeTargets(e.eventType, t.byType[e.eventType]) else [];
    var d := if p in t.byRegistry then RegistryTargets(p, t.byRegistry[p]) else [];
    assert RustTargets(t, e) == a + b + d;
    assert c in RustTargets(t, e) <==> c in a || c in b || c in d;
    match c
    case Any(i) => assert i < t.any ==> a[i] == c;
    case ByType(name, i) => assert i < |b| ==> b[i] == ByType(e.eventType, i);
    case ByRegistry(prefix, i) => assert i < |d| ==> d[i] == ByRegistry(p, i);
  }

  lemma RustDeliveriesAppend(t: Tables, events: seq<Event>, e: Event)
    ensures RustDeliveries(t, []) == [] && RustDeliveries(t, [e]) == Aimed(RustTargets(t, e), e)
    ensures RustDeliveries(t, events + [e]) == RustDeliveries(t, events) + Aimed(RustTargets(t, e), e)
  {
    hide RustTargets, Aimed;
    assert (events + [e])[..|events|] == events && [e][..0] == [];
    assert [] + Aimed(RustTargets(t, e), e) == Aimed(RustTargets(t, e), e);
  }

  lemma {:induction false} RustDeliveriesMeaning(t: Tables, events: seq<Event>, more: seq<Event>)
    ensures RustDeliveries(t, events + more) == RustDeliveries(t, events) + RustDeliveries(t, more)
    decreases |more|
  {
    if more == [] {
      assert events + more == events;
    } else {
      hide RustDeliveries, RustTargets, Aimed;
      var init, last := more[..|more| - 1], more[|more| - 1];
      RustDeliveriesMeaning(t, events, init);
      RustDeliveriesAppend(t, events + init, last);
      RustDeliveriesAppend(t, init, last);
      Regroup(events, init, [last]);
      Regroup(RustDeliveries(t, events), RustDeliveries(t, init), Aimed(RustTargets(t, last), last));
      assert more == init + [last];
    }
  }

  function RustDeliveries(t: Tables, events: seq<Event>): seq<(Target, Event)> {
    if events == [] then []
    else
      var last := events[|events| - 1];
      RustDeliveries(t, events[..|events| - 1]) + Aimed(RustTargets(t, last), last)
  }

  class RustListener {
    const tables: Tables
    var eventBuffer: seq<Event>
    var ipStats: map<string, nat>
    var calls: seq<(Target, Event)>
    ghost var history: seq<Received>
    ghost var posts: seq<Received>

    /** The counters count posts: `posts` lists one entry per request, whatever it carried. */
    ghost predicate Valid()
      reads this
    {
      && eventBuffer == LastN(EventsOf(history), RUST_CAPACITY)
      && Counted(ipStats, posts, 0)
    }

    constructor (tables: Tables)
      ensures Valid() && history == [] && posts == [] && calls == [] && this.tables == tables
    {
      this.tables := tables;
      eventBuffer, ipStats, calls, history, posts := [], map[], [], [], [];
    }

    method PushAll(events: seq<Event>)
      requires |eventBuffer| <= RUST_CAPACITY
      modifies this`eventBuffer
      ensures eventBuffer == LastN(old(eventBuffer) + events, 500)
    {
      ghost var start := eventBuffer;
      for n := 0 to |events|
        invariant eventBuffer == LastN(start + events[..n], RUST_CAPACITY)
      {
        assert start + events[..n + 1] == start + events[..n] + [events[n]];
        LastNAbsorbs(start + events[..n], [events[n]], RUST_CAPACITY);
        if |eventBuffer| >= RUST_CAPACITY {
          eventBuffer := eventBuffer[1..];
        }
        eventBuffer := eventBuffer + [events[n]];
      }
      assert events[..|events|] == events;
    }

    method Dispatch(event: Event)
      modifies this`calls
      ensures calls == old(calls) + Aimed(RustTargets(tables, event), event)
    {
      hide AnyTargets, TypeTargets, RegistryTargets, Aimed, RegistryPrefix;
      ghost var global, typed: seq<Target>, registry: seq<Target> := AnyTargets(tables.any), [], [];
      AimedNothing(old(calls) + Aimed(global, event), event);
      var made := CallEach(AnyTargets(tables.any), event);
      calls := calls + made;
      if event.eventType != "" {
        if event.eventType in tables.byType {
          typed := TypeTargets(event.eventType, tables.byType[event.eventType]);
          made := CallEach(TypeTargets(event.eventType, tables.byType[event.eventType]), event);
          calls := calls + made;
        }
      }
      assert calls == old(calls) + Aimed(global, event) + Aimed(typed, event);
      AimedNothing(calls, event);
      var prefix := RegistryPrefix(event.messageId);
      if prefix in tables.byRegistry {
        registry := RegistryTargets(prefix, tables.byRegistry[prefix]);
        made := CallEach(RegistryTargets(prefix, tables.byRegistry[prefix]), event);
        calls := calls + made;
      }
      ThreeTables(old(calls), global, typed, registry, event);
    }

    method RecordPost(records: seq<Record>, ip: string) returns (events: seq<Event>)
      requires Valid()
      modifies this`eventBuffer, this`ipStats, this`history, this`posts
      ensures Valid() && events == Parsed(records)
      ensures history == old(history) + Sent(ip, events)
      ensures |posts| == |old(posts)| + 1 && posts[..|old(posts)|] == old(posts) && posts[|old(posts)|].ip == ip
      ensures Counted(old(ipStats), old(history), 0) ==> (Counted(ipStats, history, 0) <==> |events| == 1)
    {
      hide Counted, EventsOf, Bumped, Parsed;
      CountPost(ip);
      events := ParseRecords(records);
      if Counted(old(ipStats), old(history), 0) {
        OnePostOneEvent(old(ipStats), old(history), ip, events);
      }
      SentFacts(history, ip, events);
      LastNAbsorbs(EventsOf(history), events, RUST_CAPACITY);
      PushAll(events);
      history := history + Sent(ip, events);
    }

    /** All events of a request are recorded before the first callback is called. */
    method HandlePost(records: seq<Record>, ip: string)
      requires Valid()
      modifies this
      ensures Valid()
      ensures history == old(history) + Sent(ip, Parsed(records))
      ensures |posts| == |old(posts)| + 1 && posts[..|old(posts)|] == old(posts) && posts[|old(posts)|].ip == ip
      ensures calls == old(calls) + RustDeliveries(tables, Parsed(records))
      ensures eventBuffer == LastN(EventsOf(history), 500)
      ensures Counted(old(ipStats), old(history), 0) ==> (Counted(ipStats, history, 0) <==> |Parsed(records)| == 1)
    {
      hide Counted, EventsOf, Bumped, Parsed, Aimed, RustTargets;
      var events := RecordPost(records, ip);
      for n := 0 to |events|
        invariant calls == old(calls) + RustDeliveries(tables, events[..n])
        modifies this`calls
      {
        assert events[..n + 1][..n] == events[..n];
        Dispatch(events[n]);
      }
      assert events[..|events|] == events;
    }

    method CountPost(ip: string)
      requires Counted(ipStats, posts, 0)
      modifies this`ipStats, this`posts
      ensures Counted(ipStats, posts, 0)
      ensures ipStats == Bumped(old(ipStats), ip, 1)
      ensures |posts| == |old(posts)| + 1 && posts[..|old(posts)|] == old(posts) && posts[|old(posts)|].ip == ip
    {
      hide Counted, Bumped;
      ghost var request := Event("", "", "");
      SentAppend(ip, [], request);
      assert [] + [request] == [request];
      BatchCounts(ipStats, posts, ip, [request]);
      ipStats := Bumped(ipStats, ip, 1);
      posts := posts + Sent(ip, [request]);
    }
  }

  /** A callback for the empty prefix that only Rust calls. */
  lemma EmptyPrefixDiffers()
    ensures var t, e := Tables(0, map[], map["" := 1]), Event("Alert", "", "{}");
            RustTargets(t, e) == [ByRegistry("", 0)] && Targets(t, e) == []
  {
    assert RegistryPrefix("") == "";
  }

  /** The languages deliver alike unless an event has no message id and the empty prefix has callbacks. */
  lemma RustDeliversAlike(t: Tables, e: Event)
    ensures RustTargets(t, e) == Targets(t, e)
       <==> !(e.messageId == "" && "" in t.byRegistry && t.byRegistry[""] > 0)
  {
    assert RegistryPrefix("") == "";
    if e.messageId == "" && "" in t.byRegistry {
      assert |RustTargets(t, e)| == |Targets(t, e)| + t.byRegistry[""];
    }
  }
}
