/**
 Waiting for and monitoring a long-running task, as the Python SDK polls it.  The script says what
 body each GET brings; time is counted in ticks, and a poll itself takes none.
 */
module TaskPolling {
  import opened Bits
  import opened Wrappers

  datatype TaskState =
    | New | Starting | Running | Suspended | Interrupted | Pending | Stopping
    | Completed | Killed | Exception | Service | Cancelling | Cancelled

  /** What a body says about the state: nothing, a word that is no state, or a state. */
  datatype StateField = Missing | Unrecognised | Known(state: TaskState)

  /** A decoded body; messages that are no objects have been left out. */
  datatype Body = NotAnObject | Object(state: StateField, percent: Option<int>, messages: seq<string>)

  type Script = nat -> Body

  predicate Terminal(s: TaskState) {
    s.Completed? || s.Killed? || s.Exception? || s.Cancelled?
  }

  predicate Failed(s: TaskState) {
    s.Killed? || s.Exception?
  }

  /** The state a body leaves behind: its own if it names one, else the one before. */
  function Folded(s: TaskState, b: Body): TaskState {
    if b.Object? && b.state.Known? then b.state.state else s
  }

  /** The state after n polls. */
  function StateAfter(start: TaskState, script: Script, n: nat): TaskState {
    if n == 0 then start else Folded(StateAfter(start, script, n - 1), script(n - 1))
  }

  /** The states after polls 1 to n. */
  function History(start: TaskState, script: Script, n: nat): (h: seq<TaskState>)
    ensures |h| == n
  {
    if n == 0 then [] else History(start, script, n - 1) + [StateAfter(start, script, n)]
  }

  /** How many polls fit: one at tick 0 and one every interval before the limit. */
  function Budget(interval: nat, limit: int): nat
    requires interval > 0
  {
    if limit <= 0 then 0 else (limit + interval - 1) / interval
  }

  /** The poll that ends the run: the first whose state is terminal, if the budget reaches it. */
  ghost predicate StopsAt(start: TaskState, script: Script, budget: nat, n: nat) {
    && 1 <= n <= budget
    && Terminal(StateAfter(start, script, n))
    && forall j | 1 <= j < n :: !Terminal(StateAfter(start, script, j))
  }

  ghost predicate NeverStops(start: TaskState, script: Script, budget: nat) {
    forall j | 1 <= j <= budget :: !Terminal(StateAfter(start, script, j))
  }

  /** The number of polls of a run. */
  ghost function Polls(start: TaskState, script: Script, budget: nat): (n: nat)
    ensures StopsAt(start, script, budget, n) || (n == budget && NeverStops(start, script, budget))
  {
    PollsFrom(start, script, budget, 0)
  }

  ghost function PollsFrom(start: TaskState, script: Script, budget: nat, done: nat): (n: nat)
    requires done <= budget && forall j | 1 <= j <= done :: !Terminal(StateAfter(start, script, j))
    ensures StopsAt(start, script, budget, n) || (n == budget && NeverStops(start, script, budget))
    decreases budget - done
  {
    if done == budget then budget
    else if Terminal(StateAfter(start, script, done + 1)) then done + 1
    else PollsFrom(start, script, budget, done + 1)
  }

  lemma PollsUnique(start: TaskState, script: Script, budget: nat, n: nat)
    requires StopsAt(start, script, budget, n) || (n == budget && NeverStops(start, script, budget))
    ensures n == Polls(start, script, budget)
  {
    var m := Polls(start, script, budget);
    assert StopsAt(start, script, budget, n) && NeverStops(start, script, budget) ==> !Terminal(StateAfter(start, script, n));
    assert StopsAt(start, script, budget, m) && NeverStops(start, script, budget) ==> !Terminal(StateAfter(start, script, m));
  }

  /** The body names a state that there is. */
  predicate Names(b: Body) {
    b.Object? && b.state.Known?
  }

  /** The state is sticky: without a body that names one it stays, */
  lemma {:induction false} StickyState(start: TaskState, script: Script, n: nat)
    requires forall j | 0 <= j < n :: !Names(script(j))
    ensures StateAfter(start, script, n) == start
  {
    if n > 0 {
      StickyState(start, script, n - 1);
    }
  }

  /** and otherwise it is the one that was named last. */
  lemma {:induction false} LastNamed(start: TaskState, script: Script, n: nat, k: nat)
    requires k < n && Names(script(k)) && forall j | k < j < n :: !Names(script(j))
    ensures StateAfter(start, script, n) == script(k).state.state
  {
    if k < n - 1 {
      LastNamed(start, script, n - 1, k);
    }
  }

  lemma {:induction false} HistoryMeaning(start: TaskState, script: Script, n: nat, k: nat)
    requires k < n
    ensures History(start, script, n)[k] == StateAfter(start, script, k + 1)
  {
    if k < n - 1 {
      HistoryMeaning(start, script, n - 1, k);
    }
  }

  /** With time for two polls, a task that reports one and the same state is polled once exactly in these four states. */
  lemma EndStates(start: TaskState, s: TaskState)
    requires start == s
    ensures Polls(start, k => Object(Known(s), None, []), 2) == if s in {Completed, Killed, Exception, Cancelled} then 1 else 2
  {
    var script: Script := k => Object(Known(s), None, []);
    assert StateAfter(start, script, 1) == s && StateAfter(start, script, 2) == s;
    if Terminal(s) {
      PollsUnique(start, script, 2, 1);
    } else {
      assert NeverStops(start, script, 2);
      PollsUnique(start, script, 2, 2);
    }
  }

  // ----- The task object -----

  class RedfishTask {
    var state: TaskState
    var percentComplete: Option<int>
    var messages: seq<string>

    constructor (state: TaskState)
      ensures this.state == state && percentComplete == None && messages == []
    {
      this.state, percentComplete, messages := state, None, [];
    }

    method Update(body: Body)
      modifies this
      ensures state == Folded(old(state), body)
      ensures state == if body.Object? && body.state.Known? then body.state.state else old(state)
      ensures percentComplete == if body.Object? && body.percent.Some? then body.percent else old(percentComplete)
      ensures messages == if body.Object? then body.messages else old(messages)
    {
      if body.NotAnObject? { return; }
      if !body.state.Missing? {
        match body.state
        case Known(s) => state := s;
        case _ =>
      }
      if body.percent.Some? {
        percentComplete := body.percent;
      }
      messages := body.messages;
    }
  }

  datatype WaitResult = Response(body: Body) | TaskFailed(state: TaskState) | TimedOut

  /** Waiting: at most Budget GETs, ended by the first terminal state. */
  method Poll(task: RedfishTask, script: Script, interval: nat, limit: int) returns (result: WaitResult, gets: nat)
    requires interval > 0
    modifies task
    ensures gets == Polls(old(task.state), script, Budget(interval, limit))
    ensures task.state == StateAfter(old(task.state), script, gets)
    ensures result.TimedOut? <==> NeverStops(old(task.state), script, Budget(interval, limit))
    ensures !result.TimedOut? ==> StopsAt(old(task.state), script, Budget(interval, limit), gets)
    ensures result.TaskFailed? <==> !result.TimedOut? && Failed(task.state)
    ensures result.TaskFailed? ==> result.state == task.state
    ensures result.Response? ==> result.body == script(gets - 1)
    ensures result.TaskFailed? ==> task.state in {Killed, Exception}
    ensures result.Response? ==> task.state in {Completed, Cancelled}
    ensures result.TimedOut? ==>
              forall j | 1 <= j <= gets :: StateAfter(old(task.state), script, j) !in {Completed, Killed, Exception, Cancelled}
  {
    ghost var start, budget := task.state, Budget(interval, limit);
    var elapsed := 0;
    gets := 0;
    BudgetMeaning(interval, limit, 0);
    while elapsed < limit
      invariant elapsed == gets * interval && gets <= budget
      invariant elapsed < limit <==> gets < budget
      invariant task.state == StateAfter(start, script, gets)
      invariant forall j | 1 <= j <= gets :: !Terminal(StateAfter(start, script, j))
      decreases budget - gets
    {
      var raw := script(gets);
      gets := gets + 1;
      task.Update(raw);
      if Terminal(task.state) {
        PollsUnique(start, script, budget, gets);
        if Failed(task.state) {
          return TaskFailed(task.state), gets;
        }
        return Response(raw), gets;
      }
      BudgetMeaning(interval, limit, gets);
      elapsed := elapsed + interval;
    }
    PollsUnique(start, script, budget, gets);
    return TimedOut, gets;
  }

  /** Poll number n + 1 starts before the limit exactly when n polls do not exhaust the budget. */
  lemma BudgetMeaning(interval: nat, limit: int, n: nat)
    requires interval > 0
    ensures n * interval < limit <==> n < Budget(interval, limit)
    ensures (n + 1) * interval == n * interval + interval
  {
    if limit > 0 {
      var b := Budget(interval, limit);
      assert b * interval <= limit + interval - 1 < b * interval + interval;
      if n < b {
        MulMonotone(n + 1, b, interval);
      } else {
        MulMonotone(b, n, interval);
      }
    } else {
      MulMonotone(0, n, interval);
    }
  }

  // ----- Monitoring -----

  /** A sequence with immediate repetitions left out. */
  function Unstuttered(h: seq<TaskState>): seq<TaskState> {
    if h == [] then []
    else
      var init, last := h[..|h| - 1], h[|h| - 1];
      if init != [] && init[|init| - 1] == last then Unstuttered(init) else Unstuttered(init) + [last]
  }

  /** Notifications for the polls made, in order; monitoring ends silently, whatever the reason. */
  method Monitor(task: RedfishTask, script: Script, interval: nat, limit: int) returns (notified: seq<TaskState>, gets: nat)
    requires interval > 0
    modifies task
    ensures gets == Polls(old(task.state), script, Budget(interval, limit))
    ensures task.state == StateAfter(old(task.state), script, gets)
    ensures notified == Unstuttered(History(old(task.state), script, gets))
  {
    hide History, Terminal, Folded, Budget;
    ghost var start, budget := task.state, Budget(interval, limit);
    var elapsed := 0;
    var previousState: Option<TaskState> := None;
    assert History(start, script, 0) == [];
    notified, gets := [], 0;
    BudgetMeaning(interval, limit, 0);
    while elapsed < limit
      invariant elapsed == gets * interval && gets <= budget
      invariant elapsed < limit <==> gets < budget
      invariant task.state == StateAfter(start, script, gets)
      invariant forall j | 1 <= j <= gets :: !Terminal(StateAfter(start, script, j))
      invariant notified == Unstuttered(History(start, script, gets))
      invariant previousState == if gets == 0 then None else Some(task.state)
      decreases budget - gets
    {
      var raw := script(gets);
      gets := gets + 1;
      task.Update(raw);
      HistoryStep(start, script, gets);
      if previousState != Some(task.state) {
        previousState := Some(task.state);
        notified := notified + [task.state];
      }
      if Terminal(task.state) {
        PollsUnique(start, script, budget, gets);
        return;
      }
      BudgetMeaning(interval, limit, gets);
      elapsed := elapsed + interval;
    }
    PollsUnique(start, script, budget, gets);
  }

  lemma HistoryStep(start: TaskState, script: Script, n: nat)
    requires n > 0
    ensures History(start, script, n)[..n - 1] == History(start, script, n - 1)
    ensures History(start, script, n)[n - 1] == StateAfter(start, script, n)
         == Folded(StateAfter(start, script, n - 1), script(n - 1))
    ensures n > 1 ==> History(start, script, n - 1)[n - 2] == StateAfter(start, script, n - 1)
  {
  }

  /** No two notifications in a row are equal, and the last one is the final state. */
  lemma {:induction false} UnstutteredClean(h: seq<TaskState>)
    ensures var u := Unstuttered(h);
            && (forall k | 0 <= k < |u| - 1 :: u[k] != u[k + 1])
            && (h != [] ==> u != [] && u[|u| - 1] == h[|h| - 1])
            && (h == [] ==> u == [])
  {
    if h != [] {
      UnstutteredClean(h[..|h| - 1]);
    }
  }

  /** `at` assigns every position of h a position of u: it starts at 0, ends at the last, and moves by one step or none. */
  ghost predicate Stretches(h: seq<TaskState>, u: seq<TaskState>, at: seq<nat>) {
    && |at| == |h|
    && (h == [] ==> u == [])
    && (h != [] ==> at[0] == 0 && at[|h| - 1] == |u| - 1)
    && (forall k | 0 <= k < |h| :: at[k] < |u| && u[at[k]] == h[k])
    && (forall k | 0 <= k < |h| - 1 :: at[k + 1] == at[k] || at[k + 1] == at[k] + 1)
  }

  /** Nothing but repetition is lost: the history is the notifications, each held for some polls. */
  lemma {:induction false} UnstutteredStretches(h: seq<TaskState>) returns (at: seq<nat>)
    ensures Stretches(h, Unstuttered(h), at)
  {
    if h == [] {
      at := [];
    } else {
      var init := h[..|h| - 1];
      var before := UnstutteredStretches(init);
      UnstutteredClean(h);
      at := before + [|Unstuttered(h)| - 1];
    }
  }

  /** With the same interval and limit, waiting and monitoring make the same polls and see the same states. */
  lemma WaitAndMonitorAgree(start: TaskState, script: Script, interval: nat, limit: int, n: nat)
    requires interval > 0 && n == Polls(start, script, Budget(interval, limit))
    ensures n <= Budget(interval, limit)
    ensures limit > 0 ==> (n - 1) * interval < limit && n > 0
    ensures limit > 0 ==> var u := Unstuttered(History(start, script, n));
                          u != [] && u[|u| - 1] == StateAfter(start, script, n)
    ensures forall j | 1 <= j < n :: !Terminal(StateAfter(start, script, j))
  {
    hide StateAfter, Unstuttered, Terminal, Budget;
    if limit > 0 {
      BudgetMeaning(interval, limit, 0);
      BudgetMeaning(interval, limit, n - 1);
      UnstutteredClean(History(start, script, n));
      HistoryStep(start, script, n);
    }
  }
}
