/**
 The retry loops of the three HTTP clients, run on a script that says how each attempt turns out.
 They are shaped differently and, as the script shows, do not retry the same failures.
 */
module Retry {
  import opened Texts
  import opened Wrappers

  /** How one attempt ends. */
  datatype Attempt =
    | Response(status: int)
    | Refused(message: string)          // no connection: host unknown, port closed
    | ConnectTimeout(message: string)
    | ReadTimeout(message: string)      // connected, but no answer in time
    | Broken(message: string)           // the connection broke during the exchange
    | Tls(message: string)              // certificate or protocol failure

  /** What the caller gets. */
  datatype Result =
    | Answer(status: int)
    | Unreachable(message: string)      // the connection failure, as a 503 response or an error
    | Propagated(attempt: Attempt)      // any other failure, handed through as it came
    | LastResponse(status: int)         // the fallback behind the loop: the last retried response
    | NoResponse                        // the fallback when there is not even that

  type Script = nat -> Attempt

  // ----- Which attempts a client tries again -----

  /** The Python client takes a connection error for a TLS failure when its text says so. */
  predicate LooksLikeTls(message: string) {
    Contains(Lower(message), "ssl") || Contains(Lower(message), "wrong version") || Contains(Lower(message), "tls")
  }

  predicate PythonRetries(codes: set<int>, a: Attempt) {
    match a
    case Response(status) => status in codes
    case Refused(message) => !LooksLikeTls(message)
    case ConnectTimeout(message) => !LooksLikeTls(message)
    case _ => false
  }

  predicate CppRetries(codes: set<int>, a: Attempt) {
    match a
    case Response(status) => status in codes
    case Refused(_) => true
    case Broken(_) => true
    case _ => false
  }

  predicate RustRetries(codes: set<int>, a: Attempt) {
    match a
    case Response(status) => status in codes
    case Refused(_) => true
    case ConnectTimeout(_) => true
    case ReadTimeout(_) => true
    case Tls(_) => true
    case Broken(_) => false
  }

  // ----- The attempt a client settles on -----

  /** The first attempt from `from` on that is not tried again, or the last one allowed. */
  function Settle(script: Script, retries: Attempt -> bool, retryCount: nat, from: nat): (k: nat)
    requires from <= retryCount
    ensures from <= k <= retryCount
    ensures forall j | from <= j < k :: retries(script(j))
    ensures k < retryCount ==> !retries(script(k))
    decreases retryCount - from
  {
    if from < retryCount && retries(script(from)) then Settle(script, retries, retryCount, from + 1) else from
  }

  lemma SettleUnique(script: Script, retries: Attempt -> bool, retryCount: nat, k: nat)
    requires k <= retryCount
    requires forall j | 0 <= j < k :: retries(script(j))
    requires k < retryCount ==> !retries(script(k))
    ensures k == Settle(script, retries, retryCount, 0)
  {
    var s := Settle(script, retries, retryCount, 0);
    assert k < s ==> retries(script(k));
  }

  /** A connection failure the client would try again is reported as one; a response is returned; the rest goes through. */
  function Report(retries: Attempt -> bool, a: Attempt): Result {
    if a.Response? then Answer(a.status)
    else if retries(a) then Unreachable(a.message)
    else Propagated(a)
  }

  // ----- Python -----

  method PythonRequest(script: Script, codes: set<int>, retryCount: nat) returns (result: Result, attempts: nat, sleeps: nat)
    ensures attempts == Settle(script, a => PythonRetries(codes, a), retryCount, 0) + 1
    ensures sleeps == attempts - 1
    ensures result == Report(a => PythonRetries(codes, a), script(attempts - 1))
    ensures !result.LastResponse? && !result.NoResponse?
  {
    ghost var retries := a => PythonRetries(codes, a);
    var lastExc: Option<string> := None;
    var lastResponse: Option<int> := None;
    attempts, sleeps := 0, 0;
    for attempt := 0 to retryCount + 1
      invariant attempts == attempt
      invariant sleeps == if attempt == 0 then 0 else attempt - 1
      invariant forall j | 0 <= j < attempt :: retries(script(j))
      invariant attempt == retryCount + 1 ==> !script(retryCount).Response? && lastExc == Some(script(retryCount).message)
    {
      if attempt > 0 {
        sleeps := sleeps + 1;
      }
      attempts := attempts + 1;
      match script(attempt)
      case Response(status) =>
        if status in codes && attempt < retryCount {
          lastResponse := Some(status);
          continue;
        }
        SettleUnique(script, retries, retryCount, attempt);
        return Answer(status), attempts, sleeps;
      case Refused(message) =>
        if LooksLikeTls(message) {
          SettleUnique(script, retries, retryCount, attempt);
          return Propagated(script(attempt)), attempts, sleeps;
        }
        lastExc := Some(message);
      case ConnectTimeout(message) =>
        if LooksLikeTls(message) {
          SettleUnique(script, retries, retryCount, attempt);
          return Propagated(script(attempt)), attempts, sleeps;
        }
        lastExc := Some(message);
      case _ =>
        SettleUnique(script, retries, retryCount, attempt);
        return Propagated(script(attempt)), attempts, sleeps;
    }
    SettleUnique(script, retries, retryCount, retryCount);
    if lastExc.Some? {
      return Unreachable(lastExc.value), attempts, sleeps;
    }
    return if lastResponse.Some? then LastResponse(lastResponse.value) else NoResponse, attempts, sleeps;
  }

  // ----- C++ -----

  /** The source computes retry_count_ + 1 in a signed 32-bit int. */
  const INT_MAX: nat := 0x7FFF_FFFF

  method CppRequest(script: Script, codes: seq<int>, retryCount: nat) returns (result: Result, attempts: nat, sleeps: nat)
    requires retryCount < INT_MAX
    ensures var setOf := (set c | c in codes);
            && attempts == Settle(script, a => CppRetries(setOf, a), retryCount, 0) + 1
            && result == Report(a => CppRetries(setOf, a), script(attempts - 1))
    ensures sleeps == attempts - 1
    ensures !result.LastResponse? && !result.NoResponse?
  {
    ghost var setOf := (set c | c in codes);
    ghost var retries := a => CppRetries(setOf, a);
    var maxAttempts := retryCount + 1;
    var lastExc: Option<string> := None;
    var lastResp: Option<int> := None;
    attempts, sleeps := 0, 0;
    for attempt := 0 to maxAttempts
      invariant attempts == attempt
      invariant sleeps == if attempt == 0 then 0 else attempt - 1
      invariant forall j | 0 <= j < attempt :: retries(script(j))
      invariant attempt == retryCount + 1 ==> !script(retryCount).Response? && lastExc == Some(script(retryCount).message)
    {
      if attempt > 0 {
        sleeps := sleeps + 1;
      }
      attempts := attempts + 1;
      match script(attempt)
      case Response(status) =>
        var retryable := false;
        for i := 0 to |codes|
          invariant !retryable ==> attempt < retryCount ==> status !in codes[..i]
          invariant retryable ==> attempt < retryCount && status in codes
        {
          if status == codes[i] && attempt < retryCount {
            retryable := true;
            break;
          }
        }
        assert codes[..|codes|] == codes;
        if retryable {
          lastResp := Some(status);
          continue;
        }
        SettleUnique(script, retries, retryCount, attempt);
        return Answer(status), attempts, sleeps;
      case Refused(message) =>
        lastExc := Some(message);
      case Broken(message) =>
        lastExc := Some(message);
      case _ =>
        SettleUnique(script, retries, retryCount, attempt);
        return Propagated(script(attempt)), attempts, sleeps;
    }
    SettleUnique(script, retries, retryCount, retryCount);
    if lastExc.Some? {
      return Unreachable(lastExc.value), attempts, sleeps;
    }
    return if lastResp.Some? then LastResponse(lastResp.value) else NoResponse, attempts, sleeps;
  }

  // ----- Rust -----

  method RustRequest(script: Script, codes: set<int>, retryCount: nat) returns (result: Result, attempts: nat, sleeps: nat)
    ensures attempts == Settle(script, a => RustRetries(codes, a), retryCount, 0) + 1
    ensures sleeps == attempts - 1
    ensures result == Report(a => RustRetries(codes, a), script(attempts - 1))
  {
    ghost var retries := a => RustRetries(codes, a);
    var retried := 0;
    sleeps := 0;
    while true
      invariant retried <= retryCount && sleeps == retried
      invariant forall j | 0 <= j < retried :: retries(script(j))
      decreases retryCount - retried
    {
      var outcome := script(retried);
      var connectionFailed := outcome.Refused? || outcome.ConnectTimeout? || outcome.ReadTimeout? || outcome.Tls?;
      if connectionFailed && retried < retryCount {
        retried := retried + 1;
        sleeps := sleeps + 1;
        continue;
      }
      if outcome.Response? && outcome.status in codes && retried < retryCount {
        retried := retried + 1;
        sleeps := sleeps + 1;
        continue;
      }
      SettleUnique(script, retries, retryCount, retried);
      result := if outcome.Response? then Answer(outcome.status)
                else if connectionFailed then Unreachable(outcome.message)
                else Propagated(outcome);
      return result, retried + 1, sleeps;
    }
  }

  // ----- When the three agree -----

  /** Attempts that all three clients try again. */
  predicate AllRetry(codes: set<int>, a: Attempt) {
    (a.Response? && a.status in codes) || (a.Refused? && !LooksLikeTls(a.message))
  }

  /**
   The three clients make the same number of attempts exactly when the first attempt that not all
   of them would retry, if the retry count leaves it in reach, is a response.
   */
  lemma AgreeExactly(script: Script, codes: set<int>, retryCount: nat)
    ensures var first := Settle(script, a => AllRetry(codes, a), retryCount, 0);
            var py := Settle(script, a => PythonRetries(codes, a), retryCount, 0);
            var cpp := Settle(script, a => CppRetries(codes, a), retryCount, 0);
            var rust := Settle(script, a => RustRetries(codes, a), retryCount, 0);
            (py == cpp && cpp == rust) <==> first == retryCount || script(first).Response?
  {
    var first := Settle(script, a => AllRetry(codes, a), retryCount, 0);
    SettleBeyond(script, a => AllRetry(codes, a), a => PythonRetries(codes, a), retryCount);
    SettleBeyond(script, a => AllRetry(codes, a), a => CppRetries(codes, a), retryCount);
    SettleBeyond(script, a => AllRetry(codes, a), a => RustRetries(codes, a), retryCount);
    if first < retryCount {
      var a := script(first);
      assert !AllRetry(codes, a);
      if !a.Response? {
        assert PythonRetries(codes, a) || CppRetries(codes, a) || RustRetries(codes, a);
        assert !PythonRetries(codes, a) || !CppRetries(codes, a) || !RustRetries(codes, a);
      }
    }
  }

  /** A client that retries at least what `fewer` does gets at least as far, and no further if it stops there too. */
  lemma SettleBeyond(script: Script, fewer: Attempt -> bool, more: Attempt -> bool, retryCount: nat)
    requires forall a :: fewer(a) ==> more(a)
    ensures var k := Settle(script, fewer, retryCount, 0);
            && k <= Settle(script, more, retryCount, 0)
            && (k == Settle(script, more, retryCount, 0) <==> k == retryCount || !more(script(k)))
  {
    var k, m := Settle(script, fewer, retryCount, 0), Settle(script, more, retryCount, 0);
    if k == retryCount || !more(script(k)) {
      SettleUnique(script, more, retryCount, k);
    }
    assert m < k ==> fewer(script(m));
  }

  /** What a client that settles by `retries` reports. */
  function Outcome(script: Script, retries: Attempt -> bool, retryCount: nat): Result {
    Report(retries, script(Settle(script, retries, retryCount, 0)))
  }

  /**
   The three clients report the same exactly when the first attempt that not all of them would
   retry, or else the last one, is a response or a plain refusal; they have then settled on that
   very attempt.
   */
  lemma ReportsAgreeExactly(script: Script, codes: set<int>, retryCount: nat)
    ensures var first := Settle(script, a => AllRetry(codes, a), retryCount, 0);
            var py := Outcome(script, a => PythonRetries(codes, a), retryCount);
            var cpp := Outcome(script, a => CppRetries(codes, a), retryCount);
            var rust := Outcome(script, a => RustRetries(codes, a), retryCount);
            && (py == cpp && cpp == rust <==> script(first).Response? || AllRetry(codes, script(first)))
            && (py == cpp && cpp == rust ==>
                  && first == Settle(script, a => PythonRetries(codes, a), retryCount, 0)
                  && first == Settle(script, a => CppRetries(codes, a), retryCount, 0)
                  && first == Settle(script, a => RustRetries(codes, a), retryCount, 0))
  {
    var first := Settle(script, a => AllRetry(codes, a), retryCount, 0);
    AgreeExactly(script, codes, retryCount);
    SettleBeyond(script, a => AllRetry(codes, a), a => PythonRetries(codes, a), retryCount);
    SettleBeyond(script, a => AllRetry(codes, a), a => CppRetries(codes, a), retryCount);
    SettleBeyond(script, a => AllRetry(codes, a), a => RustRetries(codes, a), retryCount);
    assert !script(first).Response? && AllRetry(codes, script(first)) ==> first == retryCount;
  }

  // ----- What each client makes of each kind of attempt -----

  /** One kind of attempt over and over, with one retry allowed: the attempt settled on and the report, client by client. */
  ghost predicate Behaves(codes: set<int>, a: Attempt, retries: (bool, bool, bool), reports: (Result, Result, Result)) {
    var script := (k: nat) => a;
    && Settle(script, a => PythonRetries(codes, a), 1, 0) == (if retries.0 then 1 else 0)
    && Settle(script, a => CppRetries(codes, a), 1, 0) == (if retries.1 then 1 else 0)
    && Settle(script, a => RustRetries(codes, a), 1, 0) == (if retries.2 then 1 else 0)
    && Outcome(script, a => PythonRetries(codes, a), 1) == reports.0
    && Outcome(script, a => CppRetries(codes, a), 1) == reports.1
    && Outcome(script, a => RustRetries(codes, a), 1) == reports.2
  }

  /** Python, C++ and Rust, in this order: a response is retried by all or by none. */
  lemma OnResponse(codes: set<int>, status: int)
    ensures var listed := status in codes;
            Behaves(codes, Response(status), (listed, listed, listed), (Answer(status), Answer(status), Answer(status)))
  {
  }

  lemma OnReadTimeout(codes: set<int>, m: string)
    ensures Behaves(codes, ReadTimeout(m), (false, false, true),
                    (Propagated(ReadTimeout(m)), Propagated(ReadTimeout(m)), Unreachable(m)))
  {
  }

  lemma OnBroken(codes: set<int>, m: string)
    ensures Behaves(codes, Broken(m), (false, true, false), (Propagated(Broken(m)), Unreachable(m), Propagated(Broken(m))))
  {
  }

  lemma OnTls(codes: set<int>, m: string)
    ensures Behaves(codes, Tls(m), (false, false, true), (Propagated(Tls(m)), Propagated(Tls(m)), Unreachable(m)))
  {
  }

  lemma OnRefused(codes: set<int>, m: string)
    ensures var plain := !LooksLikeTls(m);
            Behaves(codes, Refused(m), (plain, true, true),
                    (if plain then Unreachable(m) else Propagated(Refused(m)), Unreachable(m), Unreachable(m)))
  {
  }

  lemma OnConnectTimeout(codes: set<int>, m: string)
    ensures var plain := !LooksLikeTls(m);
            Behaves(codes, ConnectTimeout(m), (plain, false, true),
                    (if plain then Unreachable(m) else Propagated(ConnectTimeout(m)), Propagated(ConnectTimeout(m)), Unreachable(m)))
  {
  }

  /** The three words make a message look like a TLS failure, in any letter case and anywhere in it. */
  lemma TlsWords(before: string, word: string, after: string)
    requires Lower(word) == "ssl" || Lower(word) == "wrong version" || Lower(word) == "tls"
    ensures LooksLikeTls(before + word + after)
  {
    assert Lower(before + word + after) == Lower(before) + Lower(word) + Lower(after);
    ContainsMeaning(Lower(before), Lower(word), Lower(after));
  }

  /** And nothing else does. */
  lemma TlsWordsOnly(m: string) returns (before: string, word: string, after: string)
    requires LooksLikeTls(m)
    ensures m == before + word + after
    ensures Lower(word) == "ssl" || Lower(word) == "wrong version" || Lower(word) == "tls"
  {
    word := if Contains(Lower(m), "ssl") then "ssl" else if Contains(Lower(m), "wrong version") then "wrong version" else "tls";
    var low, high := ContainsCut(Lower(m), word);
    var n := |word|;
    before, word, after := m[..|low|], m[|low|..|low| + n], m[|low| + n..];
    assert Lower(word) == Lower(m)[|low|..|low| + n];
  }

  /** A TLS failure at the only attempt: one attempt each, and Rust alone reports it as unreachable. */
  lemma ReportsDisagree(codes: set<int>)
    ensures var script := (k: nat) => Tls("expired");
            && Outcome(script, a => PythonRetries(codes, a), 0) == Propagated(Tls("expired"))
            && Outcome(script, a => CppRetries(codes, a), 0) == Propagated(Tls("expired"))
            && Outcome(script, a => RustRetries(codes, a), 0) == Unreachable("expired")
  {
  }

  /** One TLS failure, a retry allowed: Python and C++ stop, Rust tries again. */
  lemma TlsDisagrees(codes: set<int>)
    ensures var script := (k: nat) => Tls("");
            && Settle(script, a => PythonRetries(codes, a), 1, 0) == 0
            && Settle(script, a => CppRetries(codes, a), 1, 0) == 0
            && Settle(script, a => RustRetries(codes, a), 1, 0) == 1
  {
  }

  /** Without any TLS failure they still differ: after one connect timeout, C++ alone gives up. */
  lemma ConnectTimeoutDisagrees(codes: set<int>)
    ensures var script := (k: nat) => ConnectTimeout("");
            && Settle(script, a => PythonRetries(codes, a), 1, 0) == 1
            && Settle(script, a => CppRetries(codes, a), 1, 0) == 0
            && Settle(script, a => RustRetries(codes, a), 1, 0) == 1
  {
  }
}
