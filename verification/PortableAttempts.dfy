/** The scripted attempts of one node: retry limits, retryable outcomes and `retry_on`. */
module PortableAttempts {
  import opened Common
  import opened Json
  import opened PortableModel

  datatype AttemptEnd = Succeeded(result: Json) | GaveUp(error: string) | NeverTried
  datatype AttemptRun = AttemptRun(events: seq<Event>, end: AttemptEnd, count: nat)

  function ErrorOf(a: Attempt): string
    requires !a.Success?
  {
    if a.Timeout? then DELEGATE_TIMEOUT
    else if a.errorCode.Some? then a.errorCode.value
    else DELEGATE_REJECTED
  }

  predicate Retries(node: TaskNode, index: nat, maxRetries: int)
    requires index < |node.attempts| && !node.attempts[index].Success?
  {
    var a := node.attempts[index];
    && (a.Timeout? || a.retryable)
    && (node.retryOn.None? || ErrorOf(a) in node.retryOn.value)
    && index + 1 <= maxRetries
    && index + 1 < |node.attempts|
  }

  function ResultOrEmpty(j: Json): Json {
    if j == Null then Obj(map[]) else j
  }

  /** The scripted attempts of a node from position `index` on. */
  function AttemptsFrom(node: TaskNode, maxRetries: int, index: nat): AttemptRun
    decreases |node.attempts| - index
  {
    if index >= |node.attempts| || index > maxRetries then AttemptRun([], NeverTried, index)
    else
      var a := node.attempts[index];
      var tried := [NodeAttempt(node.id, index + 1)];
      if a.Success? then
        AttemptRun(tried + [NodeEntered(node.id, Completed)], Succeeded(ResultOrEmpty(a.result)), index + 1)
      else if Retries(node, index, maxRetries) then
        var rest := AttemptsFrom(node, maxRetries, index + 1);
        AttemptRun(tried + [NodeRetrying(node.id)] + rest.events, rest.end, rest.count)
      else
        AttemptRun(tried + [NodeEntered(node.id, Failed)], GaveUp(ErrorOf(a)), index + 1)
  }

  method RunAttempts(node: TaskNode, maxRetries: int) returns (run: AttemptRun)
    ensures run == AttemptsFrom(node, maxRetries, 0)
  {
    var events: seq<Event> := [];
    var index := 0;
    while index < |node.attempts| && index <= maxRetries
      invariant 0 <= index <= |node.attempts|
      invariant var rest := AttemptsFrom(node, maxRetries, index);
                AttemptsFrom(node, maxRetries, 0) == AttemptRun(events + rest.events, rest.end, rest.count)
    {
      var outcome := node.attempts[index];
      var before := events;
      events := events + [NodeAttempt(node.id, index + 1)];
      if outcome.Success? {
        events := events + [NodeEntered(node.id, Completed)];
        return AttemptRun(events, Succeeded(ResultOrEmpty(outcome.result)), index + 1);
      }
      if Retries(node, index, maxRetries) {
        events := events + [NodeRetrying(node.id)];
        ghost var rest := AttemptsFrom(node, maxRetries, index + 1);
        assert before + ([NodeAttempt(node.id, index + 1)] + [NodeRetrying(node.id)] + rest.events)
            == events + rest.events;
        index := index + 1;
        continue;
      }
      events := events + [NodeEntered(node.id, Failed)];
      return AttemptRun(events, GaveUp(ErrorOf(outcome)), index + 1);
    }
    return AttemptRun(events, NeverTried, index);
  }

  /** A node makes at most one attempt more than its retry limit, and an attempt that is not
      the last was retryable. */
  lemma {:induction false} AttemptsBounded(node: TaskNode, maxRetries: int, index: nat)
    requires index <= |node.attempts|
    ensures var run := AttemptsFrom(node, maxRetries, index);
            && index <= run.count <= |node.attempts|
            && (run.count > index ==> run.count <= maxRetries + 1 && !run.end.NeverTried?)
            && (run.count == index <==> run.end.NeverTried?)
            && (run.end.NeverTried? <==> index == |node.attempts| || index > maxRetries)
            && (forall k :: index <= k < run.count - 1 ==>
                  !node.attempts[k].Success? && Retries(node, k, maxRetries))
    decreases |node.attempts| - index
  {
    if index < |node.attempts| && index <= maxRetries
       && !node.attempts[index].Success? && Retries(node, index, maxRetries) {
      AttemptsBounded(node, maxRetries, index + 1);
    }
  }
}
