/** The return-code state machine of a process started with `Sandbox.exec`
    (modal/container_process.py). The monotonic clock and the server's
    `ContainerExecWait` answers are parameters; the code, once known, is
    never replaced. */
module ContainerProcess {
  import opened Errors

  /** The parts of `_ContainerProcess` the return code depends on. The
      deadline is a `time.monotonic()` reading in seconds. */
  datatype Process = Process(execDeadline: Option<real>, returnCode: Option<int>)

  /** A `ContainerExecWaitResponse`. */
  datatype WaitResponse = WaitResponse(completed: bool, exitCode: int)

  /** The code given to a process whose deadline has passed. */
  const DEADLINE_EXCEEDED: int := -1

  /** `_ContainerProcess(...)`: a fresh process has no code yet. */
  function NewProcess(execDeadline: Option<real>): (p: Process)
    ensures p.returnCode.None? && p.execDeadline == execDeadline
  {
    Process(execDeadline, None)
  }

  /** `if self._exec_deadline`: a deadline of 0.0 counts as none. */
  predicate HasDeadline(p: Process)
  {
    p.execDeadline.Some? && p.execDeadline.value != 0.0
  }

  /** The `returncode` property: only readable once set. */
  function ReturnCode(p: Process): (r: Result<int>)
    ensures r.Err? <==> p.returnCode.None?
    ensures r.Err? ==> r.error == InvalidError
    ensures r.Ok? ==> r.value == p.returnCode.value
  {
    if p.returnCode.None? then Err(InvalidError) else Ok(p.returnCode.value)
  }

  /** `poll()` at clock reading `now`; `resp` is what the server would
      answer to the zero-timeout wait request (only asked when neither the
      stored code nor the deadline decides). Returns the new state and the
      answer. */
  function Poll(p: Process, now: real, resp: WaitResponse): (r: (Process, Option<int>))
    ensures r.0.execDeadline == p.execDeadline
    ensures p.returnCode.Some? ==> r == (p, p.returnCode)
    ensures p.returnCode.None? && HasDeadline(p) && now >= p.execDeadline.value ==>
      r.1 == Some(DEADLINE_EXCEEDED)
    ensures p.returnCode.None? && !(HasDeadline(p) && now >= p.execDeadline.value) ==>
      r.1 == (if resp.completed then Some(resp.exitCode) else None)
    ensures r.0.returnCode == (if p.returnCode.Some? then p.returnCode else r.1)
  {
    if p.returnCode.Some? then (p, p.returnCode)
    else if HasDeadline(p) && now >= p.execDeadline.value then
      (p.(returnCode := Some(DEADLINE_EXCEEDED)), Some(DEADLINE_EXCEEDED))
    else if resp.completed then (p.(returnCode := Some(resp.exitCode)), Some(resp.exitCode))
    else (p, None)
  }

  /** When the server reports completion: the exit code and how many seconds
      after the call it arrives; `None` when it never does. */
  type Completion = Option<(int, real)>

  /** `wait()` at clock reading `now`. With a deadline the wait is bounded by
      the time left, and running out of it (or having none left) gives -1;
      without one it lasts until completion. `None` means the call does not
      return. */
  function Wait(p: Process, now: real, completion: Completion): (r: Option<(Process, int)>)
    ensures p.returnCode.Some? ==> r == Some((p, p.returnCode.value))
    ensures p.returnCode.None? && HasDeadline(p) ==>
      r.Some? && (r.value.1 == DEADLINE_EXCEEDED ||
                  (completion.Some? && r.value.1 == completion.value.0
                   && completion.value.1 < p.execDeadline.value - now))
    ensures p.returnCode.None? && HasDeadline(p) && p.execDeadline.value - now <= 0.0 ==>
      r == Some((p.(returnCode := Some(DEADLINE_EXCEEDED)), DEADLINE_EXCEEDED))
    ensures p.returnCode.None? && !HasDeadline(p) ==>
      (r.Some? <==> completion.Some?)
    ensures p.returnCode.None? && !HasDeadline(p) && completion.Some? ==>
      r == Some((p.(returnCode := Some(completion.value.0)), completion.value.0))
    ensures p.returnCode.None? && HasDeadline(p) && 0.0 < p.execDeadline.value - now
            && completion.Some? && completion.value.1 < p.execDeadline.value - now ==>
      r.Some? && r.value.1 == completion.value.0
    ensures p.returnCode.None? && HasDeadline(p)
            && !(completion.Some? && completion.value.1 < p.execDeadline.value - now) ==>
      r.Some? && r.value.1 == DEADLINE_EXCEEDED
    ensures r.Some? ==> r.value.0 == p.(returnCode := Some(r.value.1))
  {
    if p.returnCode.Some? then Some((p, p.returnCode.value))
    else if HasDeadline(p) then
      var timeout := p.execDeadline.value - now;
      if timeout <= 0.0 then Some((p.(returnCode := Some(DEADLINE_EXCEEDED)), DEADLINE_EXCEEDED))
      else if completion.Some? && completion.value.1 < timeout then
        Some((p.(returnCode := Some(completion.value.0)), completion.value.0))
      else Some((p.(returnCode := Some(DEADLINE_EXCEEDED)), DEADLINE_EXCEEDED))
    else if completion.Some? then
      Some((p.(returnCode := Some(completion.value.0)), completion.value.0))
    else None
  }

  /** A `wait()` whose completion is already there agrees with a `poll()`
      at the same moment that sees the process completed: both report the
      stored code, -1 past the deadline, and the exit code otherwise. */
  lemma WaitImmediateIsPoll(p: Process, now: real, code: int)
    ensures Wait(p, now, Some((code, 0.0))).Some?
    ensures var (q, c) := Wait(p, now, Some((code, 0.0))).value;
      Poll(p, now, WaitResponse(true, code)) == (q, Some(c))
  {
  }

  /** One call on the handle, with the clock and the server's behaviour for
      that call. */
  datatype Call =
    | PollCall(now: real, resp: WaitResponse)
    | WaitCall(now: real, completion: Completion)
    | ReadReturnCode

  /** The state after one call; a `wait()` that never returns leaves the
      state as it was. */
  function Step(p: Process, c: Call): (r: Process)
    ensures r.execDeadline == p.execDeadline
    ensures p.returnCode.Some? ==> r == p
    ensures c.ReadReturnCode? ==> r == p
  {
    match c
    case PollCall(now, resp) => Poll(p, now, resp).0
    case WaitCall(now, completion) =>
      (match Wait(p, now, completion) case Some(res) => res.0 case None => p)
    case ReadReturnCode => p
  }

  function Run(p: Process, calls: seq<Call>): Process
    decreases |calls|
  {
    if |calls| == 0 then p else Run(Step(p, calls[0]), calls[1..])
  }

  /** Once a code is known, no sequence of calls changes it, and every later
      `poll`, `wait` and `returncode` reports that same code. */
  lemma {:induction false} CodeIsFinal(p: Process, calls: seq<Call>)
    requires p.returnCode.Some?
    ensures Run(p, calls) == p
  {
    if |calls| > 0 {
      assert Step(p, calls[0]) == p;
      CodeIsFinal(p, calls[1..]);
    }
  }

  /** After a `wait()` that returns, the code is readable and equals what
      `wait()` returned, and a following `poll()` agrees without asking the
      server. */
  lemma WaitThenRead(p: Process, now: real, completion: Completion, later: real, resp: WaitResponse)
    requires Wait(p, now, completion).Some?
    ensures var (q, code) := Wait(p, now, completion).value;
      ReturnCode(q) == Ok(code) && Poll(q, later, resp) == (q, Some(code))
  {
  }

  /** A run that contains a `wait()` which returns ends with a code, and
      that code is the one the `wait()` returned. */
  lemma WaitedRunHasCode(p: Process, calls: seq<Call>, i: nat)
    requires i < |calls| && calls[i].WaitCall?
    requires Wait(Run(p, calls[..i]), calls[i].now, calls[i].completion).Some?
    ensures Run(p, calls).returnCode == Some(Wait(Run(p, calls[..i]), calls[i].now, calls[i].completion).value.1)
  {
    assert calls == calls[..i] + [calls[i]] + calls[i + 1..];
    RunAppend(p, calls[..i], [calls[i]] + calls[i + 1..]);
    assert calls[..i] + ([calls[i]] + calls[i + 1..]) == calls;
    var q := Step(Run(p, calls[..i]), calls[i]);
    assert ([calls[i]] + calls[i + 1..])[1..] == calls[i + 1..];
    CodeIsFinal(q, calls[i + 1..]);
  }

  lemma {:induction false} RunAppend(p: Process, a: seq<Call>, b: seq<Call>)
    ensures Run(p, a + b) == Run(Run(p, a), b)
    decreases |a|
  {
    if |a| > 0 {
      assert (a + b)[0] == a[0] && (a + b)[1..] == a[1..] + b;
      RunAppend(Step(p, a[0]), a[1..], b);
    } else {
      assert a + b == b;
    }
  }
}
