/** Argument and configuration checks of sandboxes and of commands run in
    them, and how a finished sandbox's status becomes an exit code
    (modal/sandbox.py). Requests to the server are replaced by the values
    they would carry. */
module Sandbox {
  import opened Errors
  import ContainerProcess

  /** `ARG_MAX_BYTES`: the most characters the arguments of one command may
      add up to. */
  const ARG_MAX_BYTES: nat := 0x1_0000

  /** `CONTAINER_EXEC_TIMEOUT_BUFFER`, in seconds. */
  const CONTAINER_EXEC_TIMEOUT_BUFFER: nat := 5

  /** An entrypoint argument as the caller passed it: a string or some other
      Python object. */
  datatype Arg = StrArg(s: string) | OtherArg

  /** `sum(len(arg) for arg in args)` over string arguments. */
  function TotalLength(args: seq<Arg>): (n: nat)
    requires forall k | 0 <= k < |args| :: args[k].StrArg?
  {
    if |args| == 0 then 0 else |args[0].s| + TotalLength(args[1..])
  }

  /** `_validate_exec_args`: every argument a string, and at most
      `ARG_MAX_BYTES` characters in total. */
  function ValidateExecArgs(args: seq<Arg>): (r: Result<()>)
    ensures r.Err? ==> r.error == InvalidError
    ensures r.Ok? <==>
      (forall k | 0 <= k < |args| :: args[k].StrArg?) && TotalLength(args) <= ARG_MAX_BYTES
  {
    if exists k | 0 <= k < |args| :: !args[k].StrArg? then Err(InvalidError)
    else if TotalLength(args) > ARG_MAX_BYTES then Err(InvalidError)
    else Ok(())
  }

  /** Total length adds up over concatenation. */
  lemma {:induction false} TotalLengthAppend(a: seq<Arg>, b: seq<Arg>)
    requires forall k | 0 <= k < |a| :: a[k].StrArg?
    requires forall k | 0 <= k < |b| :: b[k].StrArg?
    ensures TotalLength(a + b) == TotalLength(a) + TotalLength(b)
    decreases |a|
  {
    if |a| > 0 {
      assert (a + b)[1..] == a[1..] + b;
      TotalLengthAppend(a[1..], b);
    } else {
      assert a + b == b;
    }
  }

  /** Accepted arguments stay accepted when some are dropped from the end,
      and the limit is inclusive: arguments of exactly `ARG_MAX_BYTES`
      characters pass, one more character fails. */
  lemma ExecArgsLimit(a: seq<Arg>, b: seq<Arg>, extra: string)
    requires ValidateExecArgs(a + b).Ok?
    ensures ValidateExecArgs(a).Ok?
    ensures TotalLength(a + b) == ARG_MAX_BYTES && |extra| > 0 ==>
      ValidateExecArgs(a + b + [StrArg(extra)]).Err?
  {
    assert forall k | 0 <= k < |a| :: a[k] == (a + b)[k];
    assert forall k | 0 <= k < |b| :: b[k] == (a + b)[|a| + k];
    TotalLengthAppend(a, b);
    var c := [StrArg(extra)];
    assert TotalLength(c) == |extra| by {
      assert c[1..] == [];
    }
    TotalLengthAppend(a + b, c);
  }

  /** `workdir` must be absolute when given, both for `Sandbox.create` and
      for `exec`. */
  function ValidateWorkdir(workdir: Option<string>): (r: Result<()>)
    ensures r.Err? <==> workdir.Some? && !StartsWith(workdir.value, "/")
    ensures r.Err? ==> r.error == InvalidError
  {
    if workdir.Some? && !StartsWith(workdir.value, "/") then Err(InvalidError) else Ok(())
  }

  // ---------------------------------------------------------------------
  // Sandbox definition

  /** `region`: absent, one region name or a list of them. An empty name or
      list is falsy and counts as absent. */
  datatype RegionArg = NoRegion | RegionName(name: string) | RegionList(names: seq<string>)

  predicate RegionGiven(region: RegionArg)
  {
    match region
    case NoRegion => false
    case RegionName(name) => name != ""
    case RegionList(names) => names != []
  }

  /** A `SchedulerPlacement`: an explicit one, or one made from a region. */
  datatype SchedulerPlacement = ExplicitPlacement(id: nat) | RegionPlacement(region: RegionArg)

  /** `gpu`: absent, one configuration, or a list (rejected for sandboxes). */
  datatype GpuArg = NoGpu | GpuConfig(config: string) | GpuList(configs: seq<string>)

  datatype NetworkAccessType = Open | Blocked | Allowlist

  datatype NetworkAccess = NetworkAccess(accessType: NetworkAccessType, allowedCidrs: seq<string>)

  datatype TunnelType = DefaultTunnel | H2Tunnel

  /** An `api_pb2.PortSpec`. */
  datatype PortSpec = PortSpec(port: int, unencrypted: bool, tunnelType: TunnelType)

  /** What the sandbox definition carries of the checked arguments. */
  datatype Definition = Definition(
    schedulerPlacement: Option<SchedulerPlacement>,
    workdir: Option<string>,
    openPorts: seq<PortSpec>,
    networkAccess: NetworkAccess)

  /** `region` is turned into a placement, unless a placement was given as
      well. */
  function Placement(region: RegionArg, placement: Option<SchedulerPlacement>): (r: Result<Option<SchedulerPlacement>>)
    ensures r.Err? <==> RegionGiven(region) && placement.Some?
    ensures r.Err? ==> r.error == InvalidError
    ensures r.Ok? && RegionGiven(region) ==> r.value == Some(RegionPlacement(region))
    ensures r.Ok? && !RegionGiven(region) ==> r.value == placement
  {
    if RegionGiven(region) then
      if placement.Some? then Err(InvalidError) else Ok(Some(RegionPlacement(region)))
    else Ok(placement)
  }

  /** `block_network` and `cidr_allowlist` choose the network access. */
  function ChooseNetworkAccess(blockNetwork: bool, cidrAllowlist: Option<seq<string>>): (r: Result<NetworkAccess>)
    ensures r.Err? <==> blockNetwork && cidrAllowlist.Some?
    ensures r.Err? ==> r.error == InvalidError
    ensures r.Ok? && blockNetwork ==> r.value.accessType == Blocked && r.value.allowedCidrs == []
    ensures r.Ok? && !blockNetwork && cidrAllowlist.None? ==> r.value.accessType == Open && r.value.allowedCidrs == []
    ensures r.Ok? && cidrAllowlist.Some? ==> r.value == NetworkAccess(Allowlist, cidrAllowlist.value)
  {
    if blockNetwork then
      if cidrAllowlist.Some? then Err(InvalidError) else Ok(NetworkAccess(Blocked, []))
    else if cidrAllowlist.None? then Ok(NetworkAccess(Open, []))
    else Ok(NetworkAccess(Allowlist, cidrAllowlist.value))
  }

  function Specs(ports: seq<int>, unencrypted: bool, tunnel: TunnelType): (r: seq<PortSpec>)
    ensures |r| == |ports|
    ensures forall k | 0 <= k < |r| :: r[k] == PortSpec(ports[k], unencrypted, tunnel)
  {
    seq(|ports|, k requires 0 <= k < |ports| => PortSpec(ports[k], unencrypted, tunnel))
  }

  /** The open ports: encrypted ones, then unencrypted ones, then encrypted
      HTTP/2 ones, each group in the order given. */
  function OpenPorts(encrypted: seq<int>, unencrypted: seq<int>, h2: seq<int>): (r: seq<PortSpec>)
    ensures |r| == |encrypted| + |unencrypted| + |h2|
  {
    Specs(encrypted, false, DefaultTunnel) + Specs(unencrypted, true, DefaultTunnel) + Specs(h2, false, H2Tunnel)
  }

  /** The port numbers of a list of specs. */
  function PortNumbers(specs: seq<PortSpec>): (r: seq<int>)
    ensures |r| == |specs| && forall k | 0 <= k < |specs| :: r[k] == specs[k].port
  {
    seq(|specs|, k requires 0 <= k < |specs| => specs[k].port)
  }

  /** The specs of one kind, in order. */
  function OfKind(specs: seq<PortSpec>, unencrypted: bool, tunnel: TunnelType): (r: seq<PortSpec>)
    ensures forall k | 0 <= k < |r| :: r[k].unencrypted == unencrypted && r[k].tunnelType == tunnel
  {
    if |specs| == 0 then []
    else
      (if specs[0].unencrypted == unencrypted && specs[0].tunnelType == tunnel then [specs[0]] else [])
      + OfKind(specs[1..], unencrypted, tunnel)
  }

  /** Listing the ports loses and reorders nothing: the port numbers are the
      three groups one after another, and picking out each kind of spec
      gives back exactly its group. */
  lemma OpenPortsGroups(encrypted: seq<int>, unencrypted: seq<int>, h2: seq<int>)
    ensures PortNumbers(OpenPorts(encrypted, unencrypted, h2)) == encrypted + unencrypted + h2
    ensures PortNumbers(OfKind(OpenPorts(encrypted, unencrypted, h2), false, DefaultTunnel)) == encrypted
    ensures PortNumbers(OfKind(OpenPorts(encrypted, unencrypted, h2), true, DefaultTunnel)) == unencrypted
    ensures PortNumbers(OfKind(OpenPorts(encrypted, unencrypted, h2), false, H2Tunnel)) == h2
  {
    var a, b, c := Specs(encrypted, false, DefaultTunnel), Specs(unencrypted, true, DefaultTunnel), Specs(h2, false, H2Tunnel);
    assert PortNumbers(a + b + c) == encrypted + unencrypted + h2;
    EncryptedGroup(encrypted, unencrypted, h2);
    UnencryptedGroup(encrypted, unencrypted, h2);
    H2Group(encrypted, unencrypted, h2);
  }

  lemma EncryptedGroup(encrypted: seq<int>, unencrypted: seq<int>, h2: seq<int>)
    ensures OfKind(OpenPorts(encrypted, unencrypted, h2), false, DefaultTunnel) == Specs(encrypted, false, DefaultTunnel)
  {
    var a, b, c := Specs(encrypted, false, DefaultTunnel), Specs(unencrypted, true, DefaultTunnel), Specs(h2, false, H2Tunnel);
    assert OpenPorts(encrypted, unencrypted, h2) == (a + b) + c;
    OfKindAppend(a + b, c, false, DefaultTunnel);
    OfKindAppend(a, b, false, DefaultTunnel);
    OfKindSame(encrypted, false, DefaultTunnel);
    OfKindOther(unencrypted, true, DefaultTunnel, false, DefaultTunnel);
    OfKindOther(h2, false, H2Tunnel, false, DefaultTunnel);
    calc {
      OfKind((a + b) + c, false, DefaultTunnel);
      (OfKind(a, false, DefaultTunnel) + OfKind(b, false, DefaultTunnel)) + OfKind(c, false, DefaultTunnel);
      (a + []) + [];
      { assert (a + []) + [] == a; }
      a;
    }
  }

  lemma UnencryptedGroup(encrypted: seq<int>, unencrypted: seq<int>, h2: seq<int>)
    ensures OfKind(OpenPorts(encrypted, unencrypted, h2), true, DefaultTunnel) == Specs(unencrypted, true, DefaultTunnel)
  {
    var a, b, c := Specs(encrypted, false, DefaultTunnel), Specs(unencrypted, true, DefaultTunnel), Specs(h2, false, H2Tunnel);
    assert OpenPorts(encrypted, unencrypted, h2) == (a + b) + c;
    OfKindAppend(a + b, c, true, DefaultTunnel);
    OfKindAppend(a, b, true, DefaultTunnel);
    OfKindSame(unencrypted, true, DefaultTunnel);
    OfKindOther(encrypted, false, DefaultTunnel, true, DefaultTunnel);
    OfKindOther(h2, false, H2Tunnel, true, DefaultTunnel);
    calc {
      OfKind((a + b) + c, true, DefaultTunnel);
      (OfKind(a, true, DefaultTunnel) + OfKind(b, true, DefaultTunnel)) + OfKind(c, true, DefaultTunnel);
      ([] + b) + [];
      { assert ([] + b) + [] == b; }
      b;
    }
  }

  lemma H2Group(encrypted: seq<int>, unencrypted: seq<int>, h2: seq<int>)
    ensures OfKind(OpenPorts(encrypted, unencrypted, h2), false, H2Tunnel) == Specs(h2, false, H2Tunnel)
  {
    var a, b, c := Specs(encrypted, false, DefaultTunnel), Specs(unencrypted, true, DefaultTunnel), Specs(h2, false, H2Tunnel);
    assert OpenPorts(encrypted, unencrypted, h2) == (a + b) + c;
    OfKindAppend(a + b, c, false, H2Tunnel);
    OfKindAppend(a, b, false, H2Tunnel);
    OfKindSame(h2, false, H2Tunnel);
    OfKindOther(encrypted, false, DefaultTunnel, false, H2Tunnel);
    OfKindOther(unencrypted, true, DefaultTunnel, false, H2Tunnel);
    calc {
      OfKind((a + b) + c, false, H2Tunnel);
      (OfKind(a, false, H2Tunnel) + OfKind(b, false, H2Tunnel)) + OfKind(c, false, H2Tunnel);
      ([] + []) + c;
      { assert ([] + []) + c == c; }
      c;
    }
  }

  lemma {:induction false} OfKindAppend(a: seq<PortSpec>, b: seq<PortSpec>, unencrypted: bool, tunnel: TunnelType)
    ensures OfKind(a + b, unencrypted, tunnel) == OfKind(a, unencrypted, tunnel) + OfKind(b, unencrypted, tunnel)
    decreases |a|
  {
    if |a| > 0 {
      assert (a + b)[0] == a[0] && (a + b)[1..] == a[1..] + b;
      OfKindAppend(a[1..], b, unencrypted, tunnel);
    } else {
      assert a + b == b;
    }
  }

  lemma {:induction false} OfKindSame(ports: seq<int>, unencrypted: bool, tunnel: TunnelType)
    ensures OfKind(Specs(ports, unencrypted, tunnel), unencrypted, tunnel) == Specs(ports, unencrypted, tunnel)
    decreases |ports|
  {
    if |ports| > 0 {
      assert Specs(ports, unencrypted, tunnel)[1..] == Specs(ports[1..], unencrypted, tunnel);
      OfKindSame(ports[1..], unencrypted, tunnel);
    }
  }

  lemma {:induction false} OfKindOther(ports: seq<int>, unencrypted: bool, tunnel: TunnelType,
                                       otherUnencrypted: bool, otherTunnel: TunnelType)
    requires unencrypted != otherUnencrypted || tunnel != otherTunnel
    ensures OfKind(Specs(ports, unencrypted, tunnel), otherUnencrypted, otherTunnel) == []
    decreases |ports|
  {
    if |ports| > 0 {
      assert Specs(ports, unencrypted, tunnel)[1..] == Specs(ports[1..], unencrypted, tunnel);
      OfKindOther(ports[1..], unencrypted, tunnel, otherUnencrypted, otherTunnel);
    }
  }

  /** The checks of `Sandbox._new` and of its loader, in the order they run:
      region against placement, a GPU list, the workdir, then the network
      choice (made when the sandbox is loaded). */
  function NewDefinition(region: RegionArg, placement: Option<SchedulerPlacement>, gpu: GpuArg,
                         workdir: Option<string>, blockNetwork: bool, cidrAllowlist: Option<seq<string>>,
                         encrypted: seq<int>, unencrypted: seq<int>, h2: seq<int>): (r: Result<Definition>)
    ensures r.Ok? <==>
      !(RegionGiven(region) && placement.Some?) && !gpu.GpuList?
      && ValidateWorkdir(workdir).Ok? && !(blockNetwork && cidrAllowlist.Some?)
    ensures r.Err? ==> r.error == InvalidError
    ensures r.Ok? ==>
      (r.value.openPorts == OpenPorts(encrypted, unencrypted, h2)
       && r.value.workdir == workdir
       && Ok(r.value.networkAccess) == ChooseNetworkAccess(blockNetwork, cidrAllowlist)
       && Ok(r.value.schedulerPlacement) == Placement(region, placement))
  {
    var schedulerPlacement :- Placement(region, placement);
    if gpu.GpuList? then Err(InvalidError)
    else
      var _ :- ValidateWorkdir(workdir);
      var networkAccess :- ChooseNetworkAccess(blockNetwork, cidrAllowlist);
      Ok(Definition(schedulerPlacement, workdir, OpenPorts(encrypted, unencrypted, h2), networkAccess))
  }

  // ---------------------------------------------------------------------
  // Status and exit codes

  /** `GenericResult.GenericStatus`; `Unspecified` is the falsy zero. */
  datatype GenericStatus = Unspecified | Success | Failure | Terminated | Timeout | InitFailure | InternalFailure

  datatype GenericResult = GenericResult(status: GenericStatus, exitcode: int)

  const TIMEOUT_EXIT_CODE: int := 124
  const TERMINATED_EXIT_CODE: int := 137

  /** The `returncode` property: no code before a result with a status, the
      shell's codes for a timeout and for termination, else the exit code. */
  function ReturnCode(result: Option<GenericResult>): (r: Option<int>)
    ensures r.None? <==> result.None? || result.value.status == Unspecified
    ensures r.Some? && result.value.status == Timeout ==> r.value == TIMEOUT_EXIT_CODE
    ensures r.Some? && result.value.status == Terminated ==> r.value == TERMINATED_EXIT_CODE
    ensures r.Some? && result.value.status !in {Timeout, Terminated} ==> r.value == result.value.exitcode
  {
    if result.None? || result.value.status == Unspecified then None
    else if result.value.status == Timeout then Some(TIMEOUT_EXIT_CODE)
    else if result.value.status == Terminated then Some(TERMINATED_EXIT_CODE)
    else Some(result.value.exitcode)
  }

  /** What `wait()` leaves behind after the given `SandboxWait` answers:
      the stored result (none while every answer is still unspecified, when
      the real loop keeps asking) and whether it raised. */
  datatype WaitOutcome = WaitOutcome(stored: Option<GenericResult>, raised: Option<Error>)

  /** `wait()`: the first answer with a status is stored; a timeout always
      raises, a termination raises only when asked to. */
  function Wait(answers: seq<GenericResult>, raiseOnTermination: bool): (r: WaitOutcome)
    ensures (forall k | 0 <= k < |answers| :: answers[k].status == Unspecified) ==> r == WaitOutcome(None, None)
    ensures r.stored.None? ==> forall k | 0 <= k < |answers| :: answers[k].status == Unspecified
    ensures r.stored.Some? ==>
      (r.stored.value.status != Unspecified
       && exists k | 0 <= k < |answers| ::
            (answers[k] == r.stored.value && forall j | 0 <= j < k :: answers[j].status == Unspecified))
    ensures r.raised.Some? <==>
      (r.stored.Some? &&
       (r.stored.value.status == Timeout || (r.stored.value.status == Terminated && raiseOnTermination)))
    ensures r.raised.Some? ==>
      r.raised.value == (if r.stored.value.status == Timeout then SandboxTimeoutError else SandboxTerminatedError)
  {
    if |answers| == 0 then WaitOutcome(None, None)
    else if answers[0].status == Unspecified then
      var rest := Wait(answers[1..], raiseOnTermination);
      assert forall j | 1 <= j < |answers| :: answers[j] == answers[1..][j - 1];
      rest
    else if answers[0].status == Timeout then WaitOutcome(Some(answers[0]), Some(SandboxTimeoutError))
    else if answers[0].status == Terminated && raiseOnTermination then
      WaitOutcome(Some(answers[0]), Some(SandboxTerminatedError))
    else WaitOutcome(Some(answers[0]), None)
  }

  /** After `wait()` stops, raising or not, `returncode` is set; a timeout
      reads as 124 and a termination as 137 whether or not it raised. */
  lemma WaitSetsReturnCode(answers: seq<GenericResult>, raiseOnTermination: bool)
    requires exists k | 0 <= k < |answers| :: answers[k].status != Unspecified
    ensures var r := Wait(answers, raiseOnTermination);
      ReturnCode(r.stored).Some?
      && (r.raised == Some(SandboxTimeoutError) ==> ReturnCode(r.stored) == Some(TIMEOUT_EXIT_CODE))
      && (r.raised == Some(SandboxTerminatedError) ==> ReturnCode(r.stored) == Some(TERMINATED_EXIT_CODE))
      && (r.raised.None? ==> r.stored.value.status != Timeout)
  {
  }

  // ---------------------------------------------------------------------
  // exec

  /** What `exec` sends and how it sets up the process handle. */
  datatype Exec = Exec(command: seq<string>, timeoutSecs: int, workdir: Option<string>,
                       byLine: bool, process: ContainerProcess.Process)

  /** `exec_deadline`: the clock plus the timeout and the buffer, or none
      when there is no (or a zero) timeout.  Any other integer is truthy, so
      a negative timeout still gives a deadline, earlier than the clock plus
      the buffer. */
  function ExecDeadline(now: real, timeout: Option<int>): (r: Option<real>)
    ensures r.None? <==> timeout.None? || timeout.value == 0
    ensures r.Some? ==> r.value == now + (timeout.value + CONTAINER_EXEC_TIMEOUT_BUFFER) as real
  {
    if timeout.None? || timeout.value == 0 then None
    else Some(now + timeout.value as real + CONTAINER_EXEC_TIMEOUT_BUFFER as real)
  }

  /** `Sandbox.exec` up to the request: the workdir is checked before the
      arguments; the process starts without a code, with the deadline
      above, reading line by line iff `bufsize == 1`. */
  function StartExec(args: seq<Arg>, workdir: Option<string>, timeout: Option<int>,
                     bufsize: int, now: real): (r: Result<Exec>)
    ensures r.Ok? <==> ValidateWorkdir(workdir).Ok? && ValidateExecArgs(args).Ok?
    ensures r.Err? ==> r.error == InvalidError
    ensures r.Ok? ==>
      |r.value.command| == |args| && (forall k | 0 <= k < |args| :: args[k] == StrArg(r.value.command[k]))
      && r.value.timeoutSecs == (if timeout.Some? then timeout.value else 0)
      && r.value.workdir == workdir
      && (r.value.byLine <==> bufsize == 1)
      && r.value.process.returnCode.None?
      && r.value.process.execDeadline == ExecDeadline(now, timeout)
  {
    var _ :- ValidateWorkdir(workdir);
    var _ :- ValidateExecArgs(args);
    var command := seq(|args|, k requires 0 <= k < |args| => args[k].s);
    Ok(Exec(command, if timeout.Some? then timeout.value else 0, workdir, bufsize == 1,
            ContainerProcess.NewProcess(ExecDeadline(now, timeout))))
  }

  /** A timeout of -5 seconds or less puts the deadline at or before the
      moment of the call, so the first `poll()` already returns -1 (unless
      the deadline happens to be exactly 0.0, which reads as no deadline). */
  lemma NegativeTimeoutExpires(args: seq<Arg>, workdir: Option<string>, timeout: int, bufsize: int, now: real,
                               resp: ContainerProcess.WaitResponse)
    requires StartExec(args, workdir, Some(timeout), bufsize, now).Ok?
    requires timeout + CONTAINER_EXEC_TIMEOUT_BUFFER <= 0
    requires now + (timeout + CONTAINER_EXEC_TIMEOUT_BUFFER) as real != 0.0
    ensures StartExec(args, workdir, Some(timeout), bufsize, now).value.timeoutSecs == timeout
    ensures ContainerProcess.Poll(StartExec(args, workdir, Some(timeout), bufsize, now).value.process, now, resp).1
            == Some(ContainerProcess.DEADLINE_EXCEEDED)
  {
  }

  /** A process started with a timeout cannot outlive it: a `poll()` at or
      after `now + timeout + 5` returns -1 without asking the server. */
  lemma ExecTimesOut(args: seq<Arg>, workdir: Option<string>, timeout: nat, bufsize: int, now: real,
                     later: real, resp: ContainerProcess.WaitResponse)
    requires StartExec(args, workdir, Some(timeout), bufsize, now).Ok?
    requires timeout > 0 && now >= 0.0
    requires later >= now + (timeout + CONTAINER_EXEC_TIMEOUT_BUFFER) as real
    ensures ContainerProcess.Poll(StartExec(args, workdir, Some(timeout), bufsize, now).value.process, later, resp).1
            == Some(ContainerProcess.DEADLINE_EXCEEDED)
  {
  }
}
