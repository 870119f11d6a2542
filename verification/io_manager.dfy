/** The input/output bookkeeping of the container IO manager
    (modal/_runtime/container_io_manager.py): concurrency configuration,
    `IOContext` creation, cancellation and batched argument binding, output
    validation, result items and their chunking, `exit_context`, the
    generator data-out sender and the input-fetching generator.

    Server responses, deserialized payloads and the serializer are inputs;
    timestamps, logging and retries are left out. */
module IoManager {
  import opened Errors
  import opened Collections
  import InputSlots
  import Blob

  /** Outputs per `FunctionPutOutputs` request. */
  const OUTPUT_BATCH_SIZE: nat := 20
  /** A data-out request stops growing once its estimated size reaches this. */
  const DATA_OUT_SIZE_LIMIT: nat := 16 * 1024 * 1024
  /** Estimated framing overhead counted per data-out message. */
  const DATA_OUT_FRAMING: nat := 512

  // ---------------------------------------------------------------------
  // Concurrency configuration and the get/set API

  datatype ConcurrencyConfig = ConcurrencyConfig(maxConcurrency: int, targetConcurrency: int)

  /** `_init`: a PTY shell runs one input at a time; otherwise an unset (zero)
      maximum means 1 and an unset target means the maximum. */
  function InitConcurrency(ptyShell: bool, maxConcurrentInputs: nat, targetConcurrentInputs: nat)
    : (c: ConcurrencyConfig)
    ensures c.maxConcurrency >= 1 && c.targetConcurrency >= 1
    ensures ptyShell ==> c.maxConcurrency == 1 && c.targetConcurrency == 1
    ensures !ptyShell && maxConcurrentInputs > 0 ==> c.maxConcurrency == maxConcurrentInputs
    ensures !ptyShell && targetConcurrentInputs > 0 ==> c.targetConcurrency == targetConcurrentInputs
    ensures !ptyShell && targetConcurrentInputs == 0 ==> c.targetConcurrency == c.maxConcurrency
  {
    if ptyShell then ConcurrencyConfig(1, 1)
    else
      var mx := if maxConcurrentInputs == 0 then 1 else maxConcurrentInputs;
      ConcurrencyConfig(mx, if targetConcurrentInputs == 0 then mx else targetConcurrentInputs)
  }

  /** `input_concurrency_enabled`. */
  predicate InputConcurrencyEnabled(c: ConcurrencyConfig)
  {
    c.maxConcurrency > 1 || c.targetConcurrency > 1
  }

  /** The manager state the bookkeeping touches.  `currentInputs` maps an
      input id to the identity of its IOContext. */
  datatype Manager = Manager(
    config: ConcurrencyConfig,
    stopConcurrencyLoop: bool,
    currentInputs: map<string, nat>,
    callsCompleted: nat,
    slots: InputSlots.Slots)

  /** A freshly initialised manager: the slots start at the target. */
  function InitManager(ptyShell: bool, maxConcurrentInputs: nat, targetConcurrentInputs: nat): (m: Manager)
    ensures m.slots.value == m.config.targetConcurrency >= 1
    ensures m.slots.active == 0 && !m.slots.waiter && !m.slots.closed
    ensures m.currentInputs == map[] && m.callsCompleted == 0
    ensures m.config == InitConcurrency(ptyShell, maxConcurrentInputs, targetConcurrentInputs)
  {
    var c := InitConcurrency(ptyShell, maxConcurrentInputs, targetConcurrentInputs);
    Manager(c, false, map[], 0, InputSlots.Init(c.targetConcurrency))
  }

  /** `get_input_concurrency`: the usable slots, which may be the active
      count when the target was lowered below it. */
  function GetInputConcurrency(m: Manager): (r: int)
    ensures r >= m.slots.active && r >= m.slots.value
    ensures r == m.slots.active || r == m.slots.value
  {
    if m.slots.active > m.slots.value then m.slots.active else m.slots.value
  }

  /** `set_input_concurrency`: stop the automatic loop and set the target,
      clamped to the maximum concurrency. */
  function SetInputConcurrency(m: Manager, concurrency: int): (r: Manager)
    ensures r.stopConcurrencyLoop
    ensures r.config == m.config && r.currentInputs == m.currentInputs
    ensures m.slots.closed ==> r.slots == m.slots
    ensures !m.slots.closed ==> r.slots.value <= m.config.maxConcurrency
    ensures !m.slots.closed && concurrency <= m.config.maxConcurrency ==> r.slots.value == concurrency
    ensures !m.slots.closed && concurrency > m.config.maxConcurrency ==> r.slots.value == m.config.maxConcurrency
    ensures r.slots.active >= m.slots.active
  {
    var c := if concurrency < m.config.maxConcurrency then concurrency else m.config.maxConcurrency;
    m.(stopConcurrencyLoop := true, slots := InputSlots.SetValue(m.slots, c))
  }

  // ---------------------------------------------------------------------
  // IOContext

  /** One call's deserialized `(args, kwargs)`; `kwargs` keeps the dict order. */
  datatype Call<V> = Call(args: seq<V>, kwargs: seq<(string, V)>)

  /** A Python dict has distinct keys. */
  predicate WellFormedCall<V>(c: Call<V>)
  {
    Distinct(Keys(c.kwargs))
  }

  /** `deserialize(input.args) if input.args else ((), {})`. */
  function Deserialized<V>(payload: Option<Call<V>>): Call<V>
  {
    payload.GetOr(Call([], []))
  }

  datatype FunctionInput<V> = FunctionInput(methodName: string, args: Option<Call<V>>, finalInput: bool)

  /** One fetched input: `(input_id, retry_count, function_call_id, input)`. */
  datatype FetchedInput<V> = FetchedInput(
    inputId: string, retryCount: int, functionCallId: string, input: FunctionInput<V>)

  datatype CancelState = CancelState(issued: bool, hasCallback: bool, callbackRuns: nat)

  datatype IOContext<V> = IOContext(
    inputIds: seq<string>,
    retryCounts: seq<int>,
    functionCallIds: seq<string>,
    methodName: string,
    payloads: seq<Option<Call<V>>>,
    batched: bool,
    cancel: CancelState)

  /** What `IOContext.create` guarantees about a context. */
  predicate WellFormedContext<V>(ctx: IOContext<V>)
  {
    |ctx.inputIds| >= 1
    && |ctx.retryCounts| == |ctx.inputIds| == |ctx.functionCallIds| == |ctx.payloads|
    && (ctx.batched || |ctx.inputIds| == 1)
  }

  /** `IOContext.create`: unzip the fetched inputs; a batch must be
      non-empty, an unbatched context holds exactly one input, all inputs
      must target the same method, and that method must be known. */
  function CreateContext<V>(inputs: seq<FetchedInput<V>>, batched: bool, methods: set<string>)
    : (r: Result<IOContext<V>>)
    ensures r.Ok? <==>
      (if batched then |inputs| >= 1 else |inputs| == 1)
      && (forall i | 0 <= i < |inputs| :: inputs[i].input.methodName == inputs[0].input.methodName)
      && inputs[0].input.methodName in methods
    ensures r.Err? ==> r.error == AssertionError || r.error == KeyError
    ensures r.Ok? ==> WellFormedContext(r.value) && r.value.batched == batched
    ensures r.Ok? ==> |r.value.inputIds| == |inputs|
    ensures r.Ok? ==> forall i | 0 <= i < |inputs| ::
      r.value.inputIds[i] == inputs[i].inputId
      && r.value.retryCounts[i] == inputs[i].retryCount
      && r.value.payloads[i] == inputs[i].input.args
    ensures r.Ok? ==> r.value.methodName == inputs[0].input.methodName
    ensures r.Ok? ==> !r.value.cancel.issued && !r.value.cancel.hasCallback
  {
    if !(if batched then |inputs| >= 1 else |inputs| == 1) then Err(AssertionError)
    else if exists i | 0 <= i < |inputs| :: inputs[i].input.methodName != inputs[0].input.methodName then
      Err(AssertionError)
    else if inputs[0].input.methodName !in methods then Err(KeyError)
    else
      Ok(IOContext(
        seq(|inputs|, i requires 0 <= i < |inputs| => inputs[i].inputId),
        seq(|inputs|, i requires 0 <= i < |inputs| => inputs[i].retryCount),
        seq(|inputs|, i requires 0 <= i < |inputs| => inputs[i].functionCallId),
        inputs[0].input.methodName,
        seq(|inputs|, i requires 0 <= i < |inputs| => inputs[i].input.args),
        batched,
        CancelState(false, false, 0)))
  }

  /** `set_cancel_callback`. */
  function SetCancelCallback(c: CancelState): (r: CancelState)
    ensures r.hasCallback && r.issued == c.issued && r.callbackRuns == c.callbackRuns
  {
    c.(hasCallback := true)
  }

  /** `IOContext.cancel`: run the callback only if none was issued yet; with
      no callback attached the cancel is only logged and stays un-issued. */
  function Cancel(c: CancelState): (r: CancelState)
    ensures c.issued ==> r == c
    ensures !c.issued && c.hasCallback ==> r.issued && r.callbackRuns == c.callbackRuns + 1
    ensures !c.hasCallback ==> r == c
    ensures r.hasCallback == c.hasCallback
  {
    if c.issued then c
    else if c.hasCallback then c.(issued := true, callbackRuns := c.callbackRuns + 1)
    else c
  }

  datatype CancelEvent = AttachCallback | CancelSignal

  function ReplayCancel(c: CancelState, events: seq<CancelEvent>): CancelState
    decreases |events|
  {
    if |events| == 0 then c
    else ReplayCancel(if events[0].AttachCallback? then SetCancelCallback(c) else Cancel(c), events[1..])
  }

  /** However callbacks are attached and cancellations delivered, the
      callback runs at most once, and exactly when the cancel is issued. */
  lemma {:induction false} CancelAtMostOnce(c: CancelState, events: seq<CancelEvent>)
    requires c.callbackRuns == (if c.issued then 1 else 0)
    ensures var r := ReplayCancel(c, events);
      r.callbackRuns <= 1 && (r.issued <==> r.callbackRuns == 1)
    decreases |events|
  {
    if |events| > 0 {
      CancelAtMostOnce(if events[0].AttachCallback? then SetCancelCallback(c) else Cancel(c), events[1..]);
    }
  }

  // ---------------------------------------------------------------------
  // Batched argument binding (`_args_and_kwargs`)

  /** The three batch checks, stated directly: the argument count equals
      the parameter count, and every keyword names a parameter that was not
      already filled positionally. */
  predicate Accepts<V>(params: seq<string>, c: Call<V>)
  {
    |c.args| + |c.kwargs| == |params|
    && forall k | 0 <= k < |c.kwargs| ::
         c.kwargs[k].0 in params && c.kwargs[k].0 !in params[..|c.args|]
  }

  /** The value a call passes for parameter `j`. */
  function ArgumentFor<V>(params: seq<string>, c: Call<V>, j: int): Option<V>
    requires 0 <= j < |params|
  {
    if j < |c.args| then Some(c.args[j]) else Lookup(c.kwargs, params[j])
  }

  function BindPositional<V>(params: seq<string>, args: seq<V>): (m: map<string, V>)
    requires Distinct(params) && |args| <= |params|
    ensures m.Keys == ToSet(params[..|args|])
    ensures forall j | 0 <= j < |args| :: params[j] in m && m[params[j]] == args[j]
  {
    var m := map j | 0 <= j < |args| :: params[j] := args[j];
    assert forall x | x in ToSet(params[..|args|]) :: x in m by {
      forall x | x in ToSet(params[..|args|]) ensures x in m {
        var j :| 0 <= j < |args| && params[..|args|][j] == x;
        assert params[j] in m;
      }
    }
    forall j | 0 <= j < |args| ensures m[params[j]] == args[j] {
      assert forall i | 0 <= i < |args| && i != j :: params[i] != params[j];
    }
    m
  }

  /** The keyword loop: an unknown name, or a name already bound, raises. */
  function BindKeywords<V>(params: seq<string>, bound: map<string, V>, kw: seq<(string, V)>)
    : Result<map<string, V>>
    decreases |kw|
  {
    if |kw| == 0 then Ok(bound)
    else if kw[0].0 !in params then Err(InvalidError)
    else if kw[0].0 in bound then Err(InvalidError)
    else BindKeywords(params, bound[kw[0].0 := kw[0].1], kw[1..])
  }

  lemma {:induction false} BindKeywordsSpec<V>(params: seq<string>, bound: map<string, V>, kw: seq<(string, V)>)
    requires Distinct(Keys(kw))
    ensures var r := BindKeywords(params, bound, kw);
      (r.Ok? <==> forall k | 0 <= k < |kw| :: kw[k].0 in params && kw[k].0 !in bound)
      && (r.Err? ==> r.error == InvalidError)
      && (r.Ok? ==>
            r.value.Keys == bound.Keys + ToSet(Keys(kw))
            && (forall x | x in bound :: r.value[x] == bound[x])
            && (forall x | x in r.value && x !in bound :: Lookup(kw, x) == Some(r.value[x])))
    decreases |kw|
  {
    if |kw| > 0 {
      var rest := kw[1..];
      KeysHead(kw);
      var bound' := bound[kw[0].0 := kw[0].1];
      BindKeywordsSpec(params, bound', rest);
      if kw[0].0 in params && kw[0].0 !in bound {
        assert (forall k | 0 <= k < |kw| :: kw[k].0 in params && kw[k].0 !in bound)
          <==> (forall k | 0 <= k < |rest| :: rest[k].0 in params && rest[k].0 !in bound') by {
          forall k | 0 <= k < |rest| ensures rest[k] == kw[k + 1] { }
        }
      }
    }
  }

  /** The first keyword of a list with distinct names is not among the
      rest, which still have distinct names. */
  lemma KeysHead<V>(kw: seq<(string, V)>)
    requires |kw| > 0 && Distinct(Keys(kw))
    ensures Distinct(Keys(kw[1..]))
    ensures forall k | 0 <= k < |kw| - 1 :: kw[1..][k].0 != kw[0].0
    ensures ToSet(Keys(kw)) == {kw[0].0} + ToSet(Keys(kw[1..]))
  {
    assert Keys(kw[1..]) == Keys(kw)[1..];
    forall k | 0 <= k < |kw| - 1 ensures kw[1..][k].0 != kw[0].0 {
      assert Keys(kw)[0] != Keys(kw)[k + 1];
    }
    assert Keys(kw) == [kw[0].0] + Keys(kw[1..]);
  }

  /** Binding one call of a batch to the parameter names. */
  function Bind<V>(params: seq<string>, c: Call<V>): (r: Result<map<string, V>>)
    requires Distinct(params) && WellFormedCall(c)
    ensures r.Ok? <==> Accepts(params, c)
    ensures r.Err? ==> r.error == InvalidError
    ensures r.Ok? ==> BindsAll(params, c, r.value)
  {
    if |c.args| + |c.kwargs| != |params| then Err(InvalidError)
    else
      var pos := BindPositional(params, c.args);
      BindKeywordsSpec(params, pos, c.kwargs);
      var r := BindKeywords(params, pos, c.kwargs);
      BindCoversParams(params, c, pos, r);
      r
  }

  /** Every parameter of `params` is bound in `m` to the value the call passes. */
  ghost predicate BindsAll<V>(params: seq<string>, c: Call<V>, m: map<string, V>)
  {
    forall j | 0 <= j < |params| :: params[j] in m && Some(m[params[j]]) == ArgumentFor(params, c, j)
  }

  /** A successful binding fills every parameter: the positional names and
      the distinct keyword names are disjoint parts of the parameter list and
      together as many as the parameters. */
  lemma BindCoversParams<V>(params: seq<string>, c: Call<V>, pos: map<string, V>, r: Result<map<string, V>>)
    requires Distinct(params) && WellFormedCall(c)
    requires |c.args| + |c.kwargs| == |params|
    requires pos == BindPositional(params, c.args)
    requires r.Ok? <==> forall k | 0 <= k < |c.kwargs| :: c.kwargs[k].0 in params && c.kwargs[k].0 !in pos
    requires r.Ok? ==>
      r.value.Keys == pos.Keys + ToSet(Keys(c.kwargs))
      && (forall x | x in pos :: r.value[x] == pos[x])
      && (forall x | x in r.value && x !in pos :: Lookup(c.kwargs, x) == Some(r.value[x]))
    ensures r.Ok? <==> Accepts(params, c)
    ensures r.Ok? ==> BindsAll(params, c, r.value)
  {
    var a := |c.args|;
    assert pos.Keys == ToSet(params[..a]);
    if r.Ok? {
      var kwKeys := ToSet(Keys(c.kwargs));
      KeywordNamesFit(params, c, pos);
      DistinctCard(Keys(c.kwargs));
      PartsCoverParams(params, a, kwKeys);
      BoundValues(params, c, pos, r.value);
    }
  }

  /** When every keyword names a parameter not filled positionally, the
      keyword names are parameter names disjoint from the positional ones. */
  lemma KeywordNamesFit<V>(params: seq<string>, c: Call<V>, pos: map<string, V>)
    requires Distinct(params) && |c.args| <= |params| && pos == BindPositional(params, c.args)
    requires forall k | 0 <= k < |c.kwargs| :: c.kwargs[k].0 in params && c.kwargs[k].0 !in pos
    ensures ToSet(params[..|c.args|]) * ToSet(Keys(c.kwargs)) == {}
    ensures ToSet(Keys(c.kwargs)) <= ToSet(params)
  {
    var kwKeys := ToSet(Keys(c.kwargs));
    forall x | x in kwKeys ensures x !in ToSet(params[..|c.args|]) && x in ToSet(params) {
      var k :| 0 <= k < |c.kwargs| && Keys(c.kwargs)[k] == x;
      assert c.kwargs[k].0 !in pos && c.kwargs[k].0 in params;
    }
  }

  /** Every parameter is bound, to its positional or keyword argument. */
  lemma BoundValues<V>(params: seq<string>, c: Call<V>, pos: map<string, V>, m: map<string, V>)
    requires Distinct(params) && |c.args| <= |params| && pos == BindPositional(params, c.args)
    requires m.Keys == pos.Keys + ToSet(Keys(c.kwargs))
    requires ToSet(params[..|c.args|]) + ToSet(Keys(c.kwargs)) == ToSet(params)
    requires forall x | x in pos :: m[x] == pos[x]
    requires forall x | x in m && x !in pos :: Lookup(c.kwargs, x) == Some(m[x])
    ensures BindsAll(params, c, m)
  {
    var a := |c.args|;
    forall j | 0 <= j < |params|
      ensures params[j] in m && Some(m[params[j]]) == ArgumentFor(params, c, j)
    {
      assert params[j] in ToSet(params);
      if j < a {
        assert params[j] in pos;
      } else {
        assert params[j] !in pos;
      }
    }
  }

  /** The first `a` parameter names and a disjoint set of `|params| - a`
      further parameter names together are all the parameter names. */
  lemma PartsCoverParams(params: seq<string>, a: nat, kwKeys: set<string>)
    requires Distinct(params) && a <= |params|
    requires |kwKeys| == |params| - a && kwKeys <= ToSet(params)
    requires ToSet(params[..a]) * kwKeys == {}
    ensures ToSet(params[..a]) + kwKeys == ToSet(params)
  {
    DistinctPrefix(params, a);
    DistinctCard(params[..a]);
    DistinctCard(params);
    assert ToSet(params[..a]) <= ToSet(params);
    SubsetSameCard(ToSet(params[..a]) + kwKeys, ToSet(params));
  }

  lemma DistinctPrefix<T>(s: seq<T>, n: nat)
    requires Distinct(s) && n <= |s|
    ensures Distinct(s[..n])
  {
  }

  /** Bind every call of the batch in order; the first failure raises. */
  function BindAll<V>(params: seq<string>, calls: seq<Call<V>>): (r: Result<seq<map<string, V>>>)
    requires Distinct(params) && forall i | 0 <= i < |calls| :: WellFormedCall(calls[i])
    ensures r.Ok? <==> forall i | 0 <= i < |calls| :: Accepts(params, calls[i])
    ensures r.Err? ==> r.error == InvalidError
    ensures r.Ok? ==> |r.value| == |calls|
    ensures r.Ok? ==> forall i | 0 <= i < |calls| :: BindsAll(params, calls[i], r.value[i])
    decreases |calls|
  {
    if |calls| == 0 then Ok([])
    else
      var first := Bind(params, calls[0]);
      WellFormedTail(calls);
      var rest := BindAll(params, calls[1..]);
      AcceptsAllSplit(params, calls);
      if first.Err? then Err(first.error)
      else if rest.Err? then Err(rest.error)
      else
        BindsAllCons(params, calls, first.value, rest.value);
        Ok([first.value] + rest.value)
  }

  lemma WellFormedTail<V>(calls: seq<Call<V>>)
    requires |calls| > 0 && forall i | 0 <= i < |calls| :: WellFormedCall(calls[i])
    ensures forall i | 0 <= i < |calls| - 1 :: WellFormedCall(calls[1..][i])
  {
    assert forall i | 0 <= i < |calls| - 1 :: calls[1..][i] == calls[i + 1];
  }

  lemma AcceptsAllSplit<V>(params: seq<string>, calls: seq<Call<V>>)
    requires |calls| > 0
    ensures (forall i | 0 <= i < |calls| :: Accepts(params, calls[i]))
      <==> Accepts(params, calls[0]) && forall i | 0 <= i < |calls| - 1 :: Accepts(params, calls[1..][i])
  {
    assert forall i | 0 <= i < |calls| - 1 :: calls[1..][i] == calls[i + 1];
    if Accepts(params, calls[0]) && forall i | 0 <= i < |calls| - 1 :: Accepts(params, calls[1..][i]) {
      forall i | 0 <= i < |calls| ensures Accepts(params, calls[i]) {
        if i > 0 { assert calls[i] == calls[1..][i - 1]; }
      }
    }
  }

  lemma BindsAllCons<V>(params: seq<string>, calls: seq<Call<V>>, first: map<string, V>, rest: seq<map<string, V>>)
    requires |calls| > 0 && |rest| == |calls| - 1
    requires BindsAll(params, calls[0], first)
    requires forall i | 0 <= i < |calls| - 1 :: BindsAll(params, calls[1..][i], rest[i])
    ensures forall i | 0 <= i < |calls| :: BindsAll(params, calls[i], ([first] + rest)[i])
  {
    var v := [first] + rest;
    forall i | 0 <= i < |calls| ensures BindsAll(params, calls[i], v[i]) {
      if i > 0 {
        assert v[i] == rest[i - 1];
        assert calls[i] == calls[1..][i - 1];
      }
    }
  }

  /** The shape `_args_and_kwargs` returns: the single call's own args and
      kwargs, or no positional arguments and one list per parameter. */
  datatype Invocation<V> =
    | Invoke(args: seq<V>, kwargs: seq<(string, V)>)
    | InvokeBatched(columns: seq<(string, seq<V>)>)

  /** `IOContext._args_and_kwargs` over the deserialized payloads of a
      context, with `params` the parameter names of the user function. */
  function ArgsAndKwargs<V>(ctx: IOContext<V>, params: seq<string>): (r: Result<Invocation<V>>)
    requires WellFormedContext(ctx) && Distinct(params)
    requires forall i | 0 <= i < |ctx.payloads| :: WellFormedCall(Deserialized(ctx.payloads[i]))
    ensures !ctx.batched ==>
      r == Ok(Invoke(Deserialized(ctx.payloads[0]).args, Deserialized(ctx.payloads[0]).kwargs))
    ensures ctx.batched ==>
      (r.Ok? <==> forall i | 0 <= i < |ctx.payloads| :: Accepts(params, Deserialized(ctx.payloads[i])))
    ensures r.Err? ==> r.error == InvalidError
    ensures ctx.batched && r.Ok? ==>
      r.value.InvokeBatched? && |r.value.columns| == |params|
      && forall j | 0 <= j < |params| ::
           r.value.columns[j].0 == params[j] && |r.value.columns[j].1| == |ctx.payloads|
           && forall i | 0 <= i < |ctx.payloads| ::
                Some(r.value.columns[j].1[i]) == ArgumentFor(params, Deserialized(ctx.payloads[i]), j)
  {
    var calls := seq(|ctx.payloads|, i requires 0 <= i < |ctx.payloads| => Deserialized(ctx.payloads[i]));
    assert forall i | 0 <= i < |calls| :: calls[i] == Deserialized(ctx.payloads[i]);
    if !ctx.batched then Ok(Invoke(calls[0].args, calls[0].kwargs))
    else
      var bound := BindAll(params, calls);
      if bound.Err? then Err(bound.error)
      else
        var b := bound.value;
        Ok(InvokeBatched(seq(|params|, j requires 0 <= j < |params| =>
          (params[j], seq(|b|, i requires 0 <= i < |b| => b[i][params[j]])))))
  }

  // ---------------------------------------------------------------------
  // Outputs

  /** A user return value, as far as output validation looks at it. */
  datatype PyObject<V> = PyList(items: seq<PyObject<V>>) | Atom(v: V)

  /** `IOContext.validate_output_data`. */
  function ValidateOutputData<V>(ctx: IOContext<V>, data: PyObject<V>): (r: Result<seq<PyObject<V>>>)
    ensures !ctx.batched ==> r == Ok([data])
    ensures ctx.batched ==> (r.Ok? <==> data.PyList? && |data.items| == |ctx.inputIds|)
    ensures ctx.batched && r.Ok? ==> r.value == data.items
    ensures r.Err? ==> r.error == InvalidError
    ensures WellFormedContext(ctx) && r.Ok? ==> |r.value| == |ctx.inputIds|
  {
    if !ctx.batched then Ok([data])
    else if !data.PyList? then Err(InvalidError)
    else if |data.items| != |ctx.inputIds| then Err(InvalidError)
    else Ok(data.items)
  }

  datatype Status = Success | Failure | Terminated

  /** Where a result's bytes travel: inline, or as an uploaded blob whose id
      refers to these bytes. */
  datatype DataPart = InlineData(bytes: Bytes) | BlobData(bytes: Bytes)

  /** `format_blob_data`: payloads above the object-size limit go to a blob. */
  function FormatBlobData(data: Bytes): (r: DataPart)
    ensures r.bytes == data
    ensures r.InlineData? <==> |data| <= Blob.MAX_OBJECT_SIZE_BYTES
  {
    if |data| > Blob.MAX_OBJECT_SIZE_BYTES then BlobData(data) else InlineData(data)
  }

  /** The `exception` text of a failure: the repr itself, or its kept
      prefix and the number of characters reported as trimmed (rendered as
      `"{kept}...\nTrimmed {n} bytes from original exception"`). */
  datatype ExceptionText = FullText(text: string) | TrimmedText(kept: string, reportedTrimmed: int)

  /** The trimming in `handle_input_exception` as written: the prefix is
      `MAX_OBJECT_SIZE_BYTES - 1000` characters long, but the reported count
      subtracts 1000 instead of adding it. */
  function TrimReprAsWritten(repr: string): (r: ExceptionText)
    ensures |repr| < Blob.MAX_OBJECT_SIZE_BYTES ==> r == FullText(repr)
    ensures |repr| >= Blob.MAX_OBJECT_SIZE_BYTES ==>
      r.TrimmedText? && r.kept == repr[..Blob.MAX_OBJECT_SIZE_BYTES - 1000]
      && r.reportedTrimmed == |repr| - Blob.MAX_OBJECT_SIZE_BYTES - 1000
  {
    if |repr| >= Blob.MAX_OBJECT_SIZE_BYTES then
      TrimmedText(repr[..Blob.MAX_OBJECT_SIZE_BYTES - 1000], |repr| - Blob.MAX_OBJECT_SIZE_BYTES - 1000)
    else FullText(repr)
  }

  /** The reported count of the as-written trimming is always 2000 short of
      what was removed; at the threshold it is negative. */
  lemma TrimReprAsWrittenMiscounts(repr: string)
    requires |repr| >= Blob.MAX_OBJECT_SIZE_BYTES
    ensures var r := TrimReprAsWritten(repr);
      r.reportedTrimmed == (|repr| - |r.kept|) - 2000
    ensures |repr| == Blob.MAX_OBJECT_SIZE_BYTES ==> TrimReprAsWritten(repr).reportedTrimmed == -1000
  {
  }

  /** The trimming with the count it evidently means to report. */
  function TrimRepr(repr: string): (r: ExceptionText)
    ensures |repr| < Blob.MAX_OBJECT_SIZE_BYTES ==> r == FullText(repr)
    ensures r.TrimmedText? ==>
      |repr| >= Blob.MAX_OBJECT_SIZE_BYTES
      && r.kept <= repr
      && |r.kept| == Blob.MAX_OBJECT_SIZE_BYTES - 1000
      && r.reportedTrimmed == |repr| - |r.kept| > 0
  {
    if |repr| >= Blob.MAX_OBJECT_SIZE_BYTES then
      var kept := repr[..Blob.MAX_OBJECT_SIZE_BYTES - 1000];
      TrimmedText(kept, |repr| - (Blob.MAX_OBJECT_SIZE_BYTES - 1000))
    else FullText(repr)
  }

  datatype GenericResult = GenericResult(status: Status, data: Option<DataPart>, exception: Option<ExceptionText>)

  datatype OutputItem = OutputItem(inputId: string, retryCount: int, result: GenericResult)

  /** The items of `_push_outputs`: `zip(input_ids, retry_counts, results)`,
      which stops at the shortest of the three. */
  function OutputItems<V>(ctx: IOContext<V>, results: seq<GenericResult>): (r: seq<OutputItem>)
    ensures |r| <= |results| && |r| <= |ctx.inputIds| && |r| <= |ctx.retryCounts|
    ensures |r| == |results| || |r| == |ctx.inputIds| || |r| == |ctx.retryCounts|
    ensures forall k | 0 <= k < |r| ::
      r[k] == OutputItem(ctx.inputIds[k], ctx.retryCounts[k], results[k])
  {
    var n := if |results| < |ctx.inputIds| then |results| else |ctx.inputIds|;
    var n := if |ctx.retryCounts| < n then |ctx.retryCounts| else n;
    seq(n, k requires 0 <= k < n => OutputItem(ctx.inputIds[k], ctx.retryCounts[k], results[k]))
  }

  /** The `FunctionPutOutputs` requests: the items in chunks of 20. */
  function OutputRequests(items: seq<OutputItem>): (r: seq<seq<OutputItem>>)
    ensures Flatten(r) == items
    ensures forall k | 0 <= k < |r| :: 0 < |r[k]| <= OUTPUT_BATCH_SIZE
    ensures forall k | 0 <= k < |r| - 1 :: |r[k]| == OUTPUT_BATCH_SIZE
  {
    Chunks(items, OUTPUT_BATCH_SIZE)
  }

  /** `run_inputs_outputs` records the context under each of its input ids. */
  function Register(m: Manager, ctxId: nat, ids: seq<string>): (r: Manager)
    ensures r.currentInputs.Keys == m.currentInputs.Keys + ToSet(ids)
    ensures forall id | id in ToSet(ids) :: r.currentInputs[id] == ctxId
    ensures forall id | id in m.currentInputs && id !in ToSet(ids) :: r.currentInputs[id] == m.currentInputs[id]
    ensures r.callsCompleted == m.callsCompleted && r.slots == m.slots && r.config == m.config
    decreases |ids|
  {
    if |ids| == 0 then m
    else Register(m.(currentInputs := m.currentInputs[ids[0] := ctxId]), ctxId, ids[1..])
  }

  /** What the pops of `exit_context` leave: the table after the `count`
      pops that succeeded, and whether a further pop raised KeyError. */
  datatype Popped = Popped(left: map<string, nat>, count: nat, failed: bool)

  /** The pops of `exit_context`, in order: a missing id raises KeyError
      with the earlier pops already done, so a repeated id fails on its
      second pop. */
  function PopAll(current: map<string, nat>, ids: seq<string>): (r: Popped)
    ensures r.failed <==> !(Distinct(ids) && ToSet(ids) <= current.Keys)
    ensures r.count <= |ids| && (r.failed <==> r.count < |ids|)
    ensures Distinct(ids[..r.count]) && ToSet(ids[..r.count]) <= current.Keys
    ensures r.left == current - ToSet(ids[..r.count])
    ensures r.failed ==> ids[r.count] !in r.left
    decreases |ids|
  {
    if |ids| == 0 then Popped(current, 0, false)
    else if ids[0] !in current then
      assert ids[..0] == [];
      Popped(current, 0, true)
    else
      var rest := PopAll(current - {ids[0]}, ids[1..]);
      PopStep(current, ids, rest);
      Popped(rest.left, rest.count + 1, rest.failed)
  }

  /** One successful pop followed by the pops of the remaining ids. */
  lemma PopStep(current: map<string, nat>, ids: seq<string>, rest: Popped)
    requires |ids| > 0 && ids[0] in current
    requires rest.failed <==> !(Distinct(ids[1..]) && ToSet(ids[1..]) <= (current - {ids[0]}).Keys)
    requires rest.count <= |ids| - 1 && (rest.failed <==> rest.count < |ids| - 1)
    requires Distinct(ids[1..][..rest.count]) && ToSet(ids[1..][..rest.count]) <= (current - {ids[0]}).Keys
    requires rest.left == (current - {ids[0]}) - ToSet(ids[1..][..rest.count])
    requires rest.failed ==> ids[1..][rest.count] !in rest.left
    ensures rest.failed <==> !(Distinct(ids) && ToSet(ids) <= current.Keys)
    ensures Distinct(ids[..rest.count + 1]) && ToSet(ids[..rest.count + 1]) <= current.Keys
    ensures rest.left == current - ToSet(ids[..rest.count + 1])
    ensures rest.failed ==> ids[rest.count + 1] !in rest.left
  {
    var c := rest.count;
    assert ids[..c + 1] == [ids[0]] + ids[1..][..c];
    ToSetCons(ids[0], ids[1..][..c]);
    DistinctCons(ids[0], ids[1..][..c]);
    assert ids == [ids[0]] + ids[1..];
    ToSetCons(ids[0], ids[1..]);
    DistinctHead(ids);
    if !rest.failed {
      assert ids[1..][..c] == ids[1..];
    }
  }

  /** A sequence with a head is distinct exactly when its tail is and does
      not hold the head. */
  lemma DistinctHead<T>(ids: seq<T>)
    requires |ids| > 0
    ensures Distinct(ids) <==> Distinct(ids[1..]) && ids[0] !in ToSet(ids[1..])
  {
    if Distinct(ids[1..]) && ids[0] !in ToSet(ids[1..]) {
      forall i, j | 0 <= i < j < |ids| ensures ids[i] != ids[j] {
        if i > 0 { assert ids[i] == ids[1..][i - 1] && ids[j] == ids[1..][j - 1]; }
        else { assert ids[j] in ToSet(ids[1..]) by { assert ids[j] == ids[1..][j - 1]; } }
      }
    }
    if Distinct(ids) {
      assert forall i | 0 <= i < |ids| - 1 :: ids[1..][i] == ids[i + 1];
    }
  }

  /** `exit_context`: count the call, forget these input ids and release
      exactly one slot.  The count and the pops happen before a missing or
      repeated id raises KeyError, and the slot is then not released: the
      manager after the call comes with the error it raised, if any. */
  function ExitContext(m: Manager, ids: seq<string>): (r: (Manager, Option<Error>))
    ensures r.1.None? <==> Distinct(ids) && ToSet(ids) <= m.currentInputs.Keys
    ensures r.1.Some? ==> r.1.value == KeyError
    ensures r.0.callsCompleted == m.callsCompleted + 1
    ensures r.0.(currentInputs := m.currentInputs, callsCompleted := m.callsCompleted, slots := m.slots) == m
    ensures r.1.None? ==>
      r.0.currentInputs == m.currentInputs - ToSet(ids) && r.0.slots == InputSlots.Release(m.slots)
    ensures r.1.Some? ==>
      r.0.slots == m.slots
      && exists k | 0 <= k < |ids| ::
           Distinct(ids[..k]) && ToSet(ids[..k]) <= m.currentInputs.Keys
           && r.0.currentInputs == m.currentInputs - ToSet(ids[..k]) && ids[k] !in r.0.currentInputs
  {
    var popped := PopAll(m.currentInputs, ids);
    var counted := m.(currentInputs := popped.left, callsCompleted := m.callsCompleted + 1);
    if popped.failed then
      assert ids[popped.count] !in counted.currentInputs;
      (counted, Some(KeyError))
    else
      assert ids[..popped.count] == ids;
      (counted.(slots := InputSlots.Release(m.slots)), None)
  }

  /** Registering a context's distinct, new ids and then exiting it restores
      the input table and releases one slot. */
  lemma RegisterThenExit(m: Manager, ctxId: nat, ids: seq<string>)
    requires Distinct(ids) && ToSet(ids) * m.currentInputs.Keys == {}
    ensures var r := ExitContext(Register(m, ctxId, ids), ids);
      r.1.None? && r.0.currentInputs == m.currentInputs
      && r.0.callsCompleted == m.callsCompleted + 1
      && r.0.slots == InputSlots.Release(m.slots)
  {
    var reg := Register(m, ctxId, ids);
    var r := ExitContext(reg, ids);
    assert r.1.None?;
    assert r.0.currentInputs == reg.currentInputs - ToSet(ids);
    assert (reg.currentInputs - ToSet(ids)).Keys == reg.currentInputs.Keys - ToSet(ids);
    assert reg.currentInputs.Keys == m.currentInputs.Keys + ToSet(ids);
    forall id | id in m.currentInputs.Keys ensures id !in ToSet(ids) {
      assert id !in ToSet(ids) * m.currentInputs.Keys;
    }
    assert r.0.currentInputs.Keys == m.currentInputs.Keys;
    assert forall id | id in m.currentInputs :: r.0.currentInputs[id] == m.currentInputs[id];
    assert r.0.currentInputs == m.currentInputs;
  }

  /** Successful outputs, one per input: validated, serialized, formatted. */
  function SuccessResults<V>(items: seq<PyObject<V>>, serialize: PyObject<V> -> Bytes): (r: seq<GenericResult>)
    ensures |r| == |items|
    ensures forall k | 0 <= k < |r| ::
      r[k].status == Success && r[k].data == Some(FormatBlobData(serialize(items[k])))
  {
    seq(|items|, k requires 0 <= k < |items| =>
      GenericResult(Success, Some(FormatBlobData(serialize(items[k]))), None))
  }

  /** `push_outputs`: validate, build one SUCCESS result per value, send them
      in requests of at most 20, then exit the context. */
  function PushOutputs<V>(m: Manager, ctx: IOContext<V>, data: PyObject<V>, serialize: PyObject<V> -> Bytes)
    : (r: Result<(seq<seq<OutputItem>>, Manager)>)
    requires WellFormedContext(ctx)
    ensures r.Err? ==> r.error == InvalidError || r.error == KeyError
    ensures ValidateOutputData(ctx, data).Err? ==> r == Err(InvalidError)
    ensures r.Ok? ==>
      var items := Flatten(r.value.0);
      |items| == |ctx.inputIds|
      && (forall k | 0 <= k < |items| ::
            items[k].inputId == ctx.inputIds[k] && items[k].retryCount == ctx.retryCounts[k]
            && items[k].result.status == Success)
      && (forall q | 0 <= q < |r.value.0| :: |r.value.0[q]| <= OUTPUT_BATCH_SIZE)
      && ExitContext(m, ctx.inputIds) == (r.value.1, None)
  {
    var valid := ValidateOutputData(ctx, data);
    if valid.Err? then Err(valid.error)
    else
      var requests := OutputRequests(OutputItems(ctx, SuccessResults(valid.value, serialize)));
      var exited := ExitContext(m, ctx.inputIds);
      if exited.1.Some? then Err(exited.1.value) else Ok((requests, exited.0))
  }

  /** What reaches `handle_input_exception`. */
  datatype Raised = Cancellation | UserException(repr: string, serialized: Bytes)

  /** `handle_input_exception`: a cancellation yields one TERMINATED result
      per input, any other exception one FAILURE result per input carrying
      the (possibly trimmed) repr and the serialized exception.  The trimmed
      text is the one the program sends; only its reported count is the
      corrected one, 2000 more than the program's. */
  function HandleInputException<V>(m: Manager, ctx: IOContext<V>, exc: Raised)
    : (r: Result<(seq<seq<OutputItem>>, Manager)>)
    requires WellFormedContext(ctx)
    ensures r.Err? ==> r.error == KeyError
    ensures r.Ok? ==>
      var items := Flatten(r.value.0);
      |items| == |ctx.inputIds|
      && (forall k | 0 <= k < |items| ::
            items[k].inputId == ctx.inputIds[k] && items[k].retryCount == ctx.retryCounts[k]
            && items[k].result.status == (if exc.Cancellation? then Terminated else Failure))
      && (exc.UserException? ==> forall k | 0 <= k < |items| ::
            items[k].result.exception == Some(TrimRepr(exc.repr))
            && items[k].result.data == Some(FormatBlobData(exc.serialized)))
      && (exc.UserException? && |exc.repr| >= Blob.MAX_OBJECT_SIZE_BYTES ==> forall k | 0 <= k < |items| ::
            items[k].result.exception.value.kept == TrimReprAsWritten(exc.repr).kept
            && items[k].result.exception.value.reportedTrimmed == TrimReprAsWritten(exc.repr).reportedTrimmed + 2000)
      && (forall q | 0 <= q < |r.value.0| :: |r.value.0[q]| <= OUTPUT_BATCH_SIZE)
      && ExitContext(m, ctx.inputIds) == (r.value.1, None)
  {
    var result := match exc
      case Cancellation => GenericResult(Terminated, None, None)
      case UserException(repr, serialized) =>
        GenericResult(Failure, Some(FormatBlobData(serialized)), Some(TrimRepr(repr)));
    var results := seq(|ctx.inputIds|, _ => result);
    var requests := OutputRequests(OutputItems(ctx, results));
    var exited := ExitContext(m, ctx.inputIds);
    if exited.1.Some? then Err(exited.1.value) else Ok((requests, exited.0))
  }

  /** A batched result that is not a list of one value per input ends as one
      FAILURE output per input, once the validation error reaches the
      exception handler. */
  lemma InvalidBatchOutputFailsEveryInput<V>(
    m: Manager, ctx: IOContext<V>, data: PyObject<V>, serialize: PyObject<V> -> Bytes,
    repr: string, serialized: Bytes)
    requires WellFormedContext(ctx) && ctx.batched
    requires !(data.PyList? && |data.items| == |ctx.inputIds|)
    requires Distinct(ctx.inputIds) && ToSet(ctx.inputIds) <= m.currentInputs.Keys
    ensures PushOutputs(m, ctx, data, serialize) == Err(InvalidError)
    ensures var h := HandleInputException(m, ctx, UserException(repr, serialized));
      h.Ok? && |Flatten(h.value.0)| == |ctx.inputIds|
      && forall k | 0 <= k < |ctx.inputIds| :: Flatten(h.value.0)[k].result.status == Failure
  {
  }

  // ---------------------------------------------------------------------
  // Generator outputs (`generator_output_sender`, `put_data_out`)

  /** What the sender task observes on its queue: a message, the stop
      sentinel, or a moment at which `get_nowait` found the queue empty. */
  datatype QueueItem = Message(payload: Bytes) | StopSentinel | ObservedEmpty

  datatype DataOutRequest = DataOutRequest(startIndex: int, messages: seq<Bytes>)

  datatype DataChunk = DataChunk(index: int, data: DataPart)

  /** The messages put before the sentinel, in queue order. */
  function Pending(q: seq<QueueItem>): seq<Bytes>
    decreases |q|
  {
    if |q| == 0 then []
    else match q[0]
      case StopSentinel => []
      case ObservedEmpty => Pending(q[1..])
      case Message(p) => [p] + Pending(q[1..])
  }

  /** Estimated size of a batch of messages. */
  function BatchSize(msgs: seq<Bytes>): nat
  {
    if |msgs| == 0 then 0 else |msgs[0]| + DATA_OUT_FRAMING + BatchSize(msgs[1..])
  }

  datatype Fill = Fill(batch: seq<Bytes>, rest: seq<QueueItem>, sawSentinel: bool)

  /** The inner loop: keep taking queued messages without blocking while the
      estimated size is below 16 MiB; an empty queue or the sentinel ends it. */
  function FillBatch(q: seq<QueueItem>, total: int): (r: Fill)
    ensures |r.rest| <= |q|
    ensures Pending(q) == r.batch + (if r.sawSentinel then [] else Pending(r.rest))
    ensures forall k | 0 <= k < |r.batch| :: total + BatchSize(r.batch[..k]) < DATA_OUT_SIZE_LIMIT
    decreases |q|
  {
    if total >= DATA_OUT_SIZE_LIMIT || |q| == 0 then Fill([], q, false)
    else match q[0]
      case ObservedEmpty => Fill([], q[1..], false)
      case StopSentinel => Fill([], q[1..], true)
      case Message(p) =>
        var f := FillBatch(q[1..], total + |p| + DATA_OUT_FRAMING);
        var batch := [p] + f.batch;
        BatchBound(p, f.batch, total);
        PrependBatch(p, f.batch, if f.sawSentinel then [] else Pending(f.rest));
        Fill(batch, f.rest, f.sawSentinel)
  }

  /** Putting one message in front of a batch that kept below the limit
      from the larger running total keeps every prefix below it. */
  lemma BatchBound(p: Bytes, batch: seq<Bytes>, total: int)
    requires total < DATA_OUT_SIZE_LIMIT
    requires forall k | 0 <= k < |batch| :: total + |p| + DATA_OUT_FRAMING + BatchSize(batch[..k]) < DATA_OUT_SIZE_LIMIT
    ensures forall k | 0 <= k < |batch| + 1 :: total + BatchSize(([p] + batch)[..k]) < DATA_OUT_SIZE_LIMIT
  {
    forall k | 0 <= k < |batch| + 1
      ensures total + BatchSize(([p] + batch)[..k]) < DATA_OUT_SIZE_LIMIT
    {
      if k > 0 {
        assert ([p] + batch)[..k][1..] == batch[..k - 1];
      }
    }
  }

  lemma PrependBatch(p: Bytes, batch: seq<Bytes>, tail: seq<Bytes>)
    ensures [p] + (batch + tail) == ([p] + batch) + tail
  {
  }

  /** Requests numbered consecutively from `base` in message order. */
  predicate Consecutive(reqs: seq<DataOutRequest>, base: int)
    decreases |reqs|
  {
    |reqs| == 0
    || (reqs[0].startIndex == base && Consecutive(reqs[1..], base + |reqs[0].messages|))
  }

  function RequestMessages(reqs: seq<DataOutRequest>): seq<seq<Bytes>>
  {
    seq(|reqs|, k requires 0 <= k < |reqs| => reqs[k].messages)
  }

  /** The sender task: block for a message (skipping empty observations),
      stop at the sentinel, fill a batch, send it at the running index. */
  function SenderRequests(q: seq<QueueItem>, index: int): (r: seq<DataOutRequest>)
    ensures Flatten(RequestMessages(r)) == Pending(q)
    ensures Consecutive(r, index)
    ensures forall k | 0 <= k < |r| :: |r[k].messages| > 0
    decreases |q|
  {
    if |q| == 0 then []
    else match q[0]
      case StopSentinel => []
      case ObservedEmpty => SenderRequests(q[1..], index)
      case Message(p) =>
        var f := FillBatch(q[1..], |p| + DATA_OUT_FRAMING);
        var first := DataOutRequest(index, [p] + f.batch);
        var rest := if f.sawSentinel then [] else SenderRequests(f.rest, index + 1 + |f.batch|);
        PrependRequest(first, rest, index);
        PrependBatch(p, f.batch, if f.sawSentinel then [] else Pending(f.rest));
        [first] + rest
  }

  /** A non-empty request at `index` followed by requests numbered on from
      its end is numbered consecutively, and carries its messages first. */
  lemma PrependRequest(first: DataOutRequest, rest: seq<DataOutRequest>, index: int)
    requires first.startIndex == index && |first.messages| > 0
    requires Consecutive(rest, index + |first.messages|)
    requires forall k | 0 <= k < |rest| :: |rest[k].messages| > 0
    ensures Consecutive([first] + rest, index)
    ensures forall k | 0 <= k < |[first] + rest| :: |([first] + rest)[k].messages| > 0
    ensures Flatten(RequestMessages([first] + rest)) == first.messages + Flatten(RequestMessages(rest))
  {
    assert RequestMessages([first] + rest) == [first.messages] + RequestMessages(rest);
    assert ([first] + rest)[1..] == rest;
  }

  /** `put_data_out`: the i-th message becomes chunk `start_index + i`. */
  function PutDataOut(startIndex: int, msgs: seq<Bytes>): (r: seq<DataChunk>)
    ensures |r| == |msgs|
    ensures forall i | 0 <= i < |r| :: r[i].index == startIndex + i && r[i].data == FormatBlobData(msgs[i])
  {
    seq(|msgs|, i requires 0 <= i < |msgs| => DataChunk(startIndex + i, FormatBlobData(msgs[i])))
  }

  function AllChunks(reqs: seq<DataOutRequest>): seq<DataChunk>
    decreases |reqs|
  {
    if |reqs| == 0 then [] else PutDataOut(reqs[0].startIndex, reqs[0].messages) + AllChunks(reqs[1..])
  }

  lemma {:induction false} ConsecutiveChunks(reqs: seq<DataOutRequest>, base: int)
    requires Consecutive(reqs, base)
    ensures var c := AllChunks(reqs); var msgs := Flatten(RequestMessages(reqs));
      |c| == |msgs| && forall i | 0 <= i < |c| :: c[i].index == base + i && c[i].data == FormatBlobData(msgs[i])
    decreases |reqs|
  {
    if |reqs| > 0 {
      ConsecutiveChunks(reqs[1..], base + |reqs[0].messages|);
      assert RequestMessages(reqs) == [reqs[0].messages] + RequestMessages(reqs[1..]);
    }
  }

  /** The data chunks of a generator carry indices 1, 2, 3, ... in queue
      order, one per message put before the sentinel. */
  lemma DataOutIndicesConsecutive(q: seq<QueueItem>)
    ensures var c := AllChunks(SenderRequests(q, 1)); var msgs := Pending(q);
      |c| == |msgs| && forall i | 0 <= i < |c| :: c[i].index == i + 1 && c[i].data == FormatBlobData(msgs[i])
  {
    ConsecutiveChunks(SenderRequests(q, 1), 1);
  }

  // ---------------------------------------------------------------------
  // The input generator (`_generate_inputs`)

  datatype ResponseItem<V> = ResponseItem(killSwitch: bool, fetched: FetchedInput<V>)

  /** A `FunctionGetInputs` response; `rateLimited` is a non-zero
      `rate_limit_sleep_duration`. */
  datatype InputsResponse<V> = InputsResponse(rateLimited: bool, items: seq<ResponseItem<V>>)

  datatype Collected<V> = Killed | Collected(inputs: seq<FetchedInput<V>>, finalInput: bool)

  /** Index just past the first final input, or the length. */
  function BatchEnd<V>(items: seq<ResponseItem<V>>): (n: nat)
    ensures n <= |items|
    ensures forall k | 0 <= k < n - 1 :: !items[k].fetched.input.finalInput
    ensures n < |items| ==> n > 0 && items[n - 1].fetched.input.finalInput
    decreases |items|
  {
    if |items| == 0 then 0
    else if items[0].fetched.input.finalInput then 1
    else 1 + BatchEnd(items[1..])
  }

  /** The loop over a response's items: a kill switch returns at once; a
      final input closes the batch. */
  function CollectInputs<V>(items: seq<ResponseItem<V>>): (r: Collected<V>)
    ensures r.Killed? <==> exists k | 0 <= k < BatchEnd(items) :: items[k].killSwitch
    ensures r.Collected? ==>
      |r.inputs| == BatchEnd(items)
      && (forall k | 0 <= k < |r.inputs| :: r.inputs[k] == items[k].fetched)
      && (r.finalInput <==> exists k | 0 <= k < |items| :: items[k].fetched.input.finalInput)
    decreases |items|
  {
    if |items| == 0 then Collected([], false)
    else if items[0].killSwitch then Killed
    else if items[0].fetched.input.finalInput then Collected([items[0].fetched], true)
    else match CollectInputs(items[1..])
      case Killed =>
        assert exists k | 0 <= k < BatchEnd(items[1..]) :: items[1..][k].killSwitch;
        Killed
      case Collected(rest, fin) =>
        assert BatchEnd(items) == 1 + BatchEnd(items[1..]);
        assert forall k | 1 <= k < |items| :: items[k] == items[1..][k - 1];
        assert fin ==> exists k | 0 <= k < |items[1..]| :: items[1..][k].fetched.input.finalInput;
        assert forall k | 1 <= k < |rest| + 1 :: ([items[0].fetched] + rest)[k] == rest[k - 1];
        Collected([items[0].fetched] + rest, fin)
  }

  /** One loop iteration after the slot was acquired: what is yielded, and
      whether the stream ends.  Nothing yielded means the slot is released. */
  datatype FetchStep<V> = FetchStep(yielded: Option<seq<FetchedInput<V>>>, endStream: bool)

  function Fetch<V>(resp: InputsResponse<V>, batchMaxSize: int, maxInputs: int): (r: Result<FetchStep<V>>)
    ensures r.Err? <==>
      !resp.rateLimited && |resp.items| > 0 && |resp.items| > (if batchMaxSize > 1 then batchMaxSize else 1)
    ensures r.Err? ==> r.error == AssertionError
    ensures r.Ok? && (resp.rateLimited || |resp.items| == 0) ==> r.value == FetchStep(None, false)
    ensures r.Ok? && r.value.yielded.None? && !resp.rateLimited && |resp.items| > 0 ==> r.value.endStream
    ensures r.Ok? && r.value.yielded.Some? ==>
      var batch := r.value.yielded.value;
      0 < |batch| == BatchEnd(resp.items)
      && (forall k | 0 <= k < |batch| :: batch[k] == resp.items[k].fetched && !resp.items[k].killSwitch)
      && (r.value.endStream <==> maxInputs == 1 || batch[|batch| - 1].input.finalInput)
      && forall k | 0 <= k < |batch| - 1 :: !batch[k].input.finalInput
  {
    if resp.rateLimited || |resp.items| == 0 then Ok(FetchStep(None, false))
    else if |resp.items| > (if batchMaxSize > 1 then batchMaxSize else 1) then Err(AssertionError)
    else match CollectInputs(resp.items)
      case Killed => Ok(FetchStep(None, true))
      case Collected(inputs, fin) =>
        assert fin <==> BatchEnd(resp.items) > 0 && resp.items[BatchEnd(resp.items) - 1].fetched.input.finalInput;
        Ok(FetchStep(Some(inputs), fin || maxInputs == 1))
  }

  /** The generator over a sequence of responses (the loop runs while
      responses keep coming): the batches it yields, the slots it acquired
      and released itself, and the error that ended it, if any. */
  datatype InputStream<V> = InputStream(
    batches: seq<seq<FetchedInput<V>>>, acquired: nat, released: nat, error: Option<Error>)

  /** The step for this response ends the stream: it raised, met a kill
      switch, reached the final input or the single-input limit. */
  predicate EndsStream<V>(resp: InputsResponse<V>, batchMaxSize: int, maxInputs: int)
  {
    var f := Fetch(resp, batchMaxSize, maxInputs);
    f.Err? || f.value.endStream
  }

  /** The batches the steps for these responses yield, in order. */
  function Yielded<V>(responses: seq<InputsResponse<V>>, batchMaxSize: int, maxInputs: int)
    : seq<seq<FetchedInput<V>>>
    decreases |responses|
  {
    if |responses| == 0 then []
    else StepYield(responses[0], batchMaxSize, maxInputs) + Yielded(responses[1..], batchMaxSize, maxInputs)
  }

  /** The batch one step yields, as a list of zero or one batches. */
  function StepYield<V>(resp: InputsResponse<V>, batchMaxSize: int, maxInputs: int): seq<seq<FetchedInput<V>>>
  {
    var f := Fetch(resp, batchMaxSize, maxInputs);
    if f.Ok? && f.value.yielded.Some? then [f.value.yielded.value] else []
  }

  lemma {:induction false} YieldedSnoc<V>(responses: seq<InputsResponse<V>>, n: nat, batchMaxSize: int, maxInputs: int)
    requires n < |responses|
    ensures Yielded(responses[..n + 1], batchMaxSize, maxInputs)
      == Yielded(responses[..n], batchMaxSize, maxInputs) + StepYield(responses[n], batchMaxSize, maxInputs)
    decreases n
  {
    var y := StepYield(responses[0], batchMaxSize, maxInputs);
    if n == 0 {
      assert responses[..1][1..] == [];
      assert Yielded(responses[..1], batchMaxSize, maxInputs) == y + [];
    } else {
      assert responses[..n + 1][0] == responses[0] && responses[..n][0] == responses[0];
      assert responses[..n + 1][1..] == responses[1..][..n];
      assert responses[..n][1..] == responses[1..][..n - 1];
      YieldedSnoc(responses[1..], n - 1, batchMaxSize, maxInputs);
      assert responses[1..][n - 1] == responses[n];
    }
  }

  /** `_generate_inputs` over the responses the server sends: each response
      is one step after a slot was acquired; a step that yields nothing
      releases its slot, and a step that ends the stream stops it. */
  function GenerateInputs<V>(responses: seq<InputsResponse<V>>, batchMaxSize: int, maxInputs: int)
    : (r: InputStream<V>)
    ensures r.acquired == r.released + |r.batches| <= |responses|
    ensures |responses| > 0 ==> r.acquired > 0
    ensures forall b | 0 <= b < |r.batches| :: |r.batches[b]| > 0
    ensures forall b, k | 0 <= b < |r.batches| && 0 <= k < |r.batches[b]| ::
      r.batches[b][k].input.finalInput ==> b == |r.batches| - 1 && k == |r.batches[b]| - 1
    ensures maxInputs == 1 ==> |r.batches| <= 1
    ensures r.error.Some? ==> r.error.value == AssertionError
    decreases |responses|
  {
    if |responses| == 0 then InputStream([], 0, 0, None)
    else match Fetch(responses[0], batchMaxSize, maxInputs)
      case Err(e) => InputStream([], 1, 1, Some(e))
      case Ok(FetchStep(None, end)) =>
        if end then InputStream([], 1, 1, None)
        else
          var rest := GenerateInputs(responses[1..], batchMaxSize, maxInputs);
          rest.(acquired := rest.acquired + 1, released := rest.released + 1)
      case Ok(FetchStep(Some(batch), end)) =>
        if end then InputStream([batch], 1, 0, None)
        else
          var rest := GenerateInputs(responses[1..], batchMaxSize, maxInputs);
          InputStream([batch] + rest.batches, rest.acquired + 1, rest.released, rest.error)
  }

  /** The stream consumes the responses up to and including the first step
      that ends it (or all of them), yields exactly the batches those steps
      yield, in order, and ends with an error exactly when its last step
      raised. */
  lemma {:induction false} GenerateInputsFollowsFetch<V>(responses: seq<InputsResponse<V>>, batchMaxSize: int, maxInputs: int)
    ensures var r := GenerateInputs(responses, batchMaxSize, maxInputs);
      (forall i | 0 <= i < r.acquired - 1 :: !EndsStream(responses[i], batchMaxSize, maxInputs))
      && (r.acquired < |responses| ==> EndsStream(responses[r.acquired - 1], batchMaxSize, maxInputs))
      && r.batches == Yielded(responses[..r.acquired], batchMaxSize, maxInputs)
      && (r.error.Some? <==> r.acquired > 0 && Fetch(responses[r.acquired - 1], batchMaxSize, maxInputs).Err?)
    decreases |responses|
  {
    if |responses| > 0 {
      var r := GenerateInputs(responses, batchMaxSize, maxInputs);
      GenerateInputsStep(responses, batchMaxSize, maxInputs);
      if EndsStream(responses[0], batchMaxSize, maxInputs) {
        assert responses[..1][1..] == [];
        assert Yielded(responses[..1], batchMaxSize, maxInputs)
          == StepYield(responses[0], batchMaxSize, maxInputs) + [];
      } else {
        var rest := GenerateInputs(responses[1..], batchMaxSize, maxInputs);
        GenerateInputsFollowsFetch(responses[1..], batchMaxSize, maxInputs);
        GenerateInputsContinue(responses, batchMaxSize, maxInputs);
        StreamStep(responses, rest, batchMaxSize, maxInputs);
      }
    }
  }

  /** The first step of the stream: one that ends it is all there is; one
      that continues it is put in front of the rest. */
  lemma GenerateInputsStep<V>(responses: seq<InputsResponse<V>>, batchMaxSize: int, maxInputs: int)
    requires |responses| > 0
    ensures var r := GenerateInputs(responses, batchMaxSize, maxInputs);
      var f := Fetch(responses[0], batchMaxSize, maxInputs);
      EndsStream(responses[0], batchMaxSize, maxInputs) ==>
        r.acquired == 1 && r.batches == StepYield(responses[0], batchMaxSize, maxInputs)
        && (r.error.Some? <==> f.Err?)
  {
  }

  lemma GenerateInputsContinue<V>(responses: seq<InputsResponse<V>>, batchMaxSize: int, maxInputs: int)
    requires |responses| > 0 && !EndsStream(responses[0], batchMaxSize, maxInputs)
    ensures var r := GenerateInputs(responses, batchMaxSize, maxInputs);
      var rest := GenerateInputs(responses[1..], batchMaxSize, maxInputs);
      r.acquired == rest.acquired + 1 && r.error == rest.error
      && r.batches == StepYield(responses[0], batchMaxSize, maxInputs) + rest.batches
  {
  }

  /** The facts about the remaining responses carry over to the whole list
      when the first step continues the stream. */
  lemma StreamStep<V>(responses: seq<InputsResponse<V>>, rest: InputStream<V>, batchMaxSize: int, maxInputs: int)
    requires |responses| > 0 && !EndsStream(responses[0], batchMaxSize, maxInputs)
    requires rest.acquired <= |responses| - 1
    requires rest.batches == Yielded(responses[1..][..rest.acquired], batchMaxSize, maxInputs)
    ensures Yielded(responses[..rest.acquired + 1], batchMaxSize, maxInputs)
      == StepYield(responses[0], batchMaxSize, maxInputs) + rest.batches
    ensures forall i | 1 <= i <= rest.acquired :: responses[i] == responses[1..][i - 1]
  {
    assert responses[..rest.acquired + 1][1..] == responses[1..][..rest.acquired];
  }

  /** A response whose items hold a kill switch before the first final input
      ends the stream when it is reached: nothing after it is consumed, and
      it yields no batch. */
  lemma KillSwitchEndsStream<V>(responses: seq<InputsResponse<V>>, batchMaxSize: int, maxInputs: int, i: int)
    requires 0 <= i < |responses|
    requires forall j | 0 <= j < i :: !EndsStream(responses[j], batchMaxSize, maxInputs)
    requires var resp := responses[i];
      !resp.rateLimited && 0 < |resp.items| <= (if batchMaxSize > 1 then batchMaxSize else 1)
      && exists k | 0 <= k < BatchEnd(resp.items) :: resp.items[k].killSwitch
    ensures var r := GenerateInputs(responses, batchMaxSize, maxInputs);
      r.acquired == i + 1 && r.error.None?
      && r.batches == Yielded(responses[..i], batchMaxSize, maxInputs)
  {
    var r := GenerateInputs(responses, batchMaxSize, maxInputs);
    GenerateInputsFollowsFetch(responses, batchMaxSize, maxInputs);
    var f := Fetch(responses[i], batchMaxSize, maxInputs);
    assert f.Ok? && f.value.yielded.None?;
    assert EndsStream(responses[i], batchMaxSize, maxInputs);
    YieldedSnoc(responses, i, batchMaxSize, maxInputs);
    assert StepYield(responses[i], batchMaxSize, maxInputs) == [];
  }
}
