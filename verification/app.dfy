/** The registries of an App and the checks its decorators make before
    registering anything (modal/app.py). Functions and classes are opaque
    objects with an identity; what `FunctionInfo`, `is_global_object` and
    `is_method_fn` compute about a decorated object is given with it. */
module App {
  import opened Errors
  import opened Collections
  import Sandbox

  /** A `_Function` object: `id` is its identity, `tag` its registry key. */
  datatype FunctionObj = FunctionObj(id: nat, tag: string)

  /** A `_Cls` object, by identity. */
  datatype ClsObj = ClsObj(id: nat)

  /** The registries of an `_App`, each dict in insertion order. */
  datatype AppState = AppState(
    name: Option<string>,
    functions: seq<(string, FunctionObj)>,
    classes: seq<(string, ClsObj)>,
    webEndpoints: seq<string>,
    localEntrypoints: seq<(string, string)>)

  /** Every function is filed under its own tag, once. */
  predicate WellFormed(app: AppState)
  {
    Distinct(Keys(app.functions))
    && (forall k | 0 <= k < |app.functions| :: app.functions[k].1.tag == app.functions[k].0)
    && Distinct(Keys(app.classes))
    && Distinct(Keys(app.localEntrypoints))
  }

  /** `_App(name)`: empty registries. */
  function NewApp(name: Option<string>): (app: AppState)
    ensures WellFormed(app)
  {
    AppState(name, [], [], [], [])
  }

  /** `check_sequence`: the argument must be a list or tuple of items of the
      expected type. */
  datatype SequenceArg<T> = ListOrTuple(items: seq<T>) | NotASequence

  function CheckSequence<T>(arg: SequenceArg<T>, isItem: T -> bool): (r: Result<()>)
    ensures r.Ok? <==> arg.ListOrTuple? && forall k | 0 <= k < |arg.items| :: isItem(arg.items[k])
    ensures r.Err? ==> r.error == InvalidError
  {
    if arg.NotASequence? then Err(InvalidError)
    else if exists k | 0 <= k < |arg.items| :: !isItem(arg.items[k]) then Err(InvalidError)
    else Ok(())
  }

  /** `_add_function`: the very same object again changes nothing; any other
      function takes the tag (replacing an earlier one in place) and a web
      endpoint's tag is listed.  Afterwards the tag looks up to the
      function, every other tag looks up as before, the registry stays well
      formed, and the web endpoints grow by the tag exactly when a new web
      endpoint was added. */
  function AddFunction(app: AppState, f: FunctionObj, isWebEndpoint: bool): (r: AppState)
    ensures Lookup(r.functions, f.tag) == Some(f)
    ensures forall other | other != f.tag :: Lookup(r.functions, other) == Lookup(app.functions, other)
    ensures Lookup(app.functions, f.tag) == Some(f) ==> r == app
    ensures r.name == app.name && r.classes == app.classes && r.localEntrypoints == app.localEntrypoints
    ensures r.webEndpoints == app.webEndpoints +
      (if isWebEndpoint && Lookup(app.functions, f.tag) != Some(f) then [f.tag] else [])
    ensures WellFormed(app) ==> WellFormed(r)
  {
    if Lookup(app.functions, f.tag) == Some(f) then app
    else
      RegisterFunction(app.functions, f);
      app.(functions := DictSet(app.functions, f.tag, f),
           webEndpoints := app.webEndpoints + (if isWebEndpoint then [f.tag] else []))
  }

  /** Filing a function under its tag: the tag looks up to it, other tags
      are untouched, and a registry of distinct, matching tags stays so. */
  lemma RegisterFunction(d: seq<(string, FunctionObj)>, f: FunctionObj)
    ensures Lookup(DictSet(d, f.tag, f), f.tag) == Some(f)
    ensures forall other | other != f.tag :: Lookup(DictSet(d, f.tag, f), other) == Lookup(d, other)
    ensures Distinct(Keys(d)) && (forall k | 0 <= k < |d| :: d[k].1.tag == d[k].0) ==>
      Distinct(Keys(DictSet(d, f.tag, f)))
      && forall k | 0 <= k < |DictSet(d, f.tag, f)| :: DictSet(d, f.tag, f)[k].1.tag == DictSet(d, f.tag, f)[k].0
  {
    DictSetLookup(d, f.tag, f);
    forall other | other != f.tag
      ensures Lookup(DictSet(d, f.tag, f), other) == Lookup(d, other)
    {
      LookupOther(d, f.tag, f, other);
    }
    if Distinct(Keys(d)) && (forall k | 0 <= k < |d| :: d[k].1.tag == d[k].0) {
      DictSetDistinct(d, f.tag, f);
      DictSetTags(d, f);
    }
  }

  /** Where the tag lands in the registry's insertion order: a tag already
      present keeps its place and no other entry moves, while a new tag is
      filed last. */
  lemma AddFunctionOrder(app: AppState, f: FunctionObj, isWebEndpoint: bool)
    ensures var r := AddFunction(app, f, isWebEndpoint);
      f.tag in Keys(app.functions) ==> Keys(r.functions) == Keys(app.functions)
    ensures var r := AddFunction(app, f, isWebEndpoint);
      f.tag !in Keys(app.functions) ==> r.functions == app.functions + [(f.tag, f)]
    ensures var r := AddFunction(app, f, isWebEndpoint);
      forall k | 0 <= k < |app.functions| && app.functions[k].0 != f.tag :: r.functions[k] == app.functions[k]
  {
    if f.tag !in Keys(app.functions) {
      LookupAbsent(app.functions, f.tag);
    }
    if Lookup(app.functions, f.tag) != Some(f) {
      DictSetInPlace(app.functions, f.tag, f);
    }
  }

  lemma {:induction false} DictSetTags(d: seq<(string, FunctionObj)>, f: FunctionObj)
    requires forall k | 0 <= k < |d| :: d[k].1.tag == d[k].0
    ensures var r := DictSet(d, f.tag, f);
      forall k | 0 <= k < |r| :: r[k].1.tag == r[k].0
  {
    if |d| > 0 && d[0].0 != f.tag {
      DictSetTags(d[1..], f);
      DictSetInPlace(d[1..], f.tag, f);
      var r := DictSet(d, f.tag, f);
      assert r == [d[0]] + DictSet(d[1..], f.tag, f);
    }
  }

  // ---------------------------------------------------------------------
  // local_entrypoint

  /** The `name` argument: absent, a string, or some other object. */
  datatype NameArg = NoName | StrName(s: string) | NotAString

  /** `@app.local_entrypoint(name=...)` applied to a function with the given
      `__qualname__`. */
  function LocalEntrypoint(app: AppState, warnParenthesesMissing: bool, name: NameArg,
                           qualname: string): (r: Result<AppState>)
    ensures r.Err? ==> r.error == InvalidError
    ensures var tag := if name.StrName? then name.s else qualname;
      r.Ok? <==> !warnParenthesesMissing && !name.NotAString? && tag !in Keys(app.localEntrypoints)
    ensures var tag := if name.StrName? then name.s else qualname;
      r.Ok? ==> r.value == app.(localEntrypoints := app.localEntrypoints + [(tag, qualname)])
  {
    if warnParenthesesMissing || name.NotAString? then Err(InvalidError)
    else
      var tag := if name.StrName? then name.s else qualname;
      if tag in Keys(app.localEntrypoints) then Err(InvalidError)
      else
        DictSetNew(app.localEntrypoints, tag, qualname);
        Ok(app.(localEntrypoints := DictSet(app.localEntrypoints, tag, qualname)))
  }

  /** Registering entrypoints keeps their tags distinct, and the new tag
      is then registered. */
  lemma LocalEntrypointSpec(app: AppState, warn: bool, name: NameArg, qualname: string)
    requires WellFormed(app) && LocalEntrypoint(app, warn, name, qualname).Ok?
    ensures var r := LocalEntrypoint(app, warn, name, qualname).value;
      WellFormed(r) && (if name.StrName? then name.s else qualname) in Keys(r.localEntrypoints)
      && |r.localEntrypoints| == |app.localEntrypoints| + 1
  {
    var tag := if name.StrName? then name.s else qualname;
    DictSetSpec(app.localEntrypoints, tag, qualname);
    DictSetNew(app.localEntrypoints, tag, qualname);
    var r := LocalEntrypoint(app, warn, name, qualname).value;
    assert Keys(r.localEntrypoints)[|app.localEntrypoints|] == tag;
  }

  // ---------------------------------------------------------------------
  // @app.function

  /** What `@modal.concurrent`, the web decorators and `@modal.batched`
      recorded on a `_PartialFunction`. */
  datatype PartialParams = PartialParams(
    concurrent: bool,
    maxConcurrentInputs: Option<int>,
    targetConcurrentInputs: Option<int>,
    webhook: bool,
    batchMaxSize: Option<int>,
    batchWaitMs: Option<int>)

  /** The object `@app.function` is applied to. */
  datatype Decorated =
    | AClass
    | PlainFunction(isGlobal: bool, isMethod: bool)
    | PartialFunction(rawIsMethod: bool, params: PartialParams)

  /** The positional argument of `@app.function`: none, an image passed by
      mistake, or some other object with its truthiness. */
  datatype ParensArg = NoParensArg | ImageArg | OtherArg(truthy: bool)

  /** The input-handling settings the function is created with. */
  datatype InputSettings = InputSettings(
    maxConcurrentInputs: Option<int>,
    targetConcurrentInputs: Option<int>,
    batchMaxSize: Option<int>,
    batchWaitMs: Option<int>,
    isWebEndpoint: bool)

  /** Concurrency comes from the partial function only when it was marked
      concurrent; otherwise from `allow_concurrent_inputs`, without a target.
      Batching and web settings come only from a partial function. */
  function FunctionInputSettings(f: Decorated, allowConcurrentInputs: Option<int>): (s: InputSettings)
    requires !f.AClass?
    ensures f.PartialFunction? && f.params.concurrent ==>
      s.maxConcurrentInputs == f.params.maxConcurrentInputs && s.targetConcurrentInputs == f.params.targetConcurrentInputs
    ensures !(f.PartialFunction? && f.params.concurrent) ==>
      s.maxConcurrentInputs == allowConcurrentInputs && s.targetConcurrentInputs.None?
    ensures f.PlainFunction? ==> s.batchMaxSize.None? && s.batchWaitMs.None? && !s.isWebEndpoint
    ensures f.PartialFunction? ==>
      s.batchMaxSize == f.params.batchMaxSize && s.batchWaitMs == f.params.batchWaitMs
      && s.isWebEndpoint == f.params.webhook
  {
    match f
    case PlainFunction(_, _) => InputSettings(allowConcurrentInputs, None, None, None, false)
    case PartialFunction(_, p) =>
      if p.concurrent then InputSettings(p.maxConcurrentInputs, p.targetConcurrentInputs, p.batchMaxSize, p.batchWaitMs, p.webhook)
      else InputSettings(allowConcurrentInputs, None, p.batchMaxSize, p.batchWaitMs, p.webhook)
  }

  /** `@app.function(...)` applied to `f`, which becomes the function
      object `obj`: the argument checks, then the checks on `f`, then the
      region, then registration. */
  function DecorateFunction(app: AppState, parens: ParensArg, serialized: bool,
                            region: Sandbox.RegionArg, placement: Option<Sandbox.SchedulerPlacement>,
                            allowConcurrentInputs: Option<int>, f: Decorated, obj: FunctionObj)
    : (r: Result<(AppState, InputSettings, Option<Sandbox.SchedulerPlacement>)>)
    ensures parens.ImageArg? || (parens.OtherArg? && parens.truthy) ==> r == Err(InvalidError)
    ensures f.AClass? && !(parens.ImageArg? || (parens.OtherArg? && parens.truthy)) ==> r == Err(TypeError)
    ensures r.Err? ==> r.error in {InvalidError, TypeError}
    ensures r.Ok? <==>
      !parens.ImageArg? && !(parens.OtherArg? && parens.truthy) && !f.AClass?
      && !(f.PartialFunction? && f.rawIsMethod)
      && !(f.PlainFunction? && ((!f.isGlobal && !serialized) || f.isMethod))
      && Sandbox.Placement(region, placement).Ok?
    ensures r.Ok? ==>
      var settings := FunctionInputSettings(f, allowConcurrentInputs);
      r.value == (AddFunction(app, obj, settings.isWebEndpoint), settings, Sandbox.Placement(region, placement).value)
  {
    if parens.ImageArg? || (parens.OtherArg? && parens.truthy) then Err(InvalidError)
    else if f.AClass? then Err(TypeError)
    else if f.PartialFunction? && f.rawIsMethod then Err(InvalidError)
    else if f.PlainFunction? && !f.isGlobal && !serialized then Err(InvalidError)
    else if f.PlainFunction? && f.isMethod then Err(InvalidError)
    else
      var settings := FunctionInputSettings(f, allowConcurrentInputs);
      var scheduler :- Sandbox.Placement(region, placement);
      Ok((AddFunction(app, obj, settings.isWebEndpoint), settings, scheduler))
  }

  // ---------------------------------------------------------------------
  // @app.cls

  /** A method of the user class, with the partial-function flags that
      matter here. */
  datatype Method = Method(name: string, isInterface: bool, isBatched: bool, snapEnter: bool,
                           isConcurrent: bool, batchMaxSize: Option<int>, batchWaitMs: Option<int>)

  /** `_find_partial_methods_for_user_cls` for one flag. */
  function MethodsWhere(methods: seq<Method>, flag: Method -> bool): (r: seq<Method>)
    ensures |r| <= |methods|
    ensures forall m :: m in r <==> m in methods && flag(m)
  {
    if |methods| == 0 then []
    else
      var rest := MethodsWhere(methods[1..], flag);
      assert forall m :: m in methods <==> m == methods[0] || m in methods[1..];
      if flag(methods[0]) then [methods[0]] + rest else rest
  }

  /** A method list found for a flag is non-empty exactly when some method
      has the flag. */
  lemma MethodsWhereEmpty(methods: seq<Method>, flag: Method -> bool)
    ensures |MethodsWhere(methods, flag)| > 0 <==> exists m | m in methods :: flag(m)
  {
    var r := MethodsWhere(methods, flag);
    if |r| > 0 {
      assert r[0] in r;
    }
  }

  function Interface(methods: seq<Method>): seq<Method> { MethodsWhere(methods, (m: Method) => m.isInterface) }
  function Batched(methods: seq<Method>): seq<Method> { MethodsWhere(methods, (m: Method) => m.isBatched) }

  /** The object `@app.cls` is applied to: possibly wrapped in a partial
      function carrying class-level `@modal.concurrent` or
      `@modal.experimental.clustered` settings. */
  datatype ClsTarget = ClsTarget(
    isClass: bool,
    className: string,
    methods: seq<Method>,
    wrapped: bool,
    concurrent: bool,
    maxConcurrentInputs: Option<int>,
    targetConcurrentInputs: Option<int>,
    clustered: bool,
    clusterSize: Option<int>)

  /** The settings the class's service function is created with. */
  datatype ClsSettings = ClsSettings(
    maxConcurrentInputs: Option<int>,
    targetConcurrentInputs: Option<int>,
    clusterSize: Option<int>,
    batchMaxSize: Option<int>,
    batchWaitMs: Option<int>,
    i6pnEnabled: bool)

  /** A cluster size that counts as set (`if cluster_size:`). */
  predicate Clustered(clusterSize: Option<int>)
  {
    clusterSize.Some? && clusterSize.value != 0
  }

  /** The checks `@app.cls` makes on the class, in order. */
  function ClsChecks(t: ClsTarget, enableMemorySnapshot: bool): (r: Result<()>)
    ensures r.Err? ==> r.error in {TypeError, InvalidError}
    ensures r.Ok? <==>
      t.isClass
      && !(Clustered(ClusterSizeOf(t)) && |Interface(t.methods)| > 1)
      && |Batched(t.methods)| <= 1
      && !(|Batched(t.methods)| == 1 && |Interface(t.methods)| > 1)
      && !(enableMemorySnapshot == false && exists m | m in t.methods :: m.snapEnter)
      && !(exists m | m in t.methods :: m.isConcurrent)
  {
    if !t.isClass then Err(TypeError)
    else if Clustered(ClusterSizeOf(t)) && |Interface(t.methods)| > 1 then Err(InvalidError)
    else if |Batched(t.methods)| > 1 then Err(InvalidError)
    else if |Batched(t.methods)| == 1 && |Interface(t.methods)| > 1 then Err(InvalidError)
    else if (MethodsWhereEmpty(t.methods, (m: Method) => m.snapEnter);
             |MethodsWhere(t.methods, (m: Method) => m.snapEnter)| > 0 && !enableMemorySnapshot) then
      Err(InvalidError)
    else if (MethodsWhereEmpty(t.methods, (m: Method) => m.isConcurrent);
             |MethodsWhere(t.methods, (m: Method) => m.isConcurrent)| > 0) then
      Err(InvalidError)
    else Ok(())
  }

  function ClusterSizeOf(t: ClsTarget): Option<int>
  {
    if t.wrapped && t.clustered then t.clusterSize else None
  }

  /** `@app.cls(...)` applied to `t`: the argument checks, the class checks,
      then the service function is registered (never as a web endpoint)
      and the class filed under its name. */
  function DecorateCls(app: AppState, warnParenthesesMissing: bool, region: Sandbox.RegionArg,
                       placement: Option<Sandbox.SchedulerPlacement>, allowConcurrentInputs: Option<int>,
                       enableMemorySnapshot: bool, i6pn: bool, t: ClsTarget,
                       serviceFunction: FunctionObj, cls: ClsObj): (r: Result<(AppState, ClsSettings)>)
    ensures warnParenthesesMissing ==> r == Err(InvalidError)
    ensures r.Ok? <==> !warnParenthesesMissing && Sandbox.Placement(region, placement).Ok?
                       && ClsChecks(t, enableMemorySnapshot).Ok?
    ensures r.Ok? ==>
      var (s, settings) := r.value;
      var added := AddFunction(app, serviceFunction, false);
      s == added.(classes := DictSet(added.classes, t.className, cls))
      && (t.wrapped && t.concurrent ==>
            settings.maxConcurrentInputs == t.maxConcurrentInputs
            && settings.targetConcurrentInputs == t.targetConcurrentInputs)
      && (!(t.wrapped && t.concurrent) ==>
            settings.maxConcurrentInputs == allowConcurrentInputs && settings.targetConcurrentInputs.None?)
      && settings.clusterSize == ClusterSizeOf(t)
      && settings.i6pnEnabled == (i6pn || ClusterSizeOf(t).Some?)
      && (|Batched(t.methods)| == 0 ==> settings.batchMaxSize.None? && settings.batchWaitMs.None?)
      && (|Batched(t.methods)| == 1 ==>
            settings.batchMaxSize == Batched(t.methods)[0].batchMaxSize
            && settings.batchWaitMs == Batched(t.methods)[0].batchWaitMs)
  {
    if warnParenthesesMissing then Err(InvalidError)
    else
      var _ :- Sandbox.Placement(region, placement);
      var _ :- ClsChecks(t, enableMemorySnapshot);
      var concurrent := t.wrapped && t.concurrent;
      var batched := Batched(t.methods);
      var settings := ClsSettings(
        if concurrent then t.maxConcurrentInputs else allowConcurrentInputs,
        if concurrent then t.targetConcurrentInputs else None,
        ClusterSizeOf(t),
        if |batched| > 0 then batched[0].batchMaxSize else None,
        if |batched| > 0 then batched[0].batchWaitMs else None,
        i6pn || ClusterSizeOf(t).Some?);
      var added := AddFunction(app, serviceFunction, false);
      Ok((added.(classes := DictSet(added.classes, t.className, cls)), settings))
  }

  /** A class that passes the checks has at most one batched method, and a
      batched method is then its only interface method. */
  lemma ClsBatchedAlone(t: ClsTarget, enableMemorySnapshot: bool, m: Method)
    requires ClsChecks(t, enableMemorySnapshot).Ok?
    requires m in t.methods && m.isBatched && m.isInterface
    ensures Batched(t.methods) == [m]
    ensures Interface(t.methods) == [m]
  {
    assert m in Batched(t.methods);
    assert m in Interface(t.methods);
    assert |Interface(t.methods)| == 1;
  }

  // ---------------------------------------------------------------------
  // include and deploy

  /** `include`: every function of the other app is added as a non-web
      function, then every class is filed, overwriting. */
  function Include(app: AppState, other: AppState): (r: AppState)
    ensures r.name == app.name && r.webEndpoints == app.webEndpoints
    ensures r.localEntrypoints == app.localEntrypoints
  {
    IncludeClasses(IncludeFunctions(app, other.functions), other.classes)
  }

  function IncludeFunctions(app: AppState, fs: seq<(string, FunctionObj)>): (r: AppState)
    ensures r.name == app.name && r.classes == app.classes && r.webEndpoints == app.webEndpoints
    ensures r.localEntrypoints == app.localEntrypoints
    decreases |fs|
  {
    if |fs| == 0 then app else IncludeFunctions(AddFunction(app, fs[0].1, false), fs[1..])
  }

  function IncludeClasses(app: AppState, cs: seq<(string, ClsObj)>): (r: AppState)
    ensures r.name == app.name && r.functions == app.functions && r.webEndpoints == app.webEndpoints
    ensures r.localEntrypoints == app.localEntrypoints
    decreases |cs|
  {
    if |cs| == 0 then app else IncludeClasses(app.(classes := DictSet(app.classes, cs[0].0, cs[0].1)), cs[1..])
  }

  /** After `include`, every function and class of the other app is
      registered under its tag, this app's other tags are as they were, and
      no web endpoint or local entrypoint is added. */
  lemma IncludeSpec(app: AppState, other: AppState, tag: string)
    requires WellFormed(app) && WellFormed(other)
    ensures var r := Include(app, other);
      WellFormed(r)
      && r.webEndpoints == app.webEndpoints && r.localEntrypoints == app.localEntrypoints
      && (tag in Keys(other.functions) ==> Lookup(r.functions, tag) == Lookup(other.functions, tag))
      && (tag !in Keys(other.functions) ==> Lookup(r.functions, tag) == Lookup(app.functions, tag))
      && (tag in Keys(other.classes) ==> Lookup(r.classes, tag) == Lookup(other.classes, tag))
      && (tag !in Keys(other.classes) ==> Lookup(r.classes, tag) == Lookup(app.classes, tag))
  {
    IncludeFunctionsSpec(app, other.functions, tag);
    IncludeClassesSpec(IncludeFunctions(app, other.functions), other.classes, tag);
  }

  lemma {:induction false} IncludeFunctionsSpec(app: AppState, fs: seq<(string, FunctionObj)>, tag: string)
    requires WellFormed(app)
    requires Distinct(Keys(fs)) && forall k | 0 <= k < |fs| :: fs[k].1.tag == fs[k].0
    ensures var r := IncludeFunctions(app, fs);
      WellFormed(r)
      && r.webEndpoints == app.webEndpoints && r.localEntrypoints == app.localEntrypoints
      && r.classes == app.classes
      && (tag in Keys(fs) ==> Lookup(r.functions, tag) == Lookup(fs, tag))
      && (tag !in Keys(fs) ==> Lookup(r.functions, tag) == Lookup(app.functions, tag))
    decreases |fs|
  {
    if |fs| > 0 {
      var f := fs[0].1;
      var next := AddFunction(app, f, false);
      KeysTail(fs);
      assert forall k | 0 <= k < |fs[1..]| :: fs[1..][k] == fs[k + 1];
      IncludeFunctionsSpec(next, fs[1..], tag);
    }
  }

  lemma {:induction false} IncludeClassesSpec(app: AppState, cs: seq<(string, ClsObj)>, tag: string)
    requires WellFormed(app)
    ensures var r := IncludeClasses(app, cs);
      WellFormed(r) && r.functions == app.functions
      && r.webEndpoints == app.webEndpoints && r.localEntrypoints == app.localEntrypoints
      && (tag in Keys(cs) && Distinct(Keys(cs)) ==> Lookup(r.classes, tag) == Lookup(cs, tag))
      && (tag !in Keys(cs) ==> Lookup(r.classes, tag) == Lookup(app.classes, tag))
    decreases |cs|
  {
    if |cs| > 0 {
      var next := app.(classes := DictSet(app.classes, cs[0].0, cs[0].1));
      DictSetSpec(app.classes, cs[0].0, cs[0].1);
      if tag != cs[0].0 {
        LookupOther(app.classes, cs[0].0, cs[0].1, tag);
      }
      KeysTail(cs);
      IncludeClassesSpec(next, cs[1..], tag);
    }
  }

  /** The guard of `deploy`: it needs a name from the call or from the
      app.  Which of the two names the deployment then gets is decided by
      `_deploy_app`. */
  function DeployCheck(app: AppState, name: Option<string>): (r: Result<()>)
    ensures r.Err? <==> name.None? && app.name.None?
    ensures r.Err? ==> r.error == InvalidError
  {
    if name.None? && app.name.None? then Err(InvalidError) else Ok(())
  }

  /** An app created with a name always passes the guard; an unnamed app
      passes it exactly when the call names the deployment. */
  lemma DeployCheckOfNewApp(appName: Option<string>, name: Option<string>)
    ensures appName.Some? ==> DeployCheck(NewApp(appName), name).Ok?
    ensures appName.None? ==> (DeployCheck(NewApp(appName), name).Ok? <==> name.Some?)
  {
  }
}
