/** Class-parameter serialization and the data-format dispatch of
    modal/_serialization.py: defaults from a parameter schema, validation
    against it, the protobuf encoding of parameter dicts and its inverse,
    and the payload encodings selected by a data-format code.

    Parameter dicts are insertion-ordered sequences of (name, value) pairs,
    because the protobuf encoding follows the dict's iteration order.  The
    protobuf and pickle byte strings are represented by the structured values
    they encode. */
module Serialization {
  import opened Errors
  import opened Collections
  import Asgi

  // ---------------------------------------------------------------------
  // Parameter values and schemas

  /** The Python values a class parameter can hold, by exact runtime type
      (`bool` is its own type here, as `type(True) is bool`). */
  datatype PyValue =
    | PyStr(s: string)
    | PyInt(i: int)
    | PyBytes(b: Bytes)
    | PyBool(flag: bool)
    | PyOther(typeName: string)

  /** `ParameterType`: the three types with a payload handler, and any other
      enum value (unspecified, or a type this client has no handler for). */
  datatype ParamType = StringParam | IntParam | BytesParam | UnhandledParam(code: int)

  /** The `default_oneof` of a `ClassParameterSpec`. */
  datatype DefaultValue = StringDefault(s: string) | IntDefault(i: int) | BytesDefault(b: Bytes)

  datatype ParamSpec = ParamSpec(name: string, ptype: ParamType, hasDefault: bool, default: Option<DefaultValue>)

  /** The range of the signed 64-bit `int_value` field. */
  const INT64_MIN: int := -0x8000_0000_0000_0000
  const INT64_MAX: int := 0x7FFF_FFFF_FFFF_FFFF

  type Int64 = i: int | INT64_MIN <= i <= INT64_MAX

  /** A `ClassParameterValue`; the value fields not selected by `ptype` keep
      their proto3 defaults. */
  datatype ParamValue = ParamValue(name: string, ptype: ParamType, stringValue: string, intValue: Int64, bytesValue: Bytes)

  type Params = seq<(string, PyValue)>

  function DefaultAsValue(d: DefaultValue): PyValue
  {
    match d
    case StringDefault(s) => PyStr(s)
    case IntDefault(i) => PyInt(i)
    case BytesDefault(b) => PyBytes(b)
  }

  function SchemaNames(schema: seq<ParamSpec>): set<string>
  {
    set i | 0 <= i < |schema| :: schema[i].name
  }

  // ---------------------------------------------------------------------
  // apply_defaults

  /** A schema entry whose default `apply_defaults` must supply. */
  predicate NeedsDefault(params: Params, p: ParamSpec)
  {
    p.hasDefault && p.name !in Keys(params)
  }

  /** No later schema entry has the same name as entry `i`. */
  predicate LastWithName(schema: seq<ParamSpec>, i: int)
    requires 0 <= i < |schema|
  {
    forall j | i < j < |schema| :: schema[j].name != schema[i].name
  }

  /** The names `apply_defaults` adds. */
  function DefaultedNames(params: Params, schema: seq<ParamSpec>): set<string>
  {
    set i | 0 <= i < |schema| && NeedsDefault(params, schema[i]) :: schema[i].name
  }

  /** `apply_defaults`: copy the given parameters and add the declared
      default of every schema entry that has one and is not given.  An entry
      flagged as having a default but carrying none raises InvalidError. */
  function ApplyDefaults(params: Params, schema: seq<ParamSpec>): (r: Result<Params>)
    requires Distinct(Keys(params))
    ensures r.Ok? <==> forall i | 0 <= i < |schema| :: NeedsDefault(params, schema[i]) ==> schema[i].default.Some?
    ensures r.Err? ==> r.error == InvalidError
    ensures r.Ok? ==> Distinct(Keys(r.value)) && |r.value| >= |params| && r.value[..|params|] == params
    ensures r.Ok? ==> ToSet(Keys(r.value)) == ToSet(Keys(params)) + DefaultedNames(params, schema)
    ensures r.Ok? ==> forall i | 0 <= i < |schema| && NeedsDefault(params, schema[i]) && LastWithName(schema, i) ::
      Lookup(r.value, schema[i].name) == Some(DefaultAsValue(schema[i].default.value))
  {
    assert params[..|params|] == params;
    ApplyDefaultsKeepsGiven(params, schema, params);
    ApplyDefaultsKeys(params, schema, params);
    forall i | 0 <= i < |schema| && NeedsDefault(params, schema[i]) && LastWithName(schema, i)
      ensures var r := ApplyDefaultsFrom(params, schema, params);
        r.Ok? ==> Lookup(r.value, schema[i].name) == Some(DefaultAsValue(schema[i].default.value))
    {
      ApplyDefaultsValues(params, schema, params, i);
    }
    ApplyDefaultsFrom(params, schema, params)
  }

  function ApplyDefaultsFrom(params: Params, schema: seq<ParamSpec>, acc: Params): (r: Result<Params>)
    requires Distinct(Keys(acc))
    ensures r.Ok? <==> forall i | 0 <= i < |schema| :: NeedsDefault(params, schema[i]) ==> schema[i].default.Some?
    ensures r.Err? ==> r.error == InvalidError
    ensures r.Ok? ==> Distinct(Keys(r.value))
    decreases |schema|
  {
    if |schema| == 0 then Ok(acc)
    else
      var p := schema[0];
      assert forall i | 1 <= i < |schema| :: schema[i] == schema[1..][i - 1];
      if NeedsDefault(params, p) then
        if p.default.None? then Err(InvalidError)
        else
          var v := DefaultAsValue(p.default.value);
          DictSetSpec(acc, p.name, v);
          ApplyDefaultsFrom(params, schema[1..], DictSet(acc, p.name, v))
      else
        ApplyDefaultsFrom(params, schema[1..], acc)
  }

  /** The entries already present stay in front, untouched, as long as
      only names the original dict lacks are set. */
  lemma {:induction false} ApplyDefaultsKeepsGiven(params: Params, schema: seq<ParamSpec>, acc: Params)
    requires Distinct(Keys(acc)) && |acc| >= |params| && acc[..|params|] == params
    ensures var r := ApplyDefaultsFrom(params, schema, acc);
      r.Ok? ==> |r.value| >= |params| && r.value[..|params|] == params
    decreases |schema|
  {
    if |schema| > 0 {
      var p := schema[0];
      if NeedsDefault(params, p) && p.default.Some? {
        var v := DefaultAsValue(p.default.value);
        DictSetSpec(acc, p.name, v);
        DictSetKeepsPrefix(acc, params, p.name, v);
        ApplyDefaultsKeepsGiven(params, schema[1..], DictSet(acc, p.name, v));
      } else {
        ApplyDefaultsKeepsGiven(params, schema[1..], acc);
      }
    }
  }

  /** The keys after applying defaults are the keys before plus the
      defaulted names. */
  lemma {:induction false} ApplyDefaultsKeys(params: Params, schema: seq<ParamSpec>, acc: Params)
    requires Distinct(Keys(acc))
    ensures var r := ApplyDefaultsFrom(params, schema, acc);
      r.Ok? ==> ToSet(Keys(r.value)) == ToSet(Keys(acc)) + DefaultedNames(params, schema)
    decreases |schema|
  {
    if |schema| > 0 {
      var p := schema[0];
      DefaultedNamesStep(params, schema);
      if NeedsDefault(params, p) && p.default.Some? {
        var v := DefaultAsValue(p.default.value);
        DictSetSpec(acc, p.name, v);
        ApplyDefaultsKeys(params, schema[1..], DictSet(acc, p.name, v));
      } else {
        ApplyDefaultsKeys(params, schema[1..], acc);
      }
    }
  }

  /** A name set for the last time by a schema entry holds that entry's
      default at the end. */
  lemma {:induction false} ApplyDefaultsValues(params: Params, schema: seq<ParamSpec>, acc: Params, i: int)
    requires Distinct(Keys(acc)) && 0 <= i < |schema|
    requires NeedsDefault(params, schema[i]) && LastWithName(schema, i)
    ensures var r := ApplyDefaultsFrom(params, schema, acc);
      r.Ok? ==> Lookup(r.value, schema[i].name) == Some(DefaultAsValue(schema[i].default.value))
    decreases |schema|
  {
    var p := schema[0];
    var r := ApplyDefaultsFrom(params, schema, acc);
    if r.Ok? {
      assert forall j | 1 <= j < |schema| :: schema[j] == schema[1..][j - 1];
      if NeedsDefault(params, p) {
        var v := DefaultAsValue(p.default.value);
        DictSetSpec(acc, p.name, v);
        if i > 0 {
          ApplyDefaultsValues(params, schema[1..], DictSet(acc, p.name, v), i - 1);
        } else {
          ApplyDefaultsUntouched(params, schema[1..], DictSet(acc, p.name, v), p.name);
        }
      } else {
        ApplyDefaultsValues(params, schema[1..], acc, i - 1);
      }
    }
  }

  /** A name no remaining schema entry mentions keeps its value. */
  lemma {:induction false} ApplyDefaultsUntouched(params: Params, schema: seq<ParamSpec>, acc: Params, key: string)
    requires Distinct(Keys(acc))
    requires forall j | 0 <= j < |schema| :: schema[j].name != key
    ensures var r := ApplyDefaultsFrom(params, schema, acc);
      r.Ok? ==> Lookup(r.value, key) == Lookup(acc, key)
    decreases |schema|
  {
    if |schema| > 0 {
      var p := schema[0];
      assert forall j | 1 <= j < |schema| :: schema[j] == schema[1..][j - 1];
      if NeedsDefault(params, p) && p.default.Some? {
        var v := DefaultAsValue(p.default.value);
        DictSetSpec(acc, p.name, v);
        LookupOther(acc, p.name, v, key);
        ApplyDefaultsUntouched(params, schema[1..], DictSet(acc, p.name, v), key);
      } else {
        ApplyDefaultsUntouched(params, schema[1..], acc, key);
      }
    }
  }

  /** Setting a key the original dict lacks leaves the original entries in
      front untouched. */
  lemma DictSetKeepsPrefix(acc: Params, params: Params, key: string, v: PyValue)
    requires |acc| >= |params| && acc[..|params|] == params && key !in Keys(params)
    ensures var r := DictSet(acc, key, v); |r| >= |params| && r[..|params|] == params
  {
    var r := DictSet(acc, key, v);
    DictSetInPlace(acc, key, v);
    forall k | 0 <= k < |params|
      ensures r[k] == params[k]
    {
      assert acc[k] == params[k] && Keys(params)[k] == params[k].0;
    }
  }

  lemma DefaultedNamesStep(params: Params, schema: seq<ParamSpec>)
    requires |schema| > 0
    ensures DefaultedNames(params, schema) ==
      (if NeedsDefault(params, schema[0]) then {schema[0].name} else {}) + DefaultedNames(params, schema[1..])
  {
    var d := DefaultedNames(params, schema);
    var d' := DefaultedNames(params, schema[1..]);
    forall x | x in d
      ensures x in (if NeedsDefault(params, schema[0]) then {schema[0].name} else {}) + d'
    {
      var i :| 0 <= i < |schema| && NeedsDefault(params, schema[i]) && schema[i].name == x;
      if i > 0 {
        assert schema[1..][i - 1] == schema[i];
      }
    }
    forall x | x in d' ensures x in d
    {
      var i :| 0 <= i < |schema| - 1 && NeedsDefault(params, schema[1..][i]) && schema[1..][i].name == x;
      assert schema[i + 1] == schema[1..][i];
    }
  }

  // ---------------------------------------------------------------------
  // validate_params

  /** `validate_python_value`: the exact Python type must be the handler's
      base type; a bool is not accepted for an int parameter. */
  predicate HasType(v: PyValue, t: ParamType)
  {
    match t
    case StringParam => v.PyStr?
    case IntParam => v.PyInt?
    case BytesParam => v.PyBytes?
    case UnhandledParam(_) => false
  }

  /** The schema entry is given, has a handled type, and the given value has
      that type. */
  predicate Satisfied(params: Params, p: ParamSpec)
  {
    Lookup(params, p.name).Some? && !p.ptype.UnhandledParam? && HasType(Lookup(params, p.name).value, p.ptype)
  }

  /** The entry is given with a handled type but the value's type differs. */
  predicate Mistyped(params: Params, p: ParamSpec)
  {
    Lookup(params, p.name).Some? && !p.ptype.UnhandledParam? && !HasType(Lookup(params, p.name).value, p.ptype)
  }

  /** Entry `i` is the first schema entry that is not satisfied. */
  predicate FirstUnsatisfied(params: Params, schema: seq<ParamSpec>, i: int)
  {
    0 <= i < |schema| && !Satisfied(params, schema[i])
    && forall j | 0 <= j < i :: Satisfied(params, schema[j])
  }

  /** The error raised for the first unsatisfied entry: TypeError when its
      value has the wrong type, InvalidError when it is missing or its type
      has no handler. */
  function EntryError(params: Params, p: ParamSpec): Error
  {
    if Mistyped(params, p) then TypeError else InvalidError
  }

  /** `validate_params`: every schema entry must be given with a value of its
      type (missing names and unhandled types raise InvalidError, a wrong
      type raises TypeError), and no name outside the schema may be given
      (InvalidError). */
  function ValidateParams(params: Params, schema: seq<ParamSpec>): (r: Result<()>)
    ensures r.Ok? <==>
      (forall i | 0 <= i < |schema| :: Satisfied(params, schema[i]))
      && (forall k | 0 <= k < |params| :: params[k].0 in SchemaNames(schema))
    ensures r.Err? ==> r.error == InvalidError || r.error == TypeError
    ensures r.Err? && r.error == TypeError ==> exists i | 0 <= i < |schema| :: Mistyped(params, schema[i])
    ensures (exists i | 0 <= i < |schema| :: Lookup(params, schema[i].name).None?) ==> r.Err?
    ensures forall i | FirstUnsatisfied(params, schema, i) :: r == Err(EntryError(params, schema[i]))
  {
    var _ :- CheckSchema(params, schema);
    if exists k | 0 <= k < |params| :: params[k].0 !in SchemaNames(schema) then Err(InvalidError)
    else Ok(())
  }

  /** The outcomes for a schema with one required string parameter "x": a
      missing "x", a bytes value for it, an undeclared extra name, and the
      valid dict. */
  lemma ValidateParamsOneString(b: Bytes)
    ensures var schema := [ParamSpec("x", StringParam, false, None)];
      ValidateParams([("a", PyStr("b"))], schema) == Err(InvalidError)
      && ValidateParams([("x", PyBytes(b))], schema) == Err(TypeError)
      && ValidateParams([("x", PyStr("y")), ("a", PyStr("b"))], schema) == Err(InvalidError)
      && ValidateParams([("x", PyStr("y"))], schema) == Ok(())
  {
    var schema := [ParamSpec("x", StringParam, false, None)];
    assert FirstUnsatisfied([("a", PyStr("b"))], schema, 0);
    assert FirstUnsatisfied([("x", PyBytes(b))], schema, 0);
    var extra := [("x", PyStr("y")), ("a", PyStr("b"))];
    assert Lookup(extra, "x") == Some(PyStr("y"));
    assert Satisfied(extra, schema[0]);
    assert extra[1].0 !in SchemaNames(schema);
  }

  /** The loop over the schema entries, in order. */
  function CheckSchema(params: Params, schema: seq<ParamSpec>): (r: Result<()>)
    ensures r.Ok? <==> forall i | 0 <= i < |schema| :: Satisfied(params, schema[i])
    ensures r.Err? ==> r.error == InvalidError || r.error == TypeError
    ensures r.Err? && r.error == TypeError ==> exists i | 0 <= i < |schema| :: Mistyped(params, schema[i])
    ensures forall i | FirstUnsatisfied(params, schema, i) :: r == Err(EntryError(params, schema[i]))
  {
    if |schema| == 0 then Ok(())
    else
      var p := schema[0];
      if Lookup(params, p.name).None? then Err(InvalidError)
      else if p.ptype.UnhandledParam? then Err(InvalidError)
      else if !HasType(Lookup(params, p.name).value, p.ptype) then
        assert Mistyped(params, schema[0]);
        Err(TypeError)
      else
        var r := CheckSchema(params, schema[1..]);
        assert forall i | 1 <= i < |schema| :: schema[i] == schema[1..][i - 1];
        assert forall i | FirstUnsatisfied(params, schema, i) :: i > 0 && FirstUnsatisfied(params, schema[1..], i - 1);
        r
  }

  // ---------------------------------------------------------------------
  // serialize_proto_params / deserialize_proto_params

  /** `python_type_to_payload_handler(type(v)).to_proto_struct(v)`, named.
      An int outside the signed 64-bit range is refused by the protobuf
      field with ValueError; a value of any other type has no handler. */
  function ToProto(name: string, v: PyValue): (r: Result<ParamValue>)
    ensures r.Ok? <==> Serializable(v)
    ensures v.PyInt? && !(INT64_MIN <= v.i <= INT64_MAX) ==> r == Err(ValueError)
    ensures !(v.PyStr? || v.PyInt? || v.PyBytes?) ==> r == Err(InvalidError)
    ensures r.Ok? ==> r.value.name == name && HasType(v, r.value.ptype)
  {
    match v
    case PyStr(s) => Ok(ParamValue(name, StringParam, s, 0, []))
    case PyInt(i) => if INT64_MIN <= i <= INT64_MAX then Ok(ParamValue(name, IntParam, "", i, [])) else Err(ValueError)
    case PyBytes(b) => Ok(ParamValue(name, BytesParam, "", 0, b))
    case _ => Err(InvalidError)
  }

  /** `from_proto_struct` through the handler selected by the proto type. */
  function FromProto(p: ParamValue): (r: Result<PyValue>)
    ensures r.Ok? <==> !p.ptype.UnhandledParam?
    ensures r.Err? ==> r.error == NotImplementedError
    ensures r.Ok? ==> HasType(r.value, p.ptype)
  {
    match p.ptype
    case StringParam => Ok(PyStr(p.stringValue))
    case IntParam => Ok(PyInt(p.intValue))
    case BytesParam => Ok(PyBytes(p.bytesValue))
    case UnhandledParam(_) => Err(NotImplementedError)
  }

  /** A value `serialize_proto_params` accepts: a str, an int that fits the
      64-bit field, or bytes. */
  predicate Serializable(v: PyValue)
  {
    v.PyStr? || (v.PyInt? && INT64_MIN <= v.i <= INT64_MAX) || v.PyBytes?
  }

  /** `serialize_proto_params`: one `ClassParameterValue` per entry, in dict
      order; the first entry that cannot be encoded raises, InvalidError for
      a value of an unhandled type and ValueError for an int too wide for
      the field. */
  function SerializeProtoParams(params: Params): (r: Result<seq<ParamValue>>)
    ensures r.Ok? <==> forall k | 0 <= k < |params| :: Serializable(params[k].1)
    ensures r.Err? ==> exists k | 0 <= k < |params| :: ToProto(params[k].0, params[k].1) == Err(r.error)
    ensures r.Err? ==> r.error == InvalidError || r.error == ValueError
    ensures r.Ok? ==> |r.value| == |params|
    ensures r.Ok? ==> forall k | 0 <= k < |params| :: r.value[k].name == params[k].0
  {
    if |params| == 0 then Ok([])
    else
      var head :- ToProto(params[0].0, params[0].1);
      var tail :- SerializeProtoParams(params[1..]);
      assert forall k | 1 <= k < |params| :: params[k] == params[1..][k - 1];
      Ok([head] + tail)
  }

  /** `deserialize_proto_params`: `python_params[name] = value` for each
      entry in order, so a repeated name keeps its first position and its
      last value; an unhandled type raises NotImplementedError. */
  function DeserializeProtoParams(values: seq<ParamValue>): (r: Result<Params>)
    ensures r.Ok? <==> forall k | 0 <= k < |values| :: !values[k].ptype.UnhandledParam?
    ensures r.Err? ==> r.error == NotImplementedError
    ensures r.Ok? ==> Distinct(Keys(r.value))
  {
    DeserializeInto([], values)
  }

  function DeserializeInto(acc: Params, values: seq<ParamValue>): (r: Result<Params>)
    requires Distinct(Keys(acc))
    ensures r.Ok? <==> forall k | 0 <= k < |values| :: !values[k].ptype.UnhandledParam?
    ensures r.Err? ==> r.error == NotImplementedError
    ensures r.Ok? ==> Distinct(Keys(r.value))
    decreases |values|
  {
    if |values| == 0 then Ok(acc)
    else
      var v :- FromProto(values[0]);
      DictSetSpec(acc, values[0].name, v);
      var r := DeserializeInto(DictSet(acc, values[0].name, v), values[1..]);
      assert forall k | 1 <= k < |values| :: values[k] == values[1..][k - 1];
      r
  }

  /** Deserializing the serialization of a dict of str, int and bytes values
      gives back the same dict, in the same order. */
  lemma ProtoParamsRoundTrip(params: Params)
    requires Distinct(Keys(params))
    requires forall k | 0 <= k < |params| :: Serializable(params[k].1)
    ensures SerializeProtoParams(params).Ok?
    ensures DeserializeProtoParams(SerializeProtoParams(params).value) == Ok(params)
  {
    var empty: Params := [];
    RoundTripInto(empty, params);
    assert empty + params == params;
  }

  lemma {:induction false} RoundTripInto(acc: Params, params: Params)
    requires Distinct(Keys(acc)) && Distinct(Keys(params))
    requires forall k | 0 <= k < |params| :: params[k].0 !in Keys(acc)
    requires forall k | 0 <= k < |params| :: Serializable(params[k].1)
    ensures SerializeProtoParams(params).Ok?
    ensures DeserializeInto(acc, SerializeProtoParams(params).value) == Ok(acc + params)
    decreases |params|, 1
  {
    if |params| == 0 {
      assert acc + params == acc;
      assert SerializeProtoParams(params) == Ok([]);
    } else {
      RoundTripCons(acc, params);
    }
  }

  lemma {:induction false} RoundTripCons(acc: Params, params: Params)
    requires Distinct(Keys(acc)) && Distinct(Keys(params)) && |params| > 0
    requires forall k | 0 <= k < |params| :: params[k].0 !in Keys(acc)
    requires forall k | 0 <= k < |params| :: Serializable(params[k].1)
    ensures SerializeProtoParams(params).Ok?
    ensures DeserializeInto(acc, SerializeProtoParams(params).value) == Ok(acc + params)
    decreases |params|, 0
  {
    var acc', rest := acc + [params[0]], params[1..];
    RoundTripStep(acc, params);
    MoveFirst(acc, params);
    RoundTripInto(acc', rest);
    ConsShift(acc, params);
  }

  lemma ConsShift<T>(a: seq<T>, b: seq<T>)
    requires |b| > 0
    ensures (a + [b[0]]) + b[1..] == a + b
  {
  }

  /** Deserializing the first serialized entry appends it to `acc`. */
  lemma RoundTripStep(acc: Params, params: Params)
    requires Distinct(Keys(acc)) && |params| > 0
    requires forall k | 0 <= k < |params| :: params[k].0 !in Keys(acc)
    requires forall k | 0 <= k < |params| :: Serializable(params[k].1)
    ensures SerializeProtoParams(params).Ok? && SerializeProtoParams(params[1..]).Ok?
    ensures Distinct(Keys(acc + [params[0]]))
    ensures DeserializeInto(acc, SerializeProtoParams(params).value) ==
      DeserializeInto(acc + [params[0]], SerializeProtoParams(params[1..]).value)
  {
    var values := SerializeProtoParams(params).value;
    SerializeHead(params);
    ValueRoundTrip(params[0].0, params[0].1);
    assert values[1..] == SerializeProtoParams(params[1..]).value;
    assert DictSet(acc, params[0].0, params[0].1) == acc + [params[0]];
    DeserializeStep(acc, values);
  }

  /** The first serialized entry and the rest. */
  lemma SerializeHead(params: Params)
    requires |params| > 0 && forall k | 0 <= k < |params| :: Serializable(params[k].1)
    ensures ToProto(params[0].0, params[0].1).Ok? && SerializeProtoParams(params[1..]).Ok?
    ensures SerializeProtoParams(params) ==
      Ok([ToProto(params[0].0, params[0].1).value] + SerializeProtoParams(params[1..]).value)
  {
    assert Serializable(params[0].1);
    assert forall k | 0 <= k < |params| - 1 :: Serializable(params[1..][k].1) by {
      assert forall k | 1 <= k < |params| :: params[k] == params[1..][k - 1];
    }
  }

  /** A single value survives `to_proto_struct` then `from_proto_struct`. */
  lemma ValueRoundTrip(name: string, v: PyValue)
    requires Serializable(v)
    ensures ToProto(name, v).Ok? && FromProto(ToProto(name, v).value) == Ok(v)
  {
  }

  /** One step of `DeserializeInto`. */
  lemma DeserializeStep(acc: Params, values: seq<ParamValue>)
    requires Distinct(Keys(acc)) && |values| > 0 && FromProto(values[0]).Ok?
    ensures Distinct(Keys(DictSet(acc, values[0].name, FromProto(values[0]).value)))
    ensures DeserializeInto(acc, values) ==
      DeserializeInto(DictSet(acc, values[0].name, FromProto(values[0]).value), values[1..])
  {
    DictSetSpec(acc, values[0].name, FromProto(values[0]).value);
  }

  /** Moving the first entry of `params` onto `acc` keeps the round-trip
      preconditions. */
  lemma MoveFirst(acc: Params, params: Params)
    requires Distinct(Keys(acc)) && Distinct(Keys(params)) && |params| > 0
    requires forall k | 0 <= k < |params| :: params[k].0 !in Keys(acc)
    requires forall k | 0 <= k < |params| :: Serializable(params[k].1)
    ensures Distinct(Keys(acc + [params[0]])) && Distinct(Keys(params[1..]))
    ensures forall k | 0 <= k < |params| - 1 :: params[1..][k].0 !in Keys(acc + [params[0]])
    ensures forall k | 0 <= k < |params| - 1 :: Serializable(params[1..][k].1)
  {
    var acc' := acc + [params[0]];
    assert Keys(acc') == Keys(acc) + [params[0].0];
    assert Keys(params[1..]) == Keys(params)[1..];
    forall k | 0 <= k < |params| - 1
      ensures params[1..][k].0 !in Keys(acc')
    {
      assert Keys(params)[0] != Keys(params)[k + 1];
    }
  }

  /** Every int in the dict fits the 64-bit parameter field. */
  predicate IntsFit(params: Params)
  {
    forall k | 0 <= k < |params| :: params[k].1.PyInt? ==> INT64_MIN <= params[k].1.i <= INT64_MAX
  }

  /** Parameters that pass validation against a schema serialize exactly
      when their ints fit the field; otherwise serialization raises
      ValueError. */
  lemma ValidatedSerializes(params: Params, schema: seq<ParamSpec>)
    requires Distinct(Keys(params)) && ValidateParams(params, schema).Ok?
    ensures SerializeProtoParams(params).Ok? <==> IntsFit(params)
    ensures SerializeProtoParams(params).Err? ==> SerializeProtoParams(params) == Err(ValueError)
  {
    forall k | 0 <= k < |params| ensures params[k].1.PyStr? || params[k].1.PyInt? || params[k].1.PyBytes?
    {
      ValidatedEntry(params, schema, k);
    }
  }

  lemma ValidatedEntry(params: Params, schema: seq<ParamSpec>, k: int)
    requires Distinct(Keys(params)) && ValidateParams(params, schema).Ok? && 0 <= k < |params|
    ensures params[k].1.PyStr? || params[k].1.PyInt? || params[k].1.PyBytes?
  {
    var i :| 0 <= i < |schema| && schema[i].name == params[k].0;
    assert Satisfied(params, schema[i]);
    LookupAt(params, k);
  }

  /** In a dict with distinct keys, the lookup of entry `k`'s key finds it. */
  lemma {:induction false} LookupAt<V>(d: seq<(string, V)>, k: int)
    requires 0 <= k < |d| && Distinct(Keys(d))
    ensures Lookup(d, d[k].0) == Some(d[k].1)
  {
    if k > 0 {
      assert Keys(d)[0] != Keys(d)[k];
      assert Keys(d[1..]) == Keys(d)[1..];
      LookupAt(d[1..], k - 1);
    }
  }

  // ---------------------------------------------------------------------
  // deserialize_params

  /** `ClassParameterInfo.format`. */
  datatype ParamFormat = FormatUnspecified | FormatPickle | FormatProto | FormatUnknown(code: int)

  /** What the serialized parameter bytes hold: a pickled `(args, kwargs)`
      pair or a `ClassParameterSet`. */
  datatype ParamWire = PickledCall(args: seq<PyValue>, kwargs: Params) | ProtoSet(values: seq<ParamValue>)

  /** `deserialize_params`: the legacy pickle format yields the pickled pair;
      the proto format yields keyword arguments only, validated against the
      schema; any other format raises ExecutionError. */
  function DeserializeParams(wire: ParamWire, format: ParamFormat, schema: seq<ParamSpec>)
    : (r: Result<(seq<PyValue>, Params)>)
    ensures format.FormatUnknown? ==> r == Err(ExecutionError)
    ensures r.Ok? && format == FormatProto ==>
      r.value.0 == [] && ValidateParams(r.value.1, schema).Ok? && Distinct(Keys(r.value.1))
    ensures (format == FormatPickle || format == FormatUnspecified) && wire.PickledCall? ==>
      r == Ok((wire.args, wire.kwargs))
  {
    match format
    case FormatUnspecified => Unpickle(wire)
    case FormatPickle => Unpickle(wire)
    case FormatProto =>
      if !wire.ProtoSet? then Err(DecodeError)
      else
        var kwargs :- DeserializeProtoParams(wire.values);
        var _ :- ValidateParams(kwargs, schema);
        Ok(([], kwargs))
    case FormatUnknown(_) => Err(ExecutionError)
  }

  function Unpickle(wire: ParamWire): Result<(seq<PyValue>, Params)>
  {
    if wire.PickledCall? then Ok((wire.args, wire.kwargs)) else Err(DecodeError)
  }

  /** Parameters that validate and are sent in the proto format come back
      unchanged and valid. */
  lemma ProtoParamsDelivered(params: Params, schema: seq<ParamSpec>)
    requires Distinct(Keys(params)) && ValidateParams(params, schema).Ok? && IntsFit(params)
    ensures SerializeProtoParams(params).Ok?
    ensures DeserializeParams(ProtoSet(SerializeProtoParams(params).value), FormatProto, schema) == Ok(([], params))
  {
    ValidatedSerializes(params, schema);
    ProtoParamsRoundTrip(params);
  }

  // ---------------------------------------------------------------------
  // serialize_data_format / deserialize_data_format

  /** The data formats of function inputs and outputs. */
  datatype DataFormat = PickleFormat | AsgiFormat | GeneratorDoneFormat | OtherFormat(code: int)

  /** The Python objects carried in these formats: an arbitrary picklable
      value, an ASGI event dict (or `None`), or a `GeneratorDone` message. */
  datatype Payload<V> = PyObject(v: V) | AsgiEvent(event: Option<Asgi.Event>) | GeneratorDone(itemsTotal: int)

  /** The bytes of each format, by what they encode. */
  datatype Wire<V> = Pickled(obj: Payload<V>) | AsgiBytes(msg: Asgi.Message) | GeneratorDoneBytes(itemsTotal: int)

  /** `serialize_data_format`.  ASGI needs a dict (anything else has no
      `.get`), GENERATOR_DONE asserts a `GeneratorDone` message, and an
      unknown format raises InvalidError. */
  function SerializeDataFormat<V>(obj: Payload<V>, format: DataFormat): (r: Result<Wire<V>>)
    ensures format.OtherFormat? ==> r == Err(InvalidError)
    ensures format == PickleFormat ==> r == Ok(Pickled(obj))
    ensures format == GeneratorDoneFormat ==> (r.Ok? <==> obj.GeneratorDone?)
    ensures format == AsgiFormat && r.Ok? ==> obj.AsgiEvent? && r.value.AsgiBytes?
  {
    match format
    case PickleFormat => Ok(Pickled(obj))
    case AsgiFormat =>
      if obj.AsgiEvent? then
        var m :- Asgi.Encode(obj.event);
        Ok(AsgiBytes(m))
      else Err(AttributeError)
    case GeneratorDoneFormat =>
      if obj.GeneratorDone? then Ok(GeneratorDoneBytes(obj.itemsTotal)) else Err(AssertionError)
    case OtherFormat(_) => Err(InvalidError)
  }

  /** `deserialize_data_format`; bytes of another format do not parse. */
  function DeserializeDataFormat<V>(w: Wire<V>, format: DataFormat): (r: Result<Payload<V>>)
    ensures format.OtherFormat? ==> r == Err(InvalidError)
    ensures format == AsgiFormat && r.Ok? ==> r.value.AsgiEvent?
    ensures format == AsgiFormat && w.AsgiBytes? ==> r == Ok(AsgiEvent(Asgi.Decode(w.msg)))
    ensures format == GeneratorDoneFormat && r.Ok? ==> r.value.GeneratorDone?
  {
    match format
    case PickleFormat => if w.Pickled? then Ok(w.obj) else Err(DecodeError)
    case AsgiFormat => if w.AsgiBytes? then Ok(AsgiEvent(Asgi.Decode(w.msg))) else Err(DecodeError)
    case GeneratorDoneFormat =>
      if w.GeneratorDoneBytes? then Ok(GeneratorDone(w.itemsTotal)) else Err(DecodeError)
    case OtherFormat(_) => Err(InvalidError)
  }

  /** Every object a format can carry comes back unchanged: any object
      through pickle, a `GeneratorDone` through its own format, and any
      event the ASGI decoder can produce through ASGI. */
  lemma DataFormatRoundTrip<V>(obj: Payload<V>, format: DataFormat)
    requires !format.OtherFormat?
    requires format == GeneratorDoneFormat ==> obj.GeneratorDone?
    requires format == AsgiFormat ==> obj.AsgiEvent? && exists m :: Asgi.Decode(m) == obj.event
    ensures SerializeDataFormat(obj, format).Ok?
    ensures DeserializeDataFormat(SerializeDataFormat(obj, format).value, format) == Ok(obj)
  {
    if format == AsgiFormat {
      var m :| Asgi.Decode(m) == obj.event;
      Asgi.EventRoundTrip(m);
    }
  }
}
