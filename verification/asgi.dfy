/** The ASGI message codec of modal/_serialization.py (`_serialize_asgi`,
    `_deserialize_asgi`): ASGI HTTP and WebSocket event dicts to and from the
    `Asgi` protobuf message.

    A Python event dict is a map from the keys the codec reads or writes to
    the values found there; keys the codec never reads are ignored by the
    encoder and never produced by the decoder, so they are not represented.
    The protobuf message is a datatype with one variant per `oneof` arm;
    fields the decoder tests with `HasField` are `Option`s, the others are
    plain proto3 scalars whose unset value is the type's default. */
module Asgi {
  import opened Errors
  import Utf8

  /** Close code for "no status received" (section 7.4.1 of RFC 6455). */
  const NO_STATUS_RECEIVED: int := 1005
  /** Close code for "normal closure" (section 7.4.1 of RFC 6455). */
  const NORMAL_CLOSURE: int := 1000

  datatype Key =
    | Type | HttpVersion | Method | Scheme | Path | QueryString | Headers | Client
    | Extensions | Body | MoreBody | Status | Trailers | MoreTrailers
    | Subprotocols | Subprotocol | BytesField | Text | Code | Reason

  /** The dict key each `Key` stands for. */
  function KeyName(k: Key): string
  {
    match k
    case Type => "type"
    case HttpVersion => "http_version"
    case Method => "method"
    case Scheme => "scheme"
    case Path => "path"
    case QueryString => "query_string"
    case Headers => "headers"
    case Client => "client"
    case Extensions => "extensions"
    case Body => "body"
    case MoreBody => "more_body"
    case Status => "status"
    case Trailers => "trailers"
    case MoreTrailers => "more_trailers"
    case Subprotocols => "subprotocols"
    case Subprotocol => "subprotocol"
    case BytesField => "bytes"
    case Text => "text"
    case Code => "code"
    case Reason => "reason"
  }

  /** The Python values an event dict holds. */
  datatype Value =
    | VNone
    | VStr(s: string)
    | VBytes(b: Bytes)
    | VInt(i: int)
    | VBool(flag: bool)
    | VHeaders(pairs: seq<(Bytes, Bytes)>)   // a list of (name, value) pairs
    | VClient(host: string, port: int)       // the (host, port) tuple
    | VStrList(items: seq<string>)
    | VTrailersExtension                     // {"http.response.trailers": {}}
    | VOther                                 // anything else

  type Event = map<Key, Value>

  /** The `Asgi` protobuf message; `Empty` is the message with no arm set. */
  datatype Message =
    | Empty
    | Http(httpVersion: string, httpMethod: string, scheme: string, path: string, queryString: Bytes,
           headers: seq<Bytes>, clientHost: Option<string>, clientPort: Option<int>)
    | HttpRequest(body: Bytes, moreBody: bool)
    | HttpResponseStart(status: int, headers: seq<Bytes>, trailers: bool)
    | HttpResponseBody(body: Bytes, moreBody: bool)
    | HttpResponseTrailers(headers: seq<Bytes>, moreTrailers: bool)
    | HttpDisconnect
    | Websocket(httpVersion: string, scheme: string, path: string, queryString: Bytes,
                headers: seq<Bytes>, clientHost: Option<string>, clientPort: Option<int>,
                subprotocols: seq<string>)
    | WebsocketConnect
    | WebsocketAccept(subprotocol: Option<string>, headers: seq<Bytes>)
    | WebsocketReceive(bytes: Option<Bytes>, text: Option<string>)
    | WebsocketSend(bytes: Option<Bytes>, text: Option<string>)
    | WebsocketDisconnect(code: Option<int>)
    | WebsocketClose(code: Option<int>, reason: string)

  // ---------------------------------------------------------------------
  // Headers

  /** `flatten_headers`: `[s for k, v in obj for s in (k, v)]`. */
  function FlattenHeaders(pairs: seq<(Bytes, Bytes)>): (r: seq<Bytes>)
    ensures |r| == 2 * |pairs|
    ensures forall i | 0 <= i < |pairs| :: r[2 * i] == pairs[i].0 && r[2 * i + 1] == pairs[i].1
  {
    if |pairs| == 0 then [] else [pairs[0].0, pairs[0].1] + FlattenHeaders(pairs[1..])
  }

  /** `unflatten_headers`: `list(zip(obj[::2], obj[1::2]))`; an unpaired
      last element is dropped. */
  function UnflattenHeaders(flat: seq<Bytes>): (r: seq<(Bytes, Bytes)>)
    ensures |r| == |flat| / 2
    ensures forall i | 0 <= i < |r| :: r[i] == (flat[2 * i], flat[2 * i + 1])
  {
    if |flat| < 2 then [] else [(flat[0], flat[1])] + UnflattenHeaders(flat[2..])
  }

  /** Unflattening undoes flattening, and the flat list has even length. */
  lemma HeadersRoundTrip(pairs: seq<(Bytes, Bytes)>)
    ensures UnflattenHeaders(FlattenHeaders(pairs)) == pairs
    ensures |FlattenHeaders(pairs)| % 2 == 0
  {
  }

  /** Flattening after unflattening gives back the list without its
      unpaired last element, if any. */
  lemma {:induction false} FlatRoundTrip(flat: seq<Bytes>)
    ensures FlattenHeaders(UnflattenHeaders(flat)) == flat[..|flat| - |flat| % 2]
  {
    if |flat| >= 2 {
      FlatRoundTrip(flat[2..]);
      assert flat[2..][..|flat| - 2 - |flat| % 2] == flat[2..|flat| - |flat| % 2];
    }
  }

  // ---------------------------------------------------------------------
  // Decoding

  function ClientEntry(host: Option<string>, port: Option<int>): Event
  {
    if host.Some? then map[Client := VClient(host.value, port.GetOr(0))] else map[]
  }

  /** `_deserialize_asgi`: the event dict of a message, `None` for the
      empty message.  Unset close codes read as 1005 on disconnect and 1000
      on close. */
  function Decode(m: Message): (r: Option<Event>)
    ensures r.None? <==> m.Empty?
    ensures r.Some? ==> Type in r.value && r.value[Type].VStr?
  {
    match m
    case Empty => None
    case Http(v, meth, scheme, path, qs, hs, host, port) =>
      Some(map[Type := VStr("http"), HttpVersion := VStr(v), Method := VStr(meth),
               Scheme := VStr(scheme), Path := VStr(path), QueryString := VBytes(qs),
               Headers := VHeaders(UnflattenHeaders(hs)), Extensions := VTrailersExtension]
           + ClientEntry(host, port))
    case HttpRequest(body, more) =>
      Some(map[Type := VStr("http.request"), Body := VBytes(body), MoreBody := VBool(more)])
    case HttpResponseStart(status, hs, trailers) =>
      Some(map[Type := VStr("http.response.start"), Status := VInt(status),
               Headers := VHeaders(UnflattenHeaders(hs)), Trailers := VBool(trailers)])
    case HttpResponseBody(body, more) =>
      Some(map[Type := VStr("http.response.body"), Body := VBytes(body), MoreBody := VBool(more)])
    case HttpResponseTrailers(hs, more) =>
      Some(map[Type := VStr("http.response.trailers"), Headers := VHeaders(UnflattenHeaders(hs)),
               MoreTrailers := VBool(more)])
    case HttpDisconnect => Some(map[Type := VStr("http.disconnect")])
    case Websocket(v, scheme, path, qs, hs, host, port, subs) =>
      Some(map[Type := VStr("websocket"), HttpVersion := VStr(v), Scheme := VStr(scheme),
               Path := VStr(path), QueryString := VBytes(qs), Headers := VHeaders(UnflattenHeaders(hs)),
               Subprotocols := VStrList(subs)]
           + ClientEntry(host, port))
    case WebsocketConnect => Some(map[Type := VStr("websocket.connect")])
    case WebsocketAccept(sub, hs) =>
      Some(map[Type := VStr("websocket.accept"), Subprotocol := OptStr(sub),
               Headers := VHeaders(UnflattenHeaders(hs))])
    case WebsocketReceive(b, t) =>
      Some(map[Type := VStr("websocket.receive"), BytesField := OptBytes(b), Text := OptStr(t)])
    case WebsocketSend(b, t) =>
      Some(map[Type := VStr("websocket.send"), BytesField := OptBytes(b), Text := OptStr(t)])
    case WebsocketDisconnect(code) =>
      Some(map[Type := VStr("websocket.disconnect"), Code := VInt(code.GetOr(NO_STATUS_RECEIVED))])
    case WebsocketClose(code, reason) =>
      Some(map[Type := VStr("websocket.close"), Code := VInt(code.GetOr(NORMAL_CLOSURE)),
               Reason := VStr(reason)])
  }

  /** A close or disconnect event without a code carries the default of
      section 7.4.1 of RFC 6455: 1005 (no status received) on disconnect,
      1000 (normal closure) on close; a given code is kept. */
  lemma DefaultCloseCodes(m: Message)
    ensures m.WebsocketDisconnect? ==>
      Code in Decode(m).value
      && Decode(m).value[Code] == VInt(if m.code.Some? then m.code.value else NO_STATUS_RECEIVED)
    ensures m.WebsocketClose? ==>
      Code in Decode(m).value
      && Decode(m).value[Code] == VInt(if m.code.Some? then m.code.value else NORMAL_CLOSURE)
  {
  }

  /** The client entry is present exactly when the scope names a host. */
  lemma DecodeClient(m: Message)
    requires m.Http? || m.Websocket?
    ensures Client in Decode(m).value <==> m.clientHost.Some?
  {
  }

  function OptStr(o: Option<string>): Value
  {
    if o.Some? then VStr(o.value) else VNone
  }

  function OptBytes(o: Option<Bytes>): Value
  {
    if o.Some? then VBytes(o.value) else VNone
  }

  // ---------------------------------------------------------------------
  // Encoding: reading fields out of the dict the way protobuf accepts them

  /** `obj.get(k, default)` for an optional dict entry. */
  function Get(e: Event, k: Key, default: Value): Value
  {
    if k in e then e[k] else default
  }

  /** `obj[k]`: a missing key raises KeyError. */
  function Require(e: Event, k: Key): Result<Value>
  {
    if k in e then Ok(e[k]) else Err(KeyError)
  }

  /** A value given to a string field: `None` leaves the field unset, a
      string is kept, and bytes are taken if they are well-formed UTF-8 and
      rejected with ValueError otherwise. */
  function AsString(v: Value): (r: Result<Option<string>>)
    ensures v.VNone? <==> r == Ok(None)
    ensures v.VStr? ==> r == Ok(Some(v.s))
    ensures v.VBytes? ==> (r.Ok? <==> Utf8.Decode(v.b).Some?)
    ensures v.VBytes? && r.Ok? ==> r.value.Some? && Utf8.EncodeString(r.value.value) == v.b
    ensures v.VBytes? && r.Err? ==> r.error == ValueError
    ensures !(v.VNone? || v.VStr? || v.VBytes?) ==> r == Err(TypeError)
  {
    match v
    case VNone => Ok(None)
    case VStr(s) => Ok(Some(s))
    case VBytes(b) => if Utf8.Decode(b).Some? then Ok(Some(Utf8.Decode(b).value)) else Err(ValueError)
    case _ => Err(TypeError)
  }

  function AsBytes(v: Value): Result<Option<Bytes>>
  {
    match v
    case VNone => Ok(None)
    case VBytes(b) => Ok(Some(b))
    case _ => Err(TypeError)
  }

  /** An integer field also takes a bool, which is an int in Python. */
  function AsInt(v: Value): Result<Option<int>>
  {
    match v
    case VNone => Ok(None)
    case VInt(i) => Ok(Some(i))
    case VBool(b) => Ok(Some(if b then 1 else 0))
    case _ => Err(TypeError)
  }

  /** A bool field takes a bool or any integer, which sets it iff non-zero;
      everything else is a TypeError. */
  function AsBool(v: Value): (r: Result<Option<bool>>)
    ensures v.VNone? <==> r == Ok(None)
    ensures r.Ok? && r.value.Some? <==> v.VBool? || v.VInt?
    ensures r.Ok? && r.value.Some? ==> r.value.value == Truthy(v)
    ensures r.Err? ==> r.error == TypeError
  {
    match v
    case VNone => Ok(None)
    case VBool(b) => Ok(Some(b))
    case VInt(i) => Ok(Some(i != 0))
    case _ => Err(TypeError)
  }

  /** The values Python can iterate: strings, bytes, lists, the client
      tuple and the trailers extension dict (which iterates its one key). */
  predicate Iterable(v: Value)
  {
    v.VStr? || v.VBytes? || v.VHeaders? || v.VStrList? || v.VClient? || v.VTrailersExtension?
  }

  /** `flatten_headers(v)`, which runs `for k, v in obj` over whatever it is
      given.  A (name, value) list flattens to its bytes; an empty iterable
      flattens to nothing.  Otherwise each item must unpack into two:
      a character of a string or a key of the trailers dict does not
      (ValueError), while an integer (a byte of a bytes value, the port of
      the client tuple) is not iterable at all (TypeError).  A non-empty
      list of two-character strings does flatten, but into strings, which
      the message's bytes field later rejects: that outcome is `Ok(None)`. */
  function FlattenOf(v: Value): (r: Result<Option<seq<Bytes>>>)
    ensures v.VHeaders? ==> r == Ok(Some(FlattenHeaders(v.pairs)))
    ensures Iterable(v) && !Truthy(v) ==> r == Ok(Some([]))
    ensures !Iterable(v) ==> r == Err(TypeError)
    ensures v.VStr? && |v.s| > 0 ==> r == Err(ValueError)
    ensures r.Ok? && r.value.Some? ==> v.VHeaders? || !Truthy(v)
    ensures r == Ok(None) <==>
      v.VStrList? && |v.items| > 0 && forall i | 0 <= i < |v.items| :: |v.items[i]| == 2
    ensures r.Err? ==> r.error == TypeError || r.error == ValueError
  {
    match v
    case VHeaders(pairs) => Ok(Some(FlattenHeaders(pairs)))
    case VStr(s) => if |s| == 0 then Ok(Some([])) else Err(ValueError)
    case VBytes(b) => if |b| == 0 then Ok(Some([])) else Err(TypeError)
    case VStrList(items) =>
      if |items| == 0 then Ok(Some([]))
      else if forall i | 0 <= i < |items| :: |items[i]| == 2 then Ok(None)
      else Err(ValueError)
    case VClient(host, _) => if |host| != 2 then Err(ValueError) else Err(TypeError)
    case VTrailersExtension => Err(ValueError)
    case _ => Err(TypeError)
  }

  /** `flatten_headers(obj.get("headers", []))`, evaluated with the other
      keyword arguments. */
  function HeadersOf(e: Event): Result<Option<seq<Bytes>>>
  {
    FlattenOf(Get(e, Headers, VHeaders([])))
  }

  /** The message's type check of the flattened headers: string items are
      rejected. */
  function HeaderBytes(h: Option<seq<Bytes>>): Result<seq<Bytes>>
  {
    if h.Some? then Ok(h.value) else Err(TypeError)
  }

  /** Python truthiness of an event value; a client tuple, the trailers
      extension dict and other objects are truthy. */
  predicate Truthy(v: Value)
  {
    match v
    case VNone => false
    case VStr(s) => |s| > 0
    case VBytes(b) => |b| > 0
    case VInt(i) => i != 0
    case VBool(flag) => flag
    case VHeaders(pairs) => |pairs| > 0
    case VStrList(items) => |items| > 0
    case _ => true
  }

  /** `obj["client"][0]` and `obj["client"][1]` when `obj.get("client")` is
      truthy.  Indexing a sequence shorter than two raises IndexError, the
      trailers dict has no key 0 (KeyError), and any other indexable value
      yields items no string or integer field accepts (TypeError). */
  function ClientOf(e: Event): (r: Result<(Option<string>, Option<int>)>)
    ensures !Truthy(Get(e, Client, VNone)) ==> r == Ok((None, None))
    ensures r.Ok? && Truthy(Get(e, Client, VNone)) ==>
      r.value.0.Some? && r.value.1.Some? && Get(e, Client, VNone) == VClient(r.value.0.value, r.value.1.value)
    ensures r.Err? ==> r.error == TypeError || r.error == IndexError || r.error == KeyError
  {
    var c := Get(e, Client, VNone);
    if !Truthy(c) then Ok((None, None))
    else match c
      case VClient(h, p) => Ok((Some(h), Some(p)))
      case VStr(s) => if |s| < 2 then Err(IndexError) else Err(TypeError)
      case VBytes(b) => if |b| < 2 then Err(IndexError) else Err(TypeError)
      case VHeaders(pairs) => if |pairs| < 2 then Err(IndexError) else Err(TypeError)
      case VStrList(items) => if |items| < 2 then Err(IndexError) else Err(TypeError)
      case VTrailersExtension => Err(KeyError)
      case _ => Err(TypeError)
  }

  /** The dict key the trailers extension value iterates to. */
  const TRAILERS_EXTENSION: string := "http.response.trailers"

  /** `subprotocols=obj.get("subprotocols")`: the repeated string field
      leaves `None` unset and otherwise takes the items of any iterable,
      each of which must be a string.  A string gives its characters and the
      trailers extension dict its key; a non-empty bytes value or header
      list gives integers or tuples (TypeError), as does a non-iterable
      value or the client tuple, whose port is an integer. */
  function SubprotocolsOf(e: Event): (r: Result<seq<string>>)
    ensures Get(e, Subprotocols, VNone).VStrList? ==> r == Ok(Get(e, Subprotocols, VNone).items)
    ensures Get(e, Subprotocols, VNone) == VNone
            || (Iterable(Get(e, Subprotocols, VNone)) && !Truthy(Get(e, Subprotocols, VNone))) ==>
      r == Ok([])
    ensures !Iterable(Get(e, Subprotocols, VNone)) && Get(e, Subprotocols, VNone) != VNone ==>
      r == Err(TypeError)
    ensures Get(e, Subprotocols, VNone).VStr? ==>
      r.Ok? && |r.value| == |Get(e, Subprotocols, VNone).s|
      && forall i | 0 <= i < |r.value| :: r.value[i] == [Get(e, Subprotocols, VNone).s[i]]
    ensures r.Err? ==> r.error == TypeError
  {
    match Get(e, Subprotocols, VNone)
    case VNone => Ok([])
    case VStrList(items) => Ok(items)
    case VStr(s) => if |s| == 0 then Ok([]) else Ok(seq(|s|, i requires 0 <= i < |s| => [s[i]]))
    case VBytes(b) => if |b| == 0 then Ok([]) else Err(TypeError)
    case VHeaders(pairs) => if |pairs| == 0 then Ok([]) else Err(TypeError)
    case VTrailersExtension => Ok([TRAILERS_EXTENSION])
    case VInt(i) => Err(TypeError)
    case VBool(flag) => Err(TypeError)
    case VClient(_, _) => Err(TypeError)
    case VOther => Err(TypeError)
  }

  /** `_serialize_asgi`: `None`, a missing type and an unknown type all give
      the empty message.  The keyword arguments are evaluated in order before
      the message type-checks them, so a missing required key raises
      KeyError even when another field has the wrong kind of value, which
      otherwise raises TypeError. */
  function Encode(obj: Option<Event>): (r: Result<Message>)
    ensures obj.None? ==> r == Ok(Empty)
    ensures obj.Some? && !KnownType(obj.value) ==> r == Ok(Empty)
    ensures r.Ok? && r.value.Empty? ==> obj.None? || !KnownType(obj.value)
    ensures r.Err? ==> r.error in {KeyError, TypeError, IndexError, ValueError}
    ensures obj.Some? && Get(obj.value, Type, VNone) == VStr("http") && (Method !in obj.value || Path !in obj.value)
      ==> r == Err(KeyError)
    ensures obj.Some? && Get(obj.value, Type, VNone) == VStr("websocket") && Path !in obj.value
      ==> r == Err(KeyError)
    ensures obj.Some? && Get(obj.value, Type, VNone) == VStr("http.response.start") && Status !in obj.value
      ==> r == Err(KeyError)
  {
    if obj.None? then Ok(Empty)
    else
      match Get(obj.value, Type, VNone)
      case VStr(t) => EncodeTyped(t, obj.value)
      case _ => Ok(Empty)
  }

  /** The message types the encoder recognises. */
  const KnownTypes: set<string> :=
    {"http", "http.request", "http.response.start", "http.response.body", "http.response.trailers",
     "http.disconnect", "websocket", "websocket.connect", "websocket.accept", "websocket.receive",
     "websocket.send", "websocket.disconnect", "websocket.close"}

  predicate KnownType(e: Event)
  {
    Type in e && e[Type].VStr? && e[Type].s in KnownTypes
  }

  function EncodeTyped(t: string, e: Event): (r: Result<Message>)
    ensures r.Ok? && r.value.Empty? <==> t !in KnownTypes
    ensures r.Err? ==> r.error in {KeyError, TypeError, IndexError, ValueError}
  {
    if t == "http" then EncodeHttp(e)
    else if t == "http.response.start" then EncodeResponseStart(e)
    else if t == "websocket" then EncodeWebsocket(e)
    else if t in {"http.request", "http.response.body", "http.response.trailers", "http.disconnect"} then
      EncodeHttpEvent(t, e)
    else EncodeWebsocketEvent(t, e)
  }

  /** The HTTP events after the scope and the response start. */
  function EncodeHttpEvent(t: string, e: Event): (r: Result<Message>)
    requires t in {"http.request", "http.response.body", "http.response.trailers", "http.disconnect"}
    ensures r.Ok? ==> !r.value.Empty?
    ensures r.Err? ==> r.error in {TypeError, ValueError}
  {
    if t == "http.request" then
      var body :- AsBytes(Get(e, Body, VNone));
      var more :- AsBool(Get(e, MoreBody, VNone));
      Ok(HttpRequest(body.GetOr([]), more.GetOr(false)))
    else if t == "http.response.body" then
      var body :- AsBytes(Get(e, Body, VNone));
      var more :- AsBool(Get(e, MoreBody, VNone));
      Ok(HttpResponseBody(body.GetOr([]), more.GetOr(false)))
    else if t == "http.response.trailers" then
      var hs :- HeadersOf(e);
      var more :- AsBool(Get(e, MoreTrailers, VNone));
      var hs :- HeaderBytes(hs);
      Ok(HttpResponseTrailers(hs, more.GetOr(false)))
    else Ok(HttpDisconnect)
  }

  /** The WebSocket events after the scope; any other type is unknown and
      gives the empty message. */
  function EncodeWebsocketEvent(t: string, e: Event): (r: Result<Message>)
    ensures r.Ok? && r.value.Empty? <==>
      t !in {"websocket.connect", "websocket.accept", "websocket.receive", "websocket.send",
             "websocket.disconnect", "websocket.close"}
    ensures r.Err? ==> r.error in {TypeError, ValueError}
  {
    if t == "websocket.connect" then Ok(WebsocketConnect)
    else if t == "websocket.accept" then
      var hs :- HeadersOf(e);
      var sub :- AsString(Get(e, Subprotocol, VNone));
      var hs :- HeaderBytes(hs);
      Ok(WebsocketAccept(sub, hs))
    else if t == "websocket.receive" then
      var b :- AsBytes(Get(e, BytesField, VNone));
      var s :- AsString(Get(e, Text, VNone));
      Ok(WebsocketReceive(b, s))
    else if t == "websocket.send" then
      var b :- AsBytes(Get(e, BytesField, VNone));
      var s :- AsString(Get(e, Text, VNone));
      Ok(WebsocketSend(b, s))
    else if t == "websocket.disconnect" then
      var code :- AsInt(Get(e, Code, VNone));
      Ok(WebsocketDisconnect(code))
    else if t == "websocket.close" then
      var code :- AsInt(Get(e, Code, VNone));
      var reason :- AsString(Get(e, Reason, VNone));
      Ok(WebsocketClose(code, reason.GetOr("")))
    else Ok(Empty)
  }

  /** The `http` scope: `method` and `path` are required, the HTTP version
      defaults to "1.1" and the scheme to "http".  The lookups, the header
      flattening and the client indexing happen first, in argument order;
      the field types are checked after them. */
  function EncodeHttp(e: Event): (r: Result<Message>)
    ensures Method !in e || Path !in e ==> r == Err(KeyError)
    ensures Method in e && Path in e && HeadersOf(e).Err? ==> r == Err(HeadersOf(e).error)
    ensures r.Ok? ==> r.value.Http?
    ensures r.Ok? && HttpVersion !in e ==> r.value.httpVersion == "1.1"
    ensures r.Ok? && Scheme !in e ==> r.value.scheme == "http"
  {
    var meth :- Require(e, Method);
    var path :- Require(e, Path);
    var hs :- HeadersOf(e);
    var client :- ClientOf(e);
    var v :- AsString(Get(e, HttpVersion, VStr("1.1")));
    var meth :- AsString(meth);
    var scheme :- AsString(Get(e, Scheme, VStr("http")));
    var path :- AsString(path);
    var qs :- AsBytes(Get(e, QueryString, VNone));
    var hs :- HeaderBytes(hs);
    Ok(Http(v.GetOr(""), meth.GetOr(""), scheme.GetOr(""), path.GetOr(""), qs.GetOr([]),
            hs, client.0, client.1))
  }

  /** `http.response.start`: `status` is required. */
  function EncodeResponseStart(e: Event): (r: Result<Message>)
    ensures r.Ok? ==> Status in e
    ensures Status !in e ==> r == Err(KeyError)
    ensures r.Ok? ==> r.value.HttpResponseStart?
  {
    var status :- Require(e, Status);
    var hs :- HeadersOf(e);
    var status :- AsInt(status);
    var trailers :- AsBool(Get(e, Trailers, VNone));
    var hs :- HeaderBytes(hs);
    Ok(HttpResponseStart(status.GetOr(0), hs, trailers.GetOr(false)))
  }

  /** The `websocket` scope: like `http` without a method, with scheme "ws"
      by default and the offered subprotocols. */
  function EncodeWebsocket(e: Event): (r: Result<Message>)
    ensures Path !in e ==> r == Err(KeyError)
    ensures Path in e && HeadersOf(e).Err? ==> r == Err(HeadersOf(e).error)
    ensures r.Ok? ==> r.value.Websocket?
    ensures r.Ok? && Scheme !in e ==> r.value.scheme == "ws"
  {
    var path :- Require(e, Path);
    var hs :- HeadersOf(e);
    var client :- ClientOf(e);
    var v :- AsString(Get(e, HttpVersion, VStr("1.1")));
    var scheme :- AsString(Get(e, Scheme, VStr("ws")));
    var path :- AsString(path);
    var qs :- AsBytes(Get(e, QueryString, VNone));
    var subs :- SubprotocolsOf(e);
    var hs :- HeaderBytes(hs);
    Ok(Websocket(v.GetOr(""), scheme.GetOr(""), path.GetOr(""), qs.GetOr([]), hs, client.0, client.1, subs))
  }

  /** The message the encoder rebuilds from a decoded one: an unpaired
      trailing header element is gone, a client port is present exactly
      when a client host is, and an unset close code is set to its default. */
  function Canonical(m: Message): (r: Message)
    ensures r.Empty? <==> m.Empty?
  {
    match m
    case Http(v, meth, scheme, path, qs, hs, host, port) =>
      Http(v, meth, scheme, path, qs, EvenPart(hs), host, CanonicalPort(host, port))
    case HttpResponseStart(status, hs, trailers) => HttpResponseStart(status, EvenPart(hs), trailers)
    case HttpResponseTrailers(hs, more) => HttpResponseTrailers(EvenPart(hs), more)
    case Websocket(v, scheme, path, qs, hs, host, port, subs) =>
      Websocket(v, scheme, path, qs, EvenPart(hs), host, CanonicalPort(host, port), subs)
    case WebsocketAccept(sub, hs) => WebsocketAccept(sub, EvenPart(hs))
    case WebsocketDisconnect(code) => WebsocketDisconnect(Some(code.GetOr(NO_STATUS_RECEIVED)))
    case WebsocketClose(code, reason) => WebsocketClose(Some(code.GetOr(NORMAL_CLOSURE)), reason)
    case _ => m
  }

  function EvenPart(hs: seq<Bytes>): seq<Bytes>
  {
    hs[..|hs| - |hs| % 2]
  }

  function CanonicalPort(host: Option<string>, port: Option<int>): Option<int>
  {
    if host.Some? then Some(port.GetOr(0)) else None
  }

  /** Encoding a decoded message always succeeds and yields its canonical
      form. */
  lemma EncodeDecoded(m: Message)
    ensures Encode(Decode(m)) == Ok(Canonical(m))
  {
    if m.Empty? {
    } else if m.Http? {
      EncodeByType(m);
      HttpEncodes(m);
    } else if m.Websocket? {
      EncodeByType(m);
      WebsocketEncodes(m);
    } else if m.HttpResponseStart? || m.HttpResponseTrailers? || m.WebsocketAccept? {
      HeaderMessageEncodes(m);
    } else {
      PlainMessageEncodes(m);
    }
  }

  lemma HeaderMessageEncodes(m: Message)
    requires m.HttpResponseStart? || m.HttpResponseTrailers? || m.WebsocketAccept?
    ensures Encode(Decode(m)) == Ok(Canonical(m))
  {
    if m.HttpResponseStart? {
      ResponseStartEncodes(m);
    } else if m.HttpResponseTrailers? {
      ResponseTrailersEncodes(m);
    } else {
      WebsocketAcceptEncodes(m);
    }
  }

  lemma ResponseStartEncodes(m: Message)
    requires m.HttpResponseStart?
    ensures Encode(Decode(m)) == Ok(Canonical(m))
  {
    EncodeByType(m);
    DecodedHeaders(m);
    var e := Decode(m).value;
    assert Get(e, Status, VNone) == VInt(m.status);
    assert Get(e, Trailers, VNone) == VBool(m.trailers);
  }

  lemma ResponseTrailersEncodes(m: Message)
    requires m.HttpResponseTrailers?
    ensures Encode(Decode(m)) == Ok(Canonical(m))
  {
    EncodeByType(m);
    DecodedHeaders(m);
    var e := Decode(m).value;
    assert Get(e, MoreTrailers, VNone) == VBool(m.moreTrailers);
  }

  lemma WebsocketAcceptEncodes(m: Message)
    requires m.WebsocketAccept?
    ensures Encode(Decode(m)) == Ok(Canonical(m))
  {
    EncodeByType(m);
    DecodedHeaders(m);
    var e := Decode(m).value;
    assert Get(e, Subprotocol, VNone) == OptStr(m.subprotocol);
  }

  lemma DecodedHeaders(m: Message)
    requires m.HttpResponseStart? || m.HttpResponseTrailers? || m.WebsocketAccept?
    ensures HeadersOf(Decode(m).value) == Ok(Some(EvenPart(m.headers)))
  {
    FlatRoundTrip(m.headers);
  }

  lemma PlainMessageEncodes(m: Message)
    requires !(m.Empty? || m.Http? || m.Websocket?)
    requires !(m.HttpResponseStart? || m.HttpResponseTrailers? || m.WebsocketAccept?)
    ensures Encode(Decode(m)) == Ok(Canonical(m))
  {
    if m.WebsocketReceive? || m.WebsocketSend? {
      ByteTextMessageEncodes(m);
    } else if m.HttpRequest? || m.HttpResponseBody? || m.HttpDisconnect? {
      HttpBodyEncodes(m);
    } else {
      WebsocketControlEncodes(m);
    }
  }

  lemma ByteTextMessageEncodes(m: Message)
    requires m.WebsocketReceive? || m.WebsocketSend?
    ensures Encode(Decode(m)) == Ok(Canonical(m))
  {
    EncodeByType(m);
    ByteTextEncodes(m);
  }

  lemma HttpBodyEncodes(m: Message)
    requires m.HttpRequest? || m.HttpResponseBody? || m.HttpDisconnect?
    ensures Encode(Decode(m)) == Ok(Canonical(m))
  {
    EncodeByType(m);
  }

  lemma WebsocketControlEncodes(m: Message)
    requires m.WebsocketConnect? || m.WebsocketDisconnect? || m.WebsocketClose?
    ensures Encode(Decode(m)) == Ok(Canonical(m))
  {
    EncodeByType(m);
  }

  lemma ByteTextEncodes(m: Message)
    requires m.WebsocketReceive? || m.WebsocketSend?
    ensures var e := Decode(m).value;
      Get(e, BytesField, VNone) == OptBytes(m.bytes) && Get(e, Text, VNone) == OptStr(m.text)
    ensures AsBytes(OptBytes(m.bytes)) == Ok(m.bytes) && AsString(OptStr(m.text)) == Ok(m.text)
  {
  }

  /** The `type` entry of a decoded message. */
  function TypeName(m: Message): string
  {
    match m
    case Empty => ""
    case Http(_, _, _, _, _, _, _, _) => "http"
    case HttpRequest(_, _) => "http.request"
    case HttpResponseStart(_, _, _) => "http.response.start"
    case HttpResponseBody(_, _) => "http.response.body"
    case HttpResponseTrailers(_, _) => "http.response.trailers"
    case HttpDisconnect => "http.disconnect"
    case Websocket(_, _, _, _, _, _, _, _) => "websocket"
    case WebsocketConnect => "websocket.connect"
    case WebsocketAccept(_, _) => "websocket.accept"
    case WebsocketReceive(_, _) => "websocket.receive"
    case WebsocketSend(_, _) => "websocket.send"
    case WebsocketDisconnect(_) => "websocket.disconnect"
    case WebsocketClose(_, _) => "websocket.close"
  }

  lemma EncodeByType(m: Message)
    requires m != Empty
    ensures Decode(m).value[Type] == VStr(TypeName(m))
    ensures Encode(Decode(m)) == EncodeTyped(TypeName(m), Decode(m).value)
  {
  }

  lemma HttpEncodes(m: Message)
    requires m.Http?
    ensures EncodeHttp(Decode(m).value) == Ok(Canonical(m))
  {
    var e := Decode(m).value;
    HttpScalars(m);
    HttpLists(m);
    EncodeHttpOf(e, m.httpVersion, m.httpMethod, m.scheme, m.path, m.queryString);
  }

  lemma HttpScalars(m: Message)
    requires m.Http?
    ensures var e := Decode(m).value;
      && Get(e, HttpVersion, VStr("1.1")) == VStr(m.httpVersion)
      && Get(e, Method, VNone) == VStr(m.httpMethod)
      && Get(e, Scheme, VStr("http")) == VStr(m.scheme)
      && Get(e, Path, VNone) == VStr(m.path)
      && Get(e, QueryString, VNone) == VBytes(m.queryString)
  {
  }

  lemma HttpLists(m: Message)
    requires m.Http?
    ensures HeadersOf(Decode(m).value) == Ok(Some(EvenPart(m.headers)))
    ensures ClientOf(Decode(m).value) == Ok((m.clientHost, CanonicalPort(m.clientHost, m.clientPort)))
  {
    HttpHeaders(m);
    HttpClient(m);
  }

  lemma HttpHeaders(m: Message)
    requires m.Http?
    ensures HeadersOf(Decode(m).value) == Ok(Some(EvenPart(m.headers)))
  {
    var e := Decode(m).value;
    assert Get(e, Headers, VHeaders([])) == VHeaders(UnflattenHeaders(m.headers));
    FlatRoundTrip(m.headers);
  }

  lemma HttpClient(m: Message)
    requires m.Http?
    ensures ClientOf(Decode(m).value) == Ok((m.clientHost, CanonicalPort(m.clientHost, m.clientPort)))
  {
  }

  /** `EncodeHttp` on an event whose scalar fields are all present strings
      and bytes. */
  lemma EncodeHttpOf(e: Event, v: string, meth: string, scheme: string, path: string, qs: Bytes)
    requires Get(e, HttpVersion, VStr("1.1")) == VStr(v) && Get(e, Method, VNone) == VStr(meth)
    requires Get(e, Scheme, VStr("http")) == VStr(scheme) && Get(e, Path, VNone) == VStr(path)
    requires Get(e, QueryString, VNone) == VBytes(qs) && HeadersOf(e).Ok? && HeadersOf(e).value.Some?
    requires ClientOf(e).Ok?
    ensures EncodeHttp(e) == Ok(Http(v, meth, scheme, path, qs, HeadersOf(e).value.value,
                                     ClientOf(e).value.0, ClientOf(e).value.1))
  {
  }

  lemma WebsocketEncodes(m: Message)
    requires m.Websocket?
    ensures EncodeWebsocket(Decode(m).value) == Ok(Canonical(m))
  {
    var e := Decode(m).value;
    WebsocketScalars(m);
    WebsocketLists(m);
    EncodeWebsocketOf(e, m.httpVersion, m.scheme, m.path, m.queryString);
  }

  lemma WebsocketScalars(m: Message)
    requires m.Websocket?
    ensures var e := Decode(m).value;
      && Get(e, HttpVersion, VStr("1.1")) == VStr(m.httpVersion)
      && Get(e, Scheme, VStr("ws")) == VStr(m.scheme)
      && Get(e, Path, VNone) == VStr(m.path)
      && Get(e, QueryString, VNone) == VBytes(m.queryString)
  {
  }

  lemma WebsocketLists(m: Message)
    requires m.Websocket?
    ensures HeadersOf(Decode(m).value) == Ok(Some(EvenPart(m.headers)))
    ensures ClientOf(Decode(m).value) == Ok((m.clientHost, CanonicalPort(m.clientHost, m.clientPort)))
    ensures SubprotocolsOf(Decode(m).value) == Ok(m.subprotocols)
  {
    FlatRoundTrip(m.headers);
    WebsocketClient(m);
    WebsocketSubprotocols(m);
  }

  lemma WebsocketClient(m: Message)
    requires m.Websocket?
    ensures ClientOf(Decode(m).value) == Ok((m.clientHost, CanonicalPort(m.clientHost, m.clientPort)))
  {
  }

  lemma WebsocketSubprotocols(m: Message)
    requires m.Websocket?
    ensures SubprotocolsOf(Decode(m).value) == Ok(m.subprotocols)
  {
  }

  lemma EncodeWebsocketOf(e: Event, v: string, scheme: string, path: string, qs: Bytes)
    requires Get(e, HttpVersion, VStr("1.1")) == VStr(v) && Get(e, Scheme, VStr("ws")) == VStr(scheme)
    requires Get(e, Path, VNone) == VStr(path) && Get(e, QueryString, VNone) == VBytes(qs)
    requires HeadersOf(e).Ok? && HeadersOf(e).value.Some? && ClientOf(e).Ok? && SubprotocolsOf(e).Ok?
    ensures EncodeWebsocket(e) == Ok(Websocket(v, scheme, path, qs, HeadersOf(e).value.value,
                                               ClientOf(e).value.0, ClientOf(e).value.1,
                                               SubprotocolsOf(e).value))
  {
  }

  /** The canonical form decodes to the same event. */
  lemma DecodeCanonical(m: Message)
    ensures Decode(Canonical(m)) == Decode(m)
  {
    match m
    case Http(_, _, _, _, _, hs, _, _) => UnflattenEvenPart(hs);
    case HttpResponseStart(_, hs, _) => UnflattenEvenPart(hs);
    case HttpResponseTrailers(hs, _) => UnflattenEvenPart(hs);
    case Websocket(_, _, _, _, hs, _, _, _) => UnflattenEvenPart(hs);
    case WebsocketAccept(_, hs) => UnflattenEvenPart(hs);
    case _ =>
  }

  lemma UnflattenEvenPart(hs: seq<Bytes>)
    ensures UnflattenHeaders(EvenPart(hs)) == UnflattenHeaders(hs)
  {
  }

  /** Every decoded event survives a trip through the encoder: encoding it
      succeeds and decoding the result gives the same event back. */
  lemma EventRoundTrip(m: Message)
    ensures Encode(Decode(m)).Ok?
    ensures Decode(Encode(Decode(m)).value) == Decode(m)
  {
    EncodeDecoded(m);
    DecodeCanonical(m);
  }

  /** How `flatten_headers` treats empty header values in an otherwise
      valid `http` scope: an empty string, bytes value or list is no
      headers. */
  lemma HeadersIterated()
    ensures var e := map[Type := VStr("http"), Method := VStr("GET"), Path := VStr("/")];
      && Encode(Some(e[Headers := VStr("")])) == Ok(Http("1.1", "GET", "http", "/", [], [], None, None))
      && Encode(Some(e[Headers := VBytes([])])) == Ok(Http("1.1", "GET", "http", "/", [], [], None, None))
      && Encode(Some(e[Headers := VStrList([])])) == Ok(Http("1.1", "GET", "http", "/", [], [], None, None))
  {
    var e := map[Type := VStr("http"), Method := VStr("GET"), Path := VStr("/")];
    assert FlattenOf(VStr("")) == Ok(Some([]));
    HttpHeadersOf(e, VStr(""));
    assert FlattenOf(VBytes([])) == Ok(Some([]));
    HttpHeadersOf(e, VBytes([]));
    assert FlattenOf(VStrList([])) == Ok(Some([]));
    HttpHeadersOf(e, VStrList([]));
  }

  /** Header values whose items do not unpack into two: a non-empty string
      or a list holding a string of another length raises ValueError, and a
      list of two-character strings raises TypeError once the bytes field
      sees the strings. */
  lemma HeadersUnpackFails()
    ensures var e := map[Type := VStr("http"), Method := VStr("GET"), Path := VStr("/")];
      && Encode(Some(e[Headers := VStr("ab")])) == Err(ValueError)
      && Encode(Some(e[Headers := VStrList(["abc"])])) == Err(ValueError)
      && Encode(Some(e[Headers := VStrList(["ab"])])) == Err(TypeError)
  {
    var e := map[Type := VStr("http"), Method := VStr("GET"), Path := VStr("/")];
    assert FlattenOf(VStr("ab")) == Err(ValueError);
    HttpHeadersOf(e, VStr("ab"));
    assert |["abc"][0]| == 3;
    assert FlattenOf(VStrList(["abc"])) == Err(ValueError);
    HttpHeadersOf(e, VStrList(["abc"]));
    assert FlattenOf(VStrList(["ab"])) == Ok(None);
    HttpHeadersOf(e, VStrList(["ab"]));
  }

  /** The `http` scope of `HeadersIterated` and `HeadersUnpackFails` with
      one header value. */
  lemma HttpHeadersOf(e: Event, v: Value)
    requires e == map[Type := VStr("http"), Method := VStr("GET"), Path := VStr("/")]
    ensures FlattenOf(v) == Ok(Some([])) ==>
      Encode(Some(e[Headers := v])) == Ok(Http("1.1", "GET", "http", "/", [], [], None, None))
    ensures FlattenOf(v).Err? ==> Encode(Some(e[Headers := v])) == Err(FlattenOf(v).error)
    ensures FlattenOf(v) == Ok(None) ==> Encode(Some(e[Headers := v])) == Err(TypeError)
  {
    var e' := e[Headers := v];
    assert Get(e', Type, VNone) == VStr("http");
    assert Get(e', Client, VNone) == VNone;
    assert Get(e', HttpVersion, VStr("1.1")) == VStr("1.1") && Get(e', Scheme, VStr("http")) == VStr("http");
    assert Get(e', QueryString, VNone) == VNone;
    assert HeadersOf(e') == FlattenOf(v);
  }

  /** The empty message and `None` correspond to each other both ways. */
  lemma EmptyRoundTrip()
    ensures Encode(None) == Ok(Empty) && Decode(Empty) == None
  {
  }

  /** A bool field given an integer is set iff the integer is non-zero, as
      for `more_body=1`. */
  lemma IntMoreBody(i: int)
    ensures Encode(Some(map[Type := VStr("http.request"), MoreBody := VInt(i)])) == Ok(HttpRequest([], i != 0))
  {
    var e := map[Type := VStr("http.request"), MoreBody := VInt(i)];
    assert Get(e, Body, VNone) == VNone && Get(e, MoreBody, VNone) == VInt(i);
  }

  /** A string field given bytes holds the text they encode when they are
      well-formed UTF-8; otherwise the message raises ValueError. */
  lemma BytesText(b: Bytes)
    ensures var r := Encode(Some(map[Type := VStr("websocket.send"), Text := VBytes(b)]));
      && (r.Ok? <==> Utf8.Decode(b).Some?)
      && (r.Ok? ==> r.value == WebsocketSend(None, Utf8.Decode(b)))
      && (r.Err? ==> r.error == ValueError)
  {
    var e := map[Type := VStr("websocket.send"), Text := VBytes(b)];
    assert Get(e, BytesField, VNone) == VNone && Get(e, Text, VNone) == VBytes(b);
  }

  /** `{"type": "websocket.send", "text": b"hi"}` sends the text "hi", and
      `b"\xff"` as text raises ValueError. */
  lemma BytesTextSamples()
    ensures Encode(Some(map[Type := VStr("websocket.send"), Text := VBytes([0x68, 0x69])]))
            == Ok(WebsocketSend(None, Some("hi")))
    ensures Encode(Some(map[Type := VStr("websocket.send"), Text := VBytes([0xFF])])) == Err(ValueError)
  {
    BytesText([0x68, 0x69]);
    BytesText([0xFF]);
    Utf8.DecodeIffEncoding([0x68, 0x69], "hi");
    assert Utf8.EncodeString("hi") == Utf8.EncodeChar('h') + (Utf8.EncodeChar('i') + Utf8.EncodeString([]));
  }
}
