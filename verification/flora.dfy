/**
 * The JavaScript layer of the flora message-bus client
 * (packages/@yoda/flora/index.js): the argument checks of `Agent.get` and how
 * it turns the native addon's return code into the settlement of its Promise,
 * the fault guard `subscribe` puts around a message handler, the `Reply`
 * constructor and the exported message-type and error-code constants.
 *
 * The native addon (`nativeGet`, `nativeSubscribe`) and the user's handler are
 * function parameters; the Promise and `process.nextTick` machinery is modelled
 * only by the outcome it produces.
 */
module Flora {
  import opened Wrappers

  /** The JavaScript values that cross this layer. Numbers are modelled as
      integers: this layer only compares them and passes them on. */
  datatype JsValue =
    | Undefined
    | Null
    | Boolean(b: bool)
    | Number(n: int)
    | Str(s: string)
    | Array(elems: seq<JsValue>)
    | Object(fields: map<string, JsValue>)

  /** The message types a flora message can have. */
  datatype MsgType = Instant | Persist | Request {
    /** The exported integer: MSGTYPE_INSTANT, MSGTYPE_PERSIST, MSGTYPE_REQUEST. */
    function Code(): (c: int)
      ensures 0 <= c <= 2
    {
      match this
      case Instant => 0
      case Persist => 1
      case Request => 2
    }
  }

  /** The message type an integer on the wire stands for, if any. */
  function MsgTypeOf(c: int): (t: Option<MsgType>)
    ensures t.Some? <==> 0 <= c <= 2
    ensures t.Some? ==> t.value.Code() == c
  {
    if c == 0 then Some(Instant)
    else if c == 1 then Some(Persist)
    else if c == 2 then Some(Request)
    else None
  }

  /** Every message type survives the trip to its code and back, so the three
      codes are pairwise distinct. */
  lemma MsgTypeCodeRoundTrip(t: MsgType, u: MsgType)
    ensures MsgTypeOf(t.Code()) == Some(t)
    ensures t.Code() == u.Code() ==> t == u
  {
  }

  /** The value `nativeGet` returns when a request was handed over. */
  const Success: int := 0

  /** The error kinds the package exports. */
  datatype FloraError = InvalidUri | InvalidParam | NotConnected {
    /** The exported integer: ERROR_INVALID_URI, ERROR_INVALID_PARAM, ERROR_NOT_CONNECTED. */
    function Code(): (c: int)
      ensures -3 <= c <= -1
      ensures c != Success
    {
      match this
      case InvalidUri => -1
      case InvalidParam => -2
      case NotConnected => -3
    }
  }

  /** The error kind an integer stands for, if any. */
  function ErrorOf(c: int): (e: Option<FloraError>)
    ensures e.Some? <==> -3 <= c <= -1
    ensures e.Some? ==> e.value.Code() == c
  {
    if c == -1 then Some(InvalidUri)
    else if c == -2 then Some(InvalidParam)
    else if c == -3 then Some(NotConnected)
    else None
  }

  /** Every error kind survives the trip to its code and back, so the three
      codes are pairwise distinct. */
  lemma ErrorCodeRoundTrip(e: FloraError, f: FloraError)
    ensures ErrorOf(e.Code()) == Some(e)
    ensures e.Code() == f.Code() ==> e == f
  {
  }

  /** `new Reply(code, msg)`: an object whose own properties are exactly
      `retCode` and `msg`, holding the arguments unchanged. */
  function Reply(code: JsValue, msg: JsValue): (r: JsValue)
    ensures r.Object? && r.fields.Keys == {"retCode", "msg"}
    ensures r.fields["retCode"] == code && r.fields["msg"] == msg
  {
    Object(map["retCode" := code, "msg" := msg])
  }

  /** A value a handler can answer a REQUEST with: an object carrying `retCode`. */
  predicate IsReply(v: JsValue)
  {
    v.Object? && "retCode" in v.fields
  }

  /** Every `Reply` is an answer, and both of its arguments can be read back. */
  lemma ReplyReadBack(code: JsValue, msg: JsValue)
    ensures IsReply(Reply(code, msg))
    ensures Reply(code, msg).fields["retCode"] == code
    ensures Reply(code, msg) == Reply(Reply(code, msg).fields["retCode"], Reply(code, msg).fields["msg"])
  {
  }

  /** `msg` is acceptable to `get`: undefined, null or an array. */
  predicate AcceptableMsg(msg: JsValue)
  {
    msg.Undefined? || msg.Null? || msg.Array?
  }

  /** The arguments `get` lets through to the native addon. */
  predicate ValidGetArgs(name: JsValue, msg: JsValue)
  {
    name.Str? && AcceptableMsg(msg)
  }

  /** What `nativeGet` does during the call: the integer it returns and, when
      it calls `resolve` before returning, the value it resolves with. */
  datatype NativeGetReply = NativeGetReply(code: int, resolvedEarly: Option<JsValue>)

  /** How the Promise `get` returns stands once `get` has returned. `Pending`
      leaves settlement to the native `resolve` callback. */
  datatype Settlement = Rejected(reason: int) | Resolved(value: JsValue) | Pending

  /** One call of `nativeGet(name, msg, resolve)`. */
  datatype NativeGetCall = NativeGetCall(name: string, msg: JsValue)

  /** The observable effect of one `get`: its Promise's state and the calls
      made into the native addon. */
  datatype GetEffect = GetEffect(settlement: Settlement, calls: seq<NativeGetCall>)

  /** `Agent.prototype.get(name, msg)` with `nativeGet` standing for the addon.
      A Promise settles once, so a `resolve` made before `reject(r)` wins. */
  function Get(name: JsValue, msg: JsValue, nativeGet: (string, JsValue) -> NativeGetReply): (r: GetEffect)
    ensures !ValidGetArgs(name, msg) ==> r == GetEffect(Rejected(InvalidParam.Code()), [])
    ensures ValidGetArgs(name, msg) ==> r.calls == [NativeGetCall(name.s, msg)]
    ensures r.settlement.Pending? <==> ValidGetArgs(name, msg) && nativeGet(name.s, msg) == NativeGetReply(Success, None)
    ensures ValidGetArgs(name, msg) && nativeGet(name.s, msg).resolvedEarly.Some? ==>
      r.settlement == Resolved(nativeGet(name.s, msg).resolvedEarly.value)
  {
    if !name.Str? then
      GetEffect(Rejected(InvalidParam.Code()), [])
    else if !AcceptableMsg(msg) then
      GetEffect(Rejected(InvalidParam.Code()), [])
    else
      var reply := nativeGet(name.s, msg);
      var settlement :=
        if reply.resolvedEarly.Some? then Resolved(reply.resolvedEarly.value)
        else if reply.code != Success then Rejected(reply.code)
        else Pending;
      GetEffect(settlement, [NativeGetCall(name.s, msg)])
  }

  /** `get` rejects exactly when its arguments are invalid (with
      ERROR_INVALID_PARAM) or when the native call returns a non-zero code
      without having resolved (with exactly that code). */
  lemma GetRejection(name: JsValue, msg: JsValue, nativeGet: (string, JsValue) -> NativeGetReply, reason: int)
    ensures Get(name, msg, nativeGet).settlement == Rejected(reason) <==>
      (!ValidGetArgs(name, msg) && reason == InvalidParam.Code()) ||
      (ValidGetArgs(name, msg) && nativeGet(name.s, msg) == NativeGetReply(reason, None) && reason != Success)
  {
  }

  /** The addon is called at most once, and not at all for invalid arguments. */
  lemma GetCallsNativeOnlyWhenValid(name: JsValue, msg: JsValue, nativeGet: (string, JsValue) -> NativeGetReply)
    ensures |Get(name, msg, nativeGet).calls| <= 1
    ensures Get(name, msg, nativeGet).calls == [] <==> !ValidGetArgs(name, msg)
  {
  }

  /** An exported error code returned by the addon is never taken for success:
      the Promise is rejected with that very code. */
  lemma GetPassesNativeErrors(name: string, msg: JsValue, nativeGet: (string, JsValue) -> NativeGetReply, e: FloraError)
    requires AcceptableMsg(msg)
    requires nativeGet(name, msg) == NativeGetReply(e.Code(), None)
    ensures Get(Str(name), msg, nativeGet).settlement == Rejected(e.Code())
    ensures ErrorOf(Get(Str(name), msg, nativeGet).settlement.reason) == Some(e)
  {
    ErrorCodeRoundTrip(e, e);
  }

  /** What a user handler does when called: returns a value or throws one. */
  datatype HandlerResult = Returned(value: JsValue) | Threw(fault: JsValue)

  /** What the guarded callback does: the value it returns to the addon and
      the fault, if any, it schedules to be thrown again on the next tick. */
  datatype Dispatch = Dispatch(returned: JsValue, deferredThrow: Option<JsValue>)

  /** The callback `subscribe` wraps around `handler`, called with one message. */
  function Guard(handler: (JsValue, int) -> HandlerResult, msg: JsValue, msgType: int): (d: Dispatch)
    ensures handler(msg, msgType).Returned? ==> d.returned == handler(msg, msgType).value && d.deferredThrow.None?
    ensures handler(msg, msgType).Threw? ==> d.returned == Undefined && d.deferredThrow == Some(handler(msg, msgType).fault)
  {
    match handler(msg, msgType)
    case Returned(v) => Dispatch(v, None)
    case Threw(e) => Dispatch(Undefined, Some(e))
  }

  /** The registration `subscribe(name, handler)` hands to `nativeSubscribe`. */
  datatype Subscription = Subscription(name: JsValue, callback: (JsValue, int) -> Dispatch)

  /** `Agent.prototype.subscribe(name, handler)`: registers `name` unchanged
      with the guarded handler. */
  function Subscribe(name: JsValue, handler: (JsValue, int) -> HandlerResult): (sub: Subscription)
    ensures sub.name == name
    ensures forall msg, msgType :: sub.callback(msg, msgType) == Guard(handler, msg, msgType)
  {
    Subscription(name, (msg, msgType) => Guard(handler, msg, msgType))
  }

  /** A fault is never turned into an answer and never lost: the callback gives
      no Reply and schedules exactly the thrown value. When the handler does not
      throw, the callback returns what it returned and schedules nothing. */
  lemma GuardKeepsFaults(name: JsValue, handler: (JsValue, int) -> HandlerResult, msg: JsValue, msgType: int)
    ensures var d := Subscribe(name, handler).callback(msg, msgType);
      && (d.deferredThrow.Some? <==> handler(msg, msgType).Threw?)
      && (handler(msg, msgType).Threw? ==> !IsReply(d.returned) && d.deferredThrow.value == handler(msg, msgType).fault)
      && (handler(msg, msgType).Returned? ==> d.returned == handler(msg, msgType).value)
  {
  }
}
