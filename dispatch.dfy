/** `XmlRpc::API::Base.handle_request`: the server side. The request's method
    name is looked up in a whitelist of handler names, the handler is called
    with the request's parameters, and whatever it returns or raises becomes
    a `Response`. */
module Dispatch {
  import opened Wrappers
  import opened Values
  import opened Envelopes

  /** How a handler call ends: a value returned, or an exception raised. */
  datatype Outcome =
    | Return(value: Value)
    | RaiseFault(fault: Fault)
    | RaiseValueError(message: string)
    | RaiseOther(message: string)

  /** A controller stands for the handler methods `controller.send` reaches:
      given the handler's name and the parameters, how the call ends. */
  type Handler = (string, seq<Value>) -> Outcome

  /** The fault the documented rescue clauses turn an exception into: a
      Fault is kept, a ValueError gets code -1, anything else code 0. */
  function Rescue(e: Error): (f: Fault)
    ensures f.message == e.message
    ensures f.code == (if e.ValueError? then -1 else 0)
  {
    match e
    case ValueError(m) => Fault(m, -1)
    case RequestError(m) => Fault(m, 0)
    case OtherError(m) => Fault(m, 0)
  }

  /** `Response.new(:fault => f)` */
  function FaultOptions(f: Fault): ResponseOptions {
    ResponseOptions(None, None, Some(f))
  }

  /** The options of the response for a handler's outcome. */
  function Respond(o: Outcome): ResponseOptions {
    match o
    case Return(v) => ResponseOptions(None, Some(v), None)
    case RaiseFault(f) => FaultOptions(f)
    case RaiseValueError(m) => FaultOptions(Rescue(ValueError(m)))
    case RaiseOther(m) => FaultOptions(Rescue(OtherError(m)))
  }

  /** `handle_request(controller, request, method_name_map)` as its comments
      mean it, over the request's document: reading `request.method`, the
      whitelist lookup (an unknown or unmapped name is fault -2 "Unknown
      method"), reading `request.params`, then the handler's outcome; every
      exception on the way is rescued into a fault response. */
  function HandleRequest(request: Document, names: map<Value, string>, handler: Handler): ResponseOptions {
    match MethodOf(request)
    case Failure(e) => FaultOptions(Rescue(e))
    case Success(m) =>
      if m !in names then FaultOptions(Fault("Unknown method", -2))
      else
        match ParamsOf(request)
        case Failure(e) => FaultOptions(Rescue(e))
        case Success(ps) => Respond(handler(names[m], ps))
  }

  /** The Ruby error the `rescue ValueError => v` clause raises: its body
      names `e`, which only the next clause binds. */
  const UnboundE := OtherError("undefined local variable or method `e' for XmlRpc::API::Base:Class")

  /** `handle_request` as written: a ValueError, from a reader or from the
      handler, escapes as that NameError instead of becoming a response. */
  function HandleRequestAsWritten(request: Document, names: map<Value, string>, handler: Handler)
    : Result<ResponseOptions, Error>
  {
    match MethodOf(request)
    case Failure(e) => if e.ValueError? then Failure(UnboundE) else Success(FaultOptions(Fault(e.message, 0)))
    case Success(m) =>
      if m !in names then Success(FaultOptions(Fault("Unknown method", -2)))
      else
        match ParamsOf(request)
        case Failure(e) => if e.ValueError? then Failure(UnboundE) else Success(FaultOptions(Fault(e.message, 0)))
        case Success(ps) =>
          match handler(names[m], ps)
          case Return(v) => Success(ResponseOptions(None, Some(v), None))
          case RaiseFault(f) => Success(FaultOptions(f))
          case RaiseValueError(_) => Failure(UnboundE)
          case RaiseOther(msg) => Success(FaultOptions(Fault(msg, 0)))
  }

  /** Whether handling the request raises a ValueError anywhere. */
  predicate RaisesValueError(request: Document, names: map<Value, string>, handler: Handler) {
    match MethodOf(request)
    case Failure(e) => e.ValueError?
    case Success(m) =>
      m in names &&
      match ParamsOf(request)
      case Failure(e) => e.ValueError?
      case Success(ps) => handler(names[m], ps).RaiseValueError?
  }

  /** The written code and the intended one part exactly where a ValueError
      is raised: there the written code fails with the NameError while the
      intended one answers with a fault of code -1 and the ValueError's
      message; everywhere else they give the same response. */
  lemma AsWrittenDiffers(request: Document, names: map<Value, string>, handler: Handler)
    ensures RaisesValueError(request, names, handler) ==>
      HandleRequestAsWritten(request, names, handler) == Failure(UnboundE)
      && HandleRequest(request, names, handler).fault.Some?
      && HandleRequest(request, names, handler).fault.value.code == -1
    ensures !RaisesValueError(request, names, handler) ==>
      HandleRequestAsWritten(request, names, handler) == Success(HandleRequest(request, names, handler))
  {
  }

  /** Every response `handle_request` asks for can be made: it never holds
      `:xml`, and holds a value or a fault. */
  lemma HandleRequestResponds(request: Document, names: map<Value, string>, handler: Handler)
    ensures ResponseMessage(HandleRequest(request, names, handler)).Success?
  {
    var r := HandleRequest(request, names, handler);
    HandleRequestShape(request, names, handler);
    ResponseOptionsRules(r);
  }

  /** `handle_request` never passes `:xml`, and always a value or a fault. */
  lemma HandleRequestShape(request: Document, names: map<Value, string>, handler: Handler)
    ensures var r := HandleRequest(request, names, handler);
      r.xml.None? && (r.value.Some? || r.fault.Some?)
  {
  }

  /** A request naming a method outside the whitelist is answered with fault
      -2 "Unknown method", whatever the handler would have done, and the
      parameters are not read. */
  lemma UnknownMethod(request: Document, names: map<Value, string>, handler: Handler)
    requires MethodOf(request).Success? && MethodOf(request).value !in names
    ensures HandleRequest(request, names, handler) == FaultOptions(Fault("Unknown method", -2))
  {
  }

  /** For a whitelisted method with readable parameters, the handler is
      called with the mapped name and the parameters in order: a returned
      value is the response's value (with no fault), a raised Fault is the
      response's fault unchanged, a ValueError gives code -1 and any other
      error code 0, both with the error's message. */
  lemma HandlerOutcome(request: Document, names: map<Value, string>, handler: Handler)
    requires MethodOf(request).Success? && MethodOf(request).value in names
    requires ParamsOf(request).Success?
    ensures var o := handler(names[MethodOf(request).value], ParamsOf(request).value);
      var r := HandleRequest(request, names, handler);
      r.xml.None?
      && (o.Return? ==> r.value == Some(o.value) && r.fault.None?)
      && (o.RaiseFault? ==> r.fault == Some(o.fault))
      && (o.RaiseValueError? ==> r.fault == Some(Fault(o.message, -1)))
      && (o.RaiseOther? ==> r.fault == Some(Fault(o.message, 0)))
  {
  }

  /** An error reading the method name or the parameters is answered with a
      fault: code -1 for a ValueError (an unknown value type), 0 otherwise. */
  lemma ReaderErrors(request: Document, names: map<Value, string>, handler: Handler)
    requires MethodOf(request).Failure?
      || (MethodOf(request).value in names && ParamsOf(request).Failure?)
    ensures var e := if MethodOf(request).Failure? then MethodOf(request).error else ParamsOf(request).error;
      HandleRequest(request, names, handler)
        == FaultOptions(Fault(e.message, if e.ValueError? then -1 else 0))
  {
  }

  /** A request the builder wrote for a whitelisted name reaches the
      handler with the parameters as they read back, in order. */
  lemma HandleBuiltRequest(name: string, ps: seq<Value>, names: map<Value, string>, handler: Handler)
    requires name != "" && Str(name) in names
    requires forall i :: 0 <= i < |ps| ==> ValidValue(ps[i])
    ensures HandleRequest(Document(Some(RequestTree(name, ps))), names, handler)
      == Respond(handler(names[Str(name)], NormalizeParams(ps)))
  {
    MethodNameRoundTrip(name, ps);
    RequestParamsRoundTrip(name, ps);
  }

  /** What a client reads from the response to an outcome: a returned value
      reads back as the response's value with the response valid and without
      error; a raised error reads back as a fault with its code and string,
      and the response is not valid. */
  lemma RespondReads(o: Outcome)
    ensures var m := ResponseMessage(Respond(o));
      m.Success?
      && (o.Return? && ValidValue(o.value) ==>
            ValueOf(m.value.document) == Success(Normalize(o.value))
            && IsValidOf(m.value.document) == Success(true)
            && ErrorOf(m.value.document) == Success(None))
      && (!o.Return? ==> IsValidOf(m.value.document) == Success(false))
      && (o.RaiseFault? ==>
            FaultCodeOf(m.value.document) == Success(Int(o.fault.code))
            && FaultStringOf(m.value.document)
              == Success(if o.fault.message == "" then Nil else Str(o.fault.message)))
      && (o.RaiseValueError? ==> FaultCodeOf(m.value.document) == Success(Int(-1)))
      && (o.RaiseOther? ==> FaultCodeOf(m.value.document) == Success(Int(0)))
  {
    match o
    case Return(v) =>
      if ValidValue(v) {
        ValueResponseRoundTrip(v);
      }
    case RaiseFault(f) =>
      FaultResponseRoundTrip(f, None);
    case RaiseValueError(msg) =>
      FaultResponseRoundTrip(Fault(msg, -1), None);
    case RaiseOther(msg) =>
      FaultResponseRoundTrip(Fault(msg, 0), None);
  }

  /** A handler that raises a ValueError shows the difference: the written
      code fails where the intended one answers with fault -1. */
  lemma ValueErrorCounterexample(name: string, ps: seq<Value>, handler: Handler)
    requires name != ""
    requires forall i :: 0 <= i < |ps| ==> ValidValue(ps[i])
    requires handler(name, NormalizeParams(ps)) == RaiseValueError("bad value")
    ensures var d := Document(Some(RequestTree(name, ps)));
      var names := map[Str(name) := name];
      HandleRequestAsWritten(d, names, handler) == Failure(UnboundE)
      && HandleRequest(d, names, handler) == FaultOptions(Fault("bad value", -1))
  {
    MethodNameRoundTrip(name, ps);
    RequestParamsRoundTrip(name, ps);
  }

  // ---------------------------------------------------------------------
  // A request given as text

  /** `Object#method` called without a method name, as `request.method` is
      when `request` is a String. */
  const NoMethodName := OtherError("wrong number of arguments (given 0, expected 1)")

  /** `handle_request` given the XML text of a request instead of a
      `Request`: `request.method` is then `String#method` (that is,
      `Object#method`) with no argument. It raises an ArgumentError, which
      `rescue Exception` turns into a code-0 fault, so the text is never read
      and the handler never called. */
  function HandleTextAsWritten(x: XmlText, names: map<Value, string>, handler: Handler): ResponseOptions {
    FaultOptions(Rescue(NoMethodName))
  }

  /** Text read as the request it holds, `Request.new(:xml => text)`, and
      handled as a request. */
  function HandleText(x: XmlText, names: map<Value, string>, handler: Handler): ResponseOptions {
    HandleRequest(x.document, names, handler)
  }

  /** Request text whose tree is a request the builder writes reaches the
      handler with the mapped name and the parameters as they read back. */
  lemma HandleBuiltText(text: string, name: string, ps: seq<Value>, names: map<Value, string>, handler: Handler)
    requires name != "" && Str(name) in names
    requires forall i :: 0 <= i < |ps| ==> ValidValue(ps[i])
    ensures HandleText(XmlText(text, Document(Some(RequestTree(name, ps)))), names, handler)
      == Respond(handler(names[Str(name)], NormalizeParams(ps)))
  {
    HandleBuiltRequest(name, ps, names, handler);
  }

  /** A handler that adds its two parameters shows the difference: given the
      text of a call to it, the intended dispatch answers with the sum, while
      the written one answers with the ArgumentError as a code-0 fault. */
  lemma RawTextCounterexample(text: string, ps: seq<Value>, handler: Handler)
    requires forall i :: 0 <= i < |ps| ==> ValidValue(ps[i])
    requires handler("add", NormalizeParams(ps)) == Return(Int(3))
    ensures var x := XmlText(text, Document(Some(RequestTree("add", ps))));
      var names := map[Str("add") := "add"];
      HandleTextAsWritten(x, names, handler).fault == Some(Fault(NoMethodName.message, 0))
      && HandleTextAsWritten(x, names, handler).value.None?
      && HandleText(x, names, handler) == ResponseOptions(None, Some(Int(3)), None)
  {
    HandleBuiltText(text, "add", ps, map[Str("add") := "add"], handler);
  }
}
