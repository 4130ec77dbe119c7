/** The two XML-RPC messages, `<methodCall>` (`XmlRpc::API::Request`) and
    `<methodResponse>` (`XmlRpc::API::Response`), and the `<fault>` that a
    response carries instead of a value (`XmlRpc::API::Fault`). */
module Envelopes {
  import opened Wrappers
  import opened Xml
  import Text
  import opened Values

  // ---------------------------------------------------------------------
  // Fault

  /** `Fault.new(msg, code)`: an exception carrying a fault string and code. */
  datatype Fault = Fault(message: string, code: int)

  /** The fault as an XML-RPC struct, `faultCode` first when `codeFirst`. */
  function FaultStruct(f: Fault, codeFirst: bool): Value {
    var code := Member("faultCode", Int(f.code));
    var text := Member("faultString", Str(f.message));
    Struct(if codeFirst then [code, text] else [text, code])
  }

  /** The `<fault>` element `build_xml` writes: the hash literal lists
      `faultCode` before `faultString`. */
  function FaultNode(f: Fault): Node {
    Elem("fault", [Wrapped(FaultStruct(f, true))])
  }

  /** `Fault#build_xml(builder)` */
  method BuildFault(b: Markup, f: Fault)
    modifies b
    ensures b.target == old(b.target) + Render(FaultNode(f))
  {
    FaultText(f);
    AppendFive(b.target, OpenTag("fault"), OpenTag("value"), RenderAll(ValueNodes(FaultStruct(f, true))),
      CloseTag("value"), CloseTag("fault"));
    b.Open("fault");
    b.Open("value");
    BuildValue(b, FaultStruct(f, true));
    b.Close("value");
    b.Close("fault");
  }

  lemma FaultText(f: Fault)
    ensures OpenTag("fault") + OpenTag("value") + RenderAll(ValueNodes(FaultStruct(f, true)))
      + CloseTag("value") + CloseTag("fault") == Render(FaultNode(f))
  {
    var v := Wrapped(FaultStruct(f, true));
    RenderElem("value", ValueNodes(FaultStruct(f, true)));
    RenderSingle(v);
    RenderElem("fault", [v]);
  }

  // ---------------------------------------------------------------------
  // Messages

  /** A parsed XML document: its root element, if it has one. */
  datatype Document = Document(root: Option<Node>)

  /** The text given as `:xml`, with the document REXML reads from it (the
      parser itself is not part of this model). */
  datatype XmlText = XmlText(text: string, document: Document)

  /** What `Message#initialize` keeps: the raw text (`nil` for a `:doc`) and
      the document. */
  datatype Message = Message(xml: Option<string>, document: Document)

  /** The message for a tree the builder wrote: its text, and the document
      REXML reads back from that text, which is the tree. */
  function Built(tree: Node): Message {
    Message(Some(Render(tree)), Document(Some(tree)))
  }

  /** One `<param>`: `<value>` around a parameter, or nothing inside for `nil`. */
  function ParamNode(p: Value): Node {
    Elem("param", if p == Nil then [] else [Wrapped(p)])
  }

  function ParamNodes(ps: seq<Value>): (r: seq<Node>)
    ensures |r| == |ps| && forall i :: 0 <= i < |ps| ==> r[i] == ParamNode(ps[i])
  {
    if ps == [] then [] else [ParamNode(ps[0])] + ParamNodes(ps[1..])
  }

  /** The error a reader raises when the document has no root element. */
  function NoRoot(reader: string): Error {
    OtherError("undefined method `" + reader + "' for nil:NilClass")
  }

  // ---------------------------------------------------------------------
  // Request

  /** The options of `Request.new`; absent and `nil` options are both `None`. */
  datatype RequestOptions = RequestOptions(
    xml: Option<XmlText>, doc: Option<Document>, methodName: Option<string>, params: Option<seq<Value>>)

  /** `<methodCall>` with the method name and one `<param>` per parameter. */
  function RequestTree(name: string, ps: seq<Value>): Node {
    Elem("methodCall", [Leaf("methodName", name), Elem("params", ParamNodes(ps))])
  }

  /** `Request.new(options)`: a document given as `:xml` or `:doc` (`:xml`
      winning) is kept as it is; otherwise `:method` and `:params` are written
      out. A document together with `:method`, or neither a document nor both
      of `:method` and `:params`, is a RequestError. */
  function RequestMessage(o: RequestOptions): Result<Message, Error> {
    if (o.xml.Some? || o.doc.Some?) && o.methodName.Some? then
      Failure(RequestError("You cannot include both :xml and :method parameters"))
    else if o.xml.Some? then Success(Message(Some(o.xml.value.text), o.xml.value.document))
    else if o.doc.Some? then Success(Message(None, o.doc.value))
    else if o.methodName.Some? && o.params.Some? then
      Success(Built(RequestTree(o.methodName.value, o.params.value)))
    else Failure(RequestError("You must include either an :xml or :doc or :method and :params options"))
  }

  /** `request.method`: the value of the first `<methodName>` of the root. */
  function MethodOf(d: Document): Result<Value, Error> {
    match d.root
    case None => Failure(NoRoot("elements"))
    case Some(r) => ParseValue(Child(r, "methodName"))
  }

  /** `request.params`: the value of each `params/param` of the root, `nil`
      for a `<param>` without `<value>`. */
  function ParamsOf(d: Document): Result<seq<Value>, Error> {
    match d.root
    case None => Failure(NoRoot("get_elements"))
    case Some(r) => ParseParams(Step(Step([r], "params"), "param"))
  }

  function ParseParams(ps: seq<Node>): Result<seq<Value>, Error> {
    if ps == [] then Success([])
    else
      var x :- ParseValue(Child(ps[0], "value"));
      var rest :- ParseParams(ps[1..]);
      Success([x] + rest)
  }

  /** The construction rules of `Request.new`. */
  lemma RequestOptionsRules(o: RequestOptions)
    ensures RequestMessage(o).Failure? <==>
      ((o.xml.Some? || o.doc.Some?) && o.methodName.Some?)
      || (o.xml.None? && o.doc.None? && (o.methodName.None? || o.params.None?))
    ensures RequestMessage(o).Failure? ==> RequestMessage(o).error.RequestError?
    ensures o.xml.Some? && o.methodName.None? ==> RequestMessage(o) == Success(Message(Some(o.xml.value.text), o.xml.value.document))
  {
  }

  lemma ParamNodesAppend(a: seq<Value>, b: seq<Value>)
    ensures ParamNodes(a + b) == ParamNodes(a) + ParamNodes(b)
  {
  }

  lemma {:induction false} NamedAll(ns: seq<Node>, name: string)
    requires forall i :: 0 <= i < |ns| ==> ns[i].name == name
    ensures Named(ns, name) == ns
  {
    if ns != [] {
      NamedAll(ns[1..], name);
      assert ns == [ns[0]] + ns[1..];
    }
  }

  lemma StepOne(n: Node, name: string)
    ensures Step([n], name) == Named(n.children, name)
  {
    assert [n][1..] == [];
  }

  /** Reading back the `<param>`s written for `ps`: each parameter as it
      reads back, `nil` included, at its own position. */
  lemma {:induction false} ParamsRoundTrip(ps: seq<Value>)
    requires forall i :: 0 <= i < |ps| ==> ValidValue(ps[i])
    ensures ParseParams(ParamNodes(ps)) == Success(NormalizeParams(ps))
  {
    if ps != [] {
      var p := ps[0];
      var nodes := ParamNodes(ps);
      assert nodes[1..] == ParamNodes(ps[1..]);
      ParamsRoundTrip(ps[1..]);
      if p == Nil {
        assert Child(ParamNode(p), "value") == None;
      } else {
        assert FirstNamed(ParamNode(p).children, "value") == Some(0);
        assert Child(ParamNode(p), "value") == Some(Wrapped(p));
        RoundTrip(p);
      }
    }
  }

  /** Each parameter as it reads back, keeping `nil`s in place. */
  function NormalizeParams(ps: seq<Value>): (r: seq<Value>)
    ensures |r| == |ps| && forall i :: 0 <= i < |ps| ==> r[i] == Normalize(ps[i])
  {
    if ps == [] then [] else [Normalize(ps[0])] + NormalizeParams(ps[1..])
  }

  /** A request written from a method name and parameters reads back that
      name (`nil` when it is empty) and the parameters, one per position with
      each `nil` where it was. */
  lemma RequestRoundTrip(name: string, ps: seq<Value>)
    requires forall i :: 0 <= i < |ps| ==> ValidValue(ps[i])
    ensures var m := RequestMessage(RequestOptions(None, None, Some(name), Some(ps)));
      m.Success?
      && MethodOf(m.value.document) == Success(if name == "" then Nil else Str(name))
      && ParamsOf(m.value.document).Success?
      && |ParamsOf(m.value.document).value| == |ps|
      && (forall i :: 0 <= i < |ps| ==> ParamsOf(m.value.document).value[i] == Normalize(ps[i]))
  {
    assert RequestMessage(RequestOptions(None, None, Some(name), Some(ps))) == Success(Built(RequestTree(name, ps)));
    MethodNameRoundTrip(name, ps);
    RequestParamsRoundTrip(name, ps);
  }

  lemma MethodNameRoundTrip(name: string, ps: seq<Value>)
    ensures MethodOf(Document(Some(RequestTree(name, ps)))) == Success(if name == "" then Nil else Str(name))
  {
    var tree := RequestTree(name, ps);
    assert FirstNamed(tree.children, "methodName") == Some(0);
  }

  lemma RequestParamsRoundTrip(name: string, ps: seq<Value>)
    requires forall i :: 0 <= i < |ps| ==> ValidValue(ps[i])
    ensures ParamsOf(Document(Some(RequestTree(name, ps)))) == Success(NormalizeParams(ps))
  {
    RequestParamNodes(name, ps);
    ParamsRoundTrip(ps);
  }

  /** `params/param` of a written request is the `<param>` list. */
  lemma RequestParamNodes(name: string, ps: seq<Value>)
    ensures Step(Step([RequestTree(name, ps)], "params"), "param") == ParamNodes(ps)
  {
    var tree := RequestTree(name, ps);
    var paramsNode := Elem("params", ParamNodes(ps));
    StepOne(tree, "params");
    assert tree.children == [Leaf("methodName", name)] + [paramsNode];
    NamedAll([paramsNode], "params");
    assert Named(tree.children, "params") == [paramsNode];
    StepOne(paramsNode, "param");
    NamedAll(ParamNodes(ps), "param");
  }

  /** What `@x ||= reading` leaves in `@x`: the reading when it is truthy,
      and nothing otherwise (a `nil` or `false` reading is read again on the
      next call, and an exception assigns nothing). */
  function Remembered(r: Result<Value, Error>): (c: Option<Value>)
    ensures c.Some? <==> r.Success? && Truthy(r.value)
    ensures c.Some? ==> c.value == r.value
  {
    if r.Success? && Truthy(r.value) then Some(r.value) else None
  }

  /** `is_valid?` goes on to read `fault_string` exactly when the code reads as blank. */
  predicate CodeBlank(d: Document) {
    FaultCodeOf(d).Success? && Blank(FaultCodeOf(d).value)
  }

  /** `error` goes on to read `fault_string` exactly when the code reads as not blank. */
  predicate CodeShown(d: Document) {
    FaultCodeOf(d).Success? && !Blank(FaultCodeOf(d).value)
  }

  /** `XmlRpc::API::Request`: the message and the memoised readers
      `@method ||= ...` and `@params ||= ...`, which keep a result only when
      it is truthy. */
  class Request {
    const xml: Option<string>
    const document: Document
    var methodCache: Option<Value>
    var paramsCache: Option<seq<Value>>

    /** A cached result is always the one the document gives. */
    ghost predicate Valid()
      reads this
    {
      (methodCache.Some? ==> MethodOf(document) == Success(methodCache.value) && Truthy(methodCache.value))
      && (paramsCache.Some? ==> ParamsOf(document) == Success(paramsCache.value))
    }

    constructor Of(m: Message)
      ensures xml == m.xml && document == m.document
      ensures methodCache == None && paramsCache == None
      ensures Valid()
    {
      xml := m.xml;
      document := m.document;
      methodCache := None;
      paramsCache := None;
    }

    /** `Request.new(options)`, writing the `<methodCall>` with a builder when
        it is made from `:method` and `:params`. */
    static method New(o: RequestOptions) returns (r: Result<Request, Error>)
      ensures r.Failure? <==> RequestMessage(o).Failure?
      ensures r.Failure? ==> r.error == RequestMessage(o).error
      ensures r.Success? ==>
        (fresh(r.value) && r.value.Valid()
         && Message(r.value.xml, r.value.document) == RequestMessage(o).value)
    {
      if (o.xml.Some? || o.doc.Some?) && o.methodName.Some? {
        return Failure(RequestError("You cannot include both :xml and :method parameters"));
      } else if o.xml.Some? {
        var q := new Request.Of(Message(Some(o.xml.value.text), o.xml.value.document));
        return Success(q);
      } else if o.doc.Some? {
        var q := new Request.Of(Message(None, o.doc.value));
        return Success(q);
      } else if o.methodName.Some? && o.params.Some? {
        var tree := RequestTree(o.methodName.value, o.params.value);
        assert RequestMessage(o) == Success(Built(tree));
        var b := new Markup();
        BuildRequest(b, o.methodName.value, o.params.value);
        assert b.target == Render(tree);
        var q := new Request.Of(Message(Some(b.target), Document(Some(tree))));
        return Success(q);
      } else {
        return Failure(RequestError("You must include either an :xml or :doc or :method and :params options"));
      }
    }

    /** `request.method` */
    method Method() returns (r: Result<Value, Error>)
      requires Valid()
      modifies this
      ensures Valid() && r == MethodOf(document)
      ensures methodCache == Remembered(r)
      ensures paramsCache == old(paramsCache)
    {
      if methodCache.Some? {
        return Success(methodCache.value);
      }
      r := MethodOf(document);
      if r.Success? && Truthy(r.value) {
        methodCache := Some(r.value);
      }
    }

    /** `request.params` */
    method Params() returns (r: Result<seq<Value>, Error>)
      requires Valid()
      modifies this
      ensures Valid() && r == ParamsOf(document)
      ensures paramsCache == (if r.Success? then Some(r.value) else None)
      ensures methodCache == old(methodCache)
    {
      if paramsCache.Some? {
        return Success(paramsCache.value);
      }
      r := ParamsOf(document);
      if r.Success? {
        paramsCache := Some(r.value);
      }
    }
  }

  /** The builder calls of `Request.new` for `:method` and `:params`. */
  method BuildRequest(b: Markup, name: string, ps: seq<Value>)
    modifies b
    ensures b.target == old(b.target) + Render(RequestTree(name, ps))
  {
    RequestText(name, ps);
    AppendFive(b.target, OpenTag("methodCall"), Render(Leaf("methodName", name)),
      OpenTag("params") + RenderAll(ParamNodes(ps)) + CloseTag("params"), "", CloseTag("methodCall"));
    b.Open("methodCall");
    b.Tag("methodName", name);
    BuildParams(b, ps);
    b.Close("methodCall");
  }

  lemma RequestText(name: string, ps: seq<Value>)
    ensures OpenTag("methodCall") + Render(Leaf("methodName", name))
      + (OpenTag("params") + RenderAll(ParamNodes(ps)) + CloseTag("params")) + "" + CloseTag("methodCall")
      == Render(RequestTree(name, ps))
  {
    var kids := [Leaf("methodName", name), Elem("params", ParamNodes(ps))];
    assert kids[1..] == [Elem("params", ParamNodes(ps))];
    RenderSingle(Elem("params", ParamNodes(ps)));
    RenderElem("params", ParamNodes(ps));
    assert RenderAll(kids) == Render(kids[0]) + RenderAll(kids[1..]);
    RenderElem("methodCall", kids);
  }

  /** `builder.params { options[:params].each { |param| builder.param { ... } } }` */
  method BuildParams(b: Markup, ps: seq<Value>)
    modifies b
    ensures b.target == old(b.target) + (OpenTag("params") + RenderAll(ParamNodes(ps)) + CloseTag("params"))
  {
    AppendThree(b.target, OpenTag("params"), RenderAll(ParamNodes(ps)), CloseTag("params"));
    b.Open("params");
    ghost var prefix := b.target;
    var i := 0;
    while i < |ps|
      invariant 0 <= i <= |ps|
      invariant b.target == prefix + RenderAll(ParamNodes(ps[..i]))
    {
      BuildParam(b, ps[i]);
      ParamTextStep(ps, i);
      Assoc(prefix, RenderAll(ParamNodes(ps[..i])), Render(ParamNode(ps[i])));
      i := i + 1;
    }
    assert ps[..i] == ps;
    b.Close("params");
  }

  /** The text of the first `i + 1` parameters extends that of the first `i`. */
  lemma ParamTextStep(ps: seq<Value>, i: nat)
    requires i < |ps|
    ensures RenderAll(ParamNodes(ps[..i + 1])) == RenderAll(ParamNodes(ps[..i])) + Render(ParamNode(ps[i]))
  {
    assert ps[..i + 1] == ps[..i] + [ps[i]];
    ParamNodesAppend(ps[..i], [ps[i]]);
    RenderAllAppend(ParamNodes(ps[..i]), ParamNodes([ps[i]]));
    assert ParamNodes([ps[i]]) == [ParamNode(ps[i])];
    RenderSingle(ParamNode(ps[i]));
  }

  /** `builder.param { builder.value { build_value(builder, param) } unless param.nil? }` */
  method BuildParam(b: Markup, p: Value)
    modifies b
    ensures b.target == old(b.target) + Render(ParamNode(p))
  {
    ParamText(p);
    if p == Nil {
      AppendThree(b.target, OpenTag("param"), "", CloseTag("param"));
      b.Open("param");
      b.Close("param");
    } else {
      AppendFive(b.target, OpenTag("param"), OpenTag("value"), RenderAll(ValueNodes(p)), CloseTag("value"), CloseTag("param"));
      b.Open("param");
      b.Open("value");
      BuildValue(b, p);
      b.Close("value");
      b.Close("param");
    }
  }

  lemma ParamText(p: Value)
    ensures p == Nil ==> OpenTag("param") + "" + CloseTag("param") == Render(ParamNode(p))
    ensures p != Nil ==>
      (OpenTag("param") + OpenTag("value") + RenderAll(ValueNodes(p)) + CloseTag("value")
       + CloseTag("param") == Render(ParamNode(p)))
  {
    if p == Nil {
      RenderElem("param", []);
    } else {
      RenderElem("value", ValueNodes(p));
      RenderSingle(Wrapped(p));
      RenderElem("param", [Wrapped(p)]);
      AppendThree(OpenTag("param"), OpenTag("value"), RenderAll(ValueNodes(p)), CloseTag("value"));
    }
  }

  // ---------------------------------------------------------------------
  // Response

  /** The options of `Response.new`: `value` is `None` when there is no
      `:value` key and `Some(Nil)` for `:value => nil`. */
  datatype ResponseOptions = ResponseOptions(xml: Option<XmlText>, value: Option<Value>, fault: Option<Fault>)

  /** `<methodResponse>` holding the fault, or else one `<param>` with the value. */
  function ResponseTree(value: Value, fault: Option<Fault>): Node {
    Elem("methodResponse", [
      match fault
      case Some(f) => FaultNode(f)
      case None => Elem("params", [ParamNode(value)])])
  }

  /** `Response.new(options)`: `:xml` is kept as it is; otherwise a `:value`
      key or a `:fault` is written out, the fault winning. `:xml` together with
      either, or none of the three, is a RequestError. */
  function ResponseMessage(o: ResponseOptions): Result<Message, Error> {
    if o.xml.Some? && (o.value.Some? || o.fault.Some?) then
      Failure(RequestError("You cannot include both :xml and :value or :fault options"))
    else if o.xml.Some? then Success(Message(Some(o.xml.value.text), o.xml.value.document))
    else if o.value.Some? || o.fault.Some? then
      Success(Built(ResponseTree(if o.value.Some? then o.value.value else Nil, o.fault)))
    else Failure(RequestError("You must include either an :xml or :value or :fault option"))
  }

  /** The XPath `fault/value/struct/member[name='key']/value`, first match. */
  function FaultField(r: Node, key: string): Option<Node> {
    First(Step(Where(Step(Step(Step(Step([r], "fault"), "value"), "struct"), "member"), "name", key), "value"))
  }

  /** `fault_code` and `fault_string`: `nil` for a document without root. */
  function FaultFieldOf(d: Document, key: string): Result<Value, Error> {
    match d.root
    case None => Success(Nil)
    case Some(r) => ParseValue(FaultField(r, key))
  }

  function FaultCodeOf(d: Document): Result<Value, Error> { FaultFieldOf(d, "faultCode") }

  function FaultStringOf(d: Document): Result<Value, Error> { FaultFieldOf(d, "faultString") }

  /** `response.value`: the first `params/param/value`. */
  function ValueOf(d: Document): Result<Value, Error> {
    match d.root
    case None => Failure(NoRoot("elements"))
    case Some(r) => ParseValue(First(Step(Step(Step([r], "params"), "param"), "value")))
  }

  /** `is_valid?`: the fault code is blank and so is the fault string, which
      is not read when the code is not blank. */
  function IsValidOf(d: Document): Result<bool, Error> {
    var code :- FaultCodeOf(d);
    if !Blank(code) then Success(false)
    else
      var text :- FaultStringOf(d);
      Success(Blank(text))
  }

  /** `error`: `"string (code)"`, or `nil` when the code is blank. */
  function ErrorOf(d: Document): Result<Option<string>, Error> {
    var code :- FaultCodeOf(d);
    if Blank(code) then Success(None)
    else
      var text :- FaultStringOf(d);
      Success(Some(Display(text) + " (" + Display(code) + ")"))
  }

  /** The construction rules of `Response.new`. */
  lemma ResponseOptionsRules(o: ResponseOptions)
    ensures ResponseMessage(o).Failure? <==>
      (o.xml.Some? && (o.value.Some? || o.fault.Some?)) || (o.xml.None? && o.value.None? && o.fault.None?)
    ensures ResponseMessage(o).Failure? ==> ResponseMessage(o).error.RequestError?
    ensures o.xml.None? && o.fault.Some? ==> ResponseMessage(o) == Success(Built(ResponseTree(Nil, o.fault)))
  {
  }

  /** A `<methodResponse>` whose fault struct lists its two members in either order. */
  function FaultResponse(f: Fault, codeFirst: bool): Node {
    Elem("methodResponse", [Elem("fault", [Wrapped(FaultStruct(f, codeFirst))])])
  }

  lemma StringValueLeaf(name: string, text: string)
    ensures StringValue(Leaf(name, text)) == text
  {
    assert text + "" == text;
  }

  lemma WhereTwo(a: Node, b: Node, name: string, k: string)
    ensures Where([a, b], name, k)
      == (if HasChildValued(a, name, k) then [a] else []) + (if HasChildValued(b, name, k) then [b] else [])
  {
    assert [a, b][1..] == [b];
    assert [b][1..] == [];
    var tail := if HasChildValued(b, name, k) then [b] else [];
    assert Where([b], name, k) == tail + [];
    assert tail + [] == tail;
  }

  /** The member nodes under `fault/value/struct` of a fault response. */
  lemma FaultMembers(f: Fault, codeFirst: bool)
    ensures var ms := Step(Step(Step([FaultResponse(f, codeFirst)], "fault"), "value"), "struct");
      Step(ms, "member") == MemberNodes(FaultStruct(f, codeFirst).members)
  {
    var r := FaultResponse(f, codeFirst);
    var fault := r.children[0];
    var value := fault.children[0];
    var st := value.children[0];
    StepOne(r, "fault");
    NamedAll(r.children, "fault");
    StepOne(fault, "value");
    NamedAll(fault.children, "value");
    StepOne(value, "struct");
    NamedAll(value.children, "struct");
    StepOne(st, "member");
    var code := Member("faultCode", Int(f.code));
    var text := Member("faultString", Str(f.message));
    if codeFirst {
      MemberNodesTwo(code, text);
    } else {
      MemberNodesTwo(text, code);
    }
    NamedAll(st.children, "member");
  }

  lemma MemberNodesTwo(a: Member, b: Member)
    requires a.value != Nil && b.value != Nil
    ensures MemberNodes([a, b]) == [MemberNode(a.name, a.value), MemberNode(b.name, b.value)]
  {
    assert [a, b] == [a] + [b];
    MemberNodesAppend([a], [b]);
    MemberNodesSingle(a);
    MemberNodesSingle(b);
  }

  /** `[name='k']` holds of a member exactly when `k` is its name. */
  lemma MemberNodeNamed(name: string, v: Value, k: string)
    ensures HasChildValued(MemberNode(name, v), "name", k) <==> k == name
  {
    var n := MemberNode(name, v);
    StringValueLeaf("name", name);
    assert n.children[0].name == "name" && StringValue(n.children[0]) == name;
    assert n.children[1].name == "value";
  }

  /** The `<value>` of the fault member called `key`. */
  lemma FaultFieldNode(f: Fault, codeFirst: bool, key: string)
    requires key == "faultCode" || key == "faultString"
    ensures FaultField(FaultResponse(f, codeFirst), key)
      == Some(Wrapped(if key == "faultCode" then Int(f.code) else Str(f.message)))
  {
    var v := if key == "faultCode" then Int(f.code) else Str(f.message);
    FaultWhere(f, codeFirst, key);
    MemberValue(key, v);
  }

  /** `member[name='key']` picks out the one member called `key`. */
  lemma FaultWhere(f: Fault, codeFirst: bool, key: string)
    requires key == "faultCode" || key == "faultString"
    ensures var ms := Step(Step(Step([FaultResponse(f, codeFirst)], "fault"), "value"), "struct");
      Where(Step(ms, "member"), "name", key)
        == [MemberNode(key, if key == "faultCode" then Int(f.code) else Str(f.message))]
  {
    var codeNode := MemberNode("faultCode", Int(f.code));
    var textNode := MemberNode("faultString", Str(f.message));
    FaultMembers(f, codeFirst);
    if codeFirst {
      MemberNodesTwo(Member("faultCode", Int(f.code)), Member("faultString", Str(f.message)));
    } else {
      MemberNodesTwo(Member("faultString", Str(f.message)), Member("faultCode", Int(f.code)));
    }
    MemberNodeNamed("faultCode", Int(f.code), key);
    MemberNodeNamed("faultString", Str(f.message), key);
    if codeFirst {
      WhereTwo(codeNode, textNode, "name", key);
    } else {
      WhereTwo(textNode, codeNode, "name", key);
    }
  }

  /** The `<value>` under a written member. */
  lemma MemberValue(name: string, v: Value)
    ensures Step([MemberNode(name, v)], "value") == [Wrapped(v)]
  {
    var n := MemberNode(name, v);
    StepOne(n, "value");
    assert n.children[1..] == [Wrapped(v)];
    NamedAll([Wrapped(v)], "value");
    assert Named(n.children, "value") == [] + Named(n.children[1..], "value");
  }

  /** `fault_code` and `fault_string` look their member up by name, so they
      read the same code and string whichever order the members come in. */
  lemma FaultReaders(f: Fault, codeFirst: bool)
    ensures FaultCodeOf(Document(Some(FaultResponse(f, codeFirst)))) == Success(Int(f.code))
    ensures FaultStringOf(Document(Some(FaultResponse(f, codeFirst))))
      == Success(if f.message == "" then Nil else Str(f.message))
    ensures IsValidOf(Document(Some(FaultResponse(f, codeFirst)))) == Success(false)
    ensures ErrorOf(Document(Some(FaultResponse(f, codeFirst))))
      == Success(Some(f.message + " (" + Text.ShowInt(f.code) + ")"))
  {
    FaultFieldNode(f, codeFirst, "faultCode");
    FaultFieldNode(f, codeFirst, "faultString");
    RoundTrip(Int(f.code));
    RoundTrip(Str(f.message));
    FaultVerdict(Document(Some(FaultResponse(f, codeFirst))), f);
  }

  /** A document whose fault code is an integer is not valid, and its error
      shows the fault string and then the code in parentheses. */
  lemma FaultVerdict(d: Document, f: Fault)
    requires FaultCodeOf(d) == Success(Int(f.code))
    requires FaultStringOf(d) == Success(if f.message == "" then Nil else Str(f.message))
    ensures IsValidOf(d) == Success(false)
    ensures ErrorOf(d) == Success(Some(f.message + " (" + Text.ShowInt(f.code) + ")"))
  {
    assert !Blank(Int(f.code));
    assert Display(if f.message == "" then Nil else Str(f.message)) == f.message;
  }

  /** A document with neither fault code nor fault string is valid and has
      no error. */
  lemma NoFaultVerdict(d: Document)
    requires FaultCodeOf(d) == Success(Nil) && FaultStringOf(d) == Success(Nil)
    ensures IsValidOf(d) == Success(true) && ErrorOf(d) == Success(None)
  {
  }

  /** A response written for a fault reads back the fault's code and string,
      has no value, is not valid, and has the error `"string (code)"`. */
  lemma FaultResponseRoundTrip(f: Fault, value: Option<Value>)
    ensures var m := ResponseMessage(ResponseOptions(None, value, Some(f)));
      m.Success?
      && FaultCodeOf(m.value.document) == Success(Int(f.code))
      && FaultStringOf(m.value.document) == Success(if f.message == "" then Nil else Str(f.message))
      && ValueOf(m.value.document) == Success(Nil)
      && IsValidOf(m.value.document) == Success(false)
      && ErrorOf(m.value.document) == Success(Some(f.message + " (" + Text.ShowInt(f.code) + ")"))
  {
    var r := ResponseTree(Nil, Some(f));
    assert r == FaultResponse(f, true);
    assert ResponseMessage(ResponseOptions(None, value, Some(f))) == Success(Built(r));
    FaultReaders(f, true);
    FaultResponseNoValue(f);
  }

  /** A fault response has no `params`, so its value reads as `nil`. */
  lemma FaultResponseNoValue(f: Fault)
    ensures ValueOf(Document(Some(ResponseTree(Nil, Some(f))))) == Success(Nil)
  {
    var r := ResponseTree(Nil, Some(f));
    StepOne(r, "params");
    assert Named(r.children, "params") == [] by {
      assert r.children[1..] == [];
    }
  }

  /** A response written for a value (with no fault) reads back the value,
      has no fault, is valid, and has no error; a `nil` value reads back as
      `nil`. */
  lemma ValueResponseRoundTrip(v: Value)
    requires ValidValue(v)
    ensures var m := ResponseMessage(ResponseOptions(None, Some(v), None));
      m.Success?
      && ValueOf(m.value.document) == Success(Normalize(v))
      && FaultCodeOf(m.value.document) == Success(Nil)
      && FaultStringOf(m.value.document) == Success(Nil)
      && IsValidOf(m.value.document) == Success(true)
      && ErrorOf(m.value.document) == Success(None)
  {
    var d := Document(Some(ResponseTree(v, None)));
    assert ResponseMessage(ResponseOptions(None, Some(v), None)) == Success(Built(ResponseTree(v, None)));
    ValueResponseValue(v);
    ValueResponseNoFault(v);
    NoFaultVerdict(d);
  }

  lemma ValueResponseValue(v: Value)
    requires ValidValue(v)
    ensures ValueOf(Document(Some(ResponseTree(v, None)))) == Success(Normalize(v))
  {
    var r := ResponseTree(v, None);
    var params := r.children[0];
    var param := params.children[0];
    StepOne(r, "params");
    NamedAll(r.children, "params");
    StepOne(params, "param");
    NamedAll(params.children, "param");
    StepOne(param, "value");
    NamedAll(param.children, "value");
    if v != Nil {
      RoundTrip(v);
    }
  }

  /** A value response has no `fault`, so both fault fields read as `nil`. */
  lemma ValueResponseNoFault(v: Value)
    ensures FaultCodeOf(Document(Some(ResponseTree(v, None)))) == Success(Nil)
    ensures FaultStringOf(Document(Some(ResponseTree(v, None)))) == Success(Nil)
  {
    var r := ResponseTree(v, None);
    StepOne(r, "fault");
    assert Named(r.children, "fault") == [] by {
      assert r.children[1..] == [];
    }
  }

  /** The response of the response specification whose fault struct lists
      `faultString` first: code 4, string "Too many parameters.", not valid,
      error "Too many parameters. (4)". */
  lemma FaultExample(f: Fault)
    requires f.message == "Too many parameters." && f.code == 4
    ensures var d := Document(Some(FaultResponse(f, false)));
      FaultCodeOf(d) == Success(Int(4))
      && FaultStringOf(d) == Success(Str(f.message))
      && IsValidOf(d) == Success(false)
      && ErrorOf(d) == Success(Some(f.message + " (4)"))
  {
    FaultReaders(f, false);
    var shown := Text.ShowInt(f.code);
    ShowFour(f.code);
    assert f.message != "";
    assert " (" + shown + ")" == " (4)";
    Assoc(f.message, " (" + shown, ")");
    Assoc(f.message, " (", shown);
  }

  lemma ShowFour(n: int)
    requires n == 4
    ensures Text.ShowInt(n) == "4"
  {
  }

  /** `XmlRpc::API::Response`: the message and the memoised readers
      `@fault_code ||= ...`, `@fault_string ||= ...` and `@value ||= ...`. */
  class Response {
    const xml: Option<string>
    const document: Document
    var faultCodeCache: Option<Value>
    var faultStringCache: Option<Value>
    var valueCache: Option<Value>

    /** A cached result is always the truthy one the document gives. */
    ghost predicate Valid()
      reads this
    {
      (faultCodeCache.Some? ==> FaultCodeOf(document) == Success(faultCodeCache.value) && Truthy(faultCodeCache.value))
      && (faultStringCache.Some? ==> FaultStringOf(document) == Success(faultStringCache.value) && Truthy(faultStringCache.value))
      && (valueCache.Some? ==> ValueOf(document) == Success(valueCache.value) && Truthy(valueCache.value))
    }

    constructor Of(m: Message)
      ensures xml == m.xml && document == m.document
      ensures faultCodeCache == None && faultStringCache == None && valueCache == None
      ensures Valid()
    {
      xml := m.xml;
      document := m.document;
      faultCodeCache := None;
      faultStringCache := None;
      valueCache := None;
    }

    /** `Response.new(options)`, writing the `<methodResponse>` with a builder
        when it is made from `:value` or `:fault`. */
    static method New(o: ResponseOptions) returns (r: Result<Response, Error>)
      ensures r.Failure? <==> ResponseMessage(o).Failure?
      ensures r.Failure? ==> r.error == ResponseMessage(o).error
      ensures r.Success? ==>
        (fresh(r.value) && r.value.Valid()
         && Message(r.value.xml, r.value.document) == ResponseMessage(o).value)
    {
      if o.xml.Some? && (o.value.Some? || o.fault.Some?) {
        return Failure(RequestError("You cannot include both :xml and :value or :fault options"));
      } else if o.xml.Some? {
        var q := new Response.Of(Message(Some(o.xml.value.text), o.xml.value.document));
        return Success(q);
      } else if o.value.Some? || o.fault.Some? {
        var value := if o.value.Some? then o.value.value else Nil;
        var tree := ResponseTree(value, o.fault);
        assert ResponseMessage(o) == Success(Built(tree));
        var b := new Markup();
        BuildResponse(b, value, o.fault);
        assert b.target == Render(tree);
        var q := new Response.Of(Message(Some(b.target), Document(Some(tree))));
        return Success(q);
      } else {
        return Failure(RequestError("You must include either an :xml or :value or :fault option"));
      }
    }

    /** `fault_code` */
    method FaultCode() returns (r: Result<Value, Error>)
      requires Valid()
      modifies this
      ensures Valid() && r == FaultCodeOf(document)
      ensures faultCodeCache == Remembered(r)
      ensures faultStringCache == old(faultStringCache) && valueCache == old(valueCache)
    {
      if document.root.None? {
        return Success(Nil);
      }
      if faultCodeCache.Some? {
        return Success(faultCodeCache.value);
      }
      r := FaultCodeOf(document);
      if r.Success? && Truthy(r.value) {
        faultCodeCache := Some(r.value);
      }
    }

    /** `fault_string` */
    method FaultString() returns (r: Result<Value, Error>)
      requires Valid()
      modifies this
      ensures Valid() && r == FaultStringOf(document)
      ensures faultStringCache == Remembered(r)
      ensures faultCodeCache == old(faultCodeCache) && valueCache == old(valueCache)
    {
      if document.root.None? {
        return Success(Nil);
      }
      if faultStringCache.Some? {
        return Success(faultStringCache.value);
      }
      r := FaultStringOf(document);
      if r.Success? && Truthy(r.value) {
        faultStringCache := Some(r.value);
      }
    }

    /** `value` */
    method Value() returns (r: Result<Value, Error>)
      requires Valid()
      modifies this
      ensures Valid() && r == ValueOf(document)
      ensures valueCache == Remembered(r)
      ensures faultCodeCache == old(faultCodeCache) && faultStringCache == old(faultStringCache)
    {
      if valueCache.Some? {
        return Success(valueCache.value);
      }
      r := ValueOf(document);
      if r.Success? && Truthy(r.value) {
        valueCache := Some(r.value);
      }
    }

    /** `is_valid?` */
    method IsValid() returns (r: Result<bool, Error>)
      requires Valid()
      modifies this
      ensures Valid() && r == IsValidOf(document)
      ensures faultCodeCache == Remembered(FaultCodeOf(document))
      ensures faultStringCache == (if CodeBlank(document) then Remembered(FaultStringOf(document)) else old(faultStringCache))
      ensures valueCache == old(valueCache)
    {
      var code := FaultCode();
      if code.Failure? {
        return Failure(code.error);
      }
      if !Blank(code.value) {
        return Success(false);
      }
      var text := FaultString();
      if text.Failure? {
        return Failure(text.error);
      }
      return Success(Blank(text.value));
    }

    /** `error` */
    method Error() returns (r: Result<Option<string>, Error>)
      requires Valid()
      modifies this
      ensures Valid() && r == ErrorOf(document)
      ensures faultCodeCache == Remembered(FaultCodeOf(document))
      ensures faultStringCache == (if CodeShown(document) then Remembered(FaultStringOf(document)) else old(faultStringCache))
      ensures valueCache == old(valueCache)
    {
      var code := FaultCode();
      if code.Failure? {
        return Failure(code.error);
      }
      if Blank(code.value) {
        return Success(None);
      }
      var text := FaultString();
      if text.Failure? {
        return Failure(text.error);
      }
      var again := FaultCode();
      return Success(Some(Display(text.value) + " (" + Display(again.value) + ")"));
    }
  }

  /** The builder calls of `Response.new` for `:value` or `:fault`. */
  method BuildResponse(b: Markup, value: Value, fault: Option<Fault>)
    modifies b
    ensures b.target == old(b.target) + Render(ResponseTree(value, fault))
  {
    var inner := match fault case Some(f) => FaultNode(f) case None => Elem("params", [ParamNode(value)]);
    RenderElem("methodResponse", [inner]);
    RenderSingle(inner);
    AppendThree(b.target, OpenTag("methodResponse"), Render(inner), CloseTag("methodResponse"));
    b.Open("methodResponse");
    if fault.Some? {
      BuildFault(b, fault.value);
    } else {
      RenderElem("params", [ParamNode(value)]);
      RenderSingle(ParamNode(value));
      AppendThree(b.target, OpenTag("params"), Render(ParamNode(value)), CloseTag("params"));
      b.Open("params");
      BuildParam(b, value);
      b.Close("params");
    }
    b.Close("methodResponse");
  }
}
