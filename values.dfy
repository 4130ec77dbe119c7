/** The XML-RPC value codec of `XmlRpc::API::Message`: `parse_value` reads a
    `<value>` element into a typed value and `build_value` writes the typed
    child element of a value to a builder. */
module Values {
  import opened Wrappers
  import opened Xml
  import Text
  import Base64
  import opened Dates

  /** The Ruby values the codec handles. `Double` keeps the text of a float
      unread; `Base64` stands for an `XmlRpc::API::Value` by its
      `encoded_value`; a struct (a Ruby Hash) lists its members in insertion
      order. */
  datatype Value =
    | Nil
    | Str(text: string)
    | Int(number: int)
    | Bool(flag: bool)
    | Double(token: string)
    | Date(date: CalendarDate)
    | DateTime(stamp: Timestamp)
    | Base64(encoded: Option<string>)
    | Array(items: seq<Value>)
    | Struct(members: seq<Member>)

  datatype Member = Member(name: string, value: Value)

  /** Ruby's truthiness: everything but `nil` and `false`. */
  predicate Truthy(v: Value) {
    v != Nil && v != Bool(false)
  }

  /** A text node read as a Ruby string, or `nil` when there is none. */
  function StrOrNil(t: Option<string>): Value {
    match t
    case None => Nil
    case Some(s) => Str(s)
  }

  // ---------------------------------------------------------------------
  // parse_value

  /** `parse_value(element)`: `nil` for no element, the element's own text
      when it has no child element, and otherwise the value its first child
      element denotes. */
  function ParseValue(e: Option<Node>): Result<Value, Error> {
    match e
    case None => Success(Nil)
    case Some(n) => ParseElement(n)
  }

  function ParseElement(n: Node): Result<Value, Error>
    decreases n
  {
    if n.children == [] then Success(StrOrNil(TextOf(n)))
    else ParseTyped(n.children[0])
  }

  /** The value a type element denotes, chosen by its tag alone. */
  function ParseTyped(c: Node): Result<Value, Error>
    decreases c
  {
    if c.name == "string" then Success(StrOrNil(TextOf(c)))
    else if c.name == "i4" || c.name == "int" then Success(Int(Text.ToI(TextOf(c))))
    else if c.name == "boolean" then Success(Bool(TextOf(c) == Some("1") || TextOf(c) == Some("true")))
    else if c.name == "double" then Success(Double(if c.text == "" then "0.0" else c.text))
    else if c.name == "dateTime.iso8601" then
      var stamp :- ParseTimestamp(TextOf(c));
      Success(DateTime(stamp))
    else if c.name == "base64" then Success(Base64(TextOf(c)))
    else if c.name == "array" then
      var items :- ParseData(c.children);
      Success(Array(items))
    else if c.name == "struct" then
      var members :- ParseMembers(c.children, []);
      Success(Struct(members))
    else Failure(ValueError("Unknown data type in value: " + c.name))
  }

  /** The XPath `data/value` from an `<array>`: the values of every `<value>`
      child of every `<data>` child, in document order. */
  function ParseData(ds: seq<Node>): Result<seq<Value>, Error>
    decreases ds
  {
    if ds == [] then Success([])
    else if ds[0].name == "data" then
      var first :- ParseValues(ds[0].children);
      var rest :- ParseData(ds[1..]);
      Success(first + rest)
    else ParseData(ds[1..])
  }

  function ParseValues(vs: seq<Node>): Result<seq<Value>, Error>
    decreases vs
  {
    if vs == [] then Success([])
    else if vs[0].name == "value" then
      var x :- ParseElement(vs[0]);
      var rest :- ParseValues(vs[1..]);
      Success([x] + rest)
    else ParseValues(vs[1..])
  }

  /** The `<member>` children of a `<struct>` stored one after the other into
      the hash `acc`. The key is the text of the first `<name>` child (the
      empty string standing for a `nil` key); a member without one raises a
      NoMethodError; a member without `<value>` stores `nil`. */
  function ParseMembers(ms: seq<Node>, acc: seq<Member>): Result<seq<Member>, Error>
    decreases ms
  {
    if ms == [] then Success(acc)
    else if ms[0].name != "member" then ParseMembers(ms[1..], acc)
    else
      match FirstNamed(ms[0].children, "name")
      case None => Failure(OtherError("undefined method `text' for nil:NilClass"))
      case Some(k) =>
        var v :- match FirstNamed(ms[0].children, "value")
          case None => Success(Nil)
          case Some(j) => ParseElement(ms[0].children[j]);
        ParseMembers(ms[1..], Put(acc, ms[0].children[k].text, v))
  }

  // ---------------------------------------------------------------------
  // Hash semantics of a struct

  /** Position of the member called `key`. */
  function IndexOfKey(ms: seq<Member>, key: string): (r: Option<nat>)
    ensures r.Some? ==> r.value < |ms| && ms[r.value].name == key
    ensures r.None? ==> forall i :: 0 <= i < |ms| ==> ms[i].name != key
  {
    if ms == [] then None
    else if ms[0].name == key then Some(0)
    else match IndexOfKey(ms[1..], key)
      case None => None
      case Some(i) => Some(i + 1)
  }

  /** `hash[key]` */
  function Lookup(ms: seq<Member>, key: string): Option<Value> {
    match IndexOfKey(ms, key)
    case None => None
    case Some(i) => Some(ms[i].value)
  }

  predicate DistinctNames(ms: seq<Member>) {
    forall i, j :: 0 <= i < j < |ms| ==> ms[i].name != ms[j].name
  }

  /** `hash[key] = v`: a present key keeps its position and takes the new
      value; a new key goes last. */
  function Put(ms: seq<Member>, key: string, v: Value): seq<Member> {
    match IndexOfKey(ms, key)
    case None => ms + [Member(key, v)]
    case Some(i) => ms[i := Member(key, v)]
  }

  /** After `hash[key] = v` the key reads `v`, every other key reads as
      before, no key appears twice, and only a new key makes the hash grow. */
  lemma PutLookup(ms: seq<Member>, key: string, v: Value, other: string)
    requires DistinctNames(ms)
    ensures Lookup(Put(ms, key, v), key) == Some(v)
    ensures other != key ==> Lookup(Put(ms, key, v), other) == Lookup(ms, other)
    ensures DistinctNames(Put(ms, key, v))
    ensures |Put(ms, key, v)| == if Lookup(ms, key).None? then |ms| + 1 else |ms|
    ensures Lookup(ms, key).None? ==> Put(ms, key, v) == ms + [Member(key, v)]
    ensures Lookup(ms, key).Some? ==>
      forall i :: 0 <= i < |ms| ==> Put(ms, key, v)[i].name == ms[i].name
    ensures forall i :: 0 <= i < |ms| && ms[i].name != key ==> Put(ms, key, v)[i] == ms[i]
  {
    var r := Put(ms, key, v);
    match IndexOfKey(ms, key)
    case None =>
      IndexOfKeyFirst(r, key, |ms|);
      if other != key {
        match IndexOfKey(ms, other)
        case None =>
        case Some(i) => IndexOfKeyFirst(r, other, i);
      }
    case Some(i) =>
      IndexOfKeyFirst(r, key, i);
      if other != key {
        match IndexOfKey(ms, other)
        case None =>
        case Some(j) => IndexOfKeyFirst(r, other, j);
      }
  }

  /** In a hash without repeated keys the position of a key is where it is. */
  lemma {:induction false} IndexOfKeyFirst(ms: seq<Member>, key: string, i: nat)
    requires i < |ms| && ms[i].name == key
    requires forall j :: 0 <= j < i ==> ms[j].name != key
    ensures IndexOfKey(ms, key) == Some(i)
  {
    if i > 0 {
      IndexOfKeyFirst(ms[1..], key, i - 1);
    }
  }

  // ---------------------------------------------------------------------
  // build_value

  /** The element `build_value` writes for a value: none for `nil`, and one
      typed element otherwise. */
  function ValueNodes(v: Value): seq<Node>
    decreases v, 0
  {
    match v
    case Nil => []
    case Bool(b) => [Leaf("boolean", if b then "true" else "false")]
    case Int(i) => [Leaf("int", Text.ShowInt(i))]
    case Double(t) => [Leaf("double", t)]
    case DateTime(s) => [Leaf("dateTime.iso8601", FormatTimestamp(s))]
    case Date(d) => [Leaf("dateTime.iso8601", FormatDate(d))]
    case Base64(e) => [Leaf("base64", Base64.Shown(e))]
    case Array(items) => [Elem("array", [Elem("data", ItemNodes(items))])]
    case Struct(ms) => [Elem("struct", MemberNodes(ms))]
    case Str(s) => [Leaf("string", s)]
  }

  /** A `<value>` around each item that is not `nil`; `nil` items are dropped. */
  function ItemNodes(items: seq<Value>): seq<Node>
    decreases items
  {
    if items == [] then []
    else (if items[0] == Nil then [] else [Elem("value", ValueNodes(items[0]))]) + ItemNodes(items[1..])
  }

  /** A `<member>` for each member whose value is not `nil`; the others are dropped. */
  function MemberNodes(ms: seq<Member>): seq<Node>
    decreases ms
  {
    if ms == [] then []
    else
      (if ms[0].value == Nil then [] else [MemberNode(ms[0].name, ms[0].value)]) + MemberNodes(ms[1..])
  }

  function MemberNode(name: string, v: Value): Node
    decreases v, 1
  {
    Elem("member", [Leaf("name", name), Elem("value", ValueNodes(v))])
  }

  /** `builder.value { build_value(builder, v) }`: a `<value>` wrapping `v`. */
  function Wrapped(v: Value): Node {
    Elem("value", ValueNodes(v))
  }

  lemma {:induction false} ItemNodesAppend(a: seq<Value>, b: seq<Value>)
    ensures ItemNodes(a + b) == ItemNodes(a) + ItemNodes(b)
  {
    if a == [] {
      assert a + b == b;
    } else {
      var head := if a[0] == Nil then [] else [Elem("value", ValueNodes(a[0]))];
      assert (a + b)[0] == a[0];
      assert (a + b)[1..] == a[1..] + b;
      assert ItemNodes(a + b) == head + ItemNodes(a[1..] + b);
      assert ItemNodes(a) == head + ItemNodes(a[1..]);
      ItemNodesAppend(a[1..], b);
      NodesAssoc(head, ItemNodes(a[1..]), ItemNodes(b));
    }
  }

  lemma {:induction false} MemberNodesAppend(a: seq<Member>, b: seq<Member>)
    ensures MemberNodes(a + b) == MemberNodes(a) + MemberNodes(b)
  {
    if a == [] {
      assert a + b == b;
    } else {
      var head := if a[0].value == Nil then [] else [MemberNode(a[0].name, a[0].value)];
      assert (a + b)[0] == a[0];
      assert (a + b)[1..] == a[1..] + b;
      assert MemberNodes(a + b) == head + MemberNodes(a[1..] + b);
      assert MemberNodes(a) == head + MemberNodes(a[1..]);
      MemberNodesAppend(a[1..], b);
      NodesAssoc(head, MemberNodes(a[1..]), MemberNodes(b));
    }
  }

  lemma NodesAssoc(x: seq<Node>, y: seq<Node>, z: seq<Node>)
    ensures x + (y + z) == x + y + z
  {
  }

  /** `Message.build_value(builder, param)`: appends to the builder's text the
      element `ValueNodes` gives for `v`, walking arrays and structs item by
      item and skipping `nil` items and members. */
  method BuildValue(b: Markup, v: Value)
    modifies b
    decreases v, 0
    ensures b.target == old(b.target) + RenderAll(ValueNodes(v))
  {
    if !(v.Nil? || v.Array? || v.Struct?) {
      RenderSingle(ValueNodes(v)[0]);
    }
    match v
    case Nil =>
    case Bool(flag) => b.Tag("boolean", if flag then "true" else "false");
    case Int(i) => b.Tag("int", Text.ShowInt(i));
    case Double(t) => b.Tag("double", t);
    case DateTime(s) => b.Tag("dateTime.iso8601", FormatTimestamp(s));
    case Date(d) => b.Tag("dateTime.iso8601", FormatDate(d));
    case Base64(e) => b.Tag("base64", Base64.Shown(e));
    case Array(items) => BuildArray(b, items);
    case Struct(ms) => BuildStruct(b, ms);
    case Str(s) => b.Tag("string", s);
  }

  /** `builder.array { builder.data { ... } }` */
  method BuildArray(b: Markup, items: seq<Value>)
    modifies b
    decreases items
    ensures b.target == old(b.target) + RenderAll(ValueNodes(Array(items)))
  {
    ArrayText(items);
    AppendFive(b.target, OpenTag("array"), OpenTag("data"), RenderAll(ItemNodes(items)), CloseTag("data"), CloseTag("array"));
    b.Open("array");
    b.Open("data");
    ghost var prefix := b.target;
    var i := 0;
    while i < |items|
      invariant 0 <= i <= |items|
      invariant b.target == prefix + RenderAll(ItemNodes(items[..i]))
    {
      BuildItem(b, items[i]);
      RenderItem(items[..i], items[i]);
      assert items[..i + 1] == items[..i] + [items[i]];
      Assoc(prefix, RenderAll(ItemNodes(items[..i])), RenderAll(ItemNodes([items[i]])));
      i := i + 1;
    }
    assert items[..i] == items;
    b.Close("data");
    b.Close("array");
  }

  /** One array item: `builder.value { build_value(builder, item) } unless item.nil?` */
  method BuildItem(b: Markup, x: Value)
    modifies b
    decreases x, 1
    ensures b.target == old(b.target) + RenderAll(ItemNodes([x]))
  {
    if x != Nil {
      ItemText(x);
      AppendThree(b.target, OpenTag("value"), RenderAll(ValueNodes(x)), CloseTag("value"));
      b.Open("value");
      BuildValue(b, x);
      b.Close("value");
    } else {
      ItemNodesSingle(x);
    }
  }

  /** `builder.struct { ... }` */
  method BuildStruct(b: Markup, ms: seq<Member>)
    modifies b
    decreases ms
    ensures b.target == old(b.target) + RenderAll(ValueNodes(Struct(ms)))
  {
    StructText(ms);
    AppendThree(b.target, OpenTag("struct"), RenderAll(MemberNodes(ms)), CloseTag("struct"));
    b.Open("struct");
    ghost var prefix := b.target;
    var i := 0;
    while i < |ms|
      invariant 0 <= i <= |ms|
      invariant b.target == prefix + RenderAll(MemberNodes(ms[..i]))
    {
      BuildMember(b, ms[i]);
      RenderMember(ms[..i], ms[i]);
      assert ms[..i + 1] == ms[..i] + [ms[i]];
      Assoc(prefix, RenderAll(MemberNodes(ms[..i])), RenderAll(MemberNodes([ms[i]])));
      i := i + 1;
    }
    assert ms[..i] == ms;
    b.Close("struct");
  }

  /** One struct member: `builder.member { ... } unless value.nil?` */
  method BuildMember(b: Markup, m: Member)
    modifies b
    decreases m.value, 1
    ensures b.target == old(b.target) + RenderAll(MemberNodes([m]))
  {
    if m.value != Nil {
      MemberText(m);
      AppendSix(b.target, OpenTag("member"), Render(Leaf("name", m.name)), OpenTag("value"),
        RenderAll(ValueNodes(m.value)), CloseTag("value"), CloseTag("member"));
      b.Open("member");
      b.Tag("name", m.name);
      b.Open("value");
      BuildValue(b, m.value);
      b.Close("value");
      b.Close("member");
    } else {
      MemberNodesSingle(m);
    }
  }







  lemma ItemNodesSingle(x: Value)
    ensures ItemNodes([x]) == if x == Nil then [] else [Elem("value", ValueNodes(x))]
  {
    assert [x][1..] == [];
  }

  /** The text of an array: its items inside `<array><data>`. */
  lemma ArrayText(items: seq<Value>)
    ensures OpenTag("array") + OpenTag("data") + RenderAll(ItemNodes(items)) + CloseTag("data") + CloseTag("array")
      == RenderAll(ValueNodes(Array(items)))
  {
    var data := Elem("data", ItemNodes(items));
    var inner := OpenTag("data") + RenderAll(ItemNodes(items)) + CloseTag("data");
    RenderElem("data", ItemNodes(items));
    RenderSingle(data);
    assert RenderAll([data]) == inner;
    RenderElem("array", [data]);
    RenderSingle(Elem("array", [data]));
    assert RenderAll(ValueNodes(Array(items))) == OpenTag("array") + inner + CloseTag("array");
    Nested(OpenTag("array"), OpenTag("data"), RenderAll(ItemNodes(items)), CloseTag("data"), CloseTag("array"));
  }

  /** The text of a struct: its members inside `<struct>`. */
  lemma StructText(ms: seq<Member>)
    ensures OpenTag("struct") + RenderAll(MemberNodes(ms)) + CloseTag("struct") == RenderAll(ValueNodes(Struct(ms)))
  {
    RenderElem("struct", MemberNodes(ms));
    RenderSingle(Elem("struct", MemberNodes(ms)));
  }

  /** The text of an item that is not `nil`, written tag by tag. */
  lemma ItemText(x: Value)
    requires x != Nil
    ensures OpenTag("value") + RenderAll(ValueNodes(x)) + CloseTag("value") == RenderAll(ItemNodes([x]))
  {
    ItemNodesSingle(x);
    RenderElem("value", ValueNodes(x));
    RenderSingle(Elem("value", ValueNodes(x)));
  }

  /** The text of one more array item. */
  lemma RenderItem(done: seq<Value>, x: Value)
    ensures RenderAll(ItemNodes(done + [x])) == RenderAll(ItemNodes(done)) + RenderAll(ItemNodes([x]))
  {
    ItemNodesAppend(done, [x]);
    RenderAllAppend(ItemNodes(done), ItemNodes([x]));
  }

  /** The text of one more struct member. */
  lemma RenderMember(done: seq<Member>, m: Member)
    ensures RenderAll(MemberNodes(done + [m])) == RenderAll(MemberNodes(done)) + RenderAll(MemberNodes([m]))
  {
    MemberNodesAppend(done, [m]);
    RenderAllAppend(MemberNodes(done), MemberNodes([m]));
  }

  lemma MemberNodesSingle(m: Member)
    ensures MemberNodes([m]) == if m.value == Nil then [] else [MemberNode(m.name, m.value)]
  {
    assert [m][1..] == [];
  }

  /** The text of a member that is not `nil`: its name element, then its value
      element, inside `<member>`. */
  lemma MemberText(m: Member)
    requires m.value != Nil
    ensures OpenTag("member") + Render(Leaf("name", m.name)) + OpenTag("value")
      + RenderAll(ValueNodes(m.value)) + CloseTag("value") + CloseTag("member") == RenderAll(MemberNodes([m]))
  {
    MemberNodesSingle(m);
    var body := ValueNodes(m.value);
    var valueElem := Elem("value", body);
    var kids := [Leaf("name", m.name), valueElem];
    var inner := OpenTag("value") + RenderAll(body) + CloseTag("value");
    assert kids[1..] == [valueElem];
    RenderElem("value", body);
    RenderSingle(valueElem);
    assert RenderAll(kids) == Render(kids[0]) + inner;
    RenderElem("member", kids);
    RenderSingle(MemberNode(m.name, m.value));
    assert RenderAll(MemberNodes([m])) == OpenTag("member") + (Render(kids[0]) + inner) + CloseTag("member");
    NestedTwice(OpenTag("member"), Render(kids[0]), OpenTag("value"), RenderAll(body), CloseTag("value"), CloseTag("member"));
  }

  // ---------------------------------------------------------------------
  // Reading back what was written

  /** What a value reads back as after `build_value` and `parse_value`: an
      empty string or base64 text leaves no text node and reads as `nil`, an
      empty double reads as `0.0`, a `Date` reads as the `DateTime` at
      midnight UTC of that day, a base64 wrapper keeps only its shown text,
      and `nil` items and members are gone. */
  function Normalize(v: Value): Value
    decreases v, 0
  {
    match v
    case Str(s) => if s == "" then Nil else v
    case Double(t) => if t == "" then Double("0.0") else v
    case Date(d) => DateTime(Timestamp(d, Midnight, 0))
    case Base64(e) =>
      var shown := Base64.Shown(e);
      Base64(if shown == "" then None else Some(shown))
    case Array(items) => Array(NormalizeItems(items))
    case Struct(ms) => Struct(NormalizeMembers(ms))
    case _ => v
  }

  function NormalizeItems(items: seq<Value>): seq<Value>
    decreases items
  {
    if items == [] then []
    else (if items[0] == Nil then [] else [Normalize(items[0])]) + NormalizeItems(items[1..])
  }

  function NormalizeMembers(ms: seq<Member>): seq<Member>
    decreases ms
  {
    if ms == [] then []
    else
      (if ms[0].value == Nil then [] else [Member(ms[0].name, Normalize(ms[0].value))])
      + NormalizeMembers(ms[1..])
  }

  /** The values Ruby can hold: real calendar days and times, and hashes
      without repeated keys. */
  predicate ValidValue(v: Value)
    decreases v, 0
  {
    match v
    case Date(d) => ValidDate(d)
    case DateTime(s) => ValidTimestamp(s)
    case Array(items) => ValidItems(items)
    case Struct(ms) => DistinctNames(ms) && ValidMembers(ms)
    case _ => true
  }

  predicate ValidItems(items: seq<Value>)
    decreases items
  {
    items == [] || (ValidValue(items[0]) && ValidItems(items[1..]))
  }

  predicate ValidMembers(ms: seq<Member>)
    decreases ms
  {
    ms == [] || (ValidValue(ms[0].value) && ValidMembers(ms[1..]))
  }

  predicate NamesDisjoint(ms: seq<Member>, acc: seq<Member>) {
    forall i, j :: 0 <= i < |ms| && 0 <= j < |acc| ==> ms[i].name != acc[j].name
  }

  /** Reading the `<value>` element written for any value gives that value
      as `Normalize` describes it. */
  lemma {:induction false} RoundTrip(v: Value)
    requires ValidValue(v)
    ensures ParseElement(Wrapped(v)) == Success(Normalize(v))
    decreases v, 1
  {
    match v
    case Array(items) =>
      ItemsRoundTrip(items);
      ArrayRoundTrip(items);
    case Struct(ms) =>
      MembersRoundTrip(ms, []);
      ParseStructTag(Wrapped(v));
      assert [] + NormalizeMembers(ms) == NormalizeMembers(ms);
    case Int(i) =>
      IntRoundTrip(i);
    case Date(d) =>
      DateRoundTrip(d);
    case DateTime(s) =>
      DateTimeRoundTrip(s);
    case _ =>
      TextRoundTrip(v);
  }

  lemma IntRoundTrip(i: int)
    ensures ParseElement(Wrapped(Int(i))) == Success(Normalize(Int(i)))
  {
    Text.ToIShowInt(i);
  }

  lemma DateRoundTrip(d: CalendarDate)
    requires ValidDate(d)
    ensures ParseElement(Wrapped(Date(d))) == Success(Normalize(Date(d)))
  {
    var n := Wrapped(Date(d));
    ParseFormattedDate(d);
    assert TextOf(n.children[0]) == Some(FormatDate(d));
    ParseDateTag(n);
    ParseFormatDate(d);
  }

  lemma DateTimeRoundTrip(s: Timestamp)
    requires ValidTimestamp(s)
    ensures ParseElement(Wrapped(DateTime(s))) == Success(Normalize(DateTime(s)))
  {
    var n := Wrapped(DateTime(s));
    ParseFormattedDate(s.date);
    assert FormatTimestamp(s)[..10] == FormatDate(s.date);
    assert TextOf(n.children[0]) == Some(FormatTimestamp(s));
    ParseDateTag(n);
    ParseFormatTimestamp(s);
  }

  /** The values written as one element holding text, other than numbers and dates. */
  lemma TextRoundTrip(v: Value)
    requires v.Nil? || v.Str? || v.Bool? || v.Double? || v.Base64?
    ensures ParseElement(Wrapped(v)) == Success(Normalize(v))
  {
  }

  /** An array reads back as its items do. */
  lemma ArrayRoundTrip(items: seq<Value>)
    requires ParseValues(ItemNodes(items)) == Success(NormalizeItems(items))
    ensures ParseElement(Wrapped(Array(items))) == Success(Normalize(Array(items)))
  {
    var data := Elem("data", ItemNodes(items));
    var n := Wrapped(Array(items));
    assert n.children[0] == Elem("array", [data]);
    ParseArrayTag(n);
    ParseDataOne(data);
    assert NormalizeItems(items) + [] == NormalizeItems(items);
  }

  /** An `array` element reads as the values under its `data` children. */
  lemma ParseArrayTag(n: Node)
    requires n.children != [] && n.children[0].name == "array"
    ensures var r := ParseData(n.children[0].children);
      ParseElement(n) == if r.Success? then Success(Array(r.value)) else Failure(r.error)
  {
  }

  /** A `struct` element reads as its members stored into an empty hash. */
  lemma ParseStructTag(n: Node)
    requires n.children != [] && n.children[0].name == "struct"
    ensures var r := ParseMembers(n.children[0].children, []);
      ParseElement(n) == if r.Success? then Success(Struct(r.value)) else Failure(r.error)
  {
  }

  lemma ParseDataOne(data: Node)
    requires data.name == "data"
    ensures var r := ParseValues(data.children);
      ParseData([data]) == if r.Success? then Success(r.value + []) else Failure(r.error)
  {
    assert [data][1..] == [];
  }

  lemma {:induction false} ItemsRoundTrip(items: seq<Value>)
    requires ValidItems(items)
    ensures ParseValues(ItemNodes(items)) == Success(NormalizeItems(items))
    decreases items, 2
  {
    if items != [] {
      ItemsRoundTrip(items[1..]);
      if items[0] != Nil {
        RoundTrip(items[0]);
        var nodes := ItemNodes(items);
        assert nodes == [Wrapped(items[0])] + ItemNodes(items[1..]);
        assert nodes[0] == Wrapped(items[0]);
        assert nodes[1..] == ItemNodes(items[1..]);
      } else {
        assert ItemNodes(items) == [] + ItemNodes(items[1..]);
        assert [] + ItemNodes(items[1..]) == ItemNodes(items[1..]);
        assert [] + NormalizeItems(items[1..]) == NormalizeItems(items[1..]);
      }
    }
  }

  /** Reading the members written for `ms` into a hash `acc` that holds none
      of their names appends them, normalized, to `acc`. */
  lemma {:induction false} MembersRoundTrip(ms: seq<Member>, acc: seq<Member>)
    requires ValidMembers(ms) && DistinctNames(ms) && NamesDisjoint(ms, acc)
    ensures ParseMembers(MemberNodes(ms), acc) == Success(acc + NormalizeMembers(ms))
    decreases ms, 2
  {
    if ms == [] {
      assert acc + [] == acc;
    } else {
      var rest := ms[1..];
      assert DistinctNames(rest);
      if ms[0].value == Nil {
        SkipNilMember(ms);
        assert NamesDisjoint(rest, acc);
        MembersRoundTrip(rest, acc);
      } else {
        var m := ms[0];
        RoundTrip(m.value);
        var acc' := acc + [Member(m.name, Normalize(m.value))];
        MemberStep(m.name, m.value, MemberNodes(rest), acc);
        FreshKeyPut(ms, acc);
        MembersDisjointStep(ms, acc);
        MembersRoundTrip(rest, acc');
        KeepMember(ms, acc);
      }
    }
  }

  /** A `nil` member writes nothing and normalizes to nothing. */
  lemma SkipNilMember(ms: seq<Member>)
    requires ms != [] && ms[0].value == Nil
    ensures MemberNodes(ms) == MemberNodes(ms[1..])
    ensures NormalizeMembers(ms) == NormalizeMembers(ms[1..])
  {
    assert MemberNodes(ms) == [] + MemberNodes(ms[1..]);
    assert NormalizeMembers(ms) == [] + NormalizeMembers(ms[1..]);
  }

  /** One `<member>` read: its value element is parsed and put under its name. */
  lemma MemberStep(name: string, v: Value, tail: seq<Node>, acc: seq<Member>)
    requires ParseElement(Wrapped(v)).Success?
    ensures ParseMembers([MemberNode(name, v)] + tail, acc)
      == ParseMembers(tail, Put(acc, name, ParseElement(Wrapped(v)).value))
  {
    var nodes := [MemberNode(name, v)] + tail;
    var node := MemberNode(name, v);
    assert nodes[0] == node && nodes[1..] == tail;
    assert FirstNamed(node.children, "name") == Some(0);
    assert node.children[1].name == "value";
    assert FirstNamed(node.children, "value") == Some(1);
  }

  /** The first member's name is not yet in `acc`, so `Put` appends it; and
      the member is written as one `<member>` element. */
  lemma FreshKeyPut(ms: seq<Member>, acc: seq<Member>)
    requires ms != [] && ms[0].value != Nil && NamesDisjoint(ms, acc)
    ensures MemberNodes(ms) == [MemberNode(ms[0].name, ms[0].value)] + MemberNodes(ms[1..])
    ensures Put(acc, ms[0].name, Normalize(ms[0].value)) == acc + [Member(ms[0].name, Normalize(ms[0].value))]
  {
    assert IndexOfKey(acc, ms[0].name).None?;
  }

  lemma MembersDisjointStep(ms: seq<Member>, acc: seq<Member>)
    requires ms != [] && DistinctNames(ms) && NamesDisjoint(ms, acc)
    ensures NamesDisjoint(ms[1..], acc + [Member(ms[0].name, Normalize(ms[0].value))])
  {
    var rest := ms[1..];
    var acc' := acc + [Member(ms[0].name, Normalize(ms[0].value))];
    forall i, j | 0 <= i < |rest| && 0 <= j < |acc'|
      ensures rest[i].name != acc'[j].name
    {
      if j < |acc| {
        assert rest[i] == ms[i + 1];
      } else {
        assert rest[i].name == ms[i + 1].name;
      }
    }
  }

  lemma KeepMember(ms: seq<Member>, acc: seq<Member>)
    requires ms != [] && ms[0].value != Nil
    ensures acc + [Member(ms[0].name, Normalize(ms[0].value))] + NormalizeMembers(ms[1..])
      == acc + NormalizeMembers(ms)
  {
    assert NormalizeMembers(ms) == [Member(ms[0].name, Normalize(ms[0].value))] + NormalizeMembers(ms[1..]);
  }

  /** A value is read back unchanged when it holds no empty string, empty
      double, `Date`, `nil` item or member, and only base64 text that
      `chomp` leaves alone. */
  predicate Plain(v: Value)
    decreases v, 0
  {
    match v
    case Str(s) => s != ""
    case Double(t) => t != ""
    case Date(_) => false
    case Base64(e) => e.Some? && e.value != "" && Text.Chomp(e.value) == e.value
    case Array(items) => PlainItems(items)
    case Struct(ms) => PlainMembers(ms)
    case _ => true
  }

  predicate PlainItems(items: seq<Value>)
    decreases items
  {
    items == [] || (items[0] != Nil && Plain(items[0]) && PlainItems(items[1..]))
  }

  predicate PlainMembers(ms: seq<Member>)
    decreases ms
  {
    ms == [] || (ms[0].value != Nil && Plain(ms[0].value) && PlainMembers(ms[1..]))
  }

  lemma {:induction false} NormalizePlain(v: Value)
    requires Plain(v)
    ensures Normalize(v) == v
    decreases v, 1
  {
    match v
    case Array(items) => NormalizePlainItems(items);
    case Struct(ms) => NormalizePlainMembers(ms);
    case _ =>
  }

  lemma {:induction false} NormalizePlainItems(items: seq<Value>)
    requires PlainItems(items)
    ensures NormalizeItems(items) == items
    decreases items, 2
  {
    if items != [] {
      NormalizePlain(items[0]);
      NormalizePlainItems(items[1..]);
      assert items == [items[0]] + items[1..];
    }
  }

  lemma {:induction false} NormalizePlainMembers(ms: seq<Member>)
    requires PlainMembers(ms)
    ensures NormalizeMembers(ms) == ms
    decreases ms, 2
  {
    if ms != [] {
      NormalizePlain(ms[0].value);
      NormalizePlainMembers(ms[1..]);
      assert ms == [ms[0]] + ms[1..];
    }
  }

  /** `parse_value` of the `<value>` written for a value without empty
      strings, dates or `nil` entries, with real times and distinct keys,
      returns that value exactly. */
  lemma ExactRoundTrip(v: Value)
    requires ValidValue(v) && Plain(v)
    ensures ParseValue(Some(Wrapped(v))) == Success(v)
  {
    RoundTrip(v);
    NormalizePlain(v);
  }

  // ---------------------------------------------------------------------
  // The tag rules of parse_value

  /** Only the first child element decides: `i4` and `int` read the same
      integer, `boolean` is true exactly for the texts `1` and `true`, and
      any tag outside the nine known ones is a ValueError naming it. */
  lemma ParseTags(n: Node)
    requires n.children != []
    ensures var c := n.children[0];
      (c.name == "i4" || c.name == "int") ==> ParseElement(n) == Success(Int(Text.ToI(TextOf(c))))
    ensures var c := n.children[0];
      c.name == "i4" ==> ParseTyped(c) == ParseTyped(c.(name := "int"))
    ensures var c := n.children[0];
      c.name == "boolean" ==> (ParseElement(n) == Success(Bool(true)) <==> c.text == "1" || c.text == "true")
    ensures var c := n.children[0];
      c.name !in KnownTags ==> ParseElement(n) == Failure(ValueError("Unknown data type in value: " + c.name))
    ensures var c := n.children[0];
      c.name in KnownTags - {"dateTime.iso8601", "array", "struct"} ==> ParseElement(n).Success?
  {
  }

  /** A `dateTime.iso8601` element reads as `DateTime.parse` of its text,
      and fails as that does. */
  lemma ParseDateTag(n: Node)
    requires n.children != [] && n.children[0].name == "dateTime.iso8601"
    ensures var r := ParseTimestamp(TextOf(n.children[0]));
      ParseElement(n) == if r.Success? then Success(DateTime(r.value)) else Failure(r.error)
  {
  }

  const KnownTags: set<string> :=
    {"string", "i4", "int", "boolean", "double", "dateTime.iso8601", "base64", "array", "struct"}

  /** An element without child elements is a string, or `nil` without text. */
  lemma ParseUntyped(n: Node)
    requires n.children == []
    ensures ParseElement(n) == (if n.text == "" then Success(Nil) else Success(Str(n.text)))
  {
  }

  /** The items of an array are its `data/value` elements in document order:
      the values under one `<data>` come before those under the next. */
  lemma {:induction false} ParseDataAppend(a: seq<Node>, b: seq<Node>)
    requires ParseData(a).Success? && ParseData(b).Success?
    ensures ParseData(a + b) == Success(ParseData(a).value + ParseData(b).value)
  {
    if a == [] {
      assert a + b == b;
      assert [] + ParseData(b).value == ParseData(b).value;
    } else {
      assert (a + b)[1..] == a[1..] + b;
      assert (a + b)[0] == a[0];
      ParseDataAppend(a[1..], b);
      if a[0].name == "data" {
        var first := ParseValues(a[0].children).value;
        assert first + (ParseData(a[1..]).value + ParseData(b).value)
          == first + ParseData(a[1..]).value + ParseData(b).value;
      }
    }
  }

  /** Reading one more `<member>` after a struct's members stores it into the
      hash they built, with `hash[key] = value`: by `PutLookup`, a name seen
      before keeps its place and takes the new value, and a new name goes
      last. */
  lemma ParseRepeatedKey(ms: seq<Node>, acc: seq<Member>, name: string, v: Value)
    requires ParseMembers(ms, acc).Success?
    requires ValidValue(v) && v != Nil
    ensures ParseMembers(ms + [MemberNode(name, v)], acc)
      == Success(Put(ParseMembers(ms, acc).value, name, Normalize(v)))
  {
    ParseMembersSnoc(ms, MemberNode(name, v), acc);
    RoundTrip(v);
    MemberStep(name, v, [], ParseMembers(ms, acc).value);
    assert [MemberNode(name, v)] + [] == [MemberNode(name, v)];
  }

  /** A member whose name the struct already holds overwrites that entry in
      place: the names keep their order and the name reads the new value. */
  lemma RepeatedKeyKeepsPlace(ms: seq<Node>, acc: seq<Member>, name: string, v: Value)
    requires ParseMembers(ms, acc).Success? && DistinctNames(ParseMembers(ms, acc).value)
    requires Lookup(ParseMembers(ms, acc).value, name).Some?
    requires ValidValue(v) && v != Nil
    ensures var p := ParseMembers(ms, acc).value;
      var r := ParseMembers(ms + [MemberNode(name, v)], acc);
      r.Success? && |r.value| == |p|
      && (forall i :: 0 <= i < |p| ==> r.value[i].name == p[i].name)
      && Lookup(r.value, name) == Some(Normalize(v))
  {
    var p := ParseMembers(ms, acc).value;
    ParseRepeatedKey(ms, acc, name, v);
    PutLookup(p, name, Normalize(v), name);
  }

  /** The members are read one after the other: the hash built from `ms`
      is where the next member is stored. */
  lemma {:induction false} ParseMembersSnoc(ms: seq<Node>, m: Node, acc: seq<Member>)
    requires ParseMembers(ms, acc).Success?
    ensures ParseMembers(ms + [m], acc) == ParseMembers([m], ParseMembers(ms, acc).value)
    decreases ms
  {
    if ms == [] {
      assert ms + [m] == [m];
    } else {
      assert (ms + [m])[0] == ms[0];
      assert (ms + [m])[1..] == ms[1..] + [m];
      if ms[0].name != "member" {
        ParseMembersSnoc(ms[1..], m, acc);
      } else {
        var k := FirstNamed(ms[0].children, "name").value;
        var v := match FirstNamed(ms[0].children, "value")
          case None => Success(Nil)
          case Some(j) => ParseElement(ms[0].children[j]);
        ParseMembersSnoc(ms[1..], m, Put(acc, ms[0].children[k].text, v.value));
      }
    }
  }

  // ---------------------------------------------------------------------
  // blank? and string interpolation

  /** ActiveSupport's `blank?`: `nil`, `false`, a whitespace-only string and
      an empty array or hash are blank; numbers, `true`, dates and base64
      wrappers are not. */
  predicate Blank(v: Value) {
    match v
    case Nil => true
    case Str(s) => Text.BlankText(s)
    case Bool(b) => !b
    case Array(items) => items == []
    case Struct(ms) => ms == []
    case _ => false
  }

  /** `"#{v}"` for the scalar values: `nil` shows as nothing, numbers in
      decimal, a base64 wrapper as its `to_s`, a date as `YYYY-MM-DD`, a
      date-time with its offset. */
  function Display(v: Value): string {
    match v
    case Nil => ""
    case Str(s) => s
    case Int(i) => Text.ShowInt(i)
    case Bool(b) => if b then "true" else "false"
    case Double(t) => t
    case Date(d) => FormatDate(d)
    case DateTime(s) => ShowTimestamp(s)
    case Base64(e) => Base64.Shown(e)
    case Array(_) => ""
    case Struct(_) => ""
  }

  /** A value is blank exactly when it reads back blank, except that an array
      or hash that held only `nil` becomes empty and so blank. */
  lemma BlankNormalize(v: Value)
    requires !v.Array? && !v.Struct? && !v.Base64?
    ensures Blank(Normalize(v)) == Blank(v)
  {
  }

  // ---------------------------------------------------------------------
  // Base64 values in a message

  /** A base64 wrapper made from `d` and written into a message reads back
      as a wrapper that decodes to what the original decodes to: `d` less a
      trailing line terminator. Empty data leaves no text and reads back as a
      wrapper that decodes to `nil`. */
  lemma Base64RoundTrip(d: seq<Base64.byte>)
    ensures var r := ParseElement(Wrapped(Base64(Some(Base64.Encode64(d)))));
      r.Success? && r.value.Base64?
      && (d == [] ==> Base64.Decoded(r.value.encoded) == None)
      && (d != [] ==> Base64.Decoded(r.value.encoded) == Some(Base64.ChompBytes(d)))
  {
    var e := Some(Base64.Encode64(d));
    RoundTrip(Base64(e));
    Base64.ChompEncode64(d);
    Base64.DecodedOfEncoded(d);
    if d != [] {
      Base64.DecodedOfShown(e);
    }
  }

  // ---------------------------------------------------------------------
  // The examples of the message specification

  lemma ParseExamples()
    ensures ParseElement(Leaf("param", "value")) == Success(Str("value"))
    ensures ParseElement(Elem("param", [Leaf("boolean", "true")])) == Success(Bool(true))
    ensures ParseElement(Elem("param", [Leaf("double", "1.1")])) == Success(Double("1.1"))
  {
  }

  lemma ParseIntExamples(tag: string, text: string)
    requires tag == "int" || tag == "i4"
    requires text == "1"
    ensures ParseElement(Elem("param", [Leaf(tag, text)])) == Success(Int(1))
  {
    var n := Elem("param", [Leaf(tag, text)]);
    ParseTags(n);
    assert TextOf(n.children[0]) == Some(text);
    ToIOne();
  }

  lemma ToIOne()
    ensures Text.ToI(Some("1")) == 1
  {
    assert Text.ShowInt(1) == "1";
    Text.ToIShowInt(1);
  }

  /** The scalar types are written as one element holding their text: a
      string as itself, a boolean as lower-case `true` or `false`, an integer
      in decimal, e.g. `<boolean>true</boolean>` and `<int>1</int>`. */
  lemma ScalarText(v: Value)
    requires v.Str? || v.Bool? || v.Int?
    ensures v.Str? ==>
      RenderAll(ValueNodes(v)) == OpenTag("string") + v.text + CloseTag("string")
    ensures v.Bool? ==>
      RenderAll(ValueNodes(v)) == OpenTag("boolean") + (if v.flag then "true" else "false") + CloseTag("boolean")
    ensures v.Int? ==>
      RenderAll(ValueNodes(v)) == OpenTag("int") + Text.ShowInt(v.number) + CloseTag("int")
  {
    var c := ValueNodes(v)[0];
    assert ValueNodes(v) == [Leaf(c.name, c.text)];
    RenderLeaf(c.name, c.text);
  }

  /** `build_value` of a base64 wrapper writes exactly the wrapper's `to_s`
      inside `<base64>`: `<value><base64>TEXT</base64></value>`. */
  lemma Base64Written(w: Base64.Base64Value)
    ensures Render(Wrapped(Base64(w.encodedValue)))
      == OpenTag("value") + OpenTag("base64") + w.ToS() + CloseTag("base64") + CloseTag("value")
  {
    var leaf := Leaf("base64", Base64.Shown(w.encodedValue));
    assert ValueNodes(Base64(w.encodedValue)) == [leaf];
    RenderElem("value", [leaf]);
    RenderLeaf("base64", leaf.text);
    Nested(OpenTag("value"), OpenTag("base64"), leaf.text, CloseTag("base64"), CloseTag("value"));
  }

  /** `1` is written as `<int>1</int>`. */
  lemma BuildIntExample(i: int)
    requires i == 1
    ensures RenderAll(ValueNodes(Int(i))) == OpenTag("int") + "1" + CloseTag("int")
  {
    ScalarText(Int(i));
    assert Text.ShowInt(i) == "1";
  }

  /** `DateTime.parse` fills in what the text leaves out: a time without
      seconds or zone is that minute, 0 seconds, UTC. */
  lemma ParseDateExample(t: string)
    requires t == "2001-01-01T13:01"
    ensures ParseElement(Elem("param", [Leaf("dateTime.iso8601", t)]))
      == Success(DateTime(Timestamp(CalendarDate(2001, 1, 1), ClockTime(13, 1, 0), 0)))
  {
    var n := Elem("param", [Leaf("dateTime.iso8601", t)]);
    ParseDateTag(n);
    assert TextOf(n.children[0]) == Some(t);
    TimestampExample(t);
  }

  lemma TimestampExample(t: string)
    requires t == "2001-01-01T13:01"
    ensures ParseTimestamp(Some(t)) == Success(Timestamp(CalendarDate(2001, 1, 1), ClockTime(13, 1, 0), 0))
  {
    var day := CalendarDate(2001, 1, 1);
    DateExampleText(t);
    ParseFormattedDate(day);
    ParseShortClock(13, 1);
    assert t[10..][1..] == t[11..];
    assert ParseZone("") == Some(0);
  }

  lemma DateExampleText(t: string)
    requires t == "2001-01-01T13:01"
    ensures |t| == 16 && t[10] == 'T'
    ensures t[..10] == FormatDate(CalendarDate(2001, 1, 1))
    ensures t[11..] == Two(13) + ":" + Two(1)
  {
    assert Four(2001) == "2001";
    assert Two(1) == "01";
    assert Two(13) == "13";
    assert t[..10] == "2001" + "-" + "01" + "-" + "01";
    assert t[11..] == "13" + ":" + "01";
  }
}
