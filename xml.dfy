/** The XML that the XML-RPC layer reads and writes, as a tree of elements
    without attributes, together with its indent-0 text form and the
    `Builder::XmlMarkup` object that writes that text tag by tag. */
module Xml {
  import opened Wrappers

  /** An element: its tag name, its text, and its child elements in document
      order. The empty text stands for an element without a text node, which
      REXML reports as `nil`. */
  datatype Node = Node(name: string, text: string, children: seq<Node>)

  function Leaf(name: string, text: string): Node { Node(name, text, []) }

  function Elem(name: string, children: seq<Node>): Node { Node(name, "", children) }

  /** REXML's `Element#text`. */
  function TextOf(n: Node): Option<string> {
    if n.text == "" then None else Some(n.text)
  }

  /** The text `Builder::XmlMarkup.new(:indent => 0)` writes for an element: no
      whitespace between tags, and `<n></n>` for an element with neither text
      nor children. */
  function Render(n: Node): string
    decreases n
  {
    OpenTag(n.name) + n.text + RenderAll(n.children) + CloseTag(n.name)
  }

  function OpenTag(name: string): string { "<" + name + ">" }

  function CloseTag(name: string): string { "</" + name + ">" }

  function RenderAll(ns: seq<Node>): string
    decreases ns
  {
    if ns == [] then "" else Render(ns[0]) + RenderAll(ns[1..])
  }

  lemma {:induction false} RenderAllAppend(a: seq<Node>, b: seq<Node>)
    ensures RenderAll(a + b) == RenderAll(a) + RenderAll(b)
  {
    if a == [] {
      assert a + b == b;
    } else {
      assert (a + b)[1..] == a[1..] + b;
      RenderAllAppend(a[1..], b);
    }
  }

  lemma RenderSingle(n: Node)
    ensures RenderAll([n]) == Render(n)
  {
    assert [n][1..] == [];
  }

  /** An element without text is its children between its two tags. */
  /** An element with text and no children, as the only node written. */
  lemma RenderLeaf(name: string, text: string)
    ensures RenderAll([Leaf(name, text)]) == OpenTag(name) + text + CloseTag(name)
  {
    RenderSingle(Leaf(name, text));
    assert OpenTag(name) + text + "" == OpenTag(name) + text;
  }

  lemma RenderElem(name: string, kids: seq<Node>)
    ensures Render(Elem(name, kids)) == OpenTag(name) + RenderAll(kids) + CloseTag(name)
  {
    assert OpenTag(name) + "" == OpenTag(name);
  }

  // Regrouping text appended piece by piece.

  lemma Assoc(a: string, b: string, c: string)
    ensures a + b + c == a + (b + c)
  {
  }

  lemma AppendThree(t: string, a: string, b: string, c: string)
    ensures t + a + b + c == t + (a + b + c)
  {
  }

  lemma Nested(a: string, b: string, c: string, d: string, e: string)
    ensures a + (b + c + d) + e == a + b + c + d + e
  {
  }

  lemma NestedTwice(a: string, l: string, b: string, c: string, d: string, e: string)
    ensures a + (l + (b + c + d)) + e == a + l + b + c + d + e
  {
  }

  lemma AppendFive(t: string, a: string, b: string, c: string, d: string, e: string)
    ensures t + a + b + c + d + e == t + (a + b + c + d + e)
  {
  }

  lemma AppendSix(t: string, a: string, b: string, c: string, d: string, e: string, f: string)
    ensures t + a + b + c + d + e + f == t + (a + b + c + d + e + f)
  {
  }

  /** Position of the first node called `name`. */
  function FirstNamed(ns: seq<Node>, name: string): (r: Option<nat>)
    ensures r.Some? ==> r.value < |ns| && ns[r.value].name == name
    ensures r.Some? ==> forall j :: 0 <= j < r.value ==> ns[j].name != name
    ensures r.None? ==> forall j :: 0 <= j < |ns| ==> ns[j].name != name
  {
    if ns == [] then None
    else if ns[0].name == name then Some(0)
    else match FirstNamed(ns[1..], name)
      case None => None
      case Some(k) => Some(k + 1)
  }

  /** REXML's `element.elements[name]`: the first child element with that tag. */
  function Child(n: Node, name: string): Option<Node> {
    match FirstNamed(n.children, name)
    case None => None
    case Some(k) => Some(n.children[k])
  }

  /** The nodes of `ns` called `name`, in order. */
  function Named(ns: seq<Node>, name: string): (r: seq<Node>)
    ensures forall i :: 0 <= i < |r| ==> r[i].name == name && r[i] in ns
  {
    if ns == [] then []
    else (if ns[0].name == name then [ns[0]] else []) + Named(ns[1..], name)
  }

  /** One XPath step `name` from each of the context nodes `ns`: their children
      called `name`, in document order. */
  function Step(ns: seq<Node>, name: string): seq<Node> {
    if ns == [] then [] else Named(ns[0].children, name) + Step(ns[1..], name)
  }

  function First(ns: seq<Node>): Option<Node> {
    if ns == [] then None else Some(ns[0])
  }

  /** The XPath string value of an element: its own text followed by the
      string values of its children. */
  function StringValue(n: Node): string
    decreases n
  {
    n.text + StringValues(n.children)
  }

  function StringValues(ns: seq<Node>): string
    decreases ns
  {
    if ns == [] then "" else StringValue(ns[0]) + StringValues(ns[1..])
  }

  /** The XPath predicate `[name='k']`: some child called `name` has the
      string value `k`. */
  predicate HasChildValued(n: Node, name: string, k: string) {
    exists i :: 0 <= i < |n.children| && n.children[i].name == name && StringValue(n.children[i]) == k
  }

  /** The nodes of `ns` that satisfy `[name='k']`, in order. */
  function Where(ns: seq<Node>, name: string, k: string): (r: seq<Node>)
    ensures forall i :: 0 <= i < |r| ==> r[i] in ns && HasChildValued(r[i], name, k)
  {
    if ns == [] then []
    else (if HasChildValued(ns[0], name, k) then [ns[0]] else []) + Where(ns[1..], name, k)
  }

  /** A path step misses no child: every node of `ns` with the step's name
      is selected. */
  lemma {:induction false} NamedComplete(ns: seq<Node>, name: string)
    ensures forall n :: n in ns && n.name == name ==> n in Named(ns, name)
  {
    if ns != [] {
      NamedComplete(ns[1..], name);
      forall n | n in ns && n.name == name
        ensures n in Named(ns, name)
      {
        if n != ns[0] {
          assert n in ns[1..];
        }
      }
    }
  }

  /** The predicate `[name='k']` misses no node that satisfies it. */
  lemma {:induction false} WhereComplete(ns: seq<Node>, name: string, k: string)
    ensures forall n :: n in ns && HasChildValued(n, name, k) ==> n in Where(ns, name, k)
  {
    if ns != [] {
      WhereComplete(ns[1..], name, k);
      forall n | n in ns && HasChildValued(n, name, k)
        ensures n in Where(ns, name, k)
      {
        if n != ns[0] {
          assert n in ns[1..];
        }
      }
    }
  }

  /** Selecting by name keeps document order: the matches among `a` come
      before those among `b`. */
  lemma {:induction false} NamedAppend(a: seq<Node>, b: seq<Node>, name: string)
    ensures Named(a + b, name) == Named(a, name) + Named(b, name)
  {
    if a == [] {
      assert a + b == b;
    } else {
      var head := if a[0].name == name then [a[0]] else [];
      assert (a + b)[0] == a[0];
      assert (a + b)[1..] == a[1..] + b;
      NamedAppend(a[1..], b, name);
      assert Named(a + b, name) == head + (Named(a[1..], name) + Named(b, name));
      assert head + (Named(a[1..], name) + Named(b, name)) == head + Named(a[1..], name) + Named(b, name);
    }
  }

  /** A predicate `[name='k']` keeps document order the same way. */
  lemma {:induction false} WhereAppend(a: seq<Node>, b: seq<Node>, name: string, k: string)
    ensures Where(a + b, name, k) == Where(a, name, k) + Where(b, name, k)
  {
    if a == [] {
      assert a + b == b;
    } else {
      var head := if HasChildValued(a[0], name, k) then [a[0]] else [];
      assert (a + b)[0] == a[0];
      assert (a + b)[1..] == a[1..] + b;
      WhereAppend(a[1..], b, name, k);
      assert Where(a + b, name, k) == head + (Where(a[1..], name, k) + Where(b, name, k));
      assert head + (Where(a[1..], name, k) + Where(b, name, k)) == head + Where(a[1..], name, k) + Where(b, name, k);
    }
  }

  /** `Builder::XmlMarkup` with indentation 0: every call appends to the
      `target` string. */
  class Markup {
    var target: string

    constructor ()
      ensures target == ""
    {
      target := "";
    }

    /** The start tag written on entering a block (`builder.name { ... }`). */
    method Open(name: string)
      modifies this
      ensures target == old(target) + OpenTag(name)
    {
      target := target + OpenTag(name);
    }

    /** The end tag written on leaving a block. */
    method Close(name: string)
      modifies this
      ensures target == old(target) + CloseTag(name)
    {
      target := target + CloseTag(name);
    }

    /** `builder.tag!(name, text)`: an element holding only text. */
    method Tag(name: string, text: string)
      modifies this
      ensures target == old(target) + Render(Leaf(name, text))
    {
      target := target + OpenTag(name) + text + CloseTag(name);
    }
  }
}
