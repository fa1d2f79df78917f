// A node of the protocol's XML-like tree: a tag, string attributes, an
// octet payload and child nodes. Nodes are passed and stored by value, so
// they are a datatype; ProtocolTreeNode is the mutable holder the decoder
// and the connection build nodes in.
module ProtocolTree {
  import opened Bytes
  import opened OrderedKeys

  /** Attribute list: key to value; inserting an existing key replaces its value. */
  type Attributes = map<string, string>

  datatype Node = Node(tag: string, attributes: Attributes, data: bytes, children: seq<Node>, size: int)

  /** A default-constructed node: no tag, attributes, payload or children. */
  const Empty: Node := Node("", map[], [], [], 0)

  /** There is a child with this tag (the child collection's `contains`). */
  predicate HasChild(children: seq<Node>, tag: string)
  {
    exists i :: 0 <= i < |children| && children[i].tag == tag
  }

  /**
   * getChild: the child most recently added with this tag, or a default
   * node when there is none.
   */
  function GetChild(children: seq<Node>, tag: string): (r: Node)
    ensures HasChild(children, tag) ==> r in children && r.tag == tag
    ensures !HasChild(children, tag) ==> r == Empty
  {
    if |children| == 0 then Empty
    else if children[|children| - 1].tag == tag then children[|children| - 1]
    else
      assert forall i :: 0 <= i < |children| - 1 ==> children[..|children| - 1][i] == children[i];
      GetChild(children[..|children| - 1], tag)
  }

  /** No child added after the one getChild returns has the same tag. */
  lemma {:induction false} GetChildIsMostRecent(children: seq<Node>, tag: string)
    requires HasChild(children, tag)
    ensures exists i :: 0 <= i < |children| && children[i] == GetChild(children, tag)
                     && forall j :: i < j < |children| ==> children[j].tag != tag
  {
    var last := |children| - 1;
    if children[last].tag == tag {
      assert children[last] == GetChild(children, tag);
    } else {
      var init := children[..last];
      assert HasChild(init, tag) by {
        var k :| 0 <= k < |children| && children[k].tag == tag;
        assert k < last && init[k] == children[k];
      }
      assert GetChild(children, tag) == GetChild(init, tag);
      GetChildIsMostRecent(init, tag);
      var i :| 0 <= i < |init| && init[i] == GetChild(init, tag)
             && forall j :: i < j < |init| ==> init[j].tag != tag;
      assert children[i] == init[i];
      forall j | i < j < |children| ensures children[j].tag != tag {
        if j < last {
          assert init[j] == children[j];
        }
      }
    }
  }

  /** Immediately after a child is added, getChild on its tag returns it. */
  lemma GetChildAfterAdd(children: seq<Node>, child: Node)
    ensures GetChild(children + [child], child.tag) == child
  {
    assert (children + [child])[|children|] == child;
  }

  /** Adding a child with another tag does not change getChild's answer. */
  lemma GetChildAfterOtherAdd(children: seq<Node>, child: Node, tag: string)
    requires child.tag != tag
    ensures GetChild(children + [child], tag) == GetChild(children, tag)
  {
    assert (children + [child])[..|children|] == children;
  }

  // ---------------------------------------------------------------------
  // ProtocolTreeNodeListIterator: the children are a QMultiMap keyed by
  // tag, so an iteration visits the tags in ascending order and, under one
  // tag, the child added last first.
  // ---------------------------------------------------------------------

  /** The children with this tag, in the order an iteration meets them: the newest first. */
  function NewestFirst(children: seq<Node>, tag: string): (r: seq<Node>)
    ensures |r| <= |children|
    ensures forall k :: 0 <= k < |r| ==> r[k].tag == tag && r[k] in children
    ensures forall k :: 0 <= k < |children| && children[k].tag == tag ==> children[k] in r
    ensures HasChild(children, tag) ==> |r| > 0 && r[0] == GetChild(children, tag)
    ensures !HasChild(children, tag) ==> r == []
    decreases |children|
  {
    if |children| == 0 then []
    else
      var init := children[..|children| - 1];
      var last := children[|children| - 1];
      assert forall k :: 0 <= k < |init| ==> init[k] == children[k];
      assert HasChild(init, tag) ==> HasChild(children, tag);
      if last.tag == tag then [last] + NewestFirst(init, tag) else NewestFirst(init, tag)
  }

  /** The elements of xs with this tag, in the order of xs. */
  function Tagged(xs: seq<Node>, tag: string): (r: seq<Node>)
    ensures |r| <= |xs|
    ensures forall k :: 0 <= k < |r| ==> r[k].tag == tag
    decreases |xs|
  {
    if |xs| == 0 then []
    else if xs[0].tag == tag then [xs[0]] + Tagged(xs[1..], tag)
    else
      assert forall i :: 1 <= i < |xs| ==> xs[i] == xs[1..][i - 1];
      Tagged(xs[1..], tag)
  }

  /** hasChild holds exactly when the children of that tag are not none. */
  lemma {:induction false} HasChildIffTagged(xs: seq<Node>, tag: string)
    ensures HasChild(xs, tag) <==> |Tagged(xs, tag)| > 0
    decreases |xs|
  {
    if |xs| > 0 {
      HasChildIffTagged(xs[1..], tag);
      if xs[0].tag != tag {
        assert forall i :: 1 <= i < |xs| ==> xs[i] == xs[1..][i - 1];
      }
    }
  }

  /** Tags never descend along xs. */
  predicate TagsAscend(xs: seq<Node>)
  {
    forall i, j :: 0 <= i < j < |xs| ==> !Less(xs[j].tag, xs[i].tag)
  }

  /** QMultiMap::insert: a new child goes in front of every child whose tag is not smaller than its own. */
  function Place(c: Node, xs: seq<Node>): (r: seq<Node>)
    ensures multiset(r) == multiset(xs) + multiset{c}
    decreases |xs|
  {
    if |xs| == 0 || !Less(xs[0].tag, c.tag) then [c] + xs
    else
      assert xs == [xs[0]] + xs[1..];
      [xs[0]] + Place(c, xs[1..])
  }

  /** The order in which an iteration over children added in this order visits them. */
  function Iteration(children: seq<Node>): (r: seq<Node>)
    ensures multiset(r) == multiset(children)
    decreases |children|
  {
    if |children| == 0 then []
    else
      assert children == children[..|children| - 1] + [children[|children| - 1]];
      Place(children[|children| - 1], Iteration(children[..|children| - 1]))
  }

  /** Placing a child keeps the tags ascending. */
  lemma {:induction false} PlaceAscends(c: Node, xs: seq<Node>)
    requires TagsAscend(xs)
    ensures TagsAscend(Place(c, xs))
    decreases |xs|
  {
    var r := Place(c, xs);
    if |xs| == 0 || !Less(xs[0].tag, c.tag) {
      forall i, j | 0 <= i < j < |r| ensures !Less(r[j].tag, r[i].tag) {
        if i == 0 && j > 1 {
          assert r[j] == xs[j - 1];
          if Less(r[j].tag, c.tag) && c.tag != xs[0].tag {
            LessTotal(c.tag, xs[0].tag);
            LessTransitive(r[j].tag, c.tag, xs[0].tag);
          }
        }
      }
    } else {
      var rest := xs[1..];
      PlaceAscends(c, rest);
      var p := Place(c, rest);
      assert r == [xs[0]] + p;
      forall j | 0 <= j < |p| ensures !Less(p[j].tag, xs[0].tag) {
        assert p[j] in multiset(p);
        if p[j] == c {
          if Less(c.tag, xs[0].tag) {
            LessTransitive(c.tag, xs[0].tag, c.tag);
          }
        } else {
          assert p[j] in multiset(rest);
          var k :| 0 <= k < |rest| && rest[k] == p[j];
          assert xs[k + 1] == p[j];
        }
      }
    }
  }

  /** An iteration visits the tags in ascending order. */
  lemma {:induction false} IterationAscends(children: seq<Node>)
    ensures TagsAscend(Iteration(children))
    decreases |children|
  {
    if |children| > 0 {
      IterationAscends(children[..|children| - 1]);
      PlaceAscends(children[|children| - 1], Iteration(children[..|children| - 1]));
    }
  }

  /** Under one tag, a placed child comes before every child already there. */
  lemma {:induction false} PlaceTagged(c: Node, xs: seq<Node>, tag: string)
    ensures Tagged(Place(c, xs), tag) == (if c.tag == tag then [c] else []) + Tagged(xs, tag)
    decreases |xs|
  {
    if |xs| == 0 || !Less(xs[0].tag, c.tag) {
      assert ([c] + xs)[1..] == xs;
    } else {
      PlaceTagged(c, xs[1..], tag);
      assert ([xs[0]] + Place(c, xs[1..]))[1..] == Place(c, xs[1..]);
    }
  }

  /** The children of one tag are visited newest first, as getChild would pick them. */
  lemma {:induction false} IterationNewestFirst(children: seq<Node>, tag: string)
    ensures Tagged(Iteration(children), tag) == NewestFirst(children, tag)
    decreases |children|
  {
    if |children| > 0 {
      var init := children[..|children| - 1];
      IterationNewestFirst(init, tag);
      PlaceTagged(children[|children| - 1], Iteration(init), tag);
    }
  }

  /** getAttributeValue: the value stored under the key, "" when it is missing. */
  function AttributeValue(n: Node, key: string): (r: string)
    ensures key in n.attributes ==> r == n.attributes[key]
    ensures key !in n.attributes ==> r == ""
  {
    if key in n.attributes then n.attributes[key] else ""
  }

  /** getDataString, for payloads the model reads one character per octet. */
  function DataString(n: Node): (r: string)
    ensures |r| == |n.data|
  {
    Text(n.data)
  }

  // ---------------------------------------------------------------------
  // toString
  // ---------------------------------------------------------------------

  /** The attribute list's own rendering; its class is not part of this model. */
  type AttrText = Attributes -> string

  function Indent(depth: nat): (r: string)
    ensures |r| == 4 * depth
  {
    seq(4 * depth, _ => ' ')
  }

  /** The payload line: a newline, one level deeper, "data:hex:" and the hex digits. */
  function DataLine(data: bytes, depth: nat): string
  {
    "\n" + Indent(depth + 1) + "data:hex:" + Text(ToHex(data))
  }

  function Closing(tag: string, depth: nat): string
  {
    "\n" + Indent(depth) + "</" + tag + ">"
  }

  function Concat(parts: seq<string>): string
  {
    if |parts| == 0 then "" else Concat(parts[..|parts| - 1]) + parts[|parts| - 1]
  }

  /** The renderings of n's children, one level deeper than n, in order. */
  function ChildTexts(n: Node, depth: nat, attrText: AttrText): (r: seq<string>)
    ensures |r| == |n.children|
    decreases n, 0
  {
    seq(|n.children|, i requires 0 <= i < |n.children| => Render(n.children[i], depth + 1, attrText))
  }

  /** ProtocolTreeNode::toString(depth). */
  function Render(n: Node, depth: nat, attrText: AttrText): (r: string)
    ensures var open := "\n" + Indent(depth) + "<" + n.tag + attrText(n.attributes);
            |open| < |r| && r[..|open|] == open
    decreases n, 1
  {
    var open := "\n" + Indent(depth) + "<" + n.tag + attrText(n.attributes);
    if |n.children| > 0 then
      open + ">" + (if |n.data| > 0 then DataLine(n.data, depth) else "")
      + Concat(ChildTexts(n, depth, attrText))
      + Closing(n.tag, depth)
    else if |n.data| > 0 then
      open + ">" + DataLine(n.data, depth) + Closing(n.tag, depth)
    else
      open + " />"
  }

  predicate EndsWith(s: string, suffix: string)
  {
    |suffix| <= |s| && s[|s| - |suffix|..] == suffix
  }

  /** The three shapes of a rendered node, by how it ends. */
  lemma RenderShapes(n: Node, depth: nat, attrText: AttrText)
    ensures |n.children| == 0 && |n.data| == 0 ==> EndsWith(Render(n, depth, attrText), " />")
    ensures |n.children| > 0 || |n.data| > 0 ==> EndsWith(Render(n, depth, attrText), Closing(n.tag, depth))
    ensures |n.children| == 0 && |n.data| > 0 ==>
      EndsWith(Render(n, depth, attrText), DataLine(n.data, depth) + Closing(n.tag, depth))
  {
    var r := Render(n, depth, attrText);
    var open := "\n" + Indent(depth) + "<" + n.tag + attrText(n.attributes);
    if |n.children| > 0 {
      var mid := open + ">" + (if |n.data| > 0 then DataLine(n.data, depth) else "")
        + Concat(ChildTexts(n, depth, attrText));
      assert r == mid + Closing(n.tag, depth);
      assert r[|r| - |Closing(n.tag, depth)|..] == Closing(n.tag, depth);
    } else if |n.data| > 0 {
      var tail := DataLine(n.data, depth) + Closing(n.tag, depth);
      assert r == (open + ">") + tail;
      assert r[|r| - |tail|..] == tail;
      assert r[|r| - |Closing(n.tag, depth)|..] == Closing(n.tag, depth);
    } else {
      assert r == open + " />";
      assert r[|r| - 3..] == " />";
    }
  }

  /** A node with children renders each of them, one level deeper, in order. */
  lemma RenderNested(n: Node, depth: nat, attrText: AttrText)
    requires |n.children| > 0
    ensures var inner := Concat(ChildTexts(n, depth, attrText));
            EndsWith(Render(n, depth, attrText), inner + Closing(n.tag, depth))
  {
    var inner := Concat(ChildTexts(n, depth, attrText));
    var r := Render(n, depth, attrText);
    var head := "\n" + Indent(depth) + "<" + n.tag + attrText(n.attributes) + ">"
      + (if |n.data| > 0 then DataLine(n.data, depth) else "");
    var tail := inner + Closing(n.tag, depth);
    assert r == head + tail;
    assert r[|r| - |tail|..] == tail;
  }

  /** toString: the opening, then the children's text, then the closing tag. */
  method RenderNode(n: Node, depth: nat, attrText: AttrText) returns (out: string)
    ensures out == Render(n, depth, attrText)
    decreases n, 1
  {
    out := "\n" + Indent(depth) + "<" + n.tag + attrText(n.attributes);
    if |n.children| > 0 {
      out := out + ">";
      if |n.data| > 0 {
        out := out + DataLine(n.data, depth);
      }
      var inner := RenderChildren(n, depth, attrText);
      out := out + inner + Closing(n.tag, depth);
    } else if |n.data| > 0 {
      out := out + ">" + DataLine(n.data, depth) + Closing(n.tag, depth);
    } else {
      out := out + " />";
    }
  }

  /** The loop of toString over the children, appending each one's text. */
  method RenderChildren(n: Node, depth: nat, attrText: AttrText) returns (out: string)
    ensures out == Concat(ChildTexts(n, depth, attrText))
    decreases n, 0
  {
    ghost var parts := ChildTexts(n, depth, attrText);
    out := "";
    var i := 0;
    while i < |n.children|
      invariant 0 <= i <= |n.children|
      invariant out == Concat(parts[..i])
    {
      var child := RenderNode(n.children[i], depth + 1, attrText);
      assert parts[..i + 1][..i] == parts[..i];
      out := out + child;
      i := i + 1;
    }
    assert parts[..i] == parts;
  }

  // ---------------------------------------------------------------------
  // The mutable holder.
  // ---------------------------------------------------------------------

  class ProtocolTreeNode {
    var tag: string
    var data: bytes
    var attributes: Attributes
    var children: seq<Node>
    var size: int

    /** The node this holder currently stands for. */
    function Value(): Node
      reads this
    {
      Node(tag, attributes, data, children, size)
    }

    /** getAttributesCount. */
    function AttributesCount(): nat
      reads this
    {
      |attributes|
    }

    /** getChildrenCount. */
    function ChildrenCount(): nat
      reads this
    {
      |children|
    }

    /** ProtocolTreeNode(): everything empty; the source leaves size unset. */
    constructor ()
      ensures Value() == Empty
    {
      tag, data, attributes, children, size := "", [], map[], [], 0;
    }

    /** The two copy constructors: every field copied, children and size included. */
    constructor Copy(node: Node)
      ensures Value() == node
    {
      tag, data, attributes, children, size := node.tag, node.data, node.attributes, node.children, node.size;
    }

    constructor WithTag(tag: string)
      ensures Value() == Node(tag, map[], [], [], 0)
    {
      this.tag, data, attributes, children, size := tag, [], map[], [], 0;
    }

    constructor WithData(tag: string, data: bytes)
      ensures Value() == Node(tag, map[], data, [], 0)
    {
      this.tag, this.data, attributes, children, size := tag, data, map[], [], 0;
    }

    constructor WithAttributes(tag: string, attrs: Attributes)
      ensures Value() == Node(tag, attrs, [], [], 0)
    {
      this.tag, data, attributes, children, size := tag, [], attrs, [], 0;
    }

    constructor WithAttributesAndData(tag: string, attrs: Attributes, data: bytes)
      ensures Value() == Node(tag, attrs, data, [], 0)
    {
      this.tag, this.data, attributes, children, size := tag, data, attrs, [], 0;
    }

    /** addChild: the child is stored by value under its own tag. */
    method AddChild(child: Node)
      modifies this
      ensures Value() == old(Value()).(children := old(children) + [child])
      ensures GetChild(children, child.tag) == child
      ensures ChildrenCount() == old(ChildrenCount()) + 1 && AttributesCount() == old(AttributesCount())
    {
      children := children + [child];
      GetChildAfterAdd(old(children), child);
    }

    method SetTag(tag: string)
      modifies this
      ensures Value() == old(Value()).(tag := tag)
    {
      this.tag := tag;
    }

    method SetData(data: bytes)
      modifies this
      ensures Value() == old(Value()).(data := data)
    {
      this.data := data;
    }

    method SetSize(size: int)
      modifies this
      ensures Value() == old(Value()).(size := size)
    {
      this.size := size;
    }

    /** setAttributes: the old list is cleared, then every pair inserted. */
    method SetAttributes(attribs: Attributes)
      modifies this
      ensures Value() == old(Value()).(attributes := attribs)
      ensures AttributesCount() == |attribs| && ChildrenCount() == old(ChildrenCount())
    {
      attributes := map[];
      var pending := attribs.Keys;
      while pending != {}
        invariant pending <= attribs.Keys
        invariant Value() == old(Value()).(attributes := attributes)
        invariant attributes == map k | k in attribs.Keys - pending :: attribs[k]
        decreases |pending|
      {
        var k :| k in pending;
        attributes := attributes[k := attribs[k]];
        pending := pending - {k};
      }
      assert attributes.Keys == attribs.Keys;
    }

    /** toString(depth). */
    method ToString(depth: nat, attrText: AttrText) returns (out: string)
      ensures out == Render(Value(), depth, attrText)
    {
      out := RenderNode(Value(), depth, attrText);
    }
  }
}
