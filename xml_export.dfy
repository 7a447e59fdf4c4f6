/**
 * `export_to_xml`: a `models` root with one `model` element per item. A key
 * without a dot becomes a child element holding the value's text; a dotted
 * key walks down its segments, reusing the first child element with that
 * name and creating the ones that are missing, and puts the last segment as
 * a leaf element under the element reached.
 *
 * The DOM is a value here: a step that appends a child to an existing
 * element rebuilds the path from the root to that element.
 */
module XmlExport {
  import opened Wrappers
  import opened JsonValue
  import opened Text

  datatype Node = Element(tag: string, children: seq<Node>) | TextNode(text: string)

  /** `node.nodeName`: the tag of an element, `#text` for a text node. */
  function NodeName(n: Node): string {
    if n.Element? then n.tag else "#text"
  }

  /** The first child whose name is `name`, as the `for ... break` search finds it. */
  function FindChild(children: seq<Node>, name: string): (r: Option<nat>)
    ensures r.Some? ==> r.value < |children| && NodeName(children[r.value]) == name
    ensures r.Some? ==> forall k :: 0 <= k < r.value ==> NodeName(children[k]) != name
    ensures r.None? ==> forall k :: 0 <= k < |children| ==> NodeName(children[k]) != name
    decreases |children|
  {
    if |children| == 0 then None
    else if NodeName(children[0]) == name then Some(0)
    else match FindChild(children[1..], name)
      case None => None
      case Some(i) => Some(i + 1)
  }

  /** The text node content: `""` for `None`, `str(value)` otherwise. */
  function LeafText(value: Json, show: Json -> string): string {
    if value.Null? then "" else ToText(value, show)
  }

  /** `field_elem` with its text node. */
  function Leaf(tag: string, value: Json, show: Json -> string): Node {
    Element(tag, [TextNode(LeafText(value, show))])
  }

  /** The elements created for the segments when none of them exists yet, each holding the next. */
  function Nest(path: seq<string>, leaf: Node): Node
    requires |path| >= 1
    decreases |path|
  {
    if |path| == 1 then Element(path[0], [leaf]) else Element(path[0], [Nest(path[1..], leaf)])
  }

  /**
   * Walk `path` from the element whose children are `children` and append
   * `leaf` to the element reached. `None` is the DOM refusing a child for a
   * text node, which happens when a segment is literally `#text`.
   */
  function InsertPath(children: seq<Node>, path: seq<string>, leaf: Node): Option<seq<Node>>
    decreases |path|
  {
    if |path| == 0 then Some(children + [leaf])
    else match FindChild(children, path[0])
      case None => Some(children + [Nest(path, leaf)])
      case Some(i) =>
        var c := children[i];
        if c.TextNode? then None
        else match InsertPath(c.children, path[1..], leaf)
          case None => None
          case Some(cs) => Some(children[i := Element(c.tag, cs)])
  }

  /** One `key, value` of an item added under the `model` element. */
  function AddKey(children: seq<Node>, key: string, value: Json, show: Json -> string): Option<seq<Node>> {
    if '.' in key then
      var parts := Split(key, '.');
      InsertPath(children, parts[..|parts| - 1], Leaf(parts[|parts| - 1], value, show))
    else Some(children + [Leaf(key, value, show)])
  }

  /** The children of one `model` element, key by key in the item's order. */
  function ModelChildren(members: Members, show: Json -> string): Option<seq<Node>>
    decreases |members|
  {
    if |members| == 0 then Some([])
    else
      var n := |members| - 1;
      match ModelChildren(members[..n], show)
      case None => None
      case Some(cs) => AddKey(cs, members[n].0, members[n].1, show)
  }

  /** The `model` elements for all items, or `None` when one of them fails. */
  function Models(data: seq<Members>, show: Json -> string): Option<seq<Node>>
    decreases |data|
  {
    if |data| == 0 then Some([])
    else
      var n := |data| - 1;
      match Models(data[..n], show)
      case None => None
      case Some(ms) =>
        match ModelChildren(data[n], show)
        case None => None
        case Some(cs) => Some(ms + [Element("model", cs)])
  }

  /** `export_to_xml` up to the pretty-printing of the document. */
  method ExportToXml(data: seq<Members>, show: Json -> string) returns (r: Result<Node>)
    ensures r.Ok? <==> Models(data, show).Some?
    ensures r.Ok? ==> r.value == Element("models", Models(data, show).value)
  {
    var models: seq<Node> := [];
    for j := 0 to |data|
      invariant Models(data[..j], show) == Some(models)
    {
      var item := data[j];
      var children: seq<Node> := [];
      for k := 0 to |item|
        invariant ModelChildren(item[..k], show) == Some(children)
      {
        assert item[..k + 1][..k] == item[..k];
        var added := AddKey(children, item[k].0, item[k].1, show);
        if added.None? {
          ModelChildrenFailureSticks(item, k + 1, show);
          assert item[..|item|] == item;
          ModelsFailureSticks(data, j, show);
          return Err("text nodes cannot have children");
        }
        children := added.value;
      }
      assert item[..|item|] == item;
      assert data[..j + 1][..j] == data[..j];
      models := models + [Element("model", children)];
    }
    assert data[..|data|] == data;
    return Ok(Element("models", models));
  }

  lemma {:induction false} ModelChildrenFailureSticks(members: Members, k: int, show: Json -> string)
    requires 0 <= k <= |members|
    requires ModelChildren(members[..k], show).None?
    ensures ModelChildren(members, show).None?
    decreases |members| - k
  {
    if k < |members| {
      assert members[..k + 1][..k] == members[..k];
      ModelChildrenFailureSticks(members, k + 1, show);
    } else {
      assert members[..k] == members;
    }
  }

  lemma {:induction false} ModelsFailureSticks(data: seq<Members>, j: int, show: Json -> string)
    requires 0 <= j < |data|
    requires Models(data[..j], show).Some? && ModelChildren(data[j], show).None?
    ensures Models(data, show).None?
  {
    assert data[..j + 1][..j] == data[..j];
    ModelsPrefixFails(data, j + 1, show);
  }

  lemma {:induction false} ModelsPrefixFails(data: seq<Members>, j: int, show: Json -> string)
    requires 0 <= j <= |data|
    requires Models(data[..j], show).None?
    ensures Models(data, show).None?
    decreases |data| - j
  {
    if j < |data| {
      assert data[..j + 1][..j] == data[..j];
      ModelsPrefixFails(data, j + 1, show);
    } else {
      assert data[..j] == data;
    }
  }

  // ---------------------------------------------------------------- properties

  /** There is one `model` element per item. */
  lemma {:induction false} OneModelPerItem(data: seq<Members>, show: Json -> string)
    requires Models(data, show).Some?
    ensures |Models(data, show).value| == |data|
    ensures forall j :: 0 <= j < |data| ==>
              ModelChildren(data[j], show).Some? &&
              Models(data, show).value[j] == Element("model", ModelChildren(data[j], show).value)
    decreases |data|
  {
    if |data| > 0 {
      var n := |data| - 1;
      OneModelPerItem(data[..n], show);
      assert forall j :: 0 <= j < n ==> data[..n][j] == data[j];
    }
  }

  /** Follow `path` by first match from a list of children and give the children of the element reached. */
  function Descend(children: seq<Node>, path: seq<string>): Option<seq<Node>>
    decreases |path|
  {
    if |path| == 0 then Some(children)
    else match FindChild(children, path[0])
      case None => None
      case Some(i) => if children[i].TextNode? then None else Descend(children[i].children, path[1..])
  }

  lemma {:induction false} DescendNest(children: seq<Node>, path: seq<string>, leaf: Node)
    requires |path| >= 1
    requires FindChild(children, path[0]).None?
    ensures Descend(children + [Nest(path, leaf)], path) == Some([leaf])
    decreases |path|
  {
    var cs := children + [Nest(path, leaf)];
    assert FindChild(cs, path[0]) == Some(|children|) by {
      FindChildAppend(children, Nest(path, leaf), path[0]);
    }
    if |path| > 1 {
      DescendNest([], path[1..], leaf);
      assert [] + [Nest(path[1..], leaf)] == [Nest(path[1..], leaf)];
    }
  }

  lemma {:induction false} FindChildAppend(children: seq<Node>, extra: Node, name: string)
    requires FindChild(children, name).None? && NodeName(extra) == name
    ensures FindChild(children + [extra], name) == Some(|children|)
    decreases |children|
  {
    FindChildIs(children + [extra], name, |children|);
  }

  /** After a dotted key is added, following its segments from the model element reaches the new leaf as the last child. */
  lemma {:induction false} InsertThenDescend(children: seq<Node>, path: seq<string>, leaf: Node)
    requires InsertPath(children, path, leaf).Some?
    ensures var d := Descend(InsertPath(children, path, leaf).value, path);
            d.Some? && |d.value| > 0 && d.value[|d.value| - 1] == leaf
    decreases |path|
  {
    if |path| > 0 {
      match FindChild(children, path[0])
      case None =>
        DescendNest(children, path, leaf);
      case Some(i) =>
        var c := children[i];
        InsertThenDescend(c.children, path[1..], leaf);
        var cs := InsertPath(c.children, path[1..], leaf).value;
        var r := children[i := Element(c.tag, cs)];
        FindChildUpdate(children, i, Element(c.tag, cs), path[0]);
        assert Descend(r, path) == Descend(cs, path[1..]);
    }
  }

  /** The first child with a name is the one `FindChild` reports. */
  lemma {:induction false} FindChildIs(children: seq<Node>, name: string, i: nat)
    requires i < |children| && NodeName(children[i]) == name
    requires forall k :: 0 <= k < i ==> NodeName(children[k]) != name
    ensures FindChild(children, name) == Some(i)
    decreases i
  {
    if i > 0 {
      FindChildIs(children[1..], name, i - 1);
    }
  }

  lemma FindChildUpdate(children: seq<Node>, i: nat, x: Node, name: string)
    requires FindChild(children, name) == Some(i)
    requires NodeName(x) == name
    ensures FindChild(children[i := x], name) == Some(i)
  {
    FindChildIs(children[i := x], name, i);
  }

  /** A path with no `#text` segment never reaches a text node, so adding the key succeeds. */
  lemma {:induction false} InsertSucceeds(children: seq<Node>, path: seq<string>, leaf: Node)
    requires forall k :: 0 <= k < |path| ==> path[k] != "#text"
    ensures InsertPath(children, path, leaf).Some?
    decreases |path|
  {
    if |path| > 0 {
      match FindChild(children, path[0])
      case None =>
      case Some(i) =>
        assert NodeName(children[i]) == path[0];
        InsertSucceeds(children[i].children, path[1..], leaf);
    }
  }

  /** Reusing an existing first segment adds no element at the model level; a new one adds exactly one. */
  lemma ChildCount(children: seq<Node>, path: seq<string>, leaf: Node)
    requires |path| >= 1
    requires InsertPath(children, path, leaf).Some?
    ensures FindChild(children, path[0]).Some? ==> |InsertPath(children, path, leaf).value| == |children|
    ensures FindChild(children, path[0]).None? ==> |InsertPath(children, path, leaf).value| == |children| + 1
  {
  }

  /** A key without a dot is the one-segment case of the general walk. */
  lemma SimpleKeyIsOneSegment(children: seq<Node>, key: string, value: Json, show: Json -> string)
    requires '.' !in key
    ensures AddKey(children, key, value, show) == InsertPath(children, [], Leaf(key, value, show))
    ensures Split(key, '.') == [key]
  {
    SplitPrefix(key, "", '.');
    assert key + "" == key;
  }

  // ---------------------------------------------------------------- no value lost, none duplicated

  /** The contents of every text node under a node. */
  function TextsOf(n: Node): multiset<string>
    decreases n
  {
    match n
    case TextNode(t) => multiset{t}
    case Element(_, cs) => TextsOfAll(cs)
  }

  function TextsOfAll(cs: seq<Node>): multiset<string>
    decreases cs
  {
    if |cs| == 0 then multiset{} else TextsOf(cs[0]) + TextsOfAll(cs[1..])
  }

  lemma {:induction false} TextsOfAllAppend(a: seq<Node>, b: seq<Node>)
    ensures TextsOfAll(a + b) == TextsOfAll(a) + TextsOfAll(b)
    decreases |a|
  {
    if |a| > 0 {
      assert (a + b)[0] == a[0] && (a + b)[1..] == a[1..] + b;
      TextsOfAllAppend(a[1..], b);
    } else {
      assert a + b == b;
    }
  }

  lemma Cancel(a: multiset<string>, b: multiset<string>, c: multiset<string>)
    requires a + c == b + c
    ensures a == b
  {
    forall x ensures a[x] == b[x] {
      assert (a + c)[x] == (b + c)[x];
    }
  }

  lemma TextsOfAllSingle(y: Node)
    ensures TextsOfAll([y]) == TextsOf(y)
  {
    assert [y][1..] == [];
  }

  lemma TextsOfAllUpdate(cs: seq<Node>, i: int, x: Node)
    requires 0 <= i < |cs|
    ensures TextsOfAll(cs[i := x]) + TextsOf(cs[i]) == TextsOfAll(cs) + TextsOf(x)
  {
    var pre, post := cs[..i], cs[i + 1..];
    assert cs == pre + [cs[i]] + post;
    assert cs[i := x] == pre + [x] + post;
    TextsOfAllAppend(pre + [cs[i]], post);
    TextsOfAllAppend(pre, [cs[i]]);
    TextsOfAllAppend(pre + [x], post);
    TextsOfAllAppend(pre, [x]);
    TextsOfAllSingle(cs[i]);
    TextsOfAllSingle(x);
  }

  lemma {:induction false} TextsOfNest(path: seq<string>, leaf: Node)
    requires |path| >= 1
    ensures TextsOf(Nest(path, leaf)) == TextsOf(leaf)
    decreases |path|
  {
    if |path| > 1 {
      TextsOfNest(path[1..], leaf);
      assert TextsOfAll([Nest(path[1..], leaf)]) == TextsOf(Nest(path[1..], leaf)) + TextsOfAll([]);
    } else {
      assert TextsOfAll([leaf]) == TextsOf(leaf) + TextsOfAll([]);
    }
  }

  /** Adding a key adds exactly the leaf's text and keeps every text already there. */
  lemma {:induction false} InsertAddsLeafTexts(children: seq<Node>, path: seq<string>, leaf: Node)
    requires InsertPath(children, path, leaf).Some?
    ensures TextsOfAll(InsertPath(children, path, leaf).value) == TextsOfAll(children) + TextsOf(leaf)
    decreases |path|
  {
    if |path| == 0 {
      TextsOfAllAppend(children, [leaf]);
      assert TextsOfAll([leaf]) == TextsOf(leaf) + TextsOfAll([]);
    } else {
      match FindChild(children, path[0])
      case None =>
        TextsOfAllAppend(children, [Nest(path, leaf)]);
        assert TextsOfAll([Nest(path, leaf)]) == TextsOf(Nest(path, leaf)) + TextsOfAll([]);
        TextsOfNest(path, leaf);
      case Some(i) =>
        var c := children[i];
        assert c.Element?;
        InsertAddsLeafTexts(c.children, path[1..], leaf);
        var cs := InsertPath(c.children, path[1..], leaf).value;
        assert InsertPath(children, path, leaf) == Some(children[i := Element(c.tag, cs)]);
        ReplaceChildTexts(children, i, cs, TextsOf(leaf));
    }
  }

  /** Replacing a child element's children by ones holding `added` more texts adds exactly `added`. */
  lemma ReplaceChildTexts(children: seq<Node>, i: int, cs: seq<Node>, added: multiset<string>)
    requires 0 <= i < |children| && children[i].Element?
    requires TextsOfAll(cs) == TextsOfAll(children[i].children) + added
    ensures TextsOfAll(children[i := Element(children[i].tag, cs)]) == TextsOfAll(children) + added
  {
    var c := children[i];
    assert TextsOf(c) == TextsOfAll(c.children);
    assert TextsOf(Element(c.tag, cs)) == TextsOfAll(cs);
    TextsOfAllUpdate(children, i, Element(c.tag, cs));
    var r := children[i := Element(c.tag, cs)];
    assert TextsOfAll(r) + TextsOf(c) == (TextsOfAll(children) + added) + TextsOf(c);
    Cancel(TextsOfAll(r), TextsOfAll(children) + added, TextsOf(c));
  }

  /** The texts of an item's values, as `export_to_xml` writes them. */
  function ValueTexts(members: Members, show: Json -> string): multiset<string>
    decreases |members|
  {
    if |members| == 0 then multiset{}
    else
      var n := |members| - 1;
      ValueTexts(members[..n], show) + multiset{LeafText(members[n].1, show)}
  }

  /** Every value of the item appears as exactly one text node of its `model` element. */
  lemma {:induction false} ModelTextsAreValues(members: Members, show: Json -> string)
    requires ModelChildren(members, show).Some?
    ensures TextsOfAll(ModelChildren(members, show).value) == ValueTexts(members, show)
    decreases |members|
  {
    if |members| > 0 {
      var n := |members| - 1;
      var cs := ModelChildren(members[..n], show).value;
      ModelTextsAreValues(members[..n], show);
      var key := members[n].0;
      var value := members[n].1;
      var leafTag := if '.' in key then Split(key, '.')[|Split(key, '.')| - 1] else key;
      var path := if '.' in key then Split(key, '.')[..|Split(key, '.')| - 1] else [];
      if '.' !in key {
        SimpleKeyIsOneSegment(cs, key, value, show);
      }
      var leaf := Leaf(leafTag, value, show);
      assert AddKey(cs, key, value, show) == InsertPath(cs, path, leaf);
      InsertAddsLeafTexts(cs, path, leaf);
      assert TextsOf(leaf) == multiset{LeafText(value, show)} by {
        assert TextsOfAll([TextNode(LeafText(value, show))]) == TextsOf(TextNode(LeafText(value, show))) + TextsOfAll([]);
      }
    }
  }

  /** No segment of the key is `#text`, the name the DOM gives a text node. */
  predicate NoTextSegment(key: string) {
    "#text" !in Split(key, '.')
  }

  /** An item whose keys have no `#text` segment always gets its `model` element. */
  lemma {:induction false} NoTextSegmentSucceeds(members: Members, show: Json -> string)
    requires forall i :: 0 <= i < |members| ==> NoTextSegment(members[i].0)
    ensures ModelChildren(members, show).Some?
    decreases |members|
  {
    if |members| > 0 {
      var n := |members| - 1;
      assert forall i :: 0 <= i < n ==> members[..n][i] == members[i];
      NoTextSegmentSucceeds(members[..n], show);
      assert NoTextSegment(members[n].0);
      AddKeySucceeds(ModelChildren(members[..n], show).value, members[n].0, members[n].1, show);
    }
  }

  /** A key with no `#text` segment can always be added. */
  lemma AddKeySucceeds(children: seq<Node>, key: string, value: Json, show: Json -> string)
    requires NoTextSegment(key)
    ensures AddKey(children, key, value, show).Some?
  {
    if '.' in key {
      var parts := Split(key, '.');
      var path := parts[..|parts| - 1];
      assert forall k :: 0 <= k < |path| ==> path[k] == parts[k] && parts[k] in parts;
      InsertSucceeds(children, path, Leaf(parts[|parts| - 1], value, show));
    }
  }
}
