/** The node-tree printer of Importer.cpp: GetAttributeTypeName, and
    PrintTabs, PrintAttribute, PrintNode and ImportNode sharing the global
    tab counter `numTabs`.

    Standard output is modelled as the list of lines written so far. A line
    records how many tab characters precede it and which element it prints;
    the node's local translation, rotation and scaling, which are printed as
    floating-point text, are not part of a line. The key property is that the
    indentation of every line is the nesting depth of the element it prints
    (NodePrinter.RenderNested). */
module NodePrinter {
  import opened Fbx

  /** The string GetAttributeTypeName returns for an attribute type. */
  function GetAttributeTypeName(t: AttributeType): string
  {
    match t
    case eUnknown => "unidentified"
    case eNull => "null"
    case eMarker => "marker"
    case eSkeleton => "skeleton"
    case eMesh => "mesh"
    case eNurbs => "nurbs"
    case ePatch => "patch"
    case eCamera => "camera"
    case eCameraStereo => "stereo"
    case eCameraSwitcher => "camera switcher"
    case eLight => "light"
    case eOpticalReference => "optical reference"
    case eOpticalMarker => "marker"
    case eNurbsCurve => "nurbs curve"
    case eTrimNurbsSurface => "trim nurbs surface"
    case eBoundary => "boundary"
    case eNurbsSurface => "nurbs surface"
    case eShape => "shape"
    case eLODGroup => "lodgroup"
    case eSubDiv => "subdiv"
    case _ => "unknown"
  }

  /** Which types share a name: "marker" is the name of both marker types,
      and "unknown" of every type the switch does not list, so the mapping is
      not injective; "skeleton" and "unidentified" each name one type. */
  lemma AttributeTypeNames(t: AttributeType)
    ensures GetAttributeTypeName(t) == "skeleton" <==> t == eSkeleton
    ensures GetAttributeTypeName(t) == "unidentified" <==> t == eUnknown
    ensures GetAttributeTypeName(t) == "marker" <==> t == eMarker || t == eOpticalMarker
    ensures GetAttributeTypeName(t) == "unknown" <==> t == eCachedEffect || t == eLine
  {
  }

  /** What a printed line shows: a `<node name=...>` opening tag, an
      `<attribute type=... name=.../>` element, or a `</node>` closing tag. */
  datatype Tag = OpenNode(name: string) | AttributeTag(typeName: string, name: string) | CloseNode

  /** One line of output: the tabs in front of it, then its tag. */
  datatype Line = Line(tabs: nat, tag: Tag)

  /** The number of tabs PrintTabs writes for a counter value: the loop
      `for (i = 0; i < numTabs; i++)` writes none when the counter is not
      positive. */
  function Indent(numTabs: int): nat
  {
    if numTabs < 0 then 0 else numTabs
  }

  /** The line PrintAttribute writes for an attribute at counter value t. */
  function AttributeLine(a: NodeAttribute, t: int): Line
  {
    Line(Indent(t), AttributeTag(GetAttributeTypeName(a.kind), a.name))
  }

  /** The lines for the first `count` attributes, each at counter value t. */
  function AttributeLines(attrs: seq<NodeAttribute>, count: nat, t: int): seq<Line>
    requires count <= |attrs|
  {
    if count == 0 then [] else AttributeLines(attrs, count - 1, t) + [AttributeLine(attrs[count - 1], t)]
  }

  /** The output of PrintNode(n) when the counter holds t. */
  function Render(n: Node, t: int): seq<Line>
    decreases n, |n.children| + 1
  {
    [Line(Indent(t), OpenNode(n.name))]
      + AttributeLines(n.attributes, |n.attributes|, t + 1)
      + ChildLines(n, |n.children|, t + 1)
      + [Line(Indent(t), CloseNode)]
  }

  /** The output of printing the first `count` children of n, each at
      counter value t. */
  function ChildLines(n: Node, count: nat, t: int): seq<Line>
    requires count <= |n.children|
    decreases n, count
  {
    if count == 0 then [] else ChildLines(n, count - 1, t) + Render(n.children[count - 1], t)
  }

  /** Reading s line by line with `open` elements open, and never closing
      one below the floor: each opening tag and each attribute sits `open`
      tabs deep, each closing tag one tab shallower than the element it
      closes, and `close` elements are open at the end. */
  predicate Nest(s: seq<Line>, floor: int, open: int, close: int)
  {
    if |s| == 0 then open == close
    else
      match s[0].tag
      case OpenNode(_) => s[0].tabs == open && Nest(s[1..], floor, open + 1, close)
      case AttributeTag(_, _) => s[0].tabs == open && Nest(s[1..], floor, open, close)
      case CloseNode => open > floor && s[0].tabs == open - 1 && Nest(s[1..], floor, open - 1, close)
  }

  /** s is a sequence of complete elements printed at indentation d: every
      line is indented by d plus the number of elements open around it, no
      prefix closes more elements than it opens, and everything opened is
      closed. */
  predicate WellNested(s: seq<Line>, d: int)
  {
    Nest(s, d, d, d)
  }

  lemma {:induction false} NestAppend(a: seq<Line>, b: seq<Line>, floor: int, open: int, mid: int, close: int)
    requires Nest(a, floor, open, mid) && Nest(b, floor, mid, close)
    ensures Nest(a + b, floor, open, close)
    decreases |a|
  {
    if |a| == 0 {
      assert a + b == b;
    } else {
      assert (a + b)[1..] == a[1..] + b;
      match a[0].tag
      case OpenNode(_) => NestAppend(a[1..], b, floor, open + 1, mid, close);
      case AttributeTag(_, _) => NestAppend(a[1..], b, floor, open, mid, close);
      case CloseNode => NestAppend(a[1..], b, floor, open - 1, mid, close);
    }
  }

  /** What stays above a floor stays above any lower floor. */
  lemma {:induction false} NestLowerFloor(s: seq<Line>, floor: int, lower: int, open: int, close: int)
    requires lower <= floor && Nest(s, floor, open, close)
    ensures Nest(s, lower, open, close)
    decreases |s|
  {
    if |s| > 0 {
      match s[0].tag
      case OpenNode(_) => NestLowerFloor(s[1..], floor, lower, open + 1, close);
      case AttributeTag(_, _) => NestLowerFloor(s[1..], floor, lower, open, close);
      case CloseNode => NestLowerFloor(s[1..], floor, lower, open - 1, close);
    }
  }

  /** No line read from an indentation at or above the floor is indented
      less than the floor. */
  lemma {:induction false} NestAtLeast(s: seq<Line>, floor: int, open: int, close: int)
    requires floor <= open && Nest(s, floor, open, close)
    ensures forall k :: 0 <= k < |s| ==> s[k].tabs >= floor
    decreases |s|
  {
    if |s| > 0 {
      match s[0].tag
      case OpenNode(_) => NestAtLeast(s[1..], floor, open + 1, close);
      case AttributeTag(_, _) => NestAtLeast(s[1..], floor, open, close);
      case CloseNode => NestAtLeast(s[1..], floor, open - 1, close);
      forall k | 1 <= k < |s|
        ensures s[k].tabs >= floor
      {
        assert s[k] == s[1..][k - 1];
      }
    }
  }

  /** Two complete element sequences at the same indentation, one after the
      other, are again complete. */
  lemma NestedConcat(a: seq<Line>, b: seq<Line>, d: int)
    requires WellNested(a, d) && WellNested(b, d)
    ensures WellNested(a + b, d)
  {
    NestAppend(a, b, d, d, d, d);
  }

  /** An opening and a closing tag at indentation d around lines that are
      complete at indentation d + 1 form one complete element. */
  lemma NestedWrap(name: string, x: seq<Line>, d: nat)
    requires WellNested(x, d + 1)
    ensures WellNested([Line(d, OpenNode(name))] + x + [Line(d, CloseNode)], d)
  {
    var c := [Line(d, CloseNode)];
    NestLowerFloor(x, d + 1, d, d + 1, d + 1);
    assert Nest(c[1..], d, d, d);
    NestAppend(x, c, d, d + 1, d + 1, d);
    var s := [Line(d, OpenNode(name))] + x + c;
    assert s[1..] == x + c;
  }

  lemma {:induction false} AttributeLinesNested(attrs: seq<NodeAttribute>, count: nat, d: nat)
    requires count <= |attrs|
    ensures WellNested(AttributeLines(attrs, count, d), d)
  {
    if count > 0 {
      AttributeLinesNested(attrs, count - 1, d);
      var l := [AttributeLine(attrs[count - 1], d)];
      assert Nest(l[1..], d, d, d);
      NestedConcat(AttributeLines(attrs, count - 1, d), l, d);
    }
  }

  /** PrintNode at a non-negative counter value d prints one complete
      element: every line is indented by d plus the number of elements open
      around it. */
  lemma {:induction false} RenderNested(n: Node, d: nat)
    ensures WellNested(Render(n, d), d)
    decreases n, |n.children| + 1
  {
    var attrs := AttributeLines(n.attributes, |n.attributes|, d + 1);
    var kids := ChildLines(n, |n.children|, d + 1);
    AttributeLinesNested(n.attributes, |n.attributes|, d + 1);
    ChildLinesNested(n, |n.children|, d + 1);
    NestedConcat(attrs, kids, d + 1);
    NestedWrap(n.name, attrs + kids, d);
    RenderShape(n, d);
  }

  lemma RenderShape(n: Node, d: nat)
    ensures Render(n, d) == [Line(d, OpenNode(n.name))]
      + (AttributeLines(n.attributes, |n.attributes|, d + 1) + ChildLines(n, |n.children|, d + 1))
      + [Line(d, CloseNode)]
  {
    var attrs := AttributeLines(n.attributes, |n.attributes|, d + 1);
    var kids := ChildLines(n, |n.children|, d + 1);
    AppendAssoc([Line(d, OpenNode(n.name))], attrs, kids);
  }

  lemma AppendAssoc<T>(a: seq<T>, b: seq<T>, c: seq<T>)
    ensures a + b + c == a + (b + c)
  {
  }

  lemma AppendFour<T>(l: seq<T>, a: seq<T>, b: seq<T>, c: seq<T>, d: seq<T>)
    ensures l + a + b + c + d == l + (a + b + c + d)
  {
  }

  lemma {:induction false} ChildLinesNested(n: Node, count: nat, d: nat)
    requires count <= |n.children|
    ensures WellNested(ChildLines(n, count, d), d)
    decreases n, count
  {
    if count == 0 {
      assert ChildLines(n, count, d) == [];
    } else {
      ChildLinesNested(n, count - 1, d);
      RenderNested(n.children[count - 1], d);
      NestedConcat(ChildLines(n, count - 1, d), Render(n.children[count - 1], d), d);
    }
  }

  /** Nothing PrintNode prints from counter value d is indented by fewer
      than d tabs; its first and last lines are indented by exactly d. */
  lemma RenderIndentedFrom(n: Node, d: nat)
    ensures forall k :: 0 <= k < |Render(n, d)| ==> Render(n, d)[k].tabs >= d
    ensures Render(n, d)[0].tabs == d && Render(n, d)[|Render(n, d)| - 1].tabs == d
  {
    RenderNested(n, d);
    NestAtLeast(Render(n, d), d, d, d);
    RenderAttributes(n, d);
  }

  /** PrintNode lists a node's attributes, in order, right after its opening
      tag and one tab deeper. */
  lemma RenderAttributes(n: Node, t: int)
    ensures |Render(n, t)| >= 2 + |n.attributes|
    ensures Render(n, t)[0] == Line(Indent(t), OpenNode(n.name))
    ensures forall k :: 0 <= k < |n.attributes| ==> Render(n, t)[1 + k] == AttributeLine(n.attributes[k], t + 1)
    ensures Render(n, t)[|Render(n, t)| - 1] == Line(Indent(t), CloseNode)
  {
    var attrs := AttributeLines(n.attributes, |n.attributes|, t + 1);
    var kids := ChildLines(n, |n.children|, t + 1);
    AttributeLinesAt(n.attributes, |n.attributes|, t + 1);
    assert Render(n, t) == [Line(Indent(t), OpenNode(n.name))] + attrs + kids + [Line(Indent(t), CloseNode)];
  }

  lemma {:induction false} AttributeLinesAt(attrs: seq<NodeAttribute>, count: nat, t: int)
    requires count <= |attrs|
    ensures |AttributeLines(attrs, count, t)| == count
    ensures forall k :: 0 <= k < count ==> AttributeLines(attrs, count, t)[k] == AttributeLine(attrs[k], t)
  {
    if count > 0 {
      AttributeLinesAt(attrs, count - 1, t);
    }
  }

  /** The global `numTabs` together with standard output. `pending` counts
      the tabs written since the last line ended. */
  class Printer {
    var numTabs: int
    var pending: nat
    var lines: seq<Line>

    /** The program's state before anything is printed. */
    constructor ()
      ensures numTabs == 0 && pending == 0 && lines == []
    {
      numTabs := 0;
      pending := 0;
      lines := [];
    }

    method PrintTabs()
      modifies this
      ensures pending == old(pending) + Indent(numTabs)
      ensures numTabs == old(numTabs) && lines == old(lines)
    {
      var i := 0;
      while i < numTabs
        invariant i <= Indent(numTabs)
        invariant pending == old(pending) + Indent(i)
        invariant numTabs == old(numTabs) && lines == old(lines)
        decreases numTabs - i
      {
        pending := pending + 1;
        i := i + 1;
      }
    }

    /** A printf that ends a line: the tabs written before it become the
        line's indentation. */
    method EndLine(tag: Tag)
      modifies this
      ensures lines == old(lines) + [Line(old(pending), tag)]
      ensures pending == 0 && numTabs == old(numTabs)
    {
      lines := lines + [Line(pending, tag)];
      pending := 0;
    }

    method PrintAttribute(pAttribute: NodeAttribute)
      requires pending == 0
      modifies this
      ensures lines == old(lines) + [AttributeLine(pAttribute, numTabs)]
      ensures pending == 0 && numTabs == old(numTabs)
    {
      var typeName := GetAttributeTypeName(pAttribute.kind);
      var attrName := pAttribute.name;
      PrintTabs();
      EndLine(AttributeTag(typeName, attrName));
    }

    /** The attribute loop and the child loop are factored out; the child
        loop is the same loop as ImportNode's, so PrintNode calls it. */
    method PrintNode(pNode: Node)
      requires pending == 0
      modifies this
      ensures lines == old(lines) + Render(pNode, old(numTabs))
      ensures pending == 0 && numTabs == old(numTabs)
      decreases pNode, 1
    {
      ghost var t := numTabs;
      PrintTabs();
      EndLine(OpenNode(pNode.name));
      numTabs := numTabs + 1;
      PrintAttributes(pNode.attributes);
      ImportNode(pNode);
      numTabs := numTabs - 1;
      PrintTabs();
      EndLine(CloseNode);
      AppendFour(old(lines), [Line(Indent(t), OpenNode(pNode.name))],
                 AttributeLines(pNode.attributes, |pNode.attributes|, t + 1),
                 ChildLines(pNode, |pNode.children|, t + 1), [Line(Indent(t), CloseNode)]);
    }

    /** `for (i = 0; i < pNode->GetNodeAttributeCount(); i++) PrintAttribute(...)`. */
    method PrintAttributes(attrs: seq<NodeAttribute>)
      requires pending == 0
      modifies this
      ensures lines == old(lines) + AttributeLines(attrs, |attrs|, numTabs)
      ensures pending == 0 && numTabs == old(numTabs)
    {
      var i := 0;
      while i < |attrs|
        invariant i <= |attrs|
        invariant lines == old(lines) + AttributeLines(attrs, i, numTabs)
        invariant pending == 0 && numTabs == old(numTabs)
      {
        PrintAttribute(attrs[i]);
        i := i + 1;
      }
    }

    /** Prints every child of pNode; pNode itself is not printed. */
    method ImportNode(pNode: Node)
      requires pending == 0
      modifies this
      ensures lines == old(lines) + ChildLines(pNode, |pNode.children|, old(numTabs))
      ensures pending == 0 && numTabs == old(numTabs)
      decreases pNode, 0
    {
      var j := 0;
      while j < |pNode.children|
        invariant j <= |pNode.children|
        invariant lines == old(lines) + ChildLines(pNode, j, numTabs)
        invariant pending == 0 && numTabs == old(numTabs)
      {
        PrintNode(pNode.children[j]);
        j := j + 1;
      }
    }
  }
}
