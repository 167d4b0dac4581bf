/**
 * Visitor traversal over Kumu's XML element tree (KM_xml.h).
 *
 * An element is modelled as a value: its name, its body text, its attribute
 * list and its child list, in document order. A visitor is modelled by the
 * state it carries and its Element callback, written as a function from the
 * state and an element to the callback's answer and the new state.
 */
module KumuXML {

  datatype NVPair = NVPair(name: string, value: string)

  datatype XMLElement = XMLElement(
    name: string,
    body: string,
    attributes: seq<NVPair>,
    children: seq<XMLElement>)

  /** The visitor's Element callback: (state, element) -> (keep going, new state). */
  type Visit<!S> = (S, XMLElement) -> (bool, S)

  // ---------------------------------------------------------------------------
  // apply_visitor

  /** apply_visitor(element, visitor): visits the children of e and their subtrees. */
  function ApplyVisitor<S>(e: XMLElement, v: S, visit: Visit<S>): (bool, S)
    decreases e, 1, 0
  {
    ApplyFrom(e, 0, v, visit)
  }

  /**
   * The loop of apply_visitor from child i on: hand the child to the visitor,
   * then walk the child's own subtree, and return false at the first false.
   */
  function ApplyFrom<S>(e: XMLElement, i: nat, v: S, visit: Visit<S>): (bool, S)
    requires i <= |e.children|
    decreases e, 0, |e.children| - i
  {
    if i == |e.children| then (true, v)
    else
      var c := e.children[i];
      var (ok, v1) := visit(v, c);
      if !ok then (false, v1)
      else
        var (ok2, v2) := ApplyVisitor(c, v1, visit);
        if !ok2 then (false, v2)
        else ApplyFrom(e, i + 1, v2, visit)
  }

  // ---------------------------------------------------------------------------
  // The reference definition: a pre-order list of the proper descendants,
  // visited one after the other until the first false.

  /** Every element below e, each before its own descendants, siblings in list order. */
  function Descendants(e: XMLElement): seq<XMLElement>
    decreases e, 1, 0
  {
    DescendantsFrom(e, 0)
  }

  function DescendantsFrom(e: XMLElement, i: nat): seq<XMLElement>
    requires i <= |e.children|
    decreases e, 0, |e.children| - i
  {
    if i == |e.children| then []
    else [e.children[i]] + Descendants(e.children[i]) + DescendantsFrom(e, i + 1)
  }

  /** Visits xs in order and stops at the first false. */
  function RunSeq<S>(xs: seq<XMLElement>, v: S, visit: Visit<S>): (bool, S)
  {
    if xs == [] then (true, v)
    else
      var (ok, v1) := visit(v, xs[0]);
      if !ok then (false, v1) else RunSeq(xs[1..], v1, visit)
  }

  /** The state handed to the visitor together with xs[k]. */
  function StateBefore<S>(xs: seq<XMLElement>, v: S, visit: Visit<S>, k: nat): S
    requires k <= |xs|
  {
    RunSeq(xs[..k], v, visit).1
  }

  lemma {:induction false} RunSeqAppend<S>(xs: seq<XMLElement>, ys: seq<XMLElement>, v: S, visit: Visit<S>)
    ensures RunSeq(xs + ys, v, visit) ==
      if !RunSeq(xs, v, visit).0 then RunSeq(xs, v, visit) else RunSeq(ys, RunSeq(xs, v, visit).1, visit)
  {
    if xs == [] {
      assert xs + ys == ys;
    } else {
      assert (xs + ys)[1..] == xs[1..] + ys;
      assert (xs + ys)[0] == xs[0];
      var (ok, v1) := visit(v, xs[0]);
      if ok {
        assert RunSeq(xs + ys, v, visit) == RunSeq(xs[1..] + ys, v1, visit);
        assert RunSeq(xs, v, visit) == RunSeq(xs[1..], v1, visit);
        RunSeqAppend(xs[1..], ys, v1, visit);
      } else {
        assert RunSeq(xs + ys, v, visit) == (false, v1);
        assert RunSeq(xs, v, visit) == (false, v1);
      }
    }
  }

  /** apply_visitor is exactly the run of the visitor over the pre-order descendant list. */
  lemma {:induction false} ApplyVisitorIsPreOrderRun<S>(e: XMLElement, v: S, visit: Visit<S>)
    ensures ApplyVisitor(e, v, visit) == RunSeq(Descendants(e), v, visit)
    decreases e, 1, 0
  {
    ApplyFromIsRun(e, 0, v, visit);
  }

  lemma {:induction false} ApplyFromIsRun<S>(e: XMLElement, i: nat, v: S, visit: Visit<S>)
    requires i <= |e.children|
    ensures ApplyFrom(e, i, v, visit) == RunSeq(DescendantsFrom(e, i), v, visit)
    decreases e, 0, |e.children| - i
  {
    if i < |e.children| {
      var c := e.children[i];
      var rest := DescendantsFrom(e, i + 1);
      assert DescendantsFrom(e, i) == [c] + (Descendants(c) + rest);
      var (ok, v1) := visit(v, c);
      if ok {
        assert RunSeq([c] + (Descendants(c) + rest), v, visit) == RunSeq(Descendants(c) + rest, v1, visit) by {
          assert ([c] + (Descendants(c) + rest))[1..] == Descendants(c) + rest;
        }
        RunSeqAppend(Descendants(c), rest, v1, visit);
        ApplyVisitorIsPreOrderRun(c, v1, visit);
        var (ok2, v2) := ApplyVisitor(c, v1, visit);
        if ok2 {
          ApplyFromIsRun(e, i + 1, v2, visit);
        }
      }
    }
  }

  // ---------------------------------------------------------------------------
  // Properties of the visit order

  /**
   * Pre-order: the descendants of the element at position k of the visit
   * list come immediately after it, and all of them before anything else.
   */
  lemma {:induction false} PreOrder(e: XMLElement, k: nat)
    requires k < |Descendants(e)|
    ensures var d := Descendants(e)[k];
      k + 1 + |Descendants(d)| <= |Descendants(e)| &&
      Descendants(e)[k + 1..k + 1 + |Descendants(d)|] == Descendants(d)
    decreases e, 1, 0
  {
    PreOrderFrom(e, 0, k);
  }

  /** A slice that lies inside the middle part of a three-part sequence. */
  lemma SliceOfMiddle(c: XMLElement, xs: seq<XMLElement>, ys: seq<XMLElement>, lo: nat, hi: nat)
    requires 1 <= lo <= hi <= 1 + |xs|
    ensures ([c] + xs + ys)[lo..hi] == xs[lo - 1..hi - 1]
  {
  }

  /** A slice that lies inside the last part of a three-part sequence. */
  lemma SliceOfLast(c: XMLElement, xs: seq<XMLElement>, ys: seq<XMLElement>, lo: nat, hi: nat)
    requires 1 + |xs| <= lo <= hi <= 1 + |xs| + |ys|
    ensures ([c] + xs + ys)[lo..hi] == ys[lo - 1 - |xs|..hi - 1 - |xs|]
  {
  }

  lemma {:induction false} PreOrderFrom(e: XMLElement, i: nat, k: nat)
    requires i <= |e.children| && k < |DescendantsFrom(e, i)|
    ensures var ds := DescendantsFrom(e, i); var d := ds[k];
      k + 1 + |Descendants(d)| <= |ds| &&
      ds[k + 1..k + 1 + |Descendants(d)|] == Descendants(d)
    decreases e, 0, |e.children| - i
  {
    var c := e.children[i];
    var dc := Descendants(c);
    var rest := DescendantsFrom(e, i + 1);
    var ds := DescendantsFrom(e, i);
    assert ds == [c] + dc + rest;
    if k == 0 {
      SliceOfMiddle(c, dc, rest, 1, 1 + |dc|);
    } else if k <= |dc| {
      PreOrder(c, k - 1);
      var d := dc[k - 1];
      assert ds[k] == d;
      SliceOfMiddle(c, dc, rest, k + 1, k + 1 + |Descendants(d)|);
    } else {
      var j := k - 1 - |dc|;
      PreOrderFrom(e, i + 1, j);
      var d := rest[j];
      assert ds[k] == d;
      SliceOfLast(c, dc, rest, k + 1, k + 1 + |Descendants(d)|);
    }
  }

  /** The element handed to apply_visitor is never itself visited. */
  lemma RootNotVisited(e: XMLElement, k: nat)
    requires k < |Descendants(e)|
    ensures Descendants(e)[k] != e
  {
    PreOrder(e, k);
  }

  /** Every child is visited, and the first visit is the first child. */
  lemma {:induction false} ChildrenVisited(e: XMLElement, j: nat)
    requires j < |e.children|
    ensures e.children[j] in Descendants(e)
    ensures Descendants(e)[0] == e.children[0]
  {
    ChildrenVisitedFrom(e, 0, j);
  }

  lemma {:induction false} ChildrenVisitedFrom(e: XMLElement, i: nat, j: nat)
    requires i <= j < |e.children|
    ensures e.children[j] in DescendantsFrom(e, i)
    decreases j - i
  {
    var ds := DescendantsFrom(e, i);
    assert ds == [e.children[i]] + Descendants(e.children[i]) + DescendantsFrom(e, i + 1);
    if i < j {
      ChildrenVisitedFrom(e, i + 1, j);
    }
  }

  // ---------------------------------------------------------------------------
  // Properties of the short-circuit

  /**
   * A run returns false only at some element k whose visit returned false
   * after every earlier visit returned true; the result is then fixed: no
   * element after k is visited, whatever follows it.
   */
  lemma {:induction false} RunSeqStopsAtFirstFalse<S>(xs: seq<XMLElement>, v: S, visit: Visit<S>) returns (k: nat)
    requires !RunSeq(xs, v, visit).0
    ensures k < |xs|
    ensures RunSeq(xs[..k], v, visit).0
    ensures !visit(StateBefore(xs, v, visit, k), xs[k]).0
    ensures RunSeq(xs, v, visit) == (false, visit(StateBefore(xs, v, visit, k), xs[k]).1)
    ensures RunSeq(xs[..k + 1], v, visit) == RunSeq(xs, v, visit)
  {
    var (ok, v1) := visit(v, xs[0]);
    assert xs[..0] == [];
    if !ok {
      k := 0;
      assert xs[..1][0] == xs[0];
    } else {
      var k' := RunSeqStopsAtFirstFalse(xs[1..], v1, visit);
      k := k' + 1;
      assert xs[..k][1..] == xs[1..][..k'];
      assert xs[..k] != [] && xs[..k][0] == xs[0];
      assert xs[k] == xs[1..][k'];
      assert xs[..k + 1][0] == xs[0];
      assert xs[..k + 1][1..] == xs[1..][..k' + 1];
    }
  }

  /** A run returns true exactly when every visit in it returned true. */
  lemma {:induction false} RunSeqTrueIffAllVisitsTrue<S>(xs: seq<XMLElement>, v: S, visit: Visit<S>)
    ensures RunSeq(xs, v, visit).0 <==>
      forall k :: 0 <= k < |xs| ==> visit(StateBefore(xs, v, visit, k), xs[k]).0
  {
    if xs != [] {
      var (ok, v1) := visit(v, xs[0]);
      assert xs[..0] == [];
      RunSeqTrueIffAllVisitsTrue(xs[1..], v1, visit);
      if ok {
        forall k | 1 <= k < |xs|
          ensures StateBefore(xs, v, visit, k) == StateBefore(xs[1..], v1, visit, k - 1)
        {
          assert xs[..k][1..] == xs[1..][..k - 1];
          assert xs[..k][0] == xs[0];
        }
        assert forall k :: 1 <= k < |xs| ==> xs[k] == xs[1..][k - 1];
        if forall k :: 0 <= k < |xs| ==> visit(StateBefore(xs, v, visit, k), xs[k]).0 {
          forall k | 0 <= k < |xs[1..]|
            ensures visit(StateBefore(xs[1..], v1, visit, k), xs[1..][k]).0
          {
            assert visit(StateBefore(xs, v, visit, k + 1), xs[k + 1]).0;
          }
        }
      }
    }
  }

  /** apply_visitor returns true exactly when every descendant's visit returned true. */
  lemma ApplyVisitorTrueIffAllVisitsTrue<S>(e: XMLElement, v: S, visit: Visit<S>)
    ensures ApplyVisitor(e, v, visit).0 <==>
      forall k :: 0 <= k < |Descendants(e)| ==>
        visit(StateBefore(Descendants(e), v, visit, k), Descendants(e)[k]).0
  {
    ApplyVisitorIsPreOrderRun(e, v, visit);
    RunSeqTrueIffAllVisitsTrue(Descendants(e), v, visit);
  }

  /** apply_visitor stops at the first false: nothing after that descendant is visited. */
  lemma ApplyVisitorStopsAtFirstFalse<S>(e: XMLElement, v: S, visit: Visit<S>) returns (k: nat)
    requires !ApplyVisitor(e, v, visit).0
    ensures k < |Descendants(e)|
    ensures RunSeq(Descendants(e)[..k], v, visit).0
    ensures !visit(StateBefore(Descendants(e), v, visit, k), Descendants(e)[k]).0
    ensures ApplyVisitor(e, v, visit) == (false, visit(StateBefore(Descendants(e), v, visit, k), Descendants(e)[k]).1)
    ensures RunSeq(Descendants(e)[..k + 1], v, visit) == ApplyVisitor(e, v, visit)
  {
    ApplyVisitorIsPreOrderRun(e, v, visit);
    k := RunSeqStopsAtFirstFalse(Descendants(e), v, visit);
  }

  // ---------------------------------------------------------------------------
  // AttributeVisitor

  /** The values of the attributes in attrs whose name is name. */
  function MatchingValues(attrs: seq<NVPair>, name: string): set<string> {
    set a | a in attrs && a.name == name :: a.value
  }

  /** AttributeVisitor::Element as a visit function. */
  function AttributeVisit(attrName: string): Visit<set<string>> {
    (values: set<string>, e: XMLElement) => (true, values + MatchingValues(e.attributes, attrName))
  }

  /** The values of the attributes named name on any element of xs. */
  function CollectedAttributes(xs: seq<XMLElement>, name: string): set<string> {
    set d, a | d in xs && a in d.attributes && a.name == name :: a.value
  }

  class AttributeVisitor {
    const attrName: string
    var valueList: set<string>

    constructor (n: string)
      ensures attrName == n && valueList == {}
    {
      attrName := n;
      valueList := {};
    }

    /** Inserts the value of every attribute of e named attrName; always returns true. */
    method Element(e: XMLElement) returns (r: bool)
      modifies this
      ensures (r, valueList) == AttributeVisit(attrName)(old(valueList), e)
    {
      var l := e.attributes;
      for i := 0 to |l|
        invariant valueList == old(valueList) + MatchingValues(l[..i], attrName)
      {
        if l[i].name == attrName {
          valueList := valueList + {l[i].value};
        }
        assert l[..i + 1] == l[..i] + [l[i]];
      }
      assert l[..|l|] == l;
      r := true;
    }
  }

  lemma {:induction false} RunAttributeVisit(xs: seq<XMLElement>, name: string, v: set<string>)
    ensures RunSeq(xs, v, AttributeVisit(name)) == (true, v + CollectedAttributes(xs, name))
  {
    if xs == [] {
      assert CollectedAttributes(xs, name) == {};
      assert v + {} == v;
    } else {
      var m := MatchingValues(xs[0].attributes, name);
      assert AttributeVisit(name)(v, xs[0]) == (true, v + m);
      RunAttributeVisit(xs[1..], name, v + m);
      assert RunSeq(xs, v, AttributeVisit(name)) == RunSeq(xs[1..], v + m, AttributeVisit(name));
      CollectedCons(xs, name);
      var c := CollectedAttributes(xs[1..], name);
      assert (v + m) + c == v + (m + c);
    }
  }

  lemma CollectedCons(xs: seq<XMLElement>, name: string)
    requires xs != []
    ensures CollectedAttributes(xs, name) ==
      MatchingValues(xs[0].attributes, name) + CollectedAttributes(xs[1..], name)
  {
    var lhs := CollectedAttributes(xs, name);
    var rhs := MatchingValues(xs[0].attributes, name) + CollectedAttributes(xs[1..], name);
    forall x | x in lhs ensures x in rhs {
      var d, a :| d in xs && a in d.attributes && a.name == name && a.value == x;
      if d != xs[0] {
        assert d in xs[1..];
      }
    }
    forall x | x in rhs ensures x in lhs {
      if x in MatchingValues(xs[0].attributes, name) {
        var a :| a in xs[0].attributes && a.name == name && a.value == x;
        assert xs[0] in xs;
      } else {
        var d, a :| d in xs[1..] && a in d.attributes && a.name == name && a.value == x;
        assert d in xs;
      }
    }
  }

  /**
   * With AttributeVisitor, apply_visitor returns true and adds to value_list
   * exactly the values of the matching attributes over all descendants of
   * the root (not the root's own attributes).
   */
  lemma AttributeVisitorCollects(root: XMLElement, name: string, v: set<string>)
    ensures ApplyVisitor(root, v, AttributeVisit(name)) == (true, v + CollectedAttributes(Descendants(root), name))
  {
    ApplyVisitorIsPreOrderRun(root, v, AttributeVisit(name));
    RunAttributeVisit(Descendants(root), name, v);
  }

  // ---------------------------------------------------------------------------
  // ElementVisitor

  /** ElementVisitor::Element as a visit function: it compares the element's body, not its name. */
  function ElementVisit(elementName: string): Visit<set<string>> {
    (values: set<string>, e: XMLElement) =>
      (true, if e.body == elementName then values + {e.body} else values)
  }

  class ElementVisitor {
    const elementName: string
    var valueList: set<string>

    constructor (n: string)
      ensures elementName == n && valueList == {}
    {
      elementName := n;
      valueList := {};
    }

    method Element(e: XMLElement) returns (r: bool)
      modifies this
      ensures (r, valueList) == ElementVisit(elementName)(old(valueList), e)
    {
      if e.body == elementName {
        valueList := valueList + {e.body};
      }
      r := true;
    }
  }

  lemma {:induction false} RunElementVisit(xs: seq<XMLElement>, name: string, v: set<string>)
    ensures RunSeq(xs, v, ElementVisit(name)).0
    ensures RunSeq(xs, v, ElementVisit(name)).1 ==
      v + (if exists k :: 0 <= k < |xs| && xs[k].body == name then {name} else {})
  {
    if xs != [] {
      var v1 := if xs[0].body == name then v + {name} else v;
      RunElementVisit(xs[1..], name, v1);
      if exists k :: 0 <= k < |xs[1..]| && xs[1..][k].body == name {
        var k :| 0 <= k < |xs[1..]| && xs[1..][k].body == name;
        assert xs[k + 1].body == name;
      }
      if xs[0].body != name && exists k :: 0 <= k < |xs| && xs[k].body == name {
        var k :| 0 <= k < |xs| && xs[k].body == name;
        assert xs[1..][k - 1].body == name;
      }
    }
  }

  /**
   * With ElementVisitor started empty, apply_visitor returns true and ends
   * with value_list = {element_name} if some descendant's body equals
   * element_name, and empty otherwise.
   */
  lemma ElementVisitorCollects(root: XMLElement, name: string)
    ensures var (ok, values) := ApplyVisitor(root, {}, ElementVisit(name));
      ok && values <= {name} &&
      (name in values <==> exists k :: 0 <= k < |Descendants(root)| && Descendants(root)[k].body == name)
  {
    ApplyVisitorIsPreOrderRun(root, {}, ElementVisit(name));
    RunElementVisit(Descendants(root), name, {});
  }
}
