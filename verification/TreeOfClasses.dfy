/** The class list of a federate seen as the tree of `ClassTree`: what arrives during a run
    changes both in the same way. */
module TreeOfClasses {
  import opened Util
  import opened Declarations
  import opened FederateModel
  import ClassTree
  import ClassWalk

  /** The children of class `p` among the first `n` classes, in the order they came. */
  function ChildrenOf(classes: seq<ClassState>, p: nat, n: nat): seq<nat>
    requires n <= |classes|
  {
    if n == 0 then []
    else ChildrenOf(classes, p, n - 1) + if classes[n - 1].parent == Some(p) then [n - 1] else []
  }

  /** The handles of a class's attributes are contiguous. */
  function NodeOf(classes: seq<ClassState>, i: nat): ClassTree.Node
    requires i < |classes|
  {
    var c := classes[i];
    ClassTree.Node(c.parent, c.inserted, Range(0, |c.publication.levels|), ChildrenOf(classes, i, |classes|))
  }

  function TreeOf(classes: seq<ClassState>): ClassTree.Tree {
    map i | i in Range(0, |classes|) :: NodeOf(classes, i)
  }

  lemma {:induction false} ChildListed(classes: seq<ClassState>, p: nat, n: nat, i: nat)
    requires n <= |classes|
    ensures i in ChildrenOf(classes, p, n) <==> i < n && classes[i].parent == Some(p)
  {
    if n > 0 { ChildListed(classes, p, n - 1, i); }
  }

  lemma TreeSize(classes: seq<ClassState>)
    ensures |TreeOf(classes)| == |classes|
  {
    assert TreeOf(classes).Keys == Range(0, |classes|);
    assert |TreeOf(classes)| == |TreeOf(classes).Keys|;
  }

  lemma TreeShape(classes: seq<ClassState>)
    requires WellFormed(classes)
    ensures ClassTree.Shape(TreeOf(classes))
  {
    var t := TreeOf(classes);
    TreeSize(classes);
    forall i | i in t && t[i].parent.Some? ensures i in t[t[i].parent.value].children {
      ChildListed(classes, classes[i].parent.value, |classes|, i);
    }
    forall i, k | i in t && 0 <= k < |t[i].children|
      ensures t[i].children[k] in t && t[t[i].children[k]].parent == Some(i)
    {
      ChildListed(classes, i, |classes|, t[i].children[k]);
    }
  }

  /** Both say the same about ancestors. */
  lemma {:induction false} AboveAlike(classes: seq<ClassState>, a: nat, i: nat)
    requires WellFormed(classes) && ClassTree.Shape(TreeOf(classes)) && i < |classes|
    ensures ClassTree.AtOrAbove(TreeOf(classes), a, i) == ClassWalk.AtOrAbove(Links(classes), a, i)
    decreases classes[i].inserted
  {
    assert Links(classes)[i].parent == classes[i].parent == TreeOf(classes)[i].parent;
    if classes[i].parent.Some? { AboveAlike(classes, a, classes[i].parent.value); }
  }

  /** A class has at least as many attributes as any class above it. */
  lemma {:induction false} MoreBelow(classes: seq<ClassState>, a: nat, i: nat)
    requires WellFormed(classes) && a < |classes| && i < |classes| && ClassWalk.AtOrAbove(Links(classes), a, i)
    ensures |classes[a].publication.levels| <= |classes[i].publication.levels|
    decreases classes[i].inserted
  {
    assert Links(classes)[i].parent == classes[i].parent;
    if a != i { MoreBelow(classes, a, classes[i].parent.value); }
  }

  lemma {:induction false} SameChildren(a: seq<ClassState>, b: seq<ClassState>, p: nat, n: nat)
    requires n <= |a| && n <= |b| && forall i | 0 <= i < n :: a[i].parent == b[i].parent
    ensures ChildrenOf(a, p, n) == ChildrenOf(b, p, n)
  {
    if n > 0 { SameChildren(a, b, p, n - 1); }
  }

  /** An attribute that arrives for a class goes where the recursion down the tree puts it. */
  lemma AttributeGoesDown(classes: seq<ClassState>, c: nat)
    requires WellFormed(classes) && c < |classes|
    ensures ClassTree.Shape(TreeOf(classes))
    ensures TreeOf(WithAttribute(classes, c))
         == ClassTree.AddBelow(TreeOf(classes), c, |classes[c].publication.levels|)
  {
    TreeShape(classes);
    hide ClassTree.Shape, ClassTree.AtOrAbove, ClassTree.SameLinks, ClassTree.AddBelow;
    hide NodeOf, TreeOf, WithAttribute, WellFormed, Range;
    SameCount(classes, c);
    TreeNodes(classes);
    TreeNodes(WithAttribute(classes, c));
    var t, h := TreeOf(classes), |classes[c].publication.levels|;
    var u, v := TreeOf(WithAttribute(classes, c)), ClassTree.AddBelow(t, c, h);
    BelowNodes(t, c, h);
    forall i | 0 <= i < |classes| ensures u[i] == v[i] {
      NodeGoesDown(classes, c, i);
    }
    SameMap(u, v);
  }

  lemma BelowNodes(t: ClassTree.Tree, c: nat, a: nat)
    requires ClassTree.Shape(t)
    ensures var u := ClassTree.AddBelow(t, c, a);
            && (forall i :: i in u <==> i in t)
            && forall i | i in t ::
                 u[i] == if ClassTree.AtOrAbove(t, c, i) then ClassTree.Plus(t[i], a) else t[i]
  {}

  lemma SameCount(classes: seq<ClassState>, c: nat)
    requires WellFormed(classes) && c < |classes|
    ensures |WithAttribute(classes, c)| == |classes|
  {}

  lemma NodeGoesDown(classes: seq<ClassState>, c: nat, i: nat)
    requires WellFormed(classes) && c < |classes| && i < |classes| && ClassTree.Shape(TreeOf(classes))
    ensures var h := |classes[c].publication.levels|;
            NodeOf(WithAttribute(classes, c), i)
              == if ClassTree.AtOrAbove(TreeOf(classes), c, i) then ClassTree.Plus(NodeOf(classes, i), h)
                 else NodeOf(classes, i)
  {
    var h, n := |classes[c].publication.levels|, |classes[i].publication.levels|;
    AboveAlike(classes, c, i);
    hide ClassTree.Shape, ClassTree.AtOrAbove, ClassWalk.AtOrAbove, WellFormed, Range, ChildrenOf, TreeOf, WithAttribute;
    if ClassWalk.AtOrAbove(Links(classes), c, i) { MoreBelow(classes, c, i); }
    ClassAfter(classes, c, i);
    SameChildren(classes, WithAttribute(classes, c), i, |classes|);
    RangeMore(n, h);
  }

  lemma ClassAfter(classes: seq<ClassState>, c: nat, i: nat)
    requires WellFormed(classes) && c < |classes| && i < |classes|
    ensures var later := WithAttribute(classes, c);
            && |later| == |classes| && (forall k | 0 <= k < |classes| :: later[k].parent == classes[k].parent)
            && later[i].inserted == classes[i].inserted
            && |later[i].publication.levels|
                 == |classes[i].publication.levels| + (if GetsAttribute(classes, c, i) then 1 else 0)
  {
    hide WellFormed, GetsAttribute;
  }

  lemma RangeMore(n: nat, h: nat)
    ensures h == n ==> Range(0, n + 1) == Range(0, n) + {h}
    ensures h < n ==> Range(0, n) + {h} == Range(0, n)
  {}

  /** A class that arrives below another one is attached to the tree as its last child, with
      the attributes of its parent. */
  lemma ClassIsAttached(classes: seq<ClassState>, p: nat)
    requires WellFormed(classes) && p < |classes|
    ensures |classes| !in TreeOf(classes) && p in TreeOf(classes)
    ensures TreeOf(classes + [NewClass(classes, Some(p), 0)]) == ClassTree.Attached(TreeOf(classes), |classes|, p)
  {
    var later, n := classes + [NewClass(classes, Some(p), 0)], |classes|;
    hide WellFormed, Range, TreeOf, NodeOf, ClassTree.Attached;
    TreeSize(classes);
    TreeNodes(classes);
    TreeNodes(later);
    AttachedNodes(TreeOf(classes), n, p);
    var u, v := TreeOf(later), ClassTree.Attached(TreeOf(classes), n, p);
    forall i | 0 <= i <= n ensures u[i] == v[i] {
      if i < n { OldNode(classes, p, i); } else { NewNode(classes, p); }
    }
    SameMap(u, v);
  }

  lemma TreeNodes(classes: seq<ClassState>)
    ensures forall i :: i in TreeOf(classes) <==> 0 <= i < |classes|
    ensures forall i | 0 <= i < |classes| :: TreeOf(classes)[i] == NodeOf(classes, i)
  {
    hide NodeOf;
  }

  lemma SameMap(u: ClassTree.Tree, v: ClassTree.Tree)
    requires (forall i :: i in u <==> i in v) && forall i | i in u :: u[i] == v[i]
    ensures u == v
  {
    assert u.Keys == v.Keys;
  }

  lemma AttachedNodes(t: ClassTree.Tree, h: nat, p: nat)
    requires p in t && h !in t
    ensures var u := ClassTree.Attached(t, h, p);
            && (forall i :: i in u <==> i in t || i == h)
            && u[h] == ClassTree.Node(Some(p), |t|, t[p].attributes, [])
            && forall i | i in t :: u[i] == if i == p then t[i].(children := t[i].children + [h]) else t[i]
  {}

  lemma OldNode(classes: seq<ClassState>, p: nat, i: nat)
    requires p < |classes| && i < |classes|
    ensures var node := NodeOf(classes, i);
            NodeOf(classes + [NewClass(classes, Some(p), 0)], i)
              == if i == p then node.(children := node.children + [|classes|]) else node
  {
    hide Range;
    SameChildren(classes, classes + [NewClass(classes, Some(p), 0)], i, |classes|);
  }

  lemma NewNode(classes: seq<ClassState>, p: nat)
    requires WellFormed(classes) && p < |classes|
    ensures NodeOf(classes + [NewClass(classes, Some(p), 0)], |classes|)
         == ClassTree.Node(Some(p), |classes|, NodeOf(classes, p).attributes, [])
  {
    var later, n := classes + [NewClass(classes, Some(p), 0)], |classes|;
    ParentsThere(classes);
    hide WellFormed, Range;
    NoChildren(later, n, n + 1);
    assert AllOff(0) == [] && classes[p].publication.levels + [] == classes[p].publication.levels;
  }

  lemma ParentsThere(classes: seq<ClassState>)
    requires WellFormed(classes)
    ensures forall i | 0 <= i < |classes| :: classes[i].parent != Some(|classes|)
  {}

  lemma {:induction false} NoChildren(classes: seq<ClassState>, p: nat, n: nat)
    requires n <= |classes| && forall i | 0 <= i < n :: classes[i].parent != Some(p)
    ensures ChildrenOf(classes, p, n) == []
  {
    if n > 0 { NoChildren(classes, p, n - 1); }
  }

  /** Its own attributes then arrive one by one. */
  lemma OwnAttributesArrive(classes: seq<ClassState>, p: nat, own: nat)
    requires WellFormed(classes) && p < |classes|
    ensures WellFormed(classes + [NewClass(classes, Some(p), own)])
    ensures WithAttribute(classes + [NewClass(classes, Some(p), own)], |classes|)
         == classes + [NewClass(classes, Some(p), own + 1)]
  {
    var n := |classes|;
    var first := classes + [NewClass(classes, Some(p), own)];
    NewClassKeepsTree(classes, Some(p), own);
    forall i | 0 <= i < n ensures !ClassWalk.AtOrAbove(Links(first), n, i) {
      NotAboveOlder(first, n, i);
    }
    assert AllOff(own) + [OFF] == AllOff(own + 1);
    var d, e := classes[p].publication.levels, classes[p].subscription.levels;
    assert d + AllOff(own) + [OFF] == d + (AllOff(own) + [OFF]);
    assert e + AllOff(own) + [OFF] == e + (AllOff(own) + [OFF]);
  }

  lemma {:induction false} NotAboveOlder(classes: seq<ClassState>, a: nat, i: nat)
    requires WellFormed(classes) && a < |classes| && i < |classes| && i != a
    requires forall k | 0 <= k < |classes| :: classes[k].parent != Some(a)
    ensures !ClassWalk.AtOrAbove(Links(classes), a, i)
    decreases classes[i].inserted
  {
    assert Links(classes)[i].parent == classes[i].parent;
    if classes[i].parent.Some? { NotAboveOlder(classes, a, classes[i].parent.value); }
  }
}
