/** Building the class tree from object model modules. A class starts with a copy of its
    parent's attributes, and an attribute that arrives later is pushed down to every
    descendant. The interaction classes and their parameters work the same way. */
module ClassTree {
  import opened Util

  /** `inserted` is the class's place in the order of insertion. */
  datatype Node = Node(parent: Option<nat>, inserted: nat, attributes: set<nat>, children: seq<nat>)

  type Tree = map<nat, Node>

  predicate ParentLinks(t: Tree) {
    forall c | c in t && t[c].parent.Some? ::
      && t[c].parent.value in t
      && t[t[c].parent.value].inserted < t[c].inserted
      && c in t[t[c].parent.value].children
  }

  predicate ChildLinks(t: Tree) {
    forall c, k | c in t && 0 <= k < |t[c].children| ::
      t[c].children[k] in t && t[t[c].children[k]].parent == Some(c)
  }

  predicate Shape(t: Tree) {
    ParentLinks(t) && ChildLinks(t) && forall c | c in t :: t[c].inserted < |t|
  }

  /** Class `a` is `c` itself or one of its ancestors. */
  predicate AtOrAbove(t: Tree, a: nat, c: nat)
    requires Shape(t) && c in t
    decreases t[c].inserted
  {
    a == c || (t[c].parent.Some? && AtOrAbove(t, a, t[c].parent.value))
  }

  predicate SameLinks(t: Tree, u: Tree) {
    && t.Keys == u.Keys
    && forall c | c in t ::
         t[c].parent == u[c].parent && t[c].inserted == u[c].inserted && t[c].children == u[c].children
  }

  lemma SameLinksKeepShape(t: Tree, u: Tree)
    requires Shape(t) && SameLinks(t, u)
    ensures Shape(u)
  {
    assert |t.Keys| == |u.Keys|;
    assert |t| == |t.Keys| && |u| == |u.Keys|;
  }

  lemma {:induction false} SameLinksSameAbove(t: Tree, u: Tree, a: nat, c: nat)
    requires Shape(t) && Shape(u) && SameLinks(t, u) && c in t
    ensures AtOrAbove(t, a, c) == AtOrAbove(u, a, c)
    decreases t[c].inserted
  {
    if t[c].parent.Some? { SameLinksSameAbove(t, u, a, t[c].parent.value); }
  }

  // -------------------------------------------------------------------- what is added

  function Plus(n: Node, a: nat): Node { n.(attributes := n.attributes + {a}) }

  /** Class `c` and all its descendants get attribute `a`. */
  function AddBelow(t: Tree, c: nat, a: nat): (u: Tree)
    requires Shape(t)
    ensures SameLinks(t, u) && Shape(u)
  {
    var u := map d | d in t :: if AtOrAbove(t, c, d) then Plus(t[d], a) else t[d];
    SameLinksKeepShape(t, u);
    u
  }

  /** The part of that which is done once `c` and its first `i` children are. */
  predicate Reached(t: Tree, c: nat, i: nat, d: nat)
    requires Shape(t) && c in t && i <= |t[c].children| && d in t
  {
    d == c || exists k | 0 <= k < i :: AtOrAbove(t, t[c].children[k], d)
  }

  ghost predicate AddedSoFar(t: Tree, u: Tree, c: nat, i: nat, a: nat)
    requires Shape(t) && c in t && i <= |t[c].children|
  {
    SameLinks(t, u) && forall d | d in t :: u[d] == if Reached(t, c, i, d) then Plus(t[d], a) else t[d]
  }

  /** A descendant is reached through one of the children. */
  lemma {:induction false} ThroughSomeChild(t: Tree, c: nat, d: nat)
    requires Shape(t) && c in t && d in t
    ensures AtOrAbove(t, c, d) <==> Reached(t, c, |t[c].children|, d)
    decreases t[d].inserted
  {
    if d != c {
      if t[d].parent.None? {
        forall k | 0 <= k < |t[c].children| ensures !AtOrAbove(t, t[c].children[k], d) {}
      } else {
        var p := t[d].parent.value;
        ThroughSomeChild(t, c, p);
        if p == c {
          var k :| 0 <= k < |t[c].children| && t[c].children[k] == d;
          assert AtOrAbove(t, t[c].children[k], d);
        } else if AtOrAbove(t, c, p) {
          var k :| 0 <= k < |t[c].children| && AtOrAbove(t, t[c].children[k], p);
          assert AtOrAbove(t, t[c].children[k], d);
        } else {
          forall k | 0 <= k < |t[c].children| ensures !AtOrAbove(t, t[c].children[k], d) {
            assert !AtOrAbove(t, t[c].children[k], p);
          }
        }
      }
    }
  }

  lemma {:induction false} AncestorsAreOlder(t: Tree, a: nat, c: nat)
    requires Shape(t) && c in t && AtOrAbove(t, a, c)
    ensures a in t && (a == c || t[a].inserted < t[c].inserted)
    decreases t[c].inserted
  {
    if a != c { AncestorsAreOlder(t, a, t[c].parent.value); }
  }

  /** Every class has its parent's attributes; the children of the `open` classes, whose
      turn has not come, may still miss some. */
  predicate DownwardClosed(t: Tree, open: set<nat>)
    requires Shape(t)
  {
    forall d | d in t && t[d].parent.Some? && t[d].parent.value !in open ::
      t[t[d].parent.value].attributes <= t[d].attributes
  }

  predicate AllOlder(t: Tree, open: set<nat>, c: nat)
    requires c in t
  {
    forall o | o in open :: o in t && t[o].inserted < t[c].inserted
  }

  /** Why returning early is sound: below a class that has the attribute, all have it. */
  lemma {:induction false} HasItBelow(t: Tree, open: set<nat>, c: nat, d: nat)
    requires Shape(t) && c in t && d in t && AtOrAbove(t, c, d)
    requires DownwardClosed(t, open) && AllOlder(t, open, c)
    ensures t[c].attributes <= t[d].attributes
    decreases t[d].inserted
  {
    if d != c {
      var p := t[d].parent.value;
      HasItBelow(t, open, c, p);
      AncestorsAreOlder(t, c, p);
    }
  }

  lemma AlreadyThere(t: Tree, open: set<nat>, c: nat, a: nat)
    requires Shape(t) && c in t && a in t[c].attributes
    requires DownwardClosed(t, open) && AllOlder(t, open, c)
    ensures AddBelow(t, c, a) == t
  {
    forall d | d in t && AtOrAbove(t, c, d) ensures Plus(t[d], a) == t[d] {
      HasItBelow(t, open, c, d);
      assert t[d].attributes + {a} == t[d].attributes;
    }
  }

  /** After `i` children, only `c` has joined the open classes. */
  lemma OnlyOpenAt(t: Tree, u: Tree, open: set<nat>, c: nat, i: nat, a: nat)
    requires Shape(t) && Shape(u) && c in t && i <= |t[c].children| && AddedSoFar(t, u, c, i, a)
    requires DownwardClosed(t, open)
    ensures DownwardClosed(u, open + {c})
  {
    forall d | d in u && u[d].parent.Some? && u[d].parent.value !in open + {c}
      ensures u[u[d].parent.value].attributes <= u[d].attributes
    {
      var p := t[d].parent.value;
      if Reached(t, c, i, p) {
        var k :| 0 <= k < i && AtOrAbove(t, t[c].children[k], p);
        assert AtOrAbove(t, t[c].children[k], d);
      }
    }
  }

  /** One more child done. */
  lemma NextChild(t: Tree, u: Tree, c: nat, i: nat, a: nat)
    requires Shape(t) && Shape(u) && c in t && i < |t[c].children| && AddedSoFar(t, u, c, i, a)
    ensures AddedSoFar(t, AddBelow(u, t[c].children[i], a), c, i + 1, a)
  {
    var child, w := t[c].children[i], AddBelow(u, t[c].children[i], a);
    forall d | d in t ensures w[d] == if Reached(t, c, i + 1, d) then Plus(t[d], a) else t[d] {
      SameLinksSameAbove(t, u, child, d);
      assert Plus(Plus(t[d], a), a) == Plus(t[d], a) by {
        assert t[d].attributes + {a} + {a} == t[d].attributes + {a};
      }
      assert Reached(t, c, i + 1, d) <==> Reached(t, c, i, d) || AtOrAbove(t, child, d);
    }
  }

  lemma AddedHere(t: Tree, c: nat, a: nat)
    requires Shape(t) && c in t
    ensures AddedSoFar(t, t[c := Plus(t[c], a)], c, 0, a)
  {}

  /** What the insertion into the next child asks for. */
  lemma ChildReady(t: Tree, u: Tree, open: set<nat>, c: nat, i: nat, a: nat)
    requires Shape(t) && c in t && i < |t[c].children| && AddedSoFar(t, u, c, i, a)
    requires DownwardClosed(t, open) && AllOlder(t, open, c)
    ensures var child := t[c].children[i];
            && Shape(u) && child in u && |u| == |t| && t[c].inserted < u[child].inserted < |u|
            && DownwardClosed(u, open + {c}) && AllOlder(u, open + {c}, child)
  {
    SameLinksKeepShape(t, u);
    OnlyOpenAt(t, u, open, c, i, a);
    assert t[t[c].children[i]].parent == Some(c);
    assert |t.Keys| == |t| && |u.Keys| == |u|;
  }

  lemma AllChildrenDone(t: Tree, u: Tree, c: nat, a: nat)
    requires Shape(t) && c in t && AddedSoFar(t, u, c, |t[c].children|, a)
    ensures u == AddBelow(t, c, a)
  {
    forall d | d in t ensures u[d] == AddBelow(t, c, a)[d] {
      ThroughSomeChild(t, c, d);
    }
  }

  // ----------------------------------------------------------------- inserting classes

  /** What a module says about a class: its handle, its parent and its own attributes. */
  datatype ClassModule = ClassModule(handle: nat, parent: Option<nat>, attributes: seq<nat>)

  /** The parent of a class that is new must be in the tree already. */
  predicate ParentFirst(t: Tree, m: ClassModule) {
    m.handle in t || m.parent.None? || m.parent.value in t
  }

  /** A new class without a parent. */
  function Rooted(t: Tree, h: nat): Tree { t[h := Node(None, |t|, {}, [])] }

  /** A new class with a copy of its parent's attributes, at the end of its children. */
  function Attached(t: Tree, h: nat, p: nat): Tree
    requires p in t
  {
    t[p := t[p].(children := t[p].children + [h])][h := Node(Some(p), |t|, t[p].attributes, [])]
  }

  function Opened(t: Tree, m: ClassModule): (u: Tree)
    requires Shape(t) && ParentFirst(t, m)
    ensures Shape(u) && m.handle in u
  {
    if m.handle in t then t
    else match m.parent
      case None => RootedShape(t, m.handle); Rooted(t, m.handle)
      case Some(p) => AttachedShape(t, m.handle, p); Attached(t, m.handle, p)
  }

  lemma OneMore(t: Tree, u: Tree, h: nat)
    requires h !in t && u.Keys == t.Keys + {h}
    ensures |u| == |t| + 1
  {
    assert |u.Keys| == |t.Keys| + 1;
    assert |u| == |u.Keys| && |t| == |t.Keys|;
  }

  lemma RootedShape(t: Tree, h: nat)
    requires Shape(t) && h !in t
    ensures Shape(Rooted(t, h))
  {
    OneMore(t, Rooted(t, h), h);
  }

  lemma AttachedShape(t: Tree, h: nat, p: nat)
    requires Shape(t) && h !in t && p in t
    ensures Shape(Attached(t, h, p))
  {
    AttachedInserted(t, h, p);
    AttachedParentLinks(t, h, p);
    AttachedChildLinks(t, h, p);
    hide ParentLinks, ChildLinks, Attached;
  }

  lemma AttachedInserted(t: Tree, h: nat, p: nat)
    requires Shape(t) && h !in t && p in t
    ensures forall c | c in Attached(t, h, p) :: Attached(t, h, p)[c].inserted < |Attached(t, h, p)|
  {
    hide ParentLinks, ChildLinks;
    OneMore(t, Attached(t, h, p), h);
  }

  lemma AttachedParentLinks(t: Tree, h: nat, p: nat)
    requires Shape(t) && h !in t && p in t
    ensures ParentLinks(Attached(t, h, p))
  {
    var u := Attached(t, h, p);
    AttachedKeeps(t, h, p);
    hide Attached, ChildLinks;
    forall c | c in u && u[c].parent.Some?
      ensures u[c].parent.value in u && u[u[c].parent.value].inserted < u[c].inserted
      ensures c in u[u[c].parent.value].children
    {
      if c != h {
        var was := t[t[c].parent.value].children;
        var k :| 0 <= k < |was| && was[k] == c;
        assert u[u[c].parent.value].children[k] == was[k];
      }
    }
  }

  /** What the new class is, and what the others keep. */
  lemma AttachedKeeps(t: Tree, h: nat, p: nat)
    requires Shape(t) && h !in t && p in t
    ensures var u := Attached(t, h, p);
            && u.Keys == t.Keys + {h} && u[h].parent == Some(p) && u[h].inserted == |t| && h in u[p].children
            && forall c | c in t ::
                 && u[c].parent == t[c].parent && u[c].inserted == t[c].inserted
                 && t[c].children <= u[c].children && t[c].inserted < |t|
  {
    hide ParentLinks, ChildLinks;
    assert Attached(t, h, p)[p].children[|t[p].children|] == h;
  }

  lemma AttachedChildLinks(t: Tree, h: nat, p: nat)
    requires Shape(t) && h !in t && p in t
    ensures ChildLinks(Attached(t, h, p))
  {
    var u := Attached(t, h, p);
    forall c, k | c in u && 0 <= k < |u[c].children|
      ensures u[c].children[k] in u && u[u[c].children[k]].parent == Some(c)
    {
      if c != h && (c != p || k < |t[p].children|) {
        assert u[c].children[k] == t[c].children[k] && t[c].children[k] in t;
      }
    }
  }

  function AddEach(t: Tree, c: nat, attributes: seq<nat>): (u: Tree)
    requires Shape(t)
    ensures Shape(u) && SameLinks(t, u)
    decreases |attributes|
  {
    if attributes == [] then t else AddEach(AddBelow(t, c, attributes[0]), c, attributes[1..])
  }

  /** Loading one class of a module: open it if it is new, then add its attributes. */
  function Load(t: Tree, m: ClassModule): (u: Tree)
    requires Shape(t) && ParentFirst(t, m)
    ensures Shape(u) && m.handle in u
  {
    AddEach(Opened(t, m), m.handle, m.attributes)
  }

  class FederateClasses {
    var classes: Tree

    constructor ()
      ensures classes == map[]
    {
      classes := map[];
    }

    /** ObjectClass::insertAttribute: stops where the attribute already is, and otherwise
        recurs into the children. `open` are the callers further up. */
    method InsertAttribute(c: nat, a: nat, ghost open: set<nat>)
      requires Shape(classes) && c in classes
      requires DownwardClosed(classes, open) && AllOlder(classes, open, c)
      modifies this
      ensures classes == AddBelow(old(classes), c, a)
      decreases |classes| - classes[c].inserted
    {
      hide Shape, DownwardClosed, AllOlder, AddBelow, AddedSoFar;
      ghost var t := classes;
      if a in classes[c].attributes {
        AlreadyThere(t, open, c, a);
        return;
      }
      var children := classes[c].children;
      classes := classes[c := Plus(classes[c], a)];
      AddedHere(t, c, a);
      for i := 0 to |children|
        invariant AddedSoFar(t, classes, c, i, a)
      {
        ChildReady(t, classes, open, c, i, a);
        NextChild(t, classes, c, i, a);
        InsertAttribute(children[i], a, open + {c});
      }
      AllChildrenDone(t, classes, c, a);
    }

    /** Federate::insertObjectClass. */
    method InsertObjectClass(m: ClassModule)
      requires Shape(classes) && DownwardClosed(classes, {}) && ParentFirst(classes, m)
      modifies this
      ensures classes == Load(old(classes), m)
      ensures Shape(classes) && DownwardClosed(classes, {})
    {
      hide AddBelow, DownwardClosed, Shape, Opened;
      OpenedClosed(classes, m);
      OpenClass(m);
      InsertAttributes(m.handle, m.attributes);
    }

    /** A class that is not there yet starts with what its parent has. */
    method OpenClass(m: ClassModule)
      requires Shape(classes) && ParentFirst(classes, m)
      modifies this
      ensures classes == Opened(old(classes), m)
    {
      hide Shape;
      if m.handle !in classes {
        var index := |classes|;
        if m.parent.None? {
          classes := classes[m.handle := Node(None, index, {}, [])];
        } else {
          var p := m.parent.value;
          var inherited := classes[p].attributes;
          classes := classes[p := classes[p].(children := classes[p].children + [m.handle])];
          classes := classes[m.handle := Node(Some(p), index, inherited, [])];
        }
      }
    }

    method InsertAttributes(c: nat, attributes: seq<nat>)
      requires Shape(classes) && c in classes && DownwardClosed(classes, {})
      modifies this
      ensures classes == AddEach(old(classes), c, attributes)
      ensures DownwardClosed(classes, {})
    {
      hide AddBelow, DownwardClosed, Shape;
      ghost var begun := classes;
      assert attributes[0..] == attributes;
      for i := 0 to |attributes|
        invariant Shape(classes) && c in classes && DownwardClosed(classes, {})
        invariant AddEach(classes, c, attributes[i..]) == AddEach(begun, c, attributes)
      {
        assert attributes[i..][1..] == attributes[i + 1..];
        AddBelowClosed(classes, c, attributes[i]);
        InsertAttribute(c, attributes[i], {});
      }
    }
  }

  lemma OpenedClosed(t: Tree, m: ClassModule)
    requires Shape(t) && DownwardClosed(t, {}) && ParentFirst(t, m)
    ensures DownwardClosed(Opened(t, m), {})
  {}

  lemma AddBelowClosed(t: Tree, c: nat, a: nat)
    requires Shape(t) && DownwardClosed(t, {})
    ensures DownwardClosed(AddBelow(t, c, a), {})
  {}

  // ----------------------------------------------------------------- what a class has

  predicate ParentsFirst(t: Tree, ms: seq<ClassModule>)
    requires Shape(t)
    decreases |ms|
  {
    ms == [] || (ParentFirst(t, ms[0]) && ParentsFirst(Load(t, ms[0]), ms[1..]))
  }

  function LoadAll(t: Tree, ms: seq<ClassModule>): (u: Tree)
    requires Shape(t) && ParentsFirst(t, ms)
    ensures Shape(u)
    decreases |ms|
  {
    if ms == [] then t else LoadAll(Load(t, ms[0]), ms[1..])
  }

  /** The attributes that some module lists for the class itself. */
  predicate DeclaredOn(ms: seq<ClassModule>, c: nat, a: nat) {
    exists i | 0 <= i < |ms| :: ms[i].handle == c && a in ms[i].attributes
  }

  predicate DeclaredAtOrAbove(t: Tree, ms: seq<ClassModule>, c: nat, a: nat)
    requires Shape(t) && c in t
    decreases t[c].inserted
  {
    DeclaredOn(ms, c, a) || (t[c].parent.Some? && DeclaredAtOrAbove(t, ms, t[c].parent.value, a))
  }

  /** A class has what is declared on it and what its parent has, and nothing else. */
  ghost predicate Inherits(t: Tree, ms: seq<ClassModule>)
    requires Shape(t)
  {
    forall c, a | c in t ::
      a in t[c].attributes <==>
        DeclaredOn(ms, c, a) || (t[c].parent.Some? && a in t[t[c].parent.value].attributes)
  }

  /** What is declared was inserted: nothing is declared for an absent class. */
  predicate OnlyOnPresent(t: Tree, ms: seq<ClassModule>) {
    forall i | 0 <= i < |ms| :: ms[i].handle in t
  }

  lemma DeclaredMore(ms: seq<ClassModule>, m: ClassModule, c: nat, a: nat)
    ensures DeclaredOn(ms + [m], c, a) <==> DeclaredOn(ms, c, a) || (m.handle == c && a in m.attributes)
  {
    var more := ms + [m];
    if DeclaredOn(ms, c, a) {
      var i :| 0 <= i < |ms| && ms[i].handle == c && a in ms[i].attributes;
      assert more[i] == ms[i];
    }
    if m.handle == c && a in m.attributes {
      assert more[|ms|] == m;
    }
  }

  lemma OpenedInherits(t: Tree, ms: seq<ClassModule>, m: ClassModule)
    requires Shape(t) && ParentFirst(t, m) && Inherits(t, ms) && OnlyOnPresent(t, ms)
    ensures var none := ClassModule(m.handle, m.parent, []);
            Inherits(Opened(t, m), ms + [none]) && OnlyOnPresent(Opened(t, m), ms + [none])
  {
    var u := Opened(t, m);
    var none := ClassModule(m.handle, m.parent, []);
    forall c, a | c in u
      ensures a in u[c].attributes <==>
        DeclaredOn(ms + [none], c, a) || (u[c].parent.Some? && a in u[u[c].parent.value].attributes)
    {
      DeclaredMore(ms, none, c, a);
      if c in t {
        assert t[c].attributes == u[c].attributes && t[c].parent == u[c].parent;
      } else {
        assert !DeclaredOn(ms, c, a);
      }
    }
  }

  lemma AddBelowInherits(t: Tree, ms: seq<ClassModule>, m: ClassModule, a: nat)
    requires Shape(t) && m.handle in t && Inherits(t, ms + [m])
    ensures Inherits(AddBelow(t, m.handle, a), ms + [m.(attributes := m.attributes + [a])])
  {
    var u, m' := AddBelow(t, m.handle, a), m.(attributes := m.attributes + [a]);
    forall c, x | c in u
      ensures x in u[c].attributes <==>
        DeclaredOn(ms + [m'], c, x) || (u[c].parent.Some? && x in u[u[c].parent.value].attributes)
    {
      DeclaredMore(ms, m, c, x);
      DeclaredMore(ms, m', c, x);
      assert x in t[c].attributes <==>
        DeclaredOn(ms + [m], c, x) || (t[c].parent.Some? && x in t[t[c].parent.value].attributes);
    }
  }

  lemma {:induction false} AddEachInherits(t: Tree, ms: seq<ClassModule>, m: ClassModule, more: seq<nat>)
    requires Shape(t) && m.handle in t && Inherits(t, ms + [m])
    ensures Inherits(AddEach(t, m.handle, more), ms + [m.(attributes := m.attributes + more)])
    decreases |more|
  {
    hide Inherits, Shape, AddBelow;
    if more == [] {
      assert m.attributes + more == m.attributes;
    } else {
      AddBelowInherits(t, ms, m, more[0]);
      var m1 := m.(attributes := m.attributes + [more[0]]);
      AddEachInherits(AddBelow(t, m.handle, more[0]), ms, m1, more[1..]);
      assert m1.attributes + more[1..] == m.attributes + more;
    }
  }

  lemma LoadInherits(t: Tree, ms: seq<ClassModule>, m: ClassModule)
    requires Shape(t) && ParentFirst(t, m) && Inherits(t, ms) && OnlyOnPresent(t, ms)
    ensures Inherits(Load(t, m), ms + [m]) && OnlyOnPresent(Load(t, m), ms + [m])
  {
    hide Shape, Inherits, AddEach, Opened, DeclaredOn;
    var none := ClassModule(m.handle, m.parent, []);
    OpenedInherits(t, ms, m);
    AddEachInherits(Opened(t, m), ms, none, m.attributes);
    assert none.(attributes := [] + m.attributes) == m;
    assert forall i | 0 <= i < |ms| :: (ms + [none])[i] == ms[i];
    assert forall i | 0 <= i < |ms| :: ms[i].handle in t;
  }

  lemma {:induction false} LoadAllInherits(t: Tree, before: seq<ClassModule>, ms: seq<ClassModule>)
    requires Shape(t) && ParentsFirst(t, ms) && Inherits(t, before) && OnlyOnPresent(t, before)
    ensures Inherits(LoadAll(t, ms), before + ms)
    decreases |ms|
  {
    hide Inherits, OnlyOnPresent, Load, Shape;
    if ms == [] {
      assert before + ms == before;
    } else {
      LoadInherits(t, before, ms[0]);
      LoadAllInherits(Load(t, ms[0]), before + [ms[0]], ms[1..]);
      assert before + [ms[0]] + ms[1..] == before + ms;
    }
  }

  lemma {:induction false} InheritedFromAbove(t: Tree, ms: seq<ClassModule>, c: nat, a: nat)
    requires Shape(t) && Inherits(t, ms) && c in t
    ensures a in t[c].attributes <==> DeclaredAtOrAbove(t, ms, c, a)
    decreases t[c].inserted
  {
    if t[c].parent.Some? { InheritedFromAbove(t, ms, t[c].parent.value, a); }
  }

  /** Main result: after any sequence of class insertions with parents first, however late
      an attribute was declared, the attributes of a class are exactly those declared on
      it or on one of its ancestors. */
  lemma AttributesAreInherited(ms: seq<ClassModule>, c: nat, a: nat)
    requires ParentsFirst(map[], ms) && c in LoadAll(map[], ms)
    ensures a in LoadAll(map[], ms)[c].attributes <==> DeclaredAtOrAbove(LoadAll(map[], ms), ms, c, a)
  {
    LoadAllInherits(map[], [], ms);
    assert [] + ms == ms;
    InheritedFromAbove(LoadAll(map[], ms), ms, c, a);
  }

  lemma {:induction false} AddEachAlreadyThere(t: Tree, c: nat, attributes: seq<nat>)
    requires Shape(t) && DownwardClosed(t, {}) && c in t
    requires forall i | 0 <= i < |attributes| :: attributes[i] in t[c].attributes
    ensures AddEach(t, c, attributes) == t
    decreases |attributes|
  {
    if attributes != [] {
      AlreadyThere(t, {}, c, attributes[0]);
      AddEachAlreadyThere(t, c, attributes[1..]);
    }
  }

  lemma {:induction false} AddEachHas(t: Tree, c: nat, attributes: seq<nat>)
    requires Shape(t) && DownwardClosed(t, {}) && c in t
    ensures DownwardClosed(AddEach(t, c, attributes), {})
    ensures t[c].attributes <= AddEach(t, c, attributes)[c].attributes
    ensures forall i | 0 <= i < |attributes| :: attributes[i] in AddEach(t, c, attributes)[c].attributes
    decreases |attributes|
  {
    if attributes != [] {
      AddBelowClosed(t, c, attributes[0]);
      AddEachHas(AddBelow(t, c, attributes[0]), c, attributes[1..]);
    }
  }

  /** Loading the same class once more changes nothing. */
  lemma LoadTwice(t: Tree, m: ClassModule)
    requires Shape(t) && DownwardClosed(t, {}) && ParentFirst(t, m)
    ensures ParentFirst(Load(t, m), m) && Load(Load(t, m), m) == Load(t, m)
  {
    OpenedClosed(t, m);
    AddEachHas(Opened(t, m), m.handle, m.attributes);
    AddEachAlreadyThere(Load(t, m), m.handle, m.attributes);
  }
}
