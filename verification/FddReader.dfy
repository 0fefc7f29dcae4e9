/** FDD1516EContentHandler: an XML reader that walks a schema tree along with the document
    and runs the builder from callbacks on schema nodes. What is modelled are the nodes
    that open and close classes, the leaves that name them, and ignored nodes. */
module FddReader {
  import opened Util
  import opened ModuleBuilder

  datatype Role = Plain | ObjectClass | InteractionClass | ObjectName | InteractionName | Ignored

  /** A schema node; with `recurse` it may contain itself. Sibling names decide in order. */
  datatype Schema = Schema(name: string, role: Role, recurse: bool, children: seq<Schema>)

  function FirstNamed(nodes: seq<Schema>, name: string): Option<Schema> {
    if nodes == [] then None
    else if nodes[0].name == name then Some(nodes[0])
    else FirstNamed(nodes[1..], name)
  }

  function Child(n: Schema, name: string): Option<Schema> {
    match FirstNamed(n.children, name)
    case Some(c) => Some(c)
    case None => if n.recurse && name == n.name then Some(n) else None
  }

  /** Node `i` of the list is the first one of that name. */
  predicate FirstOfName(nodes: seq<Schema>, i: nat, name: string) {
    i < |nodes| && nodes[i].name == name && forall j | 0 <= j < i :: nodes[j].name != name
  }

  predicate NoneOfName(nodes: seq<Schema>, name: string) { forall j | 0 <= j < |nodes| :: nodes[j].name != name }

  /** Where an element of that name has its place below a node: at the first child with the
      name, or else, if there is none, at the node itself if it recurs and has the name. */
  lemma ChildExactly(n: Schema, name: string)
    ensures forall i: nat :: FirstOfName(n.children, i, name) ==> Child(n, name) == Some(n.children[i])
    ensures NoneOfName(n.children, name) ==> Child(n, name) == if n.recurse && n.name == name then Some(n) else None
    ensures NoneOfName(n.children, name) || exists i: nat :: FirstOfName(n.children, i, name)
  {
    FirstNamedExactly(n.children, name);
    hide FirstNamed;
    if !NoneOfName(n.children, name) {
      var i: nat :| FirstOfName(n.children, i, name);
    }
  }

  lemma {:induction false} FirstNamedExactly(nodes: seq<Schema>, name: string)
    ensures forall i: nat :: FirstOfName(nodes, i, name) ==> FirstNamed(nodes, name) == Some(nodes[i])
    ensures NoneOfName(nodes, name) ==> FirstNamed(nodes, name) == None
    ensures !NoneOfName(nodes, name) ==> exists i: nat :: FirstOfName(nodes, i, name)
  {
    if nodes != [] {
      var rest := nodes[1..];
      FirstNamedExactly(rest, name);
      if nodes[0].name == name {
        assert FirstOfName(nodes, 0, name);
      } else {
        forall i: nat | FirstOfName(nodes, i, name) ensures FirstNamed(nodes, name) == Some(nodes[i]) {
          assert rest[i - 1] == nodes[i];
          forall j | 0 <= j < i - 1 ensures rest[j].name != name { assert rest[j] == nodes[j + 1]; }
          assert FirstOfName(rest, i - 1, name);
        }
        if NoneOfName(nodes, name) {
          forall j | 0 <= j < |rest| ensures rest[j].name != name { assert rest[j] == nodes[j + 1]; }
        } else {
          var j :| 0 <= j < |nodes| && nodes[j].name == name;
          assert rest[j - 1] == nodes[j];
          var i: nat :| FirstOfName(rest, i, name);
          forall k | 0 <= k < i + 1 ensures nodes[k].name != name { if k > 0 { assert nodes[k] == rest[k - 1]; } }
          assert nodes[i + 1] == rest[i];
          assert FirstOfName(nodes, i + 1, name);
        }
      }
    }
  }

  /** Class names are leaves right below their class. */
  predicate NamesInPlace(n: Schema) {
    && (n.recurse ==> n.role != ObjectName && n.role != InteractionName)
    && forall i | 0 <= i < |n.children| ::
         && (n.children[i].role == ObjectName ==> n.role == ObjectClass)
         && (n.children[i].role == InteractionName ==> n.role == InteractionClass)
         && NamesInPlace(n.children[i])
  }

  /** The root's start callback is never run, so the root must not need one. */
  predicate UsableRoot(root: Schema) { root.role == Plain && NamesInPlace(root) }

  lemma {:induction false} ChildInPlace(n: Schema, name: string)
    requires NamesInPlace(n) && Child(n, name).Some?
    ensures var c := Child(n, name).value;
            && c.name == name && NamesInPlace(c)
            && (c.role == ObjectName ==> n.role == ObjectClass)
            && (c.role == InteractionName ==> n.role == InteractionClass)
  {
    FirstNamedIsOne(n.children, name);
  }

  lemma {:induction false} FirstNamedIsOne(nodes: seq<Schema>, name: string)
    ensures FirstNamed(nodes, name).Some? ==> FirstNamed(nodes, name).value.name == name
    ensures FirstNamed(nodes, name).Some? ==>
              exists i | 0 <= i < |nodes| :: nodes[i] == FirstNamed(nodes, name).value
  {
    if nodes != [] && nodes[0].name != name {
      FirstNamedIsOne(nodes[1..], name);
      if FirstNamed(nodes[1..], name).Some? {
        var i :| 0 <= i < |nodes[1..]| && nodes[1..][i] == FirstNamed(nodes[1..], name).value;
        assert nodes[i + 1] == nodes[1..][i];
      }
    }
  }

  // -------------------------------------------------------------------------- the machine

  /** `End` carries the trimmed character data since the last end. */
  datatype Event = Start(name: string) | End(name: string, text: string)

  /** The innermost context is the last one. */
  datatype State = State(contexts: seq<Schema>, objects: Classes, interactions: Classes)

  function Top(s: State): Schema
    requires s.contexts != []
  {
    s.contexts[|s.contexts| - 1]
  }

  function Count(contexts: seq<Schema>, role: Role): nat {
    if contexts == [] then 0
    else Count(contexts[..|contexts| - 1], role) + if contexts[|contexts| - 1].role == role then 1 else 0
  }

  /** A name leaf sits on its class, the document's root is no leaf, and nothing is ever
      pushed on an ignored node. */
  ghost predicate Nested(contexts: seq<Schema>) {
    && (forall i | 0 <= i < |contexts| :: NamesInPlace(contexts[i]))
    && (forall i | 0 <= i < |contexts| - 1 :: contexts[i].role != Ignored)
    && (contexts != [] ==> contexts[0].role == Plain)
    && (forall i, j | 0 <= i < j < |contexts| && j == i + 1 ::
          && (contexts[j].role == ObjectName ==> contexts[i].role == ObjectClass)
          && (contexts[j].role == InteractionName ==> contexts[i].role == InteractionClass))
  }

  /** Closing an interaction class checks that it has one name. */
  ghost predicate ClosedNamed(c: Classes) {
    |c.parents| == |c.entries| && forall i | 0 <= i < |c.entries| && i !in c.stack :: |c.entries[i].name| == 1
  }

  /** The class stacks are as deep as there are class nodes on the context stack. */
  ghost predicate LockStep(s: State) {
    && s.objects.Valid() && s.interactions.Valid() && Nested(s.contexts) && ClosedNamed(s.interactions)
    && |s.objects.stack| == Count(s.contexts, ObjectClass)
    && |s.interactions.stack| == Count(s.contexts, InteractionClass)
  }

  lemma CountMore(contexts: seq<Schema>, n: Schema, role: Role)
    ensures Count(contexts + [n], role) == Count(contexts, role) + if n.role == role then 1 else 0
    ensures contexts != [] && contexts[|contexts| - 1].role == role ==> Count(contexts, role) > 0
  {
    assert (contexts + [n])[..|contexts|] == contexts;
  }

  /** Entering a schema node runs its start callback. */
  function Entered(s: State, n: Schema): State {
    var t := s.(contexts := s.contexts + [n]);
    match n.role
    case ObjectClass => t.(objects := Push(s.objects))
    case InteractionClass => t.(interactions := Push(s.interactions))
    case _ => t
  }

  function OnStart(s: State, root: Schema, name: string): Option<State> {
    if s.contexts == [] then
      if name == root.name then Some(s.(contexts := [root])) else None
    else if Top(s).role == Ignored then Some(s)
    else match Child(Top(s), name)
      case None => None
      case Some(n) => Some(Entered(s, n))
  }

  /** Leaving a schema node runs its end callback, or hands the text to the leaf's. */
  ghost function Left(s: State, text: string): Option<State>
    requires s.contexts != [] && LockStep(s)
  {
    LeafOnItsClass(s);
    var t := s.(contexts := s.contexts[..|s.contexts| - 1]);
    match Top(s).role
    case ObjectClass => Some(t.(objects := Pop(s.objects)))
    case InteractionClass =>
      var name := Current(s.interactions).name;
      if |name| != 1 || name[0] == "" then None else Some(t.(interactions := Pop(s.interactions)))
    case ObjectName => Some(t.(objects := WithName(s.objects, text)))
    case InteractionName => Some(t.(interactions := WithName(s.interactions, text)))
    case _ => Some(t)
  }

  ghost function OnEnd(s: State, name: string, text: string): Option<State>
    requires s.contexts != [] && LockStep(s)
  {
    if name != Top(s).name then
      if Top(s).role == Ignored then Some(s) else None
    else Left(s, text)
  }

  /** So a callback that asks for the current class always finds one. */
  lemma LeafOnItsClass(s: State)
    requires s.contexts != [] && LockStep(s)
    ensures Top(s).role in {ObjectClass, ObjectName} ==> s.objects.stack != []
    ensures Top(s).role in {InteractionClass, InteractionName} ==> s.interactions.stack != []
  {
    var n := |s.contexts| - 1;
    if n > 0 {
      var below := s.contexts[..n];
      CountMore(below, s.contexts[n], ObjectClass);
      CountMore(below, s.contexts[n], InteractionClass);
      assert s.contexts[n - 1] == below[n - 1];
    }
  }

  lemma PushValid(c: Classes)
    requires c.Valid()
    ensures Push(c).Valid() && (ClosedNamed(c) ==> ClosedNamed(Push(c)))
  {
    assert forall i :: i in Push(c).stack <==> i in c.stack || i == |c.entries|;
  }

  lemma NestedMore(contexts: seq<Schema>, n: Schema)
    requires Nested(contexts) && contexts != [] && contexts[|contexts| - 1].role != Ignored
    requires Child(contexts[|contexts| - 1], n.name) == Some(n)
    ensures Nested(contexts + [n])
  {
    hide NamesInPlace;
    ChildInPlace(contexts[|contexts| - 1], n.name);
  }

  lemma EnteredInStep(s: State, n: Schema)
    requires LockStep(s) && s.contexts != [] && Top(s).role != Ignored && Child(Top(s), n.name) == Some(n)
    ensures LockStep(Entered(s, n))
  {
    hide Nested, Classes.Valid, ClosedNamed, Child, Count;
    NestedMore(s.contexts, n);
    CountMore(s.contexts, n, ObjectClass);
    CountMore(s.contexts, n, InteractionClass);
    PushValid(s.objects);
    PushValid(s.interactions);
  }

  lemma RootInStep(s: State, root: Schema)
    requires LockStep(s) && UsableRoot(root) && s.contexts == []
    ensures LockStep(s.(contexts := [root]))
  {
    hide NamesInPlace, Classes.Valid, ClosedNamed;
    CountMore([], root, ObjectClass);
    CountMore([], root, InteractionClass);
    assert [] + [root] == [root];
  }

  lemma StartInStep(s: State, root: Schema, name: string)
    requires LockStep(s) && UsableRoot(root) && OnStart(s, root, name).Some?
    ensures LockStep(OnStart(s, root, name).value)
  {
    hide LockStep, NamesInPlace, Entered;
    if s.contexts == [] {
      RootInStep(s, root);
    } else if Top(s).role != Ignored {
      TopInPlace(s);
      ChildInPlace(Top(s), name);
      EnteredInStep(s, Child(Top(s), name).value);
    }
  }

  lemma NamedValid(c: Classes, text: string)
    requires c.Valid() && c.stack != []
    ensures WithName(c, text).Valid() && (ClosedNamed(c) ==> ClosedNamed(WithName(c, text)))
    ensures Pop(c).Valid() && (ClosedNamed(c) && |Current(c).name| == 1 ==> ClosedNamed(Pop(c)))
  {
    assert forall i :: i in c.stack <==> i in Pop(c).stack || i == c.Top().value;
  }

  lemma NestedLess(contexts: seq<Schema>)
    requires Nested(contexts) && contexts != []
    ensures Nested(contexts[..|contexts| - 1])
    ensures forall role :: Count(contexts, role)
              == Count(contexts[..|contexts| - 1], role) + if contexts[|contexts| - 1].role == role then 1 else 0
  {
    hide NamesInPlace;
  }

  lemma LeftInStep(s: State, text: string)
    requires LockStep(s) && s.contexts != [] && Left(s, text).Some?
    ensures LockStep(Left(s, text).value)
  {
    hide Nested, Classes.Valid, ClosedNamed, Count, WithName;
    NestedLess(s.contexts);
    LeafOnItsClass(s);
    if s.objects.stack != [] { NamedValid(s.objects, text); }
    if s.interactions.stack != [] { NamedValid(s.interactions, text); }
    if Top(s).role in {ObjectName, InteractionName} { NamedStack(s, text); }
  }

  lemma NamedStack(s: State, text: string)
    requires LockStep(s)
    ensures s.objects.stack != [] ==> WithName(s.objects, text).stack == s.objects.stack
    ensures s.interactions.stack != [] ==> WithName(s.interactions, text).stack == s.interactions.stack
  {}

  class Handler {
    const root: Schema
    var contextStack: seq<Schema>
    const objects: ClassList
    const interactions: ClassList

    ghost function View(): State
      reads this, objects, interactions
    {
      State(contextStack, objects.View(), interactions.View())
    }

    ghost predicate Valid()
      reads this, objects, interactions
    {
      objects != interactions && UsableRoot(root) && LockStep(View())
    }

    constructor (root: Schema)
      requires UsableRoot(root)
      ensures Valid() && this.root == root && fresh(objects) && fresh(interactions)
      ensures View() == State([], Classes([], [], []), Classes([], [], []))
    {
      this.root := root;
      contextStack := [];
      objects := new ClassList();
      interactions := new ClassList();
    }

    method StartElement(name: string) returns (ok: bool)
      requires Valid()
      modifies this, objects, interactions
      ensures ok <==> OnStart(old(View()), root, name).Some?
      ensures ok ==> Valid() && View() == OnStart(old(View()), root, name).value
    {
      if OnStart(View(), root, name).Some? { StartInStep(View(), root, name); }
      if contextStack == [] {
        if name != root.name { return false; }
        contextStack := [root];
        return true;
      }
      var current := contextStack[|contextStack| - 1];
      if current.role == Ignored { return true; }
      var child := Child(current, name);
      if child.None? { return false; }
      contextStack := contextStack + [child.value];
      match child.value.role {
        case ObjectClass => objects.PushClass();
        case InteractionClass => interactions.PushClass();
        case _ =>
      }
      ok := true;
    }

    /** The name leaves ask for a current class, which lock-step says is there. */
    method EndElement(name: string, text: string) returns (ok: bool)
      requires Valid() && contextStack != []
      modifies this, objects, interactions
      ensures ok <==> OnEnd(old(View()), name, text).Some?
      ensures ok ==> Valid() && View() == OnEnd(old(View()), name, text).value
    {
      hide Nested, ClosedNamed, Count, WithName, NamesInPlace;
      var current := contextStack[|contextStack| - 1];
      if name != current.name {
        return current.role == Ignored;
      }
      if Left(View(), text).Some? { LeftInStep(View(), text); }
      LeafOnItsClass(View());
      ok := true;
      match current.role {
        case ObjectClass => objects.PopClass();
        case InteractionClass =>
          var given := interactions.entries[interactions.stack[|interactions.stack| - 1]].name;
          if |given| != 1 || given[0] == "" { return false; }
          interactions.PopClass();
        case ObjectName => ok := objects.AddName(text);
        case InteractionName => ok := interactions.AddName(text);
        case _ =>
      }
      contextStack := contextStack[..|contextStack| - 1];
    }
  }

  // --------------------------------------------------------------------- whole documents

  datatype Element = Element(name: string, text: string, inner: seq<Element>)

  function EventsOf(es: seq<Element>): seq<Event> {
    if es == [] then []
    else [Start(es[0].name)] + (EventsOf(es[0].inner) + ([End(es[0].name, es[0].text)] + EventsOf(es[1..])))
  }

  ghost function Started(s: State, root: Schema, name: string): (r: Option<State>)
    requires LockStep(s) && UsableRoot(root)
    ensures r == OnStart(s, root, name) && (r.Some? ==> LockStep(r.value))
  {
    if OnStart(s, root, name).None? then None
    else StartInStep(s, root, name); OnStart(s, root, name)
  }

  ghost function Ended(s: State, name: string, text: string): (r: Option<State>)
    requires LockStep(s)
    ensures r.Some? ==> s.contexts != [] && r == OnEnd(s, name, text) && LockStep(r.value)
  {
    if s.contexts == [] || OnEnd(s, name, text).None? then None
    else if name == Top(s).name then LeftInStep(s, text); OnEnd(s, name, text)
    else OnEnd(s, name, text)
  }

  ghost function Read(s: State, root: Schema, events: seq<Event>): (r: Option<State>)
    requires LockStep(s) && UsableRoot(root)
    ensures r.Some? ==> LockStep(r.value)
    decreases |events|
  {
    if events == [] then Some(s)
    else match (match events[0] case Start(name) => Started(s, root, name) case End(name, text) => Ended(s, name, text))
      case None => None
      case Some(t) => Read(t, root, events[1..])
  }

  lemma {:induction false} ReadAppend(s: State, root: Schema, a: seq<Event>, b: seq<Event>)
    requires LockStep(s) && UsableRoot(root)
    ensures Read(s, root, a + b)
         == match Read(s, root, a) case None => None case Some(t) => Read(t, root, b)
    decreases |a|
  {
    hide LockStep, UsableRoot, Started, Ended;
    if a == [] {
      assert a + b == b;
    } else {
      assert (a + b)[1..] == a[1..] + b;
      var first := match a[0] case Start(name) => Started(s, root, name) case End(name, text) => Ended(s, name, text);
      if first.Some? { ReadAppend(first.value, root, a[1..], b); }
    }
  }

  /** What follows the content of the first element. */
  function Ending(es: seq<Element>): seq<Event>
    requires es != []
  {
    [End(es[0].name, es[0].text)] + EventsOf(es[1..])
  }

  /** Reading elements is entering the first one, reading its content, and going on. */
  lemma ReadStart(s: State, root: Schema, es: seq<Element>)
    requires LockStep(s) && UsableRoot(root) && es != []
    ensures Read(s, root, EventsOf(es))
         == match Started(s, root, es[0].name)
            case None => None
            case Some(s1) =>
              match Read(s1, root, EventsOf(es[0].inner))
              case None => None
              case Some(u) => Read(u, root, Ending(es))
  {
    hide LockStep, UsableRoot, Started, Ended;
    var inner := EventsOf(es[0].inner);
    assert EventsOf(es)[0] == Start(es[0].name) && EventsOf(es)[1..] == inner + Ending(es);
    var first := Started(s, root, es[0].name);
    if first.Some? { ReadAppend(first.value, root, inner, Ending(es)); }
  }

  lemma ReadEnd(u: State, root: Schema, es: seq<Element>)
    requires LockStep(u) && UsableRoot(root) && es != []
    ensures Read(u, root, Ending(es))
         == match Ended(u, es[0].name, es[0].text)
            case None => None
            case Some(w) => Read(w, root, EventsOf(es[1..]))
  {
    hide LockStep, UsableRoot, Started, Ended;
    assert Ending(es)[0] == End(es[0].name, es[0].text) && Ending(es)[1..] == EventsOf(es[1..]);
  }

  // --------------------------------------------------------------- the stack never deepens

  lemma EndedPops(u: State, name: string, text: string)
    requires LockStep(u) && Ended(u, name, text).Some?
    ensures var w := Ended(u, name, text).value;
            && u.contexts != [] && w.contexts <= u.contexts
            && (w.contexts == u.contexts <==> name != Top(u).name)
            && (Top(u).role != Ignored ==> |w.contexts| < |u.contexts|)
            && (name == Top(u).name ==> Left(u, text) == Some(w) && w.contexts == u.contexts[..|u.contexts| - 1])
            && (name != Top(u).name ==> w == u)
  {
    hide LockStep;
  }

  lemma StartedPushes(s: State, root: Schema, name: string)
    requires LockStep(s) && UsableRoot(root) && Started(s, root, name).Some?
    ensures var s1 := Started(s, root, name).value;
            if s.contexts != [] && Top(s).role == Ignored then s1 == s
            else s.contexts < s1.contexts && |s1.contexts| == |s.contexts| + 1 && Top(s1).name == name
    ensures s.contexts != [] && Top(s).role != Ignored ==>
              && Child(Top(s), name).Some?
              && Started(s, root, name).value == Entered(s, Child(Top(s), name).value)
  {
    hide NamesInPlace;
    if s.contexts != [] && Top(s).role != Ignored {
      TopInPlace(s);
      ChildInPlace(Top(s), name);
    }
  }

  lemma TopInPlace(s: State)
    requires LockStep(s) && s.contexts != []
    ensures NamesInPlace(Top(s))
  {}

  /** Whole elements leave at most the contexts that were there. */
  lemma {:induction false} NeverDeeper(s: State, root: Schema, es: seq<Element>)
    requires LockStep(s) && UsableRoot(root) && Read(s, root, EventsOf(es)).Some?
    ensures Read(s, root, EventsOf(es)).value.contexts <= s.contexts
    decreases es
  {
    hide LockStep, UsableRoot, Read, EventsOf, Ending, Started, Ended;
    if es == [] {
      ReadNothing(s, root);
    } else {
      ReadStart(s, root, es);
      var s1 := Started(s, root, es[0].name).value;
      StartedPushes(s, root, es[0].name);
      NeverDeeper(s1, root, es[0].inner);
      var u := Read(s1, root, EventsOf(es[0].inner)).value;
      ReadEnd(u, root, es);
      EndedPops(u, es[0].name, es[0].text);
      NeverDeeper(Ended(u, es[0].name, es[0].text).value, root, es[1..]);
    }
  }

  lemma ReadNothing(s: State, root: Schema)
    requires LockStep(s) && UsableRoot(root)
    ensures Read(s, root, EventsOf([])) == Some(s)
  {}

  // ----------------------------------------------------------------------- ignored subtrees

  /** No element of that name at any depth. */
  predicate NoneNamed(es: seq<Element>, name: string) {
    es == [] || (es[0].name != name && NoneNamed(es[0].inner, name) && NoneNamed(es[1..], name))
  }

  /** Below an ignored node elements without its name are skipped without a trace. */
  lemma {:induction false} IgnoredSkips(s: State, root: Schema, es: seq<Element>)
    requires LockStep(s) && UsableRoot(root) && s.contexts != []
    requires Top(s).role == Ignored && NoneNamed(es, Top(s).name)
    ensures Read(s, root, EventsOf(es)) == Some(s)
    decreases es
  {
    hide LockStep, UsableRoot, Read, EventsOf, Ending;
    if es == [] {
      ReadNothing(s, root);
    } else {
      ReadStart(s, root, es);
      IgnoredSkips(s, root, es[0].inner);
      ReadEnd(s, root, es);
      IgnoredSkips(s, root, es[1..]);
    }
  }

  /** But an end of the ignored node's own name is taken for its end, and what follows
      can only pop more. */
  lemma {:induction false} IgnoredPops(s: State, root: Schema, es: seq<Element>)
    requires LockStep(s) && UsableRoot(root) && s.contexts != []
    requires Top(s).role == Ignored && !NoneNamed(es, Top(s).name)
    requires Read(s, root, EventsOf(es)).Some?
    ensures |Read(s, root, EventsOf(es)).value.contexts| < |s.contexts|
    decreases es
  {
    hide LockStep, UsableRoot, Read, EventsOf, Ending, Ended;
    ReadStart(s, root, es);
    var u := Read(s, root, EventsOf(es[0].inner)).value;
    if NoneNamed(es[0].inner, Top(s).name) {
      IgnoredSkips(s, root, es[0].inner);
    } else {
      IgnoredPops(s, root, es[0].inner);
    }
    ReadEnd(u, root, es);
    EndedPops(u, es[0].name, es[0].text);
    var w := Ended(u, es[0].name, es[0].text).value;
    if w.contexts == s.contexts {
      IgnoredPops(s, root, es[1..]);
    } else {
      NeverDeeper(w, root, es[1..]);
    }
  }

  /** Exactly when the content of an ignored element leaves no trace. */
  lemma IgnoredExactly(s: State, root: Schema, es: seq<Element>)
    requires LockStep(s) && UsableRoot(root) && s.contexts != [] && Top(s).role == Ignored
    ensures Read(s, root, EventsOf(es)) == Some(s) <==> NoneNamed(es, Top(s).name)
  {
    hide Read;
    if NoneNamed(es, Top(s).name) {
      IgnoredSkips(s, root, es);
    } else if Read(s, root, EventsOf(es)).Some? {
      IgnoredPops(s, root, es);
    }
  }

  /** Where an ignored node's name is none of those around it, as in the schema that the
      reader is built with, an ignored element that repeats it is rejected at its own end. */
  lemma IgnoredApart(s: State, root: Schema, e: Element)
    requires LockStep(s) && UsableRoot(root) && s.contexts != [] && Top(s).role != Ignored
    requires Child(Top(s), e.name).Some? && Child(Top(s), e.name).value.role == Ignored
    requires forall i | 0 <= i < |s.contexts| :: s.contexts[i].name != e.name
    requires Read(s, root, EventsOf([e])).Some?
    ensures NoneNamed(e.inner, e.name)
  {
    hide LockStep, UsableRoot, Read, EventsOf, Ending, Child, NoneNamed;
    var es := [e];
    ReadStart(s, root, es);
    StartedPushes(s, root, e.name);
    var s1 := Started(s, root, e.name).value;
    var u := Read(s1, root, EventsOf(e.inner)).value;
    ReadEnd(u, root, es);
    EndedPops(u, e.name, e.text);
    if !NoneNamed(e.inner, e.name) {
      IgnoredPops(s1, root, e.inner);
      NeverDeeper(s1, root, e.inner);
      NonePushedOnIgnored(s);
      assert false;
    }
  }

  lemma NonePushedOnIgnored(s: State)
    requires LockStep(s) && s.contexts != [] && Top(s).role != Ignored
    ensures forall i | 0 <= i < |s.contexts| :: s.contexts[i].role != Ignored
  {
    hide NamesInPlace;
  }

  // ----------------------------------------------------------- what the elements should give

  /** No ignored element contains an element of its own name; `n` is what encloses `es`. */
  predicate CleanIn(n: Schema, es: seq<Element>)
    decreases es
  {
    if n.role == Ignored then NoneNamed(es, n.name)
    else
      es == [] ||
      ((Child(n, es[0].name).Some? ==> CleanIn(Child(n, es[0].name).value, es[0].inner)) && CleanIn(n, es[1..]))
  }

  function LeafOf(role: Role): Role { if role == ObjectClass then ObjectName else InteractionName }

  /** The texts of the name leaves right below a node. */
  function LeafTexts(role: Role, n: Schema, es: seq<Element>): seq<string> {
    if n.role == Ignored || es == [] then []
    else
      var c := Child(n, es[0].name);
      (if c.Some? && c.value.role == LeafOf(role) then [es[0].text] else []) + LeafTexts(role, n, es[1..])
  }

  /** The names of the classes of one role, in document order. */
  function NamesIn(role: Role, n: Schema, es: seq<Element>): seq<seq<string>>
    decreases es
  {
    if n.role == Ignored || es == [] then []
    else
      var first := match Child(n, es[0].name)
        case None => []
        case Some(c) =>
          (if c.role == role then [LeafTexts(role, c, es[0].inner)] else []) + NamesIn(role, c, es[0].inner);
      first + NamesIn(role, n, es[1..])
  }

  /** The parents that the classes of one role should have, in document order: each one's
      nearest enclosing class, numbered by document order as well. */
  function ParentsIn(role: Role, n: Schema, es: seq<Element>, enclosing: Option<nat>, next: nat): seq<Option<nat>>
    decreases es, 0
  {
    if n.role == Ignored || es == [] then []
    else
      var first := match Child(n, es[0].name)
        case None => []
        case Some(c) => FirstParents(role, c, es[0].inner, enclosing, next);
      first + ParentsIn(role, n, es[1..], enclosing, next + |first|)
  }

  function FirstParents(role: Role, c: Schema, inner: seq<Element>, enclosing: Option<nat>, next: nat): seq<Option<nat>>
    decreases inner, 1
  {
    if c.role == role then [enclosing] + ParentsIn(role, c, inner, Some(next), next + 1)
    else ParentsIn(role, c, inner, enclosing, next)
  }

  /** The current class, if there is one, gets more names. */
  function Renamed(names: seq<seq<string>>, top: Option<nat>, more: seq<string>): seq<seq<string>> {
    if top.Some? && top.value < |names| then names[top.value := names[top.value] + more] else names
  }

  /** From `k` to `l` the list of one role went through the elements `es` below node `n`. */
  ghost predicate ListInside(role: Role, n: Schema, es: seq<Element>, k: Classes, l: Classes) {
    && l.stack == k.stack
    && l.parents == k.parents + ParentsIn(role, n, es, k.Top(), |k.parents|)
    && NamesOf(l.entries) == Renamed(NamesOf(k.entries), k.Top(), LeafTexts(role, n, es)) + NamesIn(role, n, es)
  }

  /** From `k` to `l` it went through one element whose node is `c`. */
  ghost predicate ListAround(role: Role, c: Schema, e: Element, k: Classes, l: Classes) {
    && l.stack == k.stack
    && l.parents == k.parents + FirstParents(role, c, e.inner, k.Top(), |k.parents|)
    && NamesOf(l.entries)
         == Renamed(NamesOf(k.entries), k.Top(), if c.role == LeafOf(role) then [e.text] else [])
          + ((if c.role == role then [LeafTexts(role, c, e.inner)] else []) + NamesIn(role, c, e.inner))
  }

  /** From `s` to `t` whole elements were read inside the innermost context. */
  ghost predicate ReadInside(s: State, t: State, es: seq<Element>)
    requires s.contexts != []
  {
    && t.contexts == s.contexts
    && ListInside(ObjectClass, Top(s), es, s.objects, t.objects)
    && ListInside(InteractionClass, Top(s), es, s.interactions, t.interactions)
  }

  /** From `s` to `t` one element with node `c` was read inside the innermost context. */
  ghost predicate ReadAround(s: State, t: State, c: Schema, e: Element) {
    && t.contexts == s.contexts
    && ListAround(ObjectClass, c, e, s.objects, t.objects)
    && ListAround(InteractionClass, c, e, s.interactions, t.interactions)
  }

  // ------------------------------------------------------------------------ putting together

  /** Class names only stand right below their class. */
  lemma NoTexts(role: Role, n: Schema, es: seq<Element>)
    requires role in {ObjectClass, InteractionClass} && NamesInPlace(n) && n.role != role
    ensures LeafTexts(role, n, es) == []
  {
    hide NamesInPlace;
    if es != [] && Child(n, es[0].name).Some? { ChildInPlace(n, es[0].name); }
  }

  lemma RenamedTwice(names: seq<seq<string>>, added: seq<seq<string>>, top: Option<nat>, a: seq<string>, b: seq<string>)
    requires top.Some? ==> top.value < |names|
    ensures Renamed(Renamed(names, top, a) + added, top, b) == Renamed(names, top, a + b) + added
    ensures Renamed(names, top, []) == names
  {
    if top.Some? {
      assert names[top.value] + a + b == names[top.value] + (a + b);
      assert names[top.value] + [] == names[top.value];
      assert (Renamed(names, top, a) + added)[top.value] == names[top.value] + a;
    }
  }

  /** A class element opens a class, fills it and closes it. */
  lemma AroundClass(role: Role, c: Schema, e: Element, k: Classes, l: Classes, m: Classes)
    requires role in {ObjectClass, InteractionClass} && k.Valid() && |k.parents| == |k.entries| && c.role == role
    requires ListInside(role, c, e.inner, Push(k), l) && l.stack != [] && m == Pop(l)
    ensures ListAround(role, c, e, k, m)
  {
    hide ParentsIn, LeafTexts, NamesIn;
    var n := |k.entries|;
    var texts := LeafTexts(role, c, e.inner);
    assert NamesOf(Push(k).entries) == NamesOf(k.entries) + [[]];
    assert Push(k).Top() == Some(n) && [] + texts == texts;
    assert Renamed(NamesOf(k.entries) + [[]], Some(n), texts) == NamesOf(k.entries) + [texts];
    assert Renamed(NamesOf(k.entries), k.Top(), []) == NamesOf(k.entries) by {
      if k.Top().Some? && k.Top().value < n {
        assert NamesOf(k.entries)[k.Top().value] + [] == NamesOf(k.entries)[k.Top().value];
      }
    }
    assert Push(k).stack[..|k.stack|] == k.stack;
  }

  /** A name leaf gives its text to the current class. */
  lemma AroundName(role: Role, c: Schema, e: Element, k: Classes, l: Classes, m: Classes)
    requires role in {ObjectClass, InteractionClass} && k.Valid() && l.Valid() && k.stack != [] && l.stack != []
    requires NamesInPlace(c) && c.role == LeafOf(role)
    requires ListInside(role, c, e.inner, k, l) && m == WithName(l, e.text)
    ensures ListAround(role, c, e, k, m)
  {
    NoTexts(role, c, e.inner);
    NamedNames(l, e.text);
    TopInList(k);
    hide ParentsIn, LeafTexts, NamesIn, NamesInPlace, Renamed, WithName, NamesOf, Classes.Valid;
    var inside := NamesIn(role, c, e.inner);
    assert k.Top() == l.Top() && |NamesOf(k.entries)| == |k.entries|;
    RenamedTwice(NamesOf(k.entries), inside, k.Top(), [], [e.text]);
    assert [] + [e.text] == [e.text] && [] + inside == inside;
  }

  lemma NamedNames(l: Classes, text: string)
    requires l.Valid() && l.stack != []
    ensures var m := WithName(l, text);
            m.stack == l.stack && m.parents == l.parents
            && NamesOf(m.entries) == Renamed(NamesOf(l.entries), l.Top(), [text])
  {}

  /** Any other element leaves the list to what is inside it. */
  lemma AroundOther(role: Role, c: Schema, e: Element, k: Classes, l: Classes)
    requires role in {ObjectClass, InteractionClass}
    requires NamesInPlace(c) && c.role != role && c.role != LeafOf(role)
    requires ListInside(role, c, e.inner, k, l)
    ensures ListAround(role, c, e, k, l)
  {
    hide ParentsIn, LeafTexts, NamesIn, NamesInPlace, Renamed, NamesOf;
    NoTexts(role, c, e.inner);
    var inside := NamesIn(role, c, e.inner);
    assert [] + inside == inside;
  }

  /** Entering and leaving a node does to both lists what its element should. */
  lemma AroundElement(s: State, c: Schema, u: State, e: Element)
    requires LockStep(s) && LockStep(u) && s.contexts != [] && NamesInPlace(c)
    requires ReadInside(Entered(s, c), u, e.inner) && Left(u, e.text).Some?
    ensures ReadAround(s, Left(u, e.text).value, c, e)
  {
    hide ListInside, ListAround, NamesInPlace, Nested, ClosedNamed, Count, WithName, Push, Pop, Classes.Valid;
    var t := Left(u, e.text).value;
    assert Top(Entered(s, c)) == c && Top(u) == c;
    assert (s.contexts + [c])[..|s.contexts|] == s.contexts;
    LeafOnItsClass(u);
    ListsEven(s);
    InsideKeepsStack(ObjectClass, c, e.inner, Entered(s, c).objects, u.objects);
    InsideKeepsStack(InteractionClass, c, e.inner, Entered(s, c).interactions, u.interactions);
    match c.role
    case ObjectClass =>
      AroundClass(ObjectClass, c, e, s.objects, u.objects, t.objects);
      AroundOther(InteractionClass, c, e, s.interactions, u.interactions);
    case InteractionClass =>
      AroundOther(ObjectClass, c, e, s.objects, u.objects);
      AroundClass(InteractionClass, c, e, s.interactions, u.interactions, t.interactions);
    case ObjectName =>
      AroundName(ObjectClass, c, e, s.objects, u.objects, t.objects);
      AroundOther(InteractionClass, c, e, s.interactions, u.interactions);
    case InteractionName =>
      AroundOther(ObjectClass, c, e, s.objects, u.objects);
      AroundName(InteractionClass, c, e, s.interactions, u.interactions, t.interactions);
    case _ =>
      AroundOther(ObjectClass, c, e, s.objects, u.objects);
      AroundOther(InteractionClass, c, e, s.interactions, u.interactions);
  }

  lemma InsideKeepsStack(role: Role, n: Schema, es: seq<Element>, k: Classes, l: Classes)
    requires ListInside(role, n, es, k, l)
    ensures l.stack == k.stack
  {}

  lemma ListsEven(s: State)
    requires LockStep(s)
    ensures |s.objects.parents| == |s.objects.entries| && |s.interactions.parents| == |s.interactions.entries|
    ensures s.objects.Valid() && s.interactions.Valid()
  {}

  /** One element and those after it make the whole. */
  lemma JoinedList(role: Role, n: Schema, c: Schema, es: seq<Element>, k: Classes, l: Classes, m: Classes)
    requires k.Valid() && |k.parents| == |k.entries| && es != []
    requires n.role != Ignored && Child(n, es[0].name) == Some(c)
    requires ListAround(role, c, es[0], k, l) && ListInside(role, n, es[1..], l, m)
    ensures ListInside(role, n, es, k, m)
  {
    JoinedParents(role, n, c, es, k, l, m);
    JoinedNames(role, n, c, es);
    hide Child, FirstParents, ParentsIn, LeafTexts, NamesIn, Renamed, NamesOf;
    TopInList(k);
    assert l.Top() == k.Top() && |NamesOf(k.entries)| == |k.entries|;
    RenamedJoined(NamesOf(k.entries), NamesOf(l.entries), NamesOf(m.entries), k.Top(),
                  if c.role == LeafOf(role) then [es[0].text] else [],
                  (if c.role == role then [LeafTexts(role, c, es[0].inner)] else []) + NamesIn(role, c, es[0].inner),
                  LeafTexts(role, n, es[1..]), NamesIn(role, n, es[1..]));
  }

  lemma RenamedJoined(k: seq<seq<string>>, l: seq<seq<string>>, m: seq<seq<string>>, top: Option<nat>,
                      mine: seq<string>, added: seq<seq<string>>, later: seq<string>, after: seq<seq<string>>)
    requires top.Some? ==> top.value < |k|
    requires l == Renamed(k, top, mine) + added && m == Renamed(l, top, later) + after
    ensures m == Renamed(k, top, mine + later) + (added + after)
  {
    RenamedTwice(k, added, top, mine, later);
    hide Renamed;
    var both := Renamed(k, top, mine + later);
    assert (both + added) + after == both + (added + after);
  }

  lemma JoinedNames(role: Role, n: Schema, c: Schema, es: seq<Element>)
    requires es != [] && n.role != Ignored && Child(n, es[0].name) == Some(c)
    ensures LeafTexts(role, n, es)
         == (if c.role == LeafOf(role) then [es[0].text] else []) + LeafTexts(role, n, es[1..])
    ensures NamesIn(role, n, es)
         == (if c.role == role then [LeafTexts(role, c, es[0].inner)] else []) + NamesIn(role, c, es[0].inner)
          + NamesIn(role, n, es[1..])
  {
    hide Child;
  }

  lemma TopInList(k: Classes)
    requires k.Valid()
    ensures k.Top().Some? ==> k.Top().value < |k.entries|
  {}

  lemma JoinedParents(role: Role, n: Schema, c: Schema, es: seq<Element>, k: Classes, l: Classes, m: Classes)
    requires es != [] && n.role != Ignored && Child(n, es[0].name) == Some(c)
    requires ListAround(role, c, es[0], k, l) && ListInside(role, n, es[1..], l, m)
    ensures m.stack == k.stack && m.parents == k.parents + ParentsIn(role, n, es, k.Top(), |k.parents|)
  {
    hide FirstParents, NamesOf, LeafTexts, NamesIn, Renamed;
    var first := FirstParents(role, c, es[0].inner, k.Top(), |k.parents|);
    var rest := ParentsIn(role, n, es[1..], k.Top(), |k.parents| + |first|);
    assert ParentsIn(role, n, es, k.Top(), |k.parents|) == first + rest;
    assert k.parents + first + rest == k.parents + (first + rest);
  }

  lemma Joined(s: State, t: State, v: State, c: Schema, es: seq<Element>)
    requires LockStep(s) && s.contexts != [] && es != [] && Top(s).role != Ignored && Child(Top(s), es[0].name) == Some(c)
    requires ReadAround(s, t, c, es[0]) && ReadInside(t, v, es[1..])
    ensures ReadInside(s, v, es)
  {
    hide ListInside, ListAround, LockStep, Child, Classes.Valid;
    ListsEven(s);
    JoinedList(ObjectClass, Top(s), c, es, s.objects, t.objects, v.objects);
    JoinedList(InteractionClass, Top(s), c, es, s.interactions, t.interactions, v.interactions);
  }

  // ---------------------------------------------------------------------------- main results

  /** Main result: accepted whole elements leave the contexts as they were if and only if
      no ignored one contains its own name. Then the class stacks are as before, and each
      class was recorded under its nearest enclosing one, with the names it holds. */
  lemma {:induction false} ElementsRead(s: State, root: Schema, es: seq<Element>)
    requires LockStep(s) && UsableRoot(root) && s.contexts != [] && Top(s).role != Ignored
    requires Read(s, root, EventsOf(es)).Some?
    ensures Read(s, root, EventsOf(es)).value.contexts == s.contexts <==> CleanIn(Top(s), es)
    ensures CleanIn(Top(s), es) ==> ReadInside(s, Read(s, root, EventsOf(es)).value, es)
    decreases es, 0
  {
    hide LockStep, UsableRoot, Read, EventsOf, Ending, Started, Ended, Entered, Left, ReadInside, ReadAround, CleanIn;
    if es == [] {
      NothingRead(s, root);
    } else {
      ReadStart(s, root, es);
      StartedPushes(s, root, es[0].name);
      var c, s1 := Child(Top(s), es[0].name).value, Started(s, root, es[0].name).value;
      EnteredContexts(s, c);
      NeverDeeper(s1, root, es[0].inner);
      var u := Read(s1, root, EventsOf(es[0].inner)).value;
      ContentRead(s1, root, es[0].inner);
      ReadEnd(u, root, es);
      EndedPops(u, es[0].name, es[0].text);
      var t := Ended(u, es[0].name, es[0].text).value;
      CleanParts(Top(s), es, c);
      if u.contexts == s1.contexts {
        TopInPlace(s1);
        if CleanIn(c, es[0].inner) { AroundElement(s, c, u, es[0]); }
        assert t.contexts == s.contexts;
        ElementsRead(t, root, es[1..]);
        if CleanIn(Top(s), es) { Joined(s, t, Read(t, root, EventsOf(es[1..])).value, c, es); }
      } else {
        PoppedBelow(s, c, u, t);
        NeverDeeper(t, root, es[1..]);
      }
    }
  }

  /** The content of an element, ignored or not. */
  lemma {:induction false} ContentRead(s: State, root: Schema, es: seq<Element>)
    requires LockStep(s) && UsableRoot(root) && s.contexts != [] && Read(s, root, EventsOf(es)).Some?
    ensures Read(s, root, EventsOf(es)).value.contexts == s.contexts <==> CleanIn(Top(s), es)
    ensures CleanIn(Top(s), es) ==> ReadInside(s, Read(s, root, EventsOf(es)).value, es)
    decreases es, 1
  {
    hide LockStep, UsableRoot, Read, EventsOf;
    if Top(s).role == Ignored {
      IgnoredExactly(s, root, es);
      if !NoneNamed(es, Top(s).name) {
        IgnoredPops(s, root, es);
      } else {
        IgnoredInside(s, es);
      }
    } else {
      ElementsRead(s, root, es);
    }
  }

  lemma IgnoredInside(s: State, es: seq<Element>)
    requires s.contexts != [] && Top(s).role == Ignored
    ensures ReadInside(s, s, es)
  {
    hide Child;
    SameNames(s.objects);
    SameNames(s.interactions);
  }

  lemma SameNames(k: Classes)
    ensures Renamed(NamesOf(k.entries), k.Top(), []) + [] == NamesOf(k.entries)
  {
    var names := NamesOf(k.entries);
    if k.Top().Some? && k.Top().value < |names| { assert names[k.Top().value] + [] == names[k.Top().value]; }
  }

  lemma NothingRead(s: State, root: Schema)
    requires LockStep(s) && UsableRoot(root) && s.contexts != []
    ensures Read(s, root, EventsOf([])) == Some(s) && ReadInside(s, s, []) && CleanIn(Top(s), [])
  {
    SameNames(s.objects);
    SameNames(s.interactions);
  }

  lemma CleanParts(n: Schema, es: seq<Element>, c: Schema)
    requires es != [] && n.role != Ignored && Child(n, es[0].name) == Some(c)
    ensures CleanIn(n, es) <==> CleanIn(c, es[0].inner) && CleanIn(n, es[1..])
  {}

  lemma EnteredContexts(s: State, c: Schema)
    ensures Entered(s, c).contexts == s.contexts + [c] && Top(Entered(s, c)) == c
  {}

  /** Once an end was taken for another one, the enclosing element's end goes too far. */
  lemma PoppedBelow(s: State, c: Schema, u: State, t: State)
    requires LockStep(s) && s.contexts != [] && Top(s).role != Ignored
    requires u.contexts <= s.contexts + [c] && u.contexts != s.contexts + [c] && u.contexts != []
    requires t.contexts <= u.contexts && (Top(u).role != Ignored ==> |t.contexts| < |u.contexts|)
    ensures |t.contexts| < |s.contexts|
  {
    hide NamesInPlace;
    var n := |u.contexts| - 1;
    assert u.contexts[n] == (s.contexts + [c])[n] == s.contexts[n];
  }

  const Begin: State := State([], Classes([], [], []), Classes([], [], []))

  /** What a whole document gives: no open class, and the classes it has. */
  ghost predicate DocumentGives(root: Schema, document: Element, s: State) {
    && s.contexts == [] && s.objects.stack == [] && s.interactions.stack == []
    && s.objects.parents == ParentsIn(ObjectClass, root, document.inner, None, 0)
    && s.interactions.parents == ParentsIn(InteractionClass, root, document.inner, None, 0)
    && NamesOf(s.objects.entries) == NamesIn(ObjectClass, root, document.inner)
    && NamesOf(s.interactions.entries) == NamesIn(InteractionClass, root, document.inner)
  }

  /** Main result: every document that is accepted was read as it is nested, whatever the
      schema and whatever it ignores: all stacks end empty, and the classes have the parents
      and names of the document. One that repeats an ignored node's name inside that node
      is never accepted. */
  lemma DocumentRead(root: Schema, document: Element)
    requires UsableRoot(root) && Read(Begin, root, EventsOf([document])).Some?
    ensures document.name == root.name && CleanIn(root, document.inner)
    ensures DocumentGives(root, document, Read(Begin, root, EventsOf([document])).value)
  {
    hide LockStep, UsableRoot, Read, EventsOf, Ending, Ended, CleanIn, NamesIn, ParentsIn, Renamed, LeafTexts;
    BeginInStep();
    var es := [document];
    ReadStart(Begin, root, es);
    var s1 := Started(Begin, root, document.name).value;
    assert s1.contexts == [root] && Top(s1) == root;
    NeverDeeper(s1, root, document.inner);
    var u := Read(s1, root, EventsOf(document.inner)).value;
    ReadEnd(u, root, es);
    EndedPops(u, document.name, document.text);
    RootIsPlain(root);
    ElementsRead(s1, root, document.inner);
    assert u.contexts == [root];
    var t := Ended(u, document.name, document.text).value;
    assert es[1..] == [];
    ReadNothing(t, root);
    FromNothing(ObjectClass, root, document.inner, u.objects);
    FromNothing(InteractionClass, root, document.inner, u.interactions);
  }

  lemma BeginInStep()
    ensures LockStep(Begin)
  {}

  lemma RootIsPlain(root: Schema)
    requires UsableRoot(root)
    ensures root.role == Plain
  {}

  lemma FromNothing(role: Role, root: Schema, es: seq<Element>, l: Classes)
    requires ListInside(role, root, es, Classes([], [], []), l)
    ensures l.stack == [] && l.parents == ParentsIn(role, root, es, None, 0)
    ensures NamesOf(l.entries) == NamesIn(role, root, es)
  {
    hide ParentsIn, NamesIn, LeafTexts;
    assert NamesOf([]) == [];
  }

  // ------------------------------------------------------------------ which ones are accepted

  /** What closing a class asks of it: an interaction class has one name that is not empty. */
  predicate Closes(c: Schema, inner: seq<Element>) {
    c.role == InteractionClass ==>
      |LeafTexts(InteractionClass, c, inner)| == 1 && LeafTexts(InteractionClass, c, inner)[0] != ""
  }

  /** Every element outside ignored nodes has a place in the schema, and each interaction
      class has one name; `n` is the node that encloses `es`. */
  predicate Fits(n: Schema, es: seq<Element>)
    decreases es
  {
    n.role == Ignored || es == [] ||
    match Child(n, es[0].name)
    case None => false
    case Some(c) => Fits(c, es[0].inner) && Closes(c, es[0].inner) && Fits(n, es[1..])
  }

  lemma FitsParts(n: Schema, es: seq<Element>)
    requires es != [] && n.role != Ignored
    ensures Child(n, es[0].name) == None ==> !Fits(n, es)
    ensures forall c :: Child(n, es[0].name) == Some(c) ==>
              (Fits(n, es) <==> Fits(c, es[0].inner) && Closes(c, es[0].inner) && Fits(n, es[1..]))
  {}

  lemma StartedExactly(s: State, root: Schema, name: string)
    requires LockStep(s) && UsableRoot(root) && s.contexts != [] && Top(s).role != Ignored
    ensures Started(s, root, name).Some? <==> Child(Top(s), name).Some?
    ensures Child(Top(s), name).Some? ==> Started(s, root, name) == Some(Entered(s, Child(Top(s), name).value))
  {
    hide LockStep, UsableRoot;
  }

  /** Whether a class can be closed after its content was read. */
  lemma EndedExactly(s: State, c: Schema, u: State, e: Element)
    requires LockStep(s) && LockStep(u) && s.contexts != [] && c.name == e.name
    requires ReadInside(Entered(s, c), u, e.inner)
    ensures Ended(u, e.name, e.text).Some? <==> Closes(c, e.inner)
  {
    EnteredContexts(s, c);
    assert u.contexts != [] && Top(u) == c;
    LeafOnItsClass(u);
    hide NamesInPlace, Nested, Count, LeafTexts, NamesIn, ParentsIn, WithName;
    if c.role == InteractionClass { InnerName(s.interactions, c, e.inner, u.interactions); }
  }

  /** The name of the class that was opened last is what its name leaves say. */
  lemma InnerName(k: Classes, c: Schema, inner: seq<Element>, l: Classes)
    requires k.Valid() && l.Valid() && l.stack != [] && ListInside(InteractionClass, c, inner, Push(k), l)
    ensures Current(l).name == LeafTexts(InteractionClass, c, inner)
  {
    hide LeafTexts, NamesIn, ParentsIn;
    var n, texts := |k.entries|, LeafTexts(InteractionClass, c, inner);
    assert l.Top() == Push(k).Top() == Some(n);
    assert NamesOf(Push(k).entries) == NamesOf(k.entries) + [[]];
    assert [] + texts == texts;
    assert NamesOf(l.entries)[n] == texts;
  }

  /** Elements of which no ignored one repeats its own name are accepted if and only if they
      fit. */
  lemma {:induction false} ElementsAccepted(s: State, root: Schema, es: seq<Element>)
    requires LockStep(s) && UsableRoot(root) && s.contexts != [] && CleanIn(Top(s), es)
    ensures Read(s, root, EventsOf(es)).Some? <==> Fits(Top(s), es)
    decreases es
  {
    hide LockStep, UsableRoot, Read, EventsOf, Ending, Started, Ended, Entered, ReadInside, Child, Closes, CleanIn;
    if es == [] {
      ReadNothing(s, root);
    } else if Top(s).role == Ignored {
      IgnoredExactly(s, root, es);
      IgnoredClean(Top(s), es);
    } else {
      ReadStart(s, root, es);
      StartedExactly(s, root, es[0].name);
      FitsParts(Top(s), es);
      hide Fits;
      if Child(Top(s), es[0].name).Some? {
        var c := Child(Top(s), es[0].name).value;
        var s1 := Entered(s, c);
        EnteredContexts(s, c);
        CleanParts(Top(s), es, c);
        ElementsAccepted(s1, root, es[0].inner);
        if Fits(c, es[0].inner) {
          var u := Read(s1, root, EventsOf(es[0].inner)).value;
          ContentRead(s1, root, es[0].inner);
          TopInPlace(s);
          ChildInPlace(Top(s), es[0].name);
          EndedExactly(s, c, u, es[0]);
          ReadEnd(u, root, es);
          if Closes(c, es[0].inner) {
            EndedPops(u, es[0].name, es[0].text);
            var t := Ended(u, es[0].name, es[0].text).value;
            assert t.contexts == s.contexts;
            ElementsAccepted(t, root, es[1..]);
          }
        }
      }
    }
  }

  lemma IgnoredClean(n: Schema, es: seq<Element>)
    requires n.role == Ignored
    ensures CleanIn(n, es) <==> NoneNamed(es, n.name)
  {}

  /** Main result: a document is read to its end if and only if it has the root's name, each
      of its elements outside ignored ones has a place in the schema, no ignored element
      contains its own name, and each interaction class has one name that is not empty. */
  lemma DocumentAccepted(root: Schema, document: Element)
    requires UsableRoot(root)
    ensures LockStep(Begin)
    ensures Read(Begin, root, EventsOf([document])).Some?
       <==> document.name == root.name && CleanIn(root, document.inner) && Fits(root, document.inner)
  {
    hide LockStep, UsableRoot, Read, EventsOf, Ending, CleanIn, Fits;
    BeginInStep();
    if Read(Begin, root, EventsOf([document])).Some? { DocumentRead(root, document); }
    if document.name == root.name && CleanIn(root, document.inner) {
      RootIsPlain(root);
      var s1 := Started(Begin, root, root.name).value;
      RootStarted(root, root.name);
      ElementsAccepted(s1, root, document.inner);
      ReadStart(Begin, root, [document]);
      if Fits(root, document.inner) {
        ElementsRead(s1, root, document.inner);
        var u := Read(s1, root, EventsOf(document.inner)).value;
        ReadEnd(u, root, [document]);
        RootEnds(u, root, document.text);
        assert [document][1..] == [];
        ReadNothing(Ended(u, root.name, document.text).value, root);
      }
    }
  }

  lemma RootEnds(u: State, root: Schema, text: string)
    requires LockStep(u) && u.contexts == [root] && root.role == Plain
    ensures Ended(u, root.name, text).Some?
  {}

  /** The other way round, a document with an ignored element in itself is rejected, though
      each of its elements has a place in the schema. */
  lemma NestedIgnoredRejected()
    ensures var root := Schema("r", Plain, false, [Schema("x", Ignored, false, [])]);
            var document := Element("r", "", [Element("x", "", [Element("x", "", [])])]);
            && UsableRoot(root) && LockStep(Begin)
            && Read(Begin, root, EventsOf([document])) == None
  {
    var root := Schema("r", Plain, false, [Schema("x", Ignored, false, [])]);
    var twice := [Element("x", "", [Element("x", "", [])])];
    var document := Element("r", "", twice);
    BeginInStep();
    assert Child(root, "x") == Some(root.children[0]);
    assert !NoneNamed(twice[0].inner, "x");
    hide Read, EventsOf;
    if Read(Begin, root, EventsOf([document])).Some? { DocumentRead(root, document); }
  }

  // ------------------------------------------------------------- ends on an empty stack

  /** Reading comes to an end event with no context left. The code then takes the front of
      an empty list, of which C++ says nothing; `Read` gives up there as at an error. */
  ghost predicate Underflows(s: State, root: Schema, events: seq<Event>)
    requires LockStep(s) && UsableRoot(root)
    decreases |events|
  {
    events != [] &&
    match events[0]
    case Start(name) =>
      Started(s, root, name).Some? && Underflows(Started(s, root, name).value, root, events[1..])
    case End(name, text) =>
      s.contexts == [] ||
      (Ended(s, name, text).Some? && Underflows(Ended(s, name, text).value, root, events[1..]))
  }

  lemma {:induction false} UnderflowsAppend(s: State, root: Schema, a: seq<Event>, b: seq<Event>)
    requires LockStep(s) && UsableRoot(root)
    ensures Underflows(s, root, a + b)
       <==> Underflows(s, root, a) || (Read(s, root, a).Some? && Underflows(Read(s, root, a).value, root, b))
    ensures Read(s, root, a).Some? ==> !Underflows(s, root, a)
    decreases |a|
  {
    hide LockStep, UsableRoot, Started, Ended;
    if a == [] {
      assert a + b == b;
    } else {
      assert (a + b)[1..] == a[1..] + b;
      match a[0]
      case Start(name) =>
        if Started(s, root, name).Some? { UnderflowsAppend(Started(s, root, name).value, root, a[1..], b); }
      case End(name, text) =>
        EndedNeedsContext(s, name, text);
        if Ended(s, name, text).Some? { UnderflowsAppend(Ended(s, name, text).value, root, a[1..], b); }
    }
  }

  lemma EndedNeedsContext(s: State, name: string, text: string)
    requires LockStep(s)
    ensures Ended(s, name, text).Some? ==> s.contexts != []
  {}

  /** The root's context is only left at an end of the root's name. */
  predicate NoEndNamed(events: seq<Event>, name: string) {
    forall i | 0 <= i < |events| :: events[i].End? ==> events[i].name != name
  }

  lemma {:induction false} NoEnds(es: seq<Element>, name: string)
    requires NoneNamed(es, name)
    ensures NoEndNamed(EventsOf(es), name)
    decreases es
  {
    if es != [] {
      NoEnds(es[0].inner, name);
      NoEnds(es[1..], name);
    }
  }

  /** As long as no element of the root's name ends, the root's context stays. */
  lemma {:induction false} RootStays(s: State, root: Schema, events: seq<Event>)
    requires LockStep(s) && UsableRoot(root) && s.contexts != [] && s.contexts[0].name == root.name
    requires NoEndNamed(events, root.name)
    ensures !Underflows(s, root, events)
    ensures Read(s, root, events).Some? ==>
              && Read(s, root, events).value.contexts != []
              && Read(s, root, events).value.contexts[0].name == root.name
    decreases |events|
  {
    hide LockStep, UsableRoot, Started, Ended;
    if events != [] {
      assert NoEndNamed(events[1..], root.name);
      match events[0]
      case Start(name) =>
        if Started(s, root, name).Some? {
          StartedPushes(s, root, name);
          var t := Started(s, root, name).value;
          assert s.contexts <= t.contexts;
          RootStays(t, root, events[1..]);
        }
      case End(name, text) =>
        if Ended(s, name, text).Some? {
          EndedPops(s, name, text);
          EndKeepsRoot(s, name, text);
          RootStays(Ended(s, name, text).value, root, events[1..]);
        }
    }
  }

  lemma EndKeepsRoot(s: State, name: string, text: string)
    requires LockStep(s) && Ended(s, name, text).Some? && s.contexts[0].name != name
    ensures var t := Ended(s, name, text).value; t.contexts != [] && t.contexts[0] == s.contexts[0]
  {
    EndedPops(s, name, text);
  }

  lemma UnderflowStart(s: State, root: Schema, es: seq<Element>)
    requires LockStep(s) && UsableRoot(root) && es != []
    ensures Underflows(s, root, EventsOf(es)) <==>
              && Started(s, root, es[0].name).Some?
              && var s1 := Started(s, root, es[0].name).value;
                 (|| Underflows(s1, root, EventsOf(es[0].inner))
                  || (&& Read(s1, root, EventsOf(es[0].inner)).Some?
                      && Underflows(Read(s1, root, EventsOf(es[0].inner)).value, root, Ending(es))))
  {
    hide LockStep, UsableRoot, Started, Ended;
    var inner := EventsOf(es[0].inner);
    assert EventsOf(es)[0] == Start(es[0].name) && EventsOf(es)[1..] == inner + Ending(es);
    var first := Started(s, root, es[0].name);
    if first.Some? { UnderflowsAppend(first.value, root, inner, Ending(es)); }
  }

  lemma UnderflowEnd(u: State, root: Schema, es: seq<Element>)
    requires LockStep(u) && UsableRoot(root) && es != []
    ensures Underflows(u, root, Ending(es)) <==>
              || u.contexts == []
              || (&& Ended(u, es[0].name, es[0].text).Some?
                  && Underflows(Ended(u, es[0].name, es[0].text).value, root, EventsOf(es[1..])))
  {
    hide LockStep, UsableRoot, Started, Ended;
    assert Ending(es)[0] == End(es[0].name, es[0].text) && Ending(es)[1..] == EventsOf(es[1..]);
  }

  /** Clean elements never take a context that is not theirs. */
  lemma {:induction false} CleanNeverUnderflows(s: State, root: Schema, es: seq<Element>)
    requires LockStep(s) && UsableRoot(root) && s.contexts != [] && CleanIn(Top(s), es)
    ensures !Underflows(s, root, EventsOf(es))
    decreases es
  {
    hide LockStep, UsableRoot, Read, EventsOf, Ending, Started, Ended, Underflows, Child;
    if es == [] {
      NothingUnderflows(s, root);
    } else if Top(s).role == Ignored {
      IgnoredSkips(s, root, es);
      UnderflowsAppend(s, root, EventsOf(es), []);
    } else {
      UnderflowStart(s, root, es);
      if Started(s, root, es[0].name).Some? {
        StartedPushes(s, root, es[0].name);
        var c, s1 := Child(Top(s), es[0].name).value, Started(s, root, es[0].name).value;
        EnteredContexts(s, c);
        CleanParts(Top(s), es, c);
        CleanNeverUnderflows(s1, root, es[0].inner);
        if Read(s1, root, EventsOf(es[0].inner)).Some? {
          ContentRead(s1, root, es[0].inner);
          var u := Read(s1, root, EventsOf(es[0].inner)).value;
          UnderflowEnd(u, root, es);
          if Ended(u, es[0].name, es[0].text).Some? {
            EndedPops(u, es[0].name, es[0].text);
            var t := Ended(u, es[0].name, es[0].text).value;
            assert t.contexts == s.contexts;
            CleanNeverUnderflows(t, root, es[1..]);
          }
        }
      }
    }
  }

  lemma NothingUnderflows(s: State, root: Schema)
    requires LockStep(s) && UsableRoot(root)
    ensures !Underflows(s, root, EventsOf([]))
  {}

  /** A document comes to an end event with no context left only if it has an inner element
      of the root's name and an ignored element that contains its own. */
  lemma NoUnderflow(root: Schema, document: Element)
    requires UsableRoot(root)
    ensures LockStep(Begin)
    ensures Underflows(Begin, root, EventsOf([document])) ==>
              !NoneNamed(document.inner, root.name) && !CleanIn(root, document.inner)
  {
    hide LockStep, UsableRoot, Ended, Started, Read, EventsOf, Underflows, Ending, CleanIn;
    BeginInStep();
    var es := [document];
    UnderflowStart(Begin, root, es);
    if Started(Begin, root, document.name).Some? {
      RootStarted(root, document.name);
      var s1, inner := Started(Begin, root, document.name).value, EventsOf(document.inner);
      RootIsPlain(root);
      if NoneNamed(document.inner, root.name) {
        NoEnds(document.inner, root.name);
        RootStays(s1, root, inner);
      }
      if CleanIn(root, document.inner) {
        CleanNeverUnderflows(s1, root, document.inner);
        if Read(s1, root, inner).Some? { ElementsRead(s1, root, document.inner); }
      }
      if Read(s1, root, inner).Some? {
        var u := Read(s1, root, inner).value;
        UnderflowEnd(u, root, es);
        assert es[1..] == [];
        if Ended(u, document.name, document.text).Some? {
          NothingUnderflows(Ended(u, document.name, document.text).value, root);
        }
      }
    }
  }

  const SkippedNode: Schema := Schema("x", Ignored, false, [])
  const SkipRoot: Schema := Schema("r", Plain, false, [SkippedNode])
  const SkippedLeaf: Element := Element("x", "", [])
  const RootAgain: Element := Element("r", "", [SkippedLeaf])
  const SkippedOuter: Element := Element("x", "", [RootAgain])

  lemma SkipStarts()
    ensures LockStep(Begin) && UsableRoot(SkipRoot)
    ensures Started(Begin, SkipRoot, "r").Some?
    ensures var s1 := Started(Begin, SkipRoot, "r").value;
            Started(s1, SkipRoot, "x").Some? && Started(s1, SkipRoot, "x").value.contexts == [SkipRoot, SkippedNode]
  {
    BeginInStep();
    RootStarted(SkipRoot, "r");
    assert Child(SkipRoot, "x") == Some(SkippedNode);
  }

  /** Below the ignored node an element adds no context, but an end of its name takes one. */
  lemma SkipStep(s: State, root: Schema, name: string)
    requires LockStep(s) && s.contexts == [SkipRoot, SkippedNode] && UsableRoot(root)
    ensures Started(s, root, name) == Some(s)
    ensures Ended(s, "x", "").Some? && Ended(s, "x", "").value.contexts == [SkipRoot]
  {}

  lemma RootStep(s: State)
    requires LockStep(s) && s.contexts == [SkipRoot]
    ensures Ended(s, "r", "").Some? && Ended(s, "r", "").value.contexts == []
  {}

  /** The inner end of "x" is taken for the outer one, and that of "r" for the root's. */
  lemma SkippedContent(s: State, root: Schema)
    requires LockStep(s) && s.contexts == [SkipRoot, SkippedNode] && UsableRoot(root)
    ensures var r := Read(s, root, EventsOf([RootAgain])); r.Some? && r.value.contexts == []
  {
    hide LockStep, UsableRoot, Started, Ended, Read, EventsOf, Ending;
    assert [SkippedLeaf][1..] == [] && [RootAgain][1..] == [];
    SkipStep(s, root, "x");
    SkipStep(s, root, "r");
    var t := Ended(s, "x", "").value;
    ReadNothing(s, root);
    ReadNothing(t, root);
    ReadStart(s, root, [SkippedLeaf]);
    ReadEnd(s, root, [SkippedLeaf]);
    RootStep(t);
    ReadNothing(Ended(t, "r", "").value, root);
    ReadStart(s, root, [RootAgain]);
    ReadEnd(t, root, [RootAgain]);
  }

  /** And it does happen, to a document of four elements. */
  lemma RepeatedRootUnderflows()
    ensures UsableRoot(SkipRoot) && LockStep(Begin)
    ensures Underflows(Begin, SkipRoot, EventsOf([Element("r", "", [SkippedOuter])]))
  {
    SkipStarts();
    hide LockStep, UsableRoot, Started, Ended, Read, EventsOf, Ending, Underflows;
    var s1 := Started(Begin, SkipRoot, "r").value;
    var s2 := Started(s1, SkipRoot, "x").value;
    SkippedContent(s2, SkipRoot);
    UnderflowEnd(Read(s2, SkipRoot, EventsOf([RootAgain])).value, SkipRoot, [SkippedOuter]);
    UnderflowStart(s1, SkipRoot, [SkippedOuter]);
    UnderflowStart(Begin, SkipRoot, [Element("r", "", [SkippedOuter])]);
  }

  lemma RootStarted(root: Schema, name: string)
    requires UsableRoot(root) && LockStep(Begin) && Started(Begin, root, name).Some?
    ensures Started(Begin, root, name).value.contexts == [root] && name == root.name
  {}

  // ---------------------------------------------------------------- what validation asserts

  /** Name completion asserts that each nested class has one name. */
  ghost predicate Completable(c: Classes) {
    |c.parents| == |c.entries| && forall i | 0 <= i < |c.entries| && c.parents[i].Some? :: |c.entries[i].name| == 1
  }

  /** Interaction classes always meet that, as closing one checks it. Object classes meet it
      if and only if each nested one has exactly one name leaf in the document. */
  lemma DocumentCompletable(root: Schema, document: Element)
    requires UsableRoot(root) && Read(Begin, root, EventsOf([document])).Some?
    ensures var s := Read(Begin, root, EventsOf([document])).value;
            var parents := ParentsIn(ObjectClass, root, document.inner, None, 0);
            var names := NamesIn(ObjectClass, root, document.inner);
            && Completable(s.interactions) && |parents| == |names|
            && (Completable(s.objects) <==> forall i | 0 <= i < |names| && parents[i].Some? :: |names[i]| == 1)
  {
    hide Read, EventsOf, ParentsIn, NamesIn;
    DocumentRead(root, document);
    var s := Read(Begin, root, EventsOf([document])).value;
    ListsEven(s);
    assert forall i | 0 <= i < |s.objects.entries| :: NamesOf(s.objects.entries)[i] == s.objects.entries[i].name;
  }

  function RootOf(role: Role): string { if role == ObjectClass then OBJECT_ROOT else INTERACTION_ROOT }

  /** Main result, end to end: the classes of an accepted document come with parents listed
      before them, the interaction classes with one name each. If the object classes have
      that too and validation accepts, every class is named by its path through its
      enclosing classes in the document, under the root class. */
  lemma NamesOfDocument(root: Schema, document: Element, role: Role)
    requires UsableRoot(root) && role in {ObjectClass, InteractionClass}
    requires Read(Begin, root, EventsOf([document])).Some?
    ensures var parents := ParentsIn(role, root, document.inner, None, 0);
            var own := NamesIn(role, root, document.inner);
            && ParentsBefore(parents) && |parents| == |own|
            && (role == InteractionClass ==> OneNameEach(own))
            && (OneNameEach(own) && Acceptable(Paths(parents, own)) ==>
                  NamedByPaths(FullNames(parents, own, RootOf(role)), Paths(parents, own), RootOf(role)))
  {
    hide Read, EventsOf, ParentsIn, NamesIn, Acceptable, FullNames, NeedsRoot, PrefixClosed, Distinct, LockStep;
    BeginInStep();
    DocumentRead(root, document);
    var s := Read(Begin, root, EventsOf([document])).value;
    ListsEven(s);
    AllInteractionsNamed(s);
    var parents, own := ParentsIn(role, root, document.inner, None, 0), NamesIn(role, root, document.inner);
    if OneNameEach(own) && Acceptable(Paths(parents, own)) {
      AcceptedNames(parents, own, RootOf(role));
    }
  }

  lemma AllInteractionsNamed(s: State)
    requires LockStep(s) && s.contexts == []
    ensures OneNameEach(NamesOf(s.interactions.entries))
  {}

  const NameLeaf: Schema := Schema("name", ObjectName, false, [])
  const ClassNode: Schema := Schema("objectClass", ObjectClass, true, [NameLeaf])
  const SmallRoot: Schema := Schema("objects", Plain, false, [ClassNode])
  const Nameless: Element := Element("objectClass", "", [])
  const NamelessInside: Element := Element("objectClass", "", [Nameless])

  lemma SmallSchema()
    ensures UsableRoot(SmallRoot)
    ensures Child(SmallRoot, "objectClass") == Some(ClassNode) && Child(ClassNode, "objectClass") == Some(ClassNode)
  {
    assert NamesInPlace(NameLeaf);
    assert NamesInPlace(ClassNode);
    assert NameLeaf.name[0] == 'n';
    assert FirstNamed([NameLeaf][1..], "objectClass") == None;
  }

  lemma NamelessNames()
    ensures NamesIn(ObjectClass, SmallRoot, [NamelessInside]) == [[], []]
    ensures ParentsIn(ObjectClass, SmallRoot, [NamelessInside], None, 0) == [None, Some(0)]
  {
    SmallSchema();
    hide Child;
    assert LeafTexts(ObjectClass, ClassNode, [Nameless]) == LeafTexts(ObjectClass, ClassNode, []);
    assert NamesIn(ObjectClass, ClassNode, [Nameless]) == [[]];
    assert ParentsIn(ObjectClass, ClassNode, [Nameless], Some(0), 1) == [Some(0)];
  }

  /** A nested object class without a name is accepted and then breaks name completion,
      which takes its first name without asking. */
  lemma NamelessClassAccepted()
    ensures var document := Element("objects", "", [NamelessInside]);
            && UsableRoot(SmallRoot) && LockStep(Begin)
            && Read(Begin, SmallRoot, EventsOf([document])).Some?
            && !Completable(Read(Begin, SmallRoot, EventsOf([document])).value.objects)
  {
    var document := Element("objects", "", [NamelessInside]);
    SmallSchema();
    hide LockStep, UsableRoot, Child, NamesInPlace, EventsOf, Read;
    assert Fits(ClassNode, [Nameless]) && CleanIn(ClassNode, [Nameless]) by { assert [Nameless][1..] == []; }
    assert Fits(SmallRoot, [NamelessInside]) && CleanIn(SmallRoot, [NamelessInside]) by {
      assert [NamelessInside][1..] == [];
    }
    DocumentAccepted(SmallRoot, document);
    DocumentCompletable(SmallRoot, document);
    NamelessNames();
    hide NamesIn, ParentsIn;
    var names, parents := NamesIn(ObjectClass, SmallRoot, document.inner), ParentsIn(ObjectClass, SmallRoot, document.inner, None, 0);
    assert parents[1] == Some(0) && |names[1]| == 0;
  }

  const InteractionLeaf: Schema := Schema("name", InteractionName, false, [])
  const InteractionNode: Schema := Schema("interactionClass", InteractionClass, true, [InteractionLeaf])
  const InteractionsRoot: Schema := Schema("interactions", Plain, false, [InteractionNode])

  function Named(name: string, inside: seq<Element>): Element {
    Element("interactionClass", "", [Element("name", name, [])] + inside)
  }

  lemma InteractionSchema()
    ensures UsableRoot(InteractionsRoot)
    ensures Child(InteractionsRoot, "interactionClass") == Some(InteractionNode)
    ensures Child(InteractionNode, "interactionClass") == Some(InteractionNode)
    ensures Child(InteractionNode, "name") == Some(InteractionLeaf)
  {
    assert NamesInPlace(InteractionLeaf);
    assert NamesInPlace(InteractionNode);
    assert InteractionLeaf.name[0] == 'n';
    assert FirstNamed([InteractionLeaf][1..], "interactionClass") == None;
  }

  /** A named class fits where a class may stand, and so does one inside it. */
  lemma NamedFits(n: Schema, name: string, inside: seq<Element>)
    requires n in {InteractionsRoot, InteractionNode} && name != ""
    requires Fits(InteractionNode, inside) && CleanIn(InteractionNode, inside)
    requires LeafTexts(InteractionClass, InteractionNode, inside) == []
    ensures Fits(n, [Named(name, inside)]) && CleanIn(n, [Named(name, inside)])
    ensures LeafTexts(InteractionClass, n, [Named(name, inside)]) == []
  {
    InteractionSchema();
    hide Child, NamesInPlace;
    var all := [Element("name", name, [])] + inside;
    assert all[1..] == inside && [Named(name, inside)][1..] == [];
    assert Fits(InteractionLeaf, []) && CleanIn(InteractionLeaf, []) && Closes(InteractionLeaf, []);
    assert LeafTexts(InteractionClass, InteractionNode, all) == [name] + [];
    assert Fits(InteractionNode, all) && CleanIn(InteractionNode, all);
    assert Closes(InteractionNode, all);
    assert LeafTexts(InteractionClass, n, []) == [] && Fits(n, []) && CleanIn(n, []);
  }

  /** Two interaction classes, one inside the other, are read as such. */
  lemma NestedInteractionsAccepted()
    ensures var document := Element("interactions", "", [Named("HLAinteractionRoot", [Named("A", [])])]);
            && UsableRoot(InteractionsRoot) && LockStep(Begin)
            && Read(Begin, InteractionsRoot, EventsOf([document])).Some?
  {
    InteractionSchema();
    hide LockStep, UsableRoot, Read, Child, Named;
    NamedFits(InteractionNode, "A", []);
    NamedFits(InteractionsRoot, "HLAinteractionRoot", [Named("A", [])]);
    hide Fits, CleanIn, EventsOf;
    DocumentAccepted(InteractionsRoot, Element("interactions", "", [Named("HLAinteractionRoot", [Named("A", [])])]));
  }
}
