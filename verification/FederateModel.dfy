/** The federate's local object model as a value, and what each service call does to it.
    `Ambassador` proves the in-place code against `Step`; the theorem modules reason
    about runs of `Step`. */
module FederateModel {
  import opened Util
  import opened Declarations
  import opened ClassWalk

  /** An object class with its two declarations. `inserted` is its place in the order in
      which classes entered the tree; a parent is always there before its children. */
  datatype ClassState = ClassState(parent: Option<nat>, inserted: nat,
                                   publication: Declaration, subscription: Declaration)

  /** A known instance, at the class it is known at, with one ownership flag per attribute. */
  datatype Instance = Instance(name: string, objectClass: nat, owned: seq<bool>) {
    predicate OwnedByFederate() { owned != [] && owned[0] }
  }

  datatype Message =
    | ChangePublication(objectClass: nat, level: Level, attributes: seq<nat>)
    | ChangeSubscription(objectClass: nat, level: Level, attributes: seq<nat>)
    | RequestHandles(count: nat)
    | InsertInstance(handle: nat, objectClass: nat, name: string, attributes: seq<nat>)
    | DeleteInstance(handle: nat)
    | ReleaseHandles(handles: seq<nat>)

  datatype Federate = Federate(classes: seq<ClassState>,
                               instances: map<nat, Instance>,
                               names: map<string, nat>,
                               free: map<string, nat>,
                               reserved: map<string, nat>,
                               sent: seq<Message>)

  datatype Pair = Pair(handle: nat, name: string)

  datatype Call =
    | Publish(objectClass: nat, attributes: seq<nat>)
    | UnpublishClass(objectClass: nat)
    | UnpublishAttributes(objectClass: nat, attributes: seq<nat>)
    | Subscribe(objectClass: nat, attributes: seq<nat>, active: bool)
    | UnsubscribeClass(objectClass: nat)
    | UnsubscribeAttributes(objectClass: nat, attributes: seq<nat>)
    | HandlesGranted(pairs: seq<Pair>)
    | NamesGranted(pairs: seq<Pair>)
    | ReleaseName(name: string)
    | ReleaseNames(nameSet: set<string>)
    | Register(objectClass: nat)
    | RegisterNamed(objectClass: nat, name: string, allowUnreserved: bool, reply: Option<nat>)
    | Delete(handle: nat)
    | InsertArrived(handle: nat, name: string, objectClass: nat)
    | RemoveArrived(handle: nat)
    // what a module that arrives during the execution adds to the class tree
    | ClassArrived(parent: Option<nat>, own: nat)
    | AttributeArrived(objectClass: nat)

  datatype Outcome =
    | Done
    | ObjectClassNotDefined
    | AttributeNotDefined
    | ObjectClassNotPublished
    | NameNotReserved
    | NameInUse
    | NoFreeHandles
    | InstanceNotKnown
    | DeletePrivilegeNotHeld

  datatype Reply = Reply(outcome: Outcome, state: Federate)

  // --------------------------------------------------------------------- class tree

  predicate WellFormed(classes: seq<ClassState>) {
    forall c | 0 <= c < |classes| ::
      && classes[c].publication.Valid()
      && |classes[c].publication.levels| == |classes[c].subscription.levels|
      && classes[c].inserted < |classes|
      && (classes[c].parent.Some? ==>
            && classes[c].parent.value < |classes|
            && classes[classes[c].parent.value].inserted < classes[c].inserted
            && |classes[classes[c].parent.value].publication.levels| <= |classes[c].publication.levels|)
  }

  predicate Subscribed(classes: seq<ClassState>, c: nat)
    requires c < |classes| && WellFormed(classes)
  {
    Effective(classes[c].subscription, 0) != OFF
  }

  function Links(classes: seq<ClassState>): (links: seq<Link>)
    requires WellFormed(classes)
    ensures Tree(links)
  {
    seq(|classes|, c requires 0 <= c < |classes| =>
      Link(classes[c].parent, classes[c].inserted, Subscribed(classes, c)))
  }

  /** Where an instance of class `c` becomes known here, if anywhere. */
  function NearestSubscribed(classes: seq<ClassState>, c: nat): (r: Option<nat>)
    requires WellFormed(classes) && c < |classes|
    ensures r.Some? ==> r.value < |classes| && Subscribed(classes, r.value)
  {
    Nearest(Links(classes), c)
  }

  // ------------------------------------------------------------------- declarations

  function Sending(s: Federate, m: Message): Federate { s.(sent := s.sent + [m]) }

  function WithPublication(s: Federate, c: nat, r: Delta, level: Level): Federate
    requires c < |s.classes|
  {
    var s1 := s.(classes := s.classes[c := s.classes[c].(publication := r.after)]);
    if r.attributes == [] then s1 else Sending(s1, ChangePublication(c, level, r.attributes))
  }

  function WithSubscription(s: Federate, c: nat, r: Delta, level: Level): Federate
    requires c < |s.classes|
  {
    var s1 := s.(classes := s.classes[c := s.classes[c].(subscription := r.after)]);
    if r.attributes == [] then s1 else Sending(s1, ChangeSubscription(c, level, r.attributes))
  }

  // ------------------------------------------------------------------- arriving classes

  predicate IsArrival(call: Call) { call.ClassArrived? || call.AttributeArrived? }

  /** What the code asserts: the parent is there already. And a class has attribute 0. */
  predicate Arrives(classes: seq<ClassState>, call: Call)
    requires IsArrival(call)
  {
    match call
    case ClassArrived(None, own) => own > 0
    case ClassArrived(Some(p), _) => p < |classes|
    case AttributeArrived(c) => c < |classes|
  }

  /** A new class is itself undeclared, but takes over its parent's attributes as they are,
      levels included; its own attributes are undeclared. */
  function Inheriting(d: Declaration, own: nat): Declaration {
    Declaration(OFF, d.levels + AllOff(own))
  }

  function NewClass(classes: seq<ClassState>, parent: Option<nat>, own: nat): ClassState
    requires parent.Some? ==> parent.value < |classes|
  {
    match parent
    case None => ClassState(None, |classes|, Declaration(OFF, AllOff(own)), Declaration(OFF, AllOff(own)))
    case Some(p) =>
      ClassState(parent, |classes|, Inheriting(classes[p].publication, own), Inheriting(classes[p].subscription, own))
  }

  function OneMoreAttribute(d: Declaration): Declaration { d.(levels := d.levels + [OFF]) }

  /** Class `c` gets the attribute with the first handle it does not use, and so does every
      class below that does not use that handle either. */
  predicate GetsAttribute(classes: seq<ClassState>, c: nat, i: nat)
    requires WellFormed(classes) && c < |classes| && i < |classes|
  {
    AtOrAbove(Links(classes), c, i) && |classes[i].publication.levels| == |classes[c].publication.levels|
  }

  function WithAttribute(classes: seq<ClassState>, c: nat): seq<ClassState>
    requires WellFormed(classes) && c < |classes|
  {
    seq(|classes|, i requires 0 <= i < |classes| =>
      if GetsAttribute(classes, c, i)
      then classes[i].(publication := OneMoreAttribute(classes[i].publication),
                       subscription := OneMoreAttribute(classes[i].subscription))
      else classes[i])
  }

  function ArrivalStep(s: Federate, call: Call): Reply
    requires WellFormed(s.classes) && IsArrival(call)
  {
    if !Arrives(s.classes, call) then Reply(Done, s)
    else match call
      case ClassArrived(parent, own) => Reply(Done, s.(classes := s.classes + [NewClass(s.classes, parent, own)]))
      case AttributeArrived(c) => Reply(Done, s.(classes := WithAttribute(s.classes, c)))
  }

  // ----------------------------------------------------------------- instances, pools

  /** Registering or discovering: ownership needs the attribute to be published. */
  function OwnedFlags(c: ClassState, owned: bool): seq<bool> {
    var d := c.publication;
    seq(|d.levels|, k requires 0 <= k < |d.levels| => owned && Effective(d, k) != OFF)
  }

  function Insert(s: Federate, h: nat, name: string, c: nat, owned: bool): Federate
    requires c < |s.classes|
  {
    s.(names := s.names[name := h],
       instances := s.instances[h := Instance(name, c, OwnedFlags(s.classes[c], owned))])
  }

  function Erase(s: Federate, h: nat): Federate {
    if h in s.instances
    then s.(names := s.names - {s.instances[h].name}, instances := s.instances - {h})
    else s
  }

  function Release(s: Federate, h: nat): Federate { Sending(Erase(s, h), ReleaseHandles([h])) }

  function ReleaseEach(s: Federate, hs: seq<nat>): Federate
    decreases |hs|
  {
    if hs == [] then s else ReleaseEach(Release(s, hs[0]), hs[1..])
  }

  /** The instances that lose their last reason to be known when class `c` goes. */
  function Unjustified(s: Federate, c: nat): set<nat> {
    set h | h in s.instances && s.instances[h].objectClass == c && !s.instances[h].OwnedByFederate()
  }

  ghost function ReleaseUnowned(s: Federate, c: nat): Federate {
    ReleaseEach(s, Ascending(Unjustified(s, c)))
  }

  function AddPairs(m: map<string, nat>, pairs: seq<Pair>): map<string, nat>
    decreases |pairs|
  {
    if pairs == [] then m else AddPairs(m[pairs[0].name := pairs[0].handle], pairs[1..])
  }

  function HandlesFor(m: map<string, nat>, order: seq<string>): seq<nat>
    requires forall i | 0 <= i < |order| :: order[i] in m
  {
    seq(|order|, i requires 0 <= i < |order| => m[order[i]])
  }

  function PublishedAttributes(d: Declaration, n: nat): seq<nat>
    requires n <= |d.levels|
  {
    if n == 0 then []
    else PublishedAttributes(d, n - 1) + if Effective(d, n - 1) != OFF then [n - 1] else []
  }

  /** The end of both register services: insert as owned, then announce the instance. */
  function Registered(s: Federate, h: nat, name: string, c: nat): Federate
    requires c < |s.classes|
  {
    var d := s.classes[c].publication;
    Sending(Insert(s, h, name, c, true), InsertInstance(h, c, name, PublishedAttributes(d, |d.levels|)))
  }

  // --------------------------------------------------------------------------- calls

  predicate IsPublication(call: Call) {
    call.Publish? || call.UnpublishClass? || call.UnpublishAttributes?
  }

  predicate IsDeclaration(call: Call) {
    IsPublication(call) || call.Subscribe? || call.UnsubscribeClass? || call.UnsubscribeAttributes?
  }

  /** The error checks that all six services make before they touch anything. */
  predicate Accepts(s: Federate, call: Call)
    requires IsDeclaration(call)
  {
    && call.objectClass < |s.classes|
    && (!call.UnpublishClass? && !call.UnsubscribeClass? ==>
          && s.classes[call.objectClass].publication.Defined(call.attributes)
          && s.classes[call.objectClass].subscription.Defined(call.attributes))
  }

  function Refusal(s: Federate, call: Call): Outcome
    requires IsDeclaration(call)
  {
    if call.objectClass >= |s.classes| then ObjectClassNotDefined else AttributeNotDefined
  }

  function SubscribeLevel(active: bool): Level { if active then ACTIVE else PASSIVE }

  /** The level that the request message of a declaration call carries. */
  function LevelOf(call: Call): Level {
    match call
    case Publish(_, _) => PUBLISHED
    case Subscribe(_, _, active) => SubscribeLevel(active)
    case _ => OFF
  }

  /** The side of the class that a declaration call is about. */
  function SideOf(s: Federate, call: Call): Declaration
    requires IsDeclaration(call) && call.objectClass < |s.classes|
  {
    var class_ := s.classes[call.objectClass];
    if IsPublication(call) then class_.publication else class_.subscription
  }

  function DeltaOf(s: Federate, call: Call): (r: Delta)
    requires WellFormed(s.classes) && IsDeclaration(call) && Accepts(s, call)
    ensures |r.after.levels| == |SideOf(s, call).levels|
  {
    var d := SideOf(s, call);
    match call
    case Publish(_, v) => DeclareShape(d, v, PUBLISHED); Declare(d, v, PUBLISHED)
    case UnpublishClass(_) => UndeclareAll(d)
    case UnpublishAttributes(_, v) => Undeclare(d, v)
    case Subscribe(_, v, active) =>
      DeclareShape(d, v, SubscribeLevel(active)); Declare(d, v, SubscribeLevel(active))
    case UnsubscribeClass(_) => UndeclareAll(d)
    case UnsubscribeAttributes(_, v) => Undeclare(d, v)
  }

  /** Every declaration call names exactly the attributes it changes, and a subscription
      leaves its class subscribed. */
  lemma DeltaNames(s: Federate, call: Call)
    requires WellFormed(s.classes) && IsDeclaration(call) && Accepts(s, call)
    ensures NamesChanges(SideOf(s, call), DeltaOf(s, call))
    ensures call.Subscribe? ==> Effective(DeltaOf(s, call).after, 0) != OFF
  {
    var d := SideOf(s, call);
    match call
    case Publish(_, v) => DeclareExactDelta(d, v, PUBLISHED);
    case UnpublishClass(_) => UndeclareAllDelta(d);
    case UnpublishAttributes(_, v) => UndeclareDelta(d, v);
    case Subscribe(_, v, active) =>
      DeclareExactDelta(d, v, SubscribeLevel(active));
      DeclareEffective(d, v, SubscribeLevel(active), 0);
    case UnsubscribeClass(_) => UndeclareAllDelta(d);
    case UnsubscribeAttributes(_, v) => UndeclareDelta(d, v);
  }

  ghost function Unsubscribed(s: Federate, c: nat, r: Delta): Federate
    requires c < |s.classes| && r.after.Valid()
  {
    var s1 := WithSubscription(s, c, r, OFF);
    if r.attributes != [] && Effective(r.after, 0) == OFF then ReleaseUnowned(s1, c) else s1
  }

  ghost function DeclarationStep(s: Federate, call: Call): Reply
    requires WellFormed(s.classes) && IsDeclaration(call)
  {
    var c := call.objectClass;
    if !Accepts(s, call) then Reply(Refusal(s, call), s)
    else if IsPublication(call) then
      Reply(Done, WithPublication(s, c, DeltaOf(s, call), LevelOf(call)))
    else if call.Subscribe? then
      Reply(Done, WithSubscription(s, c, DeltaOf(s, call), LevelOf(call)))
    else
      Reply(Done, Unsubscribed(s, c, DeltaOf(s, call)))
  }

  lemma DeclareShape(d: Declaration, v: seq<nat>, level: Level)
    requires d.Valid() && d.Defined(v) && level != OFF
    ensures |Declare(d, v, level).after.levels| == |d.levels|
  {
    DeclareEffective(d, v, level, 0);
  }

  predicate ClassPublished(s: Federate, c: nat)
    requires c < |s.classes| && WellFormed(s.classes)
  {
    Effective(s.classes[c].publication, 0) == PUBLISHED
  }

  ghost function RegisterStep(s: Federate, c: nat): Reply
    requires WellFormed(s.classes)
  {
    if c >= |s.classes| then Reply(ObjectClassNotDefined, s)
    else if !ClassPublished(s, c) then Reply(ObjectClassNotPublished, s)
    else
      var asked := Sending(s, RequestHandles(1));
      if s.free == map[] then Reply(NoFreeHandles, asked)
      else
        var name := FirstName(s.free.Keys);
        Reply(Done, Registered(asked.(free := s.free - {name}), s.free[name], name, c))
  }

  function RegisterNamedStep(s: Federate, c: nat, name: string, allow: bool, reply: Option<nat>): Reply
    requires WellFormed(s.classes)
  {
    if c >= |s.classes| then Reply(ObjectClassNotDefined, s)
    else if !ClassPublished(s, c) then Reply(ObjectClassNotPublished, s)
    else if name == [] then Reply(NameNotReserved, s)
    else if name in s.reserved then
      Reply(Done, Registered(s.(reserved := s.reserved - {name}), s.reserved[name], name, c))
    else if !allow then Reply(NameNotReserved, s)
    else match reply
      case None => Reply(NameInUse, s)
      case Some(h) => Reply(Done, Registered(s, h, name, c))
  }

  ghost function Step(s: Federate, call: Call): Reply
    requires WellFormed(s.classes)
  {
    match call
    case HandlesGranted(pairs) => Reply(Done, s.(free := AddPairs(s.free, pairs)))
    case NamesGranted(pairs) => Reply(Done, s.(reserved := AddPairs(s.reserved, pairs)))
    case ReleaseName(name) =>
      if name !in s.reserved then Reply(NameNotReserved, s)
      else Reply(Done, Sending(s.(reserved := s.reserved - {name}), ReleaseHandles([s.reserved[name]])))
    case ReleaseNames(ns) =>
      if !(ns <= s.reserved.Keys) then Reply(NameNotReserved, s)
      else Reply(Done, Sending(s.(reserved := s.reserved - ns),
                               ReleaseHandles(HandlesFor(s.reserved, AscendingNames(ns)))))
    case Register(c) => RegisterStep(s, c)
    case RegisterNamed(c, name, allow, reply) => RegisterNamedStep(s, c, name, allow, reply)
    case Delete(h) =>
      if h !in s.instances then Reply(InstanceNotKnown, s)
      else if !s.instances[h].OwnedByFederate() then Reply(DeletePrivilegeNotHeld, s)
      else Reply(Done, Release(Sending(s, DeleteInstance(h)), h))
    case InsertArrived(h, name, c) =>
      if c >= |s.classes| then Reply(Done, s)
      else (match NearestSubscribed(s.classes, c)
        case None => Reply(Done, s)
        case Some(known) =>
          if h in s.instances then Reply(Done, s) else Reply(Done, Insert(s, h, name, known, false)))
    case RemoveArrived(h) =>
      if h !in s.instances then Reply(Done, s) else Reply(Done, Release(s, h))
    case ClassArrived(_, _) => ArrivalStep(s, call)
    case AttributeArrived(_) => ArrivalStep(s, call)
    case _ => DeclarationStep(s, call)
  }

  lemma StepDeclares(s: Federate, call: Call)
    requires WellFormed(s.classes) && IsDeclaration(call)
    ensures Step(s, call) == DeclarationStep(s, call)
  {}

  // ---------------------------------------------------------------------------- runs

  lemma {:induction false} ReleaseEachFrame(s: Federate, hs: seq<nat>)
    ensures ReleaseEach(s, hs).classes == s.classes
    ensures ReleaseEach(s, hs).free == s.free
    ensures ReleaseEach(s, hs).reserved == s.reserved
    decreases |hs|
  {
    if hs != [] { ReleaseEachFrame(Release(s, hs[0]), hs[1..]); }
  }

  predicate SameShape(a: seq<ClassState>, b: seq<ClassState>) {
    && |a| == |b|
    && forall c | 0 <= c < |a| ::
         && a[c].parent == b[c].parent && a[c].inserted == b[c].inserted
         && |a[c].publication.levels| == |b[c].publication.levels|
         && |a[c].subscription.levels| == |b[c].subscription.levels|
  }

  lemma DeclarationShape(s: Federate, call: Call)
    requires WellFormed(s.classes) && IsDeclaration(call)
    ensures SameShape(s.classes, DeclarationStep(s, call).state.classes)
  {
    hide DeltaOf, Unsubscribed, WithPublication, WithSubscription, SameShape;
    if Accepts(s, call) {
      var c, r, level := call.objectClass, DeltaOf(s, call), LevelOf(call);
      if IsPublication(call) {
        PublicationShape(s, c, r, level);
      } else {
        SubscriptionShape(s, c, r, level);
        UnsubscribedFrame(s, c, r);
      }
    } else {
      SameAsItself(s.classes);
    }
  }

  lemma SameAsItself(a: seq<ClassState>)
    ensures SameShape(a, a)
  {}

  lemma PublicationShape(s: Federate, c: nat, r: Delta, level: Level)
    requires c < |s.classes| && |r.after.levels| == |s.classes[c].publication.levels|
    ensures SameShape(s.classes, WithPublication(s, c, r, level).classes)
  {}

  lemma SubscriptionShape(s: Federate, c: nat, r: Delta, level: Level)
    requires c < |s.classes| && |r.after.levels| == |s.classes[c].subscription.levels|
    ensures SameShape(s.classes, WithSubscription(s, c, r, level).classes)
  {}

  /** Releasing instances leaves everything but instances, names and messages alone. */
  lemma UnsubscribedFrame(s: Federate, c: nat, r: Delta)
    requires c < |s.classes| && r.after.Valid()
    ensures Unsubscribed(s, c, r).classes == WithSubscription(s, c, r, OFF).classes
  {
    var s1 := WithSubscription(s, c, r, OFF);
    ReleaseEachFrame(s1, Ascending(Unjustified(s1, c)));
  }

  lemma OtherFrame(s: Federate, call: Call)
    requires WellFormed(s.classes)
    requires !IsDeclaration(call) && !IsArrival(call)
    ensures Step(s, call).state.classes == s.classes
  {}

  /** Only an arrival changes the class tree or the number of attributes of a class. */
  lemma StepShape(s: Federate, call: Call)
    requires WellFormed(s.classes)
    ensures !IsArrival(call) ==> SameShape(s.classes, Step(s, call).state.classes)
    ensures WellFormed(Step(s, call).state.classes)
  {
    hide Step, WellFormed, SameShape, DeclarationStep, ArrivalStep;
    if IsDeclaration(call) {
      StepDeclares(s, call);
      DeclarationShape(s, call);
      ShapeKeepsTree(s.classes, Step(s, call).state.classes);
    } else if IsArrival(call) {
      StepArrives(s, call);
      ArrivalKeepsTree(s, call);
    } else {
      OtherFrame(s, call);
      SameAsItself(s.classes);
    }
  }

  lemma StepArrives(s: Federate, call: Call)
    requires WellFormed(s.classes) && IsArrival(call)
    ensures Step(s, call) == ArrivalStep(s, call)
  {}

  /** The level of an attribute that a class had before an arrival is not touched, and an
      attribute that is new to a class which was there is undeclared. */
  predicate KeepsLevels(d: Declaration, e: Declaration) {
    && e.flag == d.flag && |d.levels| <= |e.levels| && e.levels[..|d.levels|] == d.levels
    && forall k | |d.levels| <= k < |e.levels| :: e.levels[k] == OFF
  }

  predicate Extends(a: seq<ClassState>, b: seq<ClassState>) {
    && |a| <= |b|
    && forall c | 0 <= c < |a| ::
         && a[c].parent == b[c].parent && a[c].inserted == b[c].inserted
         && KeepsLevels(a[c].publication, b[c].publication)
         && KeepsLevels(a[c].subscription, b[c].subscription)
  }

  /** An arrival changes nothing but the class tree, and there it only adds. */
  lemma ArrivalKeepsTree(s: Federate, call: Call)
    requires WellFormed(s.classes) && IsArrival(call)
    ensures WellFormed(ArrivalStep(s, call).state.classes)
    ensures Extends(s.classes, ArrivalStep(s, call).state.classes)
    ensures ArrivalStep(s, call).state == s.(classes := ArrivalStep(s, call).state.classes)
  {
    hide WellFormed, Extends, WithAttribute, NewClass;
    if Arrives(s.classes, call) {
      match call
      case ClassArrived(parent, own) => NewClassKeepsTree(s.classes, parent, own);
      case AttributeArrived(c) => WithAttributeKeepsTree(s.classes, c);
    } else {
      ExtendsItself(s.classes);
    }
  }

  lemma ExtendsItself(a: seq<ClassState>)
    ensures Extends(a, a)
  {}

  lemma NewClassKeepsTree(classes: seq<ClassState>, parent: Option<nat>, own: nat)
    requires WellFormed(classes) && Arrives(classes, ClassArrived(parent, own))
    ensures WellFormed(classes + [NewClass(classes, parent, own)])
    ensures Extends(classes, classes + [NewClass(classes, parent, own)])
  {}

  lemma WithAttributeKeepsTree(classes: seq<ClassState>, c: nat)
    requires WellFormed(classes) && c < |classes|
    ensures WellFormed(WithAttribute(classes, c)) && Extends(classes, WithAttribute(classes, c))
  {
    forall i | 0 <= i < |classes| && classes[i].parent.Some?
      ensures var p := classes[i].parent.value;
              |WithAttribute(classes, c)[p].publication.levels| <= |WithAttribute(classes, c)[i].publication.levels|
    {
      if GetsAttribute(classes, c, classes[i].parent.value)
        && |classes[i].publication.levels| == |classes[c].publication.levels| {
        GetsAfterParent(classes, c, i);
      }
    }
  }

  lemma GetsAfterParent(classes: seq<ClassState>, c: nat, i: nat)
    requires WellFormed(classes) && c < |classes| && i < |classes| && classes[i].parent.Some?
    requires GetsAttribute(classes, c, classes[i].parent.value)
    requires |classes[i].publication.levels| == |classes[c].publication.levels|
    ensures GetsAttribute(classes, c, i)
  {
    assert Links(classes)[i].parent == classes[i].parent;
  }

  lemma ShapeKeepsTree(a: seq<ClassState>, b: seq<ClassState>)
    requires WellFormed(a) && SameShape(a, b)
    ensures WellFormed(b)
  {}

  ghost function Run(s: Federate, calls: seq<Call>): (r: Federate)
    requires WellFormed(s.classes)
    ensures WellFormed(r.classes)
    decreases |calls|
  {
    if calls == [] then s
    else
      var last := |calls| - 1;
      var before := Run(s, calls[..last]);
      StepShape(before, calls[last]);
      Step(before, calls[last]).state
  }

  lemma RunOneMore(s: Federate, calls: seq<Call>, call: Call)
    requires WellFormed(s.classes)
    ensures Run(s, calls + [call]) == Step(Run(s, calls), call).state
  {
    assert (calls + [call])[..|calls|] == calls;
  }

  /** The state in which a joined federate starts: nothing declared, nothing known. */
  predicate Fresh(s: Federate) {
    && WellFormed(s.classes)
    && (forall c | 0 <= c < |s.classes| ::
          && s.classes[c].publication == Declaration(OFF, AllOff(|s.classes[c].publication.levels|))
          && s.classes[c].subscription == Declaration(OFF, AllOff(|s.classes[c].subscription.levels|)))
    && s.instances == map[] && s.names == map[] && s.free == map[] && s.reserved == map[]
    && s.sent == []
  }

  function AllOff(n: nat): seq<Level> { seq(n, _ => OFF) }
}
