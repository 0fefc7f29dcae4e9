/** The federate's services as the code performs them: in place, with a compaction loop
    over the request vector, erasure while iterating, and messages sent along the way.
    Each one is proved to do what `FederateModel.Step` says. */
module Ambassador {
  import opened Util
  import opened Declarations
  import opened ClassWalk
  import opened FederateModel
  import opened HandleLedger

  /** Moving a kept handle down over dropped ones touches nothing else. */
  lemma KeepOne(all: seq<nat>, v: seq<nat>, from: nat, j: nat, i: nat)
    requires from <= j <= i < |v| == |all| && v[..from] == all[..from] && v[i..] == all[i..]
    ensures v[i] == all[i] && v[i + 1..] == all[i + 1..]
    ensures v[j := v[i]][from..j + 1] == v[from..j] + [v[i]]
    ensures v[j := v[i]][..from] == all[..from] && v[j := v[i]][i + 1..] == all[i + 1..]
    ensures i == j ==> v[j := v[i]] == v
  {
    assert v[i] == v[i..][0] == all[i..][0];
    assert v[i + 1..] == v[i..][1..] && all[i + 1..] == all[i..][1..];
  }

  /** Where the compaction loop over `all[from..]` stands: `v` keeps its beginning, has
      collected changed handles in `from..j` and is still as given from `i` on; together
      with what the rest will yield, that is `goal`. */
  ghost predicate Compacting(goal: Delta, d: Declaration, all: seq<nat>, v: seq<nat>,
                             from: nat, j: nat, i: nat, level: Level)
    requires d.Defined(all)
  {
    && from <= j <= i <= |v| == |all|
    && v[..from] == all[..from] && v[i..] == all[i..]
    && var r := Compact(d, all[i..], level);
       goal.after == r.after && goal.attributes == v[from..j] + r.attributes
  }

  lemma CompactStart(d: Declaration, all: seq<nat>, from: nat, level: Level)
    requires d.Defined(all) && from <= |all|
    ensures Compacting(Compact(d, all[from..], level), d, all, all, from, from, from, level)
  {
    hide Compact;
    assert all[from..from] == [];
  }

  lemma CompactTurn(goal: Delta, d: Declaration, all: seq<nat>, v: seq<nat>, from: nat, j: nat, i: nat, level: Level)
    requires d.Defined(all) && i < |v| && Compacting(goal, d, all, v, from, j, i, level)
    ensures v[i] == all[i] && (i == j ==> v[j := v[i]] == v)
    ensures if LevelChanges(d, v[i], level)
            then Compacting(goal, SetLevel(d, v[i], level), all, v[j := v[i]], from, j + 1, i + 1, level)
            else Compacting(goal, SetLevel(d, v[i], level), all, v, from, j, i + 1, level)
  {
    hide Compact, LevelChanges;
    KeepOne(all, v, from, j, i);
    CompactOne(d, all, i, level);
    var r := Compact(SetLevel(d, v[i], level), all[i + 1..], level);
    assert v[from..j] + ([v[i]] + r.attributes) == v[from..j] + [v[i]] + r.attributes;
    assert v[from..j] + ([] + r.attributes) == v[from..j] + r.attributes;
  }

  lemma CompactEnd(goal: Delta, d: Declaration, all: seq<nat>, v: seq<nat>, from: nat, j: nat, i: nat, level: Level)
    requires d.Defined(all) && i == |v| && Compacting(goal, d, all, v, from, j, i, level)
    ensures goal.after == d && j <= |v| && v[..j] == all[..from] + goal.attributes
  {
    hide Compact;
    CompactNone(d, all[i..], level);
    assert v[..j] == v[..from] + v[from..j];
    assert v[from..j] + [] == v[from..j];
  }

  /** Where the loop over all attributes of a class stands: `v` has collected the changed
      ones below `i`, and with what the rest will yield that is `goal`. */
  ghost predicate Collecting(goal: Delta, d: Declaration, v: seq<nat>, i: nat)
  {
    && i <= |d.levels|
    && var r := Compact(d, UpTo(|d.levels|)[i..], OFF);
       goal.after == r.after && goal.attributes == v + r.attributes
  }

  lemma CollectStart(d: Declaration, v: seq<nat>)
    ensures var r := Compact(d, UpTo(|d.levels|), OFF);
            Collecting(Delta(r.after, v + r.attributes), d, v, 0)
  {
    hide Compact;
    assert UpTo(|d.levels|)[0..] == UpTo(|d.levels|);
  }

  lemma CollectTurn(goal: Delta, d: Declaration, v: seq<nat>, i: nat)
    requires Collecting(goal, d, v, i) && i < |d.levels|
    ensures Collecting(goal, SetLevel(d, i, OFF), if LevelChanges(d, i, OFF) then v + [i] else v, i + 1)
  {
    hide Compact, LevelChanges;
    CompactOne(d, UpTo(|d.levels|), i, OFF);
    var r := Compact(SetLevel(d, i, OFF), UpTo(|d.levels|)[i + 1..], OFF);
    assert v + ([i] + r.attributes) == v + [i] + r.attributes;
    assert v + ([] + r.attributes) == v + r.attributes;
  }

  lemma SetLevelWidth(d: Declaration, k: nat, level: Level)
    requires k < |d.levels|
    ensures |SetLevel(d, k, level).levels| == |d.levels|
  {}

  lemma CollectEnd(goal: Delta, d: Declaration, v: seq<nat>)
    requires Collecting(goal, d, v, |d.levels|)
    ensures goal == Delta(d, v)
  {
    hide Compact;
    CompactNone(d, UpTo(|d.levels|)[|d.levels|..], OFF);
    assert v + [] == v;
  }

  /** Federate::ObjectClass, without names, data types and order types. */
  class ObjectClass {
    const handle: nat
    const parent: Option<nat>
    ghost const inserted: nat
    var publicationType: Level
    var subscriptionType: Level
    var attributePublications: seq<Level>
    var attributeSubscriptions: seq<Level>

    constructor (handle: nat, parent: Option<nat>, ghost inserted: nat, attributes: nat)
      ensures this.handle == handle && this.parent == parent && this.inserted == inserted
      ensures Publication() == Declaration(OFF, AllOff(attributes))
      ensures Subscription() == Declaration(OFF, AllOff(attributes))
    {
      this.handle, this.parent, this.inserted := handle, parent, inserted;
      publicationType, subscriptionType := OFF, OFF;
      attributePublications, attributeSubscriptions := AllOff(attributes), AllOff(attributes);
    }

    /** A class that arrives below another one gets copies of that one's attributes with
        the levels they have; the class flags start undeclared. */
    constructor Below(handle: nat, objectClass: ObjectClass, ghost inserted: nat, own: nat)
      ensures this.handle == handle && this.parent == Some(objectClass.handle) && this.inserted == inserted
      ensures Publication() == Inheriting(objectClass.Publication(), own)
      ensures Subscription() == Inheriting(objectClass.Subscription(), own)
    {
      this.handle, this.parent, this.inserted := handle, Some(objectClass.handle), inserted;
      publicationType, subscriptionType := OFF, OFF;
      attributePublications := objectClass.attributePublications + AllOff(own);
      attributeSubscriptions := objectClass.attributeSubscriptions + AllOff(own);
    }

    ghost function Publication(): Declaration
      reads this
    {
      Declaration(publicationType, attributePublications)
    }

    ghost function Subscription(): Declaration
      reads this
    {
      Declaration(subscriptionType, attributeSubscriptions)
    }

    ghost function State(): ClassState
      reads this
    {
      ClassState(parent, inserted, Publication(), Subscription())
    }

    function EffectivePublicationType(attribute: nat): (level: Level)
      requires attribute < |attributePublications|
      reads this
      ensures level == Effective(Publication(), attribute)
    {
      var level := attributePublications[attribute];
      if attribute == 0 then Max(level, publicationType) else level
    }

    function EffectiveSubscriptionType(attribute: nat): (level: Level)
      requires attribute < |attributeSubscriptions|
      reads this
      ensures level == Effective(Subscription(), attribute)
    {
      var level := attributeSubscriptions[attribute];
      if attribute == 0 then Max(level, subscriptionType) else level
    }

    method SetPublicationType(level: Level) returns (changed: bool)
      requires attributePublications != []
      modifies this`publicationType
      ensures Publication() == SetFlag(old(Publication()), level)
      ensures changed == FlagChanges(old(Publication()), level)
    {
      var was := EffectivePublicationType(0);
      publicationType := level;
      changed := was != EffectivePublicationType(0);
    }

    method SetSubscriptionType(level: Level) returns (changed: bool)
      requires attributeSubscriptions != []
      modifies this`subscriptionType
      ensures Subscription() == SetFlag(old(Subscription()), level)
      ensures changed == FlagChanges(old(Subscription()), level)
    {
      var was := EffectiveSubscriptionType(0);
      subscriptionType := level;
      changed := was != EffectiveSubscriptionType(0);
    }

    method SetAttributePublicationType(attribute: nat, level: Level) returns (changed: bool)
      requires attribute < |attributePublications|
      modifies this`attributePublications
      ensures Publication() == SetLevel(old(Publication()), attribute, level)
      ensures changed == LevelChanges(old(Publication()), attribute, level)
    {
      var was := EffectivePublicationType(attribute);
      attributePublications := attributePublications[attribute := level];
      changed := was != EffectivePublicationType(attribute);
    }

    method SetAttributeSubscriptionType(attribute: nat, level: Level) returns (changed: bool)
      requires attribute < |attributeSubscriptions|
      modifies this`attributeSubscriptions
      ensures Subscription() == SetLevel(old(Subscription()), attribute, level)
      ensures changed == LevelChanges(old(Subscription()), attribute, level)
    {
      var was := EffectiveSubscriptionType(attribute);
      attributeSubscriptions := attributeSubscriptions[attribute := level];
      changed := was != EffectiveSubscriptionType(attribute);
    }

    /** The compaction loop over `attributes[from..]`: `j` trails `i` and collects the
        handles whose level changed; what is behind `j` at the end is cut off. */
    method CompactPublications(attributes: seq<nat>, from: nat, level: Level) returns (v: seq<nat>)
      requires from <= |attributes| && Publication().Defined(attributes)
      modifies this`attributePublications
      ensures var r := Compact(old(Publication()), attributes[from..], level);
              Publication() == r.after && v == attributes[..from] + r.attributes
    {
      hide Compact, LevelChanges, Compacting;
      v := attributes;
      var i, j := from, from;
      CompactStart(Publication(), attributes, from, level);
      ghost var goal := Compact(Publication(), attributes[from..], level);
      while i < |v|
        invariant |attributePublications| == old(|attributePublications|) && 0 <= j <= i <= |v| == |attributes|
        invariant Compacting(goal, Publication(), attributes, v, from, j, i, level)
      {
        CompactTurn(goal, Publication(), attributes, v, from, j, i, level);
        var changed := SetAttributePublicationType(v[i], level);
        if changed {
          if i != j { v := v[j := v[i]]; }
          j := j + 1;
        }
        i := i + 1;
      }
      CompactEnd(goal, Publication(), attributes, v, from, j, i, level);
      if j != |v| { v := v[..j]; }
    }

    method CompactSubscriptions(attributes: seq<nat>, from: nat, level: Level) returns (v: seq<nat>)
      requires from <= |attributes| && Subscription().Defined(attributes)
      modifies this`attributeSubscriptions
      ensures var r := Compact(old(Subscription()), attributes[from..], level);
              Subscription() == r.after && v == attributes[..from] + r.attributes
    {
      hide Compact, LevelChanges, Compacting;
      v := attributes;
      var i, j := from, from;
      CompactStart(Subscription(), attributes, from, level);
      ghost var goal := Compact(Subscription(), attributes[from..], level);
      while i < |v|
        invariant |attributeSubscriptions| == old(|attributeSubscriptions|) && 0 <= j <= i <= |v| == |attributes|
        invariant Compacting(goal, Subscription(), attributes, v, from, j, i, level)
      {
        CompactTurn(goal, Subscription(), attributes, v, from, j, i, level);
        var changed := SetAttributeSubscriptionType(v[i], level);
        if changed {
          if i != j { v := v[j := v[i]]; }
          j := j + 1;
        }
        i := i + 1;
      }
      CompactEnd(goal, Subscription(), attributes, v, from, j, i, level);
      if j != |v| { v := v[..j]; }
    }

    method PublishAll(attributes: seq<nat>) returns (v: seq<nat>)
      requires Publication().Valid() && Publication().Defined(attributes)
      modifies this`publicationType, this`attributePublications
      ensures var r := Declare(old(Publication()), attributes, PUBLISHED);
              Publication() == r.after && v == r.attributes
    {
      v := attributes;
      var j := 0;
      var changed := SetPublicationType(PUBLISHED);
      if changed {
        if v == [] || v[0] != 0 { v := [0] + v; }
        j := 1;
      }
      assert changed ==> v == WithPrivilege(attributes) && v[..1] == [0];
      assert !changed ==> v[0..] == v;
      v := CompactPublications(v, j, PUBLISHED);
    }

    method SubscribeAll(attributes: seq<nat>, level: Level) returns (v: seq<nat>)
      requires Subscription().Valid() && Subscription().Defined(attributes) && level != OFF
      modifies this`subscriptionType, this`attributeSubscriptions
      ensures var r := Declare(old(Subscription()), attributes, level);
              Subscription() == r.after && v == r.attributes
    {
      v := attributes;
      var j := 0;
      var changed := SetSubscriptionType(level);
      if changed {
        if v == [] || v[0] != 0 { v := [0] + v; }
        j := 1;
      }
      assert changed ==> v == WithPrivilege(attributes) && v[..1] == [0];
      assert !changed ==> v[0..] == v;
      v := CompactSubscriptions(v, j, level);
    }

    method UnpublishAll() returns (v: seq<nat>)
      requires Publication().Valid()
      modifies this`publicationType, this`attributePublications
      ensures var r := UndeclareAll(old(Publication()));
              Publication() == r.after && v == r.attributes
    {
      hide Compact, LevelChanges, SetLevel, Effective, Collecting;
      v := [];
      var changed := SetPublicationType(OFF);
      if changed { v := v + [0]; }
      CollectStart(Publication(), v);
      ghost var rest := Compact(Publication(), UpTo(|attributePublications|), OFF);
      ghost var goal := Delta(rest.after, v + rest.attributes);
      for i := 0 to |attributePublications|
        invariant |attributePublications| == old(|attributePublications|)
        invariant Collecting(goal, Publication(), v, i)
      {
        CollectTurn(goal, Publication(), v, i);
        SetLevelWidth(Publication(), i, OFF);
        var changed := SetAttributePublicationType(i, OFF);
        if changed { v := v + [i]; }
      }
      CollectEnd(goal, Publication(), v);
    }

    method UnsubscribeAll() returns (v: seq<nat>)
      requires Subscription().Valid()
      modifies this`subscriptionType, this`attributeSubscriptions
      ensures var r := UndeclareAll(old(Subscription()));
              Subscription() == r.after && v == r.attributes
    {
      hide Compact, LevelChanges, SetLevel, Effective, Collecting;
      v := [];
      var changed := SetSubscriptionType(OFF);
      if changed { v := v + [0]; }
      CollectStart(Subscription(), v);
      ghost var rest := Compact(Subscription(), UpTo(|attributeSubscriptions|), OFF);
      ghost var goal := Delta(rest.after, v + rest.attributes);
      for i := 0 to |attributeSubscriptions|
        invariant |attributeSubscriptions| == old(|attributeSubscriptions|)
        invariant Collecting(goal, Subscription(), v, i)
      {
        CollectTurn(goal, Subscription(), v, i);
        SetLevelWidth(Subscription(), i, OFF);
        var changed := SetAttributeSubscriptionType(i, OFF);
        if changed { v := v + [i]; }
      }
      CollectEnd(goal, Subscription(), v);
    }

    /** The attributes a registration announces. */
    method Published() returns (v: seq<nat>)
      ensures v == PublishedAttributes(Publication(), |attributePublications|)
    {
      v := [];
      for i := 0 to |attributePublications|
        invariant v == PublishedAttributes(Publication(), i)
      {
        if EffectivePublicationType(i) != OFF { v := v + [i]; }
      }
    }
  }

  lemma ReleaseEachSteps(s: Federate, h: nat, todo: set<nat>, chosen: set<nat>)
    requires IsLeast(h, todo)
    ensures h in chosen ==> Ascending(todo * chosen) == [h] + Ascending((todo - {h}) * chosen)
    ensures h !in chosen ==> Ascending(todo * chosen) == Ascending((todo - {h}) * chosen)
  {
    if h in chosen {
      assert IsLeast(h, todo * chosen);
      assert todo * chosen - {h} == (todo - {h}) * chosen;
    } else {
      assert todo * chosen == (todo - {h}) * chosen;
    }
  }

  ghost function States(objectClasses: seq<ObjectClass>): (r: seq<ClassState>)
    reads objectClasses
    ensures |r| == |objectClasses|
    ensures forall i | 0 <= i < |r| :: r[i] == objectClasses[i].State()
  {
    seq(|objectClasses|, i requires 0 <= i < |objectClasses| reads objectClasses => objectClasses[i].State())
  }

  lemma SidesValid(classes: seq<ClassState>, c: nat)
    requires WellFormed(classes) && c < |classes|
    ensures classes[c].publication.Valid() && classes[c].subscription.Valid()
  {}

  /** The error check that the services with an attribute vector make. */
  predicate BothDefined(c: ClassState, v: seq<nat>) { c.publication.Defined(v) && c.subscription.Defined(v) }

  // What the declaration calls do, each on its own.

  lemma PublishIs(s: Federate, c: nat, v: seq<nat>)
    requires WellFormed(s.classes)
    ensures c >= |s.classes| ==> Step(s, Publish(c, v)) == Reply(ObjectClassNotDefined, s)
    ensures c < |s.classes| ==> s.classes[c].publication.Valid() && s.classes[c].subscription.Valid()
    ensures c < |s.classes| && !BothDefined(s.classes[c], v) ==> Step(s, Publish(c, v)) == Reply(AttributeNotDefined, s)
    ensures c < |s.classes| && BothDefined(s.classes[c], v) ==>
              var r := Declare(s.classes[c].publication, v, PUBLISHED);
              Step(s, Publish(c, v)) == Reply(Done, WithPublication(s, c, r, PUBLISHED))
  {
    hide Declare, Declaration.Defined;
    StepDeclares(s, Publish(c, v));
  }

  lemma UnpublishClassIs(s: Federate, c: nat)
    requires WellFormed(s.classes)
    ensures c >= |s.classes| ==> Step(s, UnpublishClass(c)) == Reply(ObjectClassNotDefined, s)
    ensures c < |s.classes| ==> s.classes[c].publication.Valid() && s.classes[c].subscription.Valid()
    ensures c < |s.classes| ==>
              var r := UndeclareAll(s.classes[c].publication);
              Step(s, UnpublishClass(c)) == Reply(Done, WithPublication(s, c, r, OFF))
  {
    hide UndeclareAll;
    StepDeclares(s, UnpublishClass(c));
  }

  lemma UnpublishAttributesIs(s: Federate, c: nat, v: seq<nat>)
    requires WellFormed(s.classes)
    ensures c >= |s.classes| ==> Step(s, UnpublishAttributes(c, v)) == Reply(ObjectClassNotDefined, s)
    ensures c < |s.classes| ==> s.classes[c].publication.Valid() && s.classes[c].subscription.Valid()
    ensures c < |s.classes| && !BothDefined(s.classes[c], v) ==> Step(s, UnpublishAttributes(c, v)) == Reply(AttributeNotDefined, s)
    ensures c < |s.classes| && BothDefined(s.classes[c], v) ==>
              var r := Compact(s.classes[c].publication, v, OFF);
              Step(s, UnpublishAttributes(c, v)) == Reply(Done, WithPublication(s, c, r, OFF))
  {
    hide Compact, Declaration.Defined;
    StepDeclares(s, UnpublishAttributes(c, v));
  }

  lemma SubscribeIs(s: Federate, c: nat, v: seq<nat>, active: bool)
    requires WellFormed(s.classes)
    ensures c >= |s.classes| ==> Step(s, Subscribe(c, v, active)) == Reply(ObjectClassNotDefined, s)
    ensures c < |s.classes| ==> s.classes[c].publication.Valid() && s.classes[c].subscription.Valid()
    ensures c < |s.classes| && !BothDefined(s.classes[c], v) ==> Step(s, Subscribe(c, v, active)) == Reply(AttributeNotDefined, s)
    ensures c < |s.classes| && BothDefined(s.classes[c], v) ==>
              var r := Declare(s.classes[c].subscription, v, SubscribeLevel(active));
              Step(s, Subscribe(c, v, active)) == Reply(Done, WithSubscription(s, c, r, SubscribeLevel(active)))
  {
    hide Declare, Declaration.Defined;
    StepDeclares(s, Subscribe(c, v, active));
  }

  lemma UnsubscribeClassIs(s: Federate, c: nat)
    requires WellFormed(s.classes)
    ensures c >= |s.classes| ==> Step(s, UnsubscribeClass(c)) == Reply(ObjectClassNotDefined, s)
    ensures c < |s.classes| ==> s.classes[c].publication.Valid() && s.classes[c].subscription.Valid()
    ensures c < |s.classes| ==>
              var r := UndeclareAll(s.classes[c].subscription);
              && r.after.Valid() && WithSubscription(s, c, r, OFF).classes == Unsubscribed(s, c, r).classes
              && Effective(r.after, 0) == OFF
              && Step(s, UnsubscribeClass(c)) == Reply(Done, Unsubscribed(s, c, r))
  {
    hide UndeclareAll, Unsubscribed, WithSubscription;
    StepDeclares(s, UnsubscribeClass(c));
    if c < |s.classes| {
      UndeclareAllDelta(s.classes[c].subscription);
      UnsubscribedFrame(s, c, UndeclareAll(s.classes[c].subscription));
    }
  }

  lemma UnsubscribeAttributesIs(s: Federate, c: nat, v: seq<nat>)
    requires WellFormed(s.classes)
    ensures c >= |s.classes| ==> Step(s, UnsubscribeAttributes(c, v)) == Reply(ObjectClassNotDefined, s)
    ensures c < |s.classes| ==> s.classes[c].publication.Valid() && s.classes[c].subscription.Valid()
    ensures c < |s.classes| && !BothDefined(s.classes[c], v) ==> Step(s, UnsubscribeAttributes(c, v)) == Reply(AttributeNotDefined, s)
    ensures c < |s.classes| && BothDefined(s.classes[c], v) ==>
              var r := Compact(s.classes[c].subscription, v, OFF);
              && r.after.Valid() && WithSubscription(s, c, r, OFF).classes == Unsubscribed(s, c, r).classes
              && Step(s, UnsubscribeAttributes(c, v)) == Reply(Done, Unsubscribed(s, c, r))
  {
    hide Compact, Declaration.Defined, Unsubscribed, WithSubscription;
    StepDeclares(s, UnsubscribeAttributes(c, v));
    if c < |s.classes| && BothDefined(s.classes[c], v) {
      UnsubscribedFrame(s, c, Compact(s.classes[c].subscription, v, OFF));
    }
  }

  lemma WholeVector(v: seq<nat>)
    ensures v[0..] == v && v[..0] == [] && forall w: seq<nat> :: v[..0] + w == w
  {}

  lemma NothingTaken(m: map<string, nat>, ns: set<string>)
    requires ns <= m.Keys
    ensures m - (ns - ns) == m && HandlesFor(m, AscendingNames({})) == []
    ensures [] + HandlesFor(m, AscendingNames(ns)) == HandlesFor(m, AscendingNames(ns))
  {}

  lemma HandlesForFirst(m: map<string, nat>, n: string, rest: seq<string>)
    requires n in m && forall i | 0 <= i < |rest| :: rest[i] in m
    ensures forall i | 0 <= i < |[n] + rest| :: ([n] + rest)[i] in m
    ensures HandlesFor(m, [n] + rest) == [m[n]] + HandlesFor(m, rest)
  {}

  lemma TakenFrom(m: map<string, nat>, ns: set<string>, todo: set<string>, n: string)
    requires todo <= ns <= m.Keys && n in todo
    ensures n in m - (ns - todo) && (m - (ns - todo))[n] == m[n]
    ensures (m - (ns - todo)) - {n} == m - (ns - (todo - {n}))
  {
    assert ns - (todo - {n}) == (ns - todo) + {n};
  }

  /** One turn of the loop that gives back several reserved names in their order. */
  lemma TakeNext(m: map<string, nat>, todo: set<string>, n: string, handles: seq<nat>)
    requires todo <= m.Keys && todo != {} && n == FirstName(todo)
    ensures handles + HandlesFor(m, AscendingNames(todo))
         == handles + [m[n]] + HandlesFor(m, AscendingNames(todo - {n}))
  {
    hide HandlesFor;
    var rest := AscendingNames(todo - {n});
    assert AscendingNames(todo) == [n] + rest;
    HandlesForFirst(m, n, rest);
    assert handles + ([m[n]] + HandlesFor(m, rest)) == handles + [m[n]] + HandlesFor(m, rest);
  }

  // What the other calls do, without the rest of `Step`.

  lemma ReleaseNamesIs(s: Federate, ns: set<string>)
    requires WellFormed(s.classes)
    ensures !(ns <= s.reserved.Keys) ==> Step(s, FederateModel.ReleaseNames(ns)) == Reply(NameNotReserved, s)
    ensures ns <= s.reserved.Keys ==>
              Step(s, FederateModel.ReleaseNames(ns))
                == Reply(Done, Sending(s.(reserved := s.reserved - ns),
                                       ReleaseHandles(HandlesFor(s.reserved, AscendingNames(ns)))))
  {}

  lemma RegisterIs(s: Federate, c: nat)
    requires WellFormed(s.classes)
    ensures Step(s, Register(c)) == RegisterStep(s, c)
  {}

  lemma RegisterNamedIs(s: Federate, c: nat, name: string, allow: bool, reply: Option<nat>)
    requires WellFormed(s.classes)
    ensures Step(s, RegisterNamed(c, name, allow, reply)) == RegisterNamedStep(s, c, name, allow, reply)
  {}

  /** The part of the ambassador and of its Federate that the services share. */
  class Ambassador {
    var objectClasses: seq<ObjectClass>
    var instances: map<nat, Instance>
    var names: map<string, nat>
    var free: map<string, nat>
    var reserved: map<string, nat>
    var sent: seq<Message>

    ghost function Classes(): (r: seq<ClassState>)
      reads this`objectClasses, objectClasses
      ensures |r| == |objectClasses|
      ensures forall i | 0 <= i < |r| :: r[i] == objectClasses[i].State()
    {
      States(objectClasses)
    }

    ghost function View(): Federate
      reads this, objectClasses
    {
      Federate(Classes(), instances, names, free, reserved, sent)
    }

    ghost predicate Tree()
      reads this`objectClasses, objectClasses
    {
      && (forall i | 0 <= i < |objectClasses| :: objectClasses[i].handle == i)
      && WellFormed(Classes())
    }

    ghost predicate Valid()
      reads this, objectClasses
    {
      Tree() && OneHolder(View())
    }

    /** A federate that has just joined. */
    constructor (objectClasses: seq<ObjectClass>)
      requires forall i | 0 <= i < |objectClasses| :: objectClasses[i].handle == i
      requires WellFormed(States(objectClasses))
      ensures this.objectClasses == objectClasses
      ensures Valid() && View() == Federate(Classes(), map[], map[], map[], map[], [])
    {
      this.objectClasses := objectClasses;
      instances, names, free, reserved, sent := map[], map[], map[], map[], [];
      new;
      assert forall h :: Places(View(), h) == 0;
    }

    // -------------------------------------------------------------------- arriving classes

    /** The declaration state that Federate::insertObjectClass gives a new class. */
    method InsertObjectClass(parent: Option<nat>, own: nat)
      requires Valid() && Arrives(Classes(), ClassArrived(parent, own))
      modifies this`objectClasses
      ensures Valid() && View() == Step(old(View()), ClassArrived(parent, own)).state
      ensures fresh(objectClasses[|old(objectClasses)|..]) && old(objectClasses) <= objectClasses
    {
      hide OneHolder, Step, WellFormed;
      StepShape(View(), ClassArrived(parent, own));
      StepKeepsOneHolder(View(), ClassArrived(parent, own));
      StepArrives(View(), ClassArrived(parent, own));
      ghost var before := Classes();
      var objectClass: ObjectClass;
      if parent.None? {
        objectClass := new ObjectClass(|objectClasses|, None, |objectClasses|, own);
      } else {
        objectClass := new ObjectClass.Below(|objectClasses|, objectClasses[parent.value], |objectClasses|, own);
      }
      assert objectClass.State() == NewClass(before, parent, own);
      objectClasses := objectClasses + [objectClass];
      assert Classes() == before + [NewClass(before, parent, own)];
    }

    // ------------------------------------------------------------ 5.2, 5.3: publication

    method ObjectClassAttributesDefined(c: nat, attributes: seq<nat>) returns (defined: bool)
      requires c < |objectClasses| && Tree()
      ensures defined <==> BothDefined(Classes()[c], attributes)
    {
      for i := 0 to |attributes|
        invariant forall k | 0 <= k < i :: attributes[k] < |objectClasses[c].attributePublications|
      {
        if attributes[i] >= |objectClasses[c].attributePublications| { return false; }
      }
      return true;
    }

    /** All that a call on the class at `c` changes in the class list is that class. */
    twostate lemma OnlyClassChanged(c: nat)
      requires old(Tree()) && objectClasses == old(objectClasses) && c < |objectClasses|
      requires forall i | 0 <= i < |objectClasses| && i != c :: unchanged(objectClasses[i])
      ensures Classes() == old(Classes())[c := objectClasses[c].State()]
    {}

    // What the calls do to the class they are about; the other classes stay as they are.

    method PublishIn(c: nat, attributes: seq<nat>) returns (v: seq<nat>)
      requires Tree() && c < |objectClasses| && BothDefined(Classes()[c], attributes)
      modifies objectClasses
      ensures var r := Declare(old(Classes())[c].publication, attributes, PUBLISHED);
              && Classes() == old(Classes())[c := old(Classes())[c].(publication := r.after)]
              && v == r.attributes
    {
      hide Declare, UndeclareAll, Compact, WellFormed;
      SidesValid(Classes(), c);
      v := objectClasses[c].PublishAll(attributes);
      OnlyClassChanged(c);
    }

    method UnpublishIn(c: nat) returns (v: seq<nat>)
      requires Tree() && c < |objectClasses|
      modifies objectClasses
      ensures var r := UndeclareAll(old(Classes())[c].publication);
              && Classes() == old(Classes())[c := old(Classes())[c].(publication := r.after)]
              && v == r.attributes
    {
      hide Declare, UndeclareAll, Compact, WellFormed;
      SidesValid(Classes(), c);
      v := objectClasses[c].UnpublishAll();
      OnlyClassChanged(c);
    }

    method UnpublishListedIn(c: nat, attributes: seq<nat>) returns (v: seq<nat>)
      requires Tree() && c < |objectClasses| && BothDefined(Classes()[c], attributes)
      modifies objectClasses
      ensures var r := Compact(old(Classes())[c].publication, attributes, OFF);
              && Classes() == old(Classes())[c := old(Classes())[c].(publication := r.after)]
              && v == r.attributes
    {
      hide Declare, UndeclareAll, Compact, WellFormed;
      SidesValid(Classes(), c);
      WholeVector(attributes);
      v := objectClasses[c].CompactPublications(attributes, 0, OFF);
      OnlyClassChanged(c);
    }

    method SubscribeIn(c: nat, attributes: seq<nat>, level: Level) returns (v: seq<nat>)
      requires Tree() && c < |objectClasses| && BothDefined(Classes()[c], attributes) && level != OFF
      modifies objectClasses
      ensures var r := Declare(old(Classes())[c].subscription, attributes, level);
              && Classes() == old(Classes())[c := old(Classes())[c].(subscription := r.after)]
              && v == r.attributes
    {
      hide Declare, UndeclareAll, Compact, WellFormed;
      SidesValid(Classes(), c);
      v := objectClasses[c].SubscribeAll(attributes, level);
      OnlyClassChanged(c);
    }

    method UnsubscribeIn(c: nat) returns (v: seq<nat>)
      requires Tree() && c < |objectClasses|
      modifies objectClasses
      ensures var r := UndeclareAll(old(Classes())[c].subscription);
              && Classes() == old(Classes())[c := old(Classes())[c].(subscription := r.after)]
              && v == r.attributes
    {
      hide Declare, UndeclareAll, Compact, WellFormed;
      SidesValid(Classes(), c);
      v := objectClasses[c].UnsubscribeAll();
      OnlyClassChanged(c);
    }

    method UnsubscribeListedIn(c: nat, attributes: seq<nat>) returns (v: seq<nat>)
      requires Tree() && c < |objectClasses| && BothDefined(Classes()[c], attributes)
      modifies objectClasses
      ensures var r := Compact(old(Classes())[c].subscription, attributes, OFF);
              && Classes() == old(Classes())[c := old(Classes())[c].(subscription := r.after)]
              && v == r.attributes
    {
      hide Declare, UndeclareAll, Compact, WellFormed;
      SidesValid(Classes(), c);
      WholeVector(attributes);
      v := objectClasses[c].CompactSubscriptions(attributes, 0, OFF);
      OnlyClassChanged(c);
    }

    method PublishObjectClassAttributes(c: nat, attributes: seq<nat>) returns (outcome: Outcome)
      requires Tree()
      modifies this`sent, objectClasses
      ensures Tree() && Reply(outcome, View()) == Step(old(View()), Publish(c, attributes))
    {
      hide Step, Declare, WellFormed, Declaration.Defined, SameShape;
      StepShape(View(), Publish(c, attributes));
      PublishIs(View(), c, attributes);
      if c >= |objectClasses| { return ObjectClassNotDefined; }
      var defined := ObjectClassAttributesDefined(c, attributes);
      if !defined { return AttributeNotDefined; }
      var v := PublishIn(c, attributes);
      if v != [] { sent := sent + [ChangePublication(c, PUBLISHED, v)]; }
      outcome := Done;
    }

    method UnpublishObjectClass(c: nat) returns (outcome: Outcome)
      requires Tree()
      modifies this`sent, objectClasses
      ensures Tree() && Reply(outcome, View()) == Step(old(View()), UnpublishClass(c))
    {
      hide Step, UndeclareAll, WellFormed, SameShape;
      StepShape(View(), UnpublishClass(c));
      UnpublishClassIs(View(), c);
      if c >= |objectClasses| { return ObjectClassNotDefined; }
      var v := UnpublishIn(c);
      if v != [] { sent := sent + [ChangePublication(c, OFF, v)]; }
      outcome := Done;
    }

    method UnpublishObjectClassAttributes(c: nat, attributes: seq<nat>) returns (outcome: Outcome)
      requires Tree()
      modifies this`sent, objectClasses
      ensures Tree() && Reply(outcome, View()) == Step(old(View()), UnpublishAttributes(c, attributes))
    {
      hide Step, Compact, WellFormed, Declaration.Defined, SameShape;
      StepShape(View(), UnpublishAttributes(c, attributes));
      UnpublishAttributesIs(View(), c, attributes);
      if c >= |objectClasses| { return ObjectClassNotDefined; }
      var defined := ObjectClassAttributesDefined(c, attributes);
      if !defined { return AttributeNotDefined; }
      var v := UnpublishListedIn(c, attributes);
      if v != [] { sent := sent + [ChangePublication(c, OFF, v)]; }
      outcome := Done;
    }

    // ---------------------------------------------------------- 5.6, 5.7: subscription

    method SubscribeObjectClassAttributes(c: nat, attributes: seq<nat>, active: bool) returns (outcome: Outcome)
      requires Tree()
      modifies this`sent, objectClasses
      ensures Tree() && Reply(outcome, View()) == Step(old(View()), Subscribe(c, attributes, active))
    {
      hide Step, Declare, WellFormed, Declaration.Defined, SameShape;
      StepShape(View(), Subscribe(c, attributes, active));
      SubscribeIs(View(), c, attributes, active);
      if c >= |objectClasses| { return ObjectClassNotDefined; }
      var defined := ObjectClassAttributesDefined(c, attributes);
      if !defined { return AttributeNotDefined; }
      var subscriptionType := if active then ACTIVE else PASSIVE;
      var v := SubscribeIn(c, attributes, subscriptionType);
      if v != [] { sent := sent + [ChangeSubscription(c, subscriptionType, v)]; }
      outcome := Done;
    }

    method UnsubscribeObjectClass(c: nat) returns (outcome: Outcome)
      requires Valid()
      modifies this`instances, this`names, this`sent, objectClasses
      ensures Valid() && Reply(outcome, View()) == Step(old(View()), UnsubscribeClass(c))
    {
      hide Step, UndeclareAll, WellFormed, OneHolder, ReleaseUnowned, SameShape;
      StepShape(View(), UnsubscribeClass(c));
      StepKeepsOneHolder(View(), UnsubscribeClass(c));
      UnsubscribeClassIs(View(), c);
      if c >= |objectClasses| { return ObjectClassNotDefined; }
      var v := UnsubscribeIn(c);
      outcome := Done;
      if v != [] {
        sent := sent + [ChangeSubscription(c, OFF, v)];
        ReleaseUnownedInstances(c);
      }
    }

    method UnsubscribeObjectClassAttributes(c: nat, attributes: seq<nat>) returns (outcome: Outcome)
      requires Valid()
      modifies this`instances, this`names, this`sent, objectClasses
      ensures Valid() && Reply(outcome, View()) == Step(old(View()), UnsubscribeAttributes(c, attributes))
    {
      hide Step, Compact, WellFormed, OneHolder, ReleaseUnowned, Declaration.Defined, SameShape;
      StepShape(View(), UnsubscribeAttributes(c, attributes));
      StepKeepsOneHolder(View(), UnsubscribeAttributes(c, attributes));
      UnsubscribeAttributesIs(View(), c, attributes);
      if c >= |objectClasses| { return ObjectClassNotDefined; }
      var defined := ObjectClassAttributesDefined(c, attributes);
      if !defined { return AttributeNotDefined; }
      var v := UnsubscribeListedIn(c, attributes);
      outcome := Done;
      if v != [] { SendUnsubscribed(c, v); }
    }

    method SendUnsubscribed(c: nat, v: seq<nat>)
      requires c < |objectClasses| && objectClasses[c].Subscription().Valid()
      modifies this`instances, this`names, this`sent
      ensures var s := Sending(old(View()), ChangeSubscription(c, OFF, v));
              View() == if Effective(Classes()[c].subscription, 0) == OFF then ReleaseUnowned(s, c) else s
    {
      hide ReleaseUnowned;
      sent := sent + [ChangeSubscription(c, OFF, v)];
      if objectClasses[c].EffectiveSubscriptionType(0) == OFF {
        ReleaseUnownedInstances(c);
      }
    }

    /** The loop both unsubscriptions end in: visit the instances in handle order, and
        release those of this class that are not owned, erasing them while iterating. */
    method ReleaseUnownedInstances(c: nat)
      modifies this`instances, this`names, this`sent
      ensures View() == ReleaseUnowned(old(View()), c)
    {
      ghost var goal, chosen := ReleaseUnowned(View(), c), Unjustified(View(), c);
      var todo := instances.Keys;
      assert todo * chosen == chosen;
      while todo != {}
        invariant todo <= instances.Keys
        invariant forall h | h in todo ::
          h in chosen <==> instances[h].objectClass == c && !instances[h].OwnedByFederate()
        invariant ReleaseEach(View(), Ascending(todo * chosen)) == goal
        decreases todo
      {
        var h := FirstHandle(todo);
        ReleaseEachSteps(View(), h, todo, chosen);
        todo := todo - {h};
        if instances[h].objectClass != c {
        } else if instances[h].OwnedByFederate() {
        } else {
          ReleaseObjectInstance(h);
        }
      }
      assert Ascending(todo * chosen) == [];
    }

    method ReleaseObjectInstance(h: nat)
      modifies this`instances, this`names, this`sent
      ensures View() == Release(old(View()), h)
    {
      EraseObjectInstance(h);
      sent := sent + [ReleaseHandles([h])];
    }

    // ------------------------------------------------------------- instances and names

    method EraseObjectInstance(h: nat)
      modifies this`instances, this`names
      ensures View() == Erase(old(View()), h)
    {
      if h !in instances { return; }
      names := names - {instances[h].name};
      instances := instances - {h};
    }

    /** The two preconditions on the maps are the insertion's own assertions. */
    method InsertObjectInstance(h: nat, name: string, c: nat, owned: bool)
      requires name !in names && h !in instances && c < |objectClasses|
      modifies this`instances, this`names
      ensures View() == Insert(old(View()), h, name, c, owned)
    {
      names := names[name := h];
      var flags := [];
      for k := 0 to |objectClasses[c].attributePublications|
        invariant flags == OwnedFlags(Classes()[c], owned)[..k]
      {
        flags := flags + [owned && objectClasses[c].EffectivePublicationType(k) != OFF];
      }
      assert flags == OwnedFlags(Classes()[c], owned);
      instances := instances[h := Instance(name, c, flags)];
    }

    method InsertObjectInstanceHandleNamePairs(pairs: seq<Pair>)
      requires Valid() && UnusedPairs(View(), pairs)
      modifies this`free
      ensures Valid() && View() == Step(old(View()), HandlesGranted(pairs)).state
    {
      GrantEach(View(), pairs);
      for i := 0 to |pairs|
        invariant AddPairs(free, pairs[i..]) == AddPairs(old(free), pairs)
      {
        assert pairs[i..][1..] == pairs[i + 1..];
        free := free[pairs[i].name := pairs[i].handle];
      }
    }

    method InsertReservedObjectInstanceHandleNamePairs(pairs: seq<Pair>)
      requires Valid() && UnusedPairs(View(), pairs)
      modifies this`reserved
      ensures Valid() && View() == Step(old(View()), NamesGranted(pairs)).state
    {
      ReserveEach(View(), pairs);
      for i := 0 to |pairs|
        invariant AddPairs(reserved, pairs[i..]) == AddPairs(old(reserved), pairs)
      {
        assert pairs[i..][1..] == pairs[i + 1..];
        reserved := reserved[pairs[i].name := pairs[i].handle];
      }
    }

    method TakeReservedObjectInstanceName(name: string) returns (h: Option<nat>)
      modifies this`reserved
      ensures name in old(reserved) ==> h == Some(old(reserved)[name]) && reserved == old(reserved) - {name}
      ensures name !in old(reserved) ==> h == None && reserved == old(reserved)
    {
      if name !in reserved { return None; }
      h := Some(reserved[name]);
      reserved := reserved - {name};
    }

    method ReleaseObjectInstanceName(name: string) returns (outcome: Outcome)
      requires Valid()
      modifies this`reserved, this`sent
      ensures Valid() && Reply(outcome, View()) == Step(old(View()), FederateModel.ReleaseName(name))
    {
      hide OneHolder;
      StepKeepsOneHolder(View(), FederateModel.ReleaseName(name));
      var h := TakeReservedObjectInstanceName(name);
      if h.None? { return NameNotReserved; }
      sent := sent + [ReleaseHandles([h.value])];
      outcome := Done;
    }

    method ReleaseMultipleObjectInstanceName(nameSet: set<string>) returns (outcome: Outcome)
      requires Valid()
      modifies this`reserved, this`sent
      ensures Valid() && Reply(outcome, View()) == Step(old(View()), FederateModel.ReleaseNames(nameSet))
    {
      hide OneHolder, HandlesFor, Step, WellFormed;
      StepKeepsOneHolder(View(), FederateModel.ReleaseNames(nameSet));
      ReleaseNamesIs(View(), nameSet);
      if !(nameSet <= reserved.Keys) { return NameNotReserved; }
      var handles := TakeReservedNames(nameSet);
      sent := sent + [ReleaseHandles(handles)];
      outcome := Done;
    }

    /** The loop over the set, in the order of the names. */
    method TakeReservedNames(nameSet: set<string>) returns (handles: seq<nat>)
      requires nameSet <= reserved.Keys
      modifies this`reserved
      ensures reserved == old(reserved) - nameSet
      ensures handles == HandlesFor(old(reserved), AscendingNames(nameSet))
    {
      hide HandlesFor;
      handles := [];
      var todo := nameSet;
      ghost var goal := HandlesFor(reserved, AscendingNames(nameSet));
      NothingTaken(reserved, nameSet);
      while todo != {}
        invariant todo <= nameSet && reserved == old(reserved) - (nameSet - todo)
        invariant handles + HandlesFor(old(reserved), AscendingNames(todo)) == goal
        decreases todo
      {
        var n := FirstOfNames(todo);
        TakeNext(old(reserved), todo, n, handles);
        TakenFrom(old(reserved), nameSet, todo, n);
        var h := TakeReservedObjectInstanceName(n);
        handles := handles + [h.value];
        todo := todo - {n};
      }
      assert nameSet - todo == nameSet;
    }

    // ---------------------------------------------------------- 6.8: register instance

    method AnnounceRegistered(h: nat, name: string, c: nat)
      requires name !in names && h !in instances && c < |objectClasses|
      modifies this`instances, this`names, this`sent
      ensures View() == Registered(old(View()), h, name, c)
    {
      InsertObjectInstance(h, name, c, true);
      var attributes := objectClasses[c].Published();
      sent := sent + [InsertInstance(h, c, name, attributes)];
    }

    /** When the pool is empty the code waits for a grant; a grant that arrives in time is
        one made before this call, and otherwise the call ends in the timeout error. */
    method RegisterObjectInstance(c: nat) returns (outcome: Outcome)
      requires Valid()
      modifies this`instances, this`names, this`free, this`sent
      ensures Valid() && Reply(outcome, View()) == Step(old(View()), Register(c))
    {
      hide OneHolder, Step, WellFormed, Registered;
      StepKeepsOneHolder(View(), Register(c));
      RegisterIs(View(), c);
      if c >= |objectClasses| { return ObjectClassNotDefined; }
      SidesValid(Classes(), c);
      if objectClasses[c].EffectivePublicationType(0) != PUBLISHED { return ObjectClassNotPublished; }
      sent := sent + [RequestHandles(1)];
      if free == map[] { return NoFreeHandles; }
      var pair := TakeFreeObjectInstanceHandleNamePair();
      PooledIsNew(old(View()), pair.name);
      AnnounceRegistered(pair.handle, pair.name, c);
      outcome := Done;
    }

    method TakeFreeObjectInstanceHandleNamePair() returns (pair: Pair)
      requires free != map[]
      modifies this`free
      ensures pair.name == FirstName(old(free).Keys) && pair.name in old(free)
      ensures pair.handle == old(free)[pair.name] && free == old(free) - {pair.name}
    {
      var name := FirstOfNames(free.Keys);
      pair := Pair(free[name], name);
      free := free - {name};
    }

    /** `reply` is what the server answers if the name has to be reserved on the way. */
    method RegisterNamedObjectInstance(c: nat, name: string, allowUnreserved: bool, reply: Option<nat>)
      returns (outcome: Outcome)
      requires Valid() && ServerGrantsUnused(View(), RegisterNamed(c, name, allowUnreserved, reply))
      modifies this`instances, this`names, this`reserved, this`sent
      ensures Valid() && Reply(outcome, View()) == Step(old(View()), RegisterNamed(c, name, allowUnreserved, reply))
    {
      hide OneHolder, Step, WellFormed, Registered;
      StepKeepsOneHolder(View(), RegisterNamed(c, name, allowUnreserved, reply));
      RegisterNamedIs(View(), c, name, allowUnreserved, reply);
      if c >= |objectClasses| { return ObjectClassNotDefined; }
      SidesValid(Classes(), c);
      if objectClasses[c].EffectivePublicationType(0) != PUBLISHED { return ObjectClassNotPublished; }
      if name == [] { return NameNotReserved; }
      PooledIsNew(View(), name);
      var h := TakeReservedObjectInstanceName(name);
      if h.None? {
        if !allowUnreserved { return NameNotReserved; }
        h := reply;
        if h.None? { return NameInUse; }
      }
      AnnounceRegistered(h.value, name, c);
      outcome := Done;
    }

    // -------------------------------------------------- 6.9 and after: discover, delete

    /** Discovery happens at the nearest subscribed ancestor-or-self of the sent class. */
    method InsertObjectInstanceArrived(h: nat, name: string, c: nat)
      requires Valid() && ServerGrantsUnused(View(), InsertArrived(h, name, c))
      modifies this`instances, this`names
      ensures Valid() && View() == Step(old(View()), InsertArrived(h, name, c)).state
    {
      StepKeepsOneHolder(View(), InsertArrived(h, name, c));
      if c >= |objectClasses| { return; }
      var known: nat := c;
      while objectClasses[known].EffectiveSubscriptionType(0) == OFF
        invariant known < |objectClasses|
        invariant NearestSubscribed(Classes(), known) == NearestSubscribed(Classes(), c)
        decreases objectClasses[known].inserted
      {
        var parent := objectClasses[known].parent;
        if parent.None? { return; }
        known := parent.value;
      }
      if h in instances { return; }
      InsertObjectInstance(h, name, known, false);
    }

    method RemoveObjectInstanceArrived(h: nat)
      requires Valid()
      modifies this`instances, this`names, this`sent
      ensures Valid() && View() == Step(old(View()), RemoveArrived(h)).state
    {
      StepKeepsOneHolder(View(), RemoveArrived(h));
      if h !in instances { return; }
      ReleaseObjectInstance(h);
    }

    method DeleteObjectInstance(h: nat) returns (outcome: Outcome)
      requires Valid()
      modifies this`instances, this`names, this`sent
      ensures Valid() && Reply(outcome, View()) == Step(old(View()), Delete(h))
    {
      StepKeepsOneHolder(View(), Delete(h));
      if h !in instances { return InstanceNotKnown; }
      if !instances[h].OwnedByFederate() { return DeletePrivilegeNotHeld; }
      sent := sent + [FederateModel.DeleteInstance(h)];
      ReleaseObjectInstance(h);
      outcome := Done;
    }
  }
}
