/** Why an instance is known: this federate owns it, or is subscribed at the class it is
    known at. Every call keeps that, so no instance outlives its last reason. */
module KnownInstances {
  import opened Util
  import opened Declarations
  import opened FederateModel

  predicate Justified(s: Federate)
    requires WellFormed(s.classes)
  {
    forall h | h in s.instances ::
      && s.instances[h].objectClass < |s.classes|
      && (s.instances[h].OwnedByFederate() || Subscribed(s.classes, s.instances[h].objectClass))
  }

  /** Only class `c` can have lost its subscription between `a` and `b`. */
  predicate SubscribedExcept(a: seq<ClassState>, b: seq<ClassState>, c: nat)
    requires WellFormed(a) && WellFormed(b)
  {
    |a| == |b| && forall k | 0 <= k < |a| && k != c && Subscribed(a, k) :: Subscribed(b, k)
  }

  lemma {:induction false} ReleaseEachInstances(s: Federate, hs: seq<nat>)
    ensures ReleaseEach(s, hs).instances == s.instances - (set h | h in hs)
    decreases |hs|
  {
    if hs != [] {
      ReleaseEachInstances(Release(s, hs[0]), hs[1..]);
      assert (set h | h in hs) == {hs[0]} + (set h | h in hs[1..]);
    } else {
      assert s.instances - (set h | h in hs) == s.instances;
    }
  }

  lemma ReleaseUnownedJustifies(s: Federate, s0: Federate, c: nat)
    requires WellFormed(s0.classes) && WellFormed(s.classes) && Justified(s0)
    requires s.instances == s0.instances && SubscribedExcept(s0.classes, s.classes, c)
    ensures WellFormed(ReleaseUnowned(s, c).classes) && Justified(ReleaseUnowned(s, c))
  {
    var gone := Unjustified(s, c);
    AscendingElements(gone);
    ReleaseEachFrame(s, Ascending(gone));
    ReleaseEachInstances(s, Ascending(gone));
    var s' := ReleaseUnowned(s, c);
    forall h | h in s'.instances
      ensures s'.instances[h].OwnedByFederate() || Subscribed(s'.classes, s'.instances[h].objectClass)
    {
      assert h !in gone && s'.instances[h] == s0.instances[h];
    }
  }

  /** An unsubscription that leaves the class subscribed, or was never subscribed, has
      nothing to release; any other one releases exactly the unowned instances there. */
  lemma UnsubscribedJustified(s: Federate, c: nat, r: Delta)
    requires WellFormed(s.classes) && Justified(s) && c < |s.classes|
    requires NamesChanges(s.classes[c].subscription, r)
    ensures WellFormed(Unsubscribed(s, c, r).classes) && Justified(Unsubscribed(s, c, r))
  {
    hide ReleaseUnowned, Unjustified, WellFormed, Justified;
    var s1 := WithSubscription(s, c, r, OFF);
    SubscriptionValid(s.classes, c);
    SubscriptionShape(s, c, r, OFF);
    ShapeKeepsTree(s.classes, s1.classes);
    assert SubscribedExcept(s.classes, s1.classes, c);
    if r.attributes != [] && Effective(r.after, 0) == OFF {
      ReleaseUnownedJustifies(s1, s, c);
    } else {
      StillSubscribed(s, c, r);
      UnchangedJustified(s, s1, c);
    }
  }

  lemma SubscriptionValid(classes: seq<ClassState>, c: nat)
    requires WellFormed(classes) && c < |classes|
    ensures classes[c].subscription.Valid()
  {}

  lemma StillSubscribed(s: Federate, c: nat, r: Delta)
    requires WellFormed(s.classes) && c < |s.classes| && NamesChanges(s.classes[c].subscription, r)
    requires r.after.Valid() && (r.attributes == [] || Effective(r.after, 0) != OFF)
    requires WellFormed(WithSubscription(s, c, r, OFF).classes)
    ensures Subscribed(s.classes, c) ==> Subscribed(WithSubscription(s, c, r, OFF).classes, c)
  {
    assert r.attributes == [] ==> Effective(s.classes[c].subscription, 0) == Effective(r.after, 0);
  }

  lemma UnchangedJustified(s: Federate, s1: Federate, c: nat)
    requires WellFormed(s.classes) && WellFormed(s1.classes) && Justified(s) && s1.instances == s.instances
    requires SubscribedExcept(s.classes, s1.classes, c) && c < |s.classes|
    ensures (Subscribed(s.classes, c) ==> Subscribed(s1.classes, c)) ==> Justified(s1)
  {}

  lemma SubscribedMoreJustified(s: Federate, c: nat, r: Delta, level: Level)
    requires WellFormed(s.classes) && Justified(s) && c < |s.classes|
    requires |r.after.levels| == |s.classes[c].subscription.levels| && Effective(r.after, 0) != OFF
    ensures WellFormed(WithSubscription(s, c, r, level).classes) && Justified(WithSubscription(s, c, r, level))
  {
    hide WellFormed;
    var s' := WithSubscription(s, c, r, level);
    SubscriptionShape(s, c, r, level);
    ShapeKeepsTree(s.classes, s'.classes);
    assert forall k | 0 <= k < |s.classes| && k != c :: Subscribed(s'.classes, k) == Subscribed(s.classes, k);
  }

  lemma PublishedJustified(s: Federate, c: nat, r: Delta, level: Level)
    requires WellFormed(s.classes) && Justified(s) && c < |s.classes|
    requires |r.after.levels| == |s.classes[c].publication.levels|
    ensures WellFormed(WithPublication(s, c, r, level).classes) && Justified(WithPublication(s, c, r, level))
  {
    hide WellFormed;
    var s' := WithPublication(s, c, r, level);
    PublicationShape(s, c, r, level);
    ShapeKeepsTree(s.classes, s'.classes);
    assert forall k | 0 <= k < |s.classes| :: Subscribed(s'.classes, k) == Subscribed(s.classes, k);
  }

  lemma DeclarationJustified(s: Federate, call: Call)
    requires WellFormed(s.classes) && IsDeclaration(call) && Justified(s)
    ensures WellFormed(DeclarationStep(s, call).state.classes) && Justified(DeclarationStep(s, call).state)
  {
    hide DeltaOf, Unsubscribed, WithPublication, WithSubscription, Justified, WellFormed, NamesChanges;
    if Accepts(s, call) {
      var c, r := call.objectClass, DeltaOf(s, call);
      DeltaNames(s, call);
      if IsPublication(call) {
        PublishedJustified(s, c, r, LevelOf(call));
      } else if call.Subscribe? {
        SubscribedMoreJustified(s, c, r, LevelOf(call));
      } else {
        UnsubscribedJustified(s, c, r);
      }
    }
  }

  lemma RegisteredJustified(s: Federate, h: nat, name: string, c: nat)
    requires WellFormed(s.classes) && Justified(s) && c < |s.classes| && ClassPublished(s, c)
    ensures Registered(s, h, name, c).classes == s.classes && Justified(Registered(s, h, name, c))
  {
    var flags := OwnedFlags(s.classes[c], true);
    assert flags[0];
  }

  lemma StepJustified(s: Federate, call: Call)
    requires WellFormed(s.classes) && Justified(s)
    ensures WellFormed(Step(s, call).state.classes) && Justified(Step(s, call).state)
  {
    hide DeclarationStep, ArrivalStep, RegisterStep, RegisterNamedStep, Registered, NearestSubscribed;
    if IsDeclaration(call) {
      DeclarationJustified(s, call);
    } else if IsArrival(call) {
      ArrivalJustified(s, call);
    } else {
      OtherJustified(s, call);
    }
  }

  lemma ArrivalJustified(s: Federate, call: Call)
    requires WellFormed(s.classes) && Justified(s) && IsArrival(call)
    ensures WellFormed(ArrivalStep(s, call).state.classes) && Justified(ArrivalStep(s, call).state)
  {
    hide WellFormed, ArrivalStep, Extends;
    ArrivalKeepsTree(s, call);
    ExtendedSubscriptions(s.classes, ArrivalStep(s, call).state.classes);
  }

  lemma ExtendedSubscriptions(a: seq<ClassState>, b: seq<ClassState>)
    requires WellFormed(a) && WellFormed(b) && Extends(a, b)
    ensures |a| <= |b| && forall c | 0 <= c < |a| :: Subscribed(b, c) == Subscribed(a, c)
  {
    forall c | 0 <= c < |a| ensures Effective(a[c].subscription, 0) == Effective(b[c].subscription, 0) {
      assert a[c].subscription.levels[0] == b[c].subscription.levels[..|a[c].subscription.levels|][0];
    }
  }

  lemma OtherJustified(s: Federate, call: Call)
    requires WellFormed(s.classes) && Justified(s) && !IsDeclaration(call) && !IsArrival(call)
    ensures WellFormed(Step(s, call).state.classes) && Justified(Step(s, call).state)
  {
    hide DeclarationStep, ArrivalStep, RegisterStep, RegisterNamedStep, NearestSubscribed, WellFormed;
    OtherFrame(s, call);
    match call
    case Register(c) => RegisterJustified(s, c);
    case RegisterNamed(c, name, allow, reply) => RegisterNamedJustified(s, c, name, allow, reply);
    case _ =>
  }

  lemma RegisterJustified(s: Federate, c: nat)
    requires WellFormed(s.classes) && Justified(s)
    ensures RegisterStep(s, c).state.classes == s.classes && Justified(RegisterStep(s, c).state)
  {
    hide Registered;
    if c < |s.classes| && ClassPublished(s, c) && s.free != map[] {
      var n := FirstName(s.free.Keys);
      RegisteredJustified(Sending(s, RequestHandles(1)).(free := s.free - {n}), s.free[n], n, c);
    }
  }

  lemma RegisterNamedJustified(s: Federate, c: nat, name: string, allow: bool, reply: Option<nat>)
    requires WellFormed(s.classes) && Justified(s)
    ensures var s' := RegisterNamedStep(s, c, name, allow, reply).state;
            s'.classes == s.classes && Justified(s')
  {
    hide Registered;
    if c < |s.classes| && ClassPublished(s, c) {
      if name in s.reserved {
        RegisteredJustified(s.(reserved := s.reserved - {name}), s.reserved[name], name, c);
      } else if reply.Some? {
        RegisteredJustified(s, reply.value, name, c);
      }
    }
  }

  /** Main result: after any run, each known instance is owned by this federate or known
      at a class whose effective subscription is not Unsubscribed. */
  lemma {:induction false} InstancesStayJustified(s: Federate, calls: seq<Call>)
    requires Fresh(s)
    ensures Justified(Run(s, calls))
    decreases |calls|
  {
    if calls != [] {
      var n := |calls| - 1;
      InstancesStayJustified(s, calls[..n]);
      StepJustified(Run(s, calls[..n]), calls[n]);
    }
  }

  /** In a justified state, either unsubscription forgets exactly the instances that are not
      owned here and whose class is then no longer subscribed; all others stay as they are. */
  lemma UnsubscribeForgets(s: Federate, call: Call)
    requires WellFormed(s.classes) && Justified(s) && (call.UnsubscribeClass? || call.UnsubscribeAttributes?)
    ensures WellFormed(Step(s, call).state.classes) && |Step(s, call).state.classes| == |s.classes|
    ensures var t := Step(s, call).state;
            && (forall h :: h in t.instances <==>
                  && h in s.instances
                  && (s.instances[h].OwnedByFederate() || Subscribed(t.classes, s.instances[h].objectClass)))
            && forall h | h in t.instances :: t.instances[h] == s.instances[h]
  {
    hide WellFormed, DeltaOf, Unsubscribed, Justified;
    StepShape(s, call);
    StepDeclares(s, call);
    StepJustified(s, call);
    if Accepts(s, call) {
      var c, r := call.objectClass, DeltaOf(s, call);
      DeltaNames(s, call);
      SubscriptionValid(s.classes, c);
      UnsubscribedForgets(s, c, r);
    } else {
      JustifiedKeepsAll(s);
    }
  }

  lemma JustifiedKeepsAll(s: Federate)
    requires WellFormed(s.classes) && Justified(s)
    ensures forall h | h in s.instances ::
              && s.instances[h].objectClass < |s.classes|
              && (s.instances[h].OwnedByFederate() || Subscribed(s.classes, s.instances[h].objectClass))
  {}

  lemma UnsubscribedForgets(s: Federate, c: nat, r: Delta)
    requires WellFormed(s.classes) && Justified(s) && c < |s.classes| && r.after.Valid()
    requires NamesChanges(s.classes[c].subscription, r)
    requires WellFormed(Unsubscribed(s, c, r).classes) && |Unsubscribed(s, c, r).classes| == |s.classes|
    requires Justified(Unsubscribed(s, c, r))
    ensures var t := Unsubscribed(s, c, r);
            && (forall h | h in s.instances :: s.instances[h].objectClass < |s.classes|)
            && (forall h :: h in t.instances <==>
                  && h in s.instances
                  && (s.instances[h].OwnedByFederate() || Subscribed(t.classes, s.instances[h].objectClass)))
            && forall h | h in t.instances :: t.instances[h] == s.instances[h]
  {
    hide WellFormed, ReleaseUnowned, WithSubscription;
    var t, s1 := Unsubscribed(s, c, r), WithSubscription(s, c, r, OFF);
    WithSubscriptionKeeps(s, c, r);
    UnsubscribedFrame(s, c, r);
    if r.attributes != [] && Effective(r.after, 0) == OFF { ReleasedAre(s, s1, c); }
  }

  lemma WithSubscriptionKeeps(s: Federate, c: nat, r: Delta)
    requires c < |s.classes|
    ensures var s1 := WithSubscription(s, c, r, OFF);
            && s1.instances == s.instances
            && s1.classes == s.classes[c := s.classes[c].(subscription := r.after)]
  {}

  lemma ReleasedAre(s: Federate, s1: Federate, c: nat)
    requires s1.instances == s.instances
    ensures ReleaseUnowned(s1, c).instances == s.instances - Unjustified(s, c)
  {
    hide ReleaseEach;
    var gone := Unjustified(s, c);
    assert Unjustified(s1, c) == gone;
    AscendingElements(gone);
    ReleaseEachInstances(s1, Ascending(gone));
    assert (set h | h in Ascending(gone)) == gone;
  }
}
