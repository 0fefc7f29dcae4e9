/** What the rest of the federation can tell about this federate's own instances: replaying
    the insert and delete messages it sent gives exactly the instances it owns. */
module Announcements {
  import opened Util
  import opened Declarations
  import opened FederateModel
  import opened HandleLedger
  import opened Services

  /** An instance as the federation hears of it. */
  datatype Notice = Notice(name: string, objectClass: nat, attributes: set<nat>)

  function Elements(s: seq<nat>): set<nat> { set k | k in s }

  function HeardThen(heard: map<nat, Notice>, m: Message): map<nat, Notice> {
    match m
    case InsertInstance(h, c, name, attributes) => heard[h := Notice(name, c, Elements(attributes))]
    case DeleteInstance(h) => heard - {h}
    case _ => heard
  }

  /** The messages replayed in order. */
  function Heard(messages: seq<Message>): map<nat, Notice>
    decreases |messages|
  {
    if messages == [] then map[]
    else HeardThen(Heard(messages[..|messages| - 1]), messages[|messages| - 1])
  }

  /** The owned instances, each with the attributes that are owned. */
  function Owned(s: Federate): map<nat, Notice> {
    map h | h in s.instances && s.instances[h].OwnedByFederate() ::
      Notice(s.instances[h].name, s.instances[h].objectClass, OwnedAttributes(s.instances[h]))
  }

  function OwnedAttributes(i: Instance): set<nat> { set k | 0 <= k < |i.owned| && i.owned[k] }

  /** The guard: somebody else removes an instance that is owned here. */
  predicate TakenAway(s: Federate, call: Call) {
    call.RemoveArrived? && call.handle in s.instances && s.instances[call.handle].OwnedByFederate()
  }

  lemma HeardOneMore(messages: seq<Message>, m: Message)
    ensures Heard(messages + [m]) == HeardThen(Heard(messages), m)
  {
    assert (messages + [m])[..|messages|] == messages;
  }

  predicate AboutInstances(m: Message) { m.InsertInstance? || m.DeleteInstance? }

  lemma {:induction false} HeardOthers(messages: seq<Message>, more: seq<Message>)
    requires forall i | 0 <= i < |more| :: !AboutInstances(more[i])
    ensures Heard(messages + more) == Heard(messages)
    decreases |more|
  {
    if more == [] {
      assert messages + more == messages;
    } else {
      var n := |more| - 1;
      HeardOthers(messages, more[..n]);
      HeardOneMore(messages + more[..n], more[n]);
      assert messages + more[..n] + [more[n]] == messages + more;
    }
  }

  /** The same instances are owned, and are owned in the same way. */
  predicate OwnsTheSame(s: Federate, t: Federate) {
    && (forall h | h in s.instances && s.instances[h].OwnedByFederate() ::
          h in t.instances && t.instances[h] == s.instances[h])
    && forall h | h in t.instances && t.instances[h].OwnedByFederate() :: h in s.instances && t.instances[h] == s.instances[h]
  }

  lemma OwnedTheSame(s: Federate, t: Federate)
    requires OwnsTheSame(s, t)
    ensures Owned(t) == Owned(s)
  {
    assert Owned(t).Keys == Owned(s).Keys;
  }

  // -------------------------------------------------------------------------- one call

  /** A registration of a new instance is heard as what is then owned. */
  lemma IntroducedHeard(s: Federate, t: Federate, h: nat, name: string, c: nat)
    requires c < |s.classes| && Introduced(s, t, h, name, c) && h !in s.instances
    requires PublishedHere(s, c) && Heard(s.sent) == Owned(s)
    ensures Heard(t.sent) == Owned(t)
  {
    var m, i := t.sent[|s.sent|], t.instances[h];
    assert t.sent == t.sent[..|s.sent|] + [m];
    HeardOneMore(s.sent, m);
    var d := s.classes[c].publication;
    assert Effective(d, 0) == PUBLISHED;
    assert Elements(m.attributes) == OwnedAttributes(i) by {
      forall k ensures k in Elements(m.attributes) <==> k in OwnedAttributes(i) {
        assert k in m.attributes <==> 0 <= k < |d.levels| && Effective(d, k) != OFF;
      }
    }
    hide Introduced, OwnedAttributes, Effective, Elements;
    OwnedInsert(s, t, h);
  }

  lemma OwnedInsert(s: Federate, t: Federate, h: nat)
    requires h in t.instances && t.instances == s.instances[h := t.instances[h]] && t.instances[h].OwnedByFederate()
    ensures Owned(t) == Owned(s)[h := Notice(t.instances[h].name, t.instances[h].objectClass, OwnedAttributes(t.instances[h]))]
  {
    assert Owned(t).Keys == Owned(s).Keys + {h};
  }

  lemma OwnedErase(s: Federate, t: Federate, h: nat)
    requires t.instances == s.instances - {h}
    ensures Owned(t) == Owned(s) - {h}
  {
    assert Owned(t).Keys == Owned(s).Keys - {h};
  }

  lemma DeclarationHeard(s: Federate, call: Call)
    requires WellFormed(s.classes) && IsDeclaration(call) && Heard(s.sent) == Owned(s)
    ensures var t := Step(s, call).state; Heard(t.sent) == Owned(t)
  {
    hide Step, WellFormed, OneSideChanges, Announces;
    DeclarationAnswers(s, call);
    if Step(s, call).outcome == Done {
      var told, gone := DeclarationDoes(s, call);
      var t := Step(s, call).state;
      ToldIsAboutClasses(s, t, call, told);
      assert s.sent + told + ReleasesOf(gone) == s.sent + (told + ReleasesOf(gone));
      HeardOthers(s.sent, told + ReleasesOf(gone));
      DeclarationOwns(s, call);
      OwnedTheSame(s, t);
    }
  }

  lemma ToldIsAboutClasses(s: Federate, t: Federate, call: Call, told: seq<Message>)
    requires IsDeclaration(call) && call.objectClass < |s.classes| == |t.classes|
    requires |SideOf(t, call).levels| == |SideOf(s, call).levels|
    requires Announces(call, SideOf(s, call), SideOf(t, call), told)
    ensures forall i | 0 <= i < |told| :: !AboutInstances(told[i])
  {}

  /** No declaration call gains or loses an owned instance: an unsubscription releases only
      instances that are not owned. */
  lemma DeclarationOwns(s: Federate, call: Call)
    requires WellFormed(s.classes) && IsDeclaration(call)
    ensures OwnsTheSame(s, Step(s, call).state)
  {
    hide DeltaOf, WellFormed, WithPublication, WithSubscription, Unsubscribed;
    StepDeclares(s, call);
    if Accepts(s, call) {
      var c, r := call.objectClass, DeltaOf(s, call);
      DeltaValid(s, call);
      WithSideFrame(s, c, r, LevelOf(call));
      UnsubscribedOwns(s, c, r);
    }
  }

  lemma UnsubscribedOwns(s: Federate, c: nat, r: Delta)
    requires c < |s.classes| && r.after.Valid()
    ensures OwnsTheSame(s, Unsubscribed(s, c, r))
  {
    hide WithSubscription, ReleaseEach;
    var w := WithSubscription(s, c, r, OFF);
    WithSideFrame(s, c, r, OFF);
    AscendingElements(Unjustified(w, c));
    ReleaseEachKeeps(w, Ascending(Unjustified(w, c)));
  }

  lemma {:induction false} ReleaseEachKeeps(s: Federate, hs: seq<nat>)
    ensures forall h :: h in ReleaseEach(s, hs).instances <==> h in s.instances && h !in hs
    ensures forall h | h in ReleaseEach(s, hs).instances :: ReleaseEach(s, hs).instances[h] == s.instances[h]
    decreases |hs|
  {
    if hs != [] {
      ReleaseEachKeeps(Release(s, hs[0]), hs[1..]);
      assert forall h :: h in hs <==> h == hs[0] || h in hs[1..];
    }
  }

  lemma RegisterHeard(s: Federate, c: nat)
    requires WellFormed(s.classes) && OneHolder(s) && Heard(s.sent) == Owned(s)
    ensures var t := Step(s, Register(c)).state; Heard(t.sent) == Owned(t)
  {
    hide Introduced, OneHolder, WellFormed, Heard, Step;
    var name := RegisterDoes(s, c);
    var r, asked := Step(s, Register(c)), s.(sent := s.sent + [RequestHandles(1)]);
    HeardOneMore(s.sent, RequestHandles(1));
    OwnedTheSame(s, asked);
    if r.outcome == Done {
      PooledIsNew(s, name);
      IntroducedHeard(asked, r.state, s.free[name], name, c);
    } else if r.outcome != NoFreeHandles {
      assert r.state == s;
    }
  }

  lemma RegisterNamedHeard(s: Federate, call: Call)
    requires WellFormed(s.classes) && OneHolder(s) && Heard(s.sent) == Owned(s)
    requires call.RegisterNamed? && ServerGrantsUnused(s, call)
    ensures var t := Step(s, call).state; Heard(t.sent) == Owned(t)
  {
    hide Introduced, OneHolder, WellFormed, Heard, Step;
    RegisterNamedDoes(s, call.objectClass, call.name, call.allowUnreserved, call.reply);
    var r := Step(s, call);
    if r.outcome == Done {
      PooledIsNew(s, call.name);
      var h := if call.name in s.reserved then s.reserved[call.name] else call.reply.value;
      IntroducedHeard(s, r.state, h, call.name, call.objectClass);
    }
  }

  lemma DeleteHeard(s: Federate, h: nat)
    requires WellFormed(s.classes) && Heard(s.sent) == Owned(s)
    ensures var t := Step(s, Delete(h)).state; Heard(t.sent) == Owned(t)
  {
    hide WellFormed, Heard, Step, Owned;
    DeleteDoes(s, h);
    if Step(s, Delete(h)).outcome == Done {
      HeardOneMore(s.sent, DeleteInstance(h));
      HeardOneMore(s.sent + [DeleteInstance(h)], ReleaseHandles([h]));
      assert s.sent + [DeleteInstance(h)] + [ReleaseHandles([h])] == s.sent + [DeleteInstance(h), ReleaseHandles([h])];
      OwnedErase(s, Step(s, Delete(h)).state, h);
    }
  }

  /** A removed instance that was not owned is no loss; one that was owned is still what the
      federation heard of. */
  lemma RemoveHeard(s: Federate, h: nat)
    requires WellFormed(s.classes) && Heard(s.sent) == Owned(s)
    ensures var t := Step(s, RemoveArrived(h)).state; Heard(t.sent) == Owned(t) <==> !TakenAway(s, RemoveArrived(h))
  {
    hide WellFormed, Heard, Step;
    RemoveDoes(s, h);
    var t := Step(s, RemoveArrived(h)).state;
    if h in s.instances {
      HeardOneMore(s.sent, ReleaseHandles([h]));
      OwnedErase(s, t, h);
      assert TakenAway(s, RemoveArrived(h)) ==> h in Owned(s);
      assert !TakenAway(s, RemoveArrived(h)) ==> Owned(s) - {h} == Owned(s);
    }
  }

  lemma InsertHeard(s: Federate, h: nat, name: string, c: nat)
    requires WellFormed(s.classes) && Heard(s.sent) == Owned(s)
    ensures var t := Step(s, InsertArrived(h, name, c)).state; Heard(t.sent) == Owned(t)
  {
    hide WellFormed, Heard, Step, Owned;
    InsertDoes(s, h, name, c);
    OwnedTheSame(s, Step(s, InsertArrived(h, name, c)).state);
  }

  lemma NamesHeard(s: Federate, call: Call)
    requires WellFormed(s.classes) && Heard(s.sent) == Owned(s)
    requires call.HandlesGranted? || call.NamesGranted? || call.ReleaseName? || call.ReleaseNames?
    ensures var t := Step(s, call).state; Heard(t.sent) == Owned(t)
  {
    hide WellFormed, Heard, Owned, AddPairs, AscendingNames, HandlesFor;
    var t := Step(s, call).state;
    if t.sent != s.sent { HeardOneMore(s.sent, t.sent[|s.sent|]); }
    OwnedTheSame(s, t);
  }

  lemma ArrivalHeard(s: Federate, call: Call)
    requires WellFormed(s.classes) && Heard(s.sent) == Owned(s) && IsArrival(call)
    ensures var t := Step(s, call).state; Heard(t.sent) == Owned(t)
  {
    hide WellFormed, Heard, Owned, Step, ArrivalStep, Extends;
    StepArrives(s, call);
    ArrivalKeepsTree(s, call);
    OwnedTheSame(s, Step(s, call).state);
  }

  /** One call of any kind. */
  lemma StepHeard(s: Federate, call: Call)
    requires WellFormed(s.classes) && OneHolder(s) && ServerGrantsUnused(s, call) && Heard(s.sent) == Owned(s)
    ensures var t := Step(s, call).state; Heard(t.sent) == Owned(t) <==> !TakenAway(s, call)
  {
    hide WellFormed, OneHolder, Heard, Owned, Step, ServerGrantsUnused;
    match call
    case Register(c) => RegisterHeard(s, c);
    case RegisterNamed(_, _, _, _) => RegisterNamedHeard(s, call);
    case Delete(h) => DeleteHeard(s, h);
    case RemoveArrived(h) => RemoveHeard(s, h);
    case InsertArrived(h, name, c) => InsertHeard(s, h, name, c);
    case ClassArrived(_, _) => ArrivalHeard(s, call);
    case AttributeArrived(_) => ArrivalHeard(s, call);
    case HandlesGranted(_) => NamesHeard(s, call);
    case NamesGranted(_) => NamesHeard(s, call);
    case ReleaseName(_) => NamesHeard(s, call);
    case ReleaseNames(_) => NamesHeard(s, call);
    case _ => DeclarationHeard(s, call);
  }

  // ------------------------------------------------------------------------------ runs

  /** Throughout the run what the federation heard is what is owned here. */
  ghost predicate AlwaysHeard(s: Federate, calls: seq<Call>)
    requires WellFormed(s.classes)
  {
    forall n | 0 <= n <= |calls| :: HeardAt(s, calls, n)
  }

  ghost predicate NoneTakenAway(s: Federate, calls: seq<Call>)
    requires WellFormed(s.classes)
  {
    forall n | 0 <= n < |calls| :: !TakenAwayAt(s, calls, n)
  }

  /** Main result: in every run against a server that grants unused handles, replaying the
      sent insert and delete messages gives, at every moment, exactly the instances that
      this federate owns, with their names, classes and owned attributes, if and only if
      nobody else removes an instance that is owned here. */
  lemma FederationHearsOwned(s: Federate, calls: seq<Call>)
    requires Fresh(s) && ServerAlwaysGrantsUnused(s, calls)
    ensures AlwaysHeard(s, calls) <==> NoneTakenAway(s, calls)
  {
    FreshIsWellFormed(s);
    hide Heard, Owned, ServerAlwaysGrantsUnused, Fresh, WellFormed, Run, HeardAt, TakenAwayAt;
    if NoneTakenAway(s, calls) {
      forall n | 0 <= n <= |calls| ensures HeardAt(s, calls, n) { HeardUpTo(s, calls, n); }
    }
    if AlwaysHeard(s, calls) {
      forall n | 0 <= n < |calls| ensures !TakenAwayAt(s, calls, n) {
        assert HeardAt(s, calls, n + 1);
        StepInRun(s, calls, n);
      }
    }
  }

  lemma RunNothing(s: Federate)
    requires WellFormed(s.classes)
    ensures Run(s, []) == s
  {}

  lemma NothingHeard(s: Federate)
    requires Fresh(s)
    ensures Heard(s.sent) == Owned(s)
  {}

  /** Call `n` of a run, from the state before to the state after. */
  lemma StepInRun(s: Federate, calls: seq<Call>, n: nat)
    requires Fresh(s) && ServerAlwaysGrantsUnused(s, calls) && n < |calls|
    ensures WellFormed(s.classes)
    ensures HeardAt(s, calls, n) ==> (HeardAt(s, calls, n + 1) <==> !TakenAwayAt(s, calls, n))
  {
    hide Heard, Owned, Step, OneHolder, ServerGrantsUnused, ServerAlwaysGrantsUnused, Fresh, TakenAway, Run;
    FreshIsWellFormed(s);
    assert calls[..n + 1] == calls[..n] + [calls[n]];
    RunOneMore(s, calls[..n], calls[n]);
    GrantsUnusedBefore(s, calls, n);
    HandlesConserved(s, calls[..n]);
    var before := Run(s, calls[..n]);
    if Heard(before.sent) == Owned(before) { StepHeard(before, calls[n]); }
  }

  lemma FreshIsWellFormed(s: Federate)
    requires Fresh(s)
    ensures WellFormed(s.classes)
  {}

  ghost predicate HeardAt(s: Federate, calls: seq<Call>, n: nat)
    requires WellFormed(s.classes) && n <= |calls|
  {
    Heard(Run(s, calls[..n]).sent) == Owned(Run(s, calls[..n]))
  }

  ghost predicate TakenAwayAt(s: Federate, calls: seq<Call>, n: nat)
    requires WellFormed(s.classes) && n < |calls|
  {
    TakenAway(Run(s, calls[..n]), calls[n])
  }

  lemma {:induction false} HeardUpTo(s: Federate, calls: seq<Call>, n: nat)
    requires Fresh(s) && ServerAlwaysGrantsUnused(s, calls) && n <= |calls|
    requires WellFormed(s.classes) && forall k | 0 <= k < |calls| :: !TakenAwayAt(s, calls, k)
    ensures HeardAt(s, calls, n)
    decreases n
  {
    hide Heard, Owned, ServerAlwaysGrantsUnused, Fresh, TakenAwayAt, WellFormed, Run, HeardAt;
    if n == 0 {
      HeardFirst(s, calls);
    } else {
      HeardUpTo(s, calls, n - 1);
      StepInRun(s, calls, n - 1);
    }
  }

  lemma HeardFirst(s: Federate, calls: seq<Call>)
    requires Fresh(s)
    ensures HeardAt(s, calls, 0)
  {
    NothingHeard(s);
    RunNothing(s);
  }

  const TakenAwayRun: seq<Call> :=
    [Publish(0, [0]), HandlesGranted([Pair(7, "a")]), Register(0), RemoveArrived(7)]

  /** A run that ends otherwise: publish, get a handle, register, and be told to remove. */
  lemma TakenAwayExists(s: Federate)
    requires Fresh(s) && |s.classes| > 0
    ensures var t := Run(s, TakenAwayRun); 7 in Heard(t.sent) && 7 !in Owned(t)
  {
    hide Run, Step, Fresh, Heard, Owned, WellFormed, Introduced, DeltaOf;
    FreshIsWellFormed(s);
    var c1, c2, c3, c4 := TakenAwayRun[0], TakenAwayRun[1], TakenAwayRun[2], TakenAwayRun[3];
    FourSteps(s, c1, c2, c3, c4);
    var s1 := Step(s, c1).state;
    PublishedFirst(s);
    var s2 := Step(s1, c2).state;
    GrantsDo(s1, [Pair(7, "a")]);
    assert [Pair(7, "a")][0].name == "a";
    StepShape(s1, c2);
    var name := RegisterDoes(s2, 0);
    OnlyOneFree(s2.free, "a", 7);
    var s3 := Step(s2, c3).state;
    IntroducedIn(s2.(sent := s2.sent + [RequestHandles(1)]), s3, 7, "a", 0);
    StepShape(s2, c3);
    RemoveDoes(s3, 7);
    var s4 := Step(s3, c4).state;
    HeardOneMore(s3.sent, ReleaseHandles([7]));
    OwnedErase(s3, s4, 7);
  }

  lemma FourSteps(s: Federate, c1: Call, c2: Call, c3: Call, c4: Call)
    requires WellFormed(s.classes)
    ensures var s1 := Step(s, c1).state;
            && WellFormed(s1.classes)
            && var s2 := Step(s1, c2).state;
               && WellFormed(s2.classes)
               && var s3 := Step(s2, c3).state;
                  WellFormed(s3.classes) && Run(s, [c1, c2, c3, c4]) == Step(s3, c4).state
  {
    hide Step, WellFormed;
    assert [] + [c1] == [c1] && [c1] + [c2] == [c1, c2] && [c1, c2] + [c3] == [c1, c2, c3];
    assert [c1, c2, c3] + [c4] == [c1, c2, c3, c4];
    RunOneMore(s, [], c1);
    RunOneMore(s, [c1], c2);
    RunOneMore(s, [c1, c2], c3);
    RunOneMore(s, [c1, c2, c3], c4);
  }

  lemma PublishedFirst(s: Federate)
    requires Fresh(s) && |s.classes| > 0
    ensures var t := Step(s, Publish(0, [0])).state;
            && WellFormed(t.classes) && PublishedHere(t, 0) && SameInstances(s, t) && t.free == map[]
  {
    var call := Publish(0, [0]);
    StepShape(s, call);
    DeclarationAnswers(s, call);
    hide DeltaOf, Step, Announces;
    var told, gone := DeclarationDoes(s, call);
    var d := Step(s, call).state.classes[0].publication;
    assert Effective(d, 0) == LevelAfter(call, s.classes[0].publication, 0);
  }

  lemma OnlyOneFree(free: map<string, nat>, name: string, h: nat)
    requires HasPairs(map[], free, [Pair(h, name)])
    ensures free.Keys == {name} && free[name] == h
  {
    assert [Pair(h, name)][0].name == name;
  }

  lemma IntroducedIn(s: Federate, t: Federate, h: nat, name: string, c: nat)
    requires c < |s.classes| && Introduced(s, t, h, name, c)
    ensures h in t.instances && h in Heard(t.sent)
  {
    var m := t.sent[|s.sent|];
    assert t.sent == t.sent[..|s.sent|] + [m];
    HeardOneMore(s.sent, m);
  }

  // ----------------------------------------------------------------- deletions, counted

  /** How often a handle is named by a delete message. */
  function Deletions(messages: seq<Message>, h: nat): nat
    decreases |messages|
  {
    if messages == [] then 0
    else Deletions(messages[..|messages| - 1], h) + if messages[|messages| - 1] == DeleteInstance(h) then 1 else 0
  }

  lemma DeletionsOneMore(messages: seq<Message>, m: Message, h: nat)
    ensures Deletions(messages + [m], h) == Deletions(messages, h) + if m == DeleteInstance(h) then 1 else 0
  {
    assert (messages + [m])[..|messages|] == messages;
  }

  /** How many deletions of a handle this federate was asked for and did. */
  ghost function DeletesDone(s: Federate, calls: seq<Call>, h: nat): nat
    requires WellFormed(s.classes)
    decreases |calls|
  {
    if calls == [] then 0
    else
      var n := |calls| - 1;
      var before := Run(s, calls[..n]);
      DeletesDone(s, calls[..n], h)
      + if calls[n] == Delete(h) && h in before.instances && before.instances[h].OwnedByFederate() then 1 else 0
  }

  /** Each delete message is directly followed by the release of its handle. */
  predicate ReleasedNext(messages: seq<Message>) {
    forall i | 0 <= i < |messages| && messages[i].DeleteInstance? ::
      i + 1 < |messages| && messages[i + 1] == ReleaseHandles([messages[i].handle])
  }

  ghost predicate NoDeletion(messages: seq<Message>) {
    forall i | 0 <= i < |messages| :: !messages[i].DeleteInstance?
  }

  lemma {:induction false} DeletionsOthers(messages: seq<Message>, more: seq<Message>, h: nat)
    requires NoDeletion(more)
    ensures Deletions(messages + more, h) == Deletions(messages, h)
    decreases |more|
  {
    if more == [] {
      assert messages + more == messages;
    } else {
      var n := |more| - 1;
      DeletionsOthers(messages, more[..n], h);
      DeletionsOneMore(messages + more[..n], more[n], h);
      assert messages + more[..n] + [more[n]] == messages + more;
    }
  }

  lemma ReleasedNextMore(messages: seq<Message>, more: seq<Message>)
    requires ReleasedNext(messages) && ReleasedNext(more)
    ensures ReleasedNext(messages + more)
  {
    var all := messages + more;
    forall i | 0 <= i < |all| && all[i].DeleteInstance?
      ensures i + 1 < |all| && all[i + 1] == ReleaseHandles([all[i].handle])
    {
      if i >= |messages| { assert all[i] == more[i - |messages|]; }
    }
  }

  /** What a call sends; a delete message only if it is a deletion that is done. */
  lemma SendsDeletions(s: Federate, call: Call) returns (more: seq<Message>)
    requires WellFormed(s.classes)
    ensures Step(s, call).state.sent == s.sent + more
    ensures if call.Delete? && call.handle in s.instances && s.instances[call.handle].OwnedByFederate()
            then more == [DeleteInstance(call.handle), ReleaseHandles([call.handle])] else NoDeletion(more)
  {
    hide Step, WellFormed, Introduced, OneSideChanges, Announces, Declared;
    more := [];
    assert s.sent + [] == s.sent;
    match call
    case Register(c) => more := RegisterSends(s, c);
    case RegisterNamed(_, _, _, _) => more := RegisterNamedSends(s, call);
    case Delete(h) =>
      DeleteDoes(s, h);
      if Step(s, call).outcome == Done { more := [DeleteInstance(h), ReleaseHandles([h])]; }
    case RemoveArrived(h) =>
      RemoveDoes(s, h);
      if h in s.instances { more := [ReleaseHandles([h])]; }
    case InsertArrived(h, name, c) => InsertDoes(s, h, name, c);
    case HandlesGranted(pairs) => GrantsDo(s, pairs);
    case NamesGranted(pairs) => GrantsDo(s, pairs);
    case ReleaseName(n) =>
      ReleaseNameDoes(s, n);
      if n in s.reserved { more := [ReleaseHandles([s.reserved[n]])]; }
    case ReleaseNames(ns) =>
      var order := ReleaseNamesDoes(s, ns);
      more := Step(s, call).state.sent[|s.sent|..];
    case ClassArrived(_, _) => ArrivalSends(s, call);
    case AttributeArrived(_) => ArrivalSends(s, call);
    case _ => more := DeclarationSends(s, call);
  }

  lemma RegisterSends(s: Federate, c: nat) returns (more: seq<Message>)
    requires WellFormed(s.classes)
    ensures Step(s, Register(c)).state.sent == s.sent + more && NoDeletion(more)
  {
    hide Step, WellFormed, Introduced;
    var name := RegisterDoes(s, c);
    var r := Step(s, Register(c));
    more := [];
    assert s.sent + [] == s.sent;
    if r.outcome == Done {
      var asked := s.(sent := s.sent + [RequestHandles(1)]);
      more := RegisteredSends(asked, r.state, s.free[name], name, c);
      assert asked.sent + more == s.sent + ([RequestHandles(1)] + more);
      more := [RequestHandles(1)] + more;
    } else if r.outcome == NoFreeHandles {
      more := [RequestHandles(1)];
    }
  }

  lemma RegisterNamedSends(s: Federate, call: Call) returns (more: seq<Message>)
    requires WellFormed(s.classes) && call.RegisterNamed?
    ensures Step(s, call).state.sent == s.sent + more && NoDeletion(more)
  {
    hide Step, WellFormed, Introduced;
    RegisterNamedDoes(s, call.objectClass, call.name, call.allowUnreserved, call.reply);
    var r := Step(s, call);
    more := [];
    assert s.sent + [] == s.sent;
    if r.outcome == Done {
      var h := if call.name in s.reserved then s.reserved[call.name] else call.reply.value;
      more := RegisteredSends(s, r.state, h, call.name, call.objectClass);
    }
  }

  lemma ArrivalSends(s: Federate, call: Call)
    requires WellFormed(s.classes) && IsArrival(call)
    ensures Step(s, call).state.sent == s.sent
  {
    hide ArrivalStep, WellFormed, Extends;
    StepArrives(s, call);
    ArrivalKeepsTree(s, call);
  }

  lemma DeclarationSends(s: Federate, call: Call) returns (more: seq<Message>)
    requires WellFormed(s.classes) && IsDeclaration(call)
    ensures Step(s, call).state.sent == s.sent + more && NoDeletion(more)
  {
    hide Step, WellFormed, Announces, Declared;
    DeclarationAnswers(s, call);
    more := [];
    if Step(s, call).outcome == Done {
      var told, gone := DeclarationDoes(s, call);
      ToldIsAboutClasses(s, Step(s, call).state, call, told);
      more := told + ReleasesOf(gone);
      forall i | 0 <= i < |told| ensures !told[i].DeleteInstance? { assert !AboutInstances(told[i]); }
      assert s.sent + told + ReleasesOf(gone) == s.sent + more;
    } else {
      assert s.sent + [] == s.sent;
    }
  }

  lemma RegisteredSends(s: Federate, t: Federate, h: nat, name: string, c: nat) returns (more: seq<Message>)
    requires c < |s.classes| && Introduced(s, t, h, name, c)
    ensures t.sent == s.sent + more && NoDeletion(more)
  {
    more := [t.sent[|s.sent|]];
    assert t.sent == t.sent[..|s.sent|] + more;
  }

  /** Main result: in every run, whatever the server does, the federate has sent as many
      delete messages for a handle as it did deletions of it, and each of them is directly
      followed by the release of the handle. */
  lemma {:induction false} DeletionsAreAnnounced(s: Federate, calls: seq<Call>, h: nat)
    requires Fresh(s)
    ensures Deletions(Run(s, calls).sent, h) == DeletesDone(s, calls, h)
    ensures ReleasedNext(Run(s, calls).sent)
    decreases |calls|
  {
    hide Step, Fresh, Deletions, ReleasedNext;
    FreshIsWellFormed(s);
    if calls == [] {
      NothingDeleted(s, h);
    } else {
      var n := |calls| - 1;
      DeletionsAreAnnounced(s, calls[..n], h);
      var before := Run(s, calls[..n]);
      var more := SendsDeletions(before, calls[n]);
      OneCallDeletes(before.sent, more, calls[n], h);
      assert more != [] && more[0].DeleteInstance? ==> !NoDeletion(more);
    }
  }

  lemma NothingDeleted(s: Federate, h: nat)
    requires Fresh(s)
    ensures Deletions(s.sent, h) == 0 && ReleasedNext(s.sent)
  {}

  lemma OneCallDeletes(messages: seq<Message>, more: seq<Message>, call: Call, h: nat)
    requires ReleasedNext(messages)
    requires NoDeletion(more) || (call.Delete? && more == [DeleteInstance(call.handle), ReleaseHandles([call.handle])])
    ensures ReleasedNext(messages + more)
    ensures NoDeletion(more) ==> Deletions(messages + more, h) == Deletions(messages, h)
    ensures !NoDeletion(more) ==> Deletions(messages + more, h) == Deletions(messages, h) + if call == Delete(h) then 1 else 0
  {
    hide Deletions;
    ReleasedNextMore(messages, more);
    if NoDeletion(more) {
      DeletionsOthers(messages, more, h);
    } else {
      var m := DeleteInstance(call.handle);
      DeletionsOneMore(messages, m, h);
      DeletionsOneMore(messages + [m], more[1], h);
      assert messages + [m] + [more[1]] == messages + more;
    }
  }
}
