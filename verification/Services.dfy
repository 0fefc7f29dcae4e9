/** What each service and callback means, in terms of the state before and after and of the
    messages sent: when it is refused, what it changes, and what it leaves alone. */
module Services {
  import opened Util
  import opened ClassWalk
  import opened Declarations
  import opened FederateModel

  /** Nothing but the messages and the classes differ. */
  predicate SameInstances(s: Federate, t: Federate) {
    t.instances == s.instances && t.names == s.names && t.free == s.free && t.reserved == s.reserved
  }

  // ------------------------------------------------------------- declaration services

  /** A request names an attribute that the class does not have. */
  predicate NamesUnknown(s: Federate, call: Call)
    requires IsDeclaration(call) && call.objectClass < |s.classes|
  {
    !call.UnpublishClass? && !call.UnsubscribeClass?
    && exists k | k in call.attributes :: k >= |s.classes[call.objectClass].publication.levels|
  }

  /** When the six declaration services are refused; a refusal changes nothing. */
  lemma DeclarationAnswers(s: Federate, call: Call)
    requires WellFormed(s.classes) && IsDeclaration(call)
    ensures var r := Step(s, call);
            && (r.outcome == ObjectClassNotDefined <==> call.objectClass >= |s.classes|)
            && (r.outcome == AttributeNotDefined <==> call.objectClass < |s.classes| && NamesUnknown(s, call))
            && r.outcome in {Done, ObjectClassNotDefined, AttributeNotDefined}
            && (r.outcome != Done ==> r.state == s)
  {
    StepDeclares(s, call);
    hide DeltaOf, Unsubscribed, WithPublication, WithSubscription;
    if call.objectClass < |s.classes| { UnknownNamed(s, call); }
  }

  lemma UnknownNamed(s: Federate, call: Call)
    requires WellFormed(s.classes) && IsDeclaration(call) && call.objectClass < |s.classes|
    ensures NamesUnknown(s, call) <==> !Accepts(s, call)
  {
    var n := |s.classes[call.objectClass].publication.levels|;
    assert |s.classes[call.objectClass].subscription.levels| == n;
    if !call.UnpublishClass? && !call.UnsubscribeClass? && !Accepts(s, call) {
      var i :| 0 <= i < |call.attributes| && call.attributes[i] >= n;
      assert call.attributes[i] in call.attributes;
    }
  }

  /** The class flag of the side that a declaration call is about, after the call. */
  function FlagAfter(call: Call, d: Declaration): Level
    requires IsDeclaration(call)
  {
    match call
    case Publish(_, _) => PUBLISHED
    case Subscribe(_, _, active) => if active then ACTIVE else PASSIVE
    case UnpublishClass(_) => OFF
    case UnsubscribeClass(_) => OFF
    case _ => d.flag
  }

  /** And the effective level of attribute `k`; attribute 0 never falls below the flag. */
  function LevelAfter(call: Call, d: Declaration, k: nat): Level
    requires IsDeclaration(call) && k < |d.levels|
  {
    match call
    case Publish(_, v) => if k in v then PUBLISHED else if k == 0 then Max(PUBLISHED, d.levels[0]) else d.levels[k]
    case Subscribe(_, v, active) =>
      var level := if active then ACTIVE else PASSIVE;
      if k in v then level else if k == 0 then Max(level, d.levels[0]) else d.levels[k]
    case UnpublishAttributes(_, v) =>
      if k == 0 then (if 0 in v then d.flag else Max(d.levels[0], d.flag)) else if k in v then OFF else d.levels[k]
    case UnsubscribeAttributes(_, v) =>
      if k == 0 then (if 0 in v then d.flag else Max(d.levels[0], d.flag)) else if k in v then OFF else d.levels[k]
    case _ => OFF
  }

  /** The side `d` as the call should leave it. */
  ghost predicate Declared(call: Call, d: Declaration, after: Declaration)
    requires IsDeclaration(call)
  {
    && |after.levels| == |d.levels| && after.flag == FlagAfter(call, d)
    && forall k | 0 <= k < |d.levels| :: Effective(after, k) == LevelAfter(call, d, k)
  }

  lemma DeltaDeclares(s: Federate, call: Call)
    requires WellFormed(s.classes) && IsDeclaration(call) && Accepts(s, call)
    ensures Declared(call, SideOf(s, call), DeltaOf(s, call).after)
  {
    var d := SideOf(s, call);
    hide Declare, UndeclareAll, WellFormed;
    match call
    case Publish(_, v) =>
      forall k | 0 <= k < |d.levels| { DeclareEffective(d, v, PUBLISHED, k); }
      DeclareEffective(d, v, PUBLISHED, 0);
    case Subscribe(_, v, active) =>
      forall k | 0 <= k < |d.levels| { DeclareEffective(d, v, SubscribeLevel(active), k); }
      DeclareEffective(d, v, SubscribeLevel(active), 0);
    case UnpublishAttributes(_, v) => UndeclareDeclares(d, v);
    case UnsubscribeAttributes(_, v) => UndeclareDeclares(d, v);
    case UnpublishClass(_) => UndeclareAllDelta(d);
    case UnsubscribeClass(_) => UndeclareAllDelta(d);
  }

  lemma UndeclareDeclares(d: Declaration, v: seq<nat>)
    requires d.Valid() && d.Defined(v)
    ensures |Undeclare(d, v).after.levels| == |d.levels| && Undeclare(d, v).after.flag == d.flag
    ensures forall k | 0 <= k < |d.levels| ::
              Effective(Undeclare(d, v).after, k)
                == if k == 0 then (if 0 in v then d.flag else Max(d.levels[0], d.flag))
                   else if k in v then OFF else d.levels[k]
  {
    CompactLevels(d, v, OFF);
    forall k | 0 <= k < |d.levels| { CompactEffective(d, v, OFF, k); }
  }

  /** The message of a declaration call, if it changes an effective level. */
  ghost predicate Announces(call: Call, d: Declaration, after: Declaration, messages: seq<Message>)
    requires IsDeclaration(call) && |after.levels| == |d.levels|
  {
    if forall k | 0 <= k < |d.levels| :: Effective(after, k) == Effective(d, k) then messages == []
    else
      && |messages| == 1
      && var m := messages[0];
         && (if IsPublication(call) then m.ChangePublication? else m.ChangeSubscription?)
         && m.objectClass == call.objectClass
         && m.level == (if call.Publish? then PUBLISHED
                        else if call.Subscribe? then (if call.active then ACTIVE else PASSIVE) else OFF)
         && forall k :: k in m.attributes <==> 0 <= k < |d.levels| && Effective(after, k) != Effective(d, k)
  }

  ghost function Told(s: Federate, call: Call): seq<Message>
    requires WellFormed(s.classes) && IsDeclaration(call) && Accepts(s, call)
  {
    var r := DeltaOf(s, call);
    if r.attributes == [] then []
    else if IsPublication(call) then [ChangePublication(call.objectClass, LevelOf(call), r.attributes)]
    else [ChangeSubscription(call.objectClass, LevelOf(call), r.attributes)]
  }

  lemma ToldAnnounces(s: Federate, call: Call)
    requires WellFormed(s.classes) && IsDeclaration(call) && Accepts(s, call)
    ensures |DeltaOf(s, call).after.levels| == |SideOf(s, call).levels|
    ensures Announces(call, SideOf(s, call), DeltaOf(s, call).after, Told(s, call))
  {
    hide DeltaOf, WellFormed;
    DeltaNames(s, call);
    var d, r := SideOf(s, call), DeltaOf(s, call);
    if r.attributes != [] { assert r.attributes[0] in r.attributes; }
  }

  /** The side of a class that a declaration call is about, and the other one. */
  ghost predicate OneSideChanges(call: Call, before: ClassState, after: ClassState)
    requires IsDeclaration(call)
  {
    && after.parent == before.parent && after.inserted == before.inserted
    && if IsPublication(call)
       then after.subscription == before.subscription && Declared(call, before.publication, after.publication)
       else after.publication == before.publication && Declared(call, before.subscription, after.subscription)
  }

  /** The six services: only the side and the class that the call names change, as `Declared`
      says. The call sends `told`, the announcement of what changed, and then one release
      message for each of the instances `gone`, which only an unsubscription forgets. */
  lemma DeclarationDoes(s: Federate, call: Call) returns (told: seq<Message>, gone: seq<nat>)
    requires WellFormed(s.classes) && IsDeclaration(call) && Step(s, call).outcome == Done
    ensures call.objectClass < |s.classes| && |Step(s, call).state.classes| == |s.classes|
    ensures var t, c := Step(s, call).state, call.objectClass;
            && (forall i | 0 <= i < |s.classes| && i != c :: t.classes[i] == s.classes[i])
            && OneSideChanges(call, s.classes[c], t.classes[c])
            && |SideOf(t, call).levels| == |SideOf(s, call).levels|
            && Announces(call, SideOf(s, call), SideOf(t, call), told)
            && t.free == s.free && t.reserved == s.reserved && t.sent == s.sent + told + ReleasesOf(gone)
            && (forall h :: h in gone <==> h in s.instances && h !in t.instances)
            && (forall i, j | 0 <= i < j < |gone| :: gone[i] < gone[j])
            && (!call.UnsubscribeClass? && !call.UnsubscribeAttributes? ==> SameInstances(s, t))
  {
    hide DeltaOf, WellFormed, Declared, Announces, Unsubscribed, WithPublication, WithSubscription;
    StepDeclares(s, call);
    ToldAnnounces(s, call);
    DeltaDeclares(s, call);
    DeltaValid(s, call);
    WithSideFrame(s, call.objectClass, DeltaOf(s, call), LevelOf(call));
    told, gone := Told(s, call), [];
    if call.UnsubscribeClass? || call.UnsubscribeAttributes? {
      gone := UnsubscribedDoes(s, call.objectClass, DeltaOf(s, call));
    } else {
      assert ReleasesOf([]) == [] && s.sent + told + [] == s.sent + told && s.sent + [] == s.sent;
    }
  }

  lemma WithSideFrame(s: Federate, c: nat, r: Delta, level: Level)
    requires c < |s.classes|
    ensures var p, q := WithPublication(s, c, r, level), WithSubscription(s, c, r, level);
            && SameInstances(s, p) && SameInstances(s, q)
            && p.classes == s.classes[c := s.classes[c].(publication := r.after)]
            && q.classes == s.classes[c := s.classes[c].(subscription := r.after)]
            && p.sent == s.sent + (if r.attributes == [] then [] else [ChangePublication(c, level, r.attributes)])
            && q.sent == s.sent + (if r.attributes == [] then [] else [ChangeSubscription(c, level, r.attributes)])
  {
    assert s.sent + [] == s.sent;
  }

  lemma DeltaValid(s: Federate, call: Call)
    requires WellFormed(s.classes) && IsDeclaration(call) && Accepts(s, call)
    ensures DeltaOf(s, call).after.Valid()
  {
    hide DeltaOf;
  }

  function ReleasesOf(hs: seq<nat>): seq<Message> {
    seq(|hs|, i requires 0 <= i < |hs| => ReleaseHandles([hs[i]]))
  }

  lemma {:induction false} ReleaseEachDoes(s: Federate, hs: seq<nat>)
    ensures ReleaseEach(s, hs).sent == s.sent + ReleasesOf(hs)
    ensures forall h :: h in ReleaseEach(s, hs).instances <==> h in s.instances && h !in hs
    decreases |hs|
  {
    if hs == [] {
      assert s.sent + [] == s.sent;
    } else {
      ReleaseEachDoes(Release(s, hs[0]), hs[1..]);
      assert ReleasesOf(hs) == [ReleaseHandles([hs[0]])] + ReleasesOf(hs[1..]);
      assert forall h :: h in hs <==> h == hs[0] || h in hs[1..];
    }
  }

  lemma UnsubscribedDoes(s: Federate, c: nat, r: Delta) returns (gone: seq<nat>)
    requires c < |s.classes| && r.after.Valid()
    ensures var t, w := Unsubscribed(s, c, r), WithSubscription(s, c, r, OFF);
            && t.classes == w.classes && t.free == s.free && t.reserved == s.reserved
            && t.sent == w.sent + ReleasesOf(gone)
            && (forall h :: h in gone <==> h in s.instances && h !in t.instances)
            && forall i, j | 0 <= i < j < |gone| :: gone[i] < gone[j]
  {
    hide WithSubscription, ReleaseEach, Ascending;
    WithSideFrame(s, c, r, OFF);
    var w := WithSubscription(s, c, r, OFF);
    AscendingElements(Unjustified(w, c));
    gone := if r.attributes != [] && Effective(r.after, 0) == OFF then Ascending(Unjustified(w, c)) else [];
    ReleaseEachDoes(w, gone);
    ReleaseEachFrame(w, gone);
    ReleaseNone(w);
  }

  lemma ReleaseNone(s: Federate)
    ensures ReleaseEach(s, []) == s
  {}

  // ------------------------------------------------------------- registering, deleting

  /** A registration announces each published attribute, once and in order. */
  lemma {:induction false} AnnouncedAttributes(d: Declaration, n: nat)
    requires n <= |d.levels|
    ensures forall k :: k in PublishedAttributes(d, n) <==> 0 <= k < n && Effective(d, k) != OFF
    ensures forall i, j | 0 <= i < j < |PublishedAttributes(d, n)| ::
              PublishedAttributes(d, n)[i] < PublishedAttributes(d, n)[j]
  {
    if n > 0 {
      AnnouncedAttributes(d, n - 1);
      var before := PublishedAttributes(d, n - 1);
      forall i | 0 <= i < |before| ensures before[i] < n - 1 { assert before[i] in before; }
    }
  }

  /** A registered instance as it should be: this federate owns exactly the attributes that
      it publishes, and tells the federation so. */
  ghost predicate Introduced(s: Federate, t: Federate, h: nat, name: string, c: nat)
    requires c < |s.classes|
  {
    var d := s.classes[c].publication;
    && t.classes == s.classes && h in t.instances
    && t.instances == s.instances[h := t.instances[h]] && t.names == s.names[name := h]
    && t.instances[h].name == name && t.instances[h].objectClass == c
    && |t.instances[h].owned| == |d.levels|
    && (forall k | 0 <= k < |d.levels| :: t.instances[h].owned[k] <==> Effective(d, k) != OFF)
    && |t.sent| == |s.sent| + 1 && t.sent[..|s.sent|] == s.sent
    && var m := t.sent[|s.sent|];
       && m.InsertInstance? && m.handle == h && m.objectClass == c && m.name == name
       && (forall k :: k in m.attributes <==> 0 <= k < |d.levels| && Effective(d, k) != OFF)
       && forall i, j | 0 <= i < j < |m.attributes| :: m.attributes[i] < m.attributes[j]
  }

  lemma RegisteredIntroduces(s: Federate, h: nat, name: string, c: nat)
    requires c < |s.classes|
    ensures Introduced(s, Registered(s, h, name, c), h, name, c)
    ensures Registered(s, h, name, c).free == s.free && Registered(s, h, name, c).reserved == s.reserved
  {
    var d := s.classes[c].publication;
    AnnouncedAttributes(d, |d.levels|);
  }

  predicate PublishedHere(s: Federate, c: nat) {
    c < |s.classes| && s.classes[c].publication.levels != []
    && Max(s.classes[c].publication.levels[0], s.classes[c].publication.flag) == PUBLISHED
  }

  /** Registering an instance: each refusal has its condition. An accepted one takes the
      first free name with its handle, after it has asked for another. */
  lemma RegisterDoes(s: Federate, c: nat) returns (name: string)
    requires WellFormed(s.classes)
    ensures var r := Step(s, Register(c));
            && (r.outcome == ObjectClassNotDefined <==> c >= |s.classes|)
            && (r.outcome == ObjectClassNotPublished <==> c < |s.classes| && !PublishedHere(s, c))
            && (r.outcome == NoFreeHandles <==> PublishedHere(s, c) && s.free == map[])
            && (r.outcome == Done <==> PublishedHere(s, c) && s.free != map[])
            && (r.outcome in {ObjectClassNotDefined, ObjectClassNotPublished} ==> r.state == s)
            && (r.outcome == NoFreeHandles ==> r.state == s.(sent := s.sent + [RequestHandles(1)]))
    ensures var r := Step(s, Register(c));
            r.outcome == Done ==>
              && name in s.free && (forall other | other in s.free :: NameAtMost(name, other))
              && r.state.free == s.free - {name} && r.state.reserved == s.reserved
              && Introduced(s.(sent := s.sent + [RequestHandles(1)]), r.state, s.free[name], name, c)
  {
    name := "";
    hide Registered, Introduced;
    if PublishedHere(s, c) && s.free != map[] {
      name := FirstName(s.free.Keys);
      RegisteredIntroduces(Sending(s, RequestHandles(1)).(free := s.free - {name}), s.free[name], name, c);
      ElsewhereTheSame(Sending(s, RequestHandles(1)), s.free - {name}, s.reserved,
                       Step(s, Register(c)).state, s.free[name], name, c);
    }
  }

  lemma ElsewhereTheSame(s: Federate, free: map<string, nat>, reserved: map<string, nat>,
                         t: Federate, h: nat, name: string, c: nat)
    requires c < |s.classes|
    ensures Introduced(s.(free := free, reserved := reserved), t, h, name, c) <==> Introduced(s, t, h, name, c)
  {}

  /** Registering under a given name: a reserved name uses its reservation up; otherwise the
      server's answer to the reservation on the spot decides, if that is allowed. */
  lemma RegisterNamedDoes(s: Federate, c: nat, name: string, allow: bool, reply: Option<nat>)
    requires WellFormed(s.classes)
    ensures var r := Step(s, RegisterNamed(c, name, allow, reply));
            && (r.outcome == ObjectClassNotDefined <==> c >= |s.classes|)
            && (r.outcome == ObjectClassNotPublished <==> c < |s.classes| && !PublishedHere(s, c))
            && (r.outcome == NameNotReserved <==>
                  PublishedHere(s, c) && (name == "" || (name !in s.reserved && !allow)))
            && (r.outcome == NameInUse <==>
                  PublishedHere(s, c) && name != "" && name !in s.reserved && allow && reply == None)
            && (r.outcome == Done <==>
                  PublishedHere(s, c) && name != "" && (name in s.reserved || (allow && reply.Some?)))
            && (r.outcome != Done ==> r.state == s)
            && (r.outcome == Done ==>
                  var h := if name in s.reserved then s.reserved[name] else reply.value;
                  && Introduced(s, r.state, h, name, c)
                  && r.state.free == s.free && r.state.reserved == s.reserved - {name})
  {
    hide Registered, Introduced;
    if PublishedHere(s, c) && name != "" && (name in s.reserved || (allow && reply.Some?)) {
      var r := Step(s, RegisterNamed(c, name, allow, reply));
      if name in s.reserved {
        RegisteredIntroduces(s.(reserved := s.reserved - {name}), s.reserved[name], name, c);
        ElsewhereTheSame(s, s.free, s.reserved - {name}, r.state, s.reserved[name], name, c);
      } else {
        RegisteredIntroduces(s, reply.value, name, c);
        assert s.reserved - {name} == s.reserved;
      }
    }
  }

  /** The instance is forgotten here, and its handle and name are free to be used again. */
  predicate Forgotten(s: Federate, t: Federate, h: nat)
    requires h in s.instances
  {
    && t.instances == s.instances - {h} && t.names == s.names - {s.instances[h].name}
    && t.classes == s.classes && t.free == s.free && t.reserved == s.reserved
  }

  /** Deleting: done if and only if the instance is known and owned here. Then the delete
      message goes out, right before the one release that names the handle. */
  lemma DeleteDoes(s: Federate, h: nat)
    requires WellFormed(s.classes)
    ensures var r := Step(s, Delete(h));
            && (r.outcome == InstanceNotKnown <==> h !in s.instances)
            && (r.outcome == DeletePrivilegeNotHeld <==>
                  h in s.instances && (s.instances[h].owned == [] || !s.instances[h].owned[0]))
            && (r.outcome == Done <==> h in s.instances && s.instances[h].owned != [] && s.instances[h].owned[0])
            && (r.outcome != Done ==> r.state == s)
            && (r.outcome == Done ==>
                  Forgotten(s, r.state, h) && r.state.sent == s.sent + [DeleteInstance(h), ReleaseHandles([h])])
  {}

  /** Giving reserved names back: the handles of all of them, by ascending names, in one
      message, or none. */
  lemma ReleaseNamesDoes(s: Federate, ns: set<string>) returns (order: seq<string>)
    requires WellFormed(s.classes)
    ensures forall n :: n in order <==> n in ns
    ensures forall i, j | 0 <= i < j < |order| :: order[i] != order[j] && NameAtMost(order[i], order[j])
    ensures var r := Step(s, ReleaseNames(ns));
            && (r.outcome == Done <==> forall n | n in ns :: n in s.reserved)
            && (r.outcome != Done ==> r == Reply(NameNotReserved, s))
            && (r.outcome == Done ==>
                  && r.state == s.(reserved := s.reserved - ns, sent := r.state.sent)
                  && |r.state.sent| == |s.sent| + 1 && r.state.sent[..|s.sent|] == s.sent
                  && r.state.sent[|s.sent|].ReleaseHandles?
                  && |r.state.sent[|s.sent|].handles| == |order|
                  && forall i | 0 <= i < |order| :: r.state.sent[|s.sent|].handles[i] == s.reserved[order[i]])
  {
    order := AscendingNames(ns);
    NamesAscend(ns);
    if n :| n in ns && n !in s.reserved { assert !(ns <= s.reserved.Keys); }
    hide AscendingNames, NameAtMost;
  }

  lemma ReleaseNameDoes(s: Federate, n: string)
    requires WellFormed(s.classes)
    ensures var r := Step(s, ReleaseName(n));
            if n in s.reserved
            then r == Reply(Done, s.(reserved := s.reserved - {n}, sent := s.sent + [ReleaseHandles([s.reserved[n]])]))
            else r == Reply(NameNotReserved, s)
  {}

  // --------------------------------------------------------------------------- arrivals

  /** Some pair from the `from`th on has that name. */
  predicate NamedIn(pairs: seq<Pair>, from: nat, n: string) {
    exists i | from <= i < |pairs| :: pairs[i].name == n
  }

  /** Pool `before` with the pairs in it, the last one where a name comes twice. */
  ghost predicate HasPairs(before: map<string, nat>, after: map<string, nat>, pairs: seq<Pair>) {
    && (forall n :: n in after <==> n in before || NamedIn(pairs, 0, n))
    && (forall i | 0 <= i < |pairs| && !NamedIn(pairs, i + 1, pairs[i].name) ::
          pairs[i].name in after && after[pairs[i].name] == pairs[i].handle)
    && forall n | n in before && !NamedIn(pairs, 0, n) :: n in after && after[n] == before[n]
  }

  lemma NamedInRest(pairs: seq<Pair>, from: nat, n: string)
    requires pairs != []
    ensures NamedIn(pairs[1..], from, n) <==> NamedIn(pairs, from + 1, n)
    ensures NamedIn(pairs, 0, n) <==> pairs[0].name == n || NamedIn(pairs, 1, n)
  {
    var rest := pairs[1..];
    if NamedIn(pairs, from + 1, n) {
      var i :| from + 1 <= i < |pairs| && pairs[i].name == n;
      assert rest[i - 1].name == n;
    }
    if NamedIn(rest, from, n) {
      var i :| from <= i < |rest| && rest[i].name == n;
      assert pairs[i + 1].name == n;
    }
  }

  lemma {:induction false} AddedPairs(m: map<string, nat>, pairs: seq<Pair>)
    ensures HasPairs(m, AddPairs(m, pairs), pairs)
    decreases |pairs|
  {
    if pairs == [] {
      assert forall n :: !NamedIn(pairs, 0, n);
    } else {
      var p, rest := pairs[0], pairs[1..];
      AddedPairs(m[p.name := p.handle], rest);
      hide NamedIn;
      forall n { NamedInRest(pairs, 0, n); }
      forall i | 0 <= i < |pairs| && !NamedIn(pairs, i + 1, pairs[i].name)
        ensures pairs[i].name in AddPairs(m, pairs) && AddPairs(m, pairs)[pairs[i].name] == pairs[i].handle
      {
        if i > 0 {
          NamedInRest(pairs, i, pairs[i].name);
          assert rest[i - 1] == pairs[i];
        }
      }
    }
  }

  /** Granted pairs go to the free pool, and pairs that answer a reservation to the reserved
      names; nothing is sent. */
  lemma GrantsDo(s: Federate, pairs: seq<Pair>)
    requires WellFormed(s.classes)
    ensures var t := Step(s, HandlesGranted(pairs)).state;
            HasPairs(s.free, t.free, pairs) && t == s.(free := t.free)
    ensures var t := Step(s, NamesGranted(pairs)).state;
            HasPairs(s.reserved, t.reserved, pairs) && t == s.(reserved := t.reserved)
    ensures Step(s, HandlesGranted(pairs)).outcome == Step(s, NamesGranted(pairs)).outcome == Done
  {
    hide AddPairs, HasPairs;
    AddedPairs(s.free, pairs);
    AddedPairs(s.reserved, pairs);
  }

  /** An insert message makes an unknown instance known at the nearest subscribed class at or
      above the sent one, and unowned; otherwise it changes nothing. It sends nothing. */
  lemma InsertDoes(s: Federate, h: nat, name: string, c: nat)
    requires WellFormed(s.classes)
    ensures var t := Step(s, InsertArrived(h, name, c)).state;
            if h in s.instances || c >= |s.classes|
               || (forall a | 0 <= a < |s.classes| && AtOrAbove(Links(s.classes), a, c) :: !Subscribed(s.classes, a))
            then t == s
            else
              && h in t.instances && t == s.(instances := s.instances[h := t.instances[h]], names := s.names[name := h])
              && t.instances[h].name == name && !t.instances[h].OwnedByFederate()
              && (forall k | 0 <= k < |t.instances[h].owned| :: !t.instances[h].owned[k])
              && var known := t.instances[h].objectClass;
                 && known < |s.classes| && Subscribed(s.classes, known) && AtOrAbove(Links(s.classes), known, c)
                 && forall a | 0 <= a < |s.classes| && Subscribed(s.classes, a) && AtOrAbove(Links(s.classes), a, c) ::
                      AtOrAbove(Links(s.classes), a, known)
  {
    if c < |s.classes| {
      NearestIsNearest(Links(s.classes), c);
      assert forall a | 0 <= a < |s.classes| :: Links(s.classes)[a].subscribed == Subscribed(s.classes, a);
      hide AtOrAbove, WellFormed, Subscribed, Nearest;
    }
  }

  /** A remove message makes a known instance forgotten and gives its handle back. */
  lemma RemoveDoes(s: Federate, h: nat)
    requires WellFormed(s.classes)
    ensures var t := Step(s, RemoveArrived(h)).state;
            if h in s.instances then Forgotten(s, t, h) && t.sent == s.sent + [ReleaseHandles([h])] else t == s
  {}
}
