/** Every object instance handle the server grants is held in exactly one place (free
    pool, reserved names or known instances) until the one release message naming it. */
module HandleLedger {
  import opened Util
  import opened ClassWalk
  import opened Declarations
  import opened FederateModel

  /** In how many of the three places a handle is. */
  function Places(s: Federate, h: nat): nat {
    (if h in s.free.Values then 1 else 0) + (if h in s.reserved.Values then 1 else 0)
    + (if h in s.instances then 1 else 0)
  }

  predicate Injective(m: map<string, nat>) {
    forall a, b | a in m && b in m && m[a] == m[b] :: a == b
  }

  /** The name map and the instance map are each other's inverse. */
  predicate MutuallyInverse(s: Federate) {
    && (forall n | n in s.names :: s.names[n] in s.instances && s.instances[s.names[n]].name == n)
    && (forall h | h in s.instances :: s.instances[h].name in s.names && s.names[s.instances[h].name] == h)
  }

  ghost predicate OneHolder(s: Federate) {
    && Injective(s.free) && Injective(s.reserved) && MutuallyInverse(s)
    && (forall h :: Places(s, h) <= 1)
    && s.free.Keys !! s.reserved.Keys !! s.names.Keys
  }

  function ReleasedBy(m: Message): multiset<nat> {
    match m
    case ReleaseHandles(hs) => multiset(hs)
    case _ => multiset{}
  }

  function Released(messages: seq<Message>): multiset<nat>
    decreases |messages|
  {
    if messages == [] then multiset{}
    else Released(messages[..|messages| - 1]) + ReleasedBy(messages[|messages| - 1])
  }

  /** What a grant of `h` has become: a place that holds it, or a release message. */
  function Ledger(s: Federate, h: nat): nat { Places(s, h) + Released(s.sent)[h] }

  predicate Unused(s: Federate, p: Pair) {
    && Places(s, p.handle) == 0
    && p.name !in s.free && p.name !in s.reserved && p.name !in s.names
  }

  predicate UnusedPairs(s: Federate, pairs: seq<Pair>) {
    && (forall i | 0 <= i < |pairs| :: Unused(s, pairs[i]))
    && (forall i, j | 0 <= i < j < |pairs| ::
          pairs[i].handle != pairs[j].handle && pairs[i].name != pairs[j].name)
  }

  /** The one assumption about the server: it grants what is not in use here. An insert
      message for an instance that is already known is a duplicate, not a grant. */
  predicate ServerGrantsUnused(s: Federate, call: Call) {
    match call
    case HandlesGranted(pairs) => UnusedPairs(s, pairs)
    case NamesGranted(pairs) => UnusedPairs(s, pairs)
    case RegisterNamed(_, name, _, Some(h)) => name in s.reserved || Unused(s, Pair(h, name))
    case InsertArrived(h, name, _) => h in s.instances || Unused(s, Pair(h, name))
    case _ => true
  }

  function PairHandles(pairs: seq<Pair>): multiset<nat> {
    if pairs == [] then multiset{} else multiset{pairs[0].handle} + PairHandles(pairs[1..])
  }

  /** The handles that a call accepts from the server. */
  function GrantedBy(s: Federate, call: Call): multiset<nat>
    requires WellFormed(s.classes)
  {
    match call
    case HandlesGranted(pairs) => PairHandles(pairs)
    case NamesGranted(pairs) => PairHandles(pairs)
    case RegisterNamed(c, name, allow, Some(h)) =>
      if c < |s.classes| && ClassPublished(s, c) && name != [] && name !in s.reserved && allow
      then multiset{h} else multiset{}
    case InsertArrived(h, _, c) =>
      if c < |s.classes| && NearestSubscribed(s.classes, c).Some? && h !in s.instances
      then multiset{h} else multiset{}
    case _ => multiset{}
  }

  /** From `s` to `s'` these grants came in, and nothing else changed hands. */
  ghost predicate Accounted(s: Federate, s': Federate, granted: multiset<nat>) {
    OneHolder(s') && forall h :: Ledger(s', h) == Ledger(s, h) + granted[h]
  }

  /** From `s` to `s'` these handles were taken out of a place. */
  ghost predicate Freed(s: Federate, s': Federate, taken: multiset<nat>) {
    OneHolder(s') && forall h :: Ledger(s', h) + taken[h] == Ledger(s, h)
  }

  lemma AccountedThen(s: Federate, s1: Federate, s2: Federate, granted: multiset<nat>)
    requires Accounted(s, s1, multiset{}) && Accounted(s1, s2, granted)
    ensures Accounted(s, s2, granted)
  {}

  lemma AccountedHolds(s: Federate, s': Federate)
    requires Accounted(s, s', multiset{})
    ensures OneHolder(s')
  {}

  lemma FreedThen(s: Federate, s1: Federate, s2: Federate, a: multiset<nat>, b: multiset<nat>)
    requires Freed(s, s1, a) && Freed(s1, s2, b)
    ensures Freed(s, s2, a + b)
  {}

  // ---------------------------------------------------------------------- primitives

  lemma ReleasedOneMore(messages: seq<Message>, m: Message)
    ensures Released(messages + [m]) == Released(messages) + ReleasedBy(m)
  {
    assert (messages + [m])[..|messages|] == messages;
  }

  lemma SendingOther(s: Federate, m: Message)
    requires !m.ReleaseHandles?
    ensures OneHolder(Sending(s, m)) <==> OneHolder(s)
    ensures forall h :: Ledger(Sending(s, m), h) == Ledger(s, h)
  {
    ReleasedOneMore(s.sent, m);
    assert forall h :: Places(Sending(s, m), h) == Places(s, h);
  }

  lemma ValuesAfter(m: map<string, nat>, n: string, h: nat)
    ensures n !in m ==> m[n := h].Values == m.Values + {h}
    ensures n in m && Injective(m) ==> (m - {n}).Values == m.Values - {m[n]} && Injective(m - {n})
    ensures n !in m && Injective(m) && h !in m.Values ==> Injective(m[n := h])
  {
    if n !in m {
      var m' := m[n := h];
      forall x | x in m.Values + {h} ensures x in m'.Values {
        if x == h {
          assert m'[n] == h;
        } else {
          var k :| k in m && m[k] == x;
          assert m'[k] == x;
        }
      }
    } else if Injective(m) {
      var m' := m - {n};
      forall x | x in m.Values - {m[n]} ensures x in m'.Values {
        var k :| k in m && m[k] == x;
        assert m'[k] == x;
      }
    }
  }

  lemma GrantFree(s: Federate, p: Pair)
    requires OneHolder(s) && Unused(s, p)
    ensures var s' := s.(free := s.free[p.name := p.handle]);
            OneHolder(s') && forall h :: Ledger(s', h) == Ledger(s, h) + multiset{p.handle}[h]
  {
    ValuesAfter(s.free, p.name, p.handle);
    var s' := s.(free := s.free[p.name := p.handle]);
    forall h ensures Places(s', h) == Places(s, h) + multiset{p.handle}[h] {
      assert Places(s, h) <= 1;
    }
  }

  lemma GrantReserved(s: Federate, p: Pair)
    requires OneHolder(s) && Unused(s, p)
    ensures var s' := s.(reserved := s.reserved[p.name := p.handle]);
            OneHolder(s') && forall h :: Ledger(s', h) == Ledger(s, h) + multiset{p.handle}[h]
  {
    ValuesAfter(s.reserved, p.name, p.handle);
    var s' := s.(reserved := s.reserved[p.name := p.handle]);
    forall h ensures Places(s', h) == Places(s, h) + multiset{p.handle}[h] {
      assert Places(s, h) <= 1;
    }
  }

  lemma Insertion(s: Federate, h: nat, name: string, c: nat, owned: bool)
    requires OneHolder(s) && Unused(s, Pair(h, name)) && c < |s.classes|
    ensures OneHolder(Insert(s, h, name, c, owned))
    ensures forall x :: Ledger(Insert(s, h, name, c, owned), x) == Ledger(s, x) + multiset{h}[x]
  {
    var s' := Insert(s, h, name, c, owned);
    forall x ensures Places(s', x) == Places(s, x) + multiset{h}[x] {
      assert Places(s, x) <= 1;
    }
  }

  lemma TakeFree(s: Federate, n: string)
    requires OneHolder(s) && n in s.free
    ensures var s' := s.(free := s.free - {n});
            Freed(s, s', multiset{s.free[n]}) && Unused(s', Pair(s.free[n], n))
  {
    ValuesAfter(s.free, n, 0);
    var s' := s.(free := s.free - {n});
    assert s.free[n] in s.free.Values;
    forall h ensures Places(s', h) + multiset{s.free[n]}[h] == Places(s, h) {
      assert Places(s, h) <= 1;
    }
  }

  lemma TakeReserved(s: Federate, n: string)
    requires OneHolder(s) && n in s.reserved
    ensures var s' := s.(reserved := s.reserved - {n});
            Freed(s, s', multiset{s.reserved[n]}) && Unused(s', Pair(s.reserved[n], n))
  {
    ValuesAfter(s.reserved, n, 0);
    var s' := s.(reserved := s.reserved - {n});
    assert s.reserved[n] in s.reserved.Values;
    forall h ensures Places(s', h) + multiset{s.reserved[n]}[h] == Places(s, h) {
      assert Places(s, h) <= 1;
    }
  }

  lemma Erasure(s: Federate, h: nat)
    requires OneHolder(s) && h in s.instances
    ensures Freed(s, Erase(s, h), multiset{h})
  {
    var s' := Erase(s, h);
    forall x ensures Places(s', x) + multiset{h}[x] == Places(s, x) {
      assert Places(s, x) <= 1;
    }
    assert MutuallyInverse(s');
  }

  lemma Releasing(s: Federate, h: nat)
    requires OneHolder(s) && h in s.instances
    ensures Accounted(s, Release(s, h), multiset{})
  {
    Erasure(s, h);
    assert multiset([h]) == multiset{h};
    GiveBack(s, Erase(s, h), [h]);
  }

  lemma {:induction false} ReleasingEach(s: Federate, hs: seq<nat>)
    requires OneHolder(s)
    requires forall i | 0 <= i < |hs| :: hs[i] in s.instances
    requires forall i, j | 0 <= i < j < |hs| :: hs[i] != hs[j]
    ensures Accounted(s, ReleaseEach(s, hs), multiset{})
    decreases |hs|
  {
    if hs != [] {
      Releasing(s, hs[0]);
      ReleasingEach(Release(s, hs[0]), hs[1..]);
      AccountedThen(s, Release(s, hs[0]), ReleaseEach(s, hs), multiset{});
    }
  }

  lemma {:induction false} GrantEach(s: Federate, pairs: seq<Pair>)
    requires OneHolder(s) && UnusedPairs(s, pairs)
    ensures var s' := s.(free := AddPairs(s.free, pairs));
            OneHolder(s') && forall h :: Ledger(s', h) == Ledger(s, h) + PairHandles(pairs)[h]
    decreases |pairs|
  {
    if pairs != [] {
      var p := pairs[0];
      GrantFree(s, p);
      var s1 := s.(free := s.free[p.name := p.handle]);
      forall i | 0 < i < |pairs| ensures Unused(s1, pairs[i]) {
        assert Unused(s, pairs[i]) && Ledger(s1, pairs[i].handle) == Ledger(s, pairs[i].handle);
      }
      GrantEach(s1, pairs[1..]);
    }
  }

  lemma {:induction false} ReserveEach(s: Federate, pairs: seq<Pair>)
    requires OneHolder(s) && UnusedPairs(s, pairs)
    ensures var s' := s.(reserved := AddPairs(s.reserved, pairs));
            OneHolder(s') && forall h :: Ledger(s', h) == Ledger(s, h) + PairHandles(pairs)[h]
    decreases |pairs|
  {
    if pairs != [] {
      var p := pairs[0];
      GrantReserved(s, p);
      var s1 := s.(reserved := s.reserved[p.name := p.handle]);
      forall i | 0 < i < |pairs| ensures Unused(s1, pairs[i]) {
        assert Unused(s, pairs[i]) && Ledger(s1, pairs[i].handle) == Ledger(s, pairs[i].handle);
      }
      ReserveEach(s1, pairs[1..]);
    }
  }

  /** Taking several reserved names at once. */
  lemma {:induction false} TakeReservedEach(s: Federate, order: seq<string>)
    requires OneHolder(s)
    requires forall i | 0 <= i < |order| :: order[i] in s.reserved
    requires forall i, j | 0 <= i < j < |order| :: order[i] != order[j]
    ensures Freed(s, s.(reserved := s.reserved - (set n | n in order)),
                  multiset(HandlesFor(s.reserved, order)))
    decreases |order|
  {
    if order == [] {
      assert s.reserved - (set n | n in order) == s.reserved;
    } else {
      var n, rest := order[0], order[1..];
      TakeReserved(s, n);
      var s1 := s.(reserved := s.reserved - {n});
      TakeReservedEach(s1, rest);
      TakenTogether(s.reserved, order);
      var s2 := s1.(reserved := s1.reserved - (set x | x in rest));
      FreedThen(s, s1, s2, multiset{s.reserved[n]}, multiset(HandlesFor(s1.reserved, rest)));
    }
  }

  lemma TakenTogether(m: map<string, nat>, order: seq<string>)
    requires order != [] && forall i | 0 <= i < |order| :: order[i] in m
    requires forall i, j | 0 <= i < j < |order| :: order[i] != order[j]
    ensures forall i | 0 <= i < |order[1..]| :: order[1..][i] in m - {order[0]}
    ensures (m - {order[0]}) - (set n | n in order[1..]) == m - (set n | n in order)
    ensures multiset(HandlesFor(m, order))
         == multiset{m[order[0]]} + multiset(HandlesFor(m - {order[0]}, order[1..]))
  {
    assert HandlesFor(m, order) == [m[order[0]]] + HandlesFor(m - {order[0]}, order[1..]);
    assert forall n :: n in order <==> n == order[0] || n in order[1..];
  }

  /** Handles that were taken and then named in a release message stay accounted for. */
  lemma GiveBack(s: Federate, s1: Federate, hs: seq<nat>)
    requires Freed(s, s1, multiset(hs))
    ensures Accounted(s, Sending(s1, ReleaseHandles(hs)), multiset{})
  {
    var s2 := Sending(s1, ReleaseHandles(hs));
    ReleasedOneMore(s1.sent, ReleaseHandles(hs));
    assert forall h :: Places(s2, h) == Places(s1, h);
    assert forall h :: Ledger(s2, h) == Ledger(s1, h) + multiset(hs)[h];
  }

  // --------------------------------------------------------------------------- calls

  lemma RegisteredAccounted(s: Federate, h: nat, name: string, c: nat)
    requires OneHolder(s) && Unused(s, Pair(h, name)) && c < |s.classes| && WellFormed(s.classes)
    ensures Accounted(s, Registered(s, h, name, c), multiset{h})
  {
    var d := s.classes[c].publication;
    Insertion(s, h, name, c, true);
    SendingOther(Insert(s, h, name, c, true),
                 InsertInstance(h, c, name, PublishedAttributes(d, |d.levels|)));
  }

  lemma DeclarationAccounted(s: Federate, call: Call)
    requires WellFormed(s.classes) && IsDeclaration(call) && OneHolder(s)
    ensures Accounted(s, DeclarationStep(s, call).state, multiset{})
  {
    hide DeltaOf, OneHolder, Accounted, Unsubscribed;
    if Accepts(s, call) {
      var c, r, level := call.objectClass, DeltaOf(s, call), LevelOf(call);
      DeclaringAccounted(s, WithPublication(s, c, r, level), ChangePublication(c, level, r.attributes));
      DeclaringAccounted(s, WithSubscription(s, c, r, level), ChangeSubscription(c, level, r.attributes));
      UnsubscribedAccounted(s, c, r);
    } else {
      NothingAccounted(s);
    }
  }

  lemma NothingAccounted(s: Federate)
    requires OneHolder(s)
    ensures Accounted(s, s, multiset{})
  {}

  lemma UnsubscribedAccounted(s: Federate, c: nat, r: Delta)
    requires OneHolder(s) && c < |s.classes| && r.after.Valid()
    ensures Accounted(s, Unsubscribed(s, c, r), multiset{})
  {
    hide OneHolder, Accounted, ReleaseUnowned;
    var s1 := WithSubscription(s, c, r, OFF);
    DeclaringAccounted(s, s1, ChangeSubscription(c, OFF, r.attributes));
    AccountedHolds(s, s1);
    ReleaseUnownedAccounted(s1, c);
    AccountedThen(s, s1, ReleaseUnowned(s1, c), multiset{});
  }

  lemma ReleaseUnownedAccounted(s: Federate, c: nat)
    requires OneHolder(s)
    ensures Accounted(s, ReleaseUnowned(s, c), multiset{})
  {
    var hs := Ascending(Unjustified(s, c));
    AscendingElements(Unjustified(s, c));
    forall i | 0 <= i < |hs| ensures hs[i] in s.instances {
      assert hs[i] in Unjustified(s, c);
    }
    ReleasingEach(s, hs);
  }

  lemma DeclaringAccounted(s: Federate, s': Federate, m: Message)
    requires OneHolder(s) && !m.ReleaseHandles?
    requires s'.instances == s.instances && s'.names == s.names
    requires s'.free == s.free && s'.reserved == s.reserved
    requires s'.sent == s.sent || s'.sent == s.sent + [m]
    ensures Accounted(s, s', multiset{})
  {
    ReleasedOneMore(s.sent, m);
    assert forall h :: Places(s', h) == Places(s, h);
  }

  lemma RegisterAccounted(s: Federate, c: nat)
    requires WellFormed(s.classes) && OneHolder(s)
    ensures Accounted(s, RegisterStep(s, c).state, multiset{})
  {
    if c < |s.classes| && ClassPublished(s, c) {
      var asked := Sending(s, RequestHandles(1));
      SendingOther(s, RequestHandles(1));
      if s.free != map[] {
        var n := FirstName(s.free.Keys);
        TakeFree(asked, n);
        RegisteredAccounted(asked.(free := s.free - {n}), s.free[n], n, c);
      }
    }
  }

  lemma RegisterNamedAccounted(s: Federate, call: Call)
    requires WellFormed(s.classes) && OneHolder(s) && call.RegisterNamed? && ServerGrantsUnused(s, call)
    ensures Accounted(s, Step(s, call).state, GrantedBy(s, call))
  {
    var c, name := call.objectClass, call.name;
    if c < |s.classes| && ClassPublished(s, c) && name != [] {
      if name in s.reserved {
        TakeReserved(s, name);
        RegisteredAccounted(s.(reserved := s.reserved - {name}), s.reserved[name], name, c);
      } else if call.allowUnreserved && call.reply.Some? {
        RegisteredAccounted(s, call.reply.value, name, c);
      }
    }
  }

  lemma ReleaseNamesAccounted(s: Federate, ns: set<string>)
    requires WellFormed(s.classes) && OneHolder(s)
    ensures Accounted(s, Step(s, ReleaseNames(ns)).state, multiset{})
  {
    hide NameAtMost, AscendingNames;
    if ns <= s.reserved.Keys {
      var order := AscendingNames(ns);
      TakeReservedEach(s, order);
      assert (set n | n in order) == ns;
      GiveBack(s, s.(reserved := s.reserved - ns), HandlesFor(s.reserved, order));
    }
  }

  lemma ReleaseNameAccounted(s: Federate, n: string)
    requires WellFormed(s.classes) && OneHolder(s)
    ensures Accounted(s, Step(s, ReleaseName(n)).state, multiset{})
  {
    if n in s.reserved {
      TakeReserved(s, n);
      assert multiset([s.reserved[n]]) == multiset{s.reserved[n]};
      GiveBack(s, s.(reserved := s.reserved - {n}), [s.reserved[n]]);
    }
  }

  lemma StepAccounted(s: Federate, call: Call)
    requires WellFormed(s.classes) && OneHolder(s) && ServerGrantsUnused(s, call)
    ensures Accounted(s, Step(s, call).state, GrantedBy(s, call))
  {
    hide OneHolder, Ledger, DeclarationStep, ArrivalStep, RegisterStep, RegisterNamedStep, NearestSubscribed;
    hide AddPairs, PairHandles;
    match call
    case HandlesGranted(pairs) => GrantEach(s, pairs);
    case NamesGranted(pairs) => ReserveEach(s, pairs);
    case ReleaseName(n) => ReleaseNameAccounted(s, n);
    case ReleaseNames(ns) => ReleaseNamesAccounted(s, ns);
    case Register(c) => RegisterAccounted(s, c);
    case RegisterNamed(_, _, _, _) => RegisterNamedAccounted(s, call);
    case Delete(h) =>
      SendingOther(s, DeleteInstance(h));
      if h in s.instances { Releasing(Sending(s, DeleteInstance(h)), h); }
    case InsertArrived(h, name, c) =>
      if c < |s.classes| {
        match NearestSubscribed(s.classes, c)
        case None =>
        case Some(known) => if h !in s.instances { Insertion(s, h, name, known, false); }
      }
    case RemoveArrived(h) => if h in s.instances { Releasing(s, h); }
    case ClassArrived(_, _) => ArrivalAccounted(s, call);
    case AttributeArrived(_) => ArrivalAccounted(s, call);
    case _ => DeclarationAccounted(s, call);
  }

  lemma ArrivalAccounted(s: Federate, call: Call)
    requires WellFormed(s.classes) && OneHolder(s) && IsArrival(call)
    ensures Accounted(s, ArrivalStep(s, call).state, multiset{})
  {
    hide OneHolder, Accounted, ArrivalStep;
    ArrivalKeepsTree(s, call);
    DeclaringAccounted(s, ArrivalStep(s, call).state, RequestHandles(0));
  }

  /** Some class at or above `c` is subscribed. */
  ghost predicate Delivered(classes: seq<ClassState>, c: nat)
    requires WellFormed(classes)
  {
    c < |classes| && exists a | 0 <= a < |classes| :: Subscribed(classes, a) && AtOrAbove(Links(classes), a, c)
  }

  lemma DeliveredIfNearest(classes: seq<ClassState>, c: nat)
    requires WellFormed(classes) && c < |classes|
    ensures NearestSubscribed(classes, c).Some? <==> Delivered(classes, c)
  {
    NearestIsNearest(Links(classes), c);
    assert forall a | 0 <= a < |classes| :: Links(classes)[a].subscribed == Subscribed(classes, a);
  }

  /** An insert message for an unknown instance sends nothing, and the handle enters the
      accounts if and only if the instance is delivered: a dropped one is never given back. */
  lemma InsertCountsIfDelivered(s: Federate, h: nat, name: string, c: nat)
    requires WellFormed(s.classes) && OneHolder(s) && h !in s.instances && Unused(s, Pair(h, name))
    ensures var s' := Step(s, InsertArrived(h, name, c)).state;
            && s'.sent == s.sent
            && Ledger(s', h) == Ledger(s, h) + (if Delivered(s.classes, c) then 1 else 0)
  {
    hide OneHolder, Ledger;
    StepAccounted(s, InsertArrived(h, name, c));
    if c < |s.classes| { DeliveredIfNearest(s.classes, c); }
  }

  /** For instance, a federate that has just joined forgets every insert message. */
  lemma FreshDropsInserts(s: Federate, h: nat, name: string, c: nat)
    requires Fresh(s)
    ensures Step(s, InsertArrived(h, name, c)).state == s
  {
    if c < |s.classes| {
      assert forall a | 0 <= a < |s.classes| :: !Subscribed(s.classes, a);
    }
  }

  lemma StepKeepsOneHolder(s: Federate, call: Call)
    requires WellFormed(s.classes) && OneHolder(s) && ServerGrantsUnused(s, call)
    ensures OneHolder(Step(s, call).state)
  {
    StepAccounted(s, call);
  }

  /** What is about to leave a pool for the instance map is new to that map. */
  lemma PooledIsNew(s: Federate, n: string)
    requires OneHolder(s)
    ensures n in s.free ==> n !in s.names && s.free[n] !in s.instances
    ensures n in s.reserved ==> n !in s.names && s.reserved[n] !in s.instances
  {
    if n in s.free { TakeFree(s, n); }
    if n in s.reserved { TakeReserved(s, n); }
  }

  // ---------------------------------------------------------------------------- runs

  ghost predicate ServerAlwaysGrantsUnused(s: Federate, calls: seq<Call>)
    requires WellFormed(s.classes)
  {
    forall n | 0 <= n < |calls| :: ServerGrantsUnused(Run(s, calls[..n]), calls[n])
  }

  ghost function GrantedIn(s: Federate, calls: seq<Call>): multiset<nat>
    requires WellFormed(s.classes)
    decreases |calls|
  {
    if calls == [] then multiset{}
    else
      var n := |calls| - 1;
      GrantedIn(s, calls[..n]) + GrantedBy(Run(s, calls[..n]), calls[n])
  }

  lemma FreshHoldsNothing(s: Federate)
    requires Fresh(s)
    ensures OneHolder(s) && forall h :: Ledger(s, h) == 0
  {}

  lemma GrantsUnusedBefore(s: Federate, calls: seq<Call>, n: nat)
    requires WellFormed(s.classes) && ServerAlwaysGrantsUnused(s, calls) && n < |calls|
    ensures ServerAlwaysGrantsUnused(s, calls[..n])
    ensures ServerGrantsUnused(Run(s, calls[..n]), calls[n])
  {
    hide Run, ServerGrantsUnused;
    forall i | 0 <= i < n ensures ServerGrantsUnused(Run(s, calls[..n][..i]), calls[..n][i]) {
      assert calls[..n][..i] == calls[..i];
      assert ServerGrantsUnused(Run(s, calls[..i]), calls[i]);
    }
  }

  /** Main result: in every run, each grant of a handle is accounted for by exactly one
      place that holds it or by one mention in a release message; no handle is in two
      places, and the name and instance maps stay inverse. */
  lemma {:induction false} HandlesConserved(s: Federate, calls: seq<Call>)
    requires Fresh(s) && ServerAlwaysGrantsUnused(s, calls)
    ensures OneHolder(Run(s, calls))
    ensures forall h :: Ledger(Run(s, calls), h) == GrantedIn(s, calls)[h]
    decreases |calls|
  {
    hide OneHolder, Ledger, GrantedBy, Step, ServerGrantsUnused, ServerAlwaysGrantsUnused;
    if calls == [] {
      FreshHoldsNothing(s);
    } else {
      var n := |calls| - 1;
      GrantsUnusedBefore(s, calls, n);
      HandlesConserved(s, calls[..n]);
      StepAccounted(Run(s, calls[..n]), calls[n]);
      assert forall h :: Ledger(Run(s, calls[..n]), h) == GrantedIn(s, calls[..n])[h];
    }
  }

  ghost predicate HeldOrReleased(s: Federate, h: nat) {
    if h in s.free.Values || h in s.reserved.Values || h in s.instances
    then Places(s, h) == 1 && h !in Released(s.sent)
    else Released(s.sent)[h] == 1
  }

  /** A handle that was granted once is, after any run, either in exactly one of the three
      places and not yet given back, or in none and named in exactly one release message. */
  lemma EachGrantHeldOrReleased(s: Federate, calls: seq<Call>, h: nat)
    requires Fresh(s) && ServerAlwaysGrantsUnused(s, calls)
    ensures GrantedIn(s, calls)[h] == 1 ==> HeldOrReleased(Run(s, calls), h)
  {
    HandlesConserved(s, calls);
  }

  /** The handle and name that a register call is about to insert are new to both maps,
      which is what the insertion asserts. */
  lemma RegisterInsertsNew(s: Federate, calls: seq<Call>, n: string)
    requires Fresh(s) && ServerAlwaysGrantsUnused(s, calls)
    ensures var r := Run(s, calls);
            && (n in r.free ==> n !in r.names && r.free[n] !in r.instances)
            && (n in r.reserved ==> n !in r.names && r.reserved[n] !in r.instances)
  {
    HandlesConserved(s, calls);
    PooledIsNew(Run(s, calls), n);
  }
}
