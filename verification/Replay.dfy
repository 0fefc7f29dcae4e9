/** The declaration messages a federate sends are enough for the rest of the federation
    to know its effective publications and subscriptions: replaying them rebuilds both. */
module Replay {
  import opened Declarations
  import opened FederateModel

  /** What a listener believes after some messages: a level per class and attribute. */
  datatype Believed = Believed(publication: seq<seq<Level>>, subscription: seq<seq<Level>>)

  function SetAll(row: seq<Level>, attributes: seq<nat>, level: Level): seq<Level> {
    seq(|row|, k requires 0 <= k < |row| => if k in attributes then level else row[k])
  }

  function SetRow(rows: seq<seq<Level>>, c: nat, attributes: seq<nat>, level: Level): seq<seq<Level>> {
    if c < |rows| then rows[c := SetAll(rows[c], attributes, level)] else rows
  }

  function Apply(b: Believed, m: Message): Believed {
    match m
    case ChangePublication(c, level, v) => b.(publication := SetRow(b.publication, c, v, level))
    case ChangeSubscription(c, level, v) => b.(subscription := SetRow(b.subscription, c, v, level))
    case _ => b
  }

  function ReplayAll(b: Believed, messages: seq<Message>): Believed
    decreases |messages|
  {
    if messages == [] then b
    else Apply(ReplayAll(b, messages[..|messages| - 1]), messages[|messages| - 1])
  }

  function PublicationLevels(s: Federate): seq<seq<Level>> {
    seq(|s.classes|, c requires 0 <= c < |s.classes| => EffectiveLevels(s.classes[c].publication))
  }

  function SubscriptionLevels(s: Federate): seq<seq<Level>> {
    seq(|s.classes|, c requires 0 <= c < |s.classes| => EffectiveLevels(s.classes[c].subscription))
  }

  /** A listener that has the class tree but has not heard of any declaration. */
  function Unaware(s: Federate): Believed {
    var publication := seq(|s.classes|, c requires 0 <= c < |s.classes| => AllOff(|s.classes[c].publication.levels|));
    var subscription := seq(|s.classes|, c requires 0 <= c < |s.classes| => AllOff(|s.classes[c].subscription.levels|));
    Believed(publication, subscription)
  }

  /** Replaying all messages rebuilds the effective levels of one side. */
  ghost predicate PublicationKnown(b: Believed, s: Federate) {
    ReplayAll(b, s.sent).publication == PublicationLevels(s)
  }

  ghost predicate SubscriptionKnown(b: Believed, s: Federate) {
    ReplayAll(b, s.sent).subscription == SubscriptionLevels(s)
  }

  // --------------------------------------------------------------------- one message

  lemma ReplayOneMore(b: Believed, messages: seq<Message>, m: Message)
    ensures ReplayAll(b, messages + [m]) == Apply(ReplayAll(b, messages), m)
  {
    var all := messages + [m];
    assert all[..|all| - 1] == messages;
  }

  predicate Quiet(messages: seq<Message>) {
    forall i | 0 <= i < |messages| :: !messages[i].ChangePublication? && !messages[i].ChangeSubscription?
  }

  lemma QuietApplies(b: Believed, m: Message)
    requires !m.ChangePublication? && !m.ChangeSubscription?
    ensures Apply(b, m) == b
  {}

  lemma {:induction false} ReplayQuiet(b: Believed, messages: seq<Message>, extra: seq<Message>)
    requires Quiet(extra)
    ensures ReplayAll(b, messages + extra) == ReplayAll(b, messages)
    decreases |extra|
  {
    hide Apply;
    if extra == [] {
      assert messages + extra == messages;
    } else {
      var n := |extra| - 1;
      ReplayQuiet(b, messages, extra[..n]);
      ReplayOneMore(b, messages + extra[..n], extra[n]);
      QuietApplies(ReplayAll(b, messages), extra[n]);
      assert messages + extra == messages + extra[..n] + [extra[n]];
    }
  }

  /** A message rebuilds the effective levels exactly when it carries the right level. */
  lemma DeltaRebuilds(d: Declaration, r: Delta, level: Level)
    requires NamesChanges(d, r)
    ensures SetAll(EffectiveLevels(d), r.attributes, level) == EffectiveLevels(r.after)
       <==> AllAt(r, level)
  {
    var was, now := EffectiveLevels(d), EffectiveLevels(r.after);
    var told := SetAll(was, r.attributes, level);
    if AllAt(r, level) {
      assert forall k | 0 <= k < |told| :: told[k] == now[k];
    }
    if told == now {
      forall k | k in r.attributes ensures Effective(r.after, k) == level {
        assert now[k] == told[k];
      }
    }
  }

  lemma PublicationSent(b: Believed, s: Federate, c: nat, r: Delta, level: Level)
    requires c < |s.classes| && NamesChanges(s.classes[c].publication, r) && AllAt(r, level)
    ensures PublicationKnown(b, s) ==> PublicationKnown(b, WithPublication(s, c, r, level))
    ensures SubscriptionKnown(b, s) <==> SubscriptionKnown(b, WithPublication(s, c, r, level))
  {
    var s' := WithPublication(s, c, r, level);
    var row := EffectiveLevels(s.classes[c].publication);
    DeltaRebuilds(s.classes[c].publication, r, level);
    ReplayOneMore(b, s.sent, ChangePublication(c, level, r.attributes));
    assert SubscriptionLevels(s') == SubscriptionLevels(s);
    assert PublicationLevels(s') == PublicationLevels(s)[c := EffectiveLevels(r.after)];
    if r.attributes == [] { assert SetAll(row, [], level) == row; }
  }

  lemma SubscriptionSent(b: Believed, s: Federate, c: nat, r: Delta, level: Level)
    requires c < |s.classes| && NamesChanges(s.classes[c].subscription, r)
    requires SubscriptionKnown(b, s)
    ensures SubscriptionKnown(b, WithSubscription(s, c, r, level)) <==> AllAt(r, level)
  {
    var s' := WithSubscription(s, c, r, level);
    var row := EffectiveLevels(s.classes[c].subscription);
    DeltaRebuilds(s.classes[c].subscription, r, level);
    ReplayOneMore(b, s.sent, ChangeSubscription(c, level, r.attributes));
    assert SubscriptionLevels(s') == SubscriptionLevels(s)[c := EffectiveLevels(r.after)];
    assert SubscriptionLevels(s')[c] == EffectiveLevels(r.after);
    if r.attributes == [] {
      assert SetAll(row, [], level) == row;
      assert SubscriptionLevels(s') == SubscriptionLevels(s);
    }
  }

  lemma SubscriptionKeepsPublication(b: Believed, s: Federate, c: nat, r: Delta, level: Level)
    requires c < |s.classes|
    ensures PublicationKnown(b, s) <==> PublicationKnown(b, WithSubscription(s, c, r, level))
  {
    ReplayOneMore(b, s.sent, ChangeSubscription(c, level, r.attributes));
    assert PublicationLevels(WithSubscription(s, c, r, level)) == PublicationLevels(s);
  }

  // ------------------------------------------------------------- calls that are quiet

  ghost predicate QuietStep(s: Federate, s': Federate) {
    && s'.classes == s.classes
    && |s.sent| <= |s'.sent| && s'.sent[..|s.sent|] == s.sent && Quiet(s'.sent[|s.sent|..])
  }

  lemma QuietKeepsBoth(b: Believed, s: Federate, s': Federate)
    requires QuietStep(s, s')
    ensures PublicationKnown(b, s) <==> PublicationKnown(b, s')
    ensures SubscriptionKnown(b, s) <==> SubscriptionKnown(b, s')
  {
    ReplayQuiet(b, s.sent, s'.sent[|s.sent|..]);
    assert s'.sent == s.sent + s'.sent[|s.sent|..];
    assert PublicationLevels(s) == PublicationLevels(s') && SubscriptionLevels(s) == SubscriptionLevels(s');
  }

  lemma {:induction false} ReleaseEachQuiet(s: Federate, hs: seq<nat>)
    ensures QuietStep(s, ReleaseEach(s, hs))
    decreases |hs|
  {
    if hs != [] {
      var s1 := Release(s, hs[0]);
      ReleaseEachQuiet(s1, hs[1..]);
      QuietBy(s, s1, [ReleaseHandles([hs[0]])]);
      QuietThen(s, s1, ReleaseEach(s, hs));
    }
  }

  lemma QuietThen(s: Federate, s1: Federate, s2: Federate)
    requires QuietStep(s, s1) && QuietStep(s1, s2)
    ensures QuietStep(s, s2)
  {
    assert s2.sent[|s.sent|..] == s1.sent[|s.sent|..] + s2.sent[|s1.sent|..];
    assert s2.sent[..|s.sent|] == s2.sent[..|s1.sent|][..|s.sent|];
  }

  lemma QuietBy(s: Federate, s': Federate, extra: seq<Message>)
    requires s'.classes == s.classes && s'.sent == s.sent + extra && Quiet(extra)
    ensures QuietStep(s, s')
  {}

  lemma OtherCallsQuiet(s: Federate, call: Call)
    requires WellFormed(s.classes) && !IsDeclaration(call) && !IsArrival(call)
    ensures QuietStep(s, Step(s, call).state)
  {
    var s' := Step(s, call).state;
    OtherFrame(s, call);
    match call
    case Register(c) => RegisterQuiet(s, c);
    case RegisterNamed(c, name, allow, reply) => RegisterNamedQuiet(s, c, name, allow, reply);
    case Delete(h) =>
      if s' != s { QuietBy(s, s', [DeleteInstance(h), ReleaseHandles([h])]); }
    case ReleaseName(n) =>
      if s' != s { QuietBy(s, s', [ReleaseHandles([s.reserved[n]])]); }
    case ReleaseNames(ns) =>
      if s' != s {
        QuietBy(s, s', [ReleaseHandles(HandlesFor(s.reserved, Util.AscendingNames(ns)))]);
      }
    case RemoveArrived(h) =>
      if s' != s { QuietBy(s, s', [ReleaseHandles([h])]); }
    case _ => QuietBy(s, s', []);
  }

  lemma RegisterQuiet(s: Federate, c: nat)
    requires WellFormed(s.classes)
    ensures QuietStep(s, RegisterStep(s, c).state)
  {
    var s' := RegisterStep(s, c).state;
    if |s'.sent| > |s.sent| { QuietBy(s, s', s'.sent[|s.sent|..]); }
  }

  lemma RegisterNamedQuiet(s: Federate, c: nat, name: string, allow: bool, reply: Util.Option<nat>)
    requires WellFormed(s.classes)
    ensures QuietStep(s, RegisterNamedStep(s, c, name, allow, reply).state)
  {
    var s' := RegisterNamedStep(s, c, name, allow, reply).state;
    if |s'.sent| > |s.sent| { QuietBy(s, s', s'.sent[|s.sent|..]); }
  }

  // ------------------------------------------------------------- the declaration calls

  /** The call that unsubscribes attribute 0 of a class whose own subscription is weaker
      but still there: it announces Unsubscribed for what is still subscribed. */
  predicate UncoversClass(s: Federate, call: Call) {
    && call.UnsubscribeAttributes? && Accepts(s, call)
    && Uncovers(s.classes[call.objectClass].subscription, call.attributes)
  }

  /** Every declaration message carries the level that its attributes now have, unless
      the call uncovers a class subscription. */
  lemma DeltaLevel(s: Federate, call: Call)
    requires WellFormed(s.classes) && PublicationsTwoLevel(s) && IsDeclaration(call) && Accepts(s, call)
    ensures AllAt(DeltaOf(s, call), LevelOf(call)) <==> !UncoversClass(s, call)
  {
    var d := SideOf(s, call);
    match call
    case Publish(_, v) => DeclareExactDelta(d, v, PUBLISHED);
    case UnpublishClass(_) => UndeclareAllDelta(d);
    case UnpublishAttributes(_, v) => UndeclareDelta(d, v);
    case Subscribe(_, v, active) => DeclareExactDelta(d, v, SubscribeLevel(active));
    case UnsubscribeClass(_) => UndeclareAllDelta(d);
    case UnsubscribeAttributes(_, v) => UndeclareDelta(d, v);
  }

  lemma UnsubscribeQuietTail(b: Believed, s: Federate, c: nat, r: Delta)
    requires c < |s.classes| && r.after.Valid()
    ensures PublicationKnown(b, Unsubscribed(s, c, r)) <==> PublicationKnown(b, WithSubscription(s, c, r, OFF))
    ensures SubscriptionKnown(b, Unsubscribed(s, c, r)) <==> SubscriptionKnown(b, WithSubscription(s, c, r, OFF))
  {
    var s1 := WithSubscription(s, c, r, OFF);
    var hs := Util.Ascending(Unjustified(s1, c));
    ReleaseEachQuiet(s1, hs);
    QuietKeepsBoth(b, s1, ReleaseEach(s1, hs));
  }

  /** One declaration call: publications stay known, and subscriptions stay known unless
      the call uncovers a class subscription. */
  lemma DeclarationKnown(b: Believed, s: Federate, call: Call)
    requires WellFormed(s.classes) && IsDeclaration(call) && PublicationsTwoLevel(s)
    ensures PublicationKnown(b, s) ==> PublicationKnown(b, DeclarationStep(s, call).state)
    ensures SubscriptionKnown(b, s) ==>
              (SubscriptionKnown(b, DeclarationStep(s, call).state) <==> !UncoversClass(s, call))
  {
    hide DeltaOf, WithPublication, WithSubscription, Unsubscribed, PublicationKnown, SubscriptionKnown, Uncovers;
    hide PublicationsTwoLevel, NamesChanges, AllAt;
    if Accepts(s, call) {
      var c, r, level := call.objectClass, DeltaOf(s, call), LevelOf(call);
      DeltaNames(s, call);
      DeltaLevel(s, call);
      if IsPublication(call) {
        PublicationSent(b, s, c, r, level);
      } else {
        SubscriptionKeepsPublication(b, s, c, r, level);
        if SubscriptionKnown(b, s) { SubscriptionSent(b, s, c, r, level); }
        if !call.Subscribe? { UnsubscribeQuietTail(b, s, c, r); }
      }
    }
  }

  // -------------------------------------------------------------- two publication levels

  /** Publications only ever use the two levels of their enumeration. */
  predicate TwoLevels(d: Declaration) {
    d.flag <= PUBLISHED && forall k | 0 <= k < |d.levels| :: d.levels[k] <= PUBLISHED
  }

  predicate PublicationsTwoLevel(s: Federate) {
    forall c | 0 <= c < |s.classes| :: TwoLevels(s.classes[c].publication)
  }

  lemma CompactTwoLevels(d: Declaration, v: seq<nat>, level: Level)
    requires d.Defined(v) && TwoLevels(d) && level <= PUBLISHED
    ensures TwoLevels(Compact(d, v, level).after)
  {
    CompactLevels(d, v, level);
  }

  lemma DeltaTwoLevels(s: Federate, call: Call)
    requires WellFormed(s.classes) && PublicationsTwoLevel(s) && IsPublication(call) && Accepts(s, call)
    ensures TwoLevels(DeltaOf(s, call).after)
  {
    var d := SideOf(s, call);
    match call
    case Publish(_, v) =>
      CompactTwoLevels(SetFlag(d, PUBLISHED), v, PUBLISHED);
      CompactTwoLevels(SetFlag(d, PUBLISHED), WithPrivilege(v)[1..], PUBLISHED);
    case UnpublishClass(_) => CompactTwoLevels(SetFlag(d, OFF), UpTo(|d.levels|), OFF);
    case UnpublishAttributes(_, v) => CompactTwoLevels(d, v, OFF);
  }

  lemma StepTwoLevels(s: Federate, call: Call)
    requires WellFormed(s.classes) && PublicationsTwoLevel(s)
    ensures PublicationsTwoLevel(Step(s, call).state)
  {
    hide DeltaOf, Unsubscribed, Step, TwoLevels;
    if IsArrival(call) {
      StepArrives(s, call);
      ArrivalTwoLevels(s, call);
    } else if !IsDeclaration(call) {
      OtherFrame(s, call);
    } else {
      StepDeclares(s, call);
      if Accepts(s, call) {
        if IsPublication(call) {
          DeltaTwoLevels(s, call);
        } else if !call.Subscribe? {
          UnsubscribedFrame(s, call.objectClass, DeltaOf(s, call));
        }
      }
    }
  }

  lemma ArrivalTwoLevels(s: Federate, call: Call)
    requires WellFormed(s.classes) && PublicationsTwoLevel(s) && IsArrival(call)
    ensures PublicationsTwoLevel(ArrivalStep(s, call).state)
  {
    hide GetsAttribute;
  }

  lemma {:induction false} RunTwoLevels(s: Federate, calls: seq<Call>)
    requires Fresh(s)
    ensures PublicationsTwoLevel(Run(s, calls))
    decreases |calls|
  {
    hide Step, PublicationsTwoLevel;
    if calls == [] {
      FreshTwoLevels(s);
    } else {
      var n := |calls| - 1;
      RunTwoLevels(s, calls[..n]);
      StepTwoLevels(Run(s, calls[..n]), calls[n]);
    }
  }

  lemma FreshTwoLevels(s: Federate)
    requires Fresh(s)
    ensures PublicationsTwoLevel(s)
  {}

  // ------------------------------------------------------------------- widening a listener

  /** The second table has what the first has, and nothing declared in new places. */
  predicate Widens(t: seq<seq<Level>>, u: seq<seq<Level>>) {
    && |t| <= |u|
    && (forall c | 0 <= c < |t| :: t[c] <= u[c])
    && (forall c, k | 0 <= c < |u| && 0 <= k < |u[c]| && (c < |t| ==> |t[c]| <= k) :: u[c][k] == OFF)
  }

  predicate SameWidths(t: seq<seq<Level>>, u: seq<seq<Level>>) {
    |t| == |u| && forall c | 0 <= c < |t| :: |t[c]| == |u[c]|
  }

  /** A message about classes and attributes that the table has. */
  predicate Fits(t: seq<seq<Level>>, c: nat, attributes: seq<nat>) {
    c < |t| && forall k | k in attributes :: k < |t[c]|
  }

  predicate MessageFits(b: Believed, m: Message) {
    match m
    case ChangePublication(c, _, v) => Fits(b.publication, c, v)
    case ChangeSubscription(c, _, v) => Fits(b.subscription, c, v)
    case _ => true
  }

  predicate AllFit(b: Believed, messages: seq<Message>) {
    forall i | 0 <= i < |messages| :: MessageFits(b, messages[i])
  }

  /** A wider table with the same entries is determined by its widths. */
  lemma WideningIsUnique(t: seq<seq<Level>>, u: seq<seq<Level>>, v: seq<seq<Level>>)
    requires Widens(t, u) && Widens(t, v) && SameWidths(u, v)
    ensures u == v
  {
    forall c | 0 <= c < |u| ensures u[c] == v[c] {
      if c < |t| { assert forall k | 0 <= k < |t[c]| :: u[c][k] == t[c][k] && v[c][k] == t[c][k]; }
    }
  }

  lemma SetRowWidens(t: seq<seq<Level>>, u: seq<seq<Level>>, c: nat, attributes: seq<nat>, level: Level)
    requires Widens(t, u) && Fits(t, c, attributes)
    ensures Widens(SetRow(t, c, attributes, level), SetRow(u, c, attributes, level))
    ensures SameWidths(t, SetRow(t, c, attributes, level)) && SameWidths(u, SetRow(u, c, attributes, level))
  {
    var t', u' := SetRow(t, c, attributes, level), SetRow(u, c, attributes, level);
    forall d | 0 <= d < |t'| ensures t'[d] <= u'[d] {
      assert t[d] <= u[d];
    }
  }

  predicate BelievedWidens(a: Believed, b: Believed) {
    Widens(a.publication, b.publication) && Widens(a.subscription, b.subscription)
  }

  predicate SameBelievedWidths(a: Believed, b: Believed) {
    SameWidths(a.publication, b.publication) && SameWidths(a.subscription, b.subscription)
  }

  lemma ApplyWidens(a: Believed, b: Believed, m: Message)
    requires BelievedWidens(a, b) && MessageFits(a, m)
    ensures BelievedWidens(Apply(a, m), Apply(b, m))
    ensures SameBelievedWidths(a, Apply(a, m)) && SameBelievedWidths(b, Apply(b, m))
  {
    hide Widens, Fits, SetRow;
    match m
    case ChangePublication(c, level, v) => SetRowWidens(a.publication, b.publication, c, v, level);
    case ChangeSubscription(c, level, v) => SetRowWidens(a.subscription, b.subscription, c, v, level);
    case _ =>
  }

  lemma FitsByWidth(a: Believed, b: Believed, m: Message)
    requires SameBelievedWidths(a, b) && MessageFits(a, m)
    ensures MessageFits(b, m)
  {}

  /** Messages about what is there say the same to a listener with a wider table. */
  lemma {:induction false} ReplayWidens(a: Believed, b: Believed, messages: seq<Message>)
    requires BelievedWidens(a, b) && AllFit(a, messages)
    ensures BelievedWidens(ReplayAll(a, messages), ReplayAll(b, messages))
    ensures SameBelievedWidths(a, ReplayAll(a, messages)) && SameBelievedWidths(b, ReplayAll(b, messages))
    decreases |messages|
  {
    hide Widens, MessageFits, Apply;
    if messages != [] {
      var n := |messages| - 1;
      ReplayWidens(a, b, messages[..n]);
      FitsByWidth(a, ReplayAll(a, messages[..n]), messages[n]);
      ApplyWidens(ReplayAll(a, messages[..n]), ReplayAll(b, messages[..n]), messages[n]);
    }
  }

  // ----------------------------------------------------------------------- arriving classes

  datatype Side = PublicationSide | SubscriptionSide

  function DeclarationAt(side: Side, c: ClassState): Declaration {
    if side == PublicationSide then c.publication else c.subscription
  }

  ghost predicate Known(side: Side, b: Believed, s: Federate) {
    if side == PublicationSide then PublicationKnown(b, s) else SubscriptionKnown(b, s)
  }

  function LevelsOf(side: Side, s: Federate): seq<seq<Level>> {
    if side == PublicationSide then PublicationLevels(s) else SubscriptionLevels(s)
  }

  function Table(side: Side, b: Believed): seq<seq<Level>> {
    if side == PublicationSide then b.publication else b.subscription
  }

  /** A new class takes over a declared attribute of its parent, of which nobody is told. */
  predicate CopiesDeclared(side: Side, s: Federate, call: Call) {
    && call.ClassArrived? && Arrives(s.classes, call) && call.parent.Some?
    && var levels := DeclarationAt(side, s.classes[call.parent.value]).levels;
       exists k | 0 <= k < |levels| :: levels[k] != OFF
  }

  lemma ArrivalWidensUnaware(s: Federate, call: Call)
    requires WellFormed(s.classes) && IsArrival(call)
    ensures BelievedWidens(Unaware(s), Unaware(ArrivalStep(s, call).state))
  {
    hide WellFormed;
    ArrivalKeepsTree(s, call);
  }

  lemma SameLevelsWiden(classes: seq<ClassState>, later: seq<ClassState>, side: Side, c: nat)
    requires Extends(classes, later) && c < |classes| && DeclarationAt(side, classes[c]).Valid()
    ensures var d, e := DeclarationAt(side, classes[c]), DeclarationAt(side, later[c]);
            && EffectiveLevels(d) <= EffectiveLevels(e)
            && forall k | |d.levels| <= k < |e.levels| :: Effective(e, k) == OFF
  {
    var d, e := DeclarationAt(side, classes[c]), DeclarationAt(side, later[c]);
    assert KeepsLevels(d, e);
    forall k | 0 <= k < |d.levels| ensures EffectiveLevels(d)[k] == EffectiveLevels(e)[k] {
      assert d.levels[k] == e.levels[..|d.levels|][k];
    }
  }

  /** The effective levels only gain undeclared entries, unless declared ones are copied. */
  lemma ArrivalWidensLevels(side: Side, s: Federate, call: Call)
    requires WellFormed(s.classes) && IsArrival(call)
    ensures var s' := ArrivalStep(s, call).state;
            Widens(LevelsOf(side, s), LevelsOf(side, s')) <==> !CopiesDeclared(side, s, call)
  {
    hide CopiesDeclared, NewClass;
    var s' := ArrivalStep(s, call).state;
    ArrivalKeepsTree(s, call);
    OldRowsWiden(side, s, s');
    var n := |s.classes|;
    if call.ClassArrived? && Arrives(s.classes, call) {
      NewClassLevels(side, s, call);
      var t, u := LevelsOf(side, s), LevelsOf(side, s');
      assert s'.classes[n] == NewClass(s.classes, call.parent, call.own) && |s'.classes| == n + 1;
      assert |t| == n && |u| == n + 1;
      assert u[n] == EffectiveLevels(DeclarationAt(side, NewClass(s.classes, call.parent, call.own)));
      hide LevelsOf;
      LastRowDecides(t, u);
    } else {
      CopyingArrives(side, s, call);
      assert LevelsOf(side, s')[..n] == LevelsOf(side, s');
    }
  }

  lemma OldRowsWiden(side: Side, s: Federate, s': Federate)
    requires WellFormed(s.classes) && Extends(s.classes, s'.classes)
    ensures Widens(LevelsOf(side, s), LevelsOf(side, s')[..|s.classes|])
  {
    hide Effective;
    forall c | 0 <= c < |s.classes|
      ensures var d, e := DeclarationAt(side, s.classes[c]), DeclarationAt(side, s'.classes[c]);
              && EffectiveLevels(d) <= EffectiveLevels(e)
              && forall k | |d.levels| <= k < |e.levels| :: EffectiveLevels(e)[k] == OFF
    {
      SameLevelsWiden(s.classes, s'.classes, side, c);
    }
  }

  lemma LastRowDecides(t: seq<seq<Level>>, u: seq<seq<Level>>)
    requires |u| == |t| + 1 && Widens(t, u[..|t|])
    ensures Widens(t, u) <==> forall k | 0 <= k < |u[|t|]| :: u[|t|][k] == OFF
  {
    assert forall c | 0 <= c < |t| :: u[..|t|][c] == u[c];
  }

  lemma NewClassLevels(side: Side, s: Federate, call: Call)
    requires WellFormed(s.classes) && call.ClassArrived? && Arrives(s.classes, call)
    ensures var row := EffectiveLevels(DeclarationAt(side, NewClass(s.classes, call.parent, call.own)));
            (forall k | 0 <= k < |row| :: row[k] == OFF) <==> !CopiesDeclared(side, s, call)
  {
    var e := DeclarationAt(side, NewClass(s.classes, call.parent, call.own));
    match call.parent
    case None => UndeclaredLevels(call.own);
    case Some(p) =>
      var d := DeclarationAt(side, s.classes[p]);
      var row := EffectiveLevels(e);
      assert e == Inheriting(d, call.own) && |row| == |d.levels| + call.own;
      assert forall k | 0 <= k < |d.levels| :: row[k] == d.levels[k];
      assert forall k | |d.levels| <= k < |row| :: row[k] == OFF;
  }

  lemma UndeclaredLevels(n: nat)
    ensures EffectiveLevels(Declaration(OFF, AllOff(n))) == AllOff(n)
  {}

  /** Exactly when an arrival leaves a listener with the right picture. */
  lemma ArrivalKnown(side: Side, s: Federate, call: Call)
    requires WellFormed(s.classes) && IsArrival(call) && AllFit(Unaware(s), s.sent)
    requires Known(side, Unaware(s), s)
    ensures var s' := ArrivalStep(s, call).state;
            Known(side, Unaware(s'), s') <==> !CopiesDeclared(side, s, call)
  {
    hide WellFormed, Widens, SameWidths, CopiesDeclared, Unaware, LevelsOf;
    var s' := ArrivalStep(s, call).state;
    ArrivalKeepsTree(s, call);
    ArrivalWidensUnaware(s, call);
    ArrivalWidensLevels(side, s, call);
    ReplayWidens(Unaware(s), Unaware(s'), s.sent);
    LevelWidths(side, s');
    var t, u := LevelsOf(side, s), LevelsOf(side, s');
    var told := Table(side, ReplayAll(Unaware(s'), s.sent));
    SideTables(side, s);
    SideTables(side, s');
    if Widens(t, u) {
      WidthsMeet(Table(side, Unaware(s')), told, u);
      WideningIsUnique(t, told, u);
    }
  }

  lemma SideTables(side: Side, s: Federate)
    ensures Known(side, Unaware(s), s) <==> Table(side, ReplayAll(Unaware(s), s.sent)) == LevelsOf(side, s)
  {}

  lemma LevelWidths(side: Side, s: Federate)
    ensures SameWidths(Table(side, Unaware(s)), LevelsOf(side, s))
  {}

  lemma WidthsMeet(t: seq<seq<Level>>, u: seq<seq<Level>>, v: seq<seq<Level>>)
    requires SameWidths(t, u) && SameWidths(t, v)
    ensures SameWidths(u, v)
  {}

  // ------------------------------------------------------------------- messages that fit

  lemma {:induction false} FitMore(b: Believed, messages: seq<Message>, extra: seq<Message>)
    requires AllFit(b, messages) && AllFit(b, extra)
    ensures AllFit(b, messages + extra)
  {
    hide MessageFits;
  }

  lemma ShapeUnaware(s: Federate, s': Federate)
    requires SameShape(s.classes, s'.classes)
    ensures Unaware(s) == Unaware(s')
  {}

  lemma WidenedFits(a: Believed, b: Believed, messages: seq<Message>)
    requires BelievedWidens(a, b) && AllFit(a, messages)
    ensures AllFit(b, messages)
  {
    forall i | 0 <= i < |messages| ensures MessageFits(b, messages[i]) {
      assert MessageFits(a, messages[i]);
    }
  }

  lemma QuietFits(s: Federate, s': Federate)
    requires QuietStep(s, s') && AllFit(Unaware(s), s.sent)
    ensures AllFit(Unaware(s), s'.sent)
  {
    hide Unaware;
    var extra := s'.sent[|s.sent|..];
    assert s'.sent == s.sent + extra;
    FitMore(Unaware(s), s.sent, extra);
  }

  lemma PublicationFits(s: Federate, c: nat, r: Delta, level: Level)
    requires c < |s.classes| && NamesChanges(s.classes[c].publication, r) && AllFit(Unaware(s), s.sent)
    ensures AllFit(Unaware(s), WithPublication(s, c, r, level).sent)
  {
    FitMore(Unaware(s), s.sent, [ChangePublication(c, level, r.attributes)]);
  }

  lemma SubscriptionFits(s: Federate, c: nat, r: Delta, level: Level)
    requires c < |s.classes| && NamesChanges(s.classes[c].subscription, r) && AllFit(Unaware(s), s.sent)
    ensures AllFit(Unaware(s), WithSubscription(s, c, r, level).sent)
  {
    FitMore(Unaware(s), s.sent, [ChangeSubscription(c, level, r.attributes)]);
  }

  lemma UnsubscribedFits(s: Federate, c: nat, r: Delta)
    requires c < |s.classes| && r.after.Valid() && AllFit(Unaware(s), WithSubscription(s, c, r, OFF).sent)
    requires |r.after.levels| == |s.classes[c].subscription.levels|
    ensures AllFit(Unaware(s), Unsubscribed(s, c, r).sent)
  {
    hide Unaware, MessageFits;
    var s1 := WithSubscription(s, c, r, OFF);
    SubscriptionShape(s, c, r, OFF);
    ShapeUnaware(s, s1);
    var hs := Util.Ascending(Unjustified(s1, c));
    ReleaseEachQuiet(s1, hs);
    QuietFits(s1, ReleaseEach(s1, hs));
  }

  lemma DeclarationFits(s: Federate, call: Call)
    requires WellFormed(s.classes) && IsDeclaration(call) && AllFit(Unaware(s), s.sent)
    ensures AllFit(Unaware(s), DeclarationStep(s, call).state.sent)
  {
    hide DeltaOf, WithPublication, WithSubscription, Unsubscribed, AllFit, Unaware;
    if Accepts(s, call) {
      var c, r, level := call.objectClass, DeltaOf(s, call), LevelOf(call);
      DeltaNames(s, call);
      if IsPublication(call) {
        PublicationFits(s, c, r, level);
      } else {
        SubscriptionFits(s, c, r, level);
        if !call.Subscribe? { UnsubscribedFits(s, c, r); }
      }
    }
  }

  /** Every message sent so far is about classes and attributes that exist. */
  lemma StepFits(s: Federate, call: Call)
    requires WellFormed(s.classes) && AllFit(Unaware(s), s.sent)
    ensures AllFit(Unaware(Step(s, call).state), Step(s, call).state.sent)
  {
    hide Step, DeclarationStep, ArrivalStep, AllFit, Unaware, SameShape;
    var s' := Step(s, call).state;
    StepShape(s, call);
    if IsArrival(call) {
      StepArrives(s, call);
      ArrivalKeepsTree(s, call);
      ArrivalWidensUnaware(s, call);
      WidenedFits(Unaware(s), Unaware(s'), s.sent);
    } else {
      ShapeUnaware(s, s');
      if IsDeclaration(call) {
        StepDeclares(s, call);
        DeclarationFits(s, call);
      } else {
        OtherCallsQuiet(s, call);
        QuietFits(s, s');
      }
    }
  }

  lemma {:induction false} RunFits(s: Federate, calls: seq<Call>)
    requires Fresh(s)
    ensures AllFit(Unaware(Run(s, calls)), Run(s, calls).sent)
    decreases |calls|
  {
    hide Step, Unaware;
    if calls != [] {
      var n := |calls| - 1;
      RunFits(s, calls[..n]);
      StepFits(Run(s, calls[..n]), calls[n]);
    }
  }

  // --------------------------------------------------------------------------------- runs

  /** The calls and arrivals after which listeners are wrong about one side. */
  predicate Misleads(side: Side, s: Federate, call: Call) {
    CopiesDeclared(side, s, call) || (side == SubscriptionSide && UncoversClass(s, call))
  }

  /** What one step of any kind means to listeners that knew the side before. */
  lemma StepKnown(side: Side, s: Federate, call: Call)
    requires WellFormed(s.classes) && PublicationsTwoLevel(s) && AllFit(Unaware(s), s.sent)
    requires Known(side, Unaware(s), s)
    ensures var s' := Step(s, call).state;
            Known(side, Unaware(s'), s') <==> !Misleads(side, s, call)
  {
    hide Step, DeclarationStep, ArrivalStep, AllFit, Unaware, SameShape, PublicationsTwoLevel;
    hide PublicationKnown, SubscriptionKnown;
    var s' := Step(s, call).state;
    StepShape(s, call);
    if IsArrival(call) {
      StepArrives(s, call);
      ArrivalKnown(side, s, call);
    } else {
      ShapeUnaware(s, s');
      if IsDeclaration(call) {
        StepDeclares(s, call);
        DeclarationKnown(Unaware(s), s, call);
      } else {
        OtherCallsQuiet(s, call);
        QuietKeepsBoth(Unaware(s), s, s');
      }
    }
  }

  ghost predicate KnownAt(side: Side, s: Federate, calls: seq<Call>, n: nat)
    requires Fresh(s) && n <= |calls|
  {
    Known(side, Unaware(Run(s, calls[..n])), Run(s, calls[..n]))
  }

  ghost predicate MisleadsAt(side: Side, s: Federate, calls: seq<Call>, n: nat)
    requires Fresh(s) && n < |calls|
  {
    Misleads(side, Run(s, calls[..n]), calls[n])
  }

  ghost predicate AlwaysKnown(side: Side, s: Federate, calls: seq<Call>)
    requires Fresh(s)
  {
    forall n | 0 <= n <= |calls| :: KnownAt(side, s, calls, n)
  }

  ghost predicate NeverMisleads(side: Side, s: Federate, calls: seq<Call>)
    requires Fresh(s)
  {
    forall n | 0 <= n < |calls| :: !MisleadsAt(side, s, calls, n)
  }

  lemma KnownStep(side: Side, s: Federate, calls: seq<Call>, n: nat)
    requires Fresh(s) && n < |calls| && KnownAt(side, s, calls, n)
    ensures KnownAt(side, s, calls, n + 1) <==> !MisleadsAt(side, s, calls, n)
  {
    hide Run, Step, Misleads, Known, AllFit, PublicationsTwoLevel;
    RunTwoLevels(s, calls[..n]);
    RunFits(s, calls[..n]);
    StepKnown(side, Run(s, calls[..n]), calls[n]);
    assert calls[..n + 1] == calls[..n] + [calls[n]];
    RunOneMore(s, calls[..n], calls[n]);
  }

  lemma KnownAtStart(side: Side, s: Federate, calls: seq<Call>)
    requires Fresh(s)
    ensures KnownAt(side, s, calls, 0)
  {
    assert calls[..0] == [];
    forall c | 0 <= c < |s.classes|
      ensures PublicationLevels(s)[c] == Unaware(s).publication[c]
      ensures SubscriptionLevels(s)[c] == Unaware(s).subscription[c]
    {
      UndeclaredLevels(|s.classes[c].publication.levels|);
      UndeclaredLevels(|s.classes[c].subscription.levels|);
    }
  }

  lemma {:induction false} KnownUpTo(side: Side, s: Federate, calls: seq<Call>, n: nat)
    requires Fresh(s) && n <= |calls| && NeverMisleads(side, s, calls)
    ensures KnownAt(side, s, calls, n)
  {
    hide KnownAt, MisleadsAt;
    if n == 0 {
      KnownAtStart(side, s, calls);
    } else {
      KnownUpTo(side, s, calls, n - 1);
      KnownStep(side, s, calls, n - 1);
    }
  }

  lemma KnownThroughout(side: Side, s: Federate, calls: seq<Call>)
    requires Fresh(s)
    ensures AlwaysKnown(side, s, calls) <==> NeverMisleads(side, s, calls)
  {
    hide KnownAt, MisleadsAt;
    if AlwaysKnown(side, s, calls) {
      forall n | 0 <= n < |calls| ensures !MisleadsAt(side, s, calls, n) {
        assert KnownAt(side, s, calls, n) && KnownAt(side, s, calls, n + 1);
        KnownStep(side, s, calls, n);
      }
    }
    if NeverMisleads(side, s, calls) {
      forall n | 0 <= n <= |calls| ensures KnownAt(side, s, calls, n) {
        KnownUpTo(side, s, calls, n);
      }
    }
  }

  /** No class arrives during the run. */
  predicate FixedTree(calls: seq<Call>) {
    forall i | 0 <= i < |calls| :: !calls[i].ClassArrived?
  }

  /** Main result: replaying the messages gives the effective publication of every
      attribute of every class at every moment of a run if and only if no class arrives
      below one with a declared attribute; in particular it does on a fixed class tree. */
  lemma PublicationReplay(s: Federate, calls: seq<Call>)
    requires Fresh(s)
    ensures AlwaysKnown(PublicationSide, s, calls) <==> NeverMisleads(PublicationSide, s, calls)
    ensures FixedTree(calls) ==> AlwaysKnown(PublicationSide, s, calls)
  {
    hide AlwaysKnown, Run;
    KnownThroughout(PublicationSide, s, calls);
  }

  /** Main result: the same for subscriptions, where a call that unsubscribes attribute 0
      above a weaker class subscription misleads as well. */
  lemma SubscriptionReplay(s: Federate, calls: seq<Call>)
    requires Fresh(s)
    ensures AlwaysKnown(SubscriptionSide, s, calls) <==> NeverMisleads(SubscriptionSide, s, calls)
  {
    KnownThroughout(SubscriptionSide, s, calls);
  }

  // ------------------------------------------------------------------ one active flag

  predicate OneKind(calls: seq<Call>, active: bool) {
    forall i | 0 <= i < |calls| :: calls[i].Subscribe? ==> calls[i].active == active
  }

  predicate OnlyAt(d: Declaration, level: Level) {
    d.flag in {OFF, level} && forall k | 0 <= k < |d.levels| :: d.levels[k] in {OFF, level}
  }

  predicate SubscriptionsAt(s: Federate, level: Level) {
    forall c | 0 <= c < |s.classes| :: OnlyAt(s.classes[c].subscription, level)
  }

  lemma CompactOnlyAt(d: Declaration, v: seq<nat>, to: Level, level: Level)
    requires d.Defined(v) && OnlyAt(d, level) && to in {OFF, level}
    ensures OnlyAt(Compact(d, v, to).after, level)
  {
    CompactLevels(d, v, to);
  }

  lemma DeltaOnlyAt(s: Federate, call: Call, level: Level)
    requires WellFormed(s.classes) && IsDeclaration(call) && !IsPublication(call) && Accepts(s, call)
    requires OnlyAt(SideOf(s, call), level) && (call.Subscribe? ==> SubscribeLevel(call.active) == level)
    ensures OnlyAt(DeltaOf(s, call).after, level)
  {
    var d := SideOf(s, call);
    match call
    case Subscribe(_, v, _) =>
      CompactOnlyAt(SetFlag(d, level), v, level, level);
      CompactOnlyAt(SetFlag(d, level), WithPrivilege(v)[1..], level, level);
    case UnsubscribeClass(_) => CompactOnlyAt(SetFlag(d, OFF), UpTo(|d.levels|), OFF, level);
    case UnsubscribeAttributes(_, v) => CompactOnlyAt(d, v, OFF, level);
  }

  lemma ArrivalOnlyAt(s: Federate, call: Call, level: Level)
    requires WellFormed(s.classes) && SubscriptionsAt(s, level) && IsArrival(call)
    ensures SubscriptionsAt(ArrivalStep(s, call).state, level)
  {
    hide GetsAttribute;
  }

  lemma StepOnlyAt(s: Federate, call: Call, level: Level)
    requires WellFormed(s.classes) && SubscriptionsAt(s, level)
    requires call.Subscribe? ==> SubscribeLevel(call.active) == level
    ensures SubscriptionsAt(Step(s, call).state, level)
  {
    hide DeltaOf, Unsubscribed, Step, OnlyAt;
    if IsArrival(call) {
      StepArrives(s, call);
      ArrivalOnlyAt(s, call, level);
    } else if !IsDeclaration(call) {
      OtherFrame(s, call);
    } else {
      StepDeclares(s, call);
      if Accepts(s, call) && !IsPublication(call) {
        DeltaOnlyAt(s, call, level);
        if !call.Subscribe? { UnsubscribedFrame(s, call.objectClass, DeltaOf(s, call)); }
      }
    }
  }

  lemma {:induction false} RunOnlyAt(s: Federate, calls: seq<Call>, active: bool)
    requires Fresh(s) && OneKind(calls, active)
    ensures SubscriptionsAt(Run(s, calls), SubscribeLevel(active))
    decreases |calls|
  {
    if calls != [] {
      var n := |calls| - 1;
      RunOnlyAt(s, calls[..n], active);
      StepOnlyAt(Run(s, calls[..n]), calls[n], SubscribeLevel(active));
    }
  }

  /** A federate that always subscribes with the same `active` flag never uncovers a class
      subscription. So for it the replay is exact unless classes arrive below a subscribed
      attribute, and at every moment on a fixed class tree. */
  lemma OneKindReplays(s: Federate, calls: seq<Call>, active: bool)
    requires Fresh(s) && OneKind(calls, active)
    ensures AlwaysKnown(SubscriptionSide, s, calls)
       <==> forall n | 0 <= n < |calls| :: !CopiesAt(SubscriptionSide, s, calls, n)
    ensures FixedTree(calls) ==> AlwaysKnown(SubscriptionSide, s, calls)
  {
    hide AlwaysKnown, Run, CopiesDeclared;
    forall n | 0 <= n < |calls|
      ensures MisleadsAt(SubscriptionSide, s, calls, n) <==> CopiesAt(SubscriptionSide, s, calls, n)
      ensures CopiesAt(SubscriptionSide, s, calls, n) ==> calls[n].ClassArrived?
    {
      RunOnlyAt(s, calls[..n], active);
      NeverUncovers(Run(s, calls[..n]), calls[n], SubscribeLevel(active));
      CopyingArrives(SubscriptionSide, Run(s, calls[..n]), calls[n]);
    }
    SubscriptionReplay(s, calls);
  }

  ghost predicate CopiesAt(side: Side, s: Federate, calls: seq<Call>, n: nat)
    requires Fresh(s) && n < |calls|
  {
    CopiesDeclared(side, Run(s, calls[..n]), calls[n])
  }

  lemma NeverUncovers(s: Federate, call: Call, level: Level)
    requires SubscriptionsAt(s, level)
    ensures !UncoversClass(s, call)
  {}

  lemma CopyingArrives(side: Side, s: Federate, call: Call)
    ensures CopiesDeclared(side, s, call) ==> call.ClassArrived? && Arrives(s.classes, call)
  {}

  // ---------------------------------------------------------------------- runs that mislead

  /** What repeated declarations of attribute 0 do to a class with nothing declared: the
      first only counts for the class, as the loop skips the attribute then. */
  lemma DeclaredTwice(d: Declaration, level: Level)
    requires d.Valid() && d.flag == OFF && d.levels[0] == OFF && level != OFF
    ensures var twice := Declare(Declare(d, [0], level).after, [0], level).after;
            && |Declare(d, [0], level).after.levels| == |d.levels|
            && |twice.levels| == |d.levels| && twice.flag == level && twice.levels[0] == level
  {
    var once := Declare(d, [0], level).after;
    assert WithPrivilege([0])[1..] == [];
    assert Compact(SetFlag(d, level), [], level).after == SetFlag(d, level);
    CompactLevels(once, [0], level);
  }

  /** And what declaring no attributes at a lower level does then. */
  lemma DeclaredLower(d: Declaration)
    requires d.Valid() && d.flag == ACTIVE && d.levels[0] == ACTIVE
    ensures var lower := Declare(d, [], PASSIVE).after;
            |lower.levels| == |d.levels| && lower.flag == PASSIVE && lower.levels[0] == ACTIVE
  {}

  const UncoveringRun: seq<Call> :=
    [Subscribe(0, [0], true), Subscribe(0, [0], true), Subscribe(0, [], false), UnsubscribeAttributes(0, [0])]

  const CopyingRun: seq<Call> :=
    [Publish(0, [0]), Publish(0, [0]), ClassArrived(Util.Some(0), 0)]

  /** A way to mislead about subscriptions from the start, on any class tree: subscribe
      attribute 0 actively twice, subscribe the class passively with no attributes, and
      unsubscribe attribute 0. */
  lemma MisleadingRunExists(s: Federate)
    requires Fresh(s) && |s.classes| > 0
    ensures !AlwaysKnown(SubscriptionSide, s, UncoveringRun)
  {
    hide Step, Misleads, Run, AlwaysKnown;
    var run := UncoveringRun;
    var d := s.classes[0].subscription;
    DeclaredTwice(d, ACTIVE);
    var s1 := SubscribeStep(s, [0], ACTIVE);
    var s2 := SubscribeStep(s1, [0], ACTIVE);
    DeclaredLower(s2.classes[0].subscription);
    var s3 := SubscribeStep(s2, [], PASSIVE);
    FirstSteps(s, run, s1, s2);
    RunOneMore(s, run[..2], run[2]);
    assert run[..3] == run[..2] + [run[2]];
    UncoversFrom(s3);
    assert MisleadsAt(SubscriptionSide, s, run, 3);
    SubscriptionReplay(s, run);
  }

  const RepeatingRun: seq<Call> :=
    [Subscribe(0, [0], false), Subscribe(0, [0], false), Subscribe(0, [], true), UnsubscribeClass(0)]

  /** A run from the start, on any class tree, whose last message lists attribute 0 twice:
      subscribe attribute 0 passively twice, subscribe the class actively, and unsubscribe it. */
  lemma RepeatingRunExists(s: Federate)
    requires Fresh(s) && |s.classes| > 0
    ensures var sent := Run(s, RepeatingRun).sent;
            && sent != [] && sent[|sent| - 1].ChangeSubscription?
            && !Distinct(sent[|sent| - 1].attributes)
  {
    hide Step, Run, Distinct, Declare;
    var run := RepeatingRun;
    DeclaredTwice(s.classes[0].subscription, PASSIVE);
    var s1 := SubscribeStep(s, [0], PASSIVE);
    var s2 := SubscribeStep(s1, [0], PASSIVE);
    DeclaredHigher(s2.classes[0].subscription);
    var s3 := SubscribeStep(s2, [], ACTIVE);
    FirstSteps(s, run, s1, s2);
    RunOneMore(s, run[..2], run[2]);
    assert run[..3] == run[..2] + [run[2]];
    RunOneMore(s, run[..3], run[3]);
    assert run == run[..3] + [run[3]];
    UndeclareAllRepeatsPrivilege(s3.classes[0].subscription);
    UnsubscribedSends(s3);
  }

  lemma DeclaredHigher(d: Declaration)
    requires d.Valid() && d.flag == PASSIVE && d.levels[0] == PASSIVE
    ensures var higher := Declare(d, [], ACTIVE).after;
            |higher.levels| == |d.levels| && higher.flag == ACTIVE && higher.levels[0] == PASSIVE
  {}

  /** With no instance known, unsubscribing a class sends its one message. */
  lemma UnsubscribedSends(s: Federate)
    requires WellFormed(s.classes) && |s.classes| > 0 && s.instances == map[]
    ensures var v := UndeclareAll(s.classes[0].subscription).attributes;
            v != [] ==> Step(s, UnsubscribeClass(0)).state.sent == s.sent + [ChangeSubscription(0, OFF, v)]
  {
    hide UndeclareAll, Step;
    StepDeclares(s, UnsubscribeClass(0));
    var s1 := WithSubscription(s, 0, DeltaOf(s, UnsubscribeClass(0)), OFF);
    assert Unjustified(s1, 0) == {} && Util.Ascending({}) == [];
  }

  /** A way to mislead about publications: publish attribute 0 for itself, and let a class
      arrive below. */
  lemma CopyingRunExists(s: Federate)
    requires Fresh(s) && |s.classes| > 0
    ensures !AlwaysKnown(PublicationSide, s, CopyingRun)
  {
    hide Step, Misleads, Run, AlwaysKnown;
    var run := CopyingRun;
    DeclaredTwice(s.classes[0].publication, PUBLISHED);
    var s1 := PublishStep(s, [0]);
    var s2 := PublishStep(s1, [0]);
    FirstSteps(s, run, s1, s2);
    CopiesFrom(s2);
    assert MisleadsAt(PublicationSide, s, run, 2);
    PublicationReplay(s, run);
  }

  lemma SubscribeStep(s: Federate, v: seq<nat>, level: Level) returns (s': Federate)
    requires WellFormed(s.classes) && |s.classes| > 0 && level != OFF && (v == [] || v == [0])
    ensures s' == Step(s, Subscribe(0, v, level == ACTIVE)).state && WellFormed(s'.classes) && |s'.classes| > 0
    ensures s'.classes[0].subscription == Declare(s.classes[0].subscription, v, level).after
    ensures s'.instances == s.instances
  {
    hide Declare;
    var call := Subscribe(0, v, level == ACTIVE);
    StepShape(s, call);
    StepDeclares(s, call);
    s' := Step(s, call).state;
    assert Accepts(s, call) && DeltaOf(s, call) == Declare(s.classes[0].subscription, v, level);
  }

  lemma PublishStep(s: Federate, v: seq<nat>) returns (s': Federate)
    requires WellFormed(s.classes) && |s.classes| > 0 && v == [0]
    ensures s' == Step(s, Publish(0, v)).state && WellFormed(s'.classes) && |s'.classes| > 0
    ensures s'.classes[0].publication == Declare(s.classes[0].publication, v, PUBLISHED).after
  {
    hide Declare;
    var call := Publish(0, v);
    StepShape(s, call);
    StepDeclares(s, call);
    s' := Step(s, call).state;
    assert Accepts(s, call) && DeltaOf(s, call) == Declare(s.classes[0].publication, v, PUBLISHED);
  }

  lemma UncoversFrom(s: Federate)
    requires WellFormed(s.classes) && |s.classes| > 0
    requires s.classes[0].subscription.flag == PASSIVE && s.classes[0].subscription.levels[0] == ACTIVE
    ensures Misleads(SubscriptionSide, s, UnsubscribeAttributes(0, [0]))
  {}

  lemma CopiesFrom(s: Federate)
    requires WellFormed(s.classes) && |s.classes| > 0 && s.classes[0].publication.levels[0] == PUBLISHED
    ensures Misleads(PublicationSide, s, ClassArrived(Util.Some(0), 0))
  {}

  lemma FirstSteps(s: Federate, run: seq<Call>, s1: Federate, s2: Federate)
    requires Fresh(s) && |run| >= 2 && WellFormed(s1.classes)
    requires s1 == Step(s, run[0]).state && s2 == Step(s1, run[1]).state
    ensures Run(s, run[..2]) == s2
  {
    hide Step;
    RunOneMore(s, [], run[0]);
    assert [run[0]] == [] + [run[0]];
    RunOneMore(s, [run[0]], run[1]);
    assert run[..2] == [run[0]] + [run[1]];
  }
}
