/** A whole FED document, from its element events to the validated class list: names,
    members and nesting of every class are what the document says, told without the
    reader's and the builder's stacks. */
module FedDocument {
  import opened Util
  import opened ModuleBuilder
  import opened FedReader

  /** The two sorts of classes, by the mode that opens one. */
  predicate ClassMode(sort: Mode) { sort == ObjectClassMode || sort == InteractionClassMode }

  function MemberMode(sort: Mode): Mode { if sort == ObjectClassMode then AttributeMode else ParameterMode }

  function ClassName(sort: Mode, name: string): string {
    if sort == ObjectClassMode then ObjectClassName(name) else InteractionClassName(name)
  }

  function MemberName(sort: Mode, name: string): string {
    if sort == ObjectClassMode then AttributeName(name) else name
  }

  function SecondToken(e: Event): string { if e.Start? && |e.tokens| >= 2 then e.tokens[1] else "" }

  function Side(s: State, sort: Mode): Classes {
    if sort == ObjectClassMode then s.objects else s.interactions
  }

  // -------------------------------------------------------- what the document says

  /** The elements that are open before event `n`. */
  function OpenBefore(events: seq<Event>, n: nat): seq<Element>
    requires n <= |events|
  {
    AccountOf(events[..n]).open
  }

  predicate OpensAt(events: seq<Event>, n: nat, sort: Mode)
    requires n < |events|
  {
    OpensNow(OpenBefore(events, n), events[n], sort)
  }

  /** The standard names of the classes of one sort, in document order. */
  function ClassNames(events: seq<Event>, sort: Mode): seq<string>
    requires WellFormedEvents(events)
    decreases |events|
  {
    if events == [] then []
    else
      var n := |events| - 1;
      ClassNames(events[..n], sort)
      + if OpensAt(events, n, sort) then [ClassName(sort, SecondToken(events[n]))] else []
  }

  /** The standard names of the members whose nearest enclosing class is class `k`. */
  function MembersOf(events: seq<Event>, sort: Mode, k: nat): seq<string>
    requires WellFormedEvents(events)
    decreases |events|
  {
    if events == [] then []
    else
      var n := |events| - 1;
      MembersOf(events[..n], sort, k)
      + if OpensAt(events, n, MemberMode(sort)) && Enclosing(OpenBefore(events, n), sort) == Some(k)
        then [MemberName(sort, SecondToken(events[n]))] else []
  }

  /** The class list has the classes the document has, each with its own name and members. */
  ghost predicate Written(events: seq<Event>, sort: Mode, entries: seq<ClassEntry>)
    requires WellFormedEvents(events)
  {
    && |entries| == |ClassNames(events, sort)|
    && forall k | 0 <= k < |entries| ::
         entries[k] == ClassEntry([ClassNames(events, sort)[k]], MembersOf(events, sort, k))
  }

  // --------------------------------------------------------------------- one event

  function WithOneMember(entries: seq<ClassEntry>, k: nat, member: string): seq<ClassEntry>
    requires k < |entries|
  {
    entries[k := entries[k].(members := entries[k].members + [member])]
  }

  /** What an event does to the builder's list of one sort. */
  ghost predicate ListAfter(before: Classes, after: seq<ClassEntry>, open: seq<Element>, e: Event, sort: Mode) {
    if OpensNow(open, e, sort) then
      after == before.entries + [ClassEntry([ClassName(sort, SecondToken(e))], [])]
    else if OpensNow(open, e, MemberMode(sort)) then
      && before.Top().Some? && before.Top().value < |before.entries|
      && after == WithOneMember(before.entries, before.Top().value, MemberName(sort, SecondToken(e)))
    else
      after == before.entries
  }

  lemma NewEntry(c: Classes, name: string)
    requires c.Valid() && Push(c).Valid()
    ensures WithName(Push(c), name).entries == c.entries + [ClassEntry([name], [])]
  {
    assert Current(Push(c)) == ClassEntry([], []) && [] + [name] == [name];
  }

  lemma EventOnList(s: State, a: Account, e: Event, sort: Mode)
    requires LockStep(s) && Follows(s, a) && ClassMode(sort) && ValidEvent(e) && OnEvent(s, e).Some?
    ensures ListAfter(Side(s, sort), Side(OnEvent(s, e).value, sort).entries, a.open, e, sort)
  {
    hide OnStart, OnEnd, LockStep, Opens, Follows;
    match e
    case End => EndOnList(s, sort);
    case Start(tokens) =>
      StartPushes(s, tokens);
      ModeIsOpened(s, a, tokens, sort);
      ModeIsOpened(s, a, tokens, MemberMode(sort));
      StartOnList(s, tokens, sort);
      hide ModeFor, OpensNow;
  }

  lemma EndOnList(s: State, sort: Mode)
    requires LockStep(s) && s.modes != [] && OnEnd(s).Some?
    ensures Side(OnEnd(s).value, sort).entries == Side(s, sort).entries
  {
    hide LockStep;
  }

  /** A start event, by the mode that it opens. */
  lemma StartOnList(s: State, tokens: seq<string>, sort: Mode)
    requires LockStep(s) && ClassMode(sort) && tokens != [] && OnStart(s, tokens).Some?
    ensures ModeFor(s.modes, tokens).Some? && Side(s, sort).Valid()
    ensures var mode, c, after := ModeFor(s.modes, tokens).value, Side(s, sort), Side(OnStart(s, tokens).value, sort).entries;
            && (mode == sort ==>
                  |tokens| >= 2 && after == c.entries + [ClassEntry([ClassName(sort, tokens[1])], [])])
            && (mode == MemberMode(sort) ==>
                  && |tokens| >= 2 && c.Top().Some? && c.Top().value < |c.entries|
                  && after == WithOneMember(c.entries, c.Top().value, MemberName(sort, tokens[1])))
            && (mode != sort && mode != MemberMode(sort) ==> after == c.entries)
  {
    hide ModeFor, LockStep, Push, WithName, WithMember;
    SideValid(s, sort);
    ModeNeedsTokens(s.modes, tokens);
    var mode := ModeFor(s.modes, tokens).value;
    if mode == sort {
      PushValid(Side(s, sort));
      NewEntry(Side(s, sort), ClassName(sort, tokens[1]));
    } else if mode == MemberMode(sort) {
      OpenClass(s, sort);
      MemberEntry(Side(s, sort), MemberName(sort, tokens[1]));
    } else {
      OtherModes(mode, sort);
    }
  }

  lemma MemberEntry(c: Classes, member: string)
    requires c.Valid() && c.stack != [] && c.Top().value < |c.entries|
    ensures WithMember(c, member).entries == WithOneMember(c.entries, c.Top().value, member)
  {}

  lemma OtherModes(mode: Mode, sort: Mode)
    requires ClassMode(sort) && mode != sort && mode != MemberMode(sort)
    ensures sort == ObjectClassMode ==> mode != ObjectClassMode && mode != AttributeMode
    ensures sort == InteractionClassMode ==> mode != InteractionClassMode && mode != ParameterMode
  {}

  lemma PushValid(c: Classes)
    requires c.Valid()
    ensures Push(c).Valid()
  {}

  lemma OpenClass(s: State, sort: Mode)
    requires LockStep(s) && ClassMode(sort) && CurrentMode(s.modes) == sort
    ensures Side(s, sort).stack != [] && Side(s, sort).Top().value < |Side(s, sort).entries|
  {
    CountLast(s.modes, sort);
    SideValid(s, sort);
    TopInside(Side(s, sort));
  }

  lemma OpensOneSort(open: seq<Element>, e: Event, sort: Mode)
    requires ClassMode(sort)
    ensures !(OpensNow(open, e, sort) && OpensNow(open, e, MemberMode(sort)))
  {
    if e.Start? {
      OneWord(e.tokens);
      assert Words[8] == "class" && Words[9] == "attribute" && Words[10] == "parameter";
      hide CaseEqual;
    }
  }

  /** One more event keeps the list as the document says, given the enclosing class. */
  lemma WrittenOneMore(events: seq<Event>, sort: Mode, before: Classes, after: seq<ClassEntry>)
    requires WellFormedEvents(events) && events != [] && ClassMode(sort)
    requires var n := |events| - 1;
             && Written(events[..n], sort, before.entries)
             && before.Top() == Enclosing(OpenBefore(events, n), sort)
             && ListAfter(before, after, OpenBefore(events, n), events[n], sort)
             && forall k | |before.entries| <= k :: MembersOf(events[..n], sort, k) == []
    ensures Written(events, sort, after)
  {
    hide OpensNow, Enclosing, ClassNames, MembersOf;
    var n := |events| - 1;
    OpensOneSort(OpenBefore(events, n), events[n], sort);
    NamesStep(events, sort);
    forall k | 0 <= k < |after|
      ensures after[k] == ClassEntry([ClassNames(events, sort)[k]], MembersOf(events, sort, k))
    {
      MembersStep(events, sort, k);
    }
  }

  lemma NamesStep(events: seq<Event>, sort: Mode)
    requires WellFormedEvents(events) && events != []
    ensures var n := |events| - 1;
            var more := if OpensAt(events, n, sort) then [ClassName(sort, SecondToken(events[n]))] else [];
            ClassNames(events, sort) == ClassNames(events[..n], sort) + more
  {}

  lemma MembersStep(events: seq<Event>, sort: Mode, k: nat)
    requires WellFormedEvents(events) && events != []
    ensures var n := |events| - 1;
            var here := OpensAt(events, n, MemberMode(sort)) && Enclosing(OpenBefore(events, n), sort) == Some(k);
            var more := if here then [MemberName(sort, SecondToken(events[n]))] else [];
            MembersOf(events, sort, k) == MembersOf(events[..n], sort, k) + more
  {}

  /** Members only ever go to classes that are there. */
  lemma NoMembersBeyond(events: seq<Event>, sort: Mode, before: Classes)
    requires WellFormedEvents(events) && events != [] && ClassMode(sort)
    requires var n := |events| - 1;
             && (before.Top().Some? ==> before.Top().value < |before.entries|)
             && before.Top() == Enclosing(OpenBefore(events, n), sort)
             && forall k | |before.entries| <= k :: MembersOf(events[..n], sort, k) == []
    ensures forall k | |before.entries| <= k :: MembersOf(events, sort, k) == []
  {
    hide OpensNow, Enclosing;
  }

  lemma TopInside(c: Classes)
    requires c.Valid()
    ensures c.Top().Some? ==> c.Top().value < |c.entries|
  {}

  lemma EntriesGrow(before: Classes, after: seq<ClassEntry>, open: seq<Element>, e: Event, sort: Mode)
    requires ListAfter(before, after, open, e, sort)
    ensures |before.entries| <= |after|
  {
    hide OpensNow;
  }

  /** Main result: for every event sequence accepted so far, the class list has exactly the
      classes of the document in order, each with its one name and with the members that
      stand directly inside it. */
  lemma {:induction false} ListIsWritten(events: seq<Event>, sort: Mode)
    requires WellFormedEvents(events) && ClassMode(sort)
    ensures Read(events).Some? ==>
              && Written(events, sort, Side(Read(events).value, sort).entries)
              && forall k | |Side(Read(events).value, sort).entries| <= k :: MembersOf(events, sort, k) == []
    decreases |events|
  {
    hide ModeFor, LockStep, OnEvent, Accounted, OpensNow, Follows, ListAfter, Written, MembersOf, ClassNames, Enclosing;
    if events == [] {
      NothingWritten(sort);
    } else if Read(events).Some? {
      var n := |events| - 1;
      ListIsWritten(events[..n], sort);
      BuilderFollowsReader(events[..n]);
      var s, a := Read(events[..n]).value, AccountOf(events[..n]);
      TopIsEnclosing(s, a);
      EventOnList(s, a, events[n], sort);
      SideValid(s, sort);
      TopInside(Side(s, sort));
      WrittenOneMore(events, sort, Side(s, sort), Side(Read(events).value, sort).entries);
      NoMembersBeyond(events, sort, Side(s, sort));
      EntriesGrow(Side(s, sort), Side(Read(events).value, sort).entries, a.open, events[n], sort);
    }
  }

  lemma NothingWritten(sort: Mode)
    ensures Written([], sort, [])
    ensures forall k: nat :: MembersOf([], sort, k) == []
  {}

  lemma SideValid(s: State, sort: Mode)
    requires LockStep(s)
    ensures Side(s, sort).Valid()
  {}

  // ------------------------------------------------------------------ whole documents

  function Singles(names: seq<string>): (r: seq<seq<string>>)
    ensures |r| == |names| && OneNameEach(r)
    ensures forall i | 0 <= i < |names| :: r[i] == [names[i]]
  {
    seq(|names|, i requires 0 <= i < |names| => [names[i]])
  }

  function RootOf(sort: Mode): string { if sort == ObjectClassMode then OBJECT_ROOT else INTERACTION_ROOT }

  /** The paths that the document gives its classes. */
  ghost function DocumentPaths(events: seq<Event>, sort: Mode): seq<seq<string>>
    requires WellFormedEvents(events)
    requires ParentsBefore(ExpectedParents(events, sort))
    requires |ExpectedParents(events, sort)| == |ClassNames(events, sort)|
  {
    Paths(ExpectedParents(events, sort), Singles(ClassNames(events, sort)))
  }

  /** What the builder hands to validation once a document was accepted to its end. */
  lemma ReadyToValidate(events: seq<Event>, sort: Mode)
    requires WellFormedEvents(events) && ClassMode(sort)
    ensures Read(events).Some? ==>
              var c := Side(Read(events).value, sort);
              && c.Valid() && c.parents == ExpectedParents(events, sort) && ParentsBefore(c.parents)
              && |c.parents| == |c.entries| == |ClassNames(events, sort)|
              && NamesOf(c.entries) == Singles(ClassNames(events, sort))
  {
    hide OnEvent, MembersOf, ClassNames, ExpectedParents, Read, LockStep, AccountOf, OpenBefore, ModesFollow, Numbers;
    if Read(events).Some? {
      BuilderFollowsReader(events);
      ListIsWritten(events, sort);
      SideValid(Read(events).value, sort);
    }
  }

  /** Validation of the list `c` gives the classes of the document their paths as names. */
  ghost predicate NamesTheDocument(events: seq<Event>, sort: Mode, c: Classes)
    requires WellFormedEvents(events)
  {
    && c.Valid() && ParentsBefore(ExpectedParents(events, sort))
    && |ExpectedParents(events, sort)| == |ClassNames(events, sort)|
    && var paths := DocumentPaths(events, sort);
       && Paths(c.parents, NamesOf(c.entries)) == paths
       && (Acceptable(paths) ==>
             NamedByPaths(FullNames(c.parents, NamesOf(c.entries), RootOf(sort)), paths, RootOf(sort)))
  }

  /** Main result: once a document is accepted, validation sees for each class the path
      from its outermost enclosing class in the document down to itself, and if it accepts
      these, the final names are these paths under the root class. */
  lemma NamesOfDocument(events: seq<Event>, sort: Mode)
    requires WellFormedEvents(events) && ClassMode(sort)
    ensures Read(events).Some? ==> NamesTheDocument(events, sort, Side(Read(events).value, sort))
  {
    hide Read, ClassNames, ExpectedParents, Acceptable, NeedsRoot;
    ReadyToValidate(events, sort);
    if Read(events).Some? && Acceptable(DocumentPaths(events, sort)) {
      AcceptedNames(ExpectedParents(events, sort), Singles(ClassNames(events, sort)), RootOf(sort));
    }
  }

  // ------------------------------------------------------------------- two short documents

  lemma ReadMore(events: seq<Event>, e: Event)
    requires WellFormedEvents(events) && ValidEvent(e)
    ensures WellFormedEvents(events + [e])
    ensures Read(events).Some? ==> Read(events + [e]) == OnEvent(Read(events).value, e)
  {
    assert (events + [e])[..|events|] == events;
  }

  const NoClasses: Classes := Classes([], [], [])

  function OneClass(name: string, members: seq<string>): Classes { Classes([0], [None], [ClassEntry([name], members)]) }

  lemma SameWord(w: string)
    ensures CaseEqual(w, w) && Is([w], w)
  {}

  /** A file may start with a section for either sort of classes. */
  lemma SectionRead(word: string, mode: Mode)
    requires (word == "objects" && mode == ObjectsMode) || (word == "interactions" && mode == InteractionsMode)
    ensures WellFormedEvents([Start(["FED"]), Start([word])])
    ensures Read([Start(["FED"]), Start([word])]) == Some(State([FEDMode, mode], NoClasses, NoClasses))
  {
    var e1, e2 := Start(["FED"]), Start([word]);
    assert [] + [e1] == [e1] && [e1] + [e2] == [e1, e2];
    ReadMore([], e1);
    SameWord("FED");
    SameWord(word);
    WordIs(e1.tokens);
    WordIs(e2.tokens);
    ModeForWord([], e1.tokens);
    ModeForWord([FEDMode], e2.tokens);
    assert [] + [FEDMode] == [FEDMode] && [FEDMode] + [mode] == [FEDMode, mode];
    ReadMore([e1], e2);
    hide Read, ModeFor, Is, CaseEqual, WhichWord, Count;
  }

  lemma ReadsClass(c: Classes, name: string)
    requires c == NoClasses
    ensures Push(c).Valid() && WithName(Push(c), name) == OneClass(name, [])
  {
    assert [] + [0] == [0] && [] + [name] == [name];
  }

  lemma ReadsMember(c: Classes, name: string, member: string)
    requires c == OneClass(name, [])
    ensures c.Valid() && WithMember(c, member) == OneClass(name, [member])
  {
    assert [] + [member] == [member];
  }

  lemma ClassStarts(s: State, tokens: seq<string>, sort: Mode)
    requires LockStep(s) && s.objects == s.interactions == NoClasses && ClassMode(sort) && |tokens| >= 2
    requires ModeFor(s.modes, tokens) == Some(sort)
    ensures var c := OneClass(ClassName(sort, tokens[1]), []);
            OnStart(s, tokens) == Some(if sort == ObjectClassMode then State(s.modes + [sort], c, NoClasses)
                                       else State(s.modes + [sort], NoClasses, c))
  {
    ReadsClass(NoClasses, ClassName(sort, tokens[1]));
    hide ModeFor, LockStep, Push, WithName, ObjectClassName, InteractionClassName;
  }

  lemma MemberStarts(s: State, tokens: seq<string>, sort: Mode, name: string)
    requires LockStep(s) && ClassMode(sort) && |tokens| >= 2 && Side(s, sort) == OneClass(name, [])
    requires ModeFor(s.modes, tokens) == Some(MemberMode(sort))
    ensures var c, modes := OneClass(name, [MemberName(sort, tokens[1])]), s.modes + [MemberMode(sort)];
            OnStart(s, tokens) == Some(if sort == ObjectClassMode then State(modes, c, s.interactions)
                                       else State(modes, s.objects, c))
  {
    ReadsMember(Side(s, sort), name, MemberName(sort, tokens[1]));
    hide ModeFor, LockStep, WithMember, AttributeName;
  }

  lemma LastMode(modes: seq<Mode>, mode: Mode)
    ensures CurrentMode(modes + [mode]) == mode
  {}

  const ObjectTokens: seq<string> := ["class", "ObjectRoot"]
  const AttributeTokens: seq<string> := ["Attribute", "PrivilegeToDelete", "reliable", "timestamp"]
  const InteractionTokens: seq<string> := ["class", "InteractionRoot", "best_effort", "receive"]
  const ParameterTokens: seq<string> := ["parameter", "p"]

  lemma ObjectWords()
    ensures Is(ObjectTokens, "class") && ObjectClassName("ObjectRoot") == "HLAobjectRoot"
    ensures Is(AttributeTokens, "attribute")
    ensures AttributeName("PrivilegeToDelete") == "HLAprivilegeToDeleteObject"
  {
    assert Lower('A') == 'a' && Lower('P') == 'p';
  }

  lemma InteractionWords()
    ensures Is(InteractionTokens, "class") && InteractionClassName("InteractionRoot") == "HLAinteractionRoot"
    ensures Is(ParameterTokens, "parameter")
  {}

  lemma ObjectModes()
    ensures ModeFor([FEDMode, ObjectsMode], ObjectTokens) == Some(ObjectClassMode)
    ensures ModeFor([FEDMode, ObjectsMode] + [ObjectClassMode], AttributeTokens) == Some(AttributeMode)
  {
    hide ModeFor, Is, WhichWord, CurrentMode;
    ObjectWords();
    WordIs(ObjectTokens);
    WordIs(AttributeTokens);
    ModeForWord([FEDMode, ObjectsMode], ObjectTokens);
    ModeForWord([FEDMode, ObjectsMode] + [ObjectClassMode], AttributeTokens);
    assert [FEDMode] + [ObjectsMode] == [FEDMode, ObjectsMode];
    LastMode([FEDMode], ObjectsMode);
    LastMode([FEDMode, ObjectsMode], ObjectClassMode);
  }

  lemma InteractionModes()
    ensures ModeFor([FEDMode, InteractionsMode], InteractionTokens) == Some(InteractionClassMode)
    ensures ModeFor([FEDMode, InteractionsMode] + [InteractionClassMode], ParameterTokens) == Some(ParameterMode)
  {
    hide ModeFor, Is, WhichWord, CurrentMode;
    InteractionWords();
    WordIs(InteractionTokens);
    WordIs(ParameterTokens);
    ModeForWord([FEDMode, InteractionsMode], InteractionTokens);
    ModeForWord([FEDMode, InteractionsMode] + [InteractionClassMode], ParameterTokens);
    assert [FEDMode] + [InteractionsMode] == [FEDMode, InteractionsMode];
    LastMode([FEDMode], InteractionsMode);
    LastMode([FEDMode, InteractionsMode], InteractionClassMode);
  }

  /** The start of an ordinary file: an object class is read under its standard name, with
      its attribute, whatever the case of the words. */
  lemma ObjectsRead()
    ensures var events := [Start(["FED"]), Start(["objects"])] + [Start(ObjectTokens)] + [Start(AttributeTokens)];
            && WellFormedEvents(events) && Read(events).Some?
            && Read(events).value.objects
                 == Classes([0], [None], [ClassEntry(["HLAobjectRoot"], ["HLAprivilegeToDeleteObject"])])
            && Read(events).value.interactions == Classes([], [], [])
  {
    hide Read, ModeFor, LockStep, OnStart, ObjectClassName, AttributeName;
    var section := [Start(["FED"]), Start(["objects"])];
    SectionRead("objects", ObjectsMode);
    ObjectModes();
    ObjectWords();
    ReadMore(section, Start(ObjectTokens));
    ReadMore(section + [Start(ObjectTokens)], Start(AttributeTokens));
    ClassStarts(State([FEDMode, ObjectsMode], NoClasses, NoClasses), ObjectTokens, ObjectClassMode);
    MemberStarts(State([FEDMode, ObjectsMode] + [ObjectClassMode], OneClass("HLAobjectRoot", []), NoClasses),
                 AttributeTokens, ObjectClassMode, "HLAobjectRoot");
  }

  lemma InteractionsRead()
    ensures var events := [Start(["FED"]), Start(["interactions"])] + [Start(InteractionTokens)] + [Start(ParameterTokens)];
            && WellFormedEvents(events) && Read(events).Some?
            && Read(events).value.interactions == Classes([0], [None], [ClassEntry(["HLAinteractionRoot"], ["p"])])
            && Read(events).value.objects == Classes([], [], [])
  {
    hide Read, ModeFor, LockStep, OnStart, InteractionClassName;
    var section := [Start(["FED"]), Start(["interactions"])];
    SectionRead("interactions", InteractionsMode);
    InteractionModes();
    InteractionWords();
    ReadMore(section, Start(InteractionTokens));
    ReadMore(section + [Start(InteractionTokens)], Start(ParameterTokens));
    ClassStarts(State([FEDMode, InteractionsMode], NoClasses, NoClasses), InteractionTokens, InteractionClassMode);
    MemberStarts(State([FEDMode, InteractionsMode] + [InteractionClassMode], NoClasses, OneClass("HLAinteractionRoot", [])),
                 ParameterTokens, InteractionClassMode, "HLAinteractionRoot");
  }
}
