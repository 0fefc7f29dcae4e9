/** FEDContentHandler: a pushdown machine over element events that checks the nesting of a
    FED file and drives the module builder in step with it. */
module FedReader {
  import opened Util
  import opened ModuleBuilder

  datatype Mode =
    | UnknownMode
    | FEDMode
    | FederationMode | FEDversionMode | SpacesMode
    | SpaceMode | DimensionMode
    | ObjectsMode | ObjectClassMode | AttributeMode
    | InteractionsMode | InteractionClassMode | ParameterMode

  /** The parentheses reader delivers an element with at least one token, or its end. */
  datatype Event = Start(tokens: seq<string>) | End

  function Lower(c: char): char { if 'A' <= c <= 'Z' then c - 'A' + 'a' else c }

  /** caseCompare: equal up to the case of ASCII letters. */
  predicate CaseEqual(l: string, r: string) {
    |l| == |r| && forall i | 0 <= i < |l| :: Lower(l[i]) == Lower(r[i])
  }

  function CurrentMode(modes: seq<Mode>): Mode { if modes == [] then UnknownMode else modes[|modes| - 1] }

  predicate SupportedVersion(v: string) {
    v == "1.3" || CaseEqual(v, "v1.3") || v == "1_3" || CaseEqual(v, "v1_3")
  }

  /** The mode an element opens; `None` is one of the ErrorReadingFDD rejections. */
  function ModeFor(modes: seq<Mode>, tokens: seq<string>): Option<Mode>
    requires tokens != []
  {
    var t0, n, current := tokens[0], |tokens|, CurrentMode(modes);
    if CaseEqual(t0, "FED") then
      if modes != [] || n > 1 then None else Some(FEDMode)
    else if CaseEqual(t0, "Federation") then
      if current != FEDMode || n != 2 then None else Some(FederationMode)
    else if CaseEqual(t0, "FEDversion") then
      if current != FEDMode || n != 2 || !SupportedVersion(tokens[1]) then None else Some(FEDversionMode)
    else if CaseEqual(t0, "spaces") then
      if current != FEDMode || n > 1 then None else Some(SpacesMode)
    else if CaseEqual(t0, "space") then
      if current != SpacesMode || n != 2 then None else Some(SpaceMode)
    else if CaseEqual(t0, "dimension") then
      if current != SpaceMode || n != 2 then None else Some(DimensionMode)
    else if CaseEqual(t0, "objects") then
      if current != FEDMode || n > 1 then None else Some(ObjectsMode)
    else if CaseEqual(t0, "interactions") then
      if current != FEDMode || n > 1 then None else Some(InteractionsMode)
    else if CaseEqual(t0, "class") then
      if current == ObjectsMode || current == ObjectClassMode then
        if n != 2 then None else Some(ObjectClassMode)
      else if current == InteractionsMode || current == InteractionClassMode then
        if n < 4 || n > 5 then None else Some(InteractionClassMode)
      else None
    else if CaseEqual(t0, "attribute") then
      if current != ObjectClassMode || n < 4 || n > 5 then None else Some(AttributeMode)
    else if CaseEqual(t0, "parameter") then
      if current != InteractionClassMode || n != 2 then None else Some(ParameterMode)
    else Some(UnknownMode)
  }

  lemma ModeNeedsTokens(modes: seq<Mode>, tokens: seq<string>)
    requires tokens != [] && ModeFor(modes, tokens).Some?
    ensures var mode := ModeFor(modes, tokens).value;
            && (mode in {ObjectClassMode, InteractionClassMode, AttributeMode, ParameterMode} ==> |tokens| >= 2)
            && (mode == AttributeMode ==> CurrentMode(modes) == ObjectClassMode)
            && (mode == ParameterMode ==> CurrentMode(modes) == InteractionClassMode)
  {}

  function ObjectClassName(name: string): string { if CaseEqual(name, "ObjectRoot") then OBJECT_ROOT else name }

  function InteractionClassName(name: string): string {
    if CaseEqual(name, "InteractionRoot") then INTERACTION_ROOT else name
  }

  function AttributeName(name: string): string { if CaseEqual(name, "privilegeToDelete") then PRIVILEGE else name }

  // --------------------------------------------- the format, from the tokens around an element

  /** caseCompare relates letters that differ in case only. */
  lemma CaseEqualExactly(l: string, r: string)
    ensures CaseEqual(l, r) <==>
              |l| == |r| && forall i | 0 <= i < |l| :: l[i] == r[i] || CasesOfOne(l[i], r[i]) || CasesOfOne(r[i], l[i])
  {}

  predicate CasesOfOne(upper: char, lower: char) {
    'A' <= upper <= 'Z' && lower as int == upper as int + 32
  }

  predicate Is(tokens: seq<string>, word: string) { tokens != [] && CaseEqual(tokens[0], word) }

  /** Right below the outermost element. `path` has the tokens of all enclosing elements,
      outermost first. */
  predicate UnderFED(path: seq<seq<string>>) { |path| == 1 && Is(path[0], "FED") }

  /** In the `objects` or `interactions` section, with nothing but classes around. */
  predicate InSection(path: seq<seq<string>>, section: string) {
    && |path| >= 2 && Is(path[0], "FED") && Is(path[1], section)
    && forall i | 2 <= i < |path| :: Is(path[i], "class")
  }

  predicate InClass(path: seq<seq<string>>, section: string) { InSection(path, section) && |path| >= 3 }

  /** Where an element may stand and how many tokens it has; other elements may stand
      anywhere. */
  predicate Allowed(path: seq<seq<string>>, tokens: seq<string>) {
    && (Is(tokens, "FED") ==> path == [] && |tokens| == 1)
    && (Is(tokens, "Federation") ==> UnderFED(path) && |tokens| == 2)
    && (Is(tokens, "FEDversion") ==>
          UnderFED(path) && |tokens| == 2 && tokens[1] in {"1.3", "v1.3", "V1.3", "1_3", "v1_3", "V1_3"})
    && (Is(tokens, "spaces") ==> UnderFED(path) && |tokens| == 1)
    && (Is(tokens, "space") ==> |path| == 2 && InSection(path, "spaces") && |tokens| == 2)
    && (Is(tokens, "dimension") ==>
          |path| == 3 && InSection(path[..2], "spaces") && Is(path[2], "space") && |tokens| == 2)
    && (Is(tokens, "objects") ==> UnderFED(path) && |tokens| == 1)
    && (Is(tokens, "interactions") ==> UnderFED(path) && |tokens| == 1)
    && (Is(tokens, "class") ==>
          || (InSection(path, "objects") && |tokens| == 2)
          || (InSection(path, "interactions") && 4 <= |tokens| <= 5))
    && (Is(tokens, "attribute") ==> InClass(path, "objects") && 4 <= |tokens| <= 5)
    && (Is(tokens, "parameter") ==> InClass(path, "interactions") && |tokens| == 2)
  }

  /** What makes an element an object class, an interaction class, an attribute or a
      parameter. */
  predicate Opens(path: seq<seq<string>>, tokens: seq<string>, sort: Mode) {
    match sort
    case ObjectClassMode => Is(tokens, "class") && InSection(path, "objects")
    case InteractionClassMode => Is(tokens, "class") && InSection(path, "interactions")
    case AttributeMode => Is(tokens, "attribute") && InClass(path, "objects")
    case ParameterMode => Is(tokens, "parameter") && InClass(path, "interactions")
    case _ => false
  }

  const Words: seq<string> :=
    ["FED", "Federation", "FEDversion", "spaces", "space", "dimension", "objects", "interactions", "class",
     "attribute", "parameter"]

  /** No element is two of the format's words. */
  lemma OneWord(tokens: seq<string>)
    ensures forall i, j | 0 <= i < j < |Words| :: !(Is(tokens, Words[i]) && Is(tokens, Words[j]))
  {
    forall i, j | 0 <= i < j < |Words| && Is(tokens, Words[i]) ensures !Is(tokens, Words[j]) {
      if |Words[i]| == |Words[j]| { WordsDiffer(i, j); }
    }
  }

  lemma WordsDiffer(i: nat, j: nat)
    requires i < j < |Words| && |Words[i]| == |Words[j]|
    ensures exists k | 0 <= k < |Words[i]| :: Lower(Words[i][k]) != Lower(Words[j][k])
  {
    assert (i == 1 && j == 2) || (i == 4 && j == 8) || (i == 5 && j == 9) || (i == 5 && j == 10) || (i == 9 && j == 10);
    var k := if i == 1 then 3 else 0;
    assert Lower(Words[i][k]) != Lower(Words[j][k]);
  }

  /** Which of the words it is, if any. */
  function WhichWord(tokens: seq<string>): nat {
    if Is(tokens, "FED") then 0
    else if Is(tokens, "Federation") then 1
    else if Is(tokens, "FEDversion") then 2
    else if Is(tokens, "spaces") then 3
    else if Is(tokens, "space") then 4
    else if Is(tokens, "dimension") then 5
    else if Is(tokens, "objects") then 6
    else if Is(tokens, "interactions") then 7
    else if Is(tokens, "class") then 8
    else if Is(tokens, "attribute") then 9
    else if Is(tokens, "parameter") then 10
    else 11
  }

  lemma WordIs(tokens: seq<string>)
    ensures Is(tokens, "FED") <==> WhichWord(tokens) == 0
    ensures Is(tokens, "Federation") <==> WhichWord(tokens) == 1
    ensures Is(tokens, "FEDversion") <==> WhichWord(tokens) == 2
    ensures Is(tokens, "spaces") <==> WhichWord(tokens) == 3
    ensures Is(tokens, "space") <==> WhichWord(tokens) == 4
    ensures Is(tokens, "dimension") <==> WhichWord(tokens) == 5
    ensures Is(tokens, "objects") <==> WhichWord(tokens) == 6
    ensures Is(tokens, "interactions") <==> WhichWord(tokens) == 7
    ensures Is(tokens, "class") <==> WhichWord(tokens) == 8
    ensures Is(tokens, "attribute") <==> WhichWord(tokens) == 9
    ensures Is(tokens, "parameter") <==> WhichWord(tokens) == 10
  {
    OneWord(tokens);
    assert Words[0] == "FED" && Words[1] == "Federation" && Words[2] == "FEDversion" && Words[3] == "spaces";
    assert Words[4] == "space" && Words[5] == "dimension" && Words[6] == "objects" && Words[7] == "interactions";
    assert Words[8] == "class" && Words[9] == "attribute" && Words[10] == "parameter";
    hide Is;
  }

  /** The modes on the stack are those that the open elements opened. */
  ghost predicate ModesFollow(modes: seq<Mode>, path: seq<seq<string>>) {
    && |modes| == |path|
    && forall i | 0 <= i < |path| :: path[i] != [] && ModeFor(modes[..i], path[i]) == Some(modes[i])
  }

  /** What the innermost mode says about the tokens of the open elements. */
  ghost predicate ModeByTokens(mode: Mode, path: seq<seq<string>>) {
    SpacesByTokens(mode, path) && ClassesByTokens(mode, path)
  }

  ghost predicate SpacesByTokens(mode: Mode, path: seq<seq<string>>) {
    && (mode == FEDMode <==> UnderFED(path))
    && (mode == SpacesMode <==> |path| == 2 && InSection(path, "spaces"))
    && (mode == SpaceMode <==> |path| == 3 && InSection(path[..2], "spaces") && Is(path[2], "space"))
  }

  ghost predicate ClassesByTokens(mode: Mode, path: seq<seq<string>>) {
    && (mode == ObjectsMode <==> |path| == 2 && InSection(path, "objects"))
    && (mode == InteractionsMode <==> |path| == 2 && InSection(path, "interactions"))
    && (mode == ObjectClassMode <==> InClass(path, "objects"))
    && (mode == InteractionClassMode <==> InClass(path, "interactions"))
  }

  lemma FollowLess(modes: seq<Mode>, path: seq<seq<string>>)
    requires ModesFollow(modes, path) && path != []
    ensures var n := |path| - 1;
            && |modes| == |path| && ModesFollow(modes[..n], path[..n]) && path[n] != []
            && ModeFor(modes[..n], path[n]) == Some(modes[n]) && CurrentMode(modes) == modes[n]
  {
    hide ModeFor;
    var n := |path| - 1;
    forall i | 0 <= i < n ensures ModeFor(modes[..n][..i], path[..n][i]) == Some(modes[..n][i]) {
      assert modes[..n][..i] == modes[..i];
    }
  }

  lemma FollowMore(modes: seq<Mode>, path: seq<seq<string>>, mode: Mode, tokens: seq<string>)
    requires ModesFollow(modes, path) && tokens != [] && ModeFor(modes, tokens) == Some(mode)
    ensures ModesFollow(modes + [mode], path + [tokens])
  {
    hide ModeFor;
    forall i | 0 <= i <= |path|
      ensures ModeFor((modes + [mode])[..i], (path + [tokens])[i]) == Some((modes + [mode])[i])
    {
      assert (modes + [mode])[..i] == modes[..i];
      if i == |path| { assert modes[..i] == modes; }
    }
  }

  lemma {:induction false} CurrentByTokens(modes: seq<Mode>, path: seq<seq<string>>)
    requires ModesFollow(modes, path)
    ensures ModeByTokens(CurrentMode(modes), path)
    decreases |path|
  {
    hide ModeFor, Is, InSection, ModesFollow, ModeByTokens;
    if path == [] {
      NothingOpen(modes);
    } else {
      FollowLess(modes, path);
      var n := |path| - 1;
      CurrentByTokens(modes[..n], path[..n]);
      NextMode(modes[..n], path[..n], path[n], modes[n]);
      assert path[..n] + [path[n]] == path;
    }
  }

  lemma NothingOpen(modes: seq<Mode>)
    requires ModesFollow(modes, [])
    ensures ModeByTokens(CurrentMode(modes), [])
  {}

  lemma SectionMore(path: seq<seq<string>>, tokens: seq<string>, section: string)
    ensures InSection(path + [tokens], section) <==>
              if |path| >= 2 then InSection(path, section) && Is(tokens, "class")
              else UnderFED(path) && Is(tokens, section)
    ensures |path| >= 2 ==> (path + [tokens])[..2] == path[..2]
    ensures |path| == 2 ==> path[..2] == path
    ensures UnderFED(path + [tokens]) <==> path == [] && Is(tokens, "FED")
  {
    hide Is;
    var all := path + [tokens];
    if |path| >= 2 && InSection(all, section) {
      assert all[|path|] == tokens;
      forall i | 2 <= i < |path| ensures Is(path[i], "class") { assert all[i] == path[i]; }
    }
  }

  lemma NextMode(modes: seq<Mode>, path: seq<seq<string>>, tokens: seq<string>, mode: Mode)
    requires ModeByTokens(CurrentMode(modes), path) && |modes| == |path|
    requires tokens != [] && ModeFor(modes, tokens) == Some(mode)
    ensures ModeByTokens(mode, path + [tokens])
  {
    NextSpaces(modes, path, tokens, mode);
    NextClasses(modes, path, tokens, mode);
    hide SpacesByTokens, ClassesByTokens, ModeFor, CurrentMode;
  }

  lemma NextSpaces(modes: seq<Mode>, path: seq<seq<string>>, tokens: seq<string>, mode: Mode)
    requires SpacesByTokens(CurrentMode(modes), path) && |modes| == |path|
    requires tokens != [] && ModeFor(modes, tokens) == Some(mode)
    ensures SpacesByTokens(mode, path + [tokens])
  {
    WordIs(tokens);
    SectionMore(path, tokens, "spaces");
    var all := path + [tokens];
    assert |all| == |path| + 1 && (|path| == 2 ==> all[2] == tokens) && (|path| == 0 ==> all[0] == tokens);
    ModeForWord(modes, tokens);
    if |path| >= 3 && WhichWord(tokens) == 8 { SectionIsLong(path); }
    hide Is, WhichWord, InSection, UnderFED, ModeFor, CurrentMode;
  }

  lemma NextClasses(modes: seq<Mode>, path: seq<seq<string>>, tokens: seq<string>, mode: Mode)
    requires ModeByTokens(CurrentMode(modes), path) && |modes| == |path|
    requires tokens != [] && ModeFor(modes, tokens) == Some(mode)
    ensures ClassesByTokens(mode, path + [tokens])
  {
    WordIs(tokens);
    SectionMore(path, tokens, "objects");
    SectionMore(path, tokens, "interactions");
    assert |path + [tokens]| == |path| + 1;
    ModeForWord(modes, tokens);
    hide Is, WhichWord, InSection, UnderFED, ModeFor, CurrentMode;
  }

  lemma SectionIsLong(path: seq<seq<string>>)
    ensures InSection(path, "spaces") && |path| >= 3 ==> Is(path[2], "class")
  {}

  /** The reader's tests, by the word that the element is. */
  lemma ModeForWord(modes: seq<Mode>, tokens: seq<string>)
    requires tokens != []
    ensures var w, n, current, r := WhichWord(tokens), |tokens|, CurrentMode(modes), ModeFor(modes, tokens);
            && (w == 0 ==> r == if modes == [] && n == 1 then Some(FEDMode) else None)
            && (w == 1 ==> r == if current == FEDMode && n == 2 then Some(FederationMode) else None)
            && (w == 2 ==>
                  r == if current == FEDMode && n == 2 && SupportedVersion(tokens[1]) then Some(FEDversionMode) else None)
            && (w == 3 ==> r == if current == FEDMode && n == 1 then Some(SpacesMode) else None)
            && (w == 4 ==> r == if current == SpacesMode && n == 2 then Some(SpaceMode) else None)
            && (w == 5 ==> r == if current == SpaceMode && n == 2 then Some(DimensionMode) else None)
            && (w == 6 ==> r == if current == FEDMode && n == 1 then Some(ObjectsMode) else None)
            && (w == 7 ==> r == if current == FEDMode && n == 1 then Some(InteractionsMode) else None)
            && (w == 8 ==>
                  r == if (current == ObjectsMode || current == ObjectClassMode) && n == 2 then Some(ObjectClassMode)
                       else if (current == InteractionsMode || current == InteractionClassMode) && 4 <= n <= 5
                       then Some(InteractionClassMode) else None)
            && (w == 9 ==> r == if current == ObjectClassMode && 4 <= n <= 5 then Some(AttributeMode) else None)
            && (w == 10 ==> r == if current == InteractionClassMode && n == 2 then Some(ParameterMode) else None)
            && (w == 11 ==> r == Some(UnknownMode))
  {
    hide CaseEqual, SupportedVersion, CurrentMode;
  }

  lemma VersionWord(v: string, lower: string, upper: string)
    requires |lower| == |upper| == 4 && lower[0] == 'v' && upper[0] == 'V' && lower[1..] == upper[1..]
    requires forall i | 1 <= i < 4 :: !('A' <= lower[i] <= 'Z') && !('a' <= lower[i] <= 'z')
    ensures CaseEqual(v, lower) <==> v == lower || v == upper
  {
    forall i | 1 <= i < 4 ensures upper[i] == lower[i] { assert upper[1..][i - 1] == lower[1..][i - 1]; }
    if CaseEqual(v, lower) {
      assert v[0] == 'v' || v[0] == 'V';
      assert forall i | 1 <= i < 4 :: v[i] == lower[i];
      assert if v[0] == 'v' then v == lower else v == upper;
    }
  }

  lemma VersionIs(v: string)
    ensures SupportedVersion(v) <==> v in {"1.3", "v1.3", "V1.3", "1_3", "v1_3", "V1_3"}
  {
    VersionWord(v, "v1.3", "V1.3");
    VersionWord(v, "v1_3", "V1_3");
  }

  /** Main step: whether an element is accepted, and what it is, said by tokens alone. */
  lemma ModeForByTokens(modes: seq<Mode>, path: seq<seq<string>>, tokens: seq<string>)
    requires ModesFollow(modes, path) && tokens != []
    ensures ModeFor(modes, tokens).Some? <==> Allowed(path, tokens)
    ensures ModeFor(modes, tokens).Some? ==>
              forall sort :: sort in {ObjectClassMode, InteractionClassMode, AttributeMode, ParameterMode} ==>
                (ModeFor(modes, tokens).value == sort <==> Opens(path, tokens, sort))
  {
    CurrentByTokens(modes, path);
    WordIs(tokens);
    ModeForWord(modes, tokens);
    if |tokens| >= 2 { VersionIs(tokens[1]); }
    hide ModesFollow, Is, WhichWord, InSection, ModeFor, SupportedVersion, CurrentMode;
  }

  // ------------------------------------------------------------------- reader and builder

  datatype State = State(modes: seq<Mode>, objects: Classes, interactions: Classes)

  function Count(modes: seq<Mode>, mode: Mode): nat {
    if modes == [] then 0
    else Count(modes[..|modes| - 1], mode) + if modes[|modes| - 1] == mode then 1 else 0
  }

  ghost predicate OneNameAll(c: Classes) { forall i | 0 <= i < |c.entries| :: |c.entries[i].name| == 1 }

  /** The class stacks are as deep as there are class elements open. */
  ghost predicate LockStep(s: State) {
    && s.objects.Valid() && s.interactions.Valid()
    && OneNameAll(s.objects) && OneNameAll(s.interactions)
    && |s.objects.stack| == Count(s.modes, ObjectClassMode)
    && |s.interactions.stack| == Count(s.modes, InteractionClassMode)
  }

  lemma CountLast(modes: seq<Mode>, mode: Mode)
    ensures CurrentMode(modes) == mode && mode != UnknownMode ==> Count(modes, mode) > 0
    ensures forall m :: Count(modes + [m], mode) == Count(modes, mode) + if m == mode then 1 else 0
  {
    assert forall m :: (modes + [m])[..|modes|] == modes;
  }

  lemma PushNamed(c: Classes, name: string)
    requires c.Valid() && OneNameAll(c)
    ensures Push(c).Valid() && WithName(Push(c), name).Valid() && OneNameAll(WithName(Push(c), name))
  {
    var d := WithName(Push(c), name);
    assert forall i | 0 <= i < |c.entries| :: d.entries[i] == c.entries[i];
  }

  lemma MemberKept(c: Classes, member: string)
    requires c.Valid() && OneNameAll(c) && c.stack != []
    ensures WithMember(c, member).Valid() && OneNameAll(WithMember(c, member))
  {}

  lemma PopKept(c: Classes)
    requires c.Valid() && OneNameAll(c) && c.stack != []
    ensures Pop(c).Valid() && OneNameAll(Pop(c))
  {}

  /** What a start event does; asking the builder for a current class cannot fail here. */
  ghost function OnStart(s: State, tokens: seq<string>): (r: Option<State>)
    requires tokens != [] && LockStep(s)
    ensures r.Some? ==> LockStep(r.value)
  {
    match ModeFor(s.modes, tokens)
    case None => None
    case Some(mode) =>
      ModeNeedsTokens(s.modes, tokens);
      CountLast(s.modes, ObjectClassMode);
      CountLast(s.modes, InteractionClassMode);
      var t := s.(modes := s.modes + [mode]);
      match mode
      case ObjectClassMode =>
        PushNamed(s.objects, ObjectClassName(tokens[1]));
        Some(t.(objects := WithName(Push(s.objects), ObjectClassName(tokens[1]))))
      case InteractionClassMode =>
        PushNamed(s.interactions, InteractionClassName(tokens[1]));
        Some(t.(interactions := WithName(Push(s.interactions), InteractionClassName(tokens[1]))))
      case AttributeMode =>
        MemberKept(s.objects, AttributeName(tokens[1]));
        Some(t.(objects := WithMember(s.objects, AttributeName(tokens[1]))))
      case ParameterMode =>
        MemberKept(s.interactions, tokens[1]);
        Some(t.(interactions := WithMember(s.interactions, tokens[1])))
      case _ => Some(t)
  }

  /** What an end event does; the builder rejects an interaction class with an empty name. */
  ghost function OnEnd(s: State): (r: Option<State>)
    requires s.modes != [] && LockStep(s)
    ensures r.Some? ==> LockStep(r.value)
  {
    var t := s.(modes := s.modes[..|s.modes| - 1]);
    match CurrentMode(s.modes)
    case ObjectClassMode =>
      PopKept(s.objects);
      Some(t.(objects := Pop(s.objects)))
    case InteractionClassMode =>
      PopKept(s.interactions);
      if Current(s.interactions).name[0] == "" then None
      else Some(t.(interactions := Pop(s.interactions)))
    case _ => Some(t)
  }

  class Handler {
    var modeStack: seq<Mode>
    const objects: ClassList
    const interactions: ClassList

    ghost function View(): State
      reads this, objects, interactions
    {
      State(modeStack, objects.View(), interactions.View())
    }

    ghost predicate Valid()
      reads this, objects, interactions
    {
      objects != interactions && LockStep(View())
    }

    constructor ()
      ensures Valid() && fresh(objects) && fresh(interactions)
      ensures View() == State([], Classes([], [], []), Classes([], [], []))
    {
      modeStack := [];
      objects := new ClassList();
      interactions := new ClassList();
    }

    /** `false` is an ErrorReadingFDD, after which reading stops. */
    method StartElement(tokens: seq<string>) returns (ok: bool)
      requires Valid() && tokens != []
      modifies this, objects, interactions
      ensures ok <==> OnStart(old(View()), tokens).Some?
      ensures ok ==> Valid() && View() == OnStart(old(View()), tokens).value
    {
      var mode := ModeFor(modeStack, tokens);
      if mode.None? { return false; }
      ModeNeedsTokens(modeStack, tokens);
      CountLast(modeStack, ObjectClassMode);
      CountLast(modeStack, InteractionClassMode);
      hide ModeFor, OneNameAll, Count, CurrentMode;
      modeStack := modeStack + [mode.value];
      ok := true;
      match mode.value {
        case ObjectClassMode =>
          objects.PushClass();
          ok := objects.AddName(ObjectClassName(tokens[1]));
        case InteractionClassMode =>
          interactions.PushClass();
          ok := interactions.AddName(InteractionClassName(tokens[1]));
        case AttributeMode =>
          ok := objects.AddMember(AttributeName(tokens[1]));
        case ParameterMode =>
          ok := interactions.AddMember(tokens[1]);
        case _ =>
      }
    }

    /** Balanced events never end an element that was not started. */
    method EndElement() returns (ok: bool)
      requires Valid() && modeStack != []
      modifies this, objects, interactions
      ensures ok <==> OnEnd(old(View())).Some?
      ensures ok ==> Valid() && View() == OnEnd(old(View())).value
    {
      var mode := CurrentMode(modeStack);
      if mode == ObjectClassMode {
        objects.PopClass();
      } else if mode == InteractionClassMode {
        var name := interactions.entries[interactions.stack[|interactions.stack| - 1]].name;
        if |name| != 1 { return false; }
        if name[0] == "" { return false; }
        interactions.PopClass();
      }
      modeStack := modeStack[..|modeStack| - 1];
      ok := true;
    }
  }

  // ------------------------------------------------------- enclosing classes, from events

  /** An open element, with the number of its class among the classes of its sort. */
  datatype Element = Element(tokens: seq<string>, number: nat)

  /** The open elements after some events and how many classes there were so far; told from
      the events alone, without modes and without the builder. */
  datatype Account = Account(open: seq<Element>, objectClasses: nat, interactionClasses: nat)

  function PathOf(open: seq<Element>): seq<seq<string>> {
    seq(|open|, i requires 0 <= i < |open| => open[i].tokens)
  }

  function NumberFor(a: Account, tokens: seq<string>): nat {
    if Opens(PathOf(a.open), tokens, ObjectClassMode) then a.objectClasses
    else if Opens(PathOf(a.open), tokens, InteractionClassMode) then a.interactionClasses
    else 0
  }

  function Accounted(a: Account, e: Event): Account {
    match e
    case End => if a.open == [] then a else a.(open := a.open[..|a.open| - 1])
    case Start(tokens) =>
      Account(a.open + [Element(tokens, NumberFor(a, tokens))],
              a.objectClasses + (if Opens(PathOf(a.open), tokens, ObjectClassMode) then 1 else 0),
              a.interactionClasses + (if Opens(PathOf(a.open), tokens, InteractionClassMode) then 1 else 0))
  }

  /** The innermost open element is a class of that sort. */
  predicate LastIs(open: seq<Element>, sort: Mode) {
    open != [] && Opens(PathOf(open[..|open| - 1]), open[|open| - 1].tokens, sort)
  }

  /** The numbers of the open classes of one sort, outermost first. */
  function Numbers(open: seq<Element>, sort: Mode): seq<nat> {
    if open == [] then []
    else Numbers(open[..|open| - 1], sort) + if LastIs(open, sort) then [open[|open| - 1].number] else []
  }

  /** The nearest enclosing class of that sort. */
  function Enclosing(open: seq<Element>, sort: Mode): Option<nat> {
    if open == [] then None
    else if LastIs(open, sort) then Some(open[|open| - 1].number)
    else Enclosing(open[..|open| - 1], sort)
  }

  lemma {:induction false} EnclosingIsLastNumber(open: seq<Element>, sort: Mode)
    ensures var ns := Numbers(open, sort);
            Enclosing(open, sort) == if ns == [] then None else Some(ns[|ns| - 1])
  {
    hide LastIs;
    if open != [] { EnclosingIsLastNumber(open[..|open| - 1], sort); }
  }

  /** The reader holds the modes of the open elements, and the builder, as its stacks, the
      open classes of the account. */
  ghost predicate Follows(s: State, a: Account) {
    && ModesFollow(s.modes, PathOf(a.open))
    && s.objects.stack == Numbers(a.open, ObjectClassMode)
    && s.interactions.stack == Numbers(a.open, InteractionClassMode)
    && |s.objects.entries| == a.objectClasses && |s.interactions.entries| == a.interactionClasses
  }

  predicate ValidEvent(e: Event) { e.Start? ==> e.tokens != [] }

  ghost function OnEvent(s: State, e: Event): (r: Option<State>)
    requires LockStep(s) && ValidEvent(e)
    ensures r.Some? ==> LockStep(r.value)
  {
    match e
    case Start(tokens) => OnStart(s, tokens)
    case End => if s.modes == [] then None else OnEnd(s)
  }

  lemma NumbersMore(open: seq<Element>, e: Element, sort: Mode)
    ensures Numbers(open + [e], sort)
         == Numbers(open, sort) + if Opens(PathOf(open), e.tokens, sort) then [e.number] else []
    ensures PathOf(open + [e]) == PathOf(open) + [e.tokens]
  {
    hide Opens;
    assert (open + [e])[..|open|] == open;
  }

  lemma NumbersLess(open: seq<Element>, sort: Mode)
    requires open != []
    ensures var less := open[..|open| - 1];
            && PathOf(less) == PathOf(open)[..|open| - 1]
            && (LastIs(open, sort) ==>
                  Numbers(open, sort) != [] && Numbers(less, sort) == Numbers(open, sort)[..|Numbers(open, sort)| - 1])
            && (!LastIs(open, sort) ==> Numbers(less, sort) == Numbers(open, sort))
  {
    hide LastIs;
  }

  lemma StartFollows(s: State, a: Account, tokens: seq<string>)
    requires LockStep(s) && Follows(s, a) && tokens != [] && OnStart(s, tokens).Some?
    ensures Follows(OnStart(s, tokens).value, Accounted(a, Start(tokens)))
  {
    hide LockStep, OnStart, Numbers, PathOf, ModeFor, Opens, ModesFollow;
    StartPushes(s, tokens);
    var e := Element(tokens, NumberFor(a, tokens));
    ModeForByTokens(s.modes, PathOf(a.open), tokens);
    FollowMore(s.modes, PathOf(a.open), ModeFor(s.modes, tokens).value, tokens);
    NumbersMore(a.open, e, ObjectClassMode);
    NumbersMore(a.open, e, InteractionClassMode);
  }

  lemma StartPushes(s: State, tokens: seq<string>)
    requires LockStep(s) && tokens != [] && OnStart(s, tokens).Some?
    ensures ModeFor(s.modes, tokens).Some?
    ensures var t, mode := OnStart(s, tokens).value, ModeFor(s.modes, tokens).value;
            && t.modes == s.modes + [mode]
            && t.objects.stack == s.objects.stack + (if mode == ObjectClassMode then [|s.objects.entries|] else [])
            && |t.objects.entries| == |s.objects.entries| + (if mode == ObjectClassMode then 1 else 0)
            && t.interactions.stack
                 == s.interactions.stack + (if mode == InteractionClassMode then [|s.interactions.entries|] else [])
            && |t.interactions.entries| == |s.interactions.entries| + (if mode == InteractionClassMode then 1 else 0)
  {
    hide ModeFor, OneNameAll, Count;
    ModeNeedsTokens(s.modes, tokens);
    CountLast(s.modes, ObjectClassMode);
    CountLast(s.modes, InteractionClassMode);
  }

  /** The mode of the innermost element says which class it is, if it is one. */
  lemma InnermostMode(s: State, a: Account)
    requires Follows(s, a) && s.modes != []
    ensures a.open != [] && |a.open| == |s.modes|
    ensures s.modes[|s.modes| - 1] == ObjectClassMode <==> LastIs(a.open, ObjectClassMode)
    ensures s.modes[|s.modes| - 1] == InteractionClassMode <==> LastIs(a.open, InteractionClassMode)
  {
    hide ModeFor, Opens, Numbers;
    var n, path := |s.modes| - 1, PathOf(a.open);
    FollowLess(s.modes, path);
    ModeForByTokens(s.modes[..n], path[..n], path[n]);
    assert PathOf(a.open[..n]) == path[..n];
  }

  lemma EndFollows(s: State, a: Account)
    requires LockStep(s) && Follows(s, a) && s.modes != [] && OnEnd(s).Some?
    ensures Follows(OnEnd(s).value, Accounted(a, End))
  {
    hide LockStep, OnEnd, Numbers, PathOf, ModesFollow, ModeFor, LastIs;
    EndPops(s);
    InnermostMode(s, a);
    PathLength(a.open);
    FollowLess(s.modes, PathOf(a.open));
    NumbersLess(a.open, ObjectClassMode);
    NumbersLess(a.open, InteractionClassMode);
  }

  lemma PathLength(open: seq<Element>)
    ensures |PathOf(open)| == |open|
  {}

  lemma EndPops(s: State)
    requires LockStep(s) && s.modes != [] && OnEnd(s).Some?
    ensures var t, mode := OnEnd(s).value, s.modes[|s.modes| - 1];
            && t.modes == s.modes[..|s.modes| - 1]
            && |t.objects.entries| == |s.objects.entries| && |t.interactions.entries| == |s.interactions.entries|
            && (mode == ObjectClassMode ==> s.objects.stack != [])
            && (mode == InteractionClassMode ==> s.interactions.stack != [])
            && t.objects.stack
                 == (if mode == ObjectClassMode then s.objects.stack[..|s.objects.stack| - 1] else s.objects.stack)
            && t.interactions.stack
                 == (if mode == InteractionClassMode then s.interactions.stack[..|s.interactions.stack| - 1]
                     else s.interactions.stack)
  {
    CountLast(s.modes, ObjectClassMode);
    CountLast(s.modes, InteractionClassMode);
  }

  predicate OpensNow(open: seq<Element>, e: Event, sort: Mode) {
    e.Start? && e.tokens != [] && Opens(PathOf(open), e.tokens, sort)
  }

  /** The mode that an accepted element opens, and what it is by its tokens. */
  lemma ModeIsOpened(s: State, a: Account, tokens: seq<string>, sort: Mode)
    requires Follows(s, a) && tokens != [] && ModeFor(s.modes, tokens).Some?
    requires sort in {ObjectClassMode, InteractionClassMode, AttributeMode, ParameterMode}
    ensures ModeFor(s.modes, tokens).value == sort <==> OpensNow(a.open, Start(tokens), sort)
  {
    hide ModeFor, Opens, ModesFollow, PathOf, Numbers, Allowed;
    ModeForByTokens(s.modes, PathOf(a.open), tokens);
  }

  /** A new class is recorded under the builder's current class; recorded parents stay. */
  lemma ParentsAfter(s: State, a: Account, e: Event)
    requires LockStep(s) && Follows(s, a) && ValidEvent(e) && OnEvent(s, e).Some?
    ensures OnEvent(s, e).value.objects.parents
         == s.objects.parents + if OpensNow(a.open, e, ObjectClassMode) then [s.objects.Top()] else []
    ensures OnEvent(s, e).value.interactions.parents
         == s.interactions.parents + if OpensNow(a.open, e, InteractionClassMode) then [s.interactions.Top()] else []
  {
    hide ModeFor, LockStep, Opens, ModesFollow, PathOf, Numbers;
    if e.Start? { ModeForByTokens(s.modes, PathOf(a.open), e.tokens); }
  }

  lemma TopIsEnclosing(s: State, a: Account)
    requires Follows(s, a)
    ensures s.objects.Top() == Enclosing(a.open, ObjectClassMode)
    ensures s.interactions.Top() == Enclosing(a.open, InteractionClassMode)
  {
    EnclosingIsLastNumber(a.open, ObjectClassMode);
    EnclosingIsLastNumber(a.open, InteractionClassMode);
  }

  // ---------------------------------------------------------------------------- documents

  const Begin: State := State([], Classes([], [], []), Classes([], [], []))

  predicate WellFormedEvents(events: seq<Event>) { forall i | 0 <= i < |events| :: ValidEvent(events[i]) }

  ghost function Read(events: seq<Event>): (r: Option<State>)
    requires WellFormedEvents(events)
    ensures r.Some? ==> LockStep(r.value)
    decreases |events|
  {
    if events == [] then Some(Begin)
    else match Read(events[..|events| - 1])
      case None => None
      case Some(s) => OnEvent(s, events[|events| - 1])
  }

  function AccountOf(events: seq<Event>): Account
    decreases |events|
  {
    if events == [] then Account([], 0, 0)
    else Accounted(AccountOf(events[..|events| - 1]), events[|events| - 1])
  }

  /** The parents that the classes of one sort should have, in the order they appear: for
      each class element its nearest enclosing one at the time. */
  function ExpectedParents(events: seq<Event>, sort: Mode): seq<Option<nat>>
    decreases |events|
  {
    if events == [] then []
    else
      var n := |events| - 1;
      var open := AccountOf(events[..n]).open;
      ExpectedParents(events[..n], sort) + if OpensNow(open, events[n], sort) then [Enclosing(open, sort)] else []
  }

  /** Main result: for every event sequence accepted so far, the builder's stacks are the
      open class elements, each class has one simple name, and each class's recorded
      parent is its nearest enclosing class element. */
  lemma {:induction false} BuilderFollowsReader(events: seq<Event>)
    requires WellFormedEvents(events)
    ensures Read(events).Some? ==>
              && Follows(Read(events).value, AccountOf(events))
              && Read(events).value.objects.parents == ExpectedParents(events, ObjectClassMode)
              && Read(events).value.interactions.parents == ExpectedParents(events, InteractionClassMode)
    decreases |events|
  {
    hide ModeFor, LockStep, OnStart, OnEnd, Accounted, OpensNow, Follows, Enclosing;
    if events == [] {
      BeginFollows();
    } else if Read(events).Some? {
      var n := |events| - 1;
      BuilderFollowsReader(events[..n]);
      var s, a, e := Read(events[..n]).value, AccountOf(events[..n]), events[n];
      ParentsAfter(s, a, e);
      TopIsEnclosing(s, a);
      match e
      case Start(tokens) => StartFollows(s, a, tokens);
      case End => EndFollows(s, a);
    }
  }

  lemma BeginFollows()
    ensures Follows(Begin, Account([], 0, 0))
  {}

  /** At the end of a balanced document both class stacks are empty, and every class has
      what name completion asserts: one simple name and a parent listed before it. */
  lemma DocumentEndsClean(events: seq<Event>)
    requires WellFormedEvents(events)
    ensures Read(events).Some? && Read(events).value.modes == [] ==> Finished(Read(events).value)
  {
    if Read(events).Some? && Read(events).value.modes == [] { LockStepAtEnd(Read(events).value); }
  }

  ghost predicate Finished(s: State) {
    && s.objects.stack == [] && s.interactions.stack == []
    && OneNameEach(NamesOf(s.objects.entries)) && ParentsBefore(s.objects.parents)
    && OneNameEach(NamesOf(s.interactions.entries)) && ParentsBefore(s.interactions.parents)
  }

  lemma LockStepAtEnd(s: State)
    requires LockStep(s) && s.modes == []
    ensures Finished(s)
  {
    assert Count(s.modes, ObjectClassMode) == 0 && Count(s.modes, InteractionClassMode) == 0;
  }

  // ------------------------------------------------------------------ which ones are accepted

  /** The tokens of the elements that are open after some events, outermost first. */
  function OpenTokens(events: seq<Event>): seq<seq<string>>
    decreases |events|
  {
    if events == [] then []
    else
      var n := |events| - 1;
      var path := OpenTokens(events[..n]);
      match events[n]
      case Start(tokens) => path + [tokens]
      case End => if path == [] then [] else path[..|path| - 1]
  }

  /** An event that the format allows there: an element in its place with the tokens it
      needs, or the end of an open element that is no interaction class with an empty name. */
  predicate Fits(path: seq<seq<string>>, e: Event) {
    match e
    case Start(tokens) => Allowed(path, tokens)
    case End =>
      && path != []
      && var n := |path| - 1;
         !(Opens(path[..n], path[n], InteractionClassMode) && |path[n]| >= 2 && path[n][1] == "")
  }

  lemma {:induction false} AccountOpens(events: seq<Event>)
    ensures PathOf(AccountOf(events).open) == OpenTokens(events)
    decreases |events|
  {
    hide Opens;
    if events != [] {
      var n := |events| - 1;
      AccountOpens(events[..n]);
      var open := AccountOf(events[..n]).open;
      if open != [] { assert PathOf(open[..|open| - 1]) == PathOf(open)[..|open| - 1]; }
    }
  }

  /** Each open interaction class has the name that its element gave it. */
  ghost predicate OpenNamed(s: State, open: seq<Element>) {
    forall i | 0 <= i < |open| && Opens(PathOf(open[..i]), open[i].tokens, InteractionClassMode) ::
      && |open[i].tokens| >= 2 && open[i].number < |s.interactions.entries|
      && s.interactions.entries[open[i].number].name == [InteractionClassName(open[i].tokens[1])]
  }

  lemma NameIsEmpty(name: string)
    ensures InteractionClassName(name) == "" <==> name == ""
  {}

  /** Names of interaction classes stay, and a new one has its element's name. */
  lemma InteractionNames(s: State, a: Account, e: Event)
    requires LockStep(s) && Follows(s, a) && ValidEvent(e) && OnEvent(s, e).Some?
    ensures var t := OnEvent(s, e).value;
            && |s.interactions.entries| <= |t.interactions.entries|
            && (forall k | 0 <= k < |s.interactions.entries| ::
                  t.interactions.entries[k].name == s.interactions.entries[k].name)
            && (OpensNow(a.open, e, InteractionClassMode) ==>
                  && |e.tokens| >= 2 && |t.interactions.entries| == |s.interactions.entries| + 1
                  && t.interactions.entries[|s.interactions.entries|].name == [InteractionClassName(e.tokens[1])])
  {
    hide ModeFor, Opens, ModesFollow, PathOf, Numbers, Count, InteractionClassName, ObjectClassName;
    if e.Start? {
      ModeForByTokens(s.modes, PathOf(a.open), e.tokens);
      if ModeFor(s.modes, e.tokens).Some? { ModeNeedsTokens(s.modes, e.tokens); }
      CountLast(s.modes, InteractionClassMode);
      CountLast(s.modes, ObjectClassMode);
    }
  }

  lemma NamedMore(s: State, t: State, open: seq<Element>, e: Element)
    requires OpenNamed(s, open) && |s.interactions.entries| <= |t.interactions.entries|
    requires forall k | 0 <= k < |s.interactions.entries| ::
               t.interactions.entries[k].name == s.interactions.entries[k].name
    requires Opens(PathOf(open), e.tokens, InteractionClassMode) ==>
               && |e.tokens| >= 2 && e.number < |t.interactions.entries|
               && t.interactions.entries[e.number].name == [InteractionClassName(e.tokens[1])]
    ensures OpenNamed(t, open + [e])
  {
    hide Opens, PathOf, InteractionClassName;
    var all := open + [e];
    forall i | 0 <= i < |open| ensures all[..i] == open[..i] && all[i] == open[i] {}
    assert all[..|open|] == open;
  }

  lemma NamedLess(s: State, t: State, open: seq<Element>, n: nat)
    requires OpenNamed(s, open) && |s.interactions.entries| <= |t.interactions.entries| && n <= |open|
    requires forall k | 0 <= k < |s.interactions.entries| ::
               t.interactions.entries[k].name == s.interactions.entries[k].name
    ensures OpenNamed(t, open[..n])
  {
    hide Opens, PathOf, InteractionClassName;
    forall i | 0 <= i < n ensures open[..n][..i] == open[..i] && open[..n][i] == open[i] {}
  }

  /** No element is a class of both sorts. */
  lemma OneSort(path: seq<seq<string>>, tokens: seq<string>)
    ensures !(Opens(path, tokens, ObjectClassMode) && Opens(path, tokens, InteractionClassMode))
  {
    if |path| >= 2 {
      OneWord(path[1]);
      assert Words[6] == "objects" && Words[7] == "interactions";
    }
  }

  lemma {:induction false} NamesOpen(events: seq<Event>)
    requires WellFormedEvents(events)
    ensures Read(events).Some? ==> OpenNamed(Read(events).value, AccountOf(events).open)
    decreases |events|
  {
    hide OnEvent, Opens, PathOf, LockStep, InteractionClassName, OpenNamed, ModesFollow, Numbers;
    if events == [] {
      NoneOpen(Begin);
    } else if Read(events).Some? {
      var n := |events| - 1;
      NamesOpen(events[..n]);
      BuilderFollowsReader(events[..n]);
      var s, a, t, e := Read(events[..n]).value, AccountOf(events[..n]), Read(events).value, events[n];
      InteractionNames(s, a, e);
      match e
      case Start(tokens) =>
        OneSort(PathOf(a.open), tokens);
        NamedMore(s, t, a.open, Element(tokens, NumberFor(a, tokens)));
      case End =>
        assert a.open[..|a.open|] == a.open;
        NamedLess(s, t, a.open, if a.open == [] then 0 else |a.open| - 1);
    }
  }

  lemma NoneOpen(s: State)
    ensures OpenNamed(s, [])
  {}

  /** After an accepted sequence, one more event is accepted if and only if it fits the
      elements that are open. */
  lemma EventAccepted(events: seq<Event>, e: Event)
    requires WellFormedEvents(events) && ValidEvent(e) && Read(events).Some?
    ensures OnEvent(Read(events).value, e).Some? <==> Fits(OpenTokens(events), e)
  {
    hide Opens, Allowed, ModeFor, LockStep, Numbers;
    BuilderFollowsReader(events);
    AccountOpens(events);
    var s, a := Read(events).value, AccountOf(events);
    match e
    case Start(tokens) =>
      ModeForByTokens(s.modes, PathOf(a.open), tokens);
      StartAccepted(s, tokens);
    case End =>
      PathLength(a.open);
      if s.modes != [] { EndAccepted(events); }
  }

  lemma StartAccepted(s: State, tokens: seq<string>)
    requires LockStep(s) && tokens != []
    ensures OnStart(s, tokens).Some? <==> ModeFor(s.modes, tokens).Some?
  {
    hide ModeFor, LockStep;
  }

  lemma EndAccepted(events: seq<Event>)
    requires WellFormedEvents(events) && Read(events).Some? && Read(events).value.modes != []
    ensures OnEnd(Read(events).value).Some? <==> Fits(OpenTokens(events), End)
  {
    hide Opens, LockStep, Numbers, OnEnd, Read, AccountOf, OpenTokens, OpenNamed, InteractionClassName, ModesFollow;
    BuilderFollowsReader(events);
    AccountOpens(events);
    NamesOpen(events);
    var s, open := Read(events).value, AccountOf(events).open;
    InnermostMode(s, AccountOf(events));
    EndTest(s);
    var n := |open| - 1;
    assert PathOf(open[..n]) == PathOf(open)[..n] && PathOf(open)[n] == open[n].tokens;
    if LastIs(open, InteractionClassMode) {
      ClosesNamed(s, open);
      NameIsEmpty(open[n].tokens[1]);
    }
  }

  /** Only an interaction class is looked at, and only its name. */
  lemma EndTest(s: State)
    requires LockStep(s) && s.modes != []
    ensures s.modes[|s.modes| - 1] != InteractionClassMode ==> OnEnd(s).Some?
    ensures s.modes[|s.modes| - 1] == InteractionClassMode ==>
              && s.interactions.stack != [] && s.interactions.Top().value < |s.interactions.entries|
              && |s.interactions.entries[s.interactions.Top().value].name| == 1
              && (OnEnd(s).Some? <==> s.interactions.entries[s.interactions.Top().value].name[0] != "")
  {
    CountLast(s.modes, InteractionClassMode);
    CountLast(s.modes, ObjectClassMode);
    hide Count;
  }

  lemma ClosesNamed(s: State, open: seq<Element>)
    requires OpenNamed(s, open) && LastIs(open, InteractionClassMode)
    requires s.interactions.stack == Numbers(open, InteractionClassMode)
    ensures var tokens, top := open[|open| - 1].tokens, s.interactions.Top();
            && |tokens| >= 2 && top.Some? && top.value < |s.interactions.entries|
            && s.interactions.entries[top.value].name == [InteractionClassName(tokens[1])]
  {
    LastNumber(open);
    hide Numbers, Opens, InteractionClassName;
  }

  lemma LastNumber(open: seq<Element>)
    requires LastIs(open, InteractionClassMode)
    ensures var ns := Numbers(open, InteractionClassMode);
            ns != [] && ns[|ns| - 1] == open[|open| - 1].number
  {
    hide Opens;
  }

  /** Main result: a sequence of events is accepted if and only if each event fits the
      elements that are open before it, by the tokens of these elements. */
  lemma {:induction false} AcceptedExactly(events: seq<Event>)
    requires WellFormedEvents(events)
    ensures Read(events).Some? <==> forall n | 0 <= n < |events| :: Fits(OpenTokens(events[..n]), events[n])
    decreases |events|
  {
    hide Fits, OnEvent, OpenTokens;
    if events != [] {
      var m := |events| - 1;
      var before := events[..m];
      AcceptedExactly(before);
      if Read(before).Some? { EventAccepted(before, events[m]); }
      assert forall n | 0 <= n < m :: before[..n] == events[..n] && before[n] == events[n];
      if Read(events).Some? {
        forall n | 0 <= n < |events| ensures Fits(OpenTokens(events[..n]), events[n]) {
          if n < m { assert Fits(OpenTokens(before[..n]), before[n]); }
        }
      } else if Read(before).Some? {
        assert !Fits(OpenTokens(events[..m]), events[m]);
      } else {
        var n :| 0 <= n < m && !Fits(OpenTokens(before[..n]), before[n]);
        assert !Fits(OpenTokens(events[..n]), events[n]);
      }
    }
  }
}
