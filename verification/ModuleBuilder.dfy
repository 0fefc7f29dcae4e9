/** FOMStringModuleBuilder: flattens a tree of classes into a list while a reader walks it,
    and completes and checks the class names at the end. Object and interaction classes
    are built by the same operations, so one class serves for both lists. */
module ModuleBuilder {
  import opened Util

  /** `members` are the names of a class's attributes or parameters. */
  datatype ClassEntry = ClassEntry(name: seq<string>, members: seq<string>)

  datatype Classes = Classes(stack: seq<nat>, parents: seq<Option<nat>>, entries: seq<ClassEntry>) {
    /** The stack holds the classes that are open, each one's parent just below it. */
    ghost predicate Valid() {
      && |parents| == |entries|
      && (forall i | 0 <= i < |parents| && parents[i].Some? :: parents[i].value < i)
      && (forall k | 0 <= k < |stack| :: stack[k] < |entries|)
      && (stack != [] ==> parents[stack[0]] == None)
      && (forall j, k | 0 <= j < k < |stack| && k == j + 1 :: parents[stack[k]] == Some(stack[j]))
    }

    function Top(): Option<nat> { if stack == [] then None else Some(stack[|stack| - 1]) }
  }

  function Push(c: Classes): Classes {
    Classes(c.stack + [|c.entries|], c.parents + [c.Top()], c.entries + [ClassEntry([], [])])
  }

  function Pop(c: Classes): Classes
    requires c.stack != []
  {
    c.(stack := c.stack[..|c.stack| - 1])
  }

  ghost function WithEntry(c: Classes, e: ClassEntry): Classes
    requires c.stack != [] && c.Valid()
  {
    c.(entries := c.entries[c.Top().value := e])
  }

  ghost function Current(c: Classes): ClassEntry
    requires c.stack != [] && c.Valid()
  {
    c.entries[c.Top().value]
  }

  ghost function WithName(c: Classes, name: string): Classes
    requires c.stack != [] && c.Valid()
  {
    WithEntry(c, Current(c).(name := Current(c).name + [name]))
  }

  ghost function WithMember(c: Classes, member: string): Classes
    requires c.stack != [] && c.Valid()
  {
    WithEntry(c, Current(c).(members := Current(c).members + [member]))
  }

  function NamesOf(entries: seq<ClassEntry>): seq<seq<string>> {
    seq(|entries|, i requires 0 <= i < |entries| => entries[i].name)
  }

  function MembersOf(entries: seq<ClassEntry>): seq<seq<string>> {
    seq(|entries|, i requires 0 <= i < |entries| => entries[i].members)
  }

  // --------------------------------------------------------------------- complete names

  predicate ParentsBefore(parents: seq<Option<nat>>) {
    forall i | 0 <= i < |parents| && parents[i].Some? :: parents[i].value < i
  }

  /** The names on the way from the outermost class to class `i`. */
  function Path(parents: seq<Option<nat>>, own: seq<seq<string>>, i: nat): seq<string>
    requires ParentsBefore(parents) && i < |parents| == |own|
    decreases i
  {
    match parents[i]
    case None => own[i]
    case Some(p) => Path(parents, own, p) + own[i]
  }

  predicate AtOrAbove(parents: seq<Option<nat>>, a: nat, i: nat)
    requires ParentsBefore(parents) && i < |parents|
    decreases i
  {
    a == i || (parents[i].Some? && AtOrAbove(parents, a, parents[i].value))
  }

  predicate OneNameEach(own: seq<seq<string>>) { forall i | 0 <= i < |own| :: |own[i]| == 1 }

  ghost predicate Distinct(names: seq<seq<string>>) {
    forall i, j | 0 <= i < j < |names| :: names[i] != names[j]
  }

  /** With a name, each enclosing class's name is there too. */
  ghost predicate PrefixClosed(names: seq<seq<string>>) {
    forall i, k | 0 <= i < |names| && 0 < k <= |names[i]| :: names[i][..k] in names
  }

  /** Every prefix of a path is the path of an enclosing class. */
  lemma {:induction false} PathPrefix(parents: seq<Option<nat>>, own: seq<seq<string>>, i: nat, k: nat) returns (a: nat)
    requires ParentsBefore(parents) && i < |parents| == |own| && OneNameEach(own)
    requires 0 < k <= |Path(parents, own, i)|
    ensures AtOrAbove(parents, a, i) && a <= i && Path(parents, own, i)[..k] == Path(parents, own, a)
    decreases i
  {
    var path := Path(parents, own, i);
    if k == |path| {
      assert path[..k] == path;
      a := i;
    } else {
      var p := parents[i].value;
      a := PathPrefix(parents, own, p, k);
      assert path[..k] == Path(parents, own, p)[..k];
    }
  }

  function Paths(parents: seq<Option<nat>>, own: seq<seq<string>>): (r: seq<seq<string>>)
    requires ParentsBefore(parents) && |parents| == |own|
    ensures |r| == |own| && forall i | 0 <= i < |own| :: r[i] == Path(parents, own, i)
  {
    seq(|own|, i requires 0 <= i < |own| => Path(parents, own, i))
  }

  /** Full names are prefix-closed, before they are checked to be distinct. */
  lemma PathsPrefixClosed(parents: seq<Option<nat>>, own: seq<seq<string>>)
    requires ParentsBefore(parents) && |parents| == |own| && OneNameEach(own)
    ensures PrefixClosed(Paths(parents, own))
  {
    var names := Paths(parents, own);
    forall i, k | 0 <= i < |names| && 0 < k <= |names[i]| ensures names[i][..k] in names {
      var a := PathPrefix(parents, own, i, k);
      assert names[a] == names[i][..k];
    }
  }

  // --------------------------------------------------------------------- artificial root

  predicate NeedsRoot(names: seq<seq<string>>, root: string) { names == [] || names[0] != [root] }

  function Rooted(entries: seq<ClassEntry>, root: string): seq<ClassEntry> {
    [ClassEntry([root], [])]
    + seq(|entries|, i requires 0 <= i < |entries| => entries[i].(name := [root] + entries[i].name))
  }

  function WithRoot(entries: seq<ClassEntry>, root: string): seq<ClassEntry> {
    if NeedsRoot(NamesOf(entries), root) then Rooted(entries, root) else entries
  }

  lemma RootNeeded(entries: seq<ClassEntry>, root: string)
    ensures NeedsRoot(NamesOf(entries), root) <==> entries == [] || entries[0].name != [root]
  {
    assert |NamesOf(entries)| == |entries|;
    if entries != [] { assert NamesOf(entries)[0] == entries[0].name; }
  }

  lemma AllRooted(was: seq<ClassEntry>, now: seq<ClassEntry>, root: string)
    requires var all := [ClassEntry([], [])] + was;
             |now| == |all| && forall k | 0 <= k < |all| :: now[k] == all[k].(name := [root] + all[k].name)
    ensures now == Rooted(was, root)
  {
    assert [root] + [] == [root];
    var all := [ClassEntry([], [])] + was;
    assert forall k | 0 <= k < |was| :: all[k + 1] == was[k];
  }

  /** Putting the root on top keeps the names distinct and prefix-closed, and the first
      class is then the root class in any case. */
  lemma RootKeepsNames(entries: seq<ClassEntry>, root: string)
    requires Distinct(NamesOf(entries)) && PrefixClosed(NamesOf(entries))
    requires forall i | 0 <= i < |entries| :: entries[i].name != []
    ensures var names := NamesOf(WithRoot(entries, root));
            names != [] && names[0] == [root] && Distinct(names) && PrefixClosed(names)
  {
    if NeedsRoot(NamesOf(entries), root) {
      var was, names := NamesOf(entries), NamesOf(Rooted(entries, root));
      assert forall i | 0 <= i < |entries| :: names[i + 1] == [root] + was[i];
      forall i, j | 0 <= i < j < |names| ensures names[i] != names[j] {
        assert names[j][1..] == was[j - 1];
        if i > 0 { assert names[i][1..] == was[i - 1]; }
      }
      forall i, k | 0 <= i < |names| && 0 < k <= |names[i]| ensures names[i][..k] in names {
        if k == 1 {
          assert names[i][..k] == names[0];
        } else {
          assert was[i - 1][..k - 1] in was;
          var a :| 0 <= a < |was| && was[a] == was[i - 1][..k - 1];
          assert names[i][..k] == [root] + was[i - 1][..k - 1];
          assert names[i][..k] == names[a + 1];
        }
      }
    }
  }

  function RootedMembers(names: seq<seq<string>>, members: seq<seq<string>>, root: string): seq<seq<string>> {
    (if NeedsRoot(names, root) then [[]] else []) + members
  }

  lemma RootKeepsMembers(entries: seq<ClassEntry>, root: string)
    ensures MembersOf(WithRoot(entries, root)) == RootedMembers(NamesOf(entries), MembersOf(entries), root)
  {}

  // ------------------------------------------------------------------- inherited members

  predicate NoRepeats(names: seq<string>) { forall i, j | 0 <= i < j < |names| :: names[i] != names[j] }

  /** No class has a member twice, counting those of its enclosing classes: what the search
      at the end of `validate` is there to check. */
  predicate UniqueAlong(parents: seq<Option<nat>>, members: seq<seq<string>>)
    requires ParentsBefore(parents) && |parents| == |members|
  {
    forall i | 0 <= i < |members| :: NoRepeats(Path(parents, members, i))
  }

  /** The enclosing classes once a root class is put on top. */
  function ParentsUnderRoot(parents: seq<Option<nat>>): (r: seq<Option<nat>>)
    requires ParentsBefore(parents)
    ensures |r| == |parents| + 1 && ParentsBefore(r) && r[0] == None
  {
    [None] + seq(|parents|, i requires 0 <= i < |parents| =>
      match parents[i] case None => Some(0) case Some(p) => Some(p + 1))
  }

  lemma {:induction false} MembersUnderRoot(parents: seq<Option<nat>>, members: seq<seq<string>>, i: nat)
    requires ParentsBefore(parents) && i < |parents| == |members|
    ensures Path(ParentsUnderRoot(parents), [[]] + members, i + 1) == Path(parents, members, i)
    decreases i
  {
    var all := [[]] + members;
    assert all[i + 1] == members[i] && [] + members[i] == members[i];
    match parents[i]
    case None => assert Path(ParentsUnderRoot(parents), all, 0) == [];
    case Some(p) => MembersUnderRoot(parents, members, p);
  }

  /** Validation never looks at members: for all lists, they are unique along every path
      after it if and only if they were before. */
  lemma RootKeepsUniqueness(parents: seq<Option<nat>>, members: seq<seq<string>>)
    requires ParentsBefore(parents) && |parents| == |members|
    ensures UniqueAlong(ParentsUnderRoot(parents), [[]] + members) <==> UniqueAlong(parents, members)
  {
    hide ParentsUnderRoot, NoRepeats;
    var all := [[]] + members;
    assert Path(ParentsUnderRoot(parents), all, 0) == [];
    forall i | 0 <= i < |members|
      ensures Path(ParentsUnderRoot(parents), all, i + 1) == Path(parents, members, i)
    {
      MembersUnderRoot(parents, members, i);
    }
    assert NoRepeats([]) by { NothingRepeats(); }
    hide Path;
    if UniqueAlong(ParentsUnderRoot(parents), all) {
      forall i | 0 <= i < |members| ensures NoRepeats(Path(parents, members, i)) {
        assert NoRepeats(Path(ParentsUnderRoot(parents), all, i + 1));
      }
    }
    if UniqueAlong(parents, members) {
      forall i | 0 <= i < |all| ensures NoRepeats(Path(ParentsUnderRoot(parents), all, i)) {
        if i > 0 { assert Path(ParentsUnderRoot(parents), all, i - 1 + 1) == Path(parents, members, i - 1); }
      }
    }
  }

  lemma NothingRepeats()
    ensures NoRepeats([])
  {}

  lemma {:induction false} RootMemberFirst(parents: seq<Option<nat>>, members: seq<seq<string>>, m: string, i: nat)
    requires ParentsBefore(parents) && i < |parents| == |members| && members[0] == []
    ensures Path(parents, members[0 := [m]], i)
         == (if AtOrAbove(parents, 0, i) then [m] else []) + Path(parents, members, i)
    decreases i
  {
    var own := if i == 0 then [m] else members[i];
    assert members[0 := [m]][i] == own;
    if parents[i].Some? {
      var p := parents[i].value;
      RootMemberFirst(parents, members, m, p);
      var head := if AtOrAbove(parents, 0, p) then [m] else [];
      assert Path(parents, members[0 := [m]], i) == Path(parents, members[0 := [m]], p) + own;
      assert AtOrAbove(parents, 0, i) == AtOrAbove(parents, 0, p) && own == members[i];
      assert head + Path(parents, members, p) + own == head + (Path(parents, members, p) + own);
    } else if i == 0 {
      assert [m] + [] == [m];
    } else {
      assert [] + own == own;
    }
  }

  lemma OneMoreFirst(m: string, names: seq<string>)
    ensures NoRepeats([m] + names) <==> NoRepeats(names) && m !in names
  {
    var all := [m] + names;
    assert forall i | 0 <= i < |names| :: all[i + 1] == names[i];
    if NoRepeats(all) {
      forall i, j | 0 <= i < j < |names| ensures names[i] != names[j] {
        assert all[i + 1] != all[j + 1];
      }
      forall j | 0 <= j < |names| ensures names[j] != m {
        assert all[0] != all[j + 1];
      }
    }
    if NoRepeats(names) && m !in names {
      forall i, j | 0 <= i < j < |all| ensures all[i] != all[j] {
        assert all[j] == names[j - 1];
        if i > 0 { assert all[i] == names[i - 1]; }
      }
    }
  }

  predicate NoneBelowRoot(parents: seq<Option<nat>>, members: seq<seq<string>>, m: string)
    requires ParentsBefore(parents) && |parents| == |members|
  {
    forall i | 0 <= i < |members| && AtOrAbove(parents, 0, i) :: m !in Path(parents, members, i)
  }

  /** With the one attribute that the object root class is left with, members are unique if
      and only if those of the other classes are and none below the root repeats it. */
  lemma FixedRootUniqueness(parents: seq<Option<nat>>, members: seq<seq<string>>, m: string)
    requires ParentsBefore(parents) && 0 < |parents| == |members| && members[0] == []
    ensures UniqueAlong(parents, members[0 := [m]])
       <==> UniqueAlong(parents, members) && NoneBelowRoot(parents, members, m)
  {
    hide NoRepeats;
    forall i | 0 <= i < |members|
      ensures NoRepeats(Path(parents, members[0 := [m]], i))
         <==> NoRepeats(Path(parents, members, i))
              && (AtOrAbove(parents, 0, i) ==> m !in Path(parents, members, i))
    {
      RootMemberFirst(parents, members, m, i);
      OneMoreFirst(m, Path(parents, members, i));
      assert [] + Path(parents, members, i) == Path(parents, members, i);
    }
    var all := members[0 := [m]];
    if UniqueAlong(parents, all) {
      forall i | 0 <= i < |members|
        ensures NoRepeats(Path(parents, members, i))
        ensures AtOrAbove(parents, 0, i) ==> m !in Path(parents, members, i)
      {
        assert NoRepeats(Path(parents, all, i));
      }
    }
    if UniqueAlong(parents, members) && NoneBelowRoot(parents, members, m) {
      forall i | 0 <= i < |all| ensures NoRepeats(Path(parents, all, i)) {
        assert NoRepeats(Path(parents, members, i));
      }
    }
  }

  /** Two inputs that validation accepts and the search was meant to reject: a class that
      repeats its parent's member, and a class that has the same member twice. */
  lemma RepeatedMembersAccepted()
    ensures var parents, names, members := [None, Some(0)], [["A"], ["B"]], [["x"], ["x"]];
            && ParentsBefore(parents) && Acceptable(Paths(parents, names)) && !UniqueAlong(parents, members)
    ensures var parents, names, members := [None], [["A"]], [["x", "x"]];
            && ParentsBefore(parents) && Acceptable(Paths(parents, names)) && !UniqueAlong(parents, members)
  {
    var parents: seq<Option<nat>> := [None, Some(0)];
    var names, members := [["A"], ["B"]], [["x"], ["x"]];
    assert Path(parents, names, 0) == ["A"] && Path(parents, names, 1) == ["A", "B"];
    assert Path(parents, members, 0) == ["x"] && Path(parents, members, 1) == ["x", "x"];
    var path := Path(parents, members, 1);
    assert path[0] == path[1];
    var alone: seq<Option<nat>> := [None];
    assert Path(alone, [["A"]], 0) == ["A"] && Path(alone, [["x", "x"]], 0) == ["x", "x"];
    var twice := Path(alone, [["x", "x"]], 0);
    assert twice[0] == twice[1];
  }

  // ------------------------------------------------------------------- the builder's list

  datatype Validation = Accepted | NoName | DuplicateName

  /** A name that is empty or that an earlier class has. */
  predicate Faulty(names: seq<seq<string>>, i: nat)
    requires i < |names|
  {
    names[i] == [] || names[i] in names[..i]
  }

  /** The error tells of the first faulty name what is wrong with it. */
  ghost predicate TellsFirstFault(names: seq<seq<string>>, r: Validation) {
    exists i | 0 <= i < |names| ::
      Faulty(names, i) && (forall k | 0 <= k < i :: !Faulty(names, k)) && (r == NoName <==> names[i] == [])
  }

  const OBJECT_ROOT := "HLAobjectRoot"
  const INTERACTION_ROOT := "HLAinteractionRoot"
  const PRIVILEGE := "HLAprivilegeToDeleteObject"

  class ClassList {
    var stack: seq<nat>
    var parents: seq<Option<nat>>
    var entries: seq<ClassEntry>
    var artificialRoot: bool

    ghost function View(): Classes
      reads this
    {
      Classes(stack, parents, entries)
    }

    constructor ()
      ensures View() == Classes([], [], []) && View().Valid()
    {
      stack, parents, entries, artificialRoot := [], [], [], false;
    }

    method PushClass()
      requires View().Valid()
      modifies this
      ensures View() == Push(old(View())) && View().Valid()
    {
      var parent := if stack == [] then None else Some(stack[|stack| - 1]);
      var index := |entries|;
      stack := stack + [index];
      parents := parents + [parent];
      entries := entries + [ClassEntry([], [])];
    }

    method PopClass()
      requires View().Valid() && stack != []
      modifies this`stack
      ensures View() == Pop(old(View())) && View().Valid()
    {
      stack := stack[..|stack| - 1];
    }

    /** `false` is the "No current class" error. */
    method AddName(name: string) returns (ok: bool)
      requires View().Valid()
      modifies this`entries
      ensures ok <==> stack != []
      ensures View().Valid() && View() == if ok then WithName(old(View()), name) else old(View())
    {
      if stack == [] { return false; }
      var i := stack[|stack| - 1];
      entries := entries[i := entries[i].(name := entries[i].name + [name])];
      return true;
    }

    method AddMember(member: string) returns (ok: bool)
      requires View().Valid()
      modifies this`entries
      ensures ok <==> stack != []
      ensures View().Valid() && View() == if ok then WithMember(old(View()), member) else old(View())
    {
      if stack == [] { return false; }
      var i := stack[|stack| - 1];
      entries := entries[i := entries[i].(members := entries[i].members + [member])];
      return true;
    }

    /** One pass from the front: a parent's name is complete before its children need it.
        The source asserts that a class inside another one has one simple name. */
    method CompleteNames()
      requires View().Valid()
      requires forall i | 0 <= i < |entries| && parents[i].Some? :: |entries[i].name| == 1
      modifies this`entries
      ensures View().Valid() && |entries| == old(|entries|)
      ensures NamesOf(entries) == Paths(parents, NamesOf(old(entries)))
      ensures forall i | 0 <= i < |entries| :: entries[i].members == old(entries)[i].members
    {
      ghost var own := NamesOf(entries);
      for i := 0 to |parents|
        invariant |entries| == |own| == |parents|
        invariant forall k | 0 <= k < i :: entries[k].name == Path(parents, own, k)
        invariant forall k | i <= k < |entries| :: entries[k].name == own[k]
        invariant forall k | 0 <= k < |entries| :: entries[k].members == old(entries)[k].members
      {
        if parents[i].Some? {
          var full := entries[parents[i].value].name + [entries[i].name[0]];
          assert own[i] == [entries[i].name[0]];
          entries := entries[i := entries[i].(name := full)];
        }
      }
    }

    /** The set-based check: rejects the first empty or repeated name. */
    method CheckNames() returns (r: Validation)
      ensures r == Accepted <==>
                Distinct(NamesOf(entries)) && forall i | 0 <= i < |entries| :: entries[i].name != []
      ensures r != Accepted ==> TellsFirstFault(NamesOf(entries), r)
    {
      ghost var names := NamesOf(entries);
      assert forall k | 0 <= k < |entries| :: NamesOf(entries)[k] == entries[k].name;
      var seen := {};
      for i := 0 to |entries|
        invariant forall k | 0 <= k < i :: entries[k].name != [] && entries[k].name in seen
        invariant forall n | n in seen :: exists k | 0 <= k < i :: entries[k].name == n
        invariant forall j, k | 0 <= j < k < i :: entries[j].name != entries[k].name
        invariant forall k | 0 <= k < i :: !Faulty(names, k)
      {
        var name := entries[i].name;
        assert names[i] == name;
        if name == [] {
          assert Faulty(names, i);
          return NoName;
        }
        if name in seen {
          ghost var k :| 0 <= k < i && entries[k].name == name;
          assert names[..i][k] == names[k] == names[i];
          assert Faulty(names, i);
          return DuplicateName;
        }
        forall k | 0 <= k < i ensures names[..i][k] != name { assert names[..i][k] == names[k]; }
        seen := seen + {name};
      }
      return Accepted;
    }

    method InsertRoot(root: string)
      modifies this`entries, this`artificialRoot
      ensures entries == WithRoot(old(entries), root)
      ensures artificialRoot <==> NeedsRoot(NamesOf(old(entries)), root)
    {
      RootNeeded(entries, root);
      artificialRoot := entries == [] || entries[0].name != [root];
      if !artificialRoot { return; }
      entries := [ClassEntry([], [])] + entries;
      ghost var was := entries;
      for i := 0 to |entries|
        invariant artificialRoot && |entries| == |was|
        invariant forall k | 0 <= k < i :: entries[k] == was[k].(name := [root] + was[k].name)
        invariant forall k | i <= k < |entries| :: entries[k] == was[k]
      {
        entries := entries[i := entries[i].(name := [root] + entries[i].name)];
      }
      AllRooted(old(entries), entries, root);
    }

    /** The loops that search each class and its enclosing classes for repeated members.
        The inner one is a `while`, but its guard is false from the start: its body, which
        would search class `j` and go on to its parent, is never entered. */
    method SearchInheritedMembers() returns (r: Validation)
      ensures r == Accepted
    {
      for i := 0 to |entries| {
        var j := i;
        if |entries| <= j {
          assert false;
        }
      }
      return Accepted;
    }

    /** Names, checks and root of `validate` for one of the two lists. */
    method Validate(root: string) returns (r: Validation)
      requires View().Valid()
      requires forall i | 0 <= i < |entries| && parents[i].Some? :: |entries[i].name| == 1
      modifies this`entries, this`artificialRoot
      ensures r == Accepted <==>
                Acceptable(Paths(parents, NamesOf(old(entries))))
      ensures r != Accepted ==> TellsFirstFault(Paths(parents, NamesOf(old(entries))), r)
      ensures r == Accepted ==>
                NamesOf(entries) == FullNames(parents, NamesOf(old(entries)), root)
      ensures r == Accepted ==>
                MembersOf(entries)
                  == RootedMembers(Paths(parents, NamesOf(old(entries))), MembersOf(old(entries)), root)
    {
      hide Paths, Distinct;
      CompleteNames();
      var full := entries;
      assert MembersOf(full) == MembersOf(old(entries));
      assert NamesOf(full) == Paths(parents, NamesOf(old(entries)));
      assert forall i | 0 <= i < |full| :: full[i].name == NamesOf(full)[i];
      r := CheckNames();
      if r != Accepted { return; }
      InsertRoot(root);
      RootedNames(full, root);
      RootKeepsMembers(full, root);
    }

    /** `validate` for the interaction classes: the parameters stay as they were pushed. */
    method ValidateInteractions() returns (r: Validation)
      requires View().Valid()
      requires forall i | 0 <= i < |entries| && parents[i].Some? :: |entries[i].name| == 1
      modifies this`entries, this`artificialRoot
      ensures r == Accepted <==> Acceptable(Paths(parents, NamesOf(old(entries))))
      ensures r != Accepted ==> TellsFirstFault(Paths(parents, NamesOf(old(entries))), r)
      ensures r == Accepted ==>
                var paths := Paths(parents, NamesOf(old(entries)));
                && NamesOf(entries) == RootedAll(paths, INTERACTION_ROOT)
                && MembersOf(entries) == RootedMembers(paths, MembersOf(old(entries)), INTERACTION_ROOT)
    {
      hide Paths, Acceptable;
      r := Validate(INTERACTION_ROOT);
      if r == Accepted { r := SearchInheritedMembers(); }
    }

    /** `validate` for the object classes: class 0 ends with exactly the one standard
        attribute, and the attributes of the others stay as they were pushed. */
    method ValidateObjects() returns (r: Validation)
      requires View().Valid()
      requires forall i | 0 <= i < |entries| && parents[i].Some? :: |entries[i].name| == 1
      modifies this`entries, this`artificialRoot
      ensures r == Accepted <==> Acceptable(Paths(parents, NamesOf(old(entries))))
      ensures r != Accepted ==> TellsFirstFault(Paths(parents, NamesOf(old(entries))), r)
      ensures r == Accepted ==>
                var paths := Paths(parents, NamesOf(old(entries)));
                var members := RootedMembers(paths, MembersOf(old(entries)), OBJECT_ROOT);
                && NamesOf(entries) == RootedAll(paths, OBJECT_ROOT)
                && members != [] && MembersOf(entries) == members[0 := [PRIVILEGE]]
    {
      hide Paths, Acceptable;
      r := Validate(OBJECT_ROOT);
      if r == Accepted {
        RootedIsThere(Paths(parents, NamesOf(old(entries))), OBJECT_ROOT);
        ghost var before := entries;
        FixRootAttributes();
        assert MembersOf(entries) == MembersOf(before)[0 := [PRIVILEGE]] by {
          assert forall k | 1 <= k < |entries| :: entries[k] == entries[1..][k - 1] && before[k] == before[1..][k - 1];
        }
        r := SearchInheritedMembers();
      }
    }

    /** The end of `validate` for object classes, after the root is in place: whatever
        attributes the root class had, one remains, and it gets the standard name. */
    method FixRootAttributes()
      requires entries != []
      modifies this`entries
      ensures |entries| == old(|entries|) && entries[0].members == [PRIVILEGE]
      ensures entries[0].members == FixedMembers(old(entries)[0].members)
      ensures NamesOf(entries) == NamesOf(old(entries)) && entries[1..] == old(entries)[1..]
    {
      var members := entries[0].members;
      members := Resized(members);
      members := members[0 := PRIVILEGE];
      entries := entries[0 := entries[0].(members := members)];
      assert NamesOf(entries) == NamesOf(old(entries));
    }
  }

  /** The list cut or filled up to one element. */
  function Resized(members: seq<string>): (r: seq<string>)
    ensures |r| == 1
  {
    if |members| >= 1 then members[..1] else members + [""]
  }

  function FixedMembers(members: seq<string>): seq<string> { Resized(members)[0 := PRIVILEGE] }

  /** Only the name of the first attribute is normalized, and the others are preserved, if
      and only if there are no others. */
  lemma FixDropsOthers(members: seq<string>)
    requires members != []
    ensures FixedMembers(members) == members[0 := PRIVILEGE] <==> |members| == 1
    ensures FixedMembers(["a", "b"]) == [PRIVILEGE] != ["a", "b"][0 := PRIVILEGE]
  {}

  ghost predicate Acceptable(names: seq<seq<string>>) {
    Distinct(names) && forall i | 0 <= i < |names| :: names[i] != []
  }

  function RootedAll(names: seq<seq<string>>, root: string): seq<seq<string>> {
    if NeedsRoot(names, root)
    then [[root]] + seq(|names|, i requires 0 <= i < |names| => [root] + names[i])
    else names
  }

  function FullNames(parents: seq<Option<nat>>, own: seq<seq<string>>, root: string): seq<seq<string>>
    requires ParentsBefore(parents) && |parents| == |own|
  {
    RootedAll(Paths(parents, own), root)
  }

  lemma RootedIsThere(names: seq<seq<string>>, root: string)
    ensures RootedAll(names, root) != []
  {}

  lemma RootedNames(entries: seq<ClassEntry>, root: string)
    ensures NamesOf(WithRoot(entries, root)) == RootedAll(NamesOf(entries), root)
  {}

  /** The names are the paths, put under the root class; no two are equal, and with a name
      every enclosing class's name is there. */
  ghost predicate NamedByPaths(names: seq<seq<string>>, paths: seq<seq<string>>, root: string) {
    && Distinct(names) && PrefixClosed(names) && names != [] && names[0] == [root]
    && |names| == |paths| + (if NeedsRoot(paths, root) then 1 else 0)
    && forall i | 0 <= i < |paths| ::
         if NeedsRoot(paths, root) then names[i + 1] == [root] + paths[i] else names[i] == paths[i]
  }

  /** Main result: when validation accepts classes that were pushed with one simple name
      each, the names are root-to-class paths, under the artificial root if there had to be
      one; they are distinct and prefix-closed, and class 0 is the root class. */
  lemma AcceptedNames(parents: seq<Option<nat>>, own: seq<seq<string>>, root: string)
    requires ParentsBefore(parents) && |parents| == |own| && OneNameEach(own)
    requires Acceptable(Paths(parents, own))
    ensures NamedByPaths(FullNames(parents, own, root), Paths(parents, own), root)
  {
    var paths := Paths(parents, own);
    PathsPrefixClosed(parents, own);
    var entries := seq(|paths|, i requires 0 <= i < |paths| => ClassEntry(paths[i], []));
    assert NamesOf(entries) == paths;
    RootKeepsNames(entries, root);
    RootedNames(entries, root);
  }
}
