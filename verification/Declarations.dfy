/** One side (publication or subscription) of a federate's object class: a level for
    the class itself and one per attribute, combined by `max` at attribute 0, which is
    HLAprivilegeToDeleteObject.

    Levels are the values of the two C++ enumerations: Unpublished 0 and Published 1,
    Unsubscribed 0, SubscribedPassive 1 and SubscribedActive 2. */
module Declarations {

  type Level = x: nat | x <= 2
  const OFF: Level := 0
  const PUBLISHED: Level := 1
  const PASSIVE: Level := 1
  const ACTIVE: Level := 2

  datatype Declaration = Declaration(flag: Level, levels: seq<Level>) {
    predicate Valid() { levels != [] }
    predicate Defined(attributes: seq<nat>) {
      forall i | 0 <= i < |attributes| :: attributes[i] < |levels|
    }
  }

  function Max(a: Level, b: Level): Level { if a < b then b else a }

  function Effective(d: Declaration, k: nat): Level
    requires k < |d.levels|
  {
    if k == 0 then Max(d.levels[0], d.flag) else d.levels[k]
  }

  /** What the rest of the federation should believe about this class. */
  function EffectiveLevels(d: Declaration): seq<Level> {
    seq(|d.levels|, k requires 0 <= k < |d.levels| => Effective(d, k))
  }

  function SetFlag(d: Declaration, level: Level): Declaration { d.(flag := level) }

  function SetLevel(d: Declaration, k: nat, level: Level): Declaration
    requires k < |d.levels|
  {
    d.(levels := d.levels[k := level])
  }

  predicate FlagChanges(d: Declaration, level: Level)
    requires d.Valid()
  {
    Effective(d, 0) != Effective(SetFlag(d, level), 0)
  }

  predicate LevelChanges(d: Declaration, k: nat, level: Level)
    requires k < |d.levels|
  {
    Effective(d, k) != Effective(SetLevel(d, k, level), k)
  }

  datatype Delta = Delta(after: Declaration, attributes: seq<nat>)

  /** Sets the level of every listed attribute in turn and keeps those for which that
      changed the effective level at that moment. */
  function Compact(d: Declaration, v: seq<nat>, level: Level): (r: Delta)
    requires d.Defined(v)
    ensures |r.after.levels| == |d.levels|
    decreases |v|
  {
    if v == [] then Delta(d, [])
    else
      var rest := Compact(SetLevel(d, v[0], level), v[1..], level);
      if LevelChanges(d, v[0], level)
      then Delta(rest.after, [v[0]] + rest.attributes)
      else rest
  }

  lemma CompactOne(d: Declaration, v: seq<nat>, i: nat, level: Level)
    requires d.Defined(v) && i < |v|
    ensures var r := Compact(SetLevel(d, v[i], level), v[i + 1..], level);
            var head := if LevelChanges(d, v[i], level) then [v[i]] else [];
            Compact(d, v[i..], level) == Delta(r.after, head + r.attributes)
  {
    assert v[i..][1..] == v[i + 1..];
  }

  lemma CompactNone(d: Declaration, v: seq<nat>, level: Level)
    requires v == []
    ensures Compact(d, v, level) == Delta(d, [])
  {}

  /** The vector that the compaction loop starts on once the class flag has changed. */
  function WithPrivilege(v: seq<nat>): seq<nat> {
    if v == [] || v[0] != 0 then [0] + v else v
  }

  /** Publishing or subscribing at `level`. When the flag changes the effective class
      level, attribute 0 is put in front unless it is there, and the loop skips it. */
  function Declare(d: Declaration, v: seq<nat>, level: Level): Delta
    requires d.Valid() && d.Defined(v)
  {
    if FlagChanges(d, level) then
      var w := WithPrivilege(v);
      var rest := Compact(SetFlag(d, level), w[1..], level);
      Delta(rest.after, [0] + rest.attributes)
    else
      Compact(SetFlag(d, level), v, level)
  }

  function UpTo(n: nat): (s: seq<nat>)
    ensures |s| == n && forall k | 0 <= k < n :: s[k] == k
    ensures forall k :: k in s <==> 0 <= k < n
  {
    var s := seq(n, i requires 0 <= i => i);
    assert forall k | 0 <= k < n :: k in s by {
      forall k | 0 <= k < n ensures k in s { assert s[k] == k; }
    }
    s
  }

  /** Unpublishing or unsubscribing a whole class. */
  function UndeclareAll(d: Declaration): Delta
    requires d.Valid()
  {
    var rest := Compact(SetFlag(d, OFF), UpTo(|d.levels|), OFF);
    Delta(rest.after, (if FlagChanges(d, OFF) then [0] else []) + rest.attributes)
  }

  /** Unpublishing or unsubscribing listed attributes: the flag stays. */
  function Undeclare(d: Declaration, v: seq<nat>): Delta
    requires d.Defined(v)
  {
    Compact(d, v, OFF)
  }

  // ---------------------------------------------------------------- what a delta says

  ghost predicate Distinct(s: seq<nat>) {
    forall i, j | 0 <= i < j < |s| :: s[i] != s[j]
  }

  /** The delta names exactly the attributes whose effective level differs. */
  ghost predicate NamesChanges(before: Declaration, r: Delta) {
    && |r.after.levels| == |before.levels|
    && (forall k | k in r.attributes :: k < |before.levels|)
    && (forall k | 0 <= k < |before.levels| ::
          k in r.attributes <==> Effective(before, k) != Effective(r.after, k))
  }

  /** Every named attribute has ended up at the level that the message carries. */
  ghost predicate AllAt(r: Delta, level: Level) {
    forall k | k in r.attributes :: k < |r.after.levels| && Effective(r.after, k) == level
  }

  // ------------------------------------------------------------------ the compaction

  lemma {:induction false} CompactLevels(d: Declaration, v: seq<nat>, level: Level)
    requires d.Defined(v)
    ensures Compact(d, v, level).after.flag == d.flag
    ensures forall k | 0 <= k < |d.levels| ::
              Compact(d, v, level).after.levels[k] == if k in v then level else d.levels[k]
    decreases |v|
  {
    if v != [] {
      CompactLevels(SetLevel(d, v[0], level), v[1..], level);
      assert forall k :: k in v <==> k == v[0] || k in v[1..];
    }
  }

  /** Compaction reports each attribute whose effective level changed once, and no other. */
  lemma {:induction false} CompactDelta(d: Declaration, v: seq<nat>, level: Level)
    requires d.Defined(v)
    ensures Distinct(Compact(d, v, level).attributes)
    ensures NamesChanges(d, Compact(d, v, level))
    ensures forall k | k in Compact(d, v, level).attributes :: k in v
    decreases |v|
  {
    CompactLevels(d, v, level);
    if v != [] {
      var d1 := SetLevel(d, v[0], level);
      var rest := Compact(d1, v[1..], level);
      CompactDelta(d1, v[1..], level);
      CompactLevels(d1, v[1..], level);
      // Setting v[0] again later leaves its effective level alone.
      assert Effective(rest.after, v[0]) == Effective(d1, v[0]);
      assert v[0] !in rest.attributes;
      assert forall k | 0 <= k < |d.levels| && k != v[0] :: Effective(d, k) == Effective(d1, k);
      assert forall k :: k in Compact(d, v, level).attributes ==> k == v[0] || k in rest.attributes;
    }
  }

  /** What a compaction at `level` leaves as the effective levels. */
  lemma CompactEffective(d: Declaration, v: seq<nat>, level: Level, k: nat)
    requires d.Defined(v) && k < |d.levels|
    ensures Effective(Compact(d, v, level).after, k)
         == if k !in v then Effective(d, k) else if k == 0 then Max(level, d.flag) else level
  {
    CompactLevels(d, v, level);
  }

  // --------------------------------------------------------- publishing, subscribing

  /** Only with three levels: a class flag that shows through from above the attribute
      cannot be replaced by a level that is still declared but below it. */
  lemma FlagChangeLands(d: Declaration, level: Level)
    requires d.Valid() && level != OFF && FlagChanges(d, level)
    ensures d.levels[0] <= level
    ensures Effective(SetFlag(d, level), 0) == level
  {}

  /** The level that a publish or subscribe request leaves behind. */
  lemma DeclareEffective(d: Declaration, v: seq<nat>, level: Level, k: nat)
    requires d.Valid() && d.Defined(v) && level != OFF && k < |d.levels|
    ensures |Declare(d, v, level).after.levels| == |d.levels|
    ensures Declare(d, v, level).after.flag == level
    ensures Effective(Declare(d, v, level).after, k)
         == if k in v then level else if k == 0 then Max(level, d.levels[0]) else Effective(d, k)
  {
    var d1 := SetFlag(d, level);
    if FlagChanges(d, level) {
      FlagChangeLands(d, level);
      var w := WithPrivilege(v);
      CompactLevels(d1, w[1..], level);
      assert forall x :: x in w <==> x == 0 || x in v;
      assert w == [0] + w[1..];
      assert forall x :: x in w <==> x == 0 || x in w[1..];
    } else {
      CompactLevels(d1, v, level);
    }
  }

  /** Main result on one request: for any vector, with duplicates and with attribute 0
      anywhere, the message lists each attribute whose effective level changed exactly
      once, lists no other, and carries the level each one now has. */
  lemma DeclareExactDelta(d: Declaration, v: seq<nat>, level: Level)
    requires d.Valid() && d.Defined(v) && level != OFF
    ensures NamesChanges(d, Declare(d, v, level))
    ensures Distinct(Declare(d, v, level).attributes)
    ensures AllAt(Declare(d, v, level), level)
  {
    var r := Declare(d, v, level);
    var d1 := SetFlag(d, level);
    forall k | 0 <= k < |d.levels| {
      DeclareEffective(d, v, level, k);
    }
    if FlagChanges(d, level) {
      FlagChangeLands(d, level);
      var w := WithPrivilege(v);
      var rest := Compact(d1, w[1..], level);
      CompactDelta(d1, w[1..], level);
      CompactLevels(d1, w[1..], level);
      assert Effective(d1, 0) == Effective(rest.after, 0);
      assert 0 !in rest.attributes;
      assert forall k :: k in r.attributes <==> k == 0 || k in rest.attributes;
      forall k | k in rest.attributes ensures Effective(r.after, k) == level {
        assert k in w[1..] && k != 0;
      }
    } else {
      CompactDelta(d1, v, level);
      assert forall k | 0 <= k < |d.levels| :: Effective(d, k) == Effective(d1, k);
    }
  }

  // ------------------------------------------------------ unpublishing, unsubscribing

  /** Undeclaring a class switches every effective level off and names exactly those
      that were on. */
  lemma UndeclareAllDelta(d: Declaration)
    requires d.Valid()
    ensures NamesChanges(d, UndeclareAll(d))
    ensures AllAt(UndeclareAll(d), OFF)
    ensures UndeclareAll(d).after.flag == OFF
    ensures forall k | 0 <= k < |d.levels| :: Effective(UndeclareAll(d).after, k) == OFF
  {
    var d1 := SetFlag(d, OFF);
    CompactDelta(d1, UpTo(|d.levels|), OFF);
    CompactLevels(d1, UpTo(|d.levels|), OFF);
    var rest := Compact(d1, UpTo(|d.levels|), OFF);
    forall k | 0 <= k < |d.levels|
      ensures k in UndeclareAll(d).attributes <==> Effective(d, k) != Effective(rest.after, k)
    {
      assert k in rest.attributes <==> Effective(d1, k) != OFF;
      assert k in UndeclareAll(d).attributes <==> (FlagChanges(d, OFF) && k == 0) || k in rest.attributes;
    }
  }

  /** The message of a class unsubscription lists attribute 0 twice exactly when the
      class was declared above a still declared attribute 0. */
  lemma UndeclareAllRepeatsPrivilege(d: Declaration)
    requires d.Valid()
    ensures Distinct(UndeclareAll(d).attributes) <==> !(OFF < d.levels[0] < d.flag)
  {
    var d1 := SetFlag(d, OFF);
    var rest := Compact(d1, UpTo(|d.levels|), OFF);
    CompactDelta(d1, UpTo(|d.levels|), OFF);
    CompactLevels(d1, UpTo(|d.levels|), OFF);
    assert 0 in rest.attributes <==> d.levels[0] != OFF;
    var m := UndeclareAll(d).attributes;
    if FlagChanges(d, OFF) {
      assert m == [0] + rest.attributes;
      if 0 in rest.attributes {
        var i :| 0 <= i < |rest.attributes| && rest.attributes[i] == 0;
        assert m[0] == m[i + 1];
      }
    } else {
      assert m == rest.attributes;
    }
  }

  /** The guard under which undeclaring attribute 0 uncovers the class level. */
  predicate Uncovers(d: Declaration, v: seq<nat>) {
    d.Valid() && 0 in v && OFF < d.flag < d.levels[0]
  }

  /** Undeclaring attributes names exactly the changed ones, and the level it sends is
      the effective one if and only if attribute 0 does not uncover the class level. */
  lemma UndeclareDelta(d: Declaration, v: seq<nat>)
    requires d.Valid() && d.Defined(v)
    ensures NamesChanges(d, Undeclare(d, v))
    ensures Distinct(Undeclare(d, v).attributes)
    ensures AllAt(Undeclare(d, v), OFF) <==> !Uncovers(d, v)
  {
    var r := Undeclare(d, v);
    CompactDelta(d, v, OFF);
    forall k | 0 <= k < |d.levels| {
      CompactEffective(d, v, OFF, k);
    }
    if Uncovers(d, v) {
      assert 0 in r.attributes;
    }
  }
}
