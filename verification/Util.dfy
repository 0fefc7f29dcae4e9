/** Small shared vocabulary: optional values and the order in which `std::set` and
    `std::map` hand out natural-number keys. */
module Util {

  datatype Option<+T> = None | Some(value: T)

  type Byte = b: int | 0 <= b < 256 witness 0

  /** The key that `begin()` of an ordered set of handles denotes. */
  ghost predicate IsLeast(m: nat, s: set<nat>) {
    m in s && forall x | x in s :: m <= x
  }

  lemma LeastExists(s: set<nat>)
    requires s != {}
    ensures exists m :: IsLeast(m, s)
  {
    var x :| x in s;
    if s - {x} == {} {
      assert s == {x};
      assert IsLeast(x, s);
    } else {
      LeastExists(s - {x});
      var m :| IsLeast(m, s - {x});
      assert forall y | y in s :: y == x || y in s - {x};
      assert IsLeast(if m < x then m else x, s);
    }
  }

  ghost function Least(s: set<nat>): (m: nat)
    requires s != {}
    ensures IsLeast(m, s)
  {
    LeastExists(s);
    var m :| IsLeast(m, s);
    m
  }

  /** The order in which iterating an ordered container visits its keys. */
  ghost function Ascending(s: set<nat>): seq<nat> {
    if s == {} then [] else var m := Least(s); [m] + Ascending(s - {m})
  }

  lemma {:induction false} AscendingElements(s: set<nat>)
    ensures |Ascending(s)| == |s|
    ensures forall x :: x in Ascending(s) <==> x in s
    ensures forall i, j | 0 <= i < j < |Ascending(s)| :: Ascending(s)[i] < Ascending(s)[j]
  {
    if s != {} {
      var m := Least(s);
      AscendingElements(s - {m});
      assert Ascending(s) == [m] + Ascending(s - {m});
      forall j | 0 < j < |Ascending(s)| ensures m < Ascending(s)[j] {
        assert Ascending(s)[j] in Ascending(s - {m});
      }
    }
  }

  /** The handles from `lo` up to but not including `hi`. */
  function Range(lo: nat, hi: nat): (r: set<nat>)
    ensures forall x :: x in r <==> lo <= x < hi
    ensures |r| == if lo <= hi then hi - lo else 0
    decreases hi
  {
    if lo >= hi then {} else Range(lo, hi - 1) + {hi - 1}
  }

  // ------------------------------------------------------------- names, as std::string

  /** The order of `std::string`: first differing character, a proper prefix before. */
  predicate NameAtMost(a: string, b: string)
    decreases |a|
  {
    a == [] || (b != [] && (a[0] < b[0] || (a[0] == b[0] && NameAtMost(a[1..], b[1..]))))
  }

  /** The lexicographic order, by the first place where the names differ. */
  lemma {:induction false} NameAtMostExactly(a: string, b: string)
    ensures NameAtMost(a, b) <==>
              a <= b || exists i | 0 <= i < |a| && i < |b| :: a[..i] == b[..i] && a[i] < b[i]
    decreases |a|
  {
    if a != [] && b != [] && a[0] == b[0] {
      var x, y := a[1..], b[1..];
      NameAtMostExactly(x, y);
      assert a == [a[0]] + x && b == [b[0]] + y;
      if i :| 0 <= i < |x| && i < |y| && x[..i] == y[..i] && x[i] < y[i] {
        assert a[..i + 1] == [a[0]] + x[..i] && b[..i + 1] == [b[0]] + y[..i];
        assert a[i + 1] < b[i + 1];
      }
      if i :| 0 <= i < |a| && i < |b| && a[..i] == b[..i] && a[i] < b[i] {
        assert a[..i][1..] == x[..i - 1] && b[..i][1..] == y[..i - 1];
        assert x[i - 1] < y[i - 1];
      }
    } else if a != [] && b != [] && a[0] < b[0] {
      assert a[..0] == b[..0];
    }
  }

  lemma {:induction false} NameOrder(a: string, b: string, c: string)
    ensures NameAtMost(a, a)
    ensures NameAtMost(a, b) || NameAtMost(b, a)
    ensures NameAtMost(a, b) && NameAtMost(b, c) ==> NameAtMost(a, c)
    ensures NameAtMost(a, b) && NameAtMost(b, a) ==> a == b
    decreases |a|
  {
    if a != [] {
      NameOrder(a[1..], if b == [] then [] else b[1..], if c == [] then [] else c[1..]);
    }
  }

  ghost predicate IsFirstName(m: string, s: set<string>) {
    m in s && forall x | x in s :: NameAtMost(m, x)
  }

  lemma FirstNameExists(s: set<string>)
    requires s != {}
    ensures exists m :: IsFirstName(m, s)
  {
    var x :| x in s;
    var rest := s - {x};
    NameOrder(x, x, x);
    if rest == {} {
      assert s == {x};
      assert IsFirstName(x, s);
    } else {
      FirstNameExists(rest);
      var m :| IsFirstName(m, rest);
      NameOrder(m, x, x);
      var best := if NameAtMost(m, x) then m else x;
      forall y | y in s ensures NameAtMost(best, y) {
        if y != x {
          assert y in rest;
          NameOrder(x, m, y);
        }
      }
      assert IsFirstName(best, s);
    }
  }

  /** The key that `begin()` of a map ordered by name denotes. */
  ghost function FirstName(s: set<string>): (m: string)
    requires s != {}
    ensures IsFirstName(m, s)
  {
    FirstNameExists(s);
    var m :| IsFirstName(m, s);
    m
  }

  /** The order in which a set of names is iterated. */
  ghost function AscendingNames(s: set<string>): (r: seq<string>)
    ensures forall n :: n in r <==> n in s
    ensures forall i, j | 0 <= i < j < |r| :: r[i] != r[j]
  {
    if s == {} then [] else var m := FirstName(s); [m] + AscendingNames(s - {m})
  }

  lemma {:induction false} NamesAscend(s: set<string>)
    ensures forall i, j | 0 <= i < j < |AscendingNames(s)| :: NameAtMost(AscendingNames(s)[i], AscendingNames(s)[j])
  {
    if s != {} {
      hide NameAtMost;
      var m := FirstName(s);
      NamesAscend(s - {m});
      var r, rest := AscendingNames(s), AscendingNames(s - {m});
      assert r == [m] + rest;
      forall j | 0 < j < |r| ensures NameAtMost(m, r[j]) { assert r[j] == rest[j - 1] && rest[j - 1] in rest; }
    }
  }

  /** `begin()` of an ordered set of handles. */
  method FirstHandle(s: set<nat>) returns (m: nat)
    requires s != {}
    ensures m == Least(s)
  {
    m :| m in s;
    var rest := s - {m};
    while rest != {}
      invariant rest <= s && m in s && m !in rest
      invariant forall x | x in s :: x in rest || m <= x
      decreases rest
    {
      var x :| x in rest;
      rest := rest - {x};
      if x < m { m := x; }
    }
  }

  /** `begin()` of an ordered set of names. */
  method FirstOfNames(s: set<string>) returns (m: string)
    requires s != {}
    ensures m == FirstName(s)
  {
    m :| m in s;
    NameOrder(m, m, m);
    var rest := s - {m};
    while rest != {}
      invariant rest <= s && m in s && m !in rest
      invariant forall x | x in s :: x in rest || NameAtMost(m, x)
      decreases rest
    {
      var x :| x in rest;
      ghost var was := m;
      rest := rest - {x};
      NameOrder(was, x, x);
      if !NameAtMost(m, x) { m := x; }
      forall y | y in s && y !in rest ensures NameAtMost(m, y) {
        NameOrder(m, was, y);
        NameOrder(x, x, x);
      }
    }
    NameOrder(m, FirstName(s), m);
  }
}
