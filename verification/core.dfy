/** Types shared by every component: node names, bytes, machine-integer limits
    and the two result types. */
module Core {

  /** A node name.  The source validates names on parsing; only equality and
      the derived byte order matter to the protocols. */
  type NodeId = string

  type byte = b: int | 0 <= b < 256

  const U16_MAX: nat := 0xFFFF
  const U32_MAX: nat := 0xFFFF_FFFF
  const U64_MAX: nat := 0xFFFF_FFFF_FFFF_FFFF

  /** A 64-bit counter or clock reading. */
  type u64 = x: int | 0 <= x <= 0xFFFF_FFFF_FFFF_FFFF

  function Min(a: nat, b: nat): nat {
    if a <= b then a else b
  }

  datatype Option<+T> = None | Some(value: T)

  datatype Result<+T, +E> = Ok(value: T) | Err(error: E)
}

/** Facts about majorities of a finite membership. */
module Quorums {

  function Majority<T>(members: set<T>): nat {
    |members| / 2 + 1
  }

  lemma SubsetCardinality<T>(small: set<T>, large: set<T>)
    requires small <= large
    ensures |small| <= |large|
  {
    if small != {} {
      var x :| x in small;
      SubsetCardinality(small - {x}, large - {x});
    }
  }

  /** Two majorities of the same membership share a member. */
  lemma MajoritiesIntersect<T>(members: set<T>, a: set<T>, b: set<T>) returns (common: T)
    requires a <= members && b <= members
    requires |a| >= Majority(members) && |b| >= Majority(members)
    ensures common in a && common in b
  {
    if a * b == {} {
      assert |a + b| == |a| + |b|;
      SubsetCardinality(a + b, members);
      assert false;
    }
    common :| common in a * b;
  }
}

/** The order on node names, in which an ordered set is traversed. */
module Names {
  import opened Core

  /** Node names in lexicographic order. */
  predicate NameLess(a: NodeId, b: NodeId) {
    b != "" && (a == "" || a[0] < b[0] || (a[0] == b[0] && NameLess(a[1..], b[1..])))
  }

  lemma {:induction false} NamesOrdered(a: NodeId, b: NodeId)
    ensures NameLess(a, b) || a == b || NameLess(b, a)
    ensures !(NameLess(a, b) && NameLess(b, a)) && !NameLess(a, a)
  {
    if a != "" {
      NamesOrdered(a[1..], a[1..]);
    }
    if a != "" && b != "" {
      NamesOrdered(a[1..], b[1..]);
      assert a == [a[0]] + a[1..] && b == [b[0]] + b[1..];
    }
  }

  lemma {:induction false} NamesTransitive(a: NodeId, b: NodeId, c: NodeId)
    requires NameLess(a, b) && NameLess(b, c)
    ensures NameLess(a, c)
  {
    if a != "" && a[0] == b[0] == c[0] {
      NamesTransitive(a[1..], b[1..], c[1..]);
    }
  }

  predicate IsLeast(m: NodeId, s: set<NodeId>) {
    m in s && forall x <- s :: x == m || NameLess(m, x)
  }

  lemma {:induction false} LeastExists(s: set<NodeId>) returns (m: NodeId)
    requires s != {}
    ensures IsLeast(m, s)
  {
    var x :| x in s;
    if s == {x} {
      m := x;
    } else {
      assert s - {x} != {};
      var y := LeastExists(s - {x});
      NamesOrdered(x, y);
      m := if NameLess(x, y) then x else y;
      forall z | z in s && z != m ensures NameLess(m, z) {
        if z != x && z != y && m == x {
          NamesTransitive(x, y, z);
        }
      }
    }
  }

  lemma LeastIsUnique(s: set<NodeId>)
    ensures forall m, m' | IsLeast(m, s) && IsLeast(m', s) :: m == m'
  {
    forall m, m' | IsLeast(m, s) && IsLeast(m', s) ensures m == m' {
      NamesOrdered(m, m');
    }
  }

  lemma LeastIsThere(s: set<NodeId>)
    requires s != {}
    ensures exists m :: IsLeast(m, s)
  {
    var m := LeastExists(s);
  }

  function Least(s: set<NodeId>): (m: NodeId)
    requires s != {}
    ensures IsLeast(m, s)
  {
    LeastIsThere(s);
    LeastIsUnique(s);
    var m :| IsLeast(m, s);
    m
  }

  /** The members of a set in ascending order. */
  function InOrder(s: set<NodeId>): (names: seq<NodeId>)
    ensures forall x :: x in names <==> x in s
    ensures Ascending(names)
  {
    if s == {} then []
    else
      var m := Least(s);
      [m] + InOrder(s - {m})
  }

  /** A traversal that leaves one name out. */
  function Except(names: seq<NodeId>, skip: NodeId): (kept: seq<NodeId>)
    ensures forall x :: x in kept <==> x in names && x != skip
  {
    if names == [] then []
    else
      var front, last := names[..|names| - 1], names[|names| - 1];
      assert names == front + [last];
      Except(front, skip) + if last == skip then [] else [last]
  }

  lemma {:induction false} ExceptAscending(names: seq<NodeId>, skip: NodeId)
    requires Ascending(names)
    ensures Ascending(Except(names, skip))
  {
    if names != [] {
      var front, last := names[..|names| - 1], names[|names| - 1];
      ExceptAscending(front, skip);
      var kept := Except(front, skip);
      forall i | 0 <= i < |kept| ensures NameLess(kept[i], last) {
        assert kept[i] in front;
        var j :| 0 <= j < |front| && front[j] == kept[i];
        assert names[j] == kept[i];
      }
    }
  }

  predicate Ascending(names: seq<NodeId>) {
    forall i, j | 0 <= i < j < |names| :: NameLess(names[i], names[j])
  }
}
