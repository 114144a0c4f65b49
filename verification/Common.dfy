/** Option, and the facts about sorted sequences of ids that the other modules share. */
module Common {

  datatype Option<+T> = None | Some(value: T)

  /** The greatest element of a nonempty set. */
  ghost function Max(s: set<nat>): (m: nat)
    requires s != {}
    ensures m in s && forall x <- s :: x <= m
  {
    MaxExists(s);
    var m: nat :| IsMax(s, m);
    m
  }

  lemma {:induction false} MaxExists(s: set<nat>)
    requires s != {}
    ensures exists m: nat :: IsMax(s, m)
    decreases |s|
  {
    var y :| y in s;
    if forall x <- s :: x <= y {
      assert IsMax(s, y);
    } else {
      var z :| z in s && z > y;
      MaxExists(s - {y});
      var m: nat :| IsMax(s - {y}, m);
      assert z in s - {y};
      forall x | x in s ensures x <= m {
        assert x == y || x in s - {y};
      }
      assert IsMax(s, m);
    }
  }

  ghost predicate IsMax(s: set<nat>, m: nat) { m in s && forall x <- s :: x <= m }

  ghost predicate StrictlySorted(s: seq<nat>) {
    forall i, j :: 0 <= i < j < |s| ==> s[i] < s[j]
  }

  /** The elements of a set in increasing order: what std::sort makes of any listing of the set. */
  ghost function Sorted(s: set<nat>): (r: seq<nat>)
    ensures StrictlySorted(r)
    ensures forall x :: x in r <==> x in s
    decreases |s|
  {
    if s == {} then []
    else
      var m := Max(s);
      var r := Sorted(s - {m});
      assert forall x :: x in r + [m] <==> x in r || x == m;
      assert forall i :: 0 <= i < |r| ==> r[i] in r;
      r + [m]
  }

  /** The last elements of two increasing listings of the same elements agree. */
  lemma SameLast(a: seq<nat>, b: seq<nat>)
    requires StrictlySorted(a) && StrictlySorted(b) && a != [] && b != []
    requires forall x :: x in a <==> x in b
    ensures a[|a| - 1] == b[|b| - 1]
  {
    assert a[|a| - 1] in b && b[|b| - 1] in a;
    var i :| 0 <= i < |b| && b[i] == a[|a| - 1];
    var j :| 0 <= j < |a| && a[j] == b[|b| - 1];
  }

  lemma DropLast(a: seq<nat>)
    requires StrictlySorted(a) && a != []
    ensures StrictlySorted(a[..|a| - 1])
    ensures forall z :: z in a[..|a| - 1] <==> z in a && z != a[|a| - 1]
  {
    forall z | z in a && z != a[|a| - 1] ensures z in a[..|a| - 1] {
      var i :| 0 <= i < |a| && a[i] == z;
      assert a[..|a| - 1][i] == z;
    }
  }

  /** A strictly increasing sequence is determined by its elements. */
  lemma {:induction false} SortedIsUnique(a: seq<nat>, b: seq<nat>)
    requires StrictlySorted(a) && StrictlySorted(b)
    requires forall x :: x in a <==> x in b
    ensures a == b
  {
    assert (a != [] ==> a[0] in b) && (b != [] ==> b[0] in a);
    if a != [] && b != [] {
      SameLast(a, b);
      DropLast(a);
      DropLast(b);
      var a', b' := a[..|a| - 1], b[..|b| - 1];
      forall x ensures x in a' <==> x in b' {
        assert x in a' <==> x in a && x != a[|a| - 1];
        assert x in b' <==> x in b && x != b[|b| - 1];
      }
      SortedIsUnique(a', b');
      assert a == a[..|a| - 1] + [a[|a| - 1]];
    }
  }

  /** The ids 1..n. */
  ghost function FirstIds(n: nat): (s: set<nat>)
    ensures forall k :: k in s <==> 1 <= k <= n
  {
    if n == 0 then {} else FirstIds(n - 1) + {n}
  }

  /** The last 50 elements, or all of them. */
  function LastFifty<T>(s: seq<T>): seq<T> {
    if |s| > 50 then s[|s| - 50..] else s
  }
}
