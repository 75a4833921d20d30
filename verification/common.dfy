/** Shared vocabulary of the block finder model: opaque identities, Java's
    32-bit int, and a few facts about duplicate-free sequences. */
module Common {

  /** A player is an opaque identity; only equality matters. */
  type Player = nat

  /** A parsed team colour (the host's text colour value); only equality matters. */
  type Color = nat

  /** One constant of the host's material enumeration. `isBlock` is the
      enumeration's own answer to "is this a placeable block kind". */
  datatype Material = Material(id: nat, isBlock: bool)

  datatype Option<+T> = None | Some(value: T)

  const IntMin: int := -0x8000_0000
  const IntMax: int := 0x7fff_ffff

  /** Java's `int`. */
  type Int32 = x: int | IntMin <= x <= IntMax

  /** Java's `x++` on an `int`: one more, wrapping from the largest value to the smallest. */
  function Increment(x: Int32): (r: Int32)
    ensures (r - x) % 0x1_0000_0000 == 1
    ensures x < IntMax ==> r == x + 1
  {
    if x == IntMax then IntMin else x + 1
  }

  /** No element occurs twice. */
  predicate Distinct<T(==)>(s: seq<T>) {
    forall i, j :: 0 <= i < j < |s| ==> s[i] != s[j]
  }

  /** The elements of a sequence, as a set. */
  function Elems<T>(s: seq<T>): set<T> {
    set x | x in s
  }

  /** Java's `ArrayList.remove(int)`: drop the element at position `i`. */
  function RemoveAt<T>(s: seq<T>, i: nat): (r: seq<T>)
    requires i < |s|
    ensures |r| == |s| - 1
    ensures forall x :: x in r ==> x in s
    ensures Distinct(s) ==> Distinct(r) && Elems(r) == Elems(s) - {s[i]}
  {
    var r := s[..i] + s[i + 1..];
    assert forall k :: 0 <= k < |r| ==> r[k] == (if k < i then s[k] else s[k + 1]);
    r
  }

  /** A duplicate-free sequence has as many distinct elements as positions. */
  lemma {:induction false} DistinctCardinality<T>(s: seq<T>)
    requires Distinct(s)
    ensures |Elems(s)| == |s|
  {
    if |s| > 0 {
      assert Distinct(s[1..]) by {
        forall i, j | 0 <= i < j < |s[1..]| ensures s[1..][i] != s[1..][j] {
          assert s[1..][i] == s[i + 1] && s[1..][j] == s[j + 1];
        }
      }
      DistinctCardinality(s[1..]);
      assert Elems(s) == {s[0]} + Elems(s[1..]);
      assert s[0] !in Elems(s[1..]);
    }
  }

  /** Binding a fresh key and removing it again gives back the map. */
  lemma UpdateThenRemove<K, V>(m: map<K, V>, k: K, v: V)
    requires k !in m
    ensures m[k := v] - {k} == m
  {
  }

  /** Removing a key before rebinding it makes no difference. */
  lemma RemoveThenUpdate<K, V>(m: map<K, V>, k: K, v: V)
    ensures (m - {k})[k := v] == m[k := v]
  {
  }

  /** A subset as large as its superset is the whole superset. */
  lemma SubsetOfSameSize<T>(a: set<T>, b: set<T>)
    requires a <= b && |a| == |b|
    ensures a == b
  {
    assert |b - a| == |b| - |a|;
  }
}
