/**
 * Pure queries over a store's snapshot: the LINQ operators the repositories
 * use (`FirstOrDefault`, `Where`, `Max`, `List.IndexOf`, `List.Remove`) and
 * the identifier rule `Max(ids) + 1`, or `1` for an empty store.
 */
module Snapshots {
  import opened Wrappers
  import opened Models

  /**
   * The index of the first element satisfying `p`; `List.IndexOf(x)` is
   * `FirstIndex(s, IsEqualTo(x))`.
   */
  function FirstIndex<T>(s: seq<T>, p: T -> bool): (r: Option<nat>)
    ensures r.None? <==> forall i :: 0 <= i < |s| ==> !p(s[i])
    ensures r.Some? ==> r.value < |s| && p(s[r.value])
    ensures r.Some? ==> forall i :: 0 <= i < r.value ==> !p(s[i])
  {
    if |s| == 0 then None
    else if p(s[0]) then Some(0)
    else match FirstIndex(s[1..], p)
      case None => None
      case Some(k) => Some(k + 1)
  }

  /** LINQ `FirstOrDefault(p)`: the first element satisfying `p`, or `None`. */
  function First<T>(s: seq<T>, p: T -> bool): (r: Option<T>)
    ensures r.None? <==> FirstIndex(s, p).None?
    ensures r.Some? ==> r.value == s[FirstIndex(s, p).value]
  {
    if |s| == 0 then None
    else if p(s[0]) then Some(s[0])
    else First(s[1..], p)
  }

  /** LINQ `Where(p)`: the elements satisfying `p`, in snapshot order. */
  function Filter<T>(s: seq<T>, p: T -> bool): (r: seq<T>)
    ensures |r| <= |s|
    ensures forall i :: 0 <= i < |r| ==> p(r[i])
    ensures forall i :: 0 <= i < |r| ==> r[i] in s
    ensures forall i :: 0 <= i < |s| && p(s[i]) ==> s[i] in r
  {
    if |s| == 0 then []
    else (if p(s[0]) then [s[0]] else []) + Filter(s[1..], p)
  }

  /** The equality test `List.IndexOf` and `List.Remove` search with. */
  function IsEqualTo<T(==)>(x: T): T -> bool {
    (y: T) => y == x
  }

  /** The predicate `e => e.Id == id` of every lookup by id. */
  function IdIs<D>(id: int): Entity<D> -> bool {
    (e: Entity<D>) => e.id == id
  }

  /** `List.RemoveAt(k)`: drop position `k`, keeping the others in order. */
  function RemoveAt<T>(s: seq<T>, k: nat): (r: seq<T>)
    requires k < |s|
    ensures |r| == |s| - 1
    ensures forall i :: 0 <= i < k ==> r[i] == s[i]
    ensures forall i :: k <= i < |r| ==> r[i] == s[i + 1]
  {
    s[..k] + s[k + 1..]
  }

  ghost predicate HasId<D>(s: seq<Entity<D>>, id: int) {
    exists i :: 0 <= i < |s| && s[i].id == id
  }

  ghost predicate UniqueIds<D>(s: seq<Entity<D>>) {
    forall i, j :: 0 <= i < j < |s| ==> s[i].id != s[j].id
  }

  ghost predicate PositiveIds<D>(s: seq<Entity<D>>) {
    forall i :: 0 <= i < |s| ==> s[i].id > 0
  }

  /** LINQ `Max(e => e.Id)` on a non-empty snapshot. */
  function MaxId<D>(s: seq<Entity<D>>): (r: Int32)
    requires |s| > 0
    ensures forall i :: 0 <= i < |s| ==> s[i].id <= r
    ensures HasId(s, r)
  {
    if |s| == 1 then s[0].id
    else
      var m := MaxId(s[1..]);
      if s[0].id >= m then s[0].id else m
  }

  /** True when `Max(ids) + 1` does not wrap around past `int.MaxValue`. */
  predicate CanAssignFreshId<D>(s: seq<Entity<D>>) {
    |s| == 0 || MaxId(s) < MaxInt32
  }

  /**
   * The identifier `Create` assigns: `Count > 0 ? Max(ids) + 1 : 1`, the
   * addition being C#'s unchecked 32-bit one.
   */
  function NextId<D>(s: seq<Entity<D>>): (r: Int32)
    ensures CanAssignFreshId(s) ==> forall i :: 0 <= i < |s| ==> s[i].id < r
    ensures CanAssignFreshId(s) ==> if |s| == 0 then r == 1 else HasId(s, r - 1)
    ensures !CanAssignFreshId(s) ==> r == MinInt32
  {
    if |s| > 0 then AddInt32(MaxId(s), 1) else 1
  }

  /**
   * `List.IndexOf(FirstOrDefault(p))` is the index of the first element
   * satisfying `p`: every earlier element fails `p`, so none equals it.
   */
  lemma IndexOfFirst<T>(s: seq<T>, p: T -> bool)
    requires First(s, p).Some?
    ensures FirstIndex(s, IsEqualTo(First(s, p).value)) == FirstIndex(s, p)
  {
  }

  /** Appending an element changes the first match only if there was none. */
  lemma {:induction false} FirstIndexAppend<T>(s: seq<T>, x: T, p: T -> bool)
    ensures FirstIndex(s + [x], p) ==
      if FirstIndex(s, p).Some? then FirstIndex(s, p)
      else if p(x) then Some(|s|) else None
  {
    if |s| > 0 {
      assert (s + [x])[1..] == s[1..] + [x];
      FirstIndexAppend(s[1..], x, p);
    }
  }

  /** `Where` distributes over concatenation, so it keeps order and multiplicity. */
  lemma {:induction false} FilterAppend<T>(a: seq<T>, b: seq<T>, p: T -> bool)
    ensures Filter(a + b, p) == Filter(a, p) + Filter(b, p)
  {
    if |a| == 0 {
      assert a + b == b;
    } else {
      assert (a + b)[1..] == a[1..] + b;
      FilterAppend(a[1..], b, p);
    }
  }

  /** A created entity gets an id no other entity has, so ids stay unique. */
  lemma AppendFreshPreservesUnique<D>(s: seq<Entity<D>>, e: Entity<D>)
    requires UniqueIds(s) && CanAssignFreshId(s)
    ensures UniqueIds(s + [e.(id := NextId(s))])
  {
  }

  /** Replacing an entity by one with the same id keeps ids unique. */
  lemma ReplacePreservesUnique<D>(s: seq<Entity<D>>, k: nat, e: Entity<D>)
    requires UniqueIds(s) && k < |s| && s[k].id == e.id
    ensures UniqueIds(s[k := e])
  {
  }

  /** Removing one entity keeps ids unique, and its id is then absent. */
  lemma RemovePreservesUnique<D>(s: seq<Entity<D>>, k: nat)
    requires UniqueIds(s) && k < |s|
    ensures UniqueIds(RemoveAt(s, k))
    ensures !HasId(RemoveAt(s, k), s[k].id)
  {
  }

  /** After removing the entity with the largest id, every id left is smaller. */
  lemma RemoveMaxLeavesSmaller<D>(s: seq<Entity<D>>, k: nat)
    requires UniqueIds(s) && k < |s| && s[k].id == MaxId(s)
    ensures forall i :: 0 <= i < |RemoveAt(s, k)| ==> RemoveAt(s, k)[i].id < s[k].id
  {
  }

  /** Removing position `k` keeps every id other than that of `s[k]`. */
  lemma RemoveKeepsOtherIds<D>(s: seq<Entity<D>>, k: nat, id: int)
    requires k < |s| && id != s[k].id
    ensures HasId(RemoveAt(s, k), id) <==> HasId(s, id)
  {
    var r := RemoveAt(s, k);
    if HasId(s, id) {
      var i :| 0 <= i < |s| && s[i].id == id;
      assert r[if i < k then i else i - 1] == s[i];
    }
    if HasId(r, id) {
      var i :| 0 <= i < |r| && r[i].id == id;
      assert r[i] == s[if i < k then i else i + 1];
    }
  }

  /**
   * When every id is below `m`, the next id is at most `m`, and equals `m`
   * exactly when `m - 1` is in use.
   */
  lemma NextIdBelow<D>(r: seq<Entity<D>>, m: Int32)
    requires |r| > 0
    requires forall i :: 0 <= i < |r| ==> r[i].id < m
    ensures NextId(r) <= m
    ensures NextId(r) == m <==> HasId(r, m - 1)
  {
  }

  /**
   * Identifiers are reused: with unique, positive ids, deleting the entity
   * at `k`, which holds the largest id `m`, and creating again yields an id
   * no greater than `m`, and exactly `m` when `m - 1` is still in use or
   * `m` is `1` (so `[1, 2]`, delete `2`, create gives `2` again).
   */
  lemma DeleteMaxThenCreate<D>(s: seq<Entity<D>>, k: nat)
    requires UniqueIds(s) && PositiveIds(s)
    requires k < |s| && s[k].id == MaxId(s)
    ensures NextId(RemoveAt(s, k)) <= s[k].id
    ensures NextId(RemoveAt(s, k)) == s[k].id <==> s[k].id == 1 || HasId(s, s[k].id - 1)
  {
    var m := s[k].id;
    var r := RemoveAt(s, k);
    RemoveMaxLeavesSmaller(s, k);
    if |r| == 0 {
      assert |s| == 1 && k == 0;
      assert !HasId(s, m - 1);
    } else {
      assert r[0].id > 0;
      NextIdBelow(r, m);
      RemoveKeepsOtherIds(s, k, m - 1);
    }
  }
}
