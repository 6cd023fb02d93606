/** Sorted subscription-id vectors (src/raw/shared.rs): binary-search insert and
    remove, and the two-pointer merge. */
module IdLists {
  type Id = nat

  predicate Ascending(ids: seq<Id>) {
    forall i, j :: 0 <= i < j < |ids| ==> ids[i] < ids[j]
  }

  /** The last id of an ascending list is its maximum, and occurs only there. */
  lemma DropLast(a: seq<Id>)
    requires Ascending(a) && a != []
    ensures a[|a| - 1] in a && forall id :: id in a ==> id <= a[|a| - 1]
    ensures forall id :: id in a[..|a| - 1] <==> id in a && id != a[|a| - 1]
  {
    forall id | id in a && id != a[|a| - 1] ensures id in a[..|a| - 1] {
      var k :| 0 <= k < |a| && a[k] == id;
      assert a[..|a| - 1][k] == id;
    }
  }

  /** An ascending list is determined by its elements. */
  lemma {:induction false} AscendingUnique(a: seq<Id>, b: seq<Id>)
    requires Ascending(a) && Ascending(b)
    requires forall id :: id in a <==> id in b
    ensures a == b
    decreases |a| + |b|
  {
    if a != [] {
      DropLast(a);
    }
    if b != [] {
      DropLast(b);
    }
    if a != [] && b != [] {
      assert a[|a| - 1] in b && b[|b| - 1] in a;
      assert a[|a| - 1] == b[|b| - 1];
      var a', b' := a[..|a| - 1], b[..|b| - 1];
      forall id ensures id in a' <==> id in b' {
        assert id in a <==> id in b;
      }
      AscendingUnique(a', b');
      assert a == a' + [a[|a| - 1]] && b == b' + [b[|b| - 1]];
    }
  }

  /** The standard library's binary search: the position of `id`, or the
      position at which inserting it keeps the list ascending. */
  method BinarySearch(ids: seq<Id>, id: Id) returns (found: bool, index: nat)
    requires Ascending(ids)
    ensures found <==> id in ids
    ensures found ==> index < |ids| && ids[index] == id
    ensures index <= |ids|
    ensures !found ==> forall k :: 0 <= k < index ==> ids[k] < id
    ensures !found ==> forall k :: index <= k < |ids| ==> id < ids[k]
  {
    var low, high := 0, |ids|;
    while low < high
      invariant 0 <= low <= high <= |ids|
      invariant forall k :: 0 <= k < low ==> ids[k] < id
      invariant forall k :: high <= k < |ids| ==> id < ids[k]
    {
      var mid := low + (high - low) / 2;
      if ids[mid] == id {
        return true, mid;
      } else if ids[mid] < id {
        low := mid + 1;
      } else {
        high := mid;
      }
    }
    return false, low;
  }

  method InsertId(ids: seq<Id>, id: Id) returns (r: seq<Id>)
    requires Ascending(ids)
    ensures Ascending(r)
    ensures forall x :: x in r <==> x in ids || x == id
  {
    var found, index := BinarySearch(ids, id);
    if found {
      r := ids;
    } else {
      r := ids[..index] + [id] + ids[index..];
      assert r[index] == id;
      forall x | x in ids ensures x in r {
        var k :| 0 <= k < |ids| && ids[k] == x;
        assert r[if k < index then k else k + 1] == x;
      }
    }
  }

  method RemoveId(ids: seq<Id>, id: Id) returns (r: seq<Id>)
    requires Ascending(ids)
    ensures Ascending(r)
    ensures forall x :: x in r <==> x in ids && x != id
  {
    var found, index := BinarySearch(ids, id);
    if found {
      r := ids[..index] + ids[index + 1..];
      forall x | x in ids && x != id ensures x in r {
        var k :| 0 <= k < |ids| && ids[k] == x;
        assert r[if k < index then k else k - 1] == x;
      }
    } else {
      r := ids;
    }
  }

  /** The merge of two lists from positions `i` and `j` on. */
  function MergedFrom(first: seq<Id>, i: nat, second: seq<Id>, j: nat): seq<Id>
    requires i <= |first| && j <= |second|
    decreases |first| - i + |second| - j
  {
    if i == |first| then second[j..]
    else if j == |second| then first[i..]
    else if first[i] < second[j] then [first[i]] + MergedFrom(first, i + 1, second, j)
    else if first[i] > second[j] then [second[j]] + MergedFrom(first, i, second, j + 1)
    else [first[i]] + MergedFrom(first, i + 1, second, j + 1)
  }

  function Merged(first: seq<Id>, second: seq<Id>): seq<Id> {
    MergedFrom(first, 0, second, 0)
  }

  /** The merge of two ascending lists is ascending and holds exactly their
      elements, an id of both lists once. */
  lemma MergedIsUnion(first: seq<Id>, second: seq<Id>)
    requires Ascending(first) && Ascending(second)
    ensures Ascending(Merged(first, second))
    ensures forall x :: x in Merged(first, second) <==> x in first || x in second
  {
    assert first[0..] == first && second[0..] == second;
    MergedFromIsUnion(first, 0, second, 0, Merged(first, second));
  }

  lemma {:induction false} MergedFromIsUnion(first: seq<Id>, i: nat, second: seq<Id>, j: nat, r: seq<Id>)
    requires i <= |first| && j <= |second|
    requires Ascending(first) && Ascending(second)
    requires r == MergedFrom(first, i, second, j)
    ensures Ascending(r)
    ensures forall x :: x in r <==> x in first[i..] || x in second[j..]
    decreases |first| - i + |second| - j
  {
    if i < |first| && j < |second| {
      var i', j' := if first[i] <= second[j] then i + 1 else i, if first[i] >= second[j] then j + 1 else j;
      var head := if first[i] <= second[j] then first[i] else second[j];
      var rest := MergedFrom(first, i', second, j');
      MergedFromIsUnion(first, i', second, j', rest);
      assert first[i..] == [first[i]] + first[i + 1..] && second[j..] == [second[j]] + second[j + 1..];
      AscendingCons(head, rest);
      assert r == [head] + rest;
    }
  }

  lemma AscendingCons(head: Id, tail: seq<Id>)
    requires Ascending(tail) && forall x :: x in tail ==> head < x
    ensures Ascending([head] + tail)
  {
    var all := [head] + tail;
    forall i, j | 0 <= i < j < |all| ensures all[i] < all[j] {
      assert all[j] == tail[j - 1] && tail[j - 1] in tail;
    }
  }

  /** merge_ids. */
  method MergeIds(first: seq<Id>, second: seq<Id>) returns (r: seq<Id>)
    ensures r == Merged(first, second)
  {
    r := [];
    var i, j := 0, 0;
    ghost var merged := Merged(first, second);
    while i < |first| && j < |second|
      invariant 0 <= i <= |first| && 0 <= j <= |second|
      invariant |r| <= |merged| && r == merged[..|r|]
      invariant merged[|r|..] == MergedFrom(first, i, second, j)
    {
      ghost var rest, n := merged[|r|..], |r|;
      if first[i] < second[j] {
        r := r + [first[i]];
        i := i + 1;
      } else if first[i] > second[j] {
        r := r + [second[j]];
        j := j + 1;
      } else {
        r := r + [first[i]];
        i := i + 1;
        j := j + 1;
      }
      assert merged[n] == rest[0] && merged[n + 1..] == rest[1..];
    }
    assert merged == merged[..|r|] + merged[|r|..];
    r := r + first[i..] + second[j..];
  }
}
