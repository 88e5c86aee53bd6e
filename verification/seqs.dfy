/** Operations on the ordered list of shape ids: first-occurrence removal
    (as `List.Remove` does), positional insertion, and duplicate-freedom. */
module Seqs {

  type Id = nat

  predicate Distinct(xs: seq<Id>)
  {
    forall i, j :: 0 <= i < j < |xs| ==> xs[i] != xs[j]
  }

  /** Sequences that agree at every index are equal. */
  lemma Pointwise<T>(a: seq<T>, b: seq<T>)
    requires |a| == |b| && forall i :: 0 <= i < |a| ==> a[i] == b[i]
    ensures a == b
  {
  }

  /** A non-empty sequence is its front followed by its last element. */
  lemma SplitLast<T>(s: seq<T>)
    requires s != []
    ensures s == s[..|s| - 1] + [s[|s| - 1]]
  {
  }

  /** Appending elements one at a time appends them in order. */
  lemma AppendInTurn<T>(s: seq<T>, x: T, y: T, z: T)
    ensures s + [x] + [y] == s + [x, y]
    ensures s + [x, y] + [z] == s + [x, y, z]
  {
  }

  /** The position of the first occurrence of `x`. */
  function IndexOf(xs: seq<Id>, x: Id): (i: nat)
    requires x in xs
    ensures i < |xs| && xs[i] == x
    ensures forall j :: 0 <= j < i ==> xs[j] != x
  {
    if xs[0] == x then 0 else 1 + IndexOf(xs[1..], x)
  }

  /** `xs` without the first occurrence of `x`; unchanged when `x` is absent. */
  function Remove(xs: seq<Id>, x: Id): (r: seq<Id>)
    ensures x !in xs ==> r == xs
    ensures x in xs ==> |r| == |xs| - 1
    ensures forall y :: y in r ==> y in xs
  {
    if xs == [] then []
    else if xs[0] == x then xs[1..]
    else [xs[0]] + Remove(xs[1..], x)
  }

  /** `x` placed at position `at`, or at the end when `at` is past it. */
  function InsertAt(xs: seq<Id>, at: nat, x: Id): (r: seq<Id>)
    ensures |r| == |xs| + 1
    ensures at <= |xs| ==> r[..at] == xs[..at] && r[at] == x && r[at + 1..] == xs[at..]
    ensures at > |xs| ==> r == xs + [x]
    ensures forall y :: y in r <==> y in xs || y == x
  {
    if at <= |xs| then
      assert xs == xs[..at] + xs[at..];
      xs[..at] + [x] + xs[at..]
    else xs + [x]
  }

  /** Placing `x` at position `at` puts it between the two halves. */
  lemma InsertAtSplit(xs: seq<Id>, at: nat, x: Id)
    requires at <= |xs|
    ensures InsertAt(xs, at, x) == xs[..at] + [x] + xs[at..]
  {
    var r := InsertAt(xs, at, x);
    assert r == r[..at] + [r[at]] + r[at + 1..];
  }

  /** Removing the first occurrence cuts the sequence at that occurrence. */
  lemma {:induction false} RemoveAtIndex(xs: seq<Id>, x: Id)
    requires x in xs
    ensures Remove(xs, x) == xs[..IndexOf(xs, x)] + xs[IndexOf(xs, x) + 1..]
  {
    if xs[0] != x {
      var t := xs[1..];
      assert x in t;
      var k := IndexOf(t, x);
      RemoveAtIndex(t, x);
      assert IndexOf(xs, x) == k + 1;
      ConsCut(xs, k);
    }
  }

  /** Cutting out the element after position `k` of the tail, with the head
      put back, cuts out position `k + 1` of the whole. */
  lemma ConsCut<T>(xs: seq<T>, k: nat)
    requires k + 1 < |xs|
    ensures [xs[0]] + (xs[1..][..k] + xs[1..][k + 1..]) == xs[..k + 1] + xs[k + 2..]
  {
    assert xs[..k + 1] == [xs[0]] + xs[1..][..k];
    assert xs[k + 2..] == xs[1..][k + 1..];
  }

  /** Removing what was just appended gives back the original. */
  lemma {:induction false} RemoveAppended(xs: seq<Id>, x: Id)
    requires x !in xs
    ensures Remove(xs + [x], x) == xs
  {
    if xs != [] {
      assert (xs + [x])[1..] == xs[1..] + [x];
      RemoveAppended(xs[1..], x);
    }
  }

  /** Removal keeps a duplicate-free sequence duplicate-free and drops
      exactly `x`. */
  lemma DistinctRemove(xs: seq<Id>, x: Id)
    requires Distinct(xs)
    ensures Distinct(Remove(xs, x))
    ensures forall y :: y in Remove(xs, x) <==> y in xs && y != x
  {
    if x in xs {
      RemoveAtIndex(xs, x);
      DistinctCut(xs, IndexOf(xs, x));
    }
  }

  /** Cutting one position out of a duplicate-free sequence keeps it
      duplicate-free and drops exactly the element that stood there. */
  lemma DistinctCut(xs: seq<Id>, i: nat)
    requires Distinct(xs) && i < |xs|
    ensures Distinct(xs[..i] + xs[i + 1..])
    ensures forall y :: y in xs[..i] + xs[i + 1..] <==> y in xs && y != xs[i]
  {
    var r := xs[..i] + xs[i + 1..];
    assert forall k :: 0 <= k < i ==> r[k] == xs[k];
    assert forall k :: i <= k < |r| ==> r[k] == xs[k + 1];
    forall y
      ensures y in r <==> y in xs && y != xs[i]
    {
      if y in xs && y != xs[i] {
        var k :| 0 <= k < |xs| && xs[k] == y;
        if k < i { assert r[k] == y; } else { assert r[k - 1] == y; }
      }
    }
  }

  /** Re-inserting a removed element at its old position restores the list. */
  lemma InsertRemoved(xs: seq<Id>, at: nat, x: Id)
    requires Distinct(xs) && at < |xs| && xs[at] == x
    ensures InsertAt(Remove(xs, x), at, x) == xs
  {
    assert IndexOf(xs, x) == at;
    RemoveAtIndex(xs, x);
    var r := Remove(xs, x);
    assert r == xs[..at] + xs[at + 1..];
    assert r[..at] == xs[..at];
    assert r[at..] == xs[at + 1..];
    assert xs == xs[..at] + [x] + xs[at + 1..];
  }

  /** Removing an element inserted into a list that lacked it restores the list. */
  lemma RemoveInserted(xs: seq<Id>, at: nat, x: Id)
    requires x !in xs && at <= |xs|
    ensures Remove(InsertAt(xs, at, x), x) == xs
  {
    var r := InsertAt(xs, at, x);
    assert r == xs[..at] + [x] + xs[at..];
    assert forall j :: 0 <= j < at ==> r[j] == xs[j];
    assert IndexOf(r, x) == at;
    RemoveAtIndex(r, x);
    assert r[at + 1..] == xs[at..];
    assert xs == xs[..at] + xs[at..];
  }

  /** The elements of `xs` that are not in `ys`, in their order in `xs`. */
  function Without(xs: seq<Id>, ys: seq<Id>): (r: seq<Id>)
    ensures |r| <= |xs|
  {
    if xs == [] then []
    else (if xs[0] in ys then [] else [xs[0]]) + Without(xs[1..], ys)
  }

  /** The filter keeps exactly the elements of `xs` outside `ys`. */
  lemma {:induction false} WithoutMembers(xs: seq<Id>, ys: seq<Id>)
    ensures forall y :: y in Without(xs, ys) <==> y in xs && y !in ys
  {
    if xs != [] {
      WithoutMembers(xs[1..], ys);
      assert xs == [xs[0]] + xs[1..];
    }
  }

  /** Filtering out nothing keeps the whole list. */
  lemma {:induction false} WithoutNothing(xs: seq<Id>)
    ensures Without(xs, []) == xs
  {
    if xs != [] {
      WithoutNothing(xs[1..]);
    }
  }

  /** Filtering out an element the list does not hold changes nothing. */
  lemma {:induction false} WithoutAbsent(xs: seq<Id>, x: Id, ys: seq<Id>)
    requires x !in xs
    ensures Without(xs, [x] + ys) == Without(xs, ys)
  {
    if xs != [] {
      WithoutAbsent(xs[1..], x, ys);
    }
  }

  /** Removing one element of a duplicate-free list and then filtering out
      `ys` is filtering out that element and `ys` together. */
  lemma {:induction false} WithoutRemove(xs: seq<Id>, x: Id, ys: seq<Id>)
    requires Distinct(xs)
    ensures Without(Remove(xs, x), ys) == Without(xs, [x] + ys)
  {
    if xs != [] {
      assert Distinct(xs[1..]) by {
        forall i, j | 0 <= i < j < |xs[1..]|
          ensures xs[1..][i] != xs[1..][j]
        {
          assert xs[1..][i] == xs[i + 1] && xs[1..][j] == xs[j + 1];
        }
      }
      if xs[0] == x {
        assert x !in xs[1..] by {
          forall k | 0 <= k < |xs[1..]|
            ensures xs[1..][k] != x
          {
            assert xs[1..][k] == xs[k + 1];
          }
        }
        WithoutAbsent(xs[1..], x, ys);
      } else {
        var rest := Remove(xs[1..], x);
        assert ([xs[0]] + rest)[0] == xs[0] && ([xs[0]] + rest)[1..] == rest;
        WithoutRemove(xs[1..], x, ys);
      }
    }
  }

  /** Cutting out where the first of `ids` stands and then filtering out the
      rest is filtering out all of `ids`. */
  lemma WithoutCut(xs: seq<Id>, ids: seq<Id>)
    requires Distinct(xs) && ids != [] && ids[0] in xs
    ensures var i := IndexOf(xs, ids[0]);
            Without(xs[..i] + xs[i + 1..], ids[1..]) == Without(xs, ids)
  {
    var x, rest := ids[0], ids[1..];
    assert ids == [x] + rest;
    RemoveAtIndex(xs, x);
    WithoutRemove(xs, x, rest);
  }
}
