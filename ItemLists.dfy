/** The two list operations a chat's filter lists are edited with, Python's
    `list.append` (sequence concatenation) and `list.remove`, and the
    duplicate-freedom that the add and delete commands keep. */
module ItemLists {

  /** No value occurs twice in `xs`. */
  ghost predicate NoDup<T>(xs: seq<T>)
  {
    forall i, j :: 0 <= i < j < |xs| ==> xs[i] != xs[j]
  }

  /** `xs.index(x)`: the position of the first occurrence of `x`. */
  function IndexOf<T(==)>(xs: seq<T>, x: T): (i: nat)
    requires x in xs
    ensures i < |xs| && xs[i] == x && x !in xs[..i]
  {
    if xs[0] == x then 0 else 1 + IndexOf(xs[1..], x)
  }

  /** `xs.remove(x)`: drops the first occurrence of `x`. Python raises
      `ValueError` when `x` is absent; the bot only calls it on a member. */
  function RemoveFirst<T(==)>(xs: seq<T>, x: T): (r: seq<T>)
    requires x in xs
  {
    if xs[0] == x then xs[1..] else [xs[0]] + RemoveFirst(xs[1..], x)
  }

  /** Removal deletes exactly the first occurrence and keeps the order of the rest. */
  lemma {:induction false} RemoveFirstAt<T>(xs: seq<T>, x: T)
    requires x in xs
    ensures RemoveFirst(xs, x) == xs[..IndexOf(xs, x)] + xs[IndexOf(xs, x) + 1..]
  {
    if xs[0] != x {
      RemoveFirstAt(xs[1..], x);
      var k := IndexOf(xs[1..], x);
      assert xs[1..][..k] == xs[1..k + 1];
      assert xs[1..][k + 1..] == xs[k + 2..];
      assert [xs[0]] + xs[1..k + 1] == xs[..k + 1];
    }
  }

  /** Removal takes away one copy of `x` and nothing else. */
  lemma {:induction false} RemoveFirstMultiset<T>(xs: seq<T>, x: T)
    requires x in xs
    ensures multiset(RemoveFirst(xs, x)) == multiset(xs) - multiset{x}
  {
    if xs[0] == x {
      assert xs == [x] + xs[1..];
    } else {
      RemoveFirstMultiset(xs[1..], x);
      assert xs == [xs[0]] + xs[1..];
    }
  }

  /** Removing an item just appended to a list that did not hold it gives the list back. */
  lemma {:induction false} RemoveAppended<T>(xs: seq<T>, x: T)
    requires x !in xs
    ensures x in xs + [x] && RemoveFirst(xs + [x], x) == xs
  {
    if xs != [] {
      assert (xs + [x])[1..] == xs[1..] + [x];
      RemoveAppended(xs[1..], x);
    }
  }

  /** Appending a value the list does not hold keeps it duplicate-free. */
  lemma AppendKeepsNoDup<T>(xs: seq<T>, x: T)
    requires NoDup(xs) && x !in xs
    ensures NoDup(xs + [x])
  {
  }

  /** Appending a value the list already holds would create a duplicate: the
      reason the add command reports "duplicate" instead. */
  lemma AppendPresentDuplicates<T>(xs: seq<T>, x: T)
    requires x in xs
    ensures !NoDup(xs + [x])
  {
    var i :| 0 <= i < |xs| && xs[i] == x;
    assert (xs + [x])[i] == (xs + [x])[|xs|];
  }

  /** Removing from a duplicate-free list keeps it duplicate-free and leaves no
      copy of the removed value behind. */
  lemma RemoveKeepsNoDup<T>(xs: seq<T>, x: T)
    requires NoDup(xs) && x in xs
    ensures NoDup(RemoveFirst(xs, x)) && x !in RemoveFirst(xs, x)
  {
    RemoveFirstAt(xs, x);
    var k := IndexOf(xs, x);
    var r := RemoveFirst(xs, x);
    assert forall i :: 0 <= i < |r| ==> r[i] == (if i < k then xs[i] else xs[i + 1]);
  }
}
