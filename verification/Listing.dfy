/** ORDER BY on the pairs (rank, id): the one enumeration of a finite set in strictly descending order. */
module Listing {

  type Key = (int, int)

  /** a comes before b in the listing. */
  predicate Before(a: Key, b: Key) {
    a.0 > b.0 || (a.0 == b.0 && a.1 > b.1)
  }

  ghost predicate StrictlyDescending(keys: seq<Key>) {
    forall i, j :: 0 <= i < j < |keys| ==> Before(keys[i], keys[j])
  }

  function Elements(keys: seq<Key>): set<Key> {
    set k | k in keys
  }

  /** `keys` is an enumeration of `all`, without repetition, in listing order. */
  ghost predicate Lists(keys: seq<Key>, all: set<Key>) {
    StrictlyDescending(keys) && Elements(keys) == all
  }

  ghost predicate IsFirst(first: Key, all: set<Key>) {
    first in all && forall k :: k in all && k != first ==> Before(first, k)
  }

  lemma {:induction false} FirstExists(all: set<Key>)
    requires all != {}
    ensures exists first :: IsFirst(first, all)
  {
    var k :| k in all;
    if all == {k} {
      assert IsFirst(k, all);
    } else {
      FirstExists(all - {k});
      var rest :| IsFirst(rest, all - {k});
      if Before(k, rest) {
        assert forall x :: x in all && x != k && x != rest ==> Before(rest, x);
        assert IsFirst(k, all);
      } else {
        assert forall x :: x in all && x != k ==> x in all - {k};
        assert IsFirst(rest, all);
      }
    }
  }

  ghost function First(all: set<Key>): (first: Key)
    requires all != {}
    ensures IsFirst(first, all)
  {
    FirstExists(all);
    var first :| IsFirst(first, all);
    first
  }

  ghost function Descending(all: set<Key>): (keys: seq<Key>)
    ensures Lists(keys, all)
  {
    if all == {} then
      []
    else
      var first := First(all);
      var rest := Descending(all - {first});
      assert Elements([first] + rest) == {first} + Elements(rest);
      [first] + rest
  }

  /** There is only one listing. */
  lemma {:induction false} ListingIsUnique(a: seq<Key>, b: seq<Key>)
    requires StrictlyDescending(a) && StrictlyDescending(b)
    requires Elements(a) == Elements(b)
    ensures a == b
  {
    assert a != [] ==> a[0] in Elements(a);
    assert b != [] ==> b[0] in Elements(b);
    if a != [] && b != [] {
      assert a[0] in Elements(b) && b[0] in Elements(a);
      assert a[0] == b[0];
      RestOf(a);
      RestOf(b);
      ListingIsUnique(a[1..], b[1..]);
      assert a == [a[0]] + a[1..] && b == [b[0]] + b[1..];
    }
  }

  lemma RestOf(a: seq<Key>)
    requires a != [] && StrictlyDescending(a)
    ensures StrictlyDescending(a[1..]) && Elements(a[1..]) == Elements(a) - {a[0]}
  {
  }
}
