/**
 * The Python list operations the connection registry is built on:
 * `list.append`, which is plain concatenation here, and `list.remove(x)`,
 * which deletes the FIRST element equal to x and raises `ValueError` when
 * there is none.
 */
module PyList {

  /** Python `list.index(x)`: the position of the first element equal to x. */
  function IndexOf<T(==)>(s: seq<T>, x: T): (i: nat)
    requires x in s
    ensures i < |s| && s[i] == x
    ensures forall j :: 0 <= j < i ==> s[j] != x
  {
    if s[0] == x then 0
    else 1 + IndexOf(s[1..], x)
  }

  /**
   * Python `list.remove(x)` on a list that holds x (the absent case raises
   * and is handled by the caller).
   */
  function RemoveFirst<T(==)>(s: seq<T>, x: T): (r: seq<T>)
    requires x in s
    ensures |r| == |s| - 1
  {
    if s[0] == x then s[1..] else [s[0]] + RemoveFirst(s[1..], x)
  }

  /**
   * What `list.remove(x)` leaves: the elements before the first x and those
   * after it, each in their original order.
   */
  lemma {:induction false} RemoveFirstSplit<T>(s: seq<T>, x: T)
    requires x in s
    ensures RemoveFirst(s, x) == s[..IndexOf(s, x)] + s[IndexOf(s, x) + 1..]
  {
    if s[0] != x {
      var t := s[1..];
      assert s == [s[0]] + t;
      var i := IndexOf(t, x);
      assert IndexOf(s, x) == i + 1;
      var r := RemoveFirst(t, x);
      assert RemoveFirst(s, x) == [s[0]] + r;
      RemoveFirstSplit(t, x);
      ConsSplit(s[0], t, i);
    } else {
      RemoveFirstHead(s, x);
    }
  }

  lemma RemoveFirstHead<T>(s: seq<T>, x: T)
    requires s != [] && s[0] == x
    ensures RemoveFirst(s, x) == s[..IndexOf(s, x)] + s[IndexOf(s, x) + 1..]
  {
    assert s[..0] + s[1..] == s[1..];
  }

  /** Putting h in front of a list with position i cut out cuts out position i + 1 of h + the list. */
  lemma ConsSplit<T>(h: T, t: seq<T>, i: nat)
    requires i < |t|
    ensures [h] + (t[..i] + t[i + 1..]) == ([h] + t)[..i + 1] + ([h] + t)[i + 2..]
  {
    assert ([h] + t)[..i + 1] == [h] + t[..i];
    assert ([h] + t)[i + 2..] == t[i + 1..];
  }

  /** Removing x takes exactly one copy of x out of the multiset of elements. */
  lemma {:induction false} RemoveFirstMultiset<T>(s: seq<T>, x: T)
    requires x in s
    ensures multiset(s) == multiset(RemoveFirst(s, x)) + multiset{x}
  {
    if s[0] == x {
      assert s == [x] + s[1..];
    } else {
      var t := s[1..];
      assert s == [s[0]] + t;
      RemoveFirstMultiset(t, x);
      assert RemoveFirst(s, x) == [s[0]] + RemoveFirst(t, x);
    }
  }

  /**
   * Appending x and then removing x gives back the original list when x was
   * not in it. When x was already there, the earlier copy is the one
   * removed, so the new copy ends up last instead.
   */
  lemma {:induction false} RemoveAfterAppend<T>(s: seq<T>, x: T)
    ensures x !in s ==> RemoveFirst(s + [x], x) == s
    ensures x in s ==> RemoveFirst(s + [x], x) == RemoveFirst(s, x) + [x]
  {
    if s == [] {
      assert [] + [x] == [x];
    } else {
      var t := s[1..];
      assert (s + [x])[0] == s[0];
      assert (s + [x])[1..] == t + [x];
      if s[0] != x {
        RemoveAfterAppend(t, x);
        assert x in s <==> x in t by {
          assert s == [s[0]] + t;
        }
        if x !in s {
          assert s == [s[0]] + t;
        }
      }
    }
  }

  /** Appending x and then removing x always restores the multiset of elements. */
  lemma RemoveAfterAppendMultiset<T>(s: seq<T>, x: T)
    ensures multiset(RemoveFirst(s + [x], x)) == multiset(s)
  {
    RemoveAfterAppend(s, x);
    if x in s {
      RemoveFirstMultiset(s, x);
    }
  }

  /** Appending three lists does not depend on the grouping. */
  lemma AppendAssociative<T>(a: seq<T>, b: seq<T>, c: seq<T>)
    ensures (a + b) + c == a + (b + c)
  {
  }
}
