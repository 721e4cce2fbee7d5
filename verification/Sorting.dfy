/** Ordering a sequence by a numeric key, and when the arrival order does not matter. */
module Sorting {
  import Seqs

  function Insert<T>(key: T -> nat, x: T, s: seq<T>): seq<T> {
    if s == [] || key(x) <= key(s[0]) then [x] + s else [s[0]] + Insert(key, x, s[1..])
  }

  function Sort<T>(key: T -> nat, s: seq<T>): seq<T> {
    if s == [] then [] else Insert(key, s[0], Sort(key, s[1..]))
  }

  ghost predicate Sorted<T>(key: T -> nat, s: seq<T>) {
    forall i, j :: 0 <= i < j < |s| ==> key(s[i]) <= key(s[j])
  }

  ghost predicate StrictlySorted<T>(key: T -> nat, s: seq<T>) {
    forall i, j :: 0 <= i < j < |s| ==> key(s[i]) < key(s[j])
  }

  lemma {:induction false} InsertSorts<T>(key: T -> nat, x: T, s: seq<T>)
    requires Sorted(key, s)
    ensures Sorted(key, Insert(key, x, s))
    ensures multiset(Insert(key, x, s)) == multiset{x} + multiset(s)
  {
    if s == [] || key(x) <= key(s[0]) {
      assert Insert(key, x, s) == [x] + s;
    } else {
      InsertSorts(key, x, s[1..]);
      var t := Insert(key, x, s[1..]);
      assert s == [s[0]] + s[1..];
      forall j | 0 <= j < |t| ensures key(s[0]) <= key(t[j]) {
        assert t[j] in multiset(t);
        assert t[j] == x || t[j] in s[1..];
      }
      assert multiset([s[0]] + t) == multiset{s[0]} + multiset(t);
    }
  }

  lemma {:induction false} SortSorts<T>(key: T -> nat, s: seq<T>)
    ensures Sorted(key, Sort(key, s)) && multiset(Sort(key, s)) == multiset(s) && |Sort(key, s)| == |s|
  {
    if s != [] {
      SortSorts(key, s[1..]);
      InsertSorts(key, s[0], Sort(key, s[1..]));
      assert s == [s[0]] + s[1..];
    }
    assert |multiset(Sort(key, s))| == |multiset(s)|;
  }

  lemma {:induction false} InsertFilter<T(!new)>(key: T -> nat, q: T -> bool, x: T, s: seq<T>)
    requires Sorted(key, s)
    ensures Seqs.Filter(q, Insert(key, x, s)) == if q(x) then Insert(key, x, Seqs.Filter(q, s)) else Seqs.Filter(q, s)
  {
    hide Seqs.Filter;
    if s == [] || key(x) <= key(s[0]) {
      Seqs.FilterCons(q, x, s);
      if Seqs.Filter(q, s) != [] {
        assert Seqs.Filter(q, s)[0] in s;
      }
    } else {
      var rest := Insert(key, x, s[1..]);
      assert s == [s[0]] + s[1..];
      Seqs.FilterCons(q, s[0], s[1..]);
      Seqs.FilterCons(q, s[0], rest);
      InsertFilter(key, q, x, s[1..]);
      InsertAfter(key, x, s[0], Seqs.Filter(q, s[1..]));
    }
  }

  lemma InsertAfter<T>(key: T -> nat, x: T, y: T, s: seq<T>)
    requires key(y) < key(x)
    ensures Insert(key, x, [y] + s) == [y] + Insert(key, x, s)
  {
    assert ([y] + s)[1..] == s;
  }

  // Sorting and then picking some elements is picking them and then sorting.
  lemma {:induction false} SortFilter<T(!new)>(key: T -> nat, q: T -> bool, s: seq<T>)
    ensures Seqs.Filter(q, Sort(key, s)) == Sort(key, Seqs.Filter(q, s))
  {
    if s != [] {
      SortFilter(key, q, s[1..]);
      SortSorts(key, s[1..]);
      InsertFilter(key, q, s[0], Sort(key, s[1..]));
      assert s == [s[0]] + s[1..];
      Seqs.FilterCons(q, s[0], s[1..]);
      assert ([s[0]] + Seqs.Filter(q, s[1..]))[1..] == Seqs.Filter(q, s[1..]);
    }
  }

  lemma SameHead<T>(key: T -> nat, s: seq<T>, t: seq<T>)
    requires s != [] && Sorted(key, s) && StrictlySorted(key, t) && multiset(s) == multiset(t)
    ensures t != [] && s[0] == t[0]
  {
    assert s[0] in multiset(t);
    var i :| 0 <= i < |t| && t[i] == s[0];
    assert t[0] in multiset(s);
    var j :| 0 <= j < |s| && s[j] == t[0];
    assert key(s[0]) <= key(s[j]);
  }

  lemma TailsPermute<T>(s: seq<T>, t: seq<T>)
    requires s != [] && t != [] && s[0] == t[0] && multiset(s) == multiset(t)
    ensures multiset(s[1..]) == multiset(t[1..])
  {
    assert s == [s[0]] + s[1..] && t == [t[0]] + t[1..];
    assert multiset(s[1..]) == multiset(s) - multiset{s[0]};
    assert multiset(t[1..]) == multiset(t) - multiset{t[0]};
  }

  lemma {:induction false} SortedUnique<T>(key: T -> nat, s: seq<T>, t: seq<T>)
    requires Sorted(key, s) && StrictlySorted(key, t) && multiset(s) == multiset(t)
    ensures s == t
    decreases |s|
  {
    if s == [] {
      assert |t| == |multiset(t)| == 0;
    } else {
      SameHead(key, s, t);
      TailsPermute(s, t);
      SortedUnique(key, s[1..], t[1..]);
      assert s == [s[0]] + s[1..] && t == [t[0]] + t[1..];
    }
  }

  // Whatever order the elements of t arrive in, sorting them by a key that tells them apart gives t.
  lemma SortErasesArrival<T>(key: T -> nat, arrived: seq<T>, t: seq<T>)
    requires StrictlySorted(key, t) && multiset(arrived) == multiset(t)
    ensures Sort(key, arrived) == t
  {
    SortSorts(key, arrived);
    SortedUnique(key, Sort(key, arrived), t);
  }
}
