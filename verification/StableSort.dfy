/** Stands for the library's stable sort, by descending time. */
module StableSort {

  ghost predicate NewestFirst<T>(s: seq<T>, time: T -> int) {
    forall i, j :: 0 <= i < j < |s| ==> time(s[i]) >= time(s[j])
  }

  /** The elements of one moment, in order. */
  function Of<T>(s: seq<T>, time: T -> int, t: int): seq<T> {
    if s == [] then []
    else
      var n := |s| - 1;
      Of(s[..n], time, t) + if time(s[n]) == t then [s[n]] else []
  }

  /** An element goes behind everything at least as new. */
  function Insert<T>(s: seq<T>, time: T -> int, x: T): seq<T> {
    if s == [] || time(s[|s| - 1]) >= time(x) then s + [x]
    else Insert(s[..|s| - 1], time, x) + [s[|s| - 1]]
  }

  function Sorted<T>(s: seq<T>, time: T -> int): seq<T> {
    if s == [] then [] else Insert(Sorted(s[..|s| - 1], time), time, s[|s| - 1])
  }

  lemma {:induction false} InsertAdds<T>(s: seq<T>, time: T -> int, x: T)
    ensures multiset(Insert(s, time, x)) == multiset(s) + multiset{x}
  {
    if s != [] && time(s[|s| - 1]) < time(x) {
      var n := |s| - 1;
      InsertAdds(s[..n], time, x);
      assert s == s[..n] + [s[n]];
    }
  }

  lemma InsertBounded<T>(s: seq<T>, time: T -> int, x: T, t: int)
    requires time(x) >= t && forall i :: 0 <= i < |s| ==> time(s[i]) >= t
    requires multiset(Insert(s, time, x)) == multiset(s) + multiset{x}
    ensures forall i :: 0 <= i < |Insert(s, time, x)| ==> time(Insert(s, time, x)[i]) >= t
  {
    var all := Insert(s, time, x);
    forall i | 0 <= i < |all|
      ensures time(all[i]) >= t
    {
      assert all[i] in multiset(all);
      assert all[i] in s || all[i] == x;
    }
  }

  lemma {:induction false} InsertSorts<T>(s: seq<T>, time: T -> int, x: T)
    requires NewestFirst(s, time)
    ensures NewestFirst(Insert(s, time, x), time)
  {
    if s != [] && time(s[|s| - 1]) < time(x) {
      var n := |s| - 1;
      InsertSorts(s[..n], time, x);
      InsertAdds(s[..n], time, x);
      InsertBounded(s[..n], time, x, time(s[n]));
    }
  }

  lemma OfOneMore<T>(s: seq<T>, time: T -> int, x: T, t: int)
    ensures Of(s + [x], time, t) == Of(s, time, t) + if time(x) == t then [x] else []
  {
    assert (s + [x])[..|s|] == s;
  }

  lemma {:induction false} InsertIsStable<T>(s: seq<T>, time: T -> int, x: T, t: int)
    ensures Of(Insert(s, time, x), time, t) == Of(s, time, t) + if time(x) == t then [x] else []
  {
    if s == [] || time(s[|s| - 1]) >= time(x) {
      OfOneMore(s, time, x, t);
    } else {
      var n := |s| - 1;
      assert s == s[..n] + [s[n]];
      InsertIsStable(s[..n], time, x, t);
      OfOneMore(Insert(s[..n], time, x), time, s[n], t);
      OfOneMore(s[..n], time, s[n], t);
    }
  }

  /** Newest first, nothing lost or added, and elements of the same moment stay in the order they came. */
  lemma {:induction false} SortedIsStable<T>(s: seq<T>, time: T -> int)
    ensures NewestFirst(Sorted(s, time), time) && multiset(Sorted(s, time)) == multiset(s)
    ensures forall t :: Of(Sorted(s, time), time, t) == Of(s, time, t)
  {
    hide Insert, NewestFirst;
    if s == [] {
      NothingToSort<T>(time);
    } else {
      var n := |s| - 1;
      var init, sorted := s[..n], Sorted(s[..n], time);
      SortedIsStable(init, time);
      InsertAdds(sorted, time, s[n]);
      InsertSorts(sorted, time, s[n]);
      assert s == init + [s[n]];
      forall t
        ensures Of(Sorted(s, time), time, t) == Of(s, time, t)
      {
        InsertIsStable(sorted, time, s[n], t);
        OfOneMore(init, time, s[n], t);
      }
    }
  }

  lemma NothingToSort<T>(time: T -> int)
    ensures NewestFirst<T>([], time)
  {
  }
}
