/** The saved slot order and how it is applied to what a device lists. */
module SlotOrder {
  import opened Wrappers

  /** The last item with this GUID: the one the look-up table ends up with. */
  function LastWith<T>(items: seq<T>, guidOf: T -> string, g: string): Option<T> {
    if items == [] then None
    else
      var n := |items| - 1;
      if guidOf(items[n]) == g then Some(items[n]) else LastWith(items[..n], guidOf, g)
  }

  /** The listed items, in the order of the list, once for every mention. */
  function Hits<T>(order: seq<string>, items: seq<T>, guidOf: T -> string): seq<T> {
    if order == [] then []
    else
      var n := |order| - 1;
      match LastWith(items, guidOf, order[n])
      case Some(v) => Hits(order[..n], items, guidOf) + [v]
      case None => Hits(order[..n], items, guidOf)
  }

  /** The items the list does not mention, as they came. */
  function Rest<T>(order: seq<string>, items: seq<T>, guidOf: T -> string): seq<T> {
    if items == [] then []
    else
      var n := |items| - 1;
      Rest(order, items[..n], guidOf) + if guidOf(items[n]) in order then [] else [items[n]]
  }

  function Arranged<T>(order: seq<string>, items: seq<T>, guidOf: T -> string): seq<T> {
    Hits(order, items, guidOf) + Rest(order, items, guidOf)
  }

  /** The look-up table agrees with the items. */
  ghost predicate Table<T>(byGuid: map<string, T>, items: seq<T>, guidOf: T -> string) {
    forall g :: LastWith(items, guidOf, g) == if g in byGuid then Some(byGuid[g]) else None
  }

  method Reorder<T>(order: seq<string>, items: seq<T>, guidOf: T -> string) returns (out: seq<T>)
    ensures out == Arranged(order, items, guidOf)
  {
    hide LastWith, Hits, Rest, Table;
    NoneYet(order, items, guidOf);
    assert items[..0] == [] && order[..0] == [];
    if |order| == 0 || |items| == 0 {
      EmptyCases(order, items, guidOf);
      return items;
    }
    var byGuid: map<string, T> := map[];
    for k := 0 to |items|
      invariant Table(byGuid, items[..k], guidOf)
    {
      TableOneMore(byGuid, items, guidOf, k);
      byGuid := byGuid[guidOf(items[k]) := items[k]];
    }
    assert items[..|items|] == items;
    out := [];
    var used: set<string> := {};
    for k := 0 to |order|
      invariant out == Hits(order[..k], items, guidOf)
      invariant used == set g | g in order[..k] && LastWith(items, guidOf, g).Some?
    {
      HitsOneMore(order, items, guidOf, k);
      TableEntry(byGuid, items, guidOf, order[k]);
      if order[k] in byGuid {
        out := out + [byGuid[order[k]]];
        used := used + {order[k]};
      }
    }
    assert order[..|order|] == order;
    for k := 0 to |items|
      invariant out == Hits(order, items, guidOf) + Rest(order, items[..k], guidOf)
    {
      LastWithFinds(items, guidOf, guidOf(items[k]));
      assert Guids(items, guidOf)[k] == guidOf(items[k]);
      RestOneMore(order, items, guidOf, k);
      if guidOf(items[k]) !in used {
        out := out + [items[k]];
      }
    }
  }

  lemma NoneYet<T>(order: seq<string>, items: seq<T>, guidOf: T -> string)
    ensures Table(map[], items[..0], guidOf)
    ensures Hits(order[..0], items, guidOf) == [] && Rest(order, items[..0], guidOf) == []
  {
  }

  lemma TableOneMore<T>(byGuid: map<string, T>, items: seq<T>, guidOf: T -> string, k: nat)
    requires k < |items| && Table(byGuid, items[..k], guidOf)
    ensures Table(byGuid[guidOf(items[k]) := items[k]], items[..k + 1], guidOf)
  {
    assert items[..k + 1][..k] == items[..k];
  }

  lemma TableEntry<T>(byGuid: map<string, T>, items: seq<T>, guidOf: T -> string, g: string)
    requires Table(byGuid, items, guidOf)
    ensures LastWith(items, guidOf, g) == if g in byGuid then Some(byGuid[g]) else None
  {
    hide LastWith;
  }

  lemma HitsOneMore<T>(order: seq<string>, items: seq<T>, guidOf: T -> string, k: nat)
    requires k < |order|
    ensures var v := LastWith(items, guidOf, order[k]);
            Hits(order[..k + 1], items, guidOf) ==
              if v.Some? then Hits(order[..k], items, guidOf) + [v.value] else Hits(order[..k], items, guidOf)
  {
    assert order[..k + 1][..k] == order[..k];
  }

  lemma RestOneMore<T>(order: seq<string>, items: seq<T>, guidOf: T -> string, k: nat)
    requires k < |items|
    ensures Rest(order, items[..k + 1], guidOf) ==
              if guidOf(items[k]) in order then Rest(order, items[..k], guidOf)
              else Rest(order, items[..k], guidOf) + [items[k]]
  {
    assert items[..k + 1][..k] == items[..k];
  }

  lemma {:induction false} EmptyCases<T>(order: seq<string>, items: seq<T>, guidOf: T -> string)
    requires order == [] || items == []
    ensures Arranged(order, items, guidOf) == items
  {
    if items != [] {
      var n := |items| - 1;
      EmptyCases(order, items[..n], guidOf);
      assert items == items[..n] + [items[n]];
    } else if order != [] {
      EmptyCases(order[..|order| - 1], items, guidOf);
    }
  }

  /** The GUIDs of some items, in order. */
  function Guids<T>(items: seq<T>, guidOf: T -> string): seq<string> {
    seq(|items|, k requires 0 <= k < |items| => guidOf(items[k]))
  }

  lemma {:induction false} LastWithFinds<T>(items: seq<T>, guidOf: T -> string, g: string)
    ensures LastWith(items, guidOf, g).Some? <==> g in Guids(items, guidOf)
    ensures LastWith(items, guidOf, g).Some? ==>
              guidOf(LastWith(items, guidOf, g).value) == g && LastWith(items, guidOf, g).value in items
  {
    if items != [] {
      var n := |items| - 1;
      LastWithFinds(items[..n], guidOf, g);
      assert Guids(items, guidOf) == Guids(items[..n], guidOf) + [guidOf(items[n])];
    }
  }

  /** The mentions of GUIDs that exist. */
  function Present(order: seq<string>, have: seq<string>): seq<string> {
    if order == [] then []
    else
      var n := |order| - 1;
      Present(order[..n], have) + if order[n] in have then [order[n]] else []
  }

  /** The listed items come first and in the list's order; absent ones are dropped. */
  lemma {:induction false} ListedFirst<T>(order: seq<string>, items: seq<T>, guidOf: T -> string)
    ensures Guids(Hits(order, items, guidOf), guidOf) == Present(order, Guids(items, guidOf))
    ensures forall v :: v in Hits(order, items, guidOf) ==> v in items && guidOf(v) in order
  {
    if order != [] {
      var n := |order| - 1;
      ListedFirst(order[..n], items, guidOf);
      LastWithFinds(items, guidOf, order[n]);
    }
  }

  lemma {:induction false} RestUnlisted<T>(order: seq<string>, items: seq<T>, guidOf: T -> string)
    ensures forall v :: v in Rest(order, items, guidOf) ==> v in items && guidOf(v) !in order
    ensures forall v :: v in items && guidOf(v) !in order ==> v in Rest(order, items, guidOf)
  {
    if items != [] {
      var n := |items| - 1;
      RestUnlisted(order, items[..n], guidOf);
      assert items == items[..n] + [items[n]];
    }
  }

  // ---- Applying the order twice -----------------------------------------------------------

  lemma {:induction false} LastWithConcat<T>(a: seq<T>, b: seq<T>, guidOf: T -> string, g: string)
    ensures LastWith(a + b, guidOf, g) ==
              if LastWith(b, guidOf, g).Some? then LastWith(b, guidOf, g) else LastWith(a, guidOf, g)
  {
    if b == [] {
      assert a + b == a;
    } else {
      var n := |b| - 1;
      assert (a + b)[..|a| + n] == a + b[..n];
      LastWithConcat(a, b[..n], guidOf, g);
    }
  }

  lemma {:induction false} RestConcat<T>(order: seq<string>, a: seq<T>, b: seq<T>, guidOf: T -> string)
    ensures Rest(order, a + b, guidOf) == Rest(order, a, guidOf) + Rest(order, b, guidOf)
  {
    if b == [] {
      assert a + b == a;
    } else {
      var n := |b| - 1;
      assert (a + b)[..|a| + n] == a + b[..n];
      RestConcat(order, a, b[..n], guidOf);
    }
  }

  lemma {:induction false} RestSettled<T>(order: seq<string>, items: seq<T>, guidOf: T -> string)
    requires forall v :: v in items ==> guidOf(v) !in order
    ensures Rest(order, items, guidOf) == items
  {
    if items != [] {
      var n := |items| - 1;
      RestSettled(order, items[..n], guidOf);
      assert items[n] in items && items == items[..n] + [items[n]];
    }
  }

  lemma {:induction false} RestOfListed<T>(order: seq<string>, items: seq<T>, guidOf: T -> string)
    requires forall v :: v in items ==> guidOf(v) in order
    ensures Rest(order, items, guidOf) == []
  {
    if items != [] {
      var n := |items| - 1;
      RestOfListed(order, items[..n], guidOf);
      assert items[n] in items;
    }
  }

  /** Among the listed items, looking one up gives what looking it up among all items gives. */
  lemma {:induction false} LastWithHits<T>(order: seq<string>, items: seq<T>, guidOf: T -> string, g: string)
    ensures LastWith(Hits(order, items, guidOf), guidOf, g) ==
              if g in order then LastWith(items, guidOf, g) else None
  {
    if order != [] {
      var n := |order| - 1;
      var init := order[..n];
      assert order == init + [order[n]];
      LastWithHits(init, items, guidOf, g);
      LastWithFinds(items, guidOf, order[n]);
      var hits := Hits(init, items, guidOf);
      var v := LastWith(items, guidOf, order[n]);
      if v.Some? {
        assert (hits + [v.value])[..|hits|] == hits;
      }
    }
  }

  lemma {:induction false} HitsAgree<T>(order: seq<string>, a: seq<T>, b: seq<T>, guidOf: T -> string)
    requires forall g :: g in order ==> LastWith(a, guidOf, g) == LastWith(b, guidOf, g)
    ensures Hits(order, a, guidOf) == Hits(order, b, guidOf)
  {
    if order != [] {
      HitsAgree(order[..|order| - 1], a, b, guidOf);
    }
  }

  /** Applying the order again changes nothing, whatever the order and the items repeat. */
  lemma Idempotent<T>(order: seq<string>, items: seq<T>, guidOf: T -> string)
    ensures Arranged(order, Arranged(order, items, guidOf), guidOf) == Arranged(order, items, guidOf)
  {
    hide Hits, Rest, LastWith;
    var hits, rest := Hits(order, items, guidOf), Rest(order, items, guidOf);
    ListedFirst(order, items, guidOf);
    RestUnlisted(order, items, guidOf);
    RestConcat(order, hits, rest, guidOf);
    RestOfListed(order, hits, guidOf);
    RestSettled(order, rest, guidOf);
    assert [] + rest == rest;
    forall g | g in order
      ensures LastWith(hits + rest, guidOf, g) == LastWith(items, guidOf, g)
    {
      LastWithConcat(hits, rest, guidOf, g);
      LastWithFinds(rest, guidOf, g);
      LastWithHits(order, items, guidOf, g);
    }
    HitsAgree(order, hits + rest, items, guidOf);
  }

  // ---- Nothing lost, nothing doubled ------------------------------------------------------

  predicate Distinct<T(==)>(s: seq<T>) {
    forall i, j :: 0 <= i < j < |s| ==> s[i] != s[j]
  }

  /** The repeats in a list: what is left after taking every entry once. */
  function Repeats(s: seq<string>): seq<string> {
    if s == [] then []
    else
      var n := |s| - 1;
      Repeats(s[..n]) + if s[n] in s[..n] then [s[n]] else []
  }

  function Members(s: seq<string>): set<string> {
    set g | g in s
  }

  lemma MembersOneMore(s: seq<string>, g: string)
    ensures multiset(Members(s + [g])) == multiset(Members(s)) + if g in s then multiset{} else multiset{g}
  {
    assert Members(s + [g]) == Members(s) + {g};
    if g in s {
      assert Members(s + [g]) == Members(s);
    }
  }

  lemma {:induction false} RepeatsLeftOver(s: seq<string>)
    ensures multiset(s) == multiset(Members(s)) + multiset(Repeats(s))
    decreases |s|
  {
    hide Members;
    if s == [] {
      assert multiset(Members(s)) == multiset{} by { NoMembers(); }
    } else {
      var n := |s| - 1;
      var init := s[..n];
      RepeatsLeftOver(init);
      assert s == init + [s[n]];
      MembersOneMore(init, s[n]);
    }
  }

  lemma NoMembers()
    ensures Members([]) == {}
  {
  }

  lemma {:induction false} NoRepeats(s: seq<string>)
    ensures Repeats(s) == [] <==> Distinct(s)
  {
    hide Distinct;
    if s == [] {
      assert Distinct(s) by { NoneRepeats(); }
    } else {
      var n := |s| - 1;
      NoRepeats(s[..n]);
      DistinctLast(s);
    }
  }

  lemma NoneRepeats()
    ensures Distinct<string>([])
  {
  }

  lemma DistinctLast(s: seq<string>)
    requires s != []
    ensures var n := |s| - 1; Distinct(s) <==> Distinct(s[..n]) && s[n] !in s[..n]
  {
    var n := |s| - 1;
    var init := s[..n];
    assert forall i :: 0 <= i < n ==> init[i] == s[i];
  }

  lemma {:induction false} RestLeftOver<T>(order: seq<string>, items: seq<T>, guidOf: T -> string)
    requires Distinct(Guids(items, guidOf))
    ensures multiset(Guids(items, guidOf)) ==
              multiset(Guids(Rest(order, items, guidOf), guidOf)) + multiset(Shared(order, Guids(items, guidOf)))
  {
    hide Shared;
    if items == [] {
      NoneShared(order);
      assert Guids(items, guidOf) == [] && Guids(Rest(order, items, guidOf), guidOf) == [];
    } else {
      var n := |items| - 1;
      var init, g := items[..n], guidOf(items[n]);
      var before := Guids(init, guidOf);
      GuidsOneMore(init, items[n], guidOf);
      assert items == init + [items[n]];
      DistinctInit(before, g);
      RestLeftOver(order, init, guidOf);
      SharedOneMore(order, before, g);
      GuidsOneMore(Rest(order, init, guidOf), items[n], guidOf);
      var rest := Rest(order, init, guidOf);
      assert Rest(order, items, guidOf) == if g in order then rest else rest + [items[n]];
    }
  }

  lemma DistinctInit(s: seq<string>, g: string)
    requires Distinct(s + [g])
    ensures Distinct(s) && g !in s
  {
    var all := s + [g];
    assert forall k :: 0 <= k < |s| ==> all[k] == s[k];
    assert all[|s|] == g;
  }

  lemma NoneShared(order: seq<string>)
    ensures Shared(order, []) == {}
  {
  }

  function Shared(order: seq<string>, have: seq<string>): set<string> {
    set g | g in order && g in have
  }

  lemma SharedOneMore(order: seq<string>, have: seq<string>, g: string)
    requires g !in have
    ensures multiset(Shared(order, have + [g])) ==
              multiset(Shared(order, have)) + if g in order then multiset{g} else multiset{}
  {
    assert Shared(order, have + [g]) == Shared(order, have) + if g in order then {g} else {};
  }

  lemma GuidsOneMore<T>(items: seq<T>, v: T, guidOf: T -> string)
    ensures Guids(items + [v], guidOf) == Guids(items, guidOf) + [guidOf(v)]
  {
  }

  lemma GuidsConcat<T>(a: seq<T>, b: seq<T>, guidOf: T -> string)
    ensures Guids(a + b, guidOf) == Guids(a, guidOf) + Guids(b, guidOf)
  {
  }

  lemma {:induction false} PresentMembers(order: seq<string>, have: seq<string>)
    ensures Members(Present(order, have)) == Shared(order, have)
  {
    if order != [] {
      var n := |order| - 1;
      PresentMembers(order[..n], have);
      assert order == order[..n] + [order[n]];
      assert Shared(order, have) == Shared(order[..n], have) + if order[n] in have then {order[n]} else {};
      assert forall g :: g in Present(order, have) <==>
                           g in Present(order[..n], have) || (g == order[n] && g in have);
    }
  }

  lemma {:induction false} CountByGuid<T>(items: seq<T>, some: seq<T>, guidOf: T -> string, v: T)
    requires Distinct(Guids(items, guidOf)) && v in items && forall x :: x in some ==> x in items
    ensures multiset(some)[v] == multiset(Guids(some, guidOf))[guidOf(v)]
  {
    if some != [] {
      var n := |some| - 1;
      CountByGuid(items, some[..n], guidOf, v);
      assert some == some[..n] + [some[n]];
      GuidsOneMore(some[..n], some[n], guidOf);
      SameGuid(items, guidOf, some[n], v);
    }
  }

  lemma SameGuid<T>(items: seq<T>, guidOf: T -> string, a: T, b: T)
    requires Distinct(Guids(items, guidOf)) && a in items && b in items
    ensures guidOf(a) == guidOf(b) <==> a == b
  {
    var i, j :| 0 <= i < |items| && 0 <= j < |items| && items[i] == a && items[j] == b;
    assert Guids(items, guidOf)[i] == guidOf(a) && Guids(items, guidOf)[j] == guidOf(b);
  }

  /** The output's GUIDs: the input's, and once more for every repeated mention of one that exists. */
  lemma GrowsByRepeats<T>(order: seq<string>, items: seq<T>, guidOf: T -> string)
    requires Distinct(Guids(items, guidOf))
    ensures var repeats := Repeats(Present(order, Guids(items, guidOf)));
            && multiset(Guids(Arranged(order, items, guidOf), guidOf))
                 == multiset(Guids(items, guidOf)) + multiset(repeats)
            && |Arranged(order, items, guidOf)| == |items| + |repeats|
  {
    hide Hits, Rest, Present, Repeats, Distinct, Shared;
    var hits, rest, have := Hits(order, items, guidOf), Rest(order, items, guidOf), Guids(items, guidOf);
    var present := Present(order, have);
    GuidsConcat(hits, rest, guidOf);
    ListedFirst(order, items, guidOf);
    RepeatsLeftOver(present);
    PresentMembers(order, have);
    RestLeftOver(order, items, guidOf);
    var out := Guids(hits + rest, guidOf);
    SameSize(out, have, Repeats(present));
  }

  lemma SameSize(out: seq<string>, a: seq<string>, b: seq<string>)
    requires multiset(out) == multiset(a) + multiset(b)
    ensures |out| == |a| + |b|
  {
    assert |multiset(out)| == |out|;
  }

  /**
   With distinct GUIDs on the device, the output is a rearrangement of the items exactly when no GUID that
   exists is listed twice.
   */
  lemma PermutationIffNoRepeats<T>(order: seq<string>, items: seq<T>, guidOf: T -> string)
    requires Distinct(Guids(items, guidOf))
    ensures multiset(Arranged(order, items, guidOf)) == multiset(items)
              <==> Distinct(Present(order, Guids(items, guidOf)))
  {
    hide Hits, Rest, Present, Repeats, Distinct;
    var out, have := Arranged(order, items, guidOf), Guids(items, guidOf);
    GrowsByRepeats(order, items, guidOf);
    NoRepeats(Present(order, have));
    ListedFirst(order, items, guidOf);
    RestUnlisted(order, items, guidOf);
    assert |multiset(out)| == |out| && |multiset(items)| == |items|;
    assert forall v :: v in out ==> v in items;
    if Repeats(Present(order, have)) == [] {
      assert multiset(Guids(out, guidOf)) == multiset(have);
      forall v
        ensures multiset(out)[v] == multiset(items)[v]
      {
        if v in items {
          CountByGuid(items, out, guidOf, v);
          CountByGuid(items, items, guidOf, v);
        } else {
          assert v !in out;
        }
      }
    }
  }

  /** A saved order that lists a slot twice: it is shown twice. */
  lemma ListedTwice()
    ensures Arranged(["a", "a"], ["a", "b"], (g: string) => g) == ["a", "a", "b"]
  {
    var guidOf := (g: string) => g;
    assert ["a", "b"][..1] == ["a"] && ["a"][..0] == [] && ["a", "a"][..1] == ["a"];
    assert LastWith(["a", "b"], guidOf, "a") == Some("a");
  }

  /** Among items of one GUID, the last counts. */
  lemma {:induction false} LastCounts<T>(items: seq<T>, guidOf: T -> string, k: nat)
    requires k < |items| && forall j :: k < j < |items| ==> guidOf(items[j]) != guidOf(items[k])
    ensures LastWith(items, guidOf, guidOf(items[k])) == Some(items[k])
  {
    var n := |items| - 1;
    if k < n {
      LastCounts(items[..n], guidOf, k);
    }
  }
}
