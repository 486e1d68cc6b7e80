/** Route records and the ordered sequence of routes kept for one target.

    A target's routes are kept sorted by their `order`, stably: a route
    never overtakes an earlier route with the same order.  The functions
    here are the building blocks of the registry's `open` and `close`. */
module Routes {

  datatype Option<T> = None | Some(value: T)

  /** One source's claim on a target.  `passengers` is the payload and
      `extra` stands for `class` and every other caller-supplied field;
      both are opaque and kept verbatim. */
  datatype Route<P, M> = Route(from: string, to: string, passengers: P, order: Option<int>, extra: M)

  /** The sort key order: a route without an order sorts before every route
      that has one; defined orders compare as integers. */
  predicate OrderLe(a: Option<int>, b: Option<int>)
    ensures a.None? ==> OrderLe(a, b)
    ensures a.Some? && b.None? ==> !OrderLe(a, b)
    ensures a.Some? && b.Some? ==> (OrderLe(a, b) <==> a.value <= b.value)
  {
    match a
    case None => true
    case Some(x) => b.Some? && x <= b.value
  }

  /** `OrderLe` is a total preorder, so sorting by it is well defined. */
  lemma OrderLeIsTotalPreorder(a: Option<int>, b: Option<int>, c: Option<int>)
    ensures OrderLe(a, a)
    ensures OrderLe(a, b) || OrderLe(b, a)
    ensures OrderLe(a, b) && OrderLe(b, c) ==> OrderLe(a, c)
    ensures OrderLe(a, b) && OrderLe(b, a) ==> a == b
  {
  }

  ghost predicate Sorted<P, M>(s: seq<Route<P, M>>)
  {
    forall i, j :: 0 <= i < j < |s| ==> OrderLe(s[i].order, s[j].order)
  }

  /** No two routes in `s` come from the same source. */
  ghost predicate DistinctSources<P, M>(s: seq<Route<P, M>>)
  {
    forall i, j :: 0 <= i < j < |s| ==> s[i].from != s[j].from
  }

  /** `s` with every route from source `from` taken out, the others kept in
      their order. */
  function Without<P, M>(s: seq<Route<P, M>>, from: string): (r: seq<Route<P, M>>)
    ensures |r| <= |s|
    ensures forall i :: 0 <= i < |r| ==> r[i] in s && r[i].from != from
    ensures forall i :: 0 <= i < |s| && s[i].from != from ==> s[i] in r
  {
    if s == [] then []
    else
      var init, last := s[..|s| - 1], s[|s| - 1];
      assert s == init + [last];
      if last.from == from then Without(init, from) else Without(init, from) + [last]
  }

  /** Stable insertion: `r` goes right after the last route whose order is at
      most its own (at the front when there is none). */
  function Insert<P, M>(s: seq<Route<P, M>>, r: Route<P, M>): (t: seq<Route<P, M>>)
    ensures |t| == |s| + 1
  {
    if s == [] || OrderLe(s[|s| - 1].order, r.order) then s + [r]
    else
      var init, last := s[..|s| - 1], s[|s| - 1];
      assert s == init + [last];
      Insert(init, r) + [last]
  }

  /** Inserting adds `r` and keeps every old route: the result is a
      permutation of `s + [r]`. */
  lemma {:induction false} InsertPermutes<P, M>(s: seq<Route<P, M>>, r: Route<P, M>)
    ensures multiset(Insert(s, r)) == multiset(s) + multiset{r}
  {
    if s != [] && !OrderLe(s[|s| - 1].order, r.order) {
      var init, last := s[..|s| - 1], s[|s| - 1];
      assert s == init + [last];
      InsertPermutes(init, r);
    }
  }

  /** The routes after an insertion are the new route and the old ones. */
  lemma InsertMembers<P, M>(s: seq<Route<P, M>>, r: Route<P, M>)
    ensures r in Insert(s, r)
    ensures forall i :: 0 <= i < |Insert(s, r)| ==> Insert(s, r)[i] == r || Insert(s, r)[i] in s
    ensures forall i :: 0 <= i < |s| ==> s[i] in Insert(s, r)
  {
    var t := Insert(s, r);
    InsertPermutes(s, r);
    assert r in multiset(t);
    forall i | 0 <= i < |t| ensures t[i] == r || t[i] in s {
      assert t[i] in multiset(t);
    }
    forall i | 0 <= i < |s| ensures s[i] in t {
      assert s[i] in multiset(s);
      assert s[i] in multiset(t);
    }
  }

  /** The position at which `Insert` places `r`. */
  function InsertionPoint<P, M>(s: seq<Route<P, M>>, r: Route<P, M>): (k: nat)
    ensures k <= |s|
    ensures forall j :: k <= j < |s| ==> !OrderLe(s[j].order, r.order)
    ensures k > 0 ==> OrderLe(s[k - 1].order, r.order)
  {
    if s == [] || OrderLe(s[|s| - 1].order, r.order) then |s|
    else InsertionPoint(s[..|s| - 1], r)
  }

  /** The routes of `s` whose order is exactly `key`, in their order in `s`. */
  function WithOrder<P, M>(s: seq<Route<P, M>>, key: Option<int>): (w: seq<Route<P, M>>)
  {
    if s == [] then []
    else
      var init, last := s[..|s| - 1], s[|s| - 1];
      if last.order == key then WithOrder(init, key) + [last] else WithOrder(init, key)
  }

  /** `WithOrder(s, key)` holds routes of `s` with order `key`, and all of them. */
  lemma {:induction false} WithOrderMembers<P, M>(s: seq<Route<P, M>>, key: Option<int>)
    ensures forall i :: 0 <= i < |WithOrder(s, key)| ==> WithOrder(s, key)[i] in s && WithOrder(s, key)[i].order == key
    ensures forall i :: 0 <= i < |s| && s[i].order == key ==> s[i] in WithOrder(s, key)
  {
    if s != [] {
      var init, last := s[..|s| - 1], s[|s| - 1];
      assert s == init + [last];
      WithOrderMembers(init, key);
      var w := WithOrder(init, key);
      if last.order == key {
        assert WithOrder(s, key) == w + [last];
      }
    }
  }

  /** `t` is what a stable sort by order makes of `u`: sorted, and the routes
      sharing one order value appear in `t` exactly as in `u`. */
  ghost predicate IsStableSortOf<P, M>(t: seq<Route<P, M>>, u: seq<Route<P, M>>)
  {
    Sorted(t) && forall key :: WithOrder(t, key) == WithOrder(u, key)
  }

  lemma {:induction false} InsertAt<P, M>(s: seq<Route<P, M>>, r: Route<P, M>, k: nat)
    requires k <= |s|
    requires forall j :: k <= j < |s| ==> !OrderLe(s[j].order, r.order)
    requires k > 0 ==> OrderLe(s[k - 1].order, r.order)
    ensures Insert(s, r) == s[..k] + [r] + s[k..]
  {
    if k < |s| {
      var init, last := s[..|s| - 1], s[|s| - 1];
      assert !OrderLe(last.order, r.order);
      InsertAt(init, r, k);
      var a, b := s[..k], init[k..];
      assert init[..k] == a;
      assert s[k..] == b + [last];
      calc {
        Insert(s, r);
        Insert(init, r) + [last];
        a + [r] + b + [last];
        a + [r] + (b + [last]);
      }
    } else {
      assert s[..k] == s && s[k..] == [];
    }
  }

  /** Inserting is splicing `r` in at its insertion point. */
  lemma InsertIsSplice<P, M>(s: seq<Route<P, M>>, r: Route<P, M>)
    ensures Insert(s, r) == s[..InsertionPoint(s, r)] + [r] + s[InsertionPoint(s, r)..]
  {
    InsertAt(s, r, InsertionPoint(s, r));
  }

  lemma {:induction false} WithoutSorted<P, M>(s: seq<Route<P, M>>, from: string)
    requires Sorted(s)
    ensures Sorted(Without(s, from))
  {
    if s != [] {
      var init, last := s[..|s| - 1], s[|s| - 1];
      WithoutSorted(init, from);
    }
  }

  lemma {:induction false} WithoutDistinct<P, M>(s: seq<Route<P, M>>, from: string)
    requires DistinctSources(s)
    ensures DistinctSources(Without(s, from))
  {
    if s != [] {
      var init, last := s[..|s| - 1], s[|s| - 1];
      WithoutDistinct(init, from);
      forall x | x in init ensures x.from != last.from {
        var i :| 0 <= i < |init| && init[i] == x;
        assert s[i] == x && s[|s| - 1] == last;
      }
    }
  }

  lemma {:induction false} InsertSorted<P, M>(s: seq<Route<P, M>>, r: Route<P, M>)
    requires Sorted(s)
    ensures Sorted(Insert(s, r))
  {
    if s != [] && !OrderLe(s[|s| - 1].order, r.order) {
      var init, last := s[..|s| - 1], s[|s| - 1];
      InsertSorted(init, r);
      InsertMembers(init, r);
      var t := Insert(init, r);
      forall m | 0 <= m < |t| ensures OrderLe(t[m].order, last.order) {
        if t[m] != r {
          var i :| 0 <= i < |init| && init[i] == t[m];
          assert s[i] == t[m];
        }
      }
      assert Insert(s, r) == t + [last];
    }
  }

  lemma {:induction false} InsertDistinct<P, M>(s: seq<Route<P, M>>, r: Route<P, M>)
    requires DistinctSources(s)
    requires forall x :: x in s ==> x.from != r.from
    ensures DistinctSources(Insert(s, r))
  {
    if s != [] && !OrderLe(s[|s| - 1].order, r.order) {
      var init, last := s[..|s| - 1], s[|s| - 1];
      InsertDistinct(init, r);
      InsertMembers(init, r);
      var t := Insert(init, r);
      forall m | 0 <= m < |t| ensures t[m].from != last.from {
        if t[m] != r {
          var i :| 0 <= i < |init| && init[i] == t[m];
          assert s[i] == t[m];
        } else {
          assert last in s;
        }
      }
      assert Insert(s, r) == t + [last];
    } else if s != [] {
      assert forall i :: 0 <= i < |s| ==> s[i] in s;
    }
  }

  lemma {:induction false} WithOrderAppend<P, M>(a: seq<Route<P, M>>, b: seq<Route<P, M>>, key: Option<int>)
    ensures WithOrder(a + b, key) == WithOrder(a, key) + WithOrder(b, key)
  {
    if b != [] {
      var init, last := b[..|b| - 1], b[|b| - 1];
      WithOrderAppend(a, init, key);
      assert (a + b)[..|a + b| - 1] == a + init;
    } else {
      assert a + b == a;
    }
  }

  /** Inserting never reorders two routes that share an order value. */
  lemma {:induction false} InsertKeepsTies<P, M>(s: seq<Route<P, M>>, r: Route<P, M>, key: Option<int>)
    ensures WithOrder(Insert(s, r), key) == WithOrder(s + [r], key)
  {
    if s != [] && !OrderLe(s[|s| - 1].order, r.order) {
      var init, last := s[..|s| - 1], s[|s| - 1];
      assert s == init + [last];
      InsertKeepsTies(init, r, key);
      WithOrderAppend(Insert(init, r), [last], key);
      WithOrderAppend(init, [r], key);
      WithOrderAppend(init, [last], key);
      WithOrderAppend(s, [r], key);
      assert last.order != r.order;
    }
  }

  /** Inserting into a sorted sequence is stably sorting the sequence with
      the new route appended. */
  lemma InsertIsStableSort<P, M>(s: seq<Route<P, M>>, r: Route<P, M>)
    requires Sorted(s)
    ensures IsStableSortOf(Insert(s, r), s + [r])
  {
    InsertSorted(s, r);
    forall key ensures WithOrder(Insert(s, r), key) == WithOrder(s + [r], key) {
      InsertKeepsTies(s, r, key);
    }
  }

  /** A stable sort has only one possible outcome: two sorted sequences that
      agree on the routes of every order value are equal. */
  lemma {:induction false} StableSortUnique<P, M>(t1: seq<Route<P, M>>, t2: seq<Route<P, M>>)
    requires Sorted(t1) && Sorted(t2)
    requires forall key :: WithOrder(t1, key) == WithOrder(t2, key)
    ensures t1 == t2
    decreases |t1|
  {
    if t1 == [] || t2 == [] {
      if t1 != [] {
        NonEmptyHasOrderValue(t1);
      } else if t2 != [] {
        NonEmptyHasOrderValue(t2);
      }
    } else {
      var init1, x := t1[..|t1| - 1], t1[|t1| - 1];
      var init2, y := t2[..|t2| - 1], t2[|t2| - 1];
      LastsAgree(t1, t2);
      forall key ensures WithOrder(init1, key) == WithOrder(init2, key) {
        InitsAgree(t1, t2, key);
      }
      SortedPrefix(t1, |t1| - 1);
      SortedPrefix(t2, |t2| - 1);
      StableSortUnique(init1, init2);
      assert t1 == init1 + [x] && t2 == init2 + [y];
    }
  }

  /** Sorted sequences that agree on the order values of their last routes
      end in the same route. */
  lemma LastsAgree<P, M>(t1: seq<Route<P, M>>, t2: seq<Route<P, M>>)
    requires Sorted(t1) && Sorted(t2) && t1 != [] && t2 != []
    requires WithOrder(t1, t1[|t1| - 1].order) == WithOrder(t2, t1[|t1| - 1].order)
    requires WithOrder(t1, t2[|t2| - 1].order) == WithOrder(t2, t2[|t2| - 1].order)
    ensures t1[|t1| - 1] == t2[|t2| - 1]
  {
    var x, y := t1[|t1| - 1], t2[|t2| - 1];
    OrderValueIsBelowLast(t1, t2, x.order);
    OrderValueIsBelowLast(t2, t1, y.order);
    assert y.order == x.order;
    LastOfWithOrder(t1);
    LastOfWithOrder(t2);
  }

  /** The last route of `s` is the last route of its order value. */
  lemma LastOfWithOrder<P, M>(s: seq<Route<P, M>>)
    requires s != []
    ensures |WithOrder(s, s[|s| - 1].order)| > 0
    ensures WithOrder(s, s[|s| - 1].order)[|WithOrder(s, s[|s| - 1].order)| - 1] == s[|s| - 1]
  {
  }

  /** Dropping a common last route keeps the agreement on an order value. */
  lemma InitsAgree<P, M>(t1: seq<Route<P, M>>, t2: seq<Route<P, M>>, key: Option<int>)
    requires t1 != [] && t2 != [] && t1[|t1| - 1] == t2[|t2| - 1]
    requires WithOrder(t1, key) == WithOrder(t2, key)
    ensures WithOrder(t1[..|t1| - 1], key) == WithOrder(t2[..|t2| - 1], key)
  {
    var init1, init2, x := t1[..|t1| - 1], t2[..|t2| - 1], t1[|t1| - 1];
    assert t1 == init1 + [x] && t2 == init2 + [x];
    WithOrderSnoc(init1, x, key);
    WithOrderSnoc(init2, x, key);
    if x.order == key {
      var w1, w2 := WithOrder(init1, key), WithOrder(init2, key);
      assert w1 == (w1 + [x])[..|w1|];
      assert w2 == (w2 + [x])[..|w2|];
    }
  }

  /** Any stable sort of a sorted sequence with one route appended is what
      `Insert` computes. */
  lemma StableSortIsInsert<P, M>(s: seq<Route<P, M>>, r: Route<P, M>, t: seq<Route<P, M>>)
    requires Sorted(s)
    requires IsStableSortOf(t, s + [r])
    ensures t == Insert(s, r)
  {
    InsertIsStableSort(s, r);
    StableSortUnique(t, Insert(s, r));
  }

  lemma SortedPrefix<P, M>(s: seq<Route<P, M>>, n: nat)
    requires Sorted(s) && n <= |s|
    ensures Sorted(s[..n])
  {
  }

  lemma WithOrderSnoc<P, M>(s: seq<Route<P, M>>, x: Route<P, M>, key: Option<int>)
    ensures WithOrder(s + [x], key) == if x.order == key then WithOrder(s, key) + [x] else WithOrder(s, key)
  {
    assert (s + [x])[..|s|] == s;
  }

  lemma NonEmptyHasOrderValue<P, M>(t: seq<Route<P, M>>)
    requires t != []
    ensures WithOrder(t, t[0].order) != []
  {
    WithOrderMembers(t, t[0].order);
    assert t[0] in WithOrder(t, t[0].order);
  }

  /** An order value that occurs in `t1` and, by agreement, in `t2`, is at
      most the order of the last route of the sorted `t2`. */
  lemma OrderValueIsBelowLast<P, M>(t1: seq<Route<P, M>>, t2: seq<Route<P, M>>, key: Option<int>)
    requires Sorted(t2) && t1 != [] && t2 != []
    requires t1[|t1| - 1].order == key
    requires WithOrder(t1, key) == WithOrder(t2, key)
    ensures OrderLe(key, t2[|t2| - 1].order)
  {
    var x := t1[|t1| - 1];
    WithOrderMembers(t1, key);
    WithOrderMembers(t2, key);
    assert x in WithOrder(t1, key);
    var w := WithOrder(t2, key);
    var i :| 0 <= i < |w| && w[i] == x;
    var j :| 0 <= j < |t2| && t2[j] == x;
    if j < |t2| - 1 {
      assert OrderLe(t2[j].order, t2[|t2| - 1].order);
    }
  }

  /** Taking a source out of a sequence that was just given a route from that
      source undoes the insertion. */
  lemma {:induction false} WithoutInsert<P, M>(s: seq<Route<P, M>>, r: Route<P, M>)
    requires forall x :: x in s ==> x.from != r.from
    ensures Without(Insert(s, r), r.from) == s
  {
    if s == [] || OrderLe(s[|s| - 1].order, r.order) {
      WithoutNone(s, r.from);
      assert (s + [r])[..|s|] == s;
    } else {
      var init, last := s[..|s| - 1], s[|s| - 1];
      assert s == init + [last];
      WithoutInsert(init, r);
      var t := Insert(init, r);
      assert (t + [last])[..|t|] == t;
    }
  }

  /** When exactly one route of `s` comes from `from`, taking that source out
      is cutting that one route out where it stands. */
  lemma {:induction false} WithoutSingle<P, M>(s: seq<Route<P, M>>, i: nat, from: string)
    requires i < |s| && s[i].from == from
    requires forall j :: 0 <= j < |s| && j != i ==> s[j].from != from
    ensures Without(s, from) == s[..i] + s[i + 1..]
  {
    var init, last := s[..|s| - 1], s[|s| - 1];
    assert s == init + [last];
    if i == |s| - 1 {
      WithoutNone(init, from);
      assert s[..i] == init && s[i + 1..] == [];
    } else {
      WithoutSingle(init, i, from);
      assert init[..i] == s[..i];
      assert init[i + 1..] + [last] == s[i + 1..];
    }
  }

  /** Taking out a source that has no route in `s` changes nothing. */
  lemma {:induction false} WithoutNone<P, M>(s: seq<Route<P, M>>, from: string)
    requires forall x :: x in s ==> x.from != from
    ensures Without(s, from) == s
  {
    if s != [] {
      var init, last := s[..|s| - 1], s[|s| - 1];
      assert s == init + [last];
      WithoutNone(init, from);
    }
  }
}
