/** The registry's state as a value: a map from target name to that target's
    ordered routes, and what `open`, `close` and the four queries make of it. */
module Registry {
  import opened Routes

  type Transports<P, M> = map<string, seq<Route<P, M>>>

  /** The routes kept for `to`; an absent target has none. */
  function Lookup<P, M>(m: Transports<P, M>, to: string): (s: seq<Route<P, M>>)
    ensures to !in m ==> s == []
    ensures to in m ==> s == m[to]
  {
    if to in m then m[to] else []
  }

  /** What every reachable registry state satisfies: each target's routes are
      addressed to it, sorted by order, and come from distinct sources. */
  ghost predicate WellFormed<P, M>(m: Transports<P, M>)
    ensures WellFormed(m) ==> forall to, i :: to in m && 0 <= i < |m[to]| ==>
      m[to][i].to == to && OrderLe(m[to][0].order, m[to][i].order)
  {
    forall to :: to in m ==> TargetWellFormed(m[to], to)
  }

  ghost predicate TargetWellFormed<P, M>(s: seq<Route<P, M>>, to: string)
  {
    && (forall i :: 0 <= i < |s| ==> s[i].to == to)
    && Sorted(s)
    && DistinctSources(s)
  }

  /** The state after `open(r)`: the target `r.to` exists, any earlier route
      from `r.from` there is replaced by `r`, and `r` sits stably by order. */
  function Opened<P, M>(m: Transports<P, M>, r: Route<P, M>): (m': Transports<P, M>)
    ensures m'.Keys == m.Keys + {r.to}
    ensures forall t :: t in m && t != r.to ==> m'[t] == m[t]
  {
    m[r.to := Insert(Without(Lookup(m, r.to), r.from), r)]
  }

  /** The state after `close(from, to, force)`.  Closing never removes the
      target key; an absent target is left absent. */
  function Closed<P, M>(m: Transports<P, M>, from: string, to: string, force: bool): (m': Transports<P, M>)
    ensures m'.Keys == m.Keys
    ensures forall t :: t in m && t != to ==> m'[t] == m[t]
  {
    if to !in m then m
    else if force then m[to := []]
    else m[to := Without(m[to], from)]
  }

  /** Whether anything is routed to `to` (both `hasTarget` and `hasContentFor`). */
  function HasContent<P, M>(m: Transports<P, M>, to: string): (b: bool)
    ensures b <==> exists x :: x in Lookup(m, to)
  {
    var s := Lookup(m, to);
    assert s != [] ==> s[0] in s;
    s != []
  }

  /** The source of the first route for `to`, if any. */
  function SourceFor<P, M>(m: Transports<P, M>, to: string): (r: Option<string>)
    ensures r.None? <==> !HasContent(m, to)
    ensures r.Some? ==> exists x :: x in Lookup(m, to) && x.from == r.value
  {
    if HasContent(m, to) then Some(m[to][0].from) else None
  }

  /** The payload of the first route for `to`, if any. */
  function ContentFor<P, M>(m: Transports<P, M>, to: string): (r: Option<P>)
    ensures r.None? <==> !HasContent(m, to)
    ensures r.Some? ==> exists x :: x in Lookup(m, to) && x.passengers == r.value
  {
    if HasContent(m, to) then Some(m[to][0].passengers) else None
  }

  /** After an open the target holds the new route, it is the only route
      from its source there, and every other source's route is still there. */
  lemma OpenReplaces<P, M>(m: Transports<P, M>, r: Route<P, M>)
    ensures r in Opened(m, r)[r.to]
    ensures forall i :: 0 <= i < |Opened(m, r)[r.to]| && Opened(m, r)[r.to][i].from == r.from ==> Opened(m, r)[r.to][i] == r
    ensures forall i :: 0 <= i < |Lookup(m, r.to)| && Lookup(m, r.to)[i].from != r.from ==> Lookup(m, r.to)[i] in Opened(m, r)[r.to]
  {
    InsertMembers(Without(Lookup(m, r.to), r.from), r);
  }

  /** A plain close takes out exactly the named source's routes at `to`; a
      forced close takes out all of them. */
  lemma CloseRemoves<P, M>(m: Transports<P, M>, from: string, to: string, force: bool)
    requires to in m
    ensures force ==> Closed(m, from, to, force)[to] == []
    ensures !force ==> forall i :: 0 <= i < |Closed(m, from, to, force)[to]| ==>
      Closed(m, from, to, force)[to][i] in m[to] && Closed(m, from, to, force)[to][i].from != from
    ensures !force ==> forall i :: 0 <= i < |m[to]| && m[to][i].from != from ==> m[to][i] in Closed(m, from, to, force)[to]
  {
  }

  lemma OpenPreservesWellFormed<P, M>(m: Transports<P, M>, r: Route<P, M>)
    requires WellFormed(m)
    ensures WellFormed(Opened(m, r))
  {
    var s := Lookup(m, r.to);
    assert TargetWellFormed(s, r.to);
    var w := Without(s, r.from);
    WithoutSorted(s, r.from);
    WithoutDistinct(s, r.from);
    InsertSorted(w, r);
    InsertDistinct(w, r);
    InsertMembers(w, r);
    var t := Insert(w, r);
    forall i | 0 <= i < |t| ensures t[i].to == r.to {
      if t[i] != r {
        var j :| 0 <= j < |w| && w[j] == t[i];
      }
    }
  }

  lemma ClosePreservesWellFormed<P, M>(m: Transports<P, M>, from: string, to: string, force: bool)
    requires WellFormed(m)
    ensures WellFormed(Closed(m, from, to, force))
  {
    if to in m && !force {
      WithoutSorted(m[to], from);
      WithoutDistinct(m[to], from);
    }
  }

  /** Opening into a target that holds nothing makes the route its only one,
      stored as given. */
  lemma OpenIntoEmptyTarget<P, M>(m: Transports<P, M>, r: Route<P, M>)
    requires Lookup(m, r.to) == []
    ensures Opened(m, r) == m[r.to := [r]]
  {
    assert Without(Lookup(m, r.to), r.from) == [];
    assert Insert([], r) == [r];
  }

  /** The target's new routes are the stable sort of its old routes, less any
      earlier route from the same source, with the new route appended. */
  lemma OpenIsStableSort<P, M>(m: Transports<P, M>, r: Route<P, M>)
    requires WellFormed(m)
    ensures IsStableSortOf(Opened(m, r)[r.to], Without(Lookup(m, r.to), r.from) + [r])
  {
    var s := Lookup(m, r.to);
    assert TargetWellFormed(s, r.to);
    WithoutSorted(s, r.from);
    InsertIsStableSort(Without(s, r.from), r);
  }

  /** Besides the new route, opening leaves the target's routes as they were,
      in the same order. */
  lemma OpenKeepsOthers<P, M>(m: Transports<P, M>, r: Route<P, M>)
    ensures Without(Opened(m, r)[r.to], r.from) == Without(Lookup(m, r.to), r.from)
  {
    var w := Without(Lookup(m, r.to), r.from);
    assert forall x :: x in w ==> x.from != r.from;
    WithoutInsert(w, r);
  }

  /** Opening a route from a source new to the target splices it in after the
      last route whose order is at most its own. */
  lemma OpenNewSourceAt<P, M>(m: Transports<P, M>, r: Route<P, M>, k: nat)
    requires forall x :: x in Lookup(m, r.to) ==> x.from != r.from
    requires k <= |Lookup(m, r.to)|
    requires forall j :: k <= j < |Lookup(m, r.to)| ==> !OrderLe(Lookup(m, r.to)[j].order, r.order)
    requires k > 0 ==> OrderLe(Lookup(m, r.to)[k - 1].order, r.order)
    ensures Opened(m, r) == m[r.to := Lookup(m, r.to)[..k] + [r] + Lookup(m, r.to)[k..]]
  {
    WithoutNone(Lookup(m, r.to), r.from);
    InsertAt(Lookup(m, r.to), r, k);
  }

  /** Opening the same route twice is the same as opening it once. */
  lemma OpenIdempotent<P, M>(m: Transports<P, M>, r: Route<P, M>)
    ensures Opened(Opened(m, r), r) == Opened(m, r)
  {
    OpenKeepsOthers(m, r);
  }

  /** Closing a route just opened by a new source gives back the old state;
      a target that was absent stays present with no routes. */
  lemma OpenThenClose<P, M>(m: Transports<P, M>, r: Route<P, M>)
    requires forall x :: x in Lookup(m, r.to) ==> x.from != r.from
    ensures Closed(Opened(m, r), r.from, r.to, false) == m[r.to := Lookup(m, r.to)]
  {
    OpenKeepsOthers(m, r);
    WithoutNone(Lookup(m, r.to), r.from);
  }

  lemma CloseIdempotent<P, M>(m: Transports<P, M>, from: string, to: string, force: bool)
    ensures Closed(Closed(m, from, to, force), from, to, force) == Closed(m, from, to, force)
  {
    if to in m && !force {
      var w := Without(m[to], from);
      assert forall x :: x in w ==> x.from != from;
      WithoutNone(w, from);
    }
  }

  /** After an open, the target has content; after a forced close, it has
      none. */
  lemma QueriesAfterOpenAndForceClose<P, M>(m: Transports<P, M>, r: Route<P, M>, from: string)
    ensures HasContent(Opened(m, r), r.to)
    ensures !HasContent(Closed(m, from, r.to, true), r.to)
  {
  }

  /** The first route of a well-formed target has the lowest order there, so
      `SourceFor` and `ContentFor` answer with the top-priority route. */
  lemma FirstIsTopPriority<P, M>(m: Transports<P, M>, to: string)
    requires WellFormed(m)
    requires HasContent(m, to)
    ensures SourceFor(m, to) == Some(m[to][0].from)
    ensures ContentFor(m, to) == Some(m[to][0].passengers)
    ensures forall i :: 0 <= i < |m[to]| ==> OrderLe(m[to][0].order, m[to][i].order)
  {
    assert TargetWellFormed(m[to], to);
  }

  /** The opened route becomes the target's first route exactly when every
      other route kept there has a strictly higher order. */
  lemma OpenedRouteFirst<P, M>(m: Transports<P, M>, r: Route<P, M>)
    requires WellFormed(m)
    ensures SourceFor(Opened(m, r), r.to) == Some(r.from)
        <==> forall x :: x in Lookup(m, r.to) && x.from != r.from ==> !OrderLe(x.order, r.order)
  {
    var s := Lookup(m, r.to);
    assert TargetWellFormed(s, r.to);
    var w := Without(s, r.from);
    WithoutSorted(s, r.from);
    var k := InsertionPoint(w, r);
    InsertIsSplice(w, r);
    var t := Opened(m, r)[r.to];
    assert t == w[..k] + [r] + w[k..];
    if k == 0 {
      assert t[0] == r;
      forall x | x in s && x.from != r.from ensures !OrderLe(x.order, r.order) {
        var i :| 0 <= i < |s| && s[i] == x;
        assert x in w;
        var j :| 0 <= j < |w| && w[j] == x;
      }
    } else {
      assert t[0] == w[0] && w[0] in s && w[0].from != r.from;
      assert OrderLe(w[0].order, w[k - 1].order);
    }
  }
}
