/** The wormhole: the registry object that portals open routes into and that
    portal targets query.  Its one field, `transports`, is updated in place. */
module PortalWormhole {
  import opened Routes
  import opened Registry

  class Wormhole<P, M> {
    var transports: Transports<P, M>

    ghost predicate Valid()
      reads this
    {
      WellFormed(transports)
    }

    /** A fresh registry routes nothing. */
    constructor ()
      ensures Valid() && transports == map[]
    {
      transports := map[];
    }

    /** Routes `route.from`'s content to `route.to`, replacing what that source
        routed there before, at its place by order. */
    method Open(route: Route<P, M>)
      modifies this
      ensures transports == Opened(old(transports), route)
      ensures old(Valid()) ==> Valid()
    {
      ghost var before := transports;
      var current := if route.to in transports then transports[route.to] else [];
      assert current == Lookup(before, route.to);
      var kept := RemoveSource(current, route.from);
      var k := FindInsertionPoint(kept, route);
      transports := transports[route.to := kept[..k] + [route] + kept[k..]];
      assert transports == Opened(before, route);
      if WellFormed(before) {
        OpenPreservesWellFormed(before, route);
      }
    }

    /** Takes `from`'s route out of `to`, or with `force` every route there.
        The target stays in the map. */
    method Close(from: string, to: string, force: bool := false)
      modifies this
      ensures transports == Closed(old(transports), from, to, force)
      ensures old(Valid()) ==> Valid()
    {
      if to !in transports {
        return;
      }
      if force {
        transports := transports[to := []];
      } else {
        var kept := RemoveSource(transports[to], from);
        transports := transports[to := kept];
      }
      if old(Valid()) {
        ClosePreservesWellFormed(old(transports), from, to, force);
      }
    }

    /** Whether any route currently leads to `to`. */
    method HasTarget(to: string) returns (b: bool)
      ensures b == HasContent(transports, to)
      ensures b <==> exists x :: x in Lookup(transports, to)
    {
      b := to in transports && |transports[to]| > 0;
    }

    /** Same answer as `HasTarget`, under the name portal targets use. */
    method HasContentFor(to: string) returns (b: bool)
      ensures b == HasContent(transports, to)
      ensures b <==> exists x :: x in Lookup(transports, to)
    {
      b := HasTarget(to);
    }

    /** The source of the first route to `to`, or `None` when there is none. */
    method GetSourceFor(to: string) returns (source: Option<string>)
      ensures source == SourceFor(transports, to)
      ensures source.None? <==> Lookup(transports, to) == []
      ensures Valid() && source.Some? ==>
        forall x :: x in transports[to] ==> OrderLe(transports[to][0].order, x.order)
    {
      if to in transports && |transports[to]| > 0 {
        source := Some(transports[to][0].from);
        if Valid() {
          FirstIsTopPriority(transports, to);
        }
      } else {
        source := None;
      }
    }

    /** The payload of the first route to `to`, or `None` when there is none. */
    method GetContentFor(to: string) returns (content: Option<P>)
      ensures content == ContentFor(transports, to)
      ensures content.None? <==> Lookup(transports, to) == []
      ensures Valid() && content.Some? ==>
        forall x :: x in transports[to] ==> OrderLe(transports[to][0].order, x.order)
    {
      if to in transports && |transports[to]| > 0 {
        content := Some(transports[to][0].passengers);
        if Valid() {
          FirstIsTopPriority(transports, to);
        }
      } else {
        content := None;
      }
    }
  }

  /** The routes of `s` not from `from`, in order. */
  method RemoveSource<P, M>(s: seq<Route<P, M>>, from: string) returns (kept: seq<Route<P, M>>)
    ensures kept == Without(s, from)
  {
    kept := [];
    var i := 0;
    while i < |s|
      invariant 0 <= i <= |s|
      invariant kept == Without(s[..i], from)
    {
      assert s[..i + 1][..i] == s[..i];
      if s[i].from != from {
        kept := kept + [s[i]];
      }
      i := i + 1;
    }
    assert s[..|s|] == s;
  }

  /** Scans back from the end of `s` to just after the last route whose order
      is at most `r`'s. */
  method FindInsertionPoint<P, M>(s: seq<Route<P, M>>, r: Route<P, M>) returns (k: nat)
    ensures k <= |s|
    ensures forall j :: k <= j < |s| ==> !OrderLe(s[j].order, r.order)
    ensures k > 0 ==> OrderLe(s[k - 1].order, r.order)
    ensures Insert(s, r) == s[..k] + [r] + s[k..]
  {
    k := |s|;
    while k > 0 && !OrderLe(s[k - 1].order, r.order)
      invariant 0 <= k <= |s|
      invariant forall j :: k <= j < |s| ==> !OrderLe(s[j].order, r.order)
    {
      k := k - 1;
    }
    InsertAt(s, r, k);
  }
}
