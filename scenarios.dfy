/** The registry's unit scenarios, each run on a fresh wormhole and proved
    from the contracts of `Wormhole` and the `Registry` and `Routes` lemmas,
    never from the method bodies.  Payloads are lists of strings;
    `extra` is the optional `class` list. */
module WormholeScenarios {
  import opened Routes
  import opened Registry
  import opened PortalWormhole

  type Payload = seq<string>
  type Classes = Option<seq<string>>

  /** The `from` of every route, in order. */
  function Sources<P, M>(s: seq<Route<P, M>>): (r: seq<string>)
    ensures |r| == |s|
    ensures forall i :: 0 <= i < |s| ==> r[i] == s[i].from
  {
    if s == [] then [] else [s[0].from] + Sources(s[1..])
  }

  /** A route to "target" carrying ["test"] and an empty class list. */
  function TestRoute(from: string, order: Option<int>): (r: Route<Payload, Classes>)
  {
    Route(from, "target", ["test"], order, Some([]))
  }

  /** A route to "target" with no order and no class list. */
  function PortalRoute(from: string, passengers: Payload): (r: Route<Payload, Classes>)
  {
    Route(from, "target", passengers, None, None)
  }

  /** Opens `r` on an empty wormhole. */
  method OpenFirst(w: Wormhole<Payload, Classes>, r: Route<Payload, Classes>)
    requires w.transports == map[]
    modifies w
    ensures w.transports == map[r.to := [r]]
  {
    w.Open(r);
    OpenIntoEmptyTarget(map[], r);
  }

  /** Opens `r` on a wormhole whose only target is "target", holding `s`
      and no route from `r`'s source; `r` lands at position `k`. */
  method OpenAt(w: Wormhole<Payload, Classes>, r: Route<Payload, Classes>,
                ghost s: seq<Route<Payload, Classes>>, ghost k: nat, ghost t: seq<Route<Payload, Classes>>)
    requires w.transports == map["target" := s] && r.to == "target"
    requires forall x :: x in s ==> x.from != r.from
    requires k <= |s|
    requires forall j :: k <= j < |s| ==> !OrderLe(s[j].order, r.order)
    requires k > 0 ==> OrderLe(s[k - 1].order, r.order)
    requires t == s[..k] + [r] + s[k..]
    modifies w
    ensures w.transports == map["target" := t]
  {
    ghost var m := w.transports;
    w.Open(r);
    OpenNewSourceAt(m, r, k);
  }

  /** Closes `from`'s route on a wormhole whose only target is "target",
      holding `s` with exactly one route from `from`, at position `i`. */
  method CloseAt(w: Wormhole<Payload, Classes>, from: string,
                 ghost s: seq<Route<Payload, Classes>>, ghost i: nat, ghost t: seq<Route<Payload, Classes>>)
    requires w.transports == map["target" := s]
    requires i < |s| && s[i].from == from
    requires forall j :: 0 <= j < |s| && j != i ==> s[j].from != from
    requires t == s[..i] + s[i + 1..]
    modifies w
    ensures w.transports == map["target" := t]
  {
    w.Close(from, "target");
    WithoutSingle(s, i, from);
  }

  /** Opening one route stores it verbatim as the target's only route. */
  method AddsPassengersOnSend() returns (t: Transports<Payload, Classes>)
    ensures t == map["target" := [Route("test-portal", "target", ["Test"], Some(0), Some(["class1", "class2"]))]]
  {
    var w := new Wormhole<Payload, Classes>();
    var r := Route("test-portal", "target", ["Test"], Some(0), Some(["class1", "class2"]));
    OpenFirst(w, r);
    t := w.transports;
  }

  /** The four test sources are distinct names. */
  lemma TestSourcesDistinct()
    ensures "test1" != "test2" && "test1" != "test3" && "test1" != "test4"
    ensures "test2" != "test3" && "test2" != "test4" && "test3" != "test4"
  {
    assert "test1"[4] == '1' && "test2"[4] == '2' && "test3"[4] == '3' && "test4"[4] == '4';
  }

  /** Orders 1, 1, 0, 2 from test1..test4 end up as test3, test1, test2, test4. */
  method StableSortOnOpen() returns (froms: seq<string>)
    ensures froms == ["test3", "test1", "test2", "test4"]
  {
    var w := new Wormhole<Payload, Classes>();
    var r1, r2 := TestRoute("test1", Some(1)), TestRoute("test2", Some(1));
    var r3, r4 := TestRoute("test3", Some(0)), TestRoute("test4", Some(2));
    TestSourcesDistinct();
    OpenFirst(w, r1);
    assert [r1][..1] + [r2] + [r1][1..] == [r1, r2];
    OpenAt(w, r2, [r1], 1, [r1, r2]);
    assert [r1, r2][..0] + [r3] + [r1, r2][0..] == [r3, r1, r2];
    OpenAt(w, r3, [r1, r2], 0, [r3, r1, r2]);
    assert [r3, r1, r2][..3] + [r4] + [r3, r1, r2][3..] == [r3, r1, r2, r4];
    OpenAt(w, r4, [r3, r1, r2], 3, [r3, r1, r2, r4]);
    froms := Sources(w.transports["target"]);
  }

  /** Routes without an order sort first and keep their opening order; all
      four sources stay present. */
  method StableSortWithUndefinedOrders() returns (froms: seq<string>)
    ensures froms == ["test1", "test2", "test3", "test4"]
  {
    var w := new Wormhole<Payload, Classes>();
    var r1, r2 := TestRoute("test1", None), TestRoute("test2", None);
    var r3, r4 := TestRoute("test3", Some(0)), TestRoute("test4", Some(2));
    TestSourcesDistinct();
    OpenFirst(w, r1);
    assert [r1][..1] + [r2] + [r1][1..] == [r1, r2];
    OpenAt(w, r2, [r1], 1, [r1, r2]);
    assert [r1, r2][..2] + [r3] + [r1, r2][2..] == [r1, r2, r3];
    OpenAt(w, r3, [r1, r2], 2, [r1, r2, r3]);
    assert [r1, r2, r3][..3] + [r4] + [r1, r2, r3][3..] == [r1, r2, r3, r4];
    OpenAt(w, r4, [r1, r2, r3], 3, [r1, r2, r3, r4]);
    froms := Sources(w.transports["target"]);
  }

  /** Closing the only route leaves the target mapped to no routes. */
  method RemovesContentOnClose() returns (afterOpen: Transports<Payload, Classes>, afterClose: Transports<Payload, Classes>)
    ensures afterOpen == map["target" := [PortalRoute("test-portal", ["Test"])]]
    ensures afterClose == map["target" := []]
  {
    var w := new Wormhole<Payload, Classes>();
    var content := PortalRoute("test-portal", ["Test"]);
    OpenFirst(w, content);
    afterOpen := w.transports;
    w.Close("test-portal", "target");
    afterClose := w.transports;
  }

  /** Closing one source's route keeps the other source's route. */
  method ClosesOnlySameSource() returns (t: Transports<Payload, Classes>)
    ensures t == map["target" := [PortalRoute("test-portal2", ["Test2"])]]
  {
    var w := new Wormhole<Payload, Classes>();
    var r1, r2 := PortalRoute("test-portal1", ["Test1"]), PortalRoute("test-portal2", ["Test2"]);
    OpenFirst(w, r1);
    OpenAt(w, r2, [r1], 1, [r1, r2]);
    assert [r1, r2][..0] + [r1, r2][1..] == [r2];
    CloseAt(w, "test-portal1", [r1, r2], 0, [r2]);
    t := w.transports;
  }

  /** A forced close empties the target whichever source is named. */
  method ClosesAllWhenForced() returns (t: Transports<Payload, Classes>)
    ensures t == map["target" := []]
  {
    var w := new Wormhole<Payload, Classes>();
    var r1, r2 := PortalRoute("test-portal1", ["Test1"]), PortalRoute("test-portal2", ["Test2"]);
    OpenFirst(w, r1);
    OpenAt(w, r2, [r1], 1, [r1, r2]);
    w.Close("test-portal1", "target", true);
    t := w.transports;
  }

  method HasTargetScenario() returns (before: bool, after: bool)
    ensures !before && after
  {
    var w := new Wormhole<Payload, Classes>();
    before := w.HasTarget("target");
    OpenFirst(w, PortalRoute("source", ["passenger1"]));
    after := w.HasTarget("target");
  }

  method HasContentForScenario() returns (before: bool, after: bool)
    ensures !before && after
  {
    var w := new Wormhole<Payload, Classes>();
    before := w.HasContentFor("target");
    OpenFirst(w, PortalRoute("source", ["passenger1"]));
    after := w.HasContentFor("target");
  }

  method GetSourceForScenario() returns (before: Option<string>, after: Option<string>)
    ensures before == None && after == Some("source")
  {
    var w := new Wormhole<Payload, Classes>();
    before := w.GetSourceFor("target");
    var r := PortalRoute("source", ["passenger1"]);
    OpenFirst(w, r);
    after := w.GetSourceFor("target");
  }

  method GetContentForScenario() returns (before: Option<Payload>, after: Option<Payload>)
    ensures before == None && after == Some(["passenger1"])
  {
    var w := new Wormhole<Payload, Classes>();
    before := w.GetContentFor("target");
    var r := PortalRoute("source", ["passenger1"]);
    OpenFirst(w, r);
    after := w.GetContentFor("target");
  }
}
