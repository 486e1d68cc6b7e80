# portal-vue's wormhole, modelled in Dafny

portal-vue moves content from a `<portal>` to a `<portal-target>` through a
shared registry called the wormhole. The registry has one field,
`transports`. It maps a target name (`to`) to the ordered list of
*transports*: records `{from, to, passengers, order, class, ...}`.

A portal calls `open` to send its content to a target and `close` to take it
back (with `force`, every portal's content at that target). A target asks for
its content with `hasTarget`, `hasContentFor`, `getSourceFor` and
`getContentFor`. Within a target, the records are kept sorted by `order`,
stably: two records with the same order stay in the order they were opened.

The implementation file it imports, `@/components/wormhole`, is not part
of this model. The behaviour modelled is the one its unit tests in
`test/unit/specs/wormhole.spec.js` pin down. Where those tests leave the
behaviour open, the model makes a choice of its own; the choices are listed
below.

Files:

- `routes.dfy` (module `Routes`) holds the route record and one target's
  sequence of routes. Stable insertion (`Insert`) and removal by source
  (`Without`) are pure functions. The lemmas prove:
  - `Insert` is a permutation. On a sorted sequence it is the stable sort by
    order of that sequence with the route appended, and the only one.
  - It keeps a sorted sequence sorted and, for a route from a source not
    yet present, keeps sources distinct.
  - The splice position `Insert` uses is characterised exactly.
- `registry.dfy` (module `Registry`) holds the whole `transports` map as a
  value. `Opened` and `Closed` are the states after `open` and `close`, and
  `HasContent`, `SourceFor` and `ContentFor` are the queries. The lemmas
  prove:
  - The well-formedness invariant is preserved: each target's routes are
    addressed to it, sorted, and from distinct sources.
  - Open and close do what they promise: replacement, removal, open then
    close, idempotence.
  - The first route is the top-priority one.
- `wormhole.dfy` (module `PortalWormhole`) holds the `Wormhole` class. Its
  field `transports` is updated in place by `Open` and `Close`, and its four
  query methods read it.
  - `Open` removes the source's old route with a filtering loop
    (`RemoveSource`), then finds the stable insertion point with a backward
    scan (`FindInsertionPoint`).
  - Each method is proved against the `Registry` functions.
- `scenarios.dfy` (module `WormholeScenarios`) proves each `it(...)` case of
  the unit tests as a method on a fresh `Wormhole`. Each one reaches the
  state the test expects from the class's contracts and the `Registry` and
  `Routes` lemmas, never from the method bodies.

Design choices where the tests say nothing:

- **Routes without an order sort first.** `order` is `Option<int>`, and
  `None` sorts before every defined order. Two `None`s tie and keep their
  opening order.
  - This is the model's own choice: an absent order is treated as the lowest
    possible key.
  - The test at lines 71-106 checks only membership (`arrayContaining`,
    lines 104-106), so any order of the four records passes it.
  - With this choice, orders `[undefined, undefined, 0, 2]` from test1..test4
    give `test1, test2, test3, test4`.
- **A repeated `open` replaces.** Opening from a source that already has a
  route at the target replaces that route. The old route is taken out and
  the new one is inserted by its order, after every route of equal order
  (`Registry.OpenIsStableSort`); it does not take the old route's slot. The
  tests never exercise this.
- **An absent target stays absent on `close`.** A `close` on a target that
  was never opened changes nothing.
- **Both target checks mean "non-empty".** `hasTarget` and `hasContentFor`
  are true exactly when the target has at least one route.

## Model

| member | source | states |
|---|---|---|
| Routes.OrderLe | test/unit/specs/wormhole.spec.js:71-106 | the sort key comparison: a route without an order is at most every route; a defined order is never at most an undefined one; two defined orders compare as integers |
| Routes.OrderLeIsTotalPreorder | test/unit/specs/wormhole.spec.js:33-106 | the comparison is reflexive, total, transitive and antisymmetric on order values, so sorting by it is well defined |
| Routes.Insert | test/unit/specs/wormhole.spec.js:33-106 | the stable insertion behind `open`; its own contract only says the length grows by one, and its meaning is carried by `InsertPermutes`, `InsertIsStableSort` and `StableSortIsInsert` |
| Routes.Without | test/unit/specs/wormhole.spec.js:126-152 | every route kept is from another source and was in the input; every route from another source is kept |
| Routes.InsertPermutes | test/unit/specs/wormhole.spec.js:33-69 | inserting a route adds exactly that route to the target's routes and loses none (multiset equality) |
| Routes.InsertMembers | test/unit/specs/wormhole.spec.js:71-106 | after an insertion the new route and every old route are present, and nothing else is |
| Routes.InsertionPoint | test/unit/specs/wormhole.spec.js:33-69 | the insertion position lies just after the last route whose order is at most the new one's; every route after it has a strictly greater order |
| Routes.InsertAt | test/unit/specs/wormhole.spec.js:33-69 | any position with that characterisation is where `Insert` splices the route in |
| Routes.InsertIsSplice | test/unit/specs/wormhole.spec.js:33-69 | `Insert` is the splice of the route at its insertion point |
| Routes.InsertSorted | test/unit/specs/wormhole.spec.js:33-69 | inserting into a sequence sorted by order keeps it sorted |
| Routes.InsertDistinct | test/unit/specs/wormhole.spec.js:126-152 | inserting a route from a new source keeps every source's route unique |
| Routes.InsertKeepsTies | test/unit/specs/wormhole.spec.js:33-69 | for every order value, the routes with that value appear after insertion as in the old sequence with the new route appended (stability) |
| Routes.InsertIsStableSort | test/unit/specs/wormhole.spec.js:33-69 | inserting into a sorted sequence is the stable sort by order of that sequence with the route appended |
| Routes.StableSortUnique | test/unit/specs/wormhole.spec.js:33-69 | two sorted sequences with the same routes per order value are equal: a stable sort has one outcome |
| Routes.StableSortIsInsert | test/unit/specs/wormhole.spec.js:33-69 | every stable sort of a sorted sequence plus one appended route equals `Insert`'s result |
| Routes.WithoutSorted | test/unit/specs/wormhole.spec.js:126-152 | removing a source keeps a sorted sequence sorted |
| Routes.WithoutDistinct | test/unit/specs/wormhole.spec.js:126-152 | removing a source keeps sources distinct |
| Routes.WithoutInsert | test/unit/specs/wormhole.spec.js:109-124 | removing the source of a route just inserted from a new source gives back the old sequence |
| Routes.WithoutSingle | test/unit/specs/wormhole.spec.js:126-152 | when exactly one route comes from the source, removal cuts out that one route in place |
| Routes.WithoutNone | test/unit/specs/wormhole.spec.js:126-152 | removing a source with no route changes nothing |
| Registry.Lookup | test/unit/specs/wormhole.spec.js:177-227 | an absent target reads as no routes; a present one as its stored routes |
| Registry.WellFormed | test/unit/specs/wormhole.spec.js:33-175 | the registry invariant; it implies that every route is stored under its own target and that each target's first route has an order at most every other route's there |
| Registry.Opened | test/unit/specs/wormhole.spec.js:11-31 | after `open` the route's target exists and every other target's routes are unchanged |
| Registry.Closed | test/unit/specs/wormhole.spec.js:109-175 | `close` keeps every key, including the closed target itself, and leaves other targets unchanged |
| Registry.HasContent | test/unit/specs/wormhole.spec.js:177-201 | true exactly when some route is routed to the target |
| Registry.SourceFor | test/unit/specs/wormhole.spec.js:203-214 | absent exactly when the target has no content; otherwise the `from` of one of its routes |
| Registry.ContentFor | test/unit/specs/wormhole.spec.js:216-227 | absent exactly when the target has no content; otherwise the `passengers` of one of its routes |
| Registry.OpenReplaces | test/unit/specs/wormhole.spec.js:11-31 | after `open` the route is at its target, it is the only route from its source there, and every other source's route is kept |
| Registry.CloseRemoves | test/unit/specs/wormhole.spec.js:109-175 | a forced close empties the target; a plain close keeps exactly the routes from other sources |
| Registry.OpenPreservesWellFormed | test/unit/specs/wormhole.spec.js:33-106 | `open` keeps every target's routes addressed to it, sorted by order and from distinct sources |
| Registry.ClosePreservesWellFormed | test/unit/specs/wormhole.spec.js:109-175 | `close` keeps the same invariant |
| Registry.OpenIntoEmptyTarget | test/unit/specs/wormhole.spec.js:11-31 | opening into a target with no routes stores the route verbatim as its only one |
| Registry.OpenIsStableSort | test/unit/specs/wormhole.spec.js:33-106 | the target's routes after `open` are the stable sort of the old routes (less the source's old one) with the new route appended |
| Registry.OpenKeepsOthers | test/unit/specs/wormhole.spec.js:126-152 | apart from the routes from the opened route's source, the target's routes are the old ones in the old order |
| Registry.OpenNewSourceAt | test/unit/specs/wormhole.spec.js:33-106 | a route from a new source is spliced in just after the last route whose order is at most its own |
| Registry.OpenIdempotent | test/unit/specs/wormhole.spec.js:11-31 | opening the same route twice equals opening it once |
| Registry.OpenThenClose | test/unit/specs/wormhole.spec.js:109-124 | closing a route just opened by a new source restores the old state, with the target key kept |
| Registry.CloseIdempotent | test/unit/specs/wormhole.spec.js:109-152 | closing twice equals closing once |
| Registry.QueriesAfterOpenAndForceClose | test/unit/specs/wormhole.spec.js:154-201 | after `open` the target has content; after a forced close it has none |
| Registry.FirstIsTopPriority | test/unit/specs/wormhole.spec.js:203-227 | in a well-formed state the sources and contents queries answer from the first route, whose order is at most every other route's |
| Registry.OpenedRouteFirst | test/unit/specs/wormhole.spec.js:203-214 | the opened route's source becomes the target's top source exactly when every other route kept there has a strictly greater order |
| PortalWormhole.Wormhole.constructor | test/unit/specs/wormhole.spec.js:6-9 | a fresh registry has an empty `transports` map and satisfies the invariant |
| PortalWormhole.Wormhole.Open | test/unit/specs/wormhole.spec.js:11-106 | the new state is `Opened` of the old state, and the invariant is preserved |
| PortalWormhole.Wormhole.Close | test/unit/specs/wormhole.spec.js:109-175 | the new state is `Closed` of the old state (force defaulting to false), and the invariant is preserved |
| PortalWormhole.Wormhole.HasTarget | test/unit/specs/wormhole.spec.js:177-188 | true exactly when some route is routed to the target |
| PortalWormhole.Wormhole.HasContentFor | test/unit/specs/wormhole.spec.js:190-201 | the same answer as `HasTarget` |
| PortalWormhole.Wormhole.GetSourceFor | test/unit/specs/wormhole.spec.js:203-214 | absent exactly when the target has no routes; otherwise the first route's source, whose order is the lowest there |
| PortalWormhole.Wormhole.GetContentFor | test/unit/specs/wormhole.spec.js:216-227 | absent exactly when the target has no routes; otherwise the first route's passengers, whose order is the lowest there |
| PortalWormhole.RemoveSource | test/unit/specs/wormhole.spec.js:126-152 | the filtering loop computes `Without`: the routes from other sources, in order |
| PortalWormhole.FindInsertionPoint | test/unit/specs/wormhole.spec.js:33-69 | the backward scan stops just after the last route whose order is at most the new one's, which is where `Insert` puts it |
| WormholeScenarios.Sources | test/unit/specs/wormhole.spec.js:63-64 | the `from` of every route, position by position |
| WormholeScenarios.OpenFirst | test/unit/specs/wormhole.spec.js:11-31 | on an empty registry `open` leaves exactly the target holding the route |
| WormholeScenarios.OpenAt | test/unit/specs/wormhole.spec.js:33-106 | on a single-target registry, `open` from a new source leaves the route at the position given by its order |
| WormholeScenarios.CloseAt | test/unit/specs/wormhole.spec.js:126-152 | on a single-target registry, a plain `close` cuts out the named source's only route |
| WormholeScenarios.AddsPassengersOnSend | test/unit/specs/wormhole.spec.js:11-31 | one open leaves `{target: [record]}` with each field verbatim, including `order` 0 and the class list |
| WormholeScenarios.StableSortOnOpen | test/unit/specs/wormhole.spec.js:33-69 | orders 1, 1, 0, 2 from test1..test4 leave the sources in the order test3, test1, test2, test4 |
| WormholeScenarios.StableSortWithUndefinedOrders | test/unit/specs/wormhole.spec.js:71-106 | orders undefined, undefined, 0, 2 keep all four sources, in the order test1, test2, test3, test4 |
| WormholeScenarios.RemovesContentOnClose | test/unit/specs/wormhole.spec.js:109-124 | after the open the state is `{target: [content]}`; after the close it is `{target: []}` |
| WormholeScenarios.ClosesOnlySameSource | test/unit/specs/wormhole.spec.js:126-152 | closing test-portal1 leaves only test-portal2's record at the target |
| WormholeScenarios.ClosesAllWhenForced | test/unit/specs/wormhole.spec.js:154-175 | a forced close by test-portal1 leaves `{target: []}` |
| WormholeScenarios.HasTargetScenario | test/unit/specs/wormhole.spec.js:177-188 | false on a fresh registry, true after one open to the target |
| WormholeScenarios.HasContentForScenario | test/unit/specs/wormhole.spec.js:190-201 | false on a fresh registry, true after one open to the target |
| WormholeScenarios.GetSourceForScenario | test/unit/specs/wormhole.spec.js:203-214 | absent on a fresh registry, `"source"` after the open |
| WormholeScenarios.GetContentForScenario | test/unit/specs/wormhole.spec.js:216-227 | absent on a fresh registry, `["passenger1"]` after the open |

## Left out

- The implementation file `@/components/wormhole` (test/unit/specs/wormhole.spec.js:1) is not part of this model.
  - The behaviour modelled is what the unit tests assert, plus the model's own choices listed above.
  - No detail of how `@/components/wormhole` sorts is claimed beyond its observable result. The `Routes` lemmas show that stable insertion into a sorted sequence gives the same sequence as appending and re-sorting stably. Every state reached from the constructor through `Open` and `Close` has sorted targets (`Valid`).
- Vue integration is left out because it is framework plumbing with no effect on the registry's state:
  - reactivity (`Vue.set`) and change notification;
  - the portal and target components' lifecycle;
  - rendering.
- The constructor's options argument (`new Wormhole({})`, lines 6-9) is left out. The model starts from a fresh object with an empty map.
- Payloads and the `class` list (with any other caller-supplied field) are type parameters. They are stored and returned verbatim and never inspected.
- Orders are unbounded integers, not JavaScript's floating-point numbers. Fractions, `NaN` and infinities are not modelled. Every test uses small integers.
- Records with a missing `from` or `to` field are not modelled: every route carries both names as strings.
- PortalWormhole.Wormhole.Open: on a target whose routes are not already sorted, it inserts stably into the sequence as it stands and does not re-sort the whole target. Such a state is reachable only by assigning `transports` directly (the tests assign only `{}`, line 8).
- PortalWormhole.Wormhole.Close takes the source and target names rather than a route object. The other fields of the object passed to `close` are never read.
- `getSourceFor` and `getContentFor` answering `undefined` is modelled as `None`.
- WormholeScenarios.StableSortWithUndefinedOrders: its exact order is this model's `None`-first choice. The test itself (lines 104-106) checks only that all four sources are present, and the model meets that too.
- Concurrency is not modelled. The registry is used from a single thread.
