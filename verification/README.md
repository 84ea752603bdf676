# A verified model of the gin-core web framework's routing and request core

gin-core is a small HTTP framework in Go. This project models the parts of it that carry state and
arithmetic, in Dafny, and proves what they keep, what they compute and where they fall short of
their intent:

- **The router** (`core/tree.go`, `core/router.go`): a compressed prefix tree per request method, whose
  nodes are split, reordered and extended in place. The simple thing it speeds up is a list of
  patterns tried one by one (`Patterns.Match`, `Registration.Scan`), and that is what it is proved to be.
- **The case-insensitive search** (`fpRec` in `core/tree.go`).
- **The middleware chain** (`core/context.go`, `core/handler.go`): re-entrant `Next`, `Abort`, panics and
  `RecoverHandler`, and what the client is sent; and **the context pool** (`core/engine.go`).
- **Blueprints** (`core/blue_print.go`) and how `Engine.init` hands their routes to the router.
- **The rule tags** of the validator (`core/validators/validate.go`).
- **The frame reader and the length-prefixed codec** (`test/new_test.go`).

## How the files fit together

Router, on values: `Patterns` (patterns and the naive matcher) - `Filling` (what matching and validity mean, place
by place) - `RouteTree` (nodes, lookup and insertion,
branch for branch, with the shape invariant) - `Routes` (the routes a tree holds; lookup against the
matcher) - `Insertion` and `Walk` (`insertChild` and `addRoute`: who is let in, what changes) - `Departures`,
`AsWritten` and `Observed` (the code as written against its intent: what it stores, when its tree stays well
formed, what lookup then gives) - `Registration` (whole sequences of registrations) - `Examples` (concrete
registrations as written).

Router, on objects: `Steps` (single turns of the loops) - `RouterNode` (the node class: `getValue`,
`incrementChildPrio`, `addRoute`, `insertChild` with their loops, proved equal to the functions of
`RouteTree`) - `HttpRouter` (one tree per method). `CaseSearch` and `CaseSearchNode` are the
case-insensitive search on values and on objects.

Requests: `Chain` (what a run of handlers does) - `ChainRuns` (what holds of every run) - `Effects` (a run read off
its handlers) - `Panics` (which panics get out) and `Recovery` (the same where handlers catch them) - `Context` (the
class, its counter a byte) - `Engine` (the pool, with the router in front). `BluePrint` hands declared routes to the
router. `Validators` reads rule tags, and `Tags` says what that means for the text of a tag. `Frames` and `Wire`
stand alone; `Options` and `Ascii` are shared helpers.

## Three departures of the insertion code

Insertion takes a parameter `v: Version` that says which of three departures from the evident intent are
repaired; `AS_WRITTEN` repairs none.

- **r1** (`core/tree.go:79-84`): when a child overtakes its siblings, the index string gains bytes instead of
  moving one, and index bytes no longer select their children.
- **r2** (`core/tree.go:149-158`): after making an in-path leaf the function does not return, and panics. A
  route is then refused whenever it is a prefix of an earlier one.
- **r3** (`core/tree.go:235-241`, `352-354`): the path and the handle are not stored when the loop over the
  wildcards ends with a parameter.

Nothing is assumed about them silently. The theorems hold for either value of `r2`, whose effect is a clause
of `Insertion.Admits`. For `r1` and `r3` as written there is a condition on tree and path, `AsWritten.Safe`: no
child on the way overtakes a sibling, and the handle is stored. For an accepted registration it holds

- if and only if the tree stays well formed (`AsWritten.AddRouteAsWritten`), and
- if and only if lookup afterwards finds, on every path, exactly what the routes give
  (`Observed.LookupObserved`; against the list of registrations, `Observed.ScanObserved`).

A safe registration does what the repaired code does, and with r1 and r3 repaired all are safe
(`AsWritten.RepairedIsSafe`). What r2 costs on safe runs is exactly the order: no path may be a prefix of an earlier
one (`AsWritten.PrefixesFirstAsWritten`). `HttpRouter` and `BluePrints.Init` work for every version,
on safe registrations. Theorems about the repaired insertion take `v.r1`, and for each path `InReach`: at most
255 wildcards (the counter is a byte), and `r3` or a pattern whose handle is stored as written.

## Other findings

- `RecoverHandler` protects up to the first panic only: the handlers behind the one that panicked are called
  outside it. In front of handlers that do not catch panics, a panic gets out exactly if the recovering handler does
  not abort, and behind a handler that opens with a panic (no Next or Abort before it) there is another one with a
  panic, no handler before that one opening with an abort (`Panics.RecoverExact`). With any number of
  RecoverHandlers that do not abort, anywhere in the chain: exactly if some handler with a panic has in front of it
  no handler that opens with an abort, and at most as many RecoverHandlers as handlers that open with a panic
  (`Recovery.CoverExact`; with aborting ones `Recovery.GuardsExact`, for every chain `Recovery.PanicsFated`).
- JSON and XML read the blueprint of the handler at the counter, which is the handler's own exactly until it calls
  `Next`. After a `Next`, where no handler aborts, panics or catches, the counter is past the chain, and they panic
  (`ChainRuns.OwnBluePrint`).
- The counter of `Next` ends at one plus the handlers plus their Next calls, so a byte is enough for 127 handlers
  that each call `Next` once, and not for 128 (`ChainRuns.CounterExact`, `ChainRuns.LayersWrap`).
- The number of handlers is taken as a byte: of 256 handlers none is called, of 257 one (`Effects.HandlersBeyondByte`).
- A status set after the last render is never sent once something was rendered, and a body is written also
  for statuses that allow none, as the status is zeroed before it is looked at (`ChainRuns.ClientGets`,
  `ChainRuns.LateStatusLost`, `ChainRuns.BodyNotAllowed`).
- A route declared on the root blueprint runs the middleware used before it twice, once exactly if there was none
  (`BluePrints.RootMiddlewareTwice`). A route runs with the outermost included blueprint on its way: with its own
  exactly if it was included at most once, or those two are the same; and the middleware of the blueprints between
  the root and its own is never run (`BluePrints.OutermostOwns`, `BluePrints.TwoLevels`).
- The case-insensitive search finds exactly the routes it can see (`CaseSearch.Seen`): it comes to a node without
  text above a catch-all only if the current byte is '/'. So it never finds a catch-all at the very start, and
  may miss one directly behind a parameter (`CaseSearch.CaseSearchExact`, `CaseSearch.RootCatchAllMissed`,
  `Examples.CatchAllBehindParamMissed`).

## Model

| member | source | states |
|---|---|---|
| `Patterns.CompatibleDisjoint` | core/tree.go:173-195 | two patterns that may be registered together never match the same path |
| `Patterns.CompatibleSymmetric` | core/tree.go:173-195 | compatibility does not depend on which pattern came first |
| `Patterns.MatchStrip` | core/tree.go:364-366 | a literal prefix of a pattern matches exactly itself, and the rest decides, with the same bindings |
| `Patterns.CompatibleStrip` | core/tree.go:113-120 | a common literal prefix does not influence whether two patterns are compatible |
| `Patterns.WildSplit` | core/tree.go:32-49 | wildcards are counted piece by piece |
| `Patterns.SegEnd` | core/tree.go:391-395 | the end of a segment: no '/' before it, and '/' or the end of the path at it |
| `Filling.MatchFills` | core/tree.go:388-446 | a pattern matches exactly the paths it can be filled to, with its wildcards' names in order and values that hold no '/' (a catch-all's starts with one) |
| `Filling.ValidPlaces` | core/tree.go:252-321 | a pattern is valid exactly if each wildcard is named and alone in its segment, and a catch-all is last and behind '/' |
| `RouteTree.Lcp` | core/tree.go:113-120 | the common prefix is common and cannot be longer |
| `RouteTree.IndexOf` | core/tree.go:206-213 | the first position of the byte, or none |
| `RouteTree.NewPos` | core/tree.go:68-77 | the child passes exactly the siblings of smaller priority directly on its left |
| `RouteTree.MoveLeft` | core/tree.go:72-77 | the moved element at its new place, the passed ones one to the right, all others unmoved |
| `RouteTree.IncrementChildPrio` | core/tree.go:65-87 | the counted child is the one found at the returned position |
| `RouteTree.Bumped` | core/tree.go:164-170 | counting the new route in a well-formed child leaves what the walk needs of it |
| `RouteTree.SplitBody` | core/tree.go:123-147 | splitting an edge keeps the shape invariant |
| `Routes.GetValueComplete` | core/tree.go:361-482 | the descent without backtracking finds every matching route, with the naive matcher's bindings in order |
| `Routes.GetWildComplete` | core/tree.go:388-440 | the same through a parameter, the buffer never overflowing |
| `Routes.GetValueSound` | core/tree.go:361-482 | what is found is a route that matches; no panic, no index out of range, no invalid node type |
| `Routes.GetWildSound` | core/tree.go:388-446 | the same from a wildcard child |
| `Routes.KidSeam` | core/tree.go:163-213 | a route below a child goes on as the index byte or the wildcard child says |
| `Routes.FirstByte` | core/tree.go:369-376 | every route of a child starts with the byte the child is found by |
| `Insertion.ParamChildSpec` | core/tree.go:277-306 | a parameter is accepted exactly if it is valid, and its nodes hold exactly that route |
| `Insertion.InsertLoopSpec` | core/tree.go:243-352 | cutting a path at its wildcards accepts exactly the valid patterns and makes exactly one route |
| `Insertion.InsertCatchAll` | core/tree.go:308-350 | the catch-all branch accepts exactly a named last catch-all, and its two nodes hold exactly that route |
| `Insertion.InsertLeaf` | core/tree.go:234-241 | a path without wildcards becomes one well-formed leaf |
| `Walk.CutSpec` | core/tree.go:108-147 | raising maxParams and splitting an edge changes no route, no count and no bound on the wildcards |
| `Walk.IncrementKeeps` | core/tree.go:65-87 | with r1: reordering keeps the routes, the order by priority and the alignment of the index bytes |
| `Walk.KidAdded` | core/tree.go:206-213 | a route added below a child found by its byte is the one route added to the node; the invariant is kept |
| `Walk.NewKidAdded` | core/tree.go:215-226 | a new child adds exactly its route and keeps the invariant |
| `Walk.ParamKidAdded` | core/tree.go:277-292 | a new parameter child adds exactly its route and keeps the invariant |
| `Walk.OnlyKidAdded` | core/tree.go:163-204 | the same for the step to a wildcard child and for the slash after a parameter |
| `Walk.WildcardConflict` | core/tree.go:173-195 | a path that does not fit the wildcard child is incompatible with every route below it |
| `Walk.ParamBesideChildren` | core/tree.go:265-270 | a wildcard beside existing children is refused, and rightly: it is incompatible with a route below them |
| `Walk.AddNewSpec` | core/tree.go:215-226 | inserting at a node with no child for the byte: accepted exactly if valid and admitted, one route added |
| `Walk.EndsInside` | core/tree.go:149-154 | a path that ends with the node's text is refused exactly if the route exists or, with r2 as written, always |
| `Walk.AddBelowSpec` | core/tree.go:160-227 | below a node's text: accepted exactly if valid and admitted by all routes there, one route added |
| `Walk.AddAtSpec` | core/tree.go:106-228 | the walk accepts exactly valid patterns admitted by every route, adds exactly one route and keeps shape, priorities, order, index bytes and wildcard bounds |
| `Departures.LoopWithStar` | core/tree.go:235-241 | a pattern with a catch-all is inserted as with r3 repaired |
| `Departures.InsertChildAsWritten` | core/tree.go:231-354 | r3 as written: the handle is stored exactly if there is no parameter or a catch-all; otherwise the new node holds no route at all |
| `Departures.AddAtKept` | core/tree.go:106-228 | r3 as written: a walk that ends in a node, or in a pattern stored as written, does what the repaired one does |
| `Departures.AddRouteKept` | core/tree.go:91-229 | the same for a whole registration |
| `Departures.StoredKept` | core/tree.go:231-354 | a pattern without parameters or with a catch-all is kept on every tree |
| `Departures.IncrementAsWritten` | core/tree.go:79-84 | r1 as written: index bytes stay aligned exactly if the sibling on the left has more routes than the child had |
| `AsWritten.AddAtSteady` | core/tree.go:106-228 | r1 as written: a walk on which no child overtakes does what the repaired one does |
| `AsWritten.AddAtLost` | core/tree.go:65-87 | any other accepted walk leaves a node with more index bytes than children |
| `AsWritten.AddAtForgets` | core/tree.go:231-354 | r3 as written: a walk that does not keep its handle leaves a node without routes |
| `AsWritten.AddRouteAsWritten` | core/tree.go:91-229 | as written, an accepted registration keeps the tree well formed if and only if it is safe, and a safe one does what the repaired code does |
| `AsWritten.BuildAsWritten` | core/router.go:5-17 | safe sequences of registrations build the tree the repaired code builds |
| `AsWritten.LookupAsWritten` | core/tree.go:361-482 | on safe sequences, as written: accepted exactly if pairwise acceptable, and lookup is the scan of the patterns |
| `AsWritten.RepairedIsSafe` | core/tree.go:91-229 | with r1 and r3 repaired every sequence is safe, and whatever is registered next |
| `AsWritten.PrefixesFirstAsWritten` | core/tree.go:149-158 | r2 as written, on safe sequences: accepted exactly if the repaired code accepts and no path is a prefix of an earlier one; "/" only as the first |
| `AsWritten.NextAsWritten` | core/router.go:5-17 | one more safe registration keeps the sequence safe, and is accepted exactly if it is acceptable |
| `Observed.AtLoses` | core/tree.go:79-84 | r1 as written: a walk on which a child overtakes leaves a route of the first overtaken sibling that lookup no longer finds |
| `Observed.AtUnfound` | core/tree.go:235-241 | r3 as written: after a walk that does not keep its handle, lookup does not find the new route |
| `Observed.Missed` | core/tree.go:361-482 | after every unsafe registration some route is not found on a path it matches |
| `Observed.LookupObserved` | core/tree.go:91-229 | as written, lookup after an accepted registration finds exactly what the routes give, on every path, if and only if the registration is safe |
| `Observed.ScanObserved` | core/tree.go:361-482 | after a safe sequence, lookup stays the scan of all patterns, the next one included, if and only if that one is safe |
| `Registration.AddRouteSpec` | core/tree.go:91-229 | a registration is accepted exactly if valid and admitted beside every route; it adds one route, keeps all others and the invariant, and counts it at the root |
| `Registration.FirstRoute` | core/tree.go:98-103 | the first registration of a method |
| `Registration.LookupExact` | core/tree.go:361-482 | lookup never panics, and finds a handle and bindings if and only if a route with them matches |
| `Registration.Build` | core/router.go:5-17 | every tree built by accepted registrations is well formed |
| `Registration.BuildSpec` | core/tree.go:91-229 | a sequence is accepted exactly if pairwise acceptable; the tree holds exactly its routes, and the root's priority is their number |
| `Registration.LookupIsScan` | core/tree.go:361-482 | for every accepted sequence and every path, lookup gives what trying the patterns one by one gives |
| `Registration.Unambiguous` | core/tree.go:163-195 | no path matches two registrations of an accepted sequence |
| `Registration.OrderDoesNotMatter` | core/tree.go:207-224 | two accepted orders of the same registrations look up alike on every path |
| `Registration.AnyOrderAccepted` | core/tree.go:149-158 | repaired: every order of an accepted sequence is accepted |
| `Registration.RootMustComeFirst` | core/tree.go:149-158 | r2 as written, r1 repaired: "/" is accepted only as the first registration |
| `Examples.PrefixRefused` | core/tree.go:149-158 | as written, from an empty tree: after "/a" the route "/" panics, though the patterns are compatible and the repaired code accepts it |
| `Examples.IndexByteLost` | core/tree.go:79-84 | as written, from an empty tree: after "/a" and "/b", adding "/bc" makes "/a" unreachable |
| `Examples.HandleLost` | core/tree.go:235-241 | as written, from an empty tree: "/:x" stores no handle, and looking "/a" up panics |
| `Examples.CatchAllBehindParamMissed` | core/tree.go:542-548 | as written, from an empty tree: the case-insensitive search misses the route "/:a/*b" on a path that lookup finds |
| `RouterNodes.RouterNode.GetValue` | core/tree.go:361-482 | the loop with its lazily allocated buffer computes the lookup of the tree value, changing nothing |
| `RouterNodes.RouterNode.TakeWild` | core/tree.go:388-443 | one parameter is recorded within the buffer's capacity, and the rest of the path goes to the only child |
| `RouterNodes.RouterNode.Overtake` | core/tree.go:68-77 | the swapping loop moves the child to its new position and shifts the passed ones |
| `RouterNodes.RouterNode.IncrementChildPrio` | core/tree.go:65-87 | in place: new children, index string and position are those of the specification, every subtree otherwise unchanged |
| `RouterNodes.RouterNode.SplitEdge` | core/tree.go:122-147 | in place: the node becomes the split of its old value; the rest of the tree is untouched |
| `RouterNodes.RouterNode.CutText` | core/tree.go:108-147 | the first half of a turn: maxParams, common prefix, split |
| `RouterNodes.RouterNode.GoBelow` | core/tree.go:160-227 | the second half: where the walk goes on, ends or panics, as the specification says |
| `RouterNodes.RouterNode.AddNew` | core/tree.go:215-226 | a new child is appended, counted, moved and filled in place |
| `RouterNodes.RouterNode.AddParam` | core/tree.go:277-306 | a parameter node and what follows it are hung below the node; what is left to insert is unchanged |
| `RouterNodes.RouterNode.AddCatchAll` | core/tree.go:323-348 | wrapper and holder are hung below the node |
| `RouterNodes.RouterNode.InsertLoop` | core/tree.go:243-352 | the loop over the wildcards, with all its panics, computes the specification's subtree in place |
| `RouterNodes.RouterNode.InsertChild` | core/tree.go:231-354 | insertChild panics exactly when the specification does, and otherwise makes its value |
| `RouterNodes.RouterNode.WalkTurn` | core/tree.go:107-228 | one turn of the walk keeps the rest of the tree and what is still to be done |
| `RouterNodes.RouterNode.AddRoute` | core/tree.go:91-229 | the walking loop panics exactly when the specification does, and otherwise turns the linked nodes into its tree, no node shared |
| `Steps.CommonPrefix` | core/tree.go:113-120 | the loop finds the longest common prefix |
| `Steps.CountWildcards` | core/tree.go:32-49 | the loop counts the wildcards, capped at 255 |
| `Steps.WildcardSpan` | core/tree.go:252-263 | the loop finds the end of the wildcard, or a second wildcard in the segment |
| `HttpRouters.HttpRouter.Insert` | core/router.go:5-17 | for every version of the code, on safe registrations: accepted exactly if the method's registrations stay acceptable; only that method's routes change |
| `HttpRouters.HttpRouter.Match` | core/router.go:19-32 | for every version of the code: the handlers and parameters of the scan of the method's registrations, or none |
| `Ascii.Letters` | core/tree.go:536-559 | upper and lower case change letters place by place and nothing else |
| `CaseSearch.FpSound` | core/tree.go:490-664 | what is found is the path as a route spells it that the search can see: equal up to case, matched by that route, with the path's own bytes at wildcards |
| `CaseSearch.CaseSearchSound` | core/tree.go:484-487 | a corrected path has the input's length and letters up to case, and looking it up finds a handle |
| `CaseSearch.SpellingFound` | core/tree.go:490-664 | what is found is the path as a seen route spells it, its own bytes kept at wildcards; of all such spellings it is the one with a small letter where it first differs from another |
| `CaseSearch.FpComplete` | core/tree.go:504-626 | a route that the search sees and that matches up to the case of its literal parts is found, lower case tried before upper |
| `CaseSearch.CaseSearchComplete` | core/tree.go:484-487 | a route whose catch-all stands behind text is found, however the tree is split |
| `CaseSearch.CaseSearchExact` | core/tree.go:484-664 | on every tree: found if and only if some route that the search sees matches up to case |
| `CaseSearch.FindableSeen` | core/tree.go:505-578 | a route whose catch-all stands behind text is seen, however the tree is split |
| `CaseSearch.CaseSearchPlain` | core/tree.go:484-664 | where every catch-all stands behind text: found if and only if some route matches up to case |
| `CaseSearch.EmptyTextMissed` | core/tree.go:505-578 | at a node without text the search goes on exactly if the current byte is '/' |
| `CaseSearch.RootCatchAllMissed` | core/tree.go:520-578 | a tree whose route is a catch-all at the very start never finds anything |
| `CaseSearchNodes.Search` | core/tree.go:490-664 | the walking loop with its recursive lower-case branch computes the specification |
| `CaseSearchNodes.FindPath` | core/tree.go:484-487 | started at a method's root, the search computes what the theorems about whole trees speak of |
| `CaseSearchNodes.AtIndex` | core/tree.go:505-575 | lower case by a recursive call, upper case by going on |
| `CaseSearchNodes.AtWild` | core/tree.go:580-622 | parameter and catch-all take their part of the path as it is |
| `ChainRuns.RunsInOrder` | core/context.go:65-77 | handlers are called in order, without gaps, each at most once, none after an abort, all without abort and uncaught panic; at every moment the counter is Next calls plus handlers returned |
| `ChainRuns.LoopInv` | core/context.go:68-72 | the loop, entered at any nesting depth, keeps that invariant and ends past the last handler |
| `ChainRuns.StepInv` | core/context.go:328-330 | so does everything a handler can do, nested Next, Abort and caught panics included |
| `ChainRuns.CounterBound` | core/context.go:65-73 | the counter never exceeds 1 + handlers + the Next calls they can make |
| `ChainRuns.ByteSuffices` | core/context.go:23 | a byte holds it for up to 127 handlers that call Next at most once |
| `ChainRuns.CounterExact` | core/context.go:65-73 | without Try, Abort and Panic the counter ends at exactly 1 + handlers + their Next calls, in a byte exactly if those are at most 254 |
| `ChainRuns.LayersWrap` | core/context.go:65-73 | handlers that work before and after Next nest like an onion, and the counter ends at 2n + 1, in a byte exactly for n up to 127 |
| `Panics.RecoverCatchesOne` | core/handler.go:45-55 | in front of a chain where one handler can panic, whatever catches what, no panic gets out and all handlers are still called |
| `Panics.LoopThrows` | core/context.go:65-73 | without Try: a panic comes out of the loop exactly if a handler with a panic is called, and where the counter is left then |
| `Panics.RecoverExact` | core/handler.go:45-55 | a panic gets out from behind RecoverHandler if and only if its own handler does not abort and a handler that opens with a panic is followed by another with one, no abort opening before it |
| `Panics.SecondPanicEscapes` | core/handler.go:45-55 | the shortest such chain |
| `Recovery.PanicsFated` | core/context.go:65-73 | for every chain, whatever catches what: a panic gets out exactly if following only panics, aborts and the counter, each handler once from each place, says so |
| `Recovery.GuardsExact` | core/handler.go:45-55 | any number of RecoverHandlers, aborting or not: one reading of the chain, with a stack of those not used up, decides whether a panic gets out |
| `Recovery.CoverExact` | core/handler.go:45-55 | RecoverHandlers that do not abort: a panic gets out if and only if a handler with one has no abort opening before it, and no more RecoverHandlers before it than handlers opening with a panic |
| `ChainRuns.OwnBluePrint` | core/context.go:90-92 | the blueprint read is the running handler's own exactly until it calls Next; after a Next, where no handler aborts, panics or catches, it is out of range |
| `ChainRuns.ClientGets` | core/context.go:254-266 | what is written, in order: for every render the status pending then, if any, and behind it the text; at the end a status still pending, if nothing was rendered |
| `Effects.StepsInOrder` | core/context.go:65-73 | without Try, Abort and Panic: all steps are done in order, those of the handlers behind where a handler first calls Next, or after it; the context escapes exactly if a handler called contains an Escape |
| `Effects.HandlersBeyondByte` | core/context.go:68 | of 256 q + n handlers at most the first n are called, and all n without abort and uncaught panic |
| `ChainRuns.BodyNotAllowed` | core/context.go:254-266 | setting a status that allows no body and rendering writes both status and body |
| `ChainRuns.LateStatusLost` | core/context.go:55-59 | a status set after the render is never written |
| `Contexts.Context.Next` | core/context.go:65-73 | the byte wraps exactly if the unbounded counter exceeds 255, and otherwise the loop does what the chain specification says |
| `Contexts.Context.Perform` | core/context.go:241-330 | the same for each thing a handler does |
| `Contexts.Context.Render` | core/context.go:254-266 | pending status sent once and zeroed, then the body |
| `Contexts.Context.RenderWithBluePrint` | core/context.go:268-278 | reads the blueprint at the counter and renders, or panics past the chain without writing |
| `Contexts.Context.Start` | core/context.go:49-59 | finish happens after the run, panic or not |
| `Engines.Engine.ServeHTTP` | core/engine.go:113-141 | the interceptors and the handlers of the scanned route are run on a pooled context as on a new one; it goes back cleared, unless it escaped or a panic went through; the client sees the work of the interceptors around that of the route's handlers, and on an unknown path only that of the one for it |
| `Engines.Engine.ServeAll` | core/engine.go:113-141 | the same for any sequence of requests on any choice of pooled contexts |
| `BluePrints.MountedExpands` | core/blue_print.go:123-135 | copying a branch's routes behind a prefix gives what declaring them there gives, prefixes outermost first |
| `BluePrints.BluePrint.Use` | core/blue_print.go:37-39 | later routes get the middleware, earlier ones keep theirs |
| `BluePrints.BluePrint.SetPrefix` | core/blue_print.go:42-44 | later routes get the prefix, earlier ones keep theirs |
| `BluePrints.BluePrint.Handle` | core/blue_print.go:94-102 | one more declared route, with prefix and middleware of this moment |
| `BluePrints.BluePrint.Register` | core/blue_print.go:105-120 | the node is appended under the upper-case method, or under each known method for "*" |
| `BluePrints.BluePrint.Include` | core/blue_print.go:123-135 | the branch's routes of this moment are declared behind the prefix, whatever order the map is walked in, also where a blueprint includes itself |
| `BluePrints.Init` | core/engine.go:50-65 | for every version of the code, on safe registrations: the router ends up with exactly the declared routes of every method, in order, or panics exactly if some method's are not acceptable |
| `BluePrints.RootMiddlewareTwice` | core/engine.go:54 | in every history: a route declared on the root carries the middleware used before it twice, and once exactly if there was none |
| `BluePrints.DeclaredRoute` | core/blue_print.go:94-102 | in every history: a route declared on the root stands behind the prefix last set by then, and runs all middleware of the root, then that used by then, then its handlers, one by one |
| `BluePrints.IncludedRoute` | core/blue_print.go:123-135 | the same for a route of an included branch: behind the include's prefix and its own, with its own middleware behind the root's, and with the branch |
| `BluePrints.ServedMethods` | core/blue_print.go:105-120 | "*" serves the eight known methods, any other verb its upper-case form |
| `BluePrints.OutermostOwns` | core/blue_print.go:123-135 | in every history: a route runs the root's middleware and what was declared with it, with the outermost included blueprint; with its own exactly if included at most once or the two are the same |
| `BluePrints.TwoLevels` | core/blue_print.go:123-135 | a route included through two levels runs with the blueprint in between, without its middleware |
| `Validators.Validate` | core/validators/validate.go:52-96 | the loops over rules and parameters call the validators, and stop at the errors, of the specification |
| `Tags.SingleParam` | core/validators/validate.go:65-91 | a rule with one parameter, whatever stands around it: m and message set the message, v and value the value, any other name is an error |
| `Tags.PairOfParams` | core/validators/validate.go:65-91 | two parameters in either order, with or without one space in front, a second space belonging to the name: both are set, the second taking everything behind the first comma; the first unexpected name is the error |
| `Tags.NoContent` | core/validators/validate.go:78-81 | a parameter without '=' is a syntax error |
| `Tags.TwoContents` | core/validators/validate.go:78-81 | so is one with two of them |
| `Tags.UnknownKey` | core/validators/validate.go:59-63 | an unknown key stops with its error, and nothing is called for it |
| `Tags.PartsInOrder` | core/validators/validate.go:52-91 | what is behind a semicolon is read after what is in front of it, unless that stopped with an error; the calls are joined in order |
| `Tags.NoRuleNothing` | core/validators/validate.go:52-56 | a piece without a rule changes nothing |
| `Tags.WordBytes` | core/validators/validator.go:6 | a key is made of ASCII letters, digits and underscores |
| `Tags.FindRuleExact` | core/validators/validator.go:6 | the expression finds the leftmost word in front of parentheses, with the longest text up to a ')' on the line; nothing exactly if there is none |
| `Validators.ReadBack` | core/validators/validate.go:52-91 | printed rules are read back if and only if keys are words, messages have no `,;=` or newline and values no `;=` or newline |
| `Validators.RuleFound` | core/validators/validator.go:6 | the expression finds a printed rule whole, parentheses inside included |
| `Validators.CallsSolid` | core/validators/validate.go:52-91 | whatever the tag, every validator called has a word as key and parameters without separators |
| `Frames.ParseUnique` | test/new_test.go:104-127 | cutting a stream into frames and an incomplete rest is possible in one way only, and that is the parse |
| `Frames.ParseInParts` | test/new_test.go:65-88 | parsing may be interrupted anywhere |
| `Frames.LeftoverSmall` | test/new_test.go:104-117 | fewer than 261 bytes are ever left over |
| `Frames.Reader.Move` | test/new_test.go:93-102 | the window moves to the front with its bytes unchanged, also where it overlaps itself |
| `Frames.Reader.GetData` | test/new_test.go:104-127 | dispatches exactly the whole frames of the window and leaves the rest as the window; terminates |
| `Frames.Reader.Receive` | test/new_test.go:65-88 | dispatched frames and window are the parse of all bytes so far; "too large" never happens, and at least one byte fits |
| `Frames.Reader.Read` | test/new_test.go:65-91 | however the stream is cut, the frames dispatched are those of one parse of all bytes |
| `Wire.PutUint32` | test/new_test.go:233-234 | four bytes of the given value, all other bytes unchanged |
| `Wire.ValueInjective` | test/new_test.go:253-254 | bytes of a given number are determined by their little-endian value |
| `Wire.ShortMessage` | test/new_test.go:232-235 | a short message byte by byte: the id first, then the length, least significant byte first |
| `Wire.SendAll` | test/new_test.go:230-240 | the bytes sent carry the messages, one after the other |
| `Wire.ReceiveAll` | test/new_test.go:245-265 | the receiver's loop computes the decoding of the stream |
| `Wire.RoundTrip` | test/new_test.go:230-265 | decoding what was sent gives it back if and only if every id and length fits in 32 bits |
| `Wire.TruncatedStream` | test/new_test.go:248-260 | a stream cut off anywhere yields exactly the messages wholly before the cut |

## Left out

Modelling choices:

- Strings are byte strings, one `char` per byte. A panic of the source is a result (`None`, `Crash`, `not ok`, a
  panic value), and its message text is not modelled; after a panicking `Insert` the router is not used.
- Handlers are numbers in the router and finite straight-line programs in the chain; which branch a handler
  takes is taken as resolved, and so is whether a JSON or XML render is one or a panic (`ChainRuns.OwnBluePrint`
  says which). A panic value is never nil.
- A route is registered with a handler list that is not nil; `init` always makes one.
- `priority` is a natural number, not a `uint32`; `Registration.BuildSpec` shows that it is the number of routes.
- Append is by value: lists sharing a backing array in Go (core/blue_print.go:95, core/engine.go:54 and 122) are
  not seen to interfere.
- The order in which Go walks a map is arbitrary in `BluePrints.BluePrint.IncludeAll` and `BluePrints.Init`.

Not modelled:

- The trailing-slash hint of `getValue` and slash fixing in `fpRec`; `Match` discards the hint.
- Bytes of multi-byte characters in `fpRec` (core/tree.go:523-540): text is ASCII there.
- `fullPath`, which every registration overwrites on the root, and the parameters `Match` stores on a miss.
- `AddInterceptors` (the interceptor list is given), `AbortHandler`, `RawHandlerFuncGroup`, `Static`.
- What the handlers read of `items`, `Params` and `fullPath`, which `reset` leaves in a pooled context.
- The parent getters of blueprints, the reflective `Bind`, request parsing, serializers, renderers, file storage,
  logging and the server itself.
- Validator functions (each one called is satisfied) and the struct fields whose tags are read.
- Sockets and end of stream in the frame reader: a read delivers at least one byte, and each frame is kept as it
  was when dispatched, while the callback of the source gets slices of the buffer.

Weaker than the source might suggest:

- HttpRouters.HttpRouter.Insert: at most 255 wildcards in a pattern, what the byte counter holds; as written, safe registrations only, as an unsafe one leaves a tree on which lookup is wrong (`Observed.LookupObserved`).
- HttpRouters.HttpRouter.Match: fullPath, and the parameters stored when nothing is found, are not modelled.
- BluePrints.Init: the same limits as `HttpRouters.HttpRouter.Insert`; starters are not modelled.
- RouterNodes.RouterNode.GetValue: the trailing-slash hint, and the parameters returned when nothing is found, are not modelled.
- RouterNodes.RouterNode.TakeWild: the trailing-slash hint is not modelled.
- CaseSearchNodes.Search: no slash fixing, and text is ASCII.
- CaseSearchNodes.FindPath: no slash fixing, and text is ASCII.
- CaseSearch.CaseSearchComplete: for patterns whose catch-all stands behind text; `CaseSearch.CaseSearchExact` has every tree.
- Panics.RecoverCatchesOne: one direction; `Recovery.PanicsFated`, `Recovery.CoverExact` and `Panics.RecoverExact` are exact.
- Panics.RecoverExact: for handlers behind that do not catch panics; `Recovery` has the others.
- Contexts.Context.Next: a run is followed until its counter wraps; there, unless it has aborted, the source indexes a 256th handler.
- Contexts.Context.Perform: the same.
- Contexts.Context.Start: the same.
- Engines.Engine.ServeHTTP: a request whose counter wraps is not followed further.
- Engines.Engine.ServeAll: for requests whose counter does not wrap.
- Validators.Validate: every validator called is satisfied, and the tags of one field are looked at.
- Frames.Reader.Read: the source loops for ever at the end of the stream; the model stops there.
