# typed-state-machine in Dafny

A model of the core of `typed-state-machine`, a strongly typed state machine
library in TypeScript. It covers three parts.

- **Transitions** (module `Transitions`, src/models/transition.model.ts).
  - A transition goes from one state or an array of states to one state or an
    array of states, and may carry a name.
  - The constructor copies whatever fields a partial configuration supplies.
  - `toString` renders a transition as `from->to`, with ` (name)` appended when
    the name is truthy.
- **The machine** (module `Machine`, class `TypedStateMachine`, src/typed-state-machine.ts).
  - The machine holds its current state and its configuration: the initial
    state, a copy of the transitions array and the `canSelfLoop` flag.
  - It answers four queries:
    - `can(newState)`: is there a transition from the current state to `newState`,
      or a permitted self-loop?
    - `getAllStates()`: every state named by a transition, once each, in order of
      first appearance, with whether `can` allows moving there. It is built in a
      JavaScript `Map`, which keeps insertion order; that Map is module `OrderedMaps`.
    - `getNextStates()`: the reachable states among those.
    - `getAllTransitions()`: a copy of the stored transitions.
  - `transit` and `goto` are stubs in this version of the source, and they are
    modelled as written. Life-cycle behaviour described elsewhere for them is not
    in this code.
  - Module `StateGraph` is the pure specification of `can`, `getAllStates` and
    `getNextStates`. The class methods for these run the same loops and `Map`
    updates as the source, and are proved equal to those specification functions.
    `getAllTransitions` is specified by its own contract: a fresh array holding the
    stored transitions.
- **Hook aggregation** (module `Hooks`, src/helpers/hooks.helper.ts).
  - `HooksHelper.triggerHooks` calls every handler of one hook type, across all
    bindings it is given, in order.
  - It ANDs together the booleans they return, directly or through a promise.

Two JavaScript details are kept, because the code depends on them.

- **Truthiness of `find`.** `can` tests array membership with `arr.find(s => s == x)`
  and uses the returned element as a truth value. A falsy state inside an array,
  such as `0` or `""`, is therefore never matched, while scalar endpoints compare
  with `==`. JavaScript truthiness of state values is a function `isTruthy: T -> bool`
  held by the machine. `StateGraph.NamesWhenTruthy` shows the quirk vanishes for
  truthy states. `Fixtures.FalsyStateInArrayIsIgnored` shows it with numbers.
- **Unset fields.** Fields a partial configuration leaves out stay `undefined`. They
  are `None` in the model, render as the text `undefined`, and equal no state.

Rendering of a single state is a parameter `show: T -> string`.

Module `Fixtures` replays the concrete transition lists of the repository's tests
(src/tests/initialization.spec.ts and tests/transition.spec.ts) through the model.

## Model

| member | source | states |
|---|---|---|
| Transitions.Create | src/models/transition.model.ts:32-35 | The constructor copies exactly the `from`, `to` and `name` a configuration supplies. Without a configuration every field is unset. |
| Transitions.Unset | src/models/transition.model.ts:32-35 | A transition built without configuration has no `from`, `to` or `name`. |
| Transitions.ToString | src/models/transition.model.ts:40-57 | Defines `toString`: the from part ending in `->`, then the to part, then the name suffix. What the text looks like is stated by ToStringParts and NameSuffixIffTruthy. |
| Transitions.Render | src/models/transition.model.ts:42-51 | An unset endpoint renders as `undefined`. An array endpoint is always bracketed: it is at least two characters, starting with `[` and ending with `]`, whatever its elements, including none. |
| Transitions.Suffix | src/models/transition.model.ts:53-54 | The suffix is empty exactly when the name is falsy. Otherwise it is ` (` + name + `)`, three characters longer than the name. |
| Transitions.SingletonArrayBracketed | src/models/transition.model.ts:43-49 | A one-element array endpoint is bracketed too: `[x]` renders as `"[" + show(x) + "]"`. |
| Transitions.NameIsTruthy | src/models/transition.model.ts:53 | Defines the `if (this.name)` test: the name is set and not the empty string. |
| Transitions.Join | src/models/transition.model.ts:43 | Defines `join(sep)`: the parts with `sep` between neighbours; its length is in `JoinLength` and its inverse in `SplitJoin`. |
| Transitions.ToStringParts | src/models/transition.model.ts:40-57 | Two scalar endpoints and no truthy name give exactly `show(from) + "->" + show(to)`. An array `from` makes the text start with `[`. An array `to` without a truthy name makes it end with `]`. |
| Transitions.ArrayEndpointRendering | src/models/transition.model.ts:43 | For a non-empty array whose rendered states contain no comma, splitting the text between the brackets at commas gives back the rendered states in order. |
| Transitions.NameSuffixIffTruthy | src/models/transition.model.ts:53-54 | With a truthy name the text ends in `" (" + name + ")"`. The output equals the unnamed rendering exactly when the name is falsy (unset or empty). |
| Transitions.SplitJoin | src/models/transition.model.ts:43 | `join(",")` is undone by splitting at commas, when no part contains a comma and there is at least one part. |
| Transitions.JoinLength | src/models/transition.model.ts:43 | The joined text is as long as its parts plus one separator between each pair of neighbours. |
| Transitions.ShowAll | src/models/transition.model.ts:43 | `map(show)` keeps the length and renders element `i` as `show(xs[i])`. |
| StateGraph.Names | src/typed-state-machine.ts:126-146 | Defines the endpoint test of `can`. A single state matches by `==`. An array matches when it holds the state and the state is truthy, the `find` quirk. An unset endpoint matches nothing. |
| StateGraph.Leads | src/typed-state-machine.ts:125-148 | Defines one iteration of the scan: the transition's `from` names the current state and its `to` names the target. |
| StateGraph.AnyLeads | src/typed-state-machine.ts:123-150 | Defines the `reachable` flag after the `forEach`: the OR of `Leads` over the transitions in order. `AnyLeadsExists` gives its meaning. |
| StateGraph.Allows | src/typed-state-machine.ts:122-158 | Defines the answer of `can`: the self-loop case or the scanned flag. `AllowsExactly` and `AllowsReorder` state its meaning. |
| StateGraph.AnyLeadsExists | src/typed-state-machine.ts:123-150 | The flag accumulated over the transitions is true exactly when some transition leads from the current state to the target. |
| StateGraph.AllowsExactly | src/typed-state-machine.ts:122-158 | `can(s)` is true exactly when one of two things holds. Either `canSelfLoop` holds and `s` is the current state. Or some transition names the current state in `from` and `s` in `to`. |
| StateGraph.AllowsReorder | src/typed-state-machine.ts:124-150 | Two transition lists with the same multiset of transitions give the same answer to `can` for every target. |
| StateGraph.NamesWhenTruthy | src/typed-state-machine.ts:126-146 | For a truthy state, `find` used as a truth value matches exactly when the state is in the array. So the array and scalar branches then agree with plain membership. |
| StateGraph.Elements | src/typed-state-machine.ts:68-96 | Defines the visits of one endpoint, `Array.isArray(e)` ? `forEach` : the one state: the array's elements in order, the single state, or nothing when unset. |
| StateGraph.Named | src/typed-state-machine.ts:67-103 | Defines the order in which `getAllStates` visits states: transition by transition, the `from` states then the `to` states. `NamedMembership` gives its meaning. |
| StateGraph.Dedup | src/typed-state-machine.ts:66-104 | The `Map` keys after visiting a sequence: each state at its first sighting. It is never longer than the visits. `DedupSameElements`, `DedupDistinct` and `DedupFirstSeenOrder` state the rest. |
| StateGraph.Universe | src/typed-state-machine.ts:65-105 | Defines the keys of the finished `Map`. `UniverseExactlyOnce` gives its meaning. |
| StateGraph.StatesOf | src/typed-state-machine.ts:65-105 | `getAllStates` lists one entry per state of the universe, in the universe's order. Each entry's `reachable` is what `can` answers for its state. |
| StateGraph.UniverseExactlyOnce | src/typed-state-machine.ts:65-105 | The listed states are exactly those named in some `from` or `to`, each once. They are ordered by first appearance, visiting each transition's `from` before its `to`. |
| StateGraph.NamedMembership | src/typed-state-machine.ts:67-103 | A state is visited exactly when some transition lists it in its `from` or its `to`. |
| StateGraph.DedupSameElements | src/typed-state-machine.ts:66-104 | Keying the `Map` by state neither loses nor invents a state. |
| StateGraph.DedupDistinct | src/typed-state-machine.ts:66-104 | The `Map`'s keys are listed once each. |
| StateGraph.DedupFirstSeenOrder | src/typed-state-machine.ts:66-104 | Keys are ordered by their first insertion. A later `set` of a present key does not move it. |
| StateGraph.FirstIndexUnique | src/typed-state-machine.ts:66-104 | The first position of a state is unique (helper for first-seen order). |
| StateGraph.FirstIndexPrefix | src/typed-state-machine.ts:66-104 | Visiting more states does not change where an already-visited state was first seen. |
| StateGraph.ReachableStates | src/typed-state-machine.ts:56-58 | `filter(s => s.reachable).map(s => s.state)` is never longer than its input. `ReachableStatesMembers` and `ReachableStatesOrdered` state the rest. |
| StateGraph.NextStatesOf | src/typed-state-machine.ts:55-59 | Defines the answer of `getNextStates` as the filter of `StatesOf`. `NextStatesExactly` gives its meaning. |
| StateGraph.ReachableStatesMembers | src/typed-state-machine.ts:56-58 | `filter(s => s.reachable).map(s => s.state)` keeps a state exactly when some entry for it is reachable. |
| StateGraph.ReachableStatesOrdered | src/typed-state-machine.ts:56-58 | The filtered list is a subsequence of the entries, in their order. |
| StateGraph.NextStatesExactly | src/typed-state-machine.ts:55-59 | `getNextStates` contains `s` exactly when `s` is named by some transition and `can(s)` holds. Each state appears once, in the order of `getAllStates`. |
| OrderedMaps.OrderedMap.Has | src/typed-state-machine.ts:70 | Defines `Map.prototype.has`: the key has an entry. |
| OrderedMaps.OrderedMap.Get | src/typed-state-machine.ts:70 | Defines `Map.prototype.get` of a present key. |
| OrderedMaps.OrderedMap.Set | src/typed-state-machine.ts:72 | Defines `Map.prototype.set`: the entry is replaced, and a new key goes last. `SetValid` states that the key order stays valid. |
| OrderedMaps.OrderedMap.Values | src/typed-state-machine.ts:104 | `Array.from(states.values())` lists the entries in key-insertion order. |
| OrderedMaps.SetValid | src/typed-state-machine.ts:72 | `Map.set` keeps each key once. A new key goes last and a present key keeps its place. |
| OrderedMaps.Empty | src/typed-state-machine.ts:66 | `new Map()` has no keys. |
| Machine.Find | src/typed-state-machine.ts:126 | `find(s => s == x)` returns an element exactly when `x` is in the array, and that element is `x`. |
| Machine.TypedStateMachine.constructor | src/typed-state-machine.ts:22-29 | The current state is the initial state. `canSelfLoop` holds only when the configuration gave `true` (the source defaults it with a logical or). The transitions are copied element for element into a fresh array. |
| Machine.TypedStateMachine.CanSelfLoop | src/typed-state-machine.ts:34-36 | The getter returns the stored flag. |
| Machine.TypedStateMachine.GetState | src/typed-state-machine.ts:41-43 | Returns the current state. |
| Machine.TypedStateMachine.GetAllTransitions | src/typed-state-machine.ts:48-50 | Returns a fresh array equal element for element to the stored transitions. |
| Machine.TypedStateMachine.Can | src/typed-state-machine.ts:122-158 | The loop over the transitions with its `find` and `==` tests, followed by the self-loop check, returns what `StateGraph.Allows` specifies. It changes nothing. |
| Machine.TypedStateMachine.Record | src/typed-state-machine.ts:70-75 | One visit of a state keeps the `Map`'s invariant. The keys are the visited states deduplicated in first-seen order, and each entry holds its state and `can(state)`. |
| Machine.TypedStateMachine.RecordEndpoint | src/typed-state-machine.ts:68-101 | Visiting a `from` or `to` endpoint, each array element in turn or the one state, keeps the invariant for all its states. |
| Machine.TrackingStep | src/typed-state-machine.ts:70-74 | Storing the logical or of `existing.reachable` and `can(x)` keeps the invariant, because the OR of repeat sightings collapses to `can(x)`. |
| Machine.TypedStateMachine.GetAllStates | src/typed-state-machine.ts:65-105 | Returns exactly `StateGraph.StatesOf` of the stored transitions, flag and current state. |
| Machine.TypedStateMachine.GetNextStates | src/typed-state-machine.ts:55-59 | Returns exactly `StateGraph.NextStatesOf`, the reachable states of `getAllStates` in order. |
| Machine.TypedStateMachine.Transit | src/typed-state-machine.ts:114-116 | The stub always answers false. It changes no state, having no `modifies`. |
| Machine.TypedStateMachine.Goto | src/typed-state-machine.ts:166-168 | The stub leaves the current state as it was. |
| Machine.TransitionsAreIsolated | src/tests/initialization.spec.ts:91-102 | Overwriting the array returned by `getAllTransitions` and the configuration's own array leaves the stored transitions as given at construction. |
| Hooks.CallsIn | src/helpers/hooks.helper.ts:13-15 | Defines the calls made for one binding: its handlers of the requested type, in order. `CallsInExact` gives its meaning. |
| Hooks.Calls | src/helpers/hooks.helper.ts:12-15 | Defines the calls made for all bindings, binding by binding. `CallsExact` gives its meaning. |
| Hooks.ResultsIn | src/helpers/hooks.helper.ts:13-21 | Defines the results of the called handlers of one binding, in call order. |
| Hooks.Results | src/helpers/hooks.helper.ts:12-21 | Defines the results of all called handlers, in call order. `ResultsAtCalls` pairs them with `Calls`. |
| Hooks.DirectConj | src/helpers/hooks.helper.ts:10-19 | `okFlag` after the loops is true exactly when every result returned directly is true. |
| Hooks.PromisedValues | src/helpers/hooks.helper.ts:9-17 | The awaited `resolvers` hold at most one value per result. |
| Hooks.Reduce | src/helpers/hooks.helper.ts:27 | `reduce((acc, value) => value && acc, true)` is true exactly when every value is true, so it is true for no values. |
| Hooks.Aggregate | src/helpers/hooks.helper.ts:25-27 | Defines what `triggerHooks` resolves to: `okFlag` and the reduced promise values. `AggregateIsConjunction` gives its meaning. |
| Hooks.TriggerHooks | src/helpers/hooks.helper.ts:7-28 | The log of calls is `Calls`: every handler of the requested type, in binding order then handler order, with no short-circuit. The answer is true exactly when every such handler returned true, directly or through a promise. |
| Hooks.TriggerBinding | src/helpers/hooks.helper.ts:13-23 | The inner `forEach` over one binding's handlers appends exactly the matching calls to the log. The new `okFlag` is the old one ANDed with every matching direct result. The new `resolvers` are the old ones followed by the matching promised values, in order. |
| Hooks.FoldStep | src/helpers/hooks.helper.ts:16-20 | One more matching result updates the accumulated `okFlag` and `resolvers` as the loop body does. |
| Hooks.ResultsAppend | src/helpers/hooks.helper.ts:12-27 | Accumulating two runs of results one after the other ANDs their flags and concatenates their promised values. So the bindings can be folded one at a time. |
| Hooks.BindingStep | src/helpers/hooks.helper.ts:12-24 | Visiting one more binding appends its matching calls and results. |
| Hooks.HandlerStep | src/helpers/hooks.helper.ts:13-22 | Visiting one more handler appends it exactly when its type matches. |
| Hooks.ResultStep | src/helpers/hooks.helper.ts:16-20 | A direct result joins the running conjunction. A promised one joins the list handed to `Promise.all`. |
| Hooks.AggregateIsConjunction | src/helpers/hooks.helper.ts:25-27 | `okFlag && values.reduce((acc, v) => v && acc, true)` is the conjunction of all results. |
| Hooks.WrapperIrrelevant | src/helpers/hooks.helper.ts:16-27 | Turning a handler's boolean into a promise of the same boolean, or back, leaves the answer unchanged. |
| Hooks.CallsInExact | src/helpers/hooks.helper.ts:13-15 | Within a binding, exactly the handlers of the requested type are called, in handler order. |
| Hooks.CallsExact | src/helpers/hooks.helper.ts:12-15 | Exactly the matching handlers of all bindings are called, once each, in binding then handler order. |
| Hooks.NothingCalledIffNoMatch | src/helpers/hooks.helper.ts:12-15 | No handler is called exactly when none has the requested type. |
| Hooks.ResultsInAtCalls | src/helpers/hooks.helper.ts:13-21 | Within a binding, the k-th result is the result of the k-th called handler. |
| Hooks.ResultsAtCalls | src/helpers/hooks.helper.ts:12-21 | The k-th result is the result of the k-th called handler. |
| Hooks.ResultsHoldIff | src/helpers/hooks.helper.ts:12-21 | All results are true exactly when every handler of the requested type returns true. |
| Hooks.AggregateHoldsIff | src/helpers/hooks.helper.ts:10-27 | The answer is true exactly when every handler of the requested type returns true, so it is true when none matches. |
| Hooks.OtherTypesIgnoredIn | src/helpers/hooks.helper.ts:14 | Within a binding, replacing a handler of another type with another such handler changes neither the calls nor the results. |
| Hooks.OtherTypesIgnored | src/helpers/hooks.helper.ts:14 | Across all bindings, handlers of other types neither run nor affect the answer. |
| Hooks.StatesIgnored | src/helpers/hooks.helper.ts:12-14 | The bindings' states play no part. Bindings with the same handlers give the same calls and results. |
| Fixtures.RenderingScalarExample | tests/transition.spec.ts:40 | The first test transition renders as `A->B (First)`. |
| Fixtures.RenderingMixedExamples | tests/transition.spec.ts:41-42 | The second and third render as `B->[C,D] (Second)` and `[C,D]->E (Third)`. |
| Fixtures.RenderingUnnamedExample | tests/transition.spec.ts:43 | The unnamed fourth renders as `[C,D]->[F]`, the one-element array bracketed. |
| Fixtures.MachineFixtureNamed | src/tests/initialization.spec.ts:15-41 | The test machine's endpoints, visited from then to, are A, B, A, C, A, D, E, F, D, A. |
| Fixtures.FixtureDedup | src/tests/initialization.spec.ts:109-118 | Their first sightings are A, B, C, D, E, F. |
| Fixtures.MachineFixtureUniverse | src/tests/initialization.spec.ts:109-118 | `getAllStates` lists A, B, C, D, E, F. |
| Fixtures.MachineFixtureAllows | src/tests/initialization.spec.ts:172-216 | From A without self-loops, `can` allows exactly B, C, D and E. |
| Fixtures.MachineFixtureStates | src/tests/initialization.spec.ts:172-216 | The entries are A and F unreachable and B, C, D, E reachable, in that order. |
| Fixtures.MachineFixtureNext | src/tests/initialization.spec.ts:218-227 | `getNextStates` from A is `[B, C, D, E]`. |
| Fixtures.FalsyStateInArrayIsIgnored | src/typed-state-machine.ts:125-138 | With numeric states, an array `from` holding 0 does not let state 0 move, while the scalar `from` 0 does. |

## Left out

- The transition life cycle (initialization hooks, event ordering, veto handling, pending-transition guard, `transitByName`, `bindHookHandler`, `updateConfig`, transit options). `transit` and `goto` are empty stubs in src/typed-state-machine.ts, so there is nothing of it to model.
- Machine.TypedStateMachine.constructor: requires every transition to have `from` and `to` set, as the declared type `T | Array<T>` demands. The source would also accept an unset endpoint, which `getAllStates` would then list as an `undefined` state.
- Machine.TypedStateMachine.GetAllStates: requires the same, for the same reason.
- Machine.TypedStateMachine.constructor: `slice()` copies the transitions array but not the `Transition` objects it holds. The caller's array, the stored array and every array `getAllTransitions` returns share those objects, so an in-place change to a transition's `from`, `to` or `name` reaches the machine's `can` and `getAllStates`. In the model transitions are immutable values, so this aliasing is not captured. Only replacing array elements is, which is what `Machine.TransitionsAreIsolated` covers.
- Machine.TypedStateMachine.GetAllTransitions: returns a fresh array of the same transitions, as `slice()` does, but the model cannot express that the returned transition objects are the stored ones.
- The `observer` field of a transition. src/models/transition-observer.model.ts is not part of this model.
- The `current` flag that some declarations of `State` carry. The `State` that `getAllStates` builds has only `state` and `reachable`.
- JavaScript loose equality `==` and the `Map`'s SameValueZero keying are both Dafny equality on `T`. Only the truthiness of `find` results is kept, through `isTruthy`.
- Truthiness of state values is the function `isTruthy` handed to the machine, and the rendering of one state is the function `show`. The model does not compute JavaScript's own coercions.
- Hooks.TriggerHooks: promises are taken as already resolved to their boolean. Asynchrony, rejection, `Promise.all` scheduling and the `await` are not modelled.
- Handler side effects, and the machine passed to each handler, are not modelled. Each handler is just its type and the result it returns.
- Events helpers and the hooks registry (src/helpers/events-builder.helper.ts and its models) are not part of this model. They forward calls to callbacks.
- An `undefined` or `null` initial state is not modelled. The initial state is a value of `T`.
