/**
 * The class TypedStateMachine of src/typed-state-machine.ts: it holds the
 * current state and a copy of its configuration, and answers which
 * moves are possible. The queries are proved against the specification
 * functions of module StateGraph.
 */
module Machine {
  import opened Wrappers
  import opened Transitions
  import opened StateGraph
  import opened OrderedMaps

  /**
   * The configuration handed to the constructor (TypedStateMachineConfig): the
   * caller's own transitions array, and `canSelfLoop`, which may be left out.
   */
  datatype MachineConfig<T> = MachineConfig(initialState: T, transitions: array<Transition<T>>, canSelfLoop: Option<bool>)

  /** A transition whose `from` and `to` are set, as the declared type `T | Array<T>` demands. */
  predicate Defined<T>(t: Transition<T>)
  {
    t.from.Some? && t.to.Some?
  }

  /** `Array.prototype.find` with the callback `s => s == x`: the first element equal to `x`. */
  function Find<T(==)>(xs: seq<T>, x: T): (r: Option<T>)
    ensures r.Some? <==> x in xs
    ensures r.Some? ==> r.value == x
  {
    if |xs| == 0 then None
    else if xs[0] == x then Some(xs[0])
    else Find(xs[1..], x)
  }

  class TypedStateMachine<T(==)> {

    /** The current state. */
    var state: T

    /** The configuration, copied at construction. */
    const initialState: T
    const transitions: array<Transition<T>>
    const canSelfLoop: bool

    /**
     * JavaScript truthiness of state values. It matters where `can` uses the
     * element that `find` returns as a condition.
     */
    const isTruthy: T -> bool

    ghost predicate Valid()
      reads this, transitions
    {
      forall i :: 0 <= i < transitions.Length ==> Defined(transitions[i])
    }

    /**
     * Copies the configuration: the transitions into a fresh array (`slice()`),
     * so that later changes to the caller's array do not reach the machine; a missing
     * or false `canSelfLoop` becomes false. The current state is the initial one.
     */
    constructor (config: MachineConfig<T>, isTruthy: T -> bool)
      requires forall i :: 0 <= i < config.transitions.Length ==> Defined(config.transitions[i])
      ensures Valid() && fresh(transitions)
      ensures state == config.initialState && initialState == config.initialState
      ensures canSelfLoop <==> config.canSelfLoop == Some(true)
      ensures transitions[..] == config.transitions[..]
      ensures this.isTruthy == isTruthy
    {
      var source := config.transitions;
      var copy := new Transition<T>[source.Length](i reads source requires 0 <= i < source.Length => source[i]);
      canSelfLoop := match config.canSelfLoop case Some(b) => b case None => false;
      initialState := config.initialState;
      transitions := copy;
      this.isTruthy := isTruthy;
      state := config.initialState;
    }

    /** The current state. */
    method GetState() returns (s: T)
      ensures s == state
    {
      s := state;
    }

    /** The `canSelfLoop` getter: the flag fixed at construction. */
    method CanSelfLoop() returns (b: bool)
      ensures b == canSelfLoop
    {
      b := canSelfLoop;
    }

    /** A fresh array holding the stored transitions, element for element. */
    method GetAllTransitions() returns (r: array<Transition<T>>)
      ensures fresh(r) && r[..] == transitions[..]
    {
      var copy := new Transition<T>[transitions.Length](i reads transitions requires 0 <= i < transitions.Length => transitions[i]);
      r := copy;
    }

    /**
     * `can(newState)`: scans every transition and remembers whether one of them
     * leads from the current state to `newState`; a self-loop to the current
     * state is allowed whenever `canSelfLoop` holds.
     */
    method Can(newState: T) returns (r: bool)
      ensures r == Allows(transitions[..], canSelfLoop, state, newState, isTruthy)
    {
      var reachable := false;
      for i := 0 to transitions.Length
        invariant reachable == AnyLeads(transitions[..i], state, newState, isTruthy)
      {
        var t := transitions[i];
        match t.from {
          case Some(Many(froms)) =>
            var found := Find(froms, state);
            if found.Some? && isTruthy(found.value) {
              match t.to {
                case Some(Many(tos)) =>
                  var target := Find(tos, newState);
                  if target.Some? && isTruthy(target.value) {
                    reachable := true;
                  }
                case Some(One(to)) =>
                  if to == newState {
                    reachable := true;
                  }
                case None =>
              }
            }
          case Some(One(from)) =>
            if from == state {
              match t.to {
                case Some(Many(tos)) =>
                  var target := Find(tos, newState);
                  if target.Some? && isTruthy(target.value) {
                    reachable := true;
                  }
                case Some(One(to)) =>
                  if to == newState {
                    reachable := true;
                  }
                case None =>
              }
            }
          case None =>
        }
        assert transitions[..i + 1][..i] == transitions[..i];
      }
      assert transitions[..transitions.Length] == transitions[..];
      if canSelfLoop && newState == state {
        return true;
      }
      return reachable;
    }

    /**
     * One visit of `getAllStates`: the entry for `x` becomes reachable if it was
     * already reachable or `can(x)` holds.
     */
    method Record(states: OrderedMap<T, State<T>>, ghost seen: seq<T>, x: T) returns (r: OrderedMap<T, State<T>>)
      requires Tracking(states, seen, transitions[..], canSelfLoop, state, isTruthy)
      ensures Tracking(r, seen + [x], transitions[..], canSelfLoop, state, isTruthy)
    {
      var existing := if states.Has(x) then Some(states.Get(x)) else None;
      var reachable := if existing.Some? then existing.value.reachable else false;
      var c := Can(x);
      TrackingStep(states, seen, transitions[..], canSelfLoop, state, isTruthy, x, reachable || c);
      r := states.Set(x, State(x, reachable || c));
    }

    /** The visits of one endpoint: each element of an array in turn, or the single state. */
    method RecordEndpoint(states: OrderedMap<T, State<T>>, ghost seen: seq<T>, e: Option<Endpoint<T>>)
      returns (r: OrderedMap<T, State<T>>)
      requires e.Some?
      requires Tracking(states, seen, transitions[..], canSelfLoop, state, isTruthy)
      ensures Tracking(r, seen + Elements(e), transitions[..], canSelfLoop, state, isTruthy)
    {
      match e {
        case Some(Many(xs)) =>
          r := states;
          assert seen + xs[..0] == seen;
          for j := 0 to |xs|
            invariant Tracking(r, seen + xs[..j], transitions[..], canSelfLoop, state, isTruthy)
          {
            r := Record(r, seen + xs[..j], xs[j]);
            assert seen + xs[..j + 1] == seen + xs[..j] + [xs[j]];
          }
          assert xs[..|xs|] == xs;
        case Some(One(x)) =>
          r := Record(states, seen, x);
      }
    }

    /**
     * `getAllStates()`: every state named by a transition once, in order of
     * first appearance, each with whether `can` allows moving to it.
     */
    method GetAllStates() returns (r: seq<State<T>>)
      requires Valid()
      ensures r == StatesOf(transitions[..], canSelfLoop, state, isTruthy)
    {
      var states: OrderedMap<T, State<T>> := Empty();
      ghost var seen: seq<T> := [];
      for i := 0 to transitions.Length
        invariant seen == Named(transitions[..i])
        invariant Tracking(states, seen, transitions[..], canSelfLoop, state, isTruthy)
      {
        var t := transitions[i];
        states := RecordEndpoint(states, seen, t.from);
        states := RecordEndpoint(states, seen + Elements(t.from), t.to);
        assert transitions[..i + 1][..i] == transitions[..i];
        seen := seen + Elements(t.from) + Elements(t.to);
      }
      assert transitions[..transitions.Length] == transitions[..];
      DedupSameElements(seen);
      r := states.Values();
    }

    /** `getNextStates()`: the states of `getAllStates()` that are reachable, in the same order. */
    method GetNextStates() returns (r: seq<T>)
      requires Valid()
      ensures r == NextStatesOf(transitions[..], canSelfLoop, state, isTruthy)
    {
      var all := GetAllStates();
      r := ReachableStates(all);
    }

    /** `transit(newState)`: a stub that always answers false and moves nowhere. */
    method Transit(newState: T) returns (ok: bool)
      ensures !ok
    {
      ok := false;
    }

    /** `goto(newState)`: a stub that does nothing. */
    method Goto(newState: T)
      ensures state == old(state)
    {
    }
  }

  /** The invariant of the map that `getAllStates` fills, after visiting `seen`. */
  ghost predicate Tracking<T>(states: OrderedMap<T, State<T>>, seen: seq<T>,
                                  ts: seq<Transition<T>>, canSelfLoop: bool, current: T, isTruthy: T -> bool)
  {
    && states.Valid()
    && states.keys == Dedup(seen)
    && forall k :: k in states.entries ==> states.entries[k] == State(k, Allows(ts, canSelfLoop, current, k, isTruthy))
  }

  /**
   * Visiting `x` keeps the invariant when the value stored is the old entry's
   * `reachable` ORed with `can(x)`: since `can(x)` does not change during the
   * scan, the OR is just `can(x)`.
   */
  lemma TrackingStep<T>(states: OrderedMap<T, State<T>>, seen: seq<T>,
                        ts: seq<Transition<T>>, canSelfLoop: bool, current: T, isTruthy: T -> bool, x: T, b: bool)
    requires Tracking(states, seen, ts, canSelfLoop, current, isTruthy)
    requires b == ((if states.Has(x) then states.Get(x).reachable else false) || Allows(ts, canSelfLoop, current, x, isTruthy))
    ensures Tracking(states.Set(x, State(x, b)), seen + [x], ts, canSelfLoop, current, isTruthy)
  {
    assert (seen + [x])[..|seen|] == seen;
    SetValid(states, x, State(x, b));
  }

  /**
   * The stored transitions are isolated from the caller: neither a change to
   * the array passed in the configuration nor a change to an array returned by
   * `getAllTransitions` alters what the machine holds.
   */
  method TransitionsAreIsolated<T(==)>(config: MachineConfig<T>, isTruthy: T -> bool, t: Transition<T>)
    returns (m: TypedStateMachine<T>, stored: seq<Transition<T>>)
    requires forall i :: 0 <= i < config.transitions.Length ==> Defined(config.transitions[i])
    modifies config.transitions
    ensures stored == old(config.transitions[..])
  {
    m := new TypedStateMachine(config, isTruthy);
    var returned := m.GetAllTransitions();
    if returned.Length > 0 {
      returned[0] := t;
    }
    if config.transitions.Length > 0 {
      config.transitions[0] := t;
    }
    var again := m.GetAllTransitions();
    stored := again[..];
  }
}
