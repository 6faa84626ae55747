/**
 * The specification of the queries of src/typed-state-machine.ts: which moves
 * `can` allows, which states `getAllStates` lists and in which order, and what
 * `getNextStates` keeps. The class that computes them is in module Machine.
 */
module StateGraph {
  import opened Wrappers
  import opened Transitions
  import opened OrderedMaps

  /** An entry of `getAllStates`: a state and whether `can` allows moving to it. */
  datatype State<T> = State(state: T, reachable: bool)

  // ---------------------------------------------------------------------------
  // can
  // ---------------------------------------------------------------------------

  /**
   * Whether an endpoint names `x` in the sense `can` tests it: a single state by
   * `==`; an array by `find` used as a truth value, so an element equal to `x`
   * that is falsy (such as 0 or "") is never matched. An unset endpoint is
   * `undefined`, equal to no state.
   */
  predicate Names<T(==)>(e: Option<Endpoint<T>>, x: T, isTruthy: T -> bool)
  {
    match e
    case None => false
    case Some(One(y)) => y == x
    case Some(Many(xs)) => x in xs && isTruthy(x)
  }

  /** Transition `t` leads from `current` to `s`. */
  predicate Leads<T(==)>(t: Transition<T>, current: T, s: T, isTruthy: T -> bool)
  {
    Names(t.from, current, isTruthy) && Names(t.to, s, isTruthy)
  }

  /** Some transition of `ts` leads from `current` to `s`: the OR that `can` accumulates. */
  predicate AnyLeads<T(==)>(ts: seq<Transition<T>>, current: T, s: T, isTruthy: T -> bool)
  {
    if |ts| == 0 then false
    else AnyLeads(ts[..|ts| - 1], current, s, isTruthy) || Leads(ts[|ts| - 1], current, s, isTruthy)
  }

  /** Scanning one more transition ORs in whether it leads from `current` to `s`. */
  lemma AnyLeadsStep<T>(ts: seq<Transition<T>>, k: nat, current: T, s: T, isTruthy: T -> bool)
    requires k < |ts|
    ensures AnyLeads(ts[..k + 1], current, s, isTruthy) ==
      (AnyLeads(ts[..k], current, s, isTruthy) || Leads(ts[k], current, s, isTruthy))
  {
    assert ts[..k + 1][..k] == ts[..k];
  }

  /** What `can(s)` answers in state `current`. */
  predicate Allows<T(==)>(ts: seq<Transition<T>>, canSelfLoop: bool, current: T, s: T, isTruthy: T -> bool)
  {
    (canSelfLoop && s == current) || AnyLeads(ts, current, s, isTruthy)
  }

  /** The OR over the transitions holds exactly when one of them leads from `current` to `s`. */
  lemma {:induction false} AnyLeadsExists<T>(ts: seq<Transition<T>>, current: T, s: T, isTruthy: T -> bool)
    ensures AnyLeads(ts, current, s, isTruthy) <==> exists i :: 0 <= i < |ts| && Leads(ts[i], current, s, isTruthy)
  {
    if |ts| > 0 {
      var init := ts[..|ts| - 1];
      AnyLeadsExists(init, current, s, isTruthy);
      assert forall i :: 0 <= i < |init| ==> init[i] == ts[i];
      if AnyLeads(ts, current, s, isTruthy) && !Leads(ts[|ts| - 1], current, s, isTruthy) {
        var i :| 0 <= i < |init| && Leads(init[i], current, s, isTruthy);
        assert Leads(ts[i], current, s, isTruthy);
      }
      if exists i :: 0 <= i < |ts| && Leads(ts[i], current, s, isTruthy) {
        var i :| 0 <= i < |ts| && Leads(ts[i], current, s, isTruthy);
        if i < |ts| - 1 {
          assert Leads(init[i], current, s, isTruthy);
        }
      }
    }
  }

  /**
   * `can(s)` holds exactly when self-loops are allowed and `s` is the current
   * state, or some transition has the current state in `from` and `s` in `to`.
   */
  lemma AllowsExactly<T>(ts: seq<Transition<T>>, canSelfLoop: bool, current: T, s: T, isTruthy: T -> bool)
    ensures Allows(ts, canSelfLoop, current, s, isTruthy) <==>
      (canSelfLoop && s == current) ||
      exists i :: 0 <= i < |ts| && Names(ts[i].from, current, isTruthy) && Names(ts[i].to, s, isTruthy)
  {
    AnyLeadsExists(ts, current, s, isTruthy);
  }

  /** `can` is an OR over all transitions: listing them in another order changes nothing. */
  lemma AllowsReorder<T>(ts: seq<Transition<T>>, us: seq<Transition<T>>, canSelfLoop: bool, current: T, s: T, isTruthy: T -> bool)
    requires multiset(ts) == multiset(us)
    ensures Allows(ts, canSelfLoop, current, s, isTruthy) == Allows(us, canSelfLoop, current, s, isTruthy)
  {
    AnyLeadsExists(ts, current, s, isTruthy);
    AnyLeadsExists(us, current, s, isTruthy);
    forall i | 0 <= i < |ts| && Leads(ts[i], current, s, isTruthy)
      ensures exists j :: 0 <= j < |us| && Leads(us[j], current, s, isTruthy)
    {
      assert ts[i] in multiset(us);
      var j :| 0 <= j < |us| && us[j] == ts[i];
    }
    forall j | 0 <= j < |us| && Leads(us[j], current, s, isTruthy)
      ensures exists i :: 0 <= i < |ts| && Leads(ts[i], current, s, isTruthy)
    {
      assert us[j] in multiset(ts);
      var i :| 0 <= i < |ts| && ts[i] == us[j];
    }
  }

  /**
   * When every state is truthy, the `find` quirk disappears: an endpoint names
   * `x` exactly when `x` is the single state or an element of the array.
   */
  lemma NamesWhenTruthy<T>(e: Option<Endpoint<T>>, x: T, isTruthy: T -> bool)
    requires isTruthy(x)
    ensures Names(e, x, isTruthy) <==> x in Elements(e)
  {
  }

  // ---------------------------------------------------------------------------
  // getAllStates and getNextStates
  // ---------------------------------------------------------------------------

  /** The states an endpoint lists, in order (`forEach` over an array, or the one state). */
  function Elements<T>(e: Option<Endpoint<T>>): seq<T>
  {
    match e
    case None => []
    case Some(One(x)) => [x]
    case Some(Many(xs)) => xs
  }

  /** Every state named by the transitions, in visiting order: per transition, `from` before `to`. */
  function Named<T>(ts: seq<Transition<T>>): seq<T>
  {
    if |ts| == 0 then []
    else Named(ts[..|ts| - 1]) + Elements(ts[|ts| - 1].from) + Elements(ts[|ts| - 1].to)
  }

  /** One more transition adds its `from` states, then its `to` states, to the visits. */
  lemma NamedAppend<T>(ts: seq<Transition<T>>, t: Transition<T>)
    ensures Named(ts + [t]) == Named(ts) + Elements(t.from) + Elements(t.to)
  {
    assert (ts + [t])[..|ts|] == ts;
  }

  /** `s` with every repeat of an earlier element dropped. */
  function Dedup<T(==)>(s: seq<T>): (r: seq<T>)
    ensures |r| <= |s|
  {
    if |s| == 0 then []
    else
      var d := Dedup(s[..|s| - 1]);
      if s[|s| - 1] in d then d else d + [s[|s| - 1]]
  }

  /** One more visit adds the state at the end only when it was not seen before. */
  lemma DedupAppend<T>(s: seq<T>, x: T)
    ensures Dedup(s + [x]) == if x in Dedup(s) then Dedup(s) else Dedup(s) + [x]
  {
    assert (s + [x])[..|s|] == s;
  }

  /** The state universe: every named state once, in order of first appearance. */
  function Universe<T(==)>(ts: seq<Transition<T>>): seq<T>
  {
    Dedup(Named(ts))
  }

  /** What `getAllStates` returns: each state of the universe with its reachability. */
  function StatesOf<T(==)>(ts: seq<Transition<T>>, canSelfLoop: bool, current: T, isTruthy: T -> bool): (r: seq<State<T>>)
    ensures |r| == |Universe(ts)|
    ensures forall k :: 0 <= k < |r| ==> r[k].state == Universe(ts)[k]
    ensures forall k :: 0 <= k < |r| ==> r[k].reachable == Allows(ts, canSelfLoop, current, r[k].state, isTruthy)
  {
    var u := Universe(ts);
    seq(|u|, k requires 0 <= k < |u| => State(u[k], Allows(ts, canSelfLoop, current, u[k], isTruthy)))
  }

  /** `filter(s => s.reachable).map(s => s.state)`. */
  function ReachableStates<T>(ss: seq<State<T>>): (r: seq<T>)
    ensures |r| <= |ss|
  {
    if |ss| == 0 then []
    else
      var init := ReachableStates(ss[..|ss| - 1]);
      if ss[|ss| - 1].reachable then init + [ss[|ss| - 1].state] else init
  }

  /** One more entry adds its state at the end only when it is reachable. */
  lemma ReachableAppend<T>(ss: seq<State<T>>, x: State<T>)
    ensures ReachableStates(ss + [x]) ==
      if x.reachable then ReachableStates(ss) + [x.state] else ReachableStates(ss)
  {
    assert (ss + [x])[..|ss|] == ss;
  }

  /** What `getNextStates` returns. */
  function NextStatesOf<T(==)>(ts: seq<Transition<T>>, canSelfLoop: bool, current: T, isTruthy: T -> bool): seq<T>
  {
    ReachableStates(StatesOf(ts, canSelfLoop, current, isTruthy))
  }

  /** The position of the first occurrence of `x` in `s`. */
  function FirstIndex<T(==)>(s: seq<T>, x: T): (k: nat)
    requires x in s
    ensures k < |s| && s[k] == x && x !in s[..k]
  {
    if s[0] == x then 0 else 1 + FirstIndex(s[1..], x)
  }

  /** The first occurrence is the one with no earlier occurrence before it. */
  lemma {:induction false} FirstIndexUnique<T>(s: seq<T>, x: T, k: nat)
    requires k < |s| && s[k] == x && x !in s[..k]
    ensures FirstIndex(s, x) == k
  {
    if k > 0 {
      assert s[0] in s[..k];
      assert s[1..][k - 1] == x;
      assert s[1..][..k - 1] == s[1..k];
      assert forall y :: y in s[1..k] ==> y in s[..k];
      FirstIndexUnique(s[1..], x, k - 1);
    }
  }

  /** The first occurrence of `x` in `s` is also its first occurrence in any extension of `s`. */
  lemma FirstIndexPrefix<T>(s: seq<T>, t: seq<T>, x: T)
    requires x in s
    ensures x in s + t && FirstIndex(s + t, x) == FirstIndex(s, x)
  {
    var k := FirstIndex(s, x);
    assert (s + t)[..k] == s[..k];
    FirstIndexUnique(s + t, x, k);
  }

  /** Dedup keeps exactly the elements of its input. */
  lemma {:induction false} DedupSameElements<T>(s: seq<T>)
    ensures forall x :: x in Dedup(s) <==> x in s
  {
    if |s| > 0 {
      var init := s[..|s| - 1];
      DedupSameElements(init);
      assert s == init + [s[|s| - 1]];
    }
  }

  /** Dedup lists each element once. */
  lemma {:induction false} DedupDistinct<T>(s: seq<T>)
    ensures Distinct(Dedup(s))
  {
    if |s| > 0 {
      DedupDistinct(s[..|s| - 1]);
    }
  }

  /** Dedup lists the elements in the order of their first appearance in its input. */
  lemma {:induction false} DedupFirstSeenOrder<T>(s: seq<T>)
    ensures forall x :: x in Dedup(s) ==> x in s
    ensures forall i, j :: 0 <= i < j < |Dedup(s)| ==> FirstIndex(s, Dedup(s)[i]) < FirstIndex(s, Dedup(s)[j])
  {
    DedupSameElements(s);
    if |s| > 0 {
      var init := s[..|s| - 1];
      var last := s[|s| - 1];
      var d := Dedup(init);
      DedupFirstSeenOrder(init);
      DedupSameElements(init);
      assert s == init + [last];
      forall x | x in d ensures FirstIndex(s, x) == FirstIndex(init, x) {
        FirstIndexPrefix(init, [last], x);
      }
      if last !in d {
        assert s[..|s| - 1] == init;
        FirstIndexUnique(s, last, |s| - 1);
        forall i | 0 <= i < |d| ensures FirstIndex(s, d[i]) < FirstIndex(s, last) {
          assert FirstIndex(init, d[i]) < |init|;
        }
      }
    }
  }

  /**
   * The universe lists every state named in any `from` or `to` exactly once,
   * in first-appearance order, and nothing else.
   */
  lemma UniverseExactlyOnce<T>(ts: seq<Transition<T>>)
    ensures forall x :: x in Universe(ts) <==> x in Named(ts)
    ensures Distinct(Universe(ts))
    ensures forall i, j :: 0 <= i < j < |Universe(ts)| ==>
      FirstIndex(Named(ts), Universe(ts)[i]) < FirstIndex(Named(ts), Universe(ts)[j])
  {
    DedupSameElements(Named(ts));
    DedupDistinct(Named(ts));
    DedupFirstSeenOrder(Named(ts));
  }

  /** A state is named exactly when some transition lists it in its `from` or its `to`. */
  lemma {:induction false} NamedMembership<T>(ts: seq<Transition<T>>, x: T)
    ensures x in Named(ts) <==> exists i :: 0 <= i < |ts| && (x in Elements(ts[i].from) || x in Elements(ts[i].to))
  {
    if |ts| > 0 {
      var init := ts[..|ts| - 1];
      NamedMembership(init, x);
      assert forall i :: 0 <= i < |init| ==> init[i] == ts[i];
      if exists i :: 0 <= i < |ts| && (x in Elements(ts[i].from) || x in Elements(ts[i].to)) {
        var i :| 0 <= i < |ts| && (x in Elements(ts[i].from) || x in Elements(ts[i].to));
        if i < |ts| - 1 {
          assert x in Elements(init[i].from) || x in Elements(init[i].to);
        }
      }
    }
  }

  /** Filtering keeps exactly the reachable entries, in order. */
  lemma {:induction false} ReachableStatesMembers<T>(ss: seq<State<T>>, x: T)
    ensures x in ReachableStates(ss) <==> exists k :: 0 <= k < |ss| && ss[k].state == x && ss[k].reachable
  {
    if |ss| > 0 {
      var init := ss[..|ss| - 1];
      ReachableStatesMembers(init, x);
      assert forall k :: 0 <= k < |init| ==> init[k] == ss[k];
      if exists k :: 0 <= k < |ss| && ss[k].state == x && ss[k].reachable {
        var k :| 0 <= k < |ss| && ss[k].state == x && ss[k].reachable;
        if k < |ss| - 1 {
          assert init[k].state == x && init[k].reachable;
        }
      }
    }
  }

  /** Filtering picks out a subsequence: position by position, the kept states in their order. */
  lemma {:induction false} ReachableStatesOrdered<T>(ss: seq<State<T>>)
    ensures var r := ReachableStates(ss);
      exists pos: seq<nat> ::
        && |pos| == |r|
        && (forall i :: 0 <= i < |pos| ==> pos[i] < |ss| && ss[pos[i]].state == r[i] && ss[pos[i]].reachable)
        && (forall i, j :: 0 <= i < j < |pos| ==> pos[i] < pos[j])
  {
    if |ss| > 0 {
      var init := ss[..|ss| - 1];
      ReachableStatesOrdered(init);
      var r0 := ReachableStates(init);
      var pos0: seq<nat> :| |pos0| == |r0|
        && (forall i :: 0 <= i < |pos0| ==> pos0[i] < |init| && init[pos0[i]].state == r0[i] && init[pos0[i]].reachable)
        && (forall i, j :: 0 <= i < j < |pos0| ==> pos0[i] < pos0[j]);
      if ss[|ss| - 1].reachable {
        var pos := pos0 + [|ss| - 1];
        assert forall i :: 0 <= i < |pos| ==> pos[i] < |ss| && ss[pos[i]].state == ReachableStates(ss)[i] && ss[pos[i]].reachable;
      } else {
        assert forall i :: 0 <= i < |pos0| ==> pos0[i] < |ss| && ss[pos0[i]].state == ReachableStates(ss)[i] && ss[pos0[i]].reachable;
      }
    }
  }

  /**
   * `getNextStates` lists exactly the states that are named in some transition
   * and that `can` allows, each once, in the order of `getAllStates`.
   */
  lemma NextStatesExactly<T>(ts: seq<Transition<T>>, canSelfLoop: bool, current: T, isTruthy: T -> bool)
    ensures forall x :: x in NextStatesOf(ts, canSelfLoop, current, isTruthy) <==>
      x in Named(ts) && Allows(ts, canSelfLoop, current, x, isTruthy)
    ensures Distinct(NextStatesOf(ts, canSelfLoop, current, isTruthy))
    ensures var r := NextStatesOf(ts, canSelfLoop, current, isTruthy); var u := Universe(ts);
      exists pos: seq<nat> ::
        && |pos| == |r|
        && (forall i :: 0 <= i < |pos| ==> pos[i] < |u| && u[pos[i]] == r[i])
        && (forall i, j :: 0 <= i < j < |pos| ==> pos[i] < pos[j])
  {
    var ss := StatesOf(ts, canSelfLoop, current, isTruthy);
    var u := Universe(ts);
    var r := NextStatesOf(ts, canSelfLoop, current, isTruthy);
    UniverseExactlyOnce(ts);
    forall x ensures x in r <==> x in Named(ts) && Allows(ts, canSelfLoop, current, x, isTruthy) {
      ReachableStatesMembers(ss, x);
      if x in Named(ts) && Allows(ts, canSelfLoop, current, x, isTruthy) {
        var k :| 0 <= k < |u| && u[k] == x;
        assert ss[k].state == x && ss[k].reachable;
      }
    }
    ReachableStatesOrdered(ss);
    var pos: seq<nat> :| |pos| == |r|
      && (forall i :: 0 <= i < |pos| ==> pos[i] < |ss| && ss[pos[i]].state == r[i] && ss[pos[i]].reachable)
      && (forall i, j :: 0 <= i < j < |pos| ==> pos[i] < pos[j]);
    assert forall i :: 0 <= i < |pos| ==> pos[i] < |u| && u[pos[i]] == r[i];
    forall i, j | 0 <= i < j < |r| ensures r[i] != r[j] {
      assert u[pos[i]] != u[pos[j]];
    }
  }
}
