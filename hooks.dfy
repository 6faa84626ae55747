/**
 * `HooksHelper.triggerHooks` of src/helpers/hooks.helper.ts: call every handler
 * of the requested hook type, across all bindings passed in, and AND together
 * what they return, whether a boolean or a promise of one.
 */
module Hooks {

  /** StateHookType: the phase of a state's life cycle a handler is bound to. */
  datatype HookType = OnBeforeLeave | OnAfterLeave | OnBeforeEnter | OnAfterEnter

  /**
   * What a handler returns when called: a boolean directly, or a promise of
   * one, taken here as already resolved to its value.
   */
  datatype HookResult = Direct(value: bool) | Promised(value: bool)

  /** StateHookConfig: a hook type and the result its handler returns when called. */
  datatype HookConfig = HookConfig(hookType: HookType, result: HookResult)

  /** HookFunction: a state and the list of handlers bound to it. */
  datatype HookBinding<T> = HookBinding(state: T, handlers: seq<HookConfig>)

  /** An invocation: the handler at position `handler` of the binding at position `binding`. */
  datatype Call = Call(binding: nat, handler: nat)

  // ---------------------------------------------------------------------------
  // Which handlers run, and what they return.
  // ---------------------------------------------------------------------------

  /** The handlers of one binding that run, as calls. */
  function CallsIn(b: nat, hs: seq<HookConfig>, ty: HookType): seq<Call>
  {
    if |hs| == 0 then []
    else CallsIn(b, hs[..|hs| - 1], ty) + (if hs[|hs| - 1].hookType == ty then [Call(b, |hs| - 1)] else [])
  }

  /** Every handler that runs, in binding order and then handler order. */
  function Calls<T>(hooks: seq<HookBinding<T>>, ty: HookType): seq<Call>
  {
    if |hooks| == 0 then []
    else Calls(hooks[..|hooks| - 1], ty) + CallsIn(|hooks| - 1, hooks[|hooks| - 1].handlers, ty)
  }

  /** The results of the handlers of one binding that run. */
  function ResultsIn(hs: seq<HookConfig>, ty: HookType): seq<HookResult>
  {
    if |hs| == 0 then []
    else ResultsIn(hs[..|hs| - 1], ty) + (if hs[|hs| - 1].hookType == ty then [hs[|hs| - 1].result] else [])
  }

  /** The results of every handler that runs, in the order they run. */
  function Results<T>(hooks: seq<HookBinding<T>>, ty: HookType): seq<HookResult>
  {
    if |hooks| == 0 then []
    else Results(hooks[..|hooks| - 1], ty) + ResultsIn(hooks[|hooks| - 1].handlers, ty)
  }

  /** The call is the position of an existing handler of type `ty`. */
  predicate Invokes<T>(hooks: seq<HookBinding<T>>, ty: HookType, c: Call)
  {
    c.binding < |hooks| && c.handler < |hooks[c.binding].handlers| && hooks[c.binding].handlers[c.handler].hookType == ty
  }

  /** Call `c` comes strictly before call `d`: earlier binding, or same binding and earlier handler. */
  predicate Before(c: Call, d: Call)
  {
    c.binding < d.binding || (c.binding == d.binding && c.handler < d.handler)
  }

  // ---------------------------------------------------------------------------
  // How the results are combined.
  // ---------------------------------------------------------------------------

  /** `okFlag`: the AND of the results returned directly. */
  function DirectConj(rs: seq<HookResult>): (r: bool)
    ensures r <==> forall k :: 0 <= k < |rs| && rs[k].Direct? ==> rs[k].value
  {
    if |rs| == 0 then true
    else
      assert forall k :: 0 <= k < |rs| - 1 ==> rs[..|rs| - 1][k] == rs[k];
      DirectConj(rs[..|rs| - 1]) && (rs[|rs| - 1].Direct? ==> rs[|rs| - 1].value)
  }

  /** `resolvers` once awaited: the values of the promised results, in order. */
  function PromisedValues(rs: seq<HookResult>): (r: seq<bool>)
    ensures |r| <= |rs|
  {
    if |rs| == 0 then []
    else PromisedValues(rs[..|rs| - 1]) + (if rs[|rs| - 1].Promised? then [rs[|rs| - 1].value] else [])
  }

  /** `reduce((acc, value) => value && acc, true)`. */
  function Reduce(vs: seq<bool>): (r: bool)
    ensures r <==> forall k :: 0 <= k < |vs| ==> vs[k]
  {
    if |vs| == 0 then true
    else
      assert forall k :: 0 <= k < |vs| - 1 ==> vs[..|vs| - 1][k] == vs[k];
      vs[|vs| - 1] && Reduce(vs[..|vs| - 1])
  }

  /** What `triggerHooks` resolves to for the results `rs`. */
  function Aggregate(rs: seq<HookResult>): bool
  {
    DirectConj(rs) && Reduce(PromisedValues(rs))
  }

  /** Every result is true. */
  predicate AllHold(rs: seq<HookResult>)
  {
    forall k :: 0 <= k < |rs| ==> rs[k].value
  }

  // ---------------------------------------------------------------------------
  // triggerHooks
  // ---------------------------------------------------------------------------

  /**
   * Calls every handler of type `hookType` in every binding, in binding order
   * and then handler order, without stopping at a false result; `invoked` logs
   * the calls. The answer is true exactly when every handler called returned
   * true, directly or through a promise; in particular it is true when none
   * was called.
   */
  method TriggerHooks<T>(hooks: seq<HookBinding<T>>, hookType: HookType) returns (ok: bool, ghost invoked: seq<Call>)
    ensures invoked == Calls(hooks, hookType)
    ensures ok == Aggregate(Results(hooks, hookType))
    ensures ok <==> forall b, h ::
      (0 <= b < |hooks| && 0 <= h < |hooks[b].handlers| && hooks[b].handlers[h].hookType == hookType) ==>
        hooks[b].handlers[h].result.value
  {
    var resolvers: seq<bool> := [];
    var okFlag := true;
    invoked := [];
    for i := 0 to |hooks|
      invariant invoked == Calls(hooks[..i], hookType)
      invariant okFlag == DirectConj(Results(hooks[..i], hookType))
      invariant resolvers == PromisedValues(Results(hooks[..i], hookType))
    {
      ghost var before := Results(hooks[..i], hookType);
      okFlag, resolvers, invoked := TriggerBinding(i, hooks[i].handlers, hookType, okFlag, resolvers, invoked);
      BindingStep(hooks, i, hookType);
      ResultsAppend(before, ResultsIn(hooks[i].handlers, hookType));
    }
    assert hooks[..|hooks|] == hooks;
    ok := okFlag && Reduce(resolvers);
    AggregateHoldsIff(hooks, hookType);
  }

  /**
   * The inner `forEach` over the handlers of the binding at position `b`: each
   * handler of type `hookType` is called, in order; a direct result is ANDed
   * into `okFlag` and a promise is added to `resolvers`.
   */
  method TriggerBinding(b: nat, handlers: seq<HookConfig>, hookType: HookType,
                        okFlag: bool, resolvers: seq<bool>, ghost invoked: seq<Call>)
    returns (okFlag': bool, resolvers': seq<bool>, ghost invoked': seq<Call>)
    ensures invoked' == invoked + CallsIn(b, handlers, hookType)
    ensures okFlag' == (okFlag && DirectConj(ResultsIn(handlers, hookType)))
    ensures resolvers' == resolvers + PromisedValues(ResultsIn(handlers, hookType))
  {
    okFlag', resolvers', invoked' := okFlag, resolvers, invoked;
    ghost var done: seq<HookResult> := [];
    for j := 0 to |handlers|
      invariant invoked' == invoked + CallsIn(b, handlers[..j], hookType)
      invariant done == ResultsIn(handlers[..j], hookType)
      invariant okFlag' == (okFlag && DirectConj(done))
      invariant resolvers' == resolvers + PromisedValues(done)
    {
      var handlerConfig := handlers[j];
      HandlerStep(b, handlers, j, hookType);
      if handlerConfig.hookType == hookType {
        var result := handlerConfig.result;
        FoldStep(okFlag, resolvers, done, result);
        invoked' := invoked' + [Call(b, j)];
        done := done + [result];
        match result {
          case Promised(v) => resolvers' := resolvers' + [v];
          case Direct(v) => okFlag' := okFlag' && v;
        }
      }
    }
    assert handlers[..|handlers|] == handlers;
  }

  /** Visiting one more binding extends the calls and the results by those of its handlers. */
  lemma BindingStep<T>(hooks: seq<HookBinding<T>>, i: nat, ty: HookType)
    requires i < |hooks|
    ensures Calls(hooks[..i + 1], ty) == Calls(hooks[..i], ty) + CallsIn(i, hooks[i].handlers, ty)
    ensures Results(hooks[..i + 1], ty) == Results(hooks[..i], ty) + ResultsIn(hooks[i].handlers, ty)
  {
    assert hooks[..i + 1][..i] == hooks[..i];
  }

  /** Visiting one more handler extends the calls and the results by at most that handler. */
  lemma HandlerStep(b: nat, hs: seq<HookConfig>, j: nat, ty: HookType)
    requires j < |hs|
    ensures CallsIn(b, hs[..j + 1], ty) == CallsIn(b, hs[..j], ty) + (if hs[j].hookType == ty then [Call(b, j)] else [])
    ensures ResultsIn(hs[..j + 1], ty) == ResultsIn(hs[..j], ty) + (if hs[j].hookType == ty then [hs[j].result] else [])
  {
    assert hs[..j + 1][..j] == hs[..j];
  }

  /** One more result updates the flag and the promised values as the loop body does. */
  lemma ResultStep(rs: seq<HookResult>, r: HookResult)
    ensures DirectConj(rs + [r]) == (DirectConj(rs) && (r.Direct? ==> r.value))
    ensures PromisedValues(rs + [r]) == PromisedValues(rs) + (if r.Promised? then [r.value] else [])
  {
    assert (rs + [r])[..|rs|] == rs;
  }

  /** One more result, seen after `okFlag` and `resolvers` were already accumulated. */
  lemma FoldStep(okFlag: bool, resolvers: seq<bool>, done: seq<HookResult>, r: HookResult)
    ensures (okFlag && DirectConj(done + [r])) == ((okFlag && DirectConj(done)) && (r.Direct? ==> r.value))
    ensures resolvers + PromisedValues(done + [r]) ==
      (resolvers + PromisedValues(done)) + (if r.Promised? then [r.value] else [])
  {
    ResultStep(done, r);
  }

  /** The flag and the promised values of two runs of results, one after the other, combine. */
  lemma {:induction false} ResultsAppend(rs: seq<HookResult>, us: seq<HookResult>)
    ensures DirectConj(rs + us) == (DirectConj(rs) && DirectConj(us))
    ensures PromisedValues(rs + us) == PromisedValues(rs) + PromisedValues(us)
  {
    if |us| > 0 {
      var init := us[..|us| - 1];
      var u := us[|us| - 1];
      ResultsAppend(rs, init);
      assert rs + us == (rs + init) + [u];
      ResultStep(rs + init, u);
      ResultStep(init, u);
      assert init + [u] == us;
    } else {
      assert rs + us == rs;
    }
  }

  // ---------------------------------------------------------------------------
  // What triggerHooks promises.
  // ---------------------------------------------------------------------------

  /** The flag and the reduced promises together are the AND of all results. */
  lemma {:induction false} AggregateIsConjunction(rs: seq<HookResult>)
    ensures Aggregate(rs) == AllHold(rs)
  {
    if |rs| > 0 {
      var init := rs[..|rs| - 1];
      var r := rs[|rs| - 1];
      AggregateIsConjunction(init);
      var p := PromisedValues(init);
      if r.Promised? {
        assert PromisedValues(rs) == p + [r.value];
        assert (p + [r.value])[..|p|] == p;
        assert Reduce(PromisedValues(rs)) == (r.value && Reduce(p));
      } else {
        assert PromisedValues(rs) == p;
      }
      assert DirectConj(rs) == (DirectConj(init) && (r.Direct? ==> r.value));
      assert forall k :: 0 <= k < |init| ==> init[k] == rs[k];
      assert AllHold(rs) == (AllHold(init) && r.value);
    }
  }

  /** A result counts the same whether it came directly or through a promise. */
  lemma WrapperIrrelevant(rs: seq<HookResult>, k: nat)
    requires k < |rs|
    ensures Aggregate(rs[k := Direct(rs[k].value)]) == Aggregate(rs)
    ensures Aggregate(rs[k := Promised(rs[k].value)]) == Aggregate(rs)
  {
    var direct := rs[k := Direct(rs[k].value)];
    var promised := rs[k := Promised(rs[k].value)];
    AggregateIsConjunction(rs);
    AggregateIsConjunction(direct);
    AggregateIsConjunction(promised);
    assert forall i :: 0 <= i < |rs| ==> direct[i].value == rs[i].value == promised[i].value;
  }

  /** The calls of one binding: exactly its handlers of type `ty`, in handler order. */
  lemma {:induction false} CallsInExact(b: nat, hs: seq<HookConfig>, ty: HookType)
    ensures forall c :: c in CallsIn(b, hs, ty) <==> c.binding == b && c.handler < |hs| && hs[c.handler].hookType == ty
    ensures forall i, j :: 0 <= i < j < |CallsIn(b, hs, ty)| ==>
      CallsIn(b, hs, ty)[i].handler < CallsIn(b, hs, ty)[j].handler
  {
    if |hs| > 0 {
      var init := hs[..|hs| - 1];
      CallsInExact(b, init, ty);
      assert forall h :: 0 <= h < |init| ==> init[h] == hs[h];
    }
  }

  /**
   * The calls are exactly the positions of the handlers of type `ty`, each
   * once, strictly in binding order and then handler order.
   */
  lemma {:induction false} CallsExact<T>(hooks: seq<HookBinding<T>>, ty: HookType)
    ensures forall c :: c in Calls(hooks, ty) <==> Invokes(hooks, ty, c)
    ensures forall i, j :: 0 <= i < j < |Calls(hooks, ty)| ==> Before(Calls(hooks, ty)[i], Calls(hooks, ty)[j])
  {
    if |hooks| > 0 {
      var n := |hooks| - 1;
      var init := hooks[..n];
      CallsExact(init, ty);
      CallsInExact(n, hooks[n].handlers, ty);
      assert forall b :: 0 <= b < n ==> init[b] == hooks[b];
      var front := Calls(init, ty);
      var back := CallsIn(n, hooks[n].handlers, ty);
      assert forall c :: c in front ==> c.binding < n;
      assert forall c :: c in back ==> c.binding == n;
      forall i, j | 0 <= i < j < |front + back| ensures Before((front + back)[i], (front + back)[j]) {
        if j < |front| {
        } else if i >= |front| {
          assert (front + back)[i] == back[i - |front|];
          assert (front + back)[j] == back[j - |front|];
        } else {
          assert (front + back)[i] in front;
          assert (front + back)[j] in back;
        }
      }
    }
  }

  /** Nothing is called exactly when no handler has type `ty`. */
  lemma NothingCalledIffNoMatch<T>(hooks: seq<HookBinding<T>>, ty: HookType)
    ensures Calls(hooks, ty) == [] <==>
      forall b, h :: 0 <= b < |hooks| && 0 <= h < |hooks[b].handlers| ==> hooks[b].handlers[h].hookType != ty
  {
    CallsExact(hooks, ty);
    if Calls(hooks, ty) != [] {
      assert Calls(hooks, ty)[0] in Calls(hooks, ty);
    }
    if !forall b, h :: 0 <= b < |hooks| && 0 <= h < |hooks[b].handlers| ==> hooks[b].handlers[h].hookType != ty {
      var b, h :| 0 <= b < |hooks| && 0 <= h < |hooks[b].handlers| && hooks[b].handlers[h].hookType == ty;
      assert Invokes(hooks, ty, Call(b, h));
    }
  }

  /** The results of one binding are those of its calls, position by position. */
  lemma {:induction false} ResultsInAtCalls(b: nat, hs: seq<HookConfig>, ty: HookType)
    ensures |ResultsIn(hs, ty)| == |CallsIn(b, hs, ty)|
    ensures forall k :: 0 <= k < |ResultsIn(hs, ty)| ==>
      CallsIn(b, hs, ty)[k].handler < |hs| && ResultsIn(hs, ty)[k] == hs[CallsIn(b, hs, ty)[k].handler].result
  {
    if |hs| > 0 {
      var init := hs[..|hs| - 1];
      ResultsInAtCalls(b, init, ty);
      assert forall h :: 0 <= h < |init| ==> init[h] == hs[h];
    }
  }

  /** The results are those of the calls, position by position. */
  lemma {:induction false} ResultsAtCalls<T>(hooks: seq<HookBinding<T>>, ty: HookType)
    ensures |Results(hooks, ty)| == |Calls(hooks, ty)|
    ensures forall k :: 0 <= k < |Results(hooks, ty)| ==>
      Invokes(hooks, ty, Calls(hooks, ty)[k]) &&
      Results(hooks, ty)[k] == hooks[Calls(hooks, ty)[k].binding].handlers[Calls(hooks, ty)[k].handler].result
  {
    CallsExact(hooks, ty);
    if |hooks| > 0 {
      var n := |hooks| - 1;
      var init := hooks[..n];
      ResultsAtCalls(init, ty);
      ResultsInAtCalls(n, hooks[n].handlers, ty);
      CallsInExact(n, hooks[n].handlers, ty);
      assert forall b :: 0 <= b < n ==> init[b] == hooks[b];
      var cs := Calls(hooks, ty);
      var rs := Results(hooks, ty);
      forall k | 0 <= k < |rs|
        ensures Invokes(hooks, ty, cs[k]) && rs[k] == hooks[cs[k].binding].handlers[cs[k].handler].result
      {
        assert cs[k] in cs;
      }
    }
  }

  /** Every result is true exactly when every handler of type `ty` returns true. */
  lemma ResultsHoldIff<T>(hooks: seq<HookBinding<T>>, ty: HookType)
    ensures AllHold(Results(hooks, ty)) <==>
      forall b, h ::
        (0 <= b < |hooks| && 0 <= h < |hooks[b].handlers| && hooks[b].handlers[h].hookType == ty) ==>
          hooks[b].handlers[h].result.value
  {
    ResultsAtCalls(hooks, ty);
    CallsExact(hooks, ty);
    var cs := Calls(hooks, ty);
    var rs := Results(hooks, ty);
    if AllHold(rs) {
      forall b, h | 0 <= b < |hooks| && 0 <= h < |hooks[b].handlers| && hooks[b].handlers[h].hookType == ty
        ensures hooks[b].handlers[h].result.value
      {
        assert Invokes(hooks, ty, Call(b, h));
        var k :| 0 <= k < |cs| && cs[k] == Call(b, h);
      }
    }
  }

  /** The aggregate is true exactly when every handler of type `ty` returns true. */
  lemma AggregateHoldsIff<T>(hooks: seq<HookBinding<T>>, ty: HookType)
    ensures Aggregate(Results(hooks, ty)) <==> forall b, h ::
      (0 <= b < |hooks| && 0 <= h < |hooks[b].handlers| && hooks[b].handlers[h].hookType == ty) ==>
        hooks[b].handlers[h].result.value
  {
    AggregateIsConjunction(Results(hooks, ty));
    ResultsHoldIff(hooks, ty);
  }

  /** Replacing a handler of another type by another such handler changes neither calls nor results. */
  lemma {:induction false} OtherTypesIgnoredIn(b: nat, hs: seq<HookConfig>, ty: HookType, h: nat, cfg: HookConfig)
    requires h < |hs| && hs[h].hookType != ty && cfg.hookType != ty
    ensures CallsIn(b, hs[h := cfg], ty) == CallsIn(b, hs, ty)
    ensures ResultsIn(hs[h := cfg], ty) == ResultsIn(hs, ty)
  {
    var n := |hs| - 1;
    var hs' := hs[h := cfg];
    if h < n {
      assert hs'[..n] == hs[..n][h := cfg];
      OtherTypesIgnoredIn(b, hs[..n], ty, h, cfg);
    } else {
      assert hs'[..n] == hs[..n];
    }
  }

  /** Handlers of any other type neither run nor affect the result. */
  lemma {:induction false} OtherTypesIgnored<T>(hooks: seq<HookBinding<T>>, ty: HookType, b: nat, h: nat, cfg: HookConfig)
    requires b < |hooks| && h < |hooks[b].handlers|
    requires hooks[b].handlers[h].hookType != ty && cfg.hookType != ty
    ensures var hooks' := hooks[b := hooks[b].(handlers := hooks[b].handlers[h := cfg])];
      Calls(hooks', ty) == Calls(hooks, ty) && Results(hooks', ty) == Results(hooks, ty)
  {
    var n := |hooks| - 1;
    var hooks' := hooks[b := hooks[b].(handlers := hooks[b].handlers[h := cfg])];
    if b < n {
      assert hooks'[..n] == hooks[..n][b := hooks[b].(handlers := hooks[b].handlers[h := cfg])];
      OtherTypesIgnored(hooks[..n], ty, b, h, cfg);
    } else {
      assert hooks'[..n] == hooks[..n];
      OtherTypesIgnoredIn(n, hooks[b].handlers, ty, h, cfg);
    }
  }

  /** No filtering by state: the bindings' states play no part in which handlers run or what they give. */
  lemma {:induction false} StatesIgnored<T>(hooks: seq<HookBinding<T>>, others: seq<HookBinding<T>>, ty: HookType)
    requires |hooks| == |others|
    requires forall b :: 0 <= b < |hooks| ==> hooks[b].handlers == others[b].handlers
    ensures Calls(hooks, ty) == Calls(others, ty) && Results(hooks, ty) == Results(others, ty)
  {
    if |hooks| > 0 {
      StatesIgnored(hooks[..|hooks| - 1], others[..|others| - 1], ty);
    }
  }
}
