/**
 * The concrete transition lists of the repository's tests, and what the model
 * computes for them.
 */
module Fixtures {
  import opened Wrappers
  import opened Transitions
  import opened StateGraph

  /** The string enum of the tests: every value is a non-empty string, so truthy. */
  datatype Letter = A | B | C | D | E | F

  function ShowLetter(l: Letter): string
  {
    match l
    case A => "A" case B => "B" case C => "C" case D => "D" case E => "E" case F => "F"
  }

  function AlwaysTruthy(l: Letter): bool { true }

  function NamedTransition(from: Endpoint<Letter>, to: Endpoint<Letter>, name: string): Transition<Letter>
  {
    Transition(Some(from), Some(to), Some(name))
  }

  /** The four transitions of the toString test; the last has no name. */
  function RenderingFixture(): seq<Transition<Letter>>
  {
    [ NamedTransition(One(A), One(B), "First"),
      NamedTransition(One(B), Many([C, D]), "Second"),
      NamedTransition(Many([C, D]), One(E), "Third"),
      Transition(Some(Many([C, D])), Some(Many([F])), None) ]
  }

  /** "[C,D]": an array endpoint, bracketed and comma-joined. */
  lemma RenderCD()
    ensures Render(Some(Many([C, D])), ShowLetter) == "[C,D]"
  {
    assert ShowAll([C, D], ShowLetter) == ["C", "D"];
    assert Join(["C", "D"], ",") == "C,D" by {
      assert ["C", "D"][1..] == ["D"];
    }
  }

  /** The expected text of a transition between single states: "A->B (First)". */
  lemma RenderingScalarExample()
    ensures ToString(RenderingFixture()[0], ShowLetter) == "A->B (First)"
  {
  }

  /** The expected texts with one array endpoint: "B->[C,D] (Second)" and "[C,D]->E (Third)". */
  lemma RenderingMixedExamples()
    ensures ToString(RenderingFixture()[1], ShowLetter) == "B->[C,D] (Second)"
    ensures ToString(RenderingFixture()[2], ShowLetter) == "[C,D]->E (Third)"
  {
    RenderCD();
  }

  /** An unnamed transition between arrays, the one-element array bracketed: "[C,D]->[F]". */
  lemma RenderingUnnamedExample()
    ensures ToString(RenderingFixture()[3], ShowLetter) == "[C,D]->[F]"
  {
    RenderCD();
    assert ShowAll([F], ShowLetter) == ["F"];
    assert Render(Some(Many([F])), ShowLetter) == "[F]";
  }

  /** The transitions of the initialization test: A->B, A->C, A->[D,E], [F,D]->A. */
  function MachineFixture(): seq<Transition<Letter>>
  {
    [ NamedTransition(One(A), One(B), "A->B"),
      NamedTransition(One(A), One(C), "A->C"),
      NamedTransition(One(A), Many([D, E]), "A->[D,E]"),
      NamedTransition(Many([F, D]), One(A), "loop") ]
  }

  /** The states of the fixture are A, B, C, D, E, F, in that order. */
  lemma MachineFixtureUniverse()
    ensures Universe(MachineFixture()) == [A, B, C, D, E, F]
  {
    MachineFixtureNamed();
    FixtureDedup();
  }

  /** The endpoints in visiting order: from then to, transition by transition. */
  lemma MachineFixtureNamed()
    ensures Named(MachineFixture()) == [A, B, A, C, A, D, E, F, D, A]
  {
    var t0, t1, t2, t3 := NamedTransition(One(A), One(B), "A->B"), NamedTransition(One(A), One(C), "A->C"),
      NamedTransition(One(A), Many([D, E]), "A->[D,E]"), NamedTransition(Many([F, D]), One(A), "loop");
    assert Named([t0]) == [A, B] by { assert [] + [t0] == [t0]; NamedAppend([], t0); }
    assert Named([t0, t1]) == [A, B, A, C] by { assert [t0] + [t1] == [t0, t1]; NamedAppend([t0], t1); }
    assert Named([t0, t1, t2]) == [A, B, A, C, A, D, E] by { assert [t0, t1] + [t2] == [t0, t1, t2]; NamedAppend([t0, t1], t2); }
    assert [t0, t1, t2] + [t3] == MachineFixture();
    NamedAppend([t0, t1, t2], t3);
  }

  /** First sightings in the visiting order A, B, A, C, A, D, E, F, D, A. */
  lemma FixtureDedup()
    ensures Dedup([A, B, A, C, A, D, E, F, D, A]) == [A, B, C, D, E, F]
  {
    FixtureDedupMiddle();
    assert Dedup([A, B, A, C, A, D, E, F]) == [A, B, C, D, E, F] by { assert [A, B, A, C, A, D, E] + [F] == [A, B, A, C, A, D, E, F]; DedupAppend([A, B, A, C, A, D, E], F); }
    assert Dedup([A, B, A, C, A, D, E, F, D]) == [A, B, C, D, E, F] by { assert [A, B, A, C, A, D, E, F] + [D] == [A, B, A, C, A, D, E, F, D]; DedupAppend([A, B, A, C, A, D, E, F], D); }
    assert [A, B, A, C, A, D, E, F, D] + [A] == [A, B, A, C, A, D, E, F, D, A];
    DedupAppend([A, B, A, C, A, D, E, F, D], A);
  }

  lemma FixtureDedupMiddle()
    ensures Dedup([A, B, A, C, A, D, E]) == [A, B, C, D, E]
  {
    FixtureDedupFront();
    assert Dedup([A, B, A, C, A, D]) == [A, B, C, D] by { assert [A, B, A, C, A] + [D] == [A, B, A, C, A, D]; DedupAppend([A, B, A, C, A], D); }
    assert [A, B, A, C, A, D] + [E] == [A, B, A, C, A, D, E];
    DedupAppend([A, B, A, C, A, D], E);
  }

  lemma FixtureDedupFront()
    ensures Dedup([A, B, A, C, A]) == [A, B, C]
  {
    assert Dedup([A]) == [A] by { assert [] + [A] == [A]; DedupAppend([], A); }
    assert Dedup([A, B]) == [A, B] by { assert [A] + [B] == [A, B]; DedupAppend([A], B); }
    assert Dedup([A, B, A]) == [A, B] by { assert [A, B] + [A] == [A, B, A]; DedupAppend([A, B], A); }
    assert Dedup([A, B, A, C]) == [A, B, C] by { assert [A, B, A] + [C] == [A, B, A, C]; DedupAppend([A, B, A], C); }
    assert [A, B, A, C] + [A] == [A, B, A, C, A];
    DedupAppend([A, B, A, C], A);
  }

  /** From A without self-loops, `can` allows exactly B, C, D and E. */
  lemma MachineFixtureAllows(x: Letter)
    ensures Allows(MachineFixture(), false, A, x, AlwaysTruthy) <==> x in {B, C, D, E}
  {
    var ts := MachineFixture();
    AnyLeadsStep(ts, 0, A, x, AlwaysTruthy);
    AnyLeadsStep(ts, 1, A, x, AlwaysTruthy);
    AnyLeadsStep(ts, 2, A, x, AlwaysTruthy);
    AnyLeadsStep(ts, 3, A, x, AlwaysTruthy);
    assert ts[..0] == [] && ts[..4] == ts;
    assert !Leads(ts[3], A, x, AlwaysTruthy);
  }

  /** In state A without self-loops, B, C, D and E are reachable and A and F are not. */
  lemma MachineFixtureStates()
    ensures StatesOf(MachineFixture(), false, A, AlwaysTruthy) ==
      [State(A, false), State(B, true), State(C, true), State(D, true), State(E, true), State(F, false)]
  {
    var ts := MachineFixture();
    MachineFixtureUniverse();
    var ss := StatesOf(ts, false, A, AlwaysTruthy);
    assert ss[0] == State(A, false) by { MachineFixtureAllows(A); }
    assert ss[1] == State(B, true) by { MachineFixtureAllows(B); }
    assert ss[2] == State(C, true) by { MachineFixtureAllows(C); }
    assert ss[3] == State(D, true) by { MachineFixtureAllows(D); }
    assert ss[4] == State(E, true) by { MachineFixtureAllows(E); }
    assert ss[5] == State(F, false) by { MachineFixtureAllows(F); }
  }

  /** In state A without self-loops, the next states are B, C, D, E. */
  lemma MachineFixtureNext()
    ensures NextStatesOf(MachineFixture(), false, A, AlwaysTruthy) == [B, C, D, E]
  {
    MachineFixtureStates();
    var a, b, c, d, e, f := State(A, false), State(B, true), State(C, true), State(D, true), State(E, true), State(F, false);
    assert ReachableStates([a]) == [] by { assert [] + [a] == [a]; ReachableAppend([], a); }
    assert ReachableStates([a, b]) == [B] by { assert [a] + [b] == [a, b]; ReachableAppend([a], b); }
    assert ReachableStates([a, b, c]) == [B, C] by { assert [a, b] + [c] == [a, b, c]; ReachableAppend([a, b], c); }
    assert ReachableStates([a, b, c, d]) == [B, C, D] by { assert [a, b, c] + [d] == [a, b, c, d]; ReachableAppend([a, b, c], d); }
    assert ReachableStates([a, b, c, d, e]) == [B, C, D, E] by { assert [a, b, c, d] + [e] == [a, b, c, d, e]; ReachableAppend([a, b, c, d], e); }
    assert [a, b, c, d, e] + [f] == [a, b, c, d, e, f];
    ReachableAppend([a, b, c, d, e], f);
  }

  /**
   * The truthiness of `find`: with numeric states, where 0 is falsy, an array
   * `from` holding 0 does not let state 0 move, while the scalar `from` 0 does.
   */
  lemma FalsyStateInArrayIsIgnored()
    ensures !Allows([Transition(Some(Many([0])), Some(One(1)), None)], false, 0, 1, (n: int) => n != 0)
    ensures Allows([Transition(Some(One(0)), Some(One(1)), None)], false, 0, 1, (n: int) => n != 0)
  {
    AllowsExactly([Transition(Some(Many([0])), Some(One(1)), None)], false, 0, 1, (n: int) => n != 0);
  }
}
