/** Concrete cases: the gamma bounds of the constructor, the tolerance of the probability
    check and the 3-by-3 grid world with one wall. */
module Scenarios {
  import opened Wrappers
  import opened Geometry
  import opened MarkovDecision
  import opened GridWorld

  /** gamma = 0 and gamma = 1.5 are rejected; gamma = 1 is accepted. */
  lemma GammaBounds(t: Table<int, int>)
    ensures NewMdp(0, Shared([]), {}, Some(t), None, None, 0.0) == Err(InvalidGamma)
    ensures NewMdp(0, Shared([]), {}, Some(t), None, None, 1.5) == Err(InvalidGamma)
    ensures NewMdp(0, Shared([]), {}, Some(t), None, None, 1.0).Ok?
  {
  }

  /** A one-state process whose single action has the given outcome list, looping on state 0. */
  function OneStep(outs: seq<Outcome<int>>): Mdp<int, int>
  {
    Mdp(0, Shared([Act(0)]), {}, map[0 := map[Act(0) := outs]], map[0 := 0.0], {0}, DEFAULT_GAMMA)
  }

  /** Probabilities adding up to 0.95 fail the probability check, and so does 0.999, which
      lies exactly at the tolerance of the strict comparison; 0.9995 passes it. */
  lemma ProbabilityTolerance()
    ensures !Consistent(OneStep([Outcome(0.5, 0), Outcome(0.45, 0)]))
    ensures FirstViolation(OneStep([Outcome(0.5, 0), Outcome(0.45, 0)]), ProbabilitySum(0, Act(0)))
    ensures FirstViolation(OneStep([Outcome(0.5, 0), Outcome(0.499, 0)]), ProbabilitySum(0, Act(0)))
    ensures Consistent(OneStep([Outcome(0.5, 0), Outcome(0.4995, 0)]))
  {
    var low := [Outcome(0.5, 0), Outcome(0.45, 0)];
    var edge := [Outcome(0.5, 0), Outcome(0.499, 0)];
    var high := [Outcome(0.5, 0), Outcome(0.4995, 0)];
    assert low[..1] == edge[..1] == high[..1] == [Outcome(0.5, 0)];
    assert [Outcome(0.5, 0)][..0] == [];
    assert SumProbs(low) == 0.95 && SumProbs(edge) == 0.999 && SumProbs(high) == 0.9995;
    forall outs | outs in {low, edge, high} ensures DerivedStates(OneStep(outs).transitions) == {0} {
      DerivedStatesAreKeysIff(OneStep(outs).transitions);
    }
    assert !SumsToOne(OneStep(low).transitions[0][Act(0)]);
    assert !RowSumsToOne(OneStep(low).transitions[0]);
    assert RowSumsToOne(OneStep(high).transitions[0]) by {
      forall a | a in OneStep(high).transitions[0] ensures SumsToOne(OneStep(high).transitions[0][a]) {
        assert a == Act(0);
      }
    }
  }

  /** Actions given per state as {0: [a1], 1: [a2]}: as written, actions(0) is the whole
      table; as documented it is state 0's list [a1]. */
  lemma PerStateActions()
    ensures var m := Mdp(0, PerState(map[0 := [Act(1)], 1 := [Act(2)]]), {}, map[], map[], {0, 1}, DEFAULT_GAMMA);
      && Actions(m, 0) == PerState(map[0 := [Act(1)], 1 := [Act(2)]])
      && ActionsAt(m, 0) == Ok([Act(1)])
      && ActionsAt(m, 2) == Err(UnknownState)
  {
  }

  /** The 3-by-3 grid as authored, top row first, with a wall in the middle. */
  const SAMPLE: seq<Row> := [
    [Some(-0.04), Some(-0.04), Some(-0.04)],
    [Some(-0.04), None, Some(-0.04)],
    [Some(-0.04), Some(-0.04), Some(1.0)]]

  const SAMPLE_STATES: set<Cell> := {(0, 0), (1, 0), (2, 0), (0, 1), (2, 1), (0, 2), (1, 2), (2, 2)}

  /** Reversed, the sample grid's non-wall cells are the eight cells other than (1, 1). */
  lemma SampleStates()
    ensures CoversColumns(Reversed(SAMPLE), 3)
    ensures GridStates(Reversed(SAMPLE), 3) == SAMPLE_STATES
    ensures GridRewards(Reversed(SAMPLE), 3)[(2, 0)] == 1.0
  {
    var g := Reversed(SAMPLE);
    assert g[0] == SAMPLE[2] && g[1] == SAMPLE[1] && g[2] == SAMPLE[0];
    forall c ensures c in GridStates(g, 3) <==> c in SAMPLE_STATES {
      InGridStates(g, 3, c);
    }
    InGridStates(g, 3, (2, 0));
  }

  /** Built with terminal (2, 0), the bottom-right cell of reward 1, the grid world has the
      eight non-wall cells as states; it is consistent; moving east from (0, 0) reaches (1, 0)
      with 0.8, bumps into the bottom edge with 0.1 and reaches (0, 1) with 0.1. */
  lemma SampleGrid()
    ensures GridSpec(SAMPLE, {(2, 0)}, DEFAULT_INIT, DEFAULT_GAMMA).Ok?
    ensures var gm := GridSpec(SAMPLE, {(2, 0)}, DEFAULT_INIT, DEFAULT_GAMMA).value;
      && gm.base.states == SAMPLE_STATES
      && |gm.base.states| == 8
      && gm.base.reward[(2, 0)] == 1.0
      && Consistent(gm.base)
      && GridT(gm, (0, 0), Act(EAST)) == Ok([Outcome(0.8, (1, 0)), Outcome(0.1, (0, 0)), Outcome(0.1, (0, 1))])
  {
    var terminals: set<Cell> := {(2, 0)};
    SampleStates();
    GridSpecParts(SAMPLE, terminals, DEFAULT_INIT, DEFAULT_GAMMA);
    GridConsistencyIff(SAMPLE, terminals, DEFAULT_INIT, DEFAULT_GAMMA);
    var gm := GridSpec(SAMPLE, terminals, DEFAULT_INIT, DEFAULT_GAMMA).value;
    assert gm.base.states == SAMPLE_STATES;
    SampleMoveEast();
    GridRowShape(SAMPLE_STATES, (0, 0));
    assert gm.base.transitions[(0, 0)][Act(EAST)] == CalculateT(SAMPLE_STATES, (0, 0), Act(EAST));
  }

  lemma SampleMoveEast()
    ensures |SAMPLE_STATES| == 8
    ensures CalculateT(SAMPLE_STATES, (0, 0), Act(EAST))
      == [Outcome(0.8, (1, 0)), Outcome(0.1, (0, 0)), Outcome(0.1, (0, 1))]
  {
  }
}
