/** The base Markov Decision Process: states, actions, terminal states, a transition table
    from (state, action) to a list of (probability, successor) outcomes, a reward per state
    and a discount factor. Once built it is never changed, so it is a value here; the
    constructor becomes a function that yields the process or the error it raises. */
module MarkovDecision {
  import opened Wrappers

  /** An action, or the "no action" marker (Python's None) offered in terminal states. */
  datatype Action<A> = NoAction | Act(a: A)

  /** One entry of a transition list: with probability `prob` the process moves to `next`. */
  datatype Outcome<S> = Outcome(prob: real, next: S)

  /** state -> action -> outcome list. */
  type Table<S(==), A(==)> = map<S, map<Action<A>, seq<Outcome<S>>>>

  /** The action configuration: one list shared by every state, or a list per state. */
  datatype ActionSpec<S(==), A(==)> = Shared(list: seq<Action<A>>) | PerState(table: map<S, seq<Action<A>>>)

  /** The failures mdp.py raises (IndexError, KeyError, ValueError, TypeError), by cause. */
  datatype Error =
    | InvalidGamma        // gamma outside (0, 1]
    | MissingStates       // neither a state set nor a transition table
    | MissingTransitions  // transition query on an empty table
    | UnknownState        // key missing from the reward or transition table
    | UnknownAction       // action missing from a state's transition row
    | EmptyGrid           // a grid world built from no rows
    | RaggedGrid          // a grid row shorter than the first one

  datatype Mdp<S(==), A(==)> = Mdp(
    init: S,
    actions: ActionSpec<S, A>,
    terminals: set<S>,
    transitions: Table<S, A>,
    reward: map<S, real>,
    states: set<S>,
    gamma: real)

  const DEFAULT_GAMMA: real := 0.9

  /** The tolerance of the probability-sum check. */
  const TOLERANCE: real := 0.001

  predicate ValidGamma(gamma: real)
  {
    0.0 < gamma <= 1.0
  }

  /** Every successor named anywhere in the table. */
  function Successors<S(==), A(==)>(t: Table<S, A>): set<S>
  {
    set s1, a, o | s1 in t && a in t[s1] && o in t[s1][a] :: o.next
  }

  /** The states a table mentions: its keys and every successor in any outcome. */
  function DerivedStates<S(==), A(==)>(t: Table<S, A>): set<S>
  {
    t.Keys + Successors(t)
  }

  /** The derivation as called by the constructor: there is nothing to derive from an absent
      table (mdp.py prints a failure message and returns None). */
  function DeriveStates<S(==), A(==)>(transitions: Option<Table<S, A>>): (r: Option<set<S>>)
    ensures r.Some? <==> transitions.Some?
    ensures r.Some? ==> transitions.value.Keys <= r.value
    ensures r.Some? ==> forall s1, a, k ::
      s1 in transitions.value && a in transitions.value[s1] && 0 <= k < |transitions.value[s1][a]|
      ==> transitions.value[s1][a][k].next in r.value
    ensures r.Some? ==> forall x :: x in r.value ==>
      x in transitions.value || exists s1, a, o ::
        s1 in transitions.value && a in transitions.value[s1] && o in transitions.value[s1][a] && o.next == x
  {
    match transitions
    case None => None
    case Some(t) =>
      assert forall s1, a, k :: s1 in t && a in t[s1] && 0 <= k < |t[s1][a]| ==> t[s1][a][k] in t[s1][a];
      Some(DerivedStates(t))
  }

  /** Every successor in the table is itself a key of the table. */
  ghost predicate SuccessorsAreKeys<S, A>(t: Table<S, A>)
  {
    forall s1, a, k :: s1 in t && a in t[s1] && 0 <= k < |t[s1][a]| ==> t[s1][a][k].next in t
  }

  /** The derived states are exactly the keys precisely when no outcome leaves the key set. */
  lemma DerivedStatesAreKeysIff<S, A>(t: Table<S, A>)
    ensures DerivedStates(t) == t.Keys <==> SuccessorsAreKeys(t)
  {
    if SuccessorsAreKeys(t) {
      forall x | x in Successors(t) ensures x in t {
        var s1, a, o :| s1 in t && a in t[s1] && o in t[s1][a] && o.next == x;
        var k :| 0 <= k < |t[s1][a]| && t[s1][a][k] == o;
      }
    }
    if DerivedStates(t) == t.Keys {
      forall s1, a, k | s1 in t && a in t[s1] && 0 <= k < |t[s1][a]| ensures t[s1][a][k].next in t {
        assert t[s1][a][k] in t[s1][a];
        assert t[s1][a][k].next in Successors(t);
      }
    }
  }

  /** The constructor: rejects gamma outside (0, 1]; takes the given states or derives them
      from the table; an absent table becomes the empty one; an absent reward table gives
      every state reward 0. */
  function NewMdp<S(==), A(==)>(
    init: S, actions: ActionSpec<S, A>, terminals: set<S>,
    transitions: Option<Table<S, A>>, reward: Option<map<S, real>>, states: Option<set<S>>,
    gamma: real): (r: Result<Mdp<S, A>, Error>)
    ensures r.Ok? <==> ValidGamma(gamma) && (states.Some? || transitions.Some?)
    ensures !ValidGamma(gamma) ==> r == Err(InvalidGamma)
    ensures ValidGamma(gamma) && states.None? && transitions.None? ==> r == Err(MissingStates)
    ensures r.Ok? ==>
      r.value.init == init && r.value.actions == actions && r.value.terminals == terminals && r.value.gamma == gamma
    ensures r.Ok? && states.Some? ==> r.value.states == states.value
    ensures r.Ok? && states.None? ==> r.value.states == DerivedStates(transitions.value)
    ensures r.Ok? && transitions.Some? ==> r.value.transitions == transitions.value
    ensures r.Ok? && transitions.None? ==> r.value.transitions == map[]
    ensures r.Ok? && reward.Some? ==> r.value.reward == reward.value
    ensures r.Ok? && reward.None? ==>
      r.value.reward.Keys == r.value.states && forall s :: s in r.value.reward ==> r.value.reward[s] == 0.0
  {
    if !ValidGamma(gamma) then Err(InvalidGamma)
    else
      var st := if states.Some? then Some(states.value) else DeriveStates(transitions);
      if st.None? then Err(MissingStates)
      else
        var rw := if reward.Some? then reward.value else map s | s in st.value :: 0.0;
        Ok(Mdp(init, actions, terminals, transitions.GetOr(map[]), rw, st.value, gamma))
  }

  /** The warning the constructor prints when the transition table is empty. */
  predicate EmptyTransitionWarning<S(==), A(==)>(m: Mdp<S, A>)
  {
    m.transitions == map[]
  }

  /** R(s): the reward of s; a state without a reward entry is a lookup failure. */
  function R<S(==), A(==)>(m: Mdp<S, A>, s: S): (r: Result<real, Error>)
    ensures r.Ok? <==> s in m.reward
    ensures r.Ok? ==> r.value == m.reward[s]
    ensures r.Err? ==> r.error == UnknownState
  {
    if s in m.reward then Ok(m.reward[s]) else Err(UnknownState)
  }

  /** T(s, a): the stored outcome list; an empty table is "transition model is missing". */
  function T<S(==), A(==)>(m: Mdp<S, A>, s: S, a: Action<A>): (r: Result<seq<Outcome<S>>, Error>)
    ensures m.transitions == map[] ==> r == Err(MissingTransitions)
    ensures r.Ok? <==> s in m.transitions && a in m.transitions[s]
    ensures r.Ok? ==> r.value == m.transitions[s][a]
    ensures m.transitions != map[] && s !in m.transitions ==> r == Err(UnknownState)
  {
    if m.transitions == map[] then Err(MissingTransitions)
    else if s !in m.transitions then Err(UnknownState)
    else if a !in m.transitions[s] then Err(UnknownAction)
    else Ok(m.transitions[s][a])
  }

  /** actions(s) exactly as mdp.py writes it: only the "no action" marker in a terminal
      state, otherwise the configured action list, or the whole per-state table when the
      actions were given as one. */
  function Actions<S(==), A(==)>(m: Mdp<S, A>, s: S): (r: ActionSpec<S, A>)
    ensures s in m.terminals ==> r == Shared([NoAction])
    ensures s !in m.terminals ==> r == m.actions
  {
    if s in m.terminals then Shared([NoAction]) else m.actions
  }

  /** actions(s) as documented, "the list of actions available in state s": the marker in a
      terminal state, the shared list, or this state's entry of a per-state table (a state
      without an entry is a key error). */
  function ActionsAt<S(==), A(==)>(m: Mdp<S, A>, s: S): (r: Result<seq<Action<A>>, Error>)
    ensures s in m.terminals ==> r == Ok([NoAction])
    ensures s !in m.terminals && m.actions.Shared? ==> r == Ok(m.actions.list)
    ensures s !in m.terminals && m.actions.PerState? ==>
      (r.Ok? <==> s in m.actions.table) && (r.Ok? ==> r.value == m.actions.table[s])
    ensures r.Err? ==> r == Err(UnknownState)
  {
    if s in m.terminals then Ok([NoAction])
    else match m.actions
      case Shared(list) => Ok(list)
      case PerState(table) => if s in table then Ok(table[s]) else Err(UnknownState)
  }

  /** The two readings agree except on a non-terminal state of a per-state configuration,
      where the code as written hands back the whole table instead of the state's list. */
  lemma ActionsAsWrittenReturnsTable<S, A>(m: Mdp<S, A>, s: S)
    ensures m.actions.Shared? || s in m.terminals ==>
      Actions(m, s).Shared? && ActionsAt(m, s) == Ok(Actions(m, s).list)
    ensures m.actions.PerState? && s !in m.terminals ==>
      Actions(m, s) == m.actions && !Actions(m, s).Shared?
      && ActionsAt(m, s) == (if s in m.actions.table then Ok(m.actions.table[s]) else Err(UnknownState))
  {
  }

  /** The reward of every state is exactly the value supplied to the constructor, or 0 when
      no reward table was supplied. */
  lemma RewardRoundTrip<S, A>(
    init: S, actions: ActionSpec<S, A>, terminals: set<S>,
    transitions: Option<Table<S, A>>, reward: Option<map<S, real>>, states: Option<set<S>>,
    gamma: real, s: S)
    requires NewMdp(init, actions, terminals, transitions, reward, states, gamma).Ok?
    ensures reward.Some? ==>
      R(NewMdp(init, actions, terminals, transitions, reward, states, gamma).value, s)
      == (if s in reward.value then Ok(reward.value[s]) else Err(UnknownState))
    ensures reward.None? ==>
      var m := NewMdp(init, actions, terminals, transitions, reward, states, gamma).value;
      s in m.states ==> R(m, s) == Ok(0.0)
  {
  }

  /** T returns the supplied outcome list unchanged when the supplied table is not empty,
      and fails for every query when the table is absent or empty. */
  lemma TransitionRoundTrip<S, A>(
    init: S, actions: ActionSpec<S, A>, terminals: set<S>,
    transitions: Option<Table<S, A>>, reward: Option<map<S, real>>, states: Option<set<S>>,
    gamma: real, s: S, a: Action<A>)
    requires NewMdp(init, actions, terminals, transitions, reward, states, gamma).Ok?
    ensures var m := NewMdp(init, actions, terminals, transitions, reward, states, gamma).value;
      if transitions.None? || transitions.value == map[] then
        T(m, s, a) == Err(MissingTransitions) && EmptyTransitionWarning(m)
      else if s in transitions.value && a in transitions.value[s] then
        T(m, s, a) == Ok(transitions.value[s][a])
      else T(m, s, a).Err?
  {
  }

  /** The probabilities of an outcome list, added up from the front. */
  function SumProbs<S>(outs: seq<Outcome<S>>): real
  {
    if outs == [] then 0.0 else SumProbs(outs[..|outs| - 1]) + outs[|outs| - 1].prob
  }

  function Abs(x: real): real
  {
    if x < 0.0 then -x else x
  }

  predicate SumsToOne<S>(outs: seq<Outcome<S>>)
  {
    Abs(SumProbs(outs) - 1.0) < TOLERANCE
  }

  predicate RowSumsToOne<S(==), A(==)>(row: map<Action<A>, seq<Outcome<S>>>)
  {
    forall a :: a in row ==> SumsToOne(row[a])
  }

  predicate DistributionsSumToOne<S(==), A(==)>(t: Table<S, A>)
  {
    forall s1 :: s1 in t ==> RowSumsToOne(t[s1])
  }

  /** The five conditions the consistency check asserts. */
  predicate Consistent<S(==), A(==)>(m: Mdp<S, A>)
  {
    && m.states == DerivedStates(m.transitions)
    && m.init in m.states
    && m.reward.Keys == m.states
    && m.terminals <= m.states
    && DistributionsSumToOne(m.transitions)
  }

  /** Which assertion of the consistency check fails. */
  datatype Violation<S, A> =
    | StatesMismatch
    | InvalidInit
    | RewardKeysMismatch
    | InvalidTerminal
    | ProbabilitySum(state: S, action: Action<A>)

  datatype Verdict<S, A> = Pass | Fail(violation: Violation<S, A>)

  /** The check for `v` fails and every check made before it passes. */
  predicate FirstViolation<S(==), A(==)>(m: Mdp<S, A>, v: Violation<S, A>)
  {
    match v
    case StatesMismatch => m.states != DerivedStates(m.transitions)
    case InvalidInit => m.states == DerivedStates(m.transitions) && m.init !in m.states
    case RewardKeysMismatch =>
      m.states == DerivedStates(m.transitions) && m.init in m.states && m.reward.Keys != m.states
    case InvalidTerminal =>
      m.states == DerivedStates(m.transitions) && m.init in m.states && m.reward.Keys == m.states
      && !(m.terminals <= m.states)
    case ProbabilitySum(s1, a) =>
      m.states == DerivedStates(m.transitions) && m.init in m.states && m.reward.Keys == m.states
      && m.terminals <= m.states
      && s1 in m.transitions && a in m.transitions[s1] && !SumsToOne(m.transitions[s1][a])
  }

  /** check_consistency: the four set checks in order, then every (state, action) row of
      the table, adding up each outcome list's probabilities in a loop. */
  method CheckConsistency<S(==), A(==)>(m: Mdp<S, A>) returns (v: Verdict<S, A>)
    ensures v.Pass? <==> Consistent(m)
    ensures v.Fail? ==> FirstViolation(m, v.violation)
  {
    if m.states != DerivedStates(m.transitions) {
      return Fail(StatesMismatch);
    }
    if m.init !in m.states {
      return Fail(InvalidInit);
    }
    if m.reward.Keys != m.states {
      return Fail(RewardKeysMismatch);
    }
    if !(m.terminals <= m.states) {
      return Fail(InvalidTerminal);
    }
    var pending := m.transitions.Keys;
    while pending != {}
      invariant pending <= m.transitions.Keys
      invariant forall s1 :: s1 in m.transitions && s1 !in pending ==> RowSumsToOne(m.transitions[s1])
      decreases pending
    {
      var s1 :| s1 in pending;
      var row := m.transitions[s1];
      var unchecked := row.Keys;
      while unchecked != {}
        invariant unchecked <= row.Keys
        invariant forall a :: a in row && a !in unchecked ==> SumsToOne(row[a])
        decreases unchecked
      {
        var a :| a in unchecked;
        var outs := row[a];
        var sum := 0.0;
        var i := 0;
        while i < |outs|
          invariant 0 <= i <= |outs|
          invariant sum == SumProbs(outs[..i])
        {
          assert outs[..i + 1][..i] == outs[..i];
          sum := sum + outs[i].prob;
          i := i + 1;
        }
        assert outs[..i] == outs;
        if !(Abs(sum - 1.0) < TOLERANCE) {
          return Fail(ProbabilitySum(s1, a));
        }
        unchecked := unchecked - {a};
      }
      pending := pending - {s1};
    }
    return Pass;
  }
}
