/** The terminal-aware variant (MDP2): the same process, always built from a transition
    table, whose T answers the "no action" marker with a zero-probability self-loop instead
    of looking the marker up in the table. */
module TerminalAware {
  import opened Wrappers
  import opened MarkovDecision

  /** MDP2's constructor passes no state set, so the states are always derived from the
      table. */
  function NewMdp2<S(==), A(==)>(
    init: S, actions: ActionSpec<S, A>, terminals: set<S>,
    transitions: Table<S, A>, reward: Option<map<S, real>>, gamma: real): (r: Result<Mdp<S, A>, Error>)
    ensures r.Ok? <==> ValidGamma(gamma)
    ensures r.Ok? ==> r.value.states == DerivedStates(transitions) && r.value.transitions == transitions
  {
    NewMdp(init, actions, terminals, Some(transitions), reward, None, gamma)
  }

  /** The placeholder answer for the "no action" marker in state s. */
  function Placeholder<S>(s: S): seq<Outcome<S>>
  {
    [Outcome(0.0, s)]
  }

  /** MDP2's T: the placeholder for the marker; otherwise a plain table lookup, without
      the base's "transition model is missing" check. */
  function Mdp2T<S(==), A(==)>(m: Mdp<S, A>, s: S, a: Action<A>): (r: Result<seq<Outcome<S>>, Error>)
    ensures a == NoAction ==> r == Ok(Placeholder(s)) && SumProbs(r.value) == 0.0
    ensures a != NoAction ==> (r.Ok? <==> s in m.transitions && a in m.transitions[s])
    ensures a != NoAction && r.Ok? ==> r.value == m.transitions[s][a]
    ensures a != NoAction && s !in m.transitions ==> r == Err(UnknownState)
  {
    if a == NoAction then Ok(Placeholder(s))
    else if s !in m.transitions then Err(UnknownState)
    else if a !in m.transitions[s] then Err(UnknownAction)
    else Ok(m.transitions[s][a])
  }

  /** For a real action MDP2 answers exactly as the base does, except on an empty table,
      where the base reports the missing model and MDP2 the missing state. */
  lemma Mdp2TAgreesWithBase<S, A>(m: Mdp<S, A>, s: S, a: Action<A>)
    requires a.Act?
    ensures m.transitions != map[] ==> Mdp2T(m, s, a) == T(m, s, a)
    ensures m.transitions == map[] ==>
      T(m, s, a) == Err(MissingTransitions) && Mdp2T(m, s, a) == Err(UnknownState)
  {
  }

  /** In a terminal state every offered action is the marker, and each query with it gives
      the self-loop of weight zero on that state. */
  lemma TerminalStateSelfLoops<S, A>(m: Mdp<S, A>, s: S)
    requires s in m.terminals
    ensures ActionsAt(m, s).Ok? && |ActionsAt(m, s).value| == 1
    ensures forall a :: a in ActionsAt(m, s).value ==>
      Mdp2T(m, s, a) == Ok([Outcome(0.0, s)])
  {
  }
}
