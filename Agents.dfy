/** The collaborators the update rules talk to: the agent's value store and
    policy, and the environment's action enumeration. They are not part of
    the model; the update rules see them only through the values below. */
module Agents {

  datatype Option<+T> = None | Some(value: T)

  /** One learning update handed to the agent's value store: move the value
      of (s, a) towards ret. */
  datatype Update<S, A> = Update(ret: real, s: S, a: A)

  /** The agent's value store is modelled by the sequence of updates it has
      received; every estimate it reports is a function of that sequence. */
  type Log<S, A> = seq<Update<S, A>>

  /** What the agent reports at one moment: state-action values, its greedy
      action and value, the probability its policy gives an action, and the
      actions the environment allows in a state. */
  datatype Values<!S, !A> = Values(
    q: (S, A) -> real,
    bestAction: S -> A,
    bestActionVal: S -> real,
    actionProb: (S, A) -> real,
    actionSpec: S -> seq<A>)

  /** An agent: its estimates after a given sequence of updates, and the
      action it picks in a state (used when planning). */
  datatype Agent<!S, !A> = Agent(at: Log<S, A> -> Values<S, A>, getAction: (Log<S, A>, S) -> A)
}
