/** Reward shaping by recency: before handing a transition to the inner
    engine, add kappa * sqrt(t - last visit of (s, a)), where a pair never
    visited in this episode counts as last visited at time 0. */
module Bonus {
  import opened Agents
  import opened NStep
  import opened Returns

  /** last_visit(s, a): the recorded time, or 0 for an unseen pair. */
  function LastVisit<S(==), A(==)>(table: map<(S, A), int>, s: S, a: A): int
  {
    if (s, a) in table then table[(s, a)] else 0
  }

  /** The shaped reward r + kappa * root(t - last), root standing for sqrt. */
  function Shape(kappa: real, root: int -> real, r: real, t: int, last: int): real
  {
    r + kappa * root(t - last)
  }

  /** A pair seen for the first time at t = 0 gets no bonus, given root(0) = 0. */
  lemma FirstVisitAtZero<S, A>(kappa: real, root: int -> real, table: map<(S, A), int>, s: S, a: A, r: real)
    requires root(0) == 0.0
    requires (s, a) !in table
    ensures Shape(kappa, root, r, 0, LastVisit(table, s, a)) == r
  {
  }

  /** Recording a visit at t makes t the pair's last visit and leaves every
      other pair's last visit as it was. */
  lemma RecordVisit<S, A>(table: map<(S, A), int>, s: S, a: A, t: int, s': S, a': A)
    ensures LastVisit(table[(s, a) := t], s', a') == if (s', a') == (s, a) then t else LastVisit(table, s', a')
  {
  }

  class ExploreBonus<S(==), A(==)> {
    const algo: NStepAlgo<S, A>
    const kappa: real
    /** np.sqrt, left uninterpreted. */
    const root: int -> real
    var lastVisit: map<(S, A), int>
    /** False until InitEpisode: the source's table is None then. */
    var started: bool

    constructor (algo: NStepAlgo<S, A>, kappa: real, root: int -> real)
      ensures this.algo == algo && this.kappa == kappa && this.root == root
      ensures !started && lastVisit == map[]
    {
      this.algo := algo;
      this.kappa := kappa;
      this.root := root;
      lastVisit := map[];
      started := false;
    }

    /** init_episode: forward to the inner engine and clear the table. */
    method InitEpisode(s: S, a: A)
      modifies this, algo
      ensures started && lastVisit == map[]
      ensures algo.Valid() && algo.started && fresh(algo.buffer)
      ensures algo.State() == Initial(algo.nstep + 1, s, a)
    {
      algo.InitEpisode(s, a);
      lastVisit := map[];
      started := true;
    }

    /** __call__: shape r with the bonus for (s, a), record the visit at t,
      and pass the transition on with the shaped reward and every other
      argument unchanged. */
    method Call(v: Values<S, A>, s: S, a: A, r: real, newS: S, newA: A, t: nat, terminal: bool) returns (out: Command<S, A>)
      requires algo.Valid()
      modifies this, algo, algo.buffer
      ensures algo.Valid() && algo.buffer == old(algo.buffer) && algo.started == old(algo.started) && started == old(started)
      ensures !old(started) ==> out == Fail(NotInitialised) && lastVisit == old(lastVisit) && algo.State() == old(algo.State())
      ensures old(started) ==> lastVisit == old(lastVisit)[(s, a) := t]
      ensures old(started) && old(algo.started) ==>
                algo.State() == Advance(old(algo.State()), t, terminal,
                                        Entry(newS, newA, Shape(kappa, root, r, t, LastVisit(old(lastVisit), s, a))))
      ensures old(started) && old(algo.started) ==> out == Respond(algo.policy, algo.gamma, v, algo.State(), algo.nstep, t)
      ensures old(started) && !old(algo.started) ==> out == Fail(NotInitialised)
    {
      if !started {
        return Fail(NotInitialised);
      }
      var shaped := Shape(kappa, root, r, t, LastVisit(lastVisit, s, a));
      ghost var before := algo.State();
      lastVisit := lastVisit[(s, a) := t];
      assert algo.State() == before;
      out := algo.Call(v, s, a, shaped, newS, newA, t, terminal);
    }
  }

  /** Two calls on the same pair (s, a), at t0 and then at t1, in a fresh
      episode: the second hands the inner engine the reward
      r + kappa * sqrt(t1 - t0), which lands in the buffer slot of step t1 + 1. */
  method BonusAtRevisit<S(==), A(==)>(policy: Policy, gamma: real, nstep: nat, kappa: real, root: int -> real, v: Values<S, A>,
                                      s: S, a: A, r0: real, r: real, newS: S, newA: A, t0: nat, t1: nat)
    returns (slot: Option<Entry<S, A>>)
    ensures slot == Some(Entry(newS, newA, r + kappa * root(t1 - t0)))
  {
    var algo := new NStepAlgo<S, A>(policy, gamma, nstep);
    var bonus := new ExploreBonus(algo, kappa, root);
    bonus.InitEpisode(s, a);
    var first := bonus.Call(v, s, a, r0, newS, newA, t0, false);
    ghost var mid := algo.State();
    assert algo.started && mid.horizon == Inf && |mid.slots| == nstep + 1;
    assert LastVisit(bonus.lastVisit, s, a) == t0;
    var second := bonus.Call(v, s, a, r, newS, newA, t1, false);
    ghost var x := Entry(newS, newA, r + kappa * root(t1 - t0));
    assert algo.State() == Advance(mid, t1, false, x);
    AdvanceEffect(mid, t1, false, x);
    slot := Read(algo.buffer[..], t1 + 1);
  }
}
