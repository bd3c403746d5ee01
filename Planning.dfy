/** Model-based planning wrapped around an n-step engine. Dyna records every
    non-terminal transition in a last-write-wins model and replays nsim
    modelled pairs, each as a one-step planning update applied straight to
    the agent. Prioritized Sweeping adds a reverse model (successor state to
    its predecessor pairs) and a queue of pairs whose one-step residual
    exceeded theta, and replays from the queue instead. */
module Planning {
  import opened Agents
  import opened Returns
  import opened NStep

  /** model[(s, a)] = (new_s, r). */
  type Model<S(==), A(==)> = map<(S, A), (S, real)>

  /** rev_model[new_s] = the pairs whose modelled successor is new_s. */
  type RevModel<S(==), A(==)> = map<S, set<(S, A)>>

  /** step_sim(agent, s, a): the planning update for the modelled pair k,
      with the agent's estimates after the updates in log. */
  function SimUpdate<S(==), A(==)>(p: Policy, gamma: real, agent: Agent<S, A>, log: Log<S, A>, model: Model<S, A>, k: (S, A)): Update<S, A>
    requires k in model
  {
    var (newS, r) := model[k];
    var newA := agent.getAction(log, newS);
    Update(EndReturn(p, gamma, agent.at(log), newS, newA, r), k.0, k.1)
  }

  /** The agent's updates after step_sim on each of keys in turn. */
  function Replay<S(==), A(==)>(p: Policy, gamma: real, agent: Agent<S, A>, log: Log<S, A>, model: Model<S, A>, keys: seq<(S, A)>): Log<S, A>
    requires forall q :: q in keys ==> q in model
    decreases |keys|
  {
    if keys == [] then log
    else
      var prev := Replay(p, gamma, agent, log, model, keys[..|keys| - 1]);
      prev + [SimUpdate(p, gamma, agent, prev, model, keys[|keys| - 1])]
  }

  /** Replay only appends, one update per replayed pair, in order, and each
      update is credited to that pair: nothing outside the model is ever
      simulated. */
  lemma {:induction false} ReplayShape<S, A>(p: Policy, gamma: real, agent: Agent<S, A>, log: Log<S, A>, model: Model<S, A>, keys: seq<(S, A)>)
    requires forall q :: q in keys ==> q in model
    ensures |Replay(p, gamma, agent, log, model, keys)| == |log| + |keys|
    ensures Replay(p, gamma, agent, log, model, keys)[..|log|] == log
    ensures forall i :: 0 <= i < |keys| ==>
              (Replay(p, gamma, agent, log, model, keys)[|log| + i].s, Replay(p, gamma, agent, log, model, keys)[|log| + i].a) == keys[i]
    ensures forall j :: |log| <= j < |Replay(p, gamma, agent, log, model, keys)| ==>
              (Replay(p, gamma, agent, log, model, keys)[j].s, Replay(p, gamma, agent, log, model, keys)[j].a) in model
    decreases |keys|
  {
    if keys != [] {
      var front := keys[..|keys| - 1];
      ReplayShape(p, gamma, agent, log, model, front);
      var prev := Replay(p, gamma, agent, log, model, front);
      var all := Replay(p, gamma, agent, log, model, keys);
      assert all == prev + [SimUpdate(p, gamma, agent, prev, model, keys[|keys| - 1])];
      forall i | 0 <= i < |keys|
        ensures (all[|log| + i].s, all[|log| + i].a) == keys[i]
      {
        if i < |keys| - 1 {
          assert all[|log| + i] == prev[|log| + i];
          assert front[i] == keys[i];
        }
      }
      forall j | |log| <= j < |all|
        ensures (all[j].s, all[j].a) in model
      {
        assert (all[|log| + (j - |log|)].s, all[|log| + (j - |log|)].a) == keys[j - |log|];
      }
    }
  }

  function Abs(x: real): real
  {
    if x < 0.0 then -x else x
  }

  /** update_pq's condition: the one-step planning target differs from Q(s, a) by
      more than theta. */
  predicate Pushes<S, A>(p: Policy, gamma: real, theta: real, v: Values<S, A>, s: S, a: A, newS: S, newA: A, r: real)
  {
    Abs(EndReturn(p, gamma, v, newS, newA, r) - v.q(s, a)) > theta
  }

  /** rev_model is exactly the inverse of model: x lists (s, a) iff the
      modelled successor of (s, a) is x. */
  ghost predicate RevExact<S, A>(model: Model<S, A>, rev: RevModel<S, A>)
  {
    (forall x, k :: x in rev && k in rev[x] ==> k in model && model[k].0 == x) &&
    (forall k :: k in model ==> model[k].0 in rev && k in rev[model[k].0])
  }

  /** `PrioritizedSweep.update`'s relink: unlink k from its old successor's set, link it to new_s. */
  function Relink<S(==), A(==)>(rev: RevModel<S, A>, model: Model<S, A>, k: (S, A), newS: S): RevModel<S, A>
    requires k in model ==> model[k].0 in rev
  {
    var rev1 := if k in model then rev[model[k].0 := rev[model[k].0] - {k}] else rev;
    if newS in rev1 then rev1[newS := rev1[newS] + {k}] else rev1[newS := {k}]
  }

  /** With rev_model exact, the .remove of a remapped pair always finds it,
      and relinking keeps rev_model exact for the updated model. */
  lemma RelinkExact<S, A>(model: Model<S, A>, rev: RevModel<S, A>, k: (S, A), newS: S, r: real)
    requires RevExact(model, rev)
    ensures k in model ==> model[k].0 in rev && k in rev[model[k].0]
    ensures RevExact(model[k := (newS, r)], Relink(rev, model, k, newS))
  {
    var model', rev' := model[k := (newS, r)], Relink(rev, model, k, newS);
    forall x, j | x in rev' && j in rev'[x]
      ensures j in model' && model'[j].0 == x
    {
      if j != k {
        assert x in rev && j in rev[x];
      }
    }
    forall j | j in model'
      ensures model'[j].0 in rev' && j in rev'[model'[j].0]
    {
      if j != k {
        assert model[j].0 in rev && j in rev[model[j].0];
      }
    }
  }

  /** The predecessor q of s is re-queued after (s, a) is replayed: its
      modelled reward, with successor s and next action a, gives a residual
      above theta. */
  predicate Hot<S(==), A(==)>(p: Policy, gamma: real, theta: real, model: Model<S, A>, v: Values<S, A>, s: S, a: A, q: (S, A))
  {
    q in model && Pushes(p, gamma, theta, v, q.0, q.1, s, a, model[q].1)
  }

  /** One copy of each hot pair of qs. */
  ghost function HotOf<S, A>(p: Policy, gamma: real, theta: real, model: Model<S, A>, v: Values<S, A>, s: S, a: A, qs: set<(S, A)>): multiset<(S, A)>
  {
    multiset(set q | q in qs && Hot(p, gamma, theta, model, v, s, a, q))
  }

  /** The predecessors of s that replaying (s, a) re-queues, one copy each. */
  ghost function Requeued<S, A>(p: Policy, gamma: real, theta: real, model: Model<S, A>, rev: RevModel<S, A>,
                                v: Values<S, A>, s: S, a: A): multiset<(S, A)>
  {
    if s in rev then HotOf(p, gamma, theta, model, v, s, a, rev[s]) else multiset{}
  }

  /** Only pairs of the model are ever hot. */
  lemma HotOfInModel<S, A>(p: Policy, gamma: real, theta: real, model: Model<S, A>, v: Values<S, A>, s: S, a: A, qs: set<(S, A)>)
    ensures forall k :: k in HotOf(p, gamma, theta, model, v, s, a, qs) ==> k in model
  {
  }

  /** Multiset union regroups freely. */
  lemma UnionAssoc<T>(x: multiset<T>, y: multiset<T>, z: multiset<T>)
    ensures x + (y + z) == (x + y) + z
  {
  }

  /** No pair of the empty set is hot. */
  lemma HotOfEmpty<S, A>(p: Policy, gamma: real, theta: real, model: Model<S, A>, v: Values<S, A>, s: S, a: A)
    ensures HotOf(p, gamma, theta, model, v, s, a, {}) == multiset{}
  {
    assert (set q: (S, A) | q in {} && Hot(p, gamma, theta, model, v, s, a, q)) == {};
  }

  /** Adding one more pair to qs adds it to the hot pairs exactly when it is hot. */
  lemma HotOfAdd<S, A>(p: Policy, gamma: real, theta: real, model: Model<S, A>, v: Values<S, A>, s: S, a: A, qs: set<(S, A)>, q: (S, A))
    requires q !in qs
    ensures HotOf(p, gamma, theta, model, v, s, a, qs + {q})
         == HotOf(p, gamma, theta, model, v, s, a, qs) + if Hot(p, gamma, theta, model, v, s, a, q) then multiset{q} else multiset{}
  {
    var before := set x | x in qs && Hot(p, gamma, theta, model, v, s, a, x);
    var after := set x | x in qs + {q} && Hot(p, gamma, theta, model, v, s, a, x);
    if Hot(p, gamma, theta, model, v, s, a, q) {
      assert after == before + {q};
    } else {
      assert after == before;
    }
  }

  /** The queue trace of a simulation that extended a log of length base to
      out: queues[i] is the queue before the i-th pop; each popped pair is
      taken from the queue, one copy of it is removed, and its hot
      predecessors are re-queued, judged on the agent after that pair's
      planning update. Stated pop by pop, from the last one back;
      SweptEach gives it for every i at once. */
  ghost predicate Swept<S, A>(p: Policy, gamma: real, theta: real, model: Model<S, A>, rev: RevModel<S, A>,
                              agent: Agent<S, A>, base: nat, out: Log<S, A>, popped: seq<(S, A)>, queues: seq<multiset<(S, A)>>)
    decreases |popped|
  {
    |queues| == |popped| + 1 && |out| == base + |popped| &&
    (|popped| > 0 ==>
      var n := |popped| - 1;
      Swept(p, gamma, theta, model, rev, agent, base, out[..base + n], popped[..n], queues[..n + 1]) &&
      popped[n] in queues[n] &&
      queues[n + 1] == queues[n] - multiset{popped[n]} + Requeued(p, gamma, theta, model, rev, agent.at(out), popped[n].0, popped[n].1))
  }

  /** The trace, pop by pop: the i-th popped pair is in the i-th queue, and
      the next queue is that queue less one copy of it plus the predecessors
      it re-queues on the agent after the first base + i + 1 updates. */
  lemma {:induction false} SweptEach<S, A>(p: Policy, gamma: real, theta: real, model: Model<S, A>, rev: RevModel<S, A>,
                                           agent: Agent<S, A>, base: nat, out: Log<S, A>, popped: seq<(S, A)>, queues: seq<multiset<(S, A)>>)
    requires Swept(p, gamma, theta, model, rev, agent, base, out, popped, queues)
    ensures |queues| == |popped| + 1 && |out| == base + |popped|
    ensures forall i {:trigger popped[i]} :: 0 <= i < |popped| ==>
      popped[i] in queues[i] &&
      queues[i + 1] == queues[i] - multiset{popped[i]}
                       + Requeued(p, gamma, theta, model, rev, agent.at(out[..base + i + 1]), popped[i].0, popped[i].1)
    decreases |popped|
  {
    if |popped| > 0 {
      var n := |popped| - 1;
      var out', popped', queues' := out[..base + n], popped[..n], queues[..n + 1];
      SweptEach(p, gamma, theta, model, rev, agent, base, out', popped', queues');
      forall i | 0 <= i < |popped|
        ensures popped[i] in queues[i]
        ensures queues[i + 1] == queues[i] - multiset{popped[i]}
                                 + Requeued(p, gamma, theta, model, rev, agent.at(out[..base + i + 1]), popped[i].0, popped[i].1)
      {
        if i < n {
          assert popped'[i] == popped[i] && queues'[i] == queues[i] && queues'[i + 1] == queues[i + 1];
          assert out'[..base + i + 1] == out[..base + i + 1];
        } else {
          assert out[..base + i + 1] == out;
        }
      }
    }
  }

  /** Extending a trace by one pop and its re-queue. */
  lemma SweptGrows<S, A>(p: Policy, gamma: real, theta: real, model: Model<S, A>, rev: RevModel<S, A>,
                         agent: Agent<S, A>, base: nat, out: Log<S, A>, popped: seq<(S, A)>, queues: seq<multiset<(S, A)>>,
                         k: (S, A), u: Update<S, A>, next: multiset<(S, A)>)
    requires Swept(p, gamma, theta, model, rev, agent, base, out, popped, queues)
    requires k in queues[|popped|]
    requires next == queues[|popped|] - multiset{k} + Requeued(p, gamma, theta, model, rev, agent.at(out + [u]), k.0, k.1)
    ensures Swept(p, gamma, theta, model, rev, agent, base, out + [u], popped + [k], queues + [next])
  {
    assert (out + [u])[..base + |popped|] == out;
    assert (popped + [k])[..|popped|] == popped;
    assert (queues + [next])[..|popped| + 1] == queues;
  }

  class Dyna<S(==), A(==)> {
    const algo: NStepAlgo<S, A>
    const planAlgo: NStepAlgo<S, A>
    const nsim: nat
    var model: Model<S, A>

    constructor (algo: NStepAlgo<S, A>, planAlgo: NStepAlgo<S, A>, nsim: nat)
      ensures this.algo == algo && this.planAlgo == planAlgo && this.nsim == nsim
      ensures model == map[]
    {
      this.algo := algo;
      this.planAlgo := planAlgo;
      this.nsim := nsim;
      model := map[];
    }

    /** init_episode forwards to both engines; the model persists. */
    method InitEpisode(s: S, a: A)
      modifies algo, planAlgo
      ensures algo.Valid() && algo.started && fresh(algo.buffer)
      ensures algo.State() == Initial(algo.nstep + 1, s, a)
      ensures planAlgo.Valid() && planAlgo.started && fresh(planAlgo.buffer)
      ensures planAlgo.State() == Initial(planAlgo.nstep + 1, s, a)
    {
      algo.InitEpisode(s, a);
      planAlgo.InitEpisode(s, a);
    }

    /** update: last write wins. */
    method Update(s: S, a: A, newS: S, r: real)
      modifies this
      ensures model == old(model)[(s, a) := (newS, r)]
    {
      model := model[(s, a) := (newS, r)];
    }

    /** simulate: nsim pairs drawn with replacement from the model's keys,
      each replayed through step_sim. */
    method Simulate(agent: Agent<S, A>, log: Log<S, A>) returns (log': Log<S, A>, sampled: seq<(S, A)>)
      requires nsim > 0 ==> model != map[]
      ensures |sampled| == nsim
      ensures forall q :: q in sampled ==> q in model
      ensures log' == Replay(planAlgo.policy, planAlgo.gamma, agent, log, model, sampled)
    {
      log', sampled := log, [];
      while |sampled| < nsim
        invariant |sampled| <= nsim
        invariant forall q :: q in sampled ==> q in model
        invariant log' == Replay(planAlgo.policy, planAlgo.gamma, agent, log, model, sampled)
        decreases nsim - |sampled|
      {
        var k :| k in model;
        ghost var front := sampled;
        log' := log' + [SimUpdate(planAlgo.policy, planAlgo.gamma, agent, log', model, k)];
        sampled := sampled + [k];
        assert sampled[..|sampled| - 1] == front;
      }
    }

    /** __call__: on a non-terminal step record the transition and plan; in
      every case hand the real transition to the inner engine, with the
      agent's estimates after planning, and return its command unchanged. */
    method Call(agent: Agent<S, A>, log: Log<S, A>, s: S, a: A, r: real, newS: S, newA: A, t: nat, terminal: bool)
      returns (out: Command<S, A>, log': Log<S, A>, sampled: seq<(S, A)>)
      requires algo.Valid()
      modifies this, algo, algo.buffer
      ensures algo.Valid() && algo.buffer == old(algo.buffer) && algo.started == old(algo.started)
      ensures terminal ==> model == old(model) && log' == log && sampled == []
      ensures !terminal ==> model == old(model)[(s, a) := (newS, r)] && |sampled| == nsim
      ensures forall q :: q in sampled ==> q in model
      ensures log' == Replay(planAlgo.policy, planAlgo.gamma, agent, log, model, sampled)
      ensures !old(algo.started) ==> out == Fail(NotInitialised) && algo.State() == old(algo.State())
      ensures old(algo.started) ==> algo.State() == Advance(old(algo.State()), t, terminal, Entry(newS, newA, r))
      ensures old(algo.started) ==> out == Respond(algo.policy, algo.gamma, agent.at(log'), algo.State(), algo.nstep, t)
    {
      log', sampled := log, [];
      if !terminal {
        Update(s, a, newS, r);
        assert (s, a) in model;
        log', sampled := Simulate(agent, log);
      }
      out := algo.Call(agent.at(log'), s, a, r, newS, newA, t, terminal);
    }
  }

  class PrioritizedSweep<S(==), A(==)> {
    const algo: NStepAlgo<S, A>
    const planAlgo: NStepAlgo<S, A>
    const nsim: nat
    const theta: real
    var model: Model<S, A>
    var revModel: RevModel<S, A>
    /** The heap, as the multiset of pairs it holds. */
    var pq: multiset<(S, A)>

    /** rev_model inverts model, and every queued pair is a key of model. */
    ghost predicate Valid()
      reads this
    {
      RevExact(model, revModel) && forall k :: k in pq ==> k in model
    }

    constructor (algo: NStepAlgo<S, A>, planAlgo: NStepAlgo<S, A>, nsim: nat, theta: real)
      ensures Valid()
      ensures this.algo == algo && this.planAlgo == planAlgo && this.nsim == nsim && this.theta == theta
      ensures model == map[] && revModel == map[] && pq == multiset{}
    {
      this.algo := algo;
      this.planAlgo := planAlgo;
      this.nsim := nsim;
      this.theta := theta;
      model, revModel, pq := map[], map[], multiset{};
    }

    method InitEpisode(s: S, a: A)
      modifies algo, planAlgo
      ensures algo.Valid() && algo.started && fresh(algo.buffer)
      ensures algo.State() == Initial(algo.nstep + 1, s, a)
      ensures planAlgo.Valid() && planAlgo.started && fresh(planAlgo.buffer)
      ensures planAlgo.State() == Initial(planAlgo.nstep + 1, s, a)
    {
      algo.InitEpisode(s, a);
      planAlgo.InitEpisode(s, a);
    }

    /** update_pq: push (s, a) exactly when its residual exceeds theta. */
    method UpdatePQ(v: Values<S, A>, s: S, a: A, newS: S, newA: A, r: real)
      modifies this`pq
      ensures pq == old(pq) + if Pushes(planAlgo.policy, planAlgo.gamma, theta, v, s, a, newS, newA, r)
                              then multiset{(s, a)} else multiset{}
    {
      var ret := EndReturn(planAlgo.policy, planAlgo.gamma, v, newS, newA, r);
      if Abs(ret - v.q(s, a)) > theta {
        pq := pq + multiset{(s, a)};
      }
    }

    /** The relink in `update`: move (s, a) from its old successor's set to new_s's. */
    method RelinkPair(s: S, a: A, newS: S)
      requires (s, a) in model ==> model[(s, a)].0 in revModel
      modifies this`revModel
      ensures revModel == Relink(old(revModel), model, (s, a), newS)
    {
      if (s, a) in model {
        var oldNewS := model[(s, a)].0;
        revModel := revModel[oldNewS := revModel[oldNewS] - {(s, a)}];
      }
      if newS !in revModel {
        revModel := revModel[newS := {(s, a)}];
      } else {
        revModel := revModel[newS := revModel[newS] + {(s, a)}];
      }
    }

    /** update: relink (s, a) in rev_model, queue it if its residual is large, then
      record it in the model. */
    method Update(v: Values<S, A>, s: S, a: A, newS: S, newA: A, r: real)
      requires Valid()
      modifies this
      ensures Valid()
      ensures model == old(model)[(s, a) := (newS, r)]
      ensures revModel == Relink(old(revModel), old(model), (s, a), newS)
      ensures pq == old(pq) + if Pushes(planAlgo.policy, planAlgo.gamma, theta, v, s, a, newS, newA, r)
                              then multiset{(s, a)} else multiset{}
    {
      RelinkExact(model, revModel, (s, a), newS, r);
      RelinkPair(s, a, newS);
      UpdatePQ(v, s, a, newS, newA, r);
      model := model[(s, a) := (newS, r)];
    }

    /** One round of `simulate`'s loop over the predecessors: push prev if it is hot. */
    method RequeueOne(v: Values<S, A>, s: S, a: A, prev: (S, A))
      requires prev in model
      modifies this`pq
      ensures pq == old(pq) + if Hot(planAlgo.policy, planAlgo.gamma, theta, model, v, s, a, prev) then multiset{prev} else multiset{}
    {
      UpdatePQ(v, prev.0, prev.1, s, a, model[prev].1);
    }

    /** `simulate`'s loop over the predecessors, on the pairs qs: each is pushed once
      exactly when it is hot. */
    method RequeueAll(v: Values<S, A>, s: S, a: A, qs: set<(S, A)>)
      requires forall q :: q in qs ==> q in model
      modifies this`pq
      ensures pq == old(pq) + HotOf(planAlgo.policy, planAlgo.gamma, theta, model, v, s, a, qs)
    {
      var todo, done := qs, {};
      HotOfEmpty(planAlgo.policy, planAlgo.gamma, theta, model, v, s, a);
      while todo != {}
        invariant todo + done == qs && todo !! done
        invariant pq == old(pq) + HotOf(planAlgo.policy, planAlgo.gamma, theta, model, v, s, a, done)
        decreases todo
      {
        var prev :| prev in todo;
        ghost var hot := HotOf(planAlgo.policy, planAlgo.gamma, theta, model, v, s, a, done);
        ghost var more := if Hot(planAlgo.policy, planAlgo.gamma, theta, model, v, s, a, prev) then multiset{prev} else multiset{};
        HotOfAdd(planAlgo.policy, planAlgo.gamma, theta, model, v, s, a, done, prev);
        RequeueOne(v, s, a, prev);
        UnionAssoc(old(pq), hot, more);
        todo, done := todo - {prev}, done + {prev};
      }
      assert done == qs;
    }

    /** The end of a `simulate` round: after replaying (s, a), recompute the residual of every predecessor of s,
      with the modelled reward of that predecessor and a as the next action;
      the queue gains one copy of each hot predecessor and nothing else. */
    method Requeue(v: Values<S, A>, s: S, a: A)
      requires Valid()
      modifies this`pq
      ensures Valid()
      ensures pq == old(pq) + Requeued(planAlgo.policy, planAlgo.gamma, theta, model, revModel, v, s, a)
    {
      if s in revModel {
        assert forall q :: q in revModel[s] ==> q in model;
        RequeueAll(v, s, a, revModel[s]);
        HotOfInModel(planAlgo.policy, planAlgo.gamma, theta, model, v, s, a, revModel[s]);
      }
    }

    /** One round of `simulate`: pop a pair, replay it, re-queue its hot
      predecessors. */
    method PopAndReplay(agent: Agent<S, A>, log: Log<S, A>) returns (k: (S, A), log': Log<S, A>)
      requires Valid() && pq != multiset{}
      modifies this`pq
      ensures Valid()
      ensures k in old(pq) && k in model
      ensures log' == log + [SimUpdate(planAlgo.policy, planAlgo.gamma, agent, log, model, k)]
      ensures pq == old(pq) - multiset{k} + Requeued(planAlgo.policy, planAlgo.gamma, theta, model, revModel, agent.at(log'), k.0, k.1)
    {
      k :| k in pq;
      pq := pq - multiset{k};
      log' := log + [SimUpdate(planAlgo.policy, planAlgo.gamma, agent, log, model, k)];
      Requeue(agent.at(log'), k.0, k.1);
    }

    /** One pass of `simulate`'s main loop, carrying the trace: the popped
      pair is appended to popped, its update to the log and the new queue to
      queues. */
    method SweepOnce(agent: Agent<S, A>, log: Log<S, A>, prev: Log<S, A>, front: seq<(S, A)>, ghost queues: seq<multiset<(S, A)>>)
      returns (log': Log<S, A>, popped: seq<(S, A)>, ghost queues': seq<multiset<(S, A)>>)
      requires Valid() && pq != multiset{}
      requires Swept(planAlgo.policy, planAlgo.gamma, theta, model, revModel, agent, |log|, prev, front, queues) && pq == queues[|front|]
      requires forall q :: q in front ==> q in model
      requires prev == Replay(planAlgo.policy, planAlgo.gamma, agent, log, model, front)
      modifies this`pq
      ensures Valid()
      ensures |popped| == |front| + 1 && popped[..|front|] == front
      ensures Swept(planAlgo.policy, planAlgo.gamma, theta, model, revModel, agent, |log|, log', popped, queues') && pq == queues'[|popped|]
      ensures queues'[0] == queues[0]
      ensures forall q :: q in popped ==> q in model
      ensures log' == Replay(planAlgo.policy, planAlgo.gamma, agent, log, model, popped)
    {
      var k;
      k, log' := PopAndReplay(agent, prev);
      SweptGrows(planAlgo.policy, planAlgo.gamma, theta, model, revModel, agent, |log|, prev, front, queues, k, SimUpdate(planAlgo.policy, planAlgo.gamma, agent, prev, model, k), pq);
      popped, queues' := front + [k], queues + [pq];
      assert popped[..|front|] == front;
    }

    /** simulate: pop at most nsim pairs, stopping early only on an empty
      queue; replay each and recompute its predecessors' residuals. */
    method Simulate(agent: Agent<S, A>, log: Log<S, A>) returns (log': Log<S, A>, popped: seq<(S, A)>, ghost queues: seq<multiset<(S, A)>>)
      requires Valid()
      modifies this`pq
      ensures Valid()
      ensures |popped| <= nsim
      ensures |popped| < nsim ==> pq == multiset{}
      ensures Swept(planAlgo.policy, planAlgo.gamma, theta, model, revModel, agent, |log|, log', popped, queues) && queues[0] == old(pq) && pq == queues[|popped|]
      ensures forall q :: q in popped ==> q in model
      ensures log' == Replay(planAlgo.policy, planAlgo.gamma, agent, log, model, popped)
    {
      log', popped, queues := log, [], [pq];
      while |popped| < nsim
        invariant Valid()
        invariant |popped| <= nsim
        invariant Swept(planAlgo.policy, planAlgo.gamma, theta, model, revModel, agent, |log|, log', popped, queues) && queues[0] == old(pq) && pq == queues[|popped|]
        invariant forall q :: q in popped ==> q in model
        invariant log' == Replay(planAlgo.policy, planAlgo.gamma, agent, log, model, popped)
        decreases nsim - |popped|
      {
        if pq == multiset{} {
          break;
        }
        log', popped, queues := SweepOnce(agent, log, log', popped, queues);
      }
    }

    /** Dyna's __call__ with Prioritized Sweeping's update and simulate. On a
      non-terminal step the trace starts from the queue after Update's push. */
    method Call(agent: Agent<S, A>, log: Log<S, A>, s: S, a: A, r: real, newS: S, newA: A, t: nat, terminal: bool)
      returns (out: Command<S, A>, log': Log<S, A>, popped: seq<(S, A)>, ghost queues: seq<multiset<(S, A)>>)
      requires Valid() && algo.Valid()
      modifies this, algo, algo.buffer
      ensures Valid()
      ensures algo.Valid() && algo.buffer == old(algo.buffer) && algo.started == old(algo.started)
      ensures terminal ==> model == old(model) && revModel == old(revModel) && popped == [] && queues == [old(pq)]
      ensures !terminal ==> model == old(model)[(s, a) := (newS, r)]
      ensures !terminal ==> revModel == Relink(old(revModel), old(model), (s, a), newS)
      ensures Swept(planAlgo.policy, planAlgo.gamma, theta, model, revModel, agent, |log|, log', popped, queues) && pq == queues[|popped|]
      ensures !terminal ==> queues[0] == old(pq) + if Pushes(planAlgo.policy, planAlgo.gamma, theta, agent.at(log), s, a, newS, newA, r)
                                                    then multiset{(s, a)} else multiset{}
      ensures forall q :: q in popped ==> q in model
      ensures |popped| <= nsim && (|popped| < nsim ==> !terminal ==> pq == multiset{})
      ensures log' == Replay(planAlgo.policy, planAlgo.gamma, agent, log, model, popped)
      ensures !old(algo.started) ==> out == Fail(NotInitialised) && algo.State() == old(algo.State())
      ensures old(algo.started) ==> algo.State() == Advance(old(algo.State()), t, terminal, Entry(newS, newA, r))
      ensures old(algo.started) ==> out == Respond(algo.policy, algo.gamma, agent.at(log'), algo.State(), algo.nstep, t)
    {
      log', popped, queues := log, [], [pq];
      if !terminal {
        Update(agent.at(log), s, a, newS, newA, r);
        log', popped, queues := Simulate(agent, log);
      }
      out := algo.Call(agent.at(log'), s, a, r, newS, newA, t, terminal);
    }
  }

  /** Dyna with nsim = 2: the first real non-terminal step records its pair
      and triggers exactly two simulated updates, both credited to it. */
  method DynaTwoSimulations(agent: Agent<int, int>)
  {
    var algo := new NStepAlgo<int, int>(Sarsa, 0.9, 1);
    var plan := new NStepAlgo<int, int>(QLearn, 0.9, 1);
    var dyna := new Dyna(algo, plan, 2);
    dyna.InitEpisode(0, 0);
    var out, log, sampled := dyna.Call(agent, [], 0, 0, 1.0, 1, 0, 0, false);
    assert dyna.model == map[(0, 0) := (1, 1.0)];
    ReplayShape(plan.policy, plan.gamma, agent, [], dyna.model, sampled);
    assert |log| == 2 && (log[0].s, log[0].a) == (0, 0) && (log[1].s, log[1].a) == (0, 0);
  }
}
