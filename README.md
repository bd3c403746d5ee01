# rlfabric update rules in Dafny

This project models the learning-update core of `algos.py`. That is the code
which turns each real transition `(s, a, r, new_s, new_a, t, is_terminal)` of
an episode into a `Command`: either "no update yet", or "move Q(tgt_s, tgt_a)
towards ret". The core has four parts.

- **The n-step engine** (`NStepAlgo`, module `NStep`). It keeps the last
  `nstep + 1` transitions in a ring buffer indexed by absolute step modulo
  the capacity. It fixes the episode horizon `T_step` at the first terminal
  flag. A call at step `t` has the target step `tgt_t = t - nstep + 1`.
  When `tgt_t < 0` it returns "no update". Otherwise it credits `tgt_t`
  with a return folded backward from `end_t = min(t + 1, T_step)`.
- **The five return policies** (module `Returns`): Sarsa, Expected Sarsa,
  Q-learning, Tree backup and on-policy Tree backup. Each is a pair of
  one-line rules: `end_return` gives the bootstrap at the fold's end, and
  `step_return` folds one earlier step in.
- **Dyna and Prioritized Sweeping** (module `Planning`). These record
  non-terminal transitions in a last-write-wins model and replay modelled
  pairs as one-step planning updates applied directly to the agent.
  Prioritized Sweeping adds a reverse model and a queue of pairs whose
  residual exceeds `theta`.
- **The exploration bonus** (`ExploreBonus`, module `Bonus`). It adds
  `kappa * sqrt(t - last_visit(s, a))` to the reward before handing the
  transition to the inner engine.

The agent and the environment appear only through a value record
(`Agents.Values`):

- `q`
- `best_action`
- `best_action_val`
- `action_prob`
- the environment's `action_spec`

The agent's learning is modelled as a log of the `update(ret, s, a)` calls
it has received. `Agents.Agent.at(log)` gives the estimates after those
updates, so planning updates are visible to whatever reads the agent next.

The engine, the wrappers and the Prioritized Sweeping queue mutate their
fields in place, so they are classes. The return policies and the building
blocks of a call are functions. The classes' methods are proved against
these functions:

- `NStep.Advance` covers `algos.py:56-60`.
- `NStep.Respond` covers `algos.py:62-70`.
- `NStep.RingBackup` covers `algos.py:72-77`.
- `Returns.EndReturn` and `Returns.StepReturn` cover `algos.py:201-243`.
- `Planning.SimUpdate` covers `algos.py:121-125`.
- `Planning.Replay` covers `algos.py:116-119`.
- `Planning.Relink` covers `algos.py:143-149`.
- `Planning.Pushes` covers `algos.py:164-166`.
- `Planning.Hot`, `Planning.HotOf` and `Planning.Requeued` cover `algos.py:159-162`.
- `Planning.Swept` covers `algos.py:153-162`.
- `Bonus.LastVisit` covers `algos.py:195-198`.
- `Bonus.Shape` covers `algos.py:191`.

The main theorem is `NStep.ResponseFromHistory`, which `NStepAlgo.Call` uses.
It covers calls that come with `t = 0, 1, 2, ...` and whose target step
satisfies `0 <= tgt_t <= end_t`. Each such command equals the backward fold
over the episode's own transitions, indexed by absolute step
(`NStep.Backup`). So the ring buffer never hands the fold a slot that has
been overwritten. `NStepAlgo.Record` and `NStepAlgo.Call` state how the
recorded episode `hist` grows: by exactly the transition passed in, while
the calls are in order and `t < T_step`, and not at all otherwise. For Sarsa, Expected Sarsa and Q-learning,
`NStep.PlainBackupIsDiscounted` shows that this fold is the textbook n-step
return. The ghost fields `hist`, `calls` and `inOrder` of `NStepAlgo` track
the transitions seen so far, and `Valid()` keeps the buffer coherent with
them.

## Model

The functions listed above carry no contract of their own. The members
below are proved against them, and the list above maps each of them to its
source lines.

| member | source | states |
|---|---|---|
| Returns.MixDecomposes | algos.py:241-242 | the on-policy tree mixture equals the policy's expected value plus pi(a\|s) * (ret - Q(s, a)), with the taken action's weight counted over all its occurrences in the action list |
| Returns.OnPolicyTreeAtEstimateIsExpectedSarsa | algos.py:210-212 | folding the taken action's own estimate through the on-policy tree step gives exactly the Expected Sarsa bootstrap |
| Returns.OnPolicyTreeSensitivity | algos.py:240-243 | the on-policy tree step changes with ret at the rate gamma * pi(a\|s) |
| Returns.TreeLearnCutsOffPolicy | algos.py:230-233 | the tree step follows the Sarsa fold on the greedy action; off the greedy action it does not depend on ret at all |
| Returns.ExpectedBounded | algos.py:211-212 | with non-negative probabilities and every estimate at most m, the expected value is at most total mass times m |
| Returns.ExpectedSarsaAtMostQLearn | algos.py:210-220 | under a probability distribution and a true greedy value, with gamma >= 0, the Expected Sarsa bootstrap never exceeds the Q-learning bootstrap |
| Returns.ExpectedUnderGreedy | algos.py:211-212 | under an indicator policy on b, the expected value is Q(s, b) times the number of times b occurs in the action list |
| Returns.GreedyExpectedSarsaIsQLearn | algos.py:210-220 | under a greedy policy whose action occurs once in the action list, Expected Sarsa and Q-learning bootstrap identically |
| Returns.SarsaWorkedExample | algos.py:202-203 | with Q(1, 0) = 2, r = 1 and gamma = 0.9, the Sarsa target is 2.8 |
| NStep.CoherentAfterWrite | algos.py:59-60 | writing step t + 1 into slot (t + 1) mod (nstep + 1) keeps the buffer holding the last nstep + 1 transitions of the extended episode |
| NStep.RingBackupFails | algos.py:74-76 | if any slot the fold reads is unfilled, the whole return fails |
| NStep.RingReadsHistory | algos.py:72-77 | while the window of steps lo..end is still buffered, the ring-buffer fold equals the fold over the recorded transitions of those steps |
| NStep.ReadsInWindow | algos.py:62-75 | every step read by a call lies in tgt_t .. tgt_t + nstep, one step per buffer slot, provided tgt_t has not passed T_step |
| NStep.ResponseFromHistory | algos.py:62-77 | for in-order calls, the command credits the transition recorded at tgt_t with the fold over the recorded transitions tgt_t + 1 .. end_t, together with the terminate flag |
| NStep.AdvanceEffect | algos.py:56-60 | the horizon is set once, to t + 1, on the first terminal flag and never changes afterwards; only slot t + 1 is written, and only while t < T_step; every other slot is unchanged |
| NStep.SkipIffShortHistory | algos.py:62-64 | the command is "no update" exactly when t + 1 < nstep |
| NStep.TerminateFlag | algos.py:68 | terminate holds iff tgt_t >= T_step - 1; it never holds before the horizon is known; up to the horizon only step T_step - 1 is terminal |
| NStep.OneStepIsClassic | algos.py:72-77 | with nstep = 1 and a call made before the horizon, the return is the policy's one-step target on the transition just given |
| NStep.PlainBackupIsDiscounted | algos.py:72-77 | for the plain step rule, the fold is the discounted reward sum plus gamma^(end - lo) times the bootstrap |
| NStep.NStepAlgo.constructor | algos.py:42-48 | a new engine holds its parameters and is not started |
| NStep.NStepAlgo.InitEpisode | algos.py:50-53 | a fresh buffer of nstep + 1 slots with (s, a, 0) at slot 0 and the rest unfilled; the horizon is infinite; the recorded episode so far is that one transition |
| NStep.NStepAlgo.GetReturn | algos.py:72-77 | the loop computes the ring-buffer fold from end_t down to tgt_t + 1, or reports an unfilled slot |
| NStep.NStepAlgo.Call | algos.py:55-70 | before init the call fails; otherwise the state advances by Advance and the command is Respond on the new state; the recorded episode grows by exactly Entry(new_s, new_a, r) while calls are in order and t < T_step, and is unchanged otherwise; for in-order calls with 0 <= tgt_t <= end_t the command is the fold over the episode's own transitions |
| NStep.NStepAlgo.Record | algos.py:56-60 | the horizon and the buffer advance as Advance says; the recorded episode grows by exactly the written transition while calls are in order and t < T_step, and is unchanged otherwise |
| NStep.NStepAlgo.Answer | algos.py:62-70 | the command built from the buffer is Respond on the current state |
| NStep.SarsaSingleStepEpisode | algos.py:50-77 | a one-step Sarsa episode ending at t = 0 credits (0, 0) with 2.8 and reports termination |
| Planning.ReplayShape | algos.py:116-125 | replay only appends, one update per replayed pair in order, each credited to its pair, all of them modelled pairs |
| Planning.RelinkExact | algos.py:143-149 | with rev_model the exact inverse of model, the .remove always finds its pair, and relinking keeps rev_model the exact inverse of the updated model |
| Planning.Dyna.constructor | algos.py:96-101 | a new Dyna holds its engines and nsim, with an empty model |
| Planning.Dyna.InitEpisode | algos.py:103-105 | both engines start a fresh episode at (s, a) |
| Planning.Dyna.Update | algos.py:113-114 | the model maps (s, a) to (new_s, r), replacing any earlier entry |
| Planning.Dyna.Simulate | algos.py:116-119 | exactly nsim pairs are drawn, all modelled, and the agent's log grows by their one-step planning updates in order |
| Planning.Dyna.Call | algos.py:107-111 | a terminal step leaves model and agent untouched; a non-terminal one records the transition and plans nsim updates; in both cases the inner engine's command is returned, computed on the agent after planning |
| Planning.PrioritizedSweep.constructor | algos.py:135-140 | empty model, reverse model and queue |
| Planning.PrioritizedSweep.InitEpisode | algos.py:103-105 | both engines start a fresh episode at (s, a) |
| Planning.PrioritizedSweep.UpdatePQ | algos.py:164-167 | (s, a) is queued exactly when its one-step residual exceeds theta, and the queue is otherwise unchanged |
| Planning.PrioritizedSweep.RelinkPair | algos.py:143-149 | rev_model becomes Relink of the old one: (s, a) leaves its old successor's set and joins new_s's |
| Planning.PrioritizedSweep.Update | algos.py:142-151 | rev_model is relinked and stays the exact inverse of the model; the residual is compared with theta before the model changes; the model then records the transition |
| Planning.PrioritizedSweep.RequeueOne | algos.py:160-162 | one predecessor is pushed exactly when its residual, with s and the popped action as successor, exceeds theta |
| Planning.PrioritizedSweep.RequeueAll | algos.py:160-162 | over a set of modelled predecessors, the queue gains one copy of each hot one and nothing else |
| Planning.PrioritizedSweep.Requeue | algos.py:159-162 | the queue gains one copy of each predecessor of s whose residual, with s and the popped action as successor, exceeds theta, and nothing else |
| Planning.PrioritizedSweep.PopAndReplay | algos.py:157-162 | the popped pair is taken from the queue and is modelled; the log grows by its planning update; the new queue is the old one less one copy of it plus the predecessors it re-queues on the updated agent |
| Planning.PrioritizedSweep.SweepOnce | algos.py:154-162 | one more round extends the queue trace, the popped pairs and the replayed log consistently |
| Planning.PrioritizedSweep.Simulate | algos.py:153-162 | at most nsim pairs are popped, stopping early only on an empty queue; the queue trace starts at the old queue and ends at the new one, and each pop takes a pair from the current queue, removes one copy and re-queues its hot predecessors on the agent after that pair's update; the popped pairs are modelled and replayed in order |
| Planning.PrioritizedSweep.Call | algos.py:107-111 | Dyna's call with Prioritized Sweeping's update and simulate; the model invariants are kept; on a non-terminal step the queue trace starts from the old queue plus Update's push, and a terminal step pops nothing; the inner engine's command uses the agent after planning |
| Planning.SweptEach | algos.py:154-162 | the pop-by-pop queue trace says, for every i, that the i-th popped pair is in the i-th queue and the next queue is that queue less one copy plus its re-queued predecessors |
| Planning.SweptGrows | algos.py:154-162 | a trace extended by one pop and its re-queue is again a trace |
| Planning.HotOfAdd | algos.py:160-162 | adding a pair to the scanned set adds it to the re-queued pairs exactly when it is hot |
| Planning.DynaTwoSimulations | algos.py:107-125 | with nsim = 2, the first non-terminal step records its pair and adds exactly two planning updates, both credited to that pair |
| Bonus.FirstVisitAtZero | algos.py:191-197 | if sqrt(0) = 0, a pair first seen at t = 0 gets no bonus |
| Bonus.RecordVisit | algos.py:192-198 | after a visit is recorded at t, that pair's last visit is t and every other pair's is unchanged |
| Bonus.ExploreBonus.constructor | algos.py:179-184 | a new wrapper holds algo and kappa and has no visit table |
| Bonus.ExploreBonus.InitEpisode | algos.py:186-188 | the inner engine starts a fresh episode and the visit table is emptied |
| Bonus.ExploreBonus.Call | algos.py:190-193 | the visit table records t for (s, a); the inner engine advances with the reward shaped by the bonus for the previous last visit, and every other argument unchanged; its command is returned |
| Bonus.BonusAtRevisit | algos.py:186-198 | in a fresh episode, two calls on the same (s, a) at t0 and then t1 hand the inner engine the reward r + kappa * sqrt(t1 - t0) for step t1 + 1 |

## Left out

- `Algo.get_params` and `_get_val` (`algos.py:15-24`) are left out. They do reflection over constructor arguments and compute nothing the update rules use.
- Floating point is modelled as `real`. `np.sqrt` is an uninterpreted `root: int -> real`, with no assumption that it is a square root.
- `np.inf` as the horizon is the `Horizon.Inf` constructor. `T_step is np.inf` is `horizon.Inf?`.
- `utils.Buffer` is not part of this model. It is modelled as an array of `nstep + 1` slots addressed by index modulo capacity, with unfilled slots as `None`.
- Raised exceptions are modelled as commands. A call before `init_episode` gives `Fail(NotInitialised)`. An unfilled slot read by the fold (a `None` reward in arithmetic) gives `Fail(EmptySlot)`. An unfilled target slot gives `None` components, as the source does.
- `NStep.NStepAlgo.Call` covers out-of-order `t` as the code does. The link to the episode's own transitions is proved only for in-order calls.
- `NStep.NStepAlgo.Call`: no link to the episode's transitions is proved for calls with `tgt_t > T_step`, which only happen after the horizon. The target slot may then hold a different step, so only the `Respond` equation is stated for them.
- Default constructor arguments (`gamma=0.9`, `nstep=1`, `nsim=1`, `theta=0.05`, `kappa=0.05`; `algos.py:42`, `96`, `135`, `179`) are not modelled. Dafny constructors take every parameter explicitly.
- `baseagent.Agent` is not part of this model. `agent.update` is an append to the log. `agent.get_action` is a function of the log and the state, so its randomness is not modelled.
- `random.choices` is a nondeterministic choice of a modelled key for each draw. Its uniform distribution is not modelled.
- `Planning.Dyna.Simulate` requires a non-empty model when `nsim > 0`. The source raises `IndexError` there instead. The source only simulates right after recording a transition, so the model is never empty at that point.
- `heapq` ordering is not modelled. The queue is a multiset, and a pop removes any element. This covers the source's order by raw `(s, a)` tuple, which is not an order by residual size despite the name.
- Wrapping is concrete. `Dyna`, `PrioritizedSweep` and `ExploreBonus` wrap `NStepAlgo` engines, and the wrappers are not nested in one another.
- `Planning.PrioritizedSweep.Call` is modelled with its own `Update` and `Simulate`. `PrioritizedSweep` does not inherit from `Dyna` here.
- `tuple(s)` in `ExploreBonus.__call__` is the identity. States in the model are values already.
- The source passes the popped action `a` as `new_a` when re-queueing predecessors (`algos.py:162`). The model does the same (`Planning.PrioritizedSweep.Requeue`).
