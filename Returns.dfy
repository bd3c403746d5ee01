/** The five return policies that plug into the n-step engine. Each is a pair
    of one-line rules: EndReturn bootstraps from the last buffered step, and
    StepReturn folds one earlier step into the return computed so far. */
module Returns {
  import opened Agents

  datatype Policy = Sarsa | ExpectedSarsa | QLearn | TreeLearn | OnPolicyTreeLearn

  /** Sum over acts of pi(c|s) * Q(s, c): the value of s under the agent's policy. */
  function Expected<S, A>(v: Values<S, A>, s: S, acts: seq<A>): real
  {
    if acts == [] then 0.0
    else v.actionProb(s, acts[0]) * v.q(s, acts[0]) + Expected(v, s, acts[1..])
  }

  /** Sum over acts of pi(c|s) * (ret if c == a else Q(s, c)): the on-policy
      tree backup's mixture, in which the taken action a contributes ret. */
  function Mix<S, A(==)>(v: Values<S, A>, s: S, a: A, ret: real, acts: seq<A>): real
  {
    if acts == [] then 0.0
    else (if acts[0] == a then v.actionProb(s, a) * ret else v.actionProb(s, acts[0]) * v.q(s, acts[0]))
         + Mix(v, s, a, ret, acts[1..])
  }

  /** Total probability the policy gives to the occurrences of a in acts. */
  function Weight<S, A(==)>(v: Values<S, A>, s: S, a: A, acts: seq<A>): real
  {
    if acts == [] then 0.0
    else (if acts[0] == a then v.actionProb(s, a) else 0.0) + Weight(v, s, a, acts[1..])
  }

  /** Total probability the policy gives to acts. */
  function Mass<S, A>(v: Values<S, A>, s: S, acts: seq<A>): real
  {
    if acts == [] then 0.0 else v.actionProb(s, acts[0]) + Mass(v, s, acts[1..])
  }

  /** end_return(agent, s, a, r) of each policy. */
  function EndReturn<S, A>(p: Policy, gamma: real, v: Values<S, A>, s: S, a: A, r: real): real
  {
    match p
    case Sarsa => r + gamma * v.q(s, a)
    case ExpectedSarsa => r + gamma * Expected(v, s, v.actionSpec(s))
    case QLearn => r + gamma * v.bestActionVal(s)
    case TreeLearn => r + gamma * v.bestActionVal(s)
    case OnPolicyTreeLearn => r + gamma * v.bestActionVal(s)
  }

  /** step_return(agent, s, a, r, ret) of each policy. */
  function StepReturn<S, A(==)>(p: Policy, gamma: real, v: Values<S, A>, s: S, a: A, r: real, ret: real): real
  {
    match p
    case Sarsa => r + gamma * ret
    case ExpectedSarsa => r + gamma * ret
    case QLearn => r + gamma * ret
    case TreeLearn =>
      var best := v.bestAction(s);
      r + gamma * (if a == best then ret else v.q(s, best))
    case OnPolicyTreeLearn => r + gamma * Mix(v, s, a, ret, v.actionSpec(s))
  }

  /** The policies whose step rule is the plain discounted fold r + gamma * ret. */
  predicate PlainStep(p: Policy)
  {
    p == Sarsa || p == ExpectedSarsa || p == QLearn
  }

  lemma PlainStepDiscounts<S, A>(p: Policy, gamma: real, v: Values<S, A>, s: S, a: A, r: real, ret: real)
    requires PlainStep(p)
    ensures StepReturn(p, gamma, v, s, a, r, ret) == r + gamma * ret
  {
  }

  /** The on-policy tree backup's mixture is the policy's expected value with
      the taken action's estimate Q(s, a) replaced by ret, weighted by the
      probability of a. */
  lemma MixDecomposes<S, A>(v: Values<S, A>, s: S, a: A, ret: real, acts: seq<A>)
    ensures Mix(v, s, a, ret, acts) == Expected(v, s, acts) + Weight(v, s, a, acts) * (ret - v.q(s, a))
  {
    var d := ret - v.q(s, a);
    MixShifts(v, s, a, ret, d, acts);
    ShiftIsWeighted(v, s, a, d, acts);
  }

  /** Sum over the occurrences c == a in acts of pi(a|s) * d. */
  function Shift<S, A(==)>(v: Values<S, A>, s: S, a: A, d: real, acts: seq<A>): real
  {
    if acts == [] then 0.0
    else (if acts[0] == a then v.actionProb(s, a) * d else 0.0) + Shift(v, s, a, d, acts[1..])
  }

  lemma {:induction false} MixShifts<S, A>(v: Values<S, A>, s: S, a: A, ret: real, d: real, acts: seq<A>)
    requires d == ret - v.q(s, a)
    ensures Mix(v, s, a, ret, acts) == Expected(v, s, acts) + Shift(v, s, a, d, acts)
  {
    if acts != [] {
      MixShifts(v, s, a, ret, d, acts[1..]);
      if acts[0] == a {
        Distribute(v.actionProb(s, a), v.q(s, a), d, ret);
      }
    }
  }

  lemma Distribute(p: real, x: real, d: real, y: real)
    requires y == x + d
    ensures p * y == p * x + p * d
  {
  }

  lemma {:induction false} ShiftIsWeighted<S, A>(v: Values<S, A>, s: S, a: A, d: real, acts: seq<A>)
    ensures Shift(v, s, a, d, acts) == Weight(v, s, a, acts) * d
  {
    if acts != [] {
      ShiftIsWeighted(v, s, a, d, acts[1..]);
      var u := if acts[0] == a then v.actionProb(s, a) else 0.0;
      assert (u + Weight(v, s, a, acts[1..])) * d == u * d + Weight(v, s, a, acts[1..]) * d;
    }
  }

  /** Folding the taken action's own estimate through the on-policy tree
      backup gives exactly the expected-Sarsa bootstrap. */
  lemma OnPolicyTreeAtEstimateIsExpectedSarsa<S, A>(gamma: real, v: Values<S, A>, s: S, a: A, r: real)
    ensures StepReturn(OnPolicyTreeLearn, gamma, v, s, a, r, v.q(s, a))
         == EndReturn(ExpectedSarsa, gamma, v, s, a, r)
  {
    MixDecomposes(v, s, a, v.q(s, a), v.actionSpec(s));
  }

  /** The on-policy tree backup changes with ret at the rate gamma * pi(a|s). */
  lemma OnPolicyTreeSensitivity<S, A>(gamma: real, v: Values<S, A>, s: S, a: A, r: real, ret1: real, ret2: real)
    ensures StepReturn(OnPolicyTreeLearn, gamma, v, s, a, r, ret1) - StepReturn(OnPolicyTreeLearn, gamma, v, s, a, r, ret2)
         == gamma * Weight(v, s, a, v.actionSpec(s)) * (ret1 - ret2)
  {
    var acts := v.actionSpec(s);
    MixDecomposes(v, s, a, ret1, acts);
    MixDecomposes(v, s, a, ret2, acts);
    var w := Weight(v, s, a, acts);
    assert w * (ret1 - v.q(s, a)) - w * (ret2 - v.q(s, a)) == w * (ret1 - ret2);
    assert gamma * Mix(v, s, a, ret1, acts) - gamma * Mix(v, s, a, ret2, acts)
        == gamma * (Mix(v, s, a, ret1, acts) - Mix(v, s, a, ret2, acts));
  }

  /** The tree backup follows the fold only along the greedy action: off the
      greedy action the step ignores the return so far. */
  lemma TreeLearnCutsOffPolicy<S, A>(gamma: real, v: Values<S, A>, s: S, a: A, r: real, ret1: real, ret2: real)
    ensures a == v.bestAction(s) ==> StepReturn(TreeLearn, gamma, v, s, a, r, ret1) == StepReturn(Sarsa, gamma, v, s, a, r, ret1)
    ensures a != v.bestAction(s) ==> StepReturn(TreeLearn, gamma, v, s, a, r, ret1) == StepReturn(TreeLearn, gamma, v, s, a, r, ret2)
  {
  }

  /** With non-negative probabilities and every estimate at most m, the
      policy's expected value is at most its total mass times m. */
  lemma {:induction false} ExpectedBounded<S, A>(v: Values<S, A>, s: S, acts: seq<A>, m: real)
    requires forall i :: 0 <= i < |acts| ==> 0.0 <= v.actionProb(s, acts[i]) && v.q(s, acts[i]) <= m
    ensures Expected(v, s, acts) <= Mass(v, s, acts) * m
  {
    if acts != [] {
      assert forall i :: 0 <= i < |acts[1..]| ==> acts[1..][i] == acts[i + 1];
      ExpectedBounded(v, s, acts[1..], m);
      var p := v.actionProb(s, acts[0]);
      assert p * v.q(s, acts[0]) <= p * m by {
        assert 0.0 <= p && v.q(s, acts[0]) <= m;
        assert p * (m - v.q(s, acts[0])) >= 0.0;
      }
      assert (p + Mass(v, s, acts[1..])) * m == p * m + Mass(v, s, acts[1..]) * m;
    }
  }

  /** When the policy is a probability distribution over the allowed actions
      and bestActionVal really is the largest estimate, expected Sarsa never
      bootstraps above Q-learning. */
  lemma ExpectedSarsaAtMostQLearn<S, A>(gamma: real, v: Values<S, A>, s: S, a: A, r: real)
    requires 0.0 <= gamma
    requires Mass(v, s, v.actionSpec(s)) == 1.0
    requires forall c :: c in v.actionSpec(s) ==> 0.0 <= v.actionProb(s, c) && v.q(s, c) <= v.bestActionVal(s)
    ensures EndReturn(ExpectedSarsa, gamma, v, s, a, r) <= EndReturn(QLearn, gamma, v, s, a, r)
  {
    var acts := v.actionSpec(s);
    assert forall i :: 0 <= i < |acts| ==> acts[i] in acts;
    ExpectedBounded(v, s, acts, v.bestActionVal(s));
    var e := Expected(v, s, acts);
    assert gamma * e <= gamma * v.bestActionVal(s) by {
      assert gamma * (v.bestActionVal(s) - e) >= 0.0;
    }
  }

  /** The number of times b occurs in acts. */
  function Occurrences<A(==)>(acts: seq<A>, b: A): nat
  {
    if acts == [] then 0 else (if acts[0] == b then 1 else 0) + Occurrences(acts[1..], b)
  }

  lemma {:induction false} OccurrencesIsMultiplicity<A>(acts: seq<A>, b: A)
    ensures Occurrences(acts, b) == multiset(acts)[b]
  {
    if acts != [] {
      OccurrencesIsMultiplicity(acts[1..], b);
      assert acts == [acts[0]] + acts[1..];
      assert multiset(acts) == multiset{acts[0]} + multiset(acts[1..]);
    }
  }

  /** Under a greedy (indicator) policy, expected Sarsa counts the greedy
      action's estimate once per occurrence in the action list; with each
      action listed once it is exactly Q-learning. */
  lemma {:induction false} ExpectedUnderGreedy<S, A>(v: Values<S, A>, s: S, b: A, acts: seq<A>)
    requires forall c :: v.actionProb(s, c) == if c == b then 1.0 else 0.0
    ensures Expected(v, s, acts) == (Occurrences(acts, b) as real) * v.q(s, b)
  {
    if acts != [] {
      var c := acts[0];
      ExpectedUnderGreedy(v, s, b, acts[1..]);
      AddTerm(v.actionProb(s, c), v.q(s, c), Occurrences(acts[1..], b), if c == b then 1 else 0, v.q(s, b));
    }
  }

  /** One summand of the greedy expectation: p * y is the greedy estimate
      when p = 1 (and y is that estimate), and nothing when p = 0. */
  lemma AddTerm(p: real, y: real, n: nat, d: nat, x: real)
    requires (d == 1 && p == 1.0 && y == x) || (d == 0 && p == 0.0)
    ensures p * y + (n as real) * x == ((d + n) as real) * x
  {
    if d == 1 {
      assert ((1 + n) as real) * x == x + (n as real) * x;
    }
  }

  lemma GreedyExpectedSarsaIsQLearn<S, A>(gamma: real, v: Values<S, A>, s: S, a: A, r: real)
    requires forall c :: v.actionProb(s, c) == if c == v.bestAction(s) then 1.0 else 0.0
    requires multiset(v.actionSpec(s))[v.bestAction(s)] == 1
    requires v.q(s, v.bestAction(s)) == v.bestActionVal(s)
    ensures EndReturn(ExpectedSarsa, gamma, v, s, a, r) == EndReturn(QLearn, gamma, v, s, a, r)
  {
    ExpectedUnderGreedy(v, s, v.bestAction(s), v.actionSpec(s));
    OccurrencesIsMultiplicity(v.actionSpec(s), v.bestAction(s));
  }

  /** The one-step Sarsa target of the worked example: Q(1, 0) = 2, r = 1,
      gamma = 0.9 gives 1 + 0.9 * 2 = 2.8. */
  lemma SarsaWorkedExample(v: Values<int, int>)
    requires v.q(1, 0) == 2.0
    ensures EndReturn(Sarsa, 0.9, v, 1, 0, 1.0) == 2.8
  {
  }
}
