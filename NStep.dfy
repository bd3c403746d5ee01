/** The n-step bootstrapped return engine. It keeps the last nstep + 1
    transitions of the current episode in a ring buffer addressed by absolute
    step modulo the capacity, fixes the episode horizon at the first terminal
    flag, and credits each step nstep - 1 calls after it has been seen with
    a return folded backward from the bootstrap point. */
module NStep {
  import opened Agents
  import opened Returns

  /** T_step: unknown (infinite) until the first terminal flag. */
  datatype Horizon = Inf | At(n: nat)

  /** One buffered slot (s, a, r). */
  datatype Entry<S, A> = Entry(s: S, a: A, r: real)

  /** The buffer's contents, None standing for the (None, None, None) fill. */
  type Slots<S, A> = seq<Option<Entry<S, A>>>

  /** The engine's per-episode state: buffer contents and horizon. */
  datatype Episode<S, A> = Episode(slots: Slots<S, A>, horizon: Horizon)

  /** Why a call raises instead of returning a command: the engine was never
      started with InitEpisode, or the fold read an unfilled slot. */
  datatype Failure = NotInitialised | EmptySlot

  /** Command(update=False), Command(ret, tgt_s, tgt_a, terminate), or a raise. */
  datatype Command<S, A> =
    | Skip
    | Apply(ret: real, s: Option<S>, a: Option<A>, terminate: bool)
    | Fail(reason: Failure)

  /** t < T_step. */
  predicate Before(t: int, h: Horizon)
  {
    h.Inf? || t < h.n
  }

  /** end_t = min(t + 1, T_step). */
  function EndT(t: nat, h: Horizon): nat
  {
    if h.At? && h.n < t + 1 then h.n else t + 1
  }

  /** terminate = tgt_t >= T_step - 1. */
  predicate Terminates(tgt: int, h: Horizon)
  {
    h.At? && tgt >= h.n - 1
  }

  /** The slot that absolute step i maps to. */
  function Read<S, A>(slots: Slots<S, A>, i: nat): Option<Entry<S, A>>
    requires |slots| > 0
  {
    slots[i % |slots|]
  }

  /** The state init_episode creates: (s, a, 0) at slot 0, the rest unfilled,
      horizon infinite. */
  function Initial<S, A>(cap: nat, s: S, a: A): Episode<S, A>
    requires cap > 0
  {
    Episode(seq(cap, i => if i == 0 then Some(Entry(s, a, 0.0)) else None), Inf)
  }

  /** Steps 1 and 2 of a call: fix the horizon at the first terminal flag,
      then store (new_s, new_a, r) for step t + 1 unless t is past the horizon. */
  function Advance<S, A>(e: Episode<S, A>, t: nat, terminal: bool, x: Entry<S, A>): Episode<S, A>
    requires |e.slots| > 0
  {
    var h := if e.horizon.Inf? && terminal then At(t + 1) else e.horizon;
    var slots := if Before(t, h) then e.slots[(t + 1) % |e.slots|:= Some(x)] else e.slots;
    Episode(slots, h)
  }

  /** get_return on the ring buffer: end_return at slot end, then step_return
      for end - 1 down to lo; None when any slot read is unfilled. */
  function RingBackup<S, A(==)>(p: Policy, gamma: real, v: Values<S, A>, slots: Slots<S, A>, lo: nat, end: nat): Option<real>
    requires |slots| > 0
    decreases end - lo
  {
    if lo >= end then
      match Read(slots, end)
      case None => None
      case Some(x) => Some(EndReturn(p, gamma, v, x.s, x.a, x.r))
    else
      match Read(slots, lo)
      case None => None
      case Some(x) =>
        match RingBackup(p, gamma, v, slots, lo + 1, end)
        case None => None
        case Some(rest) => Some(StepReturn(p, gamma, v, x.s, x.a, x.r, rest))
  }

  /** Steps 3 to 7 of a call, on the state after Advance. */
  function Respond<S, A(==)>(p: Policy, gamma: real, v: Values<S, A>, e: Episode<S, A>, nstep: nat, t: nat): Command<S, A>
    requires |e.slots| == nstep + 1
  {
    var tgt := t - nstep + 1;
    if tgt < 0 then Skip
    else
      var target := Read(e.slots, tgt);
      match RingBackup(p, gamma, v, e.slots, tgt + 1, EndT(t, e.horizon))
      case None => Fail(EmptySlot)
      case Some(ret) =>
        Apply(ret, if target.Some? then Some(target.value.s) else None,
              if target.Some? then Some(target.value.a) else None,
              Terminates(tgt, e.horizon))
  }

  /** The backward fold over the episode's transitions themselves, indexed by
      absolute step: the return the engine means to compute. */
  function Backup<S, A(==)>(p: Policy, gamma: real, v: Values<S, A>, hist: seq<Entry<S, A>>, lo: nat, end: nat): real
    requires end < |hist|
    decreases end - lo
  {
    if lo >= end then EndReturn(p, gamma, v, hist[end].s, hist[end].a, hist[end].r)
    else StepReturn(p, gamma, v, hist[lo].s, hist[lo].a, hist[lo].r, Backup(p, gamma, v, hist, lo + 1, end))
  }

  /** The discounted sum of rewards r_lo + gamma r_(lo+1) + ... up to end - 1. */
  function Discounted<S, A>(gamma: real, hist: seq<Entry<S, A>>, lo: nat, end: nat): real
    requires end <= |hist|
    decreases end - lo
  {
    if lo >= end then 0.0 else hist[lo].r + gamma * Discounted(gamma, hist, lo + 1, end)
  }

  function Pow(x: real, k: nat): real
  {
    if k == 0 then 1.0 else x * Pow(x, k - 1)
  }

  /** The last |slots| transitions of hist sit in the slots their absolute
      steps map to. */
  ghost predicate Coherent<S, A>(slots: Slots<S, A>, hist: seq<Entry<S, A>>)
  {
    |slots| > 0 &&
    forall i :: 0 <= i < |hist| && |hist| - |slots| <= i ==> slots[i % |slots|] == Some(hist[i])
  }

  /** What holds after a sequence of calls with t = 0, 1, ..., calls - 1: hist holds
      the transitions for steps 0 up to min(calls, T_step), and the buffer
      holds the last nstep + 1 of them. */
  ghost predicate InOrderState<S, A>(slots: Slots<S, A>, h: Horizon, hist: seq<Entry<S, A>>, calls: nat)
  {
    |hist| >= 1 &&
    (h.At? ==> 1 <= h.n <= calls) &&
    |hist| - 1 == (if h.At? then h.n else calls) &&
    Coherent(slots, hist)
  }

  lemma MulAtLeast(d: int, n: nat)
    requires n > 0 && d >= 1
    ensures d * n >= n
  {
    var k := d - 1;
    assert d * n == k * n + n;
    assert k * n >= 0;
  }

  /** Two steps less than n apart map to different slots of a buffer of n. */
  lemma ModDistinct(i: nat, j: nat, n: nat)
    requires n > 0 && i < j < i + n
    ensures i % n != j % n
  {
    var qi, qj := i / n, j / n;
    assert i == qi * n + i % n;
    assert j == qj * n + j % n;
    if i % n == j % n {
      var d := qj - qi;
      assert d * n == qj * n - qi * n;
      assert j - i == d * n;
      if d >= 1 {
        MulAtLeast(d, n);
      }
    }
  }

  /** Writing step |hist| into its slot keeps the buffer coherent with the
      extended history: the slot overwritten held step |hist| - |slots|, which
      has just left the window. */
  lemma CoherentAfterWrite<S, A>(slots: Slots<S, A>, hist: seq<Entry<S, A>>, x: Entry<S, A>)
    requires Coherent(slots, hist)
    ensures Coherent(slots[|hist| % |slots| := Some(x)], hist + [x])
  {
    var n := |slots|;
    var slots', hist' := slots[|hist| % n := Some(x)], hist + [x];
    forall i | 0 <= i < |hist'| && |hist'| - n <= i
      ensures slots'[i % n] == Some(hist'[i])
    {
      if i < |hist| {
        ModDistinct(i, |hist|, n);
        assert slots'[i % n] == slots[i % n];
      }
    }
  }

  /** A slot read by the fold that is unfilled makes the whole fold fail. */
  lemma {:induction false} RingBackupFails<S, A>(p: Policy, gamma: real, v: Values<S, A>, slots: Slots<S, A>, lo: nat, j: nat, end: nat)
    requires |slots| > 0
    requires j <= end && (lo <= j || j == end)
    requires Read(slots, j).None?
    ensures RingBackup(p, gamma, v, slots, lo, end).None?
    decreases end - lo
  {
    if lo < end && lo != j {
      RingBackupFails(p, gamma, v, slots, lo + 1, j, end);
    }
  }

  /** When the window of steps lo..end is still in the buffer, the fold over
      the ring buffer reads exactly the transitions recorded for those steps. */
  lemma {:induction false} RingReadsHistory<S, A>(p: Policy, gamma: real, v: Values<S, A>, slots: Slots<S, A>, hist: seq<Entry<S, A>>, lo: nat, end: nat)
    requires Coherent(slots, hist)
    requires end < |hist| && |hist| - |slots| <= end && |hist| - |slots| <= lo
    ensures RingBackup(p, gamma, v, slots, lo, end) == Some(Backup(p, gamma, v, hist, lo, end))
    decreases end - lo
  {
    if lo < end {
      RingReadsHistory(p, gamma, v, slots, hist, lo + 1, end);
      assert Read(slots, lo) == Some(hist[lo]);
    } else {
      assert Read(slots, end) == Some(hist[end]);
    }
  }

  /** Every step a call reads, tgt_t and end_t down to tgt_t + 1, lies in the
      window tgt_t .. tgt_t + nstep of nstep + 1 steps, one per buffer slot,
      provided the credited step has not gone past the horizon. */
  lemma ReadsInWindow(nstep: nat, t: nat, h: Horizon)
    requires 0 <= t - nstep + 1
    requires h.At? ==> t - nstep + 1 <= h.n
    ensures t - nstep + 1 <= EndT(t, h) <= t - nstep + 1 + nstep
  {
  }

  /** The engine's answer for calls made in order: with the buffer coherent
      with the episode so far, the command credits the transition recorded
      for step tgt_t with the backward fold over the recorded transitions
      tgt_t + 1 .. end_t, so no read meets a slot that has been overwritten. */
  lemma ResponseFromHistory<S, A>(p: Policy, gamma: real, v: Values<S, A>, e: Episode<S, A>, hist: seq<Entry<S, A>>, nstep: nat, t: nat)
    requires |e.slots| == nstep + 1
    requires Coherent(e.slots, hist)
    requires |hist| == EndT(t, e.horizon) + 1
    requires 0 <= t - nstep + 1 <= EndT(t, e.horizon)
    ensures Respond(p, gamma, v, e, nstep, t)
         == Apply(Backup(p, gamma, v, hist, t - nstep + 2, EndT(t, e.horizon)),
                  Some(hist[t - nstep + 1].s), Some(hist[t - nstep + 1].a),
                  Terminates(t - nstep + 1, e.horizon))
  {
    var tgt := t - nstep + 1;
    ReadsInWindow(nstep, t, e.horizon);
    RingReadsHistory(p, gamma, v, e.slots, hist, tgt + 1, EndT(t, e.horizon));
    assert Read(e.slots, tgt) == Some(hist[tgt]);
    RespondApplies(p, gamma, v, e, nstep, t, hist[tgt], Backup(p, gamma, v, hist, tgt + 1, EndT(t, e.horizon)));
  }

  /** Respond once the target slot and the fold are known. */
  lemma RespondApplies<S, A>(p: Policy, gamma: real, v: Values<S, A>, e: Episode<S, A>, nstep: nat, t: nat, x: Entry<S, A>, ret: real)
    requires |e.slots| == nstep + 1
    requires 0 <= t - nstep + 1
    requires Read(e.slots, t - nstep + 1) == Some(x)
    requires RingBackup(p, gamma, v, e.slots, t - nstep + 2, EndT(t, e.horizon)) == Some(ret)
    ensures Respond(p, gamma, v, e, nstep, t) == Apply(ret, Some(x.s), Some(x.a), Terminates(t - nstep + 1, e.horizon))
  {
  }

  /** The horizon is fixed once: an unset horizon becomes t + 1 exactly on a
      terminal flag, and a set horizon never changes. A slot is written only
      while t < T_step, and then only the slot of step t + 1. */
  lemma AdvanceEffect<S, A>(e: Episode<S, A>, t: nat, terminal: bool, x: Entry<S, A>)
    requires |e.slots| > 0
    ensures e.horizon.At? ==> Advance(e, t, terminal, x).horizon == e.horizon
    ensures e.horizon.Inf? ==> Advance(e, t, terminal, x).horizon == if terminal then At(t + 1) else Inf
    ensures |Advance(e, t, terminal, x).slots| == |e.slots|
    ensures Read(Advance(e, t, terminal, x).slots, t + 1)
         == if Before(t, Advance(e, t, terminal, x).horizon) then Some(x) else Read(e.slots, t + 1)
    ensures forall i :: 0 <= i < |e.slots| && i != (t + 1) % |e.slots| ==> Advance(e, t, terminal, x).slots[i] == e.slots[i]
  {
  }

  /** No update without enough history: the command is Skip exactly when
      t < nstep - 1, and then no return hook is evaluated. */
  lemma SkipIffShortHistory<S, A>(p: Policy, gamma: real, v: Values<S, A>, e: Episode<S, A>, nstep: nat, t: nat)
    requires |e.slots| == nstep + 1
    ensures Respond(p, gamma, v, e, nstep, t).Skip? <==> t + 1 < nstep
  {
  }

  /** terminate is true exactly when tgt_t >= T_step - 1, never while the
      horizon is unset; among the steps up to the horizon only step T_step - 1
      is credited as terminal. */
  lemma TerminateFlag<S, A>(p: Policy, gamma: real, v: Values<S, A>, e: Episode<S, A>, nstep: nat, t: nat)
    requires |e.slots| == nstep + 1
    requires Respond(p, gamma, v, e, nstep, t).Apply?
    ensures Respond(p, gamma, v, e, nstep, t).terminate <==> (e.horizon.At? && t - nstep + 1 >= e.horizon.n - 1)
    ensures e.horizon.Inf? ==> !Respond(p, gamma, v, e, nstep, t).terminate
    ensures e.horizon.At? && t - nstep + 1 <= e.horizon.n - 1 ==>
              (Respond(p, gamma, v, e, nstep, t).terminate <==> t - nstep + 1 == e.horizon.n - 1)
  {
  }

  /** For nstep = 1 the fold is empty: a call made before the horizon credits
      the previous step with the policy's one-step target on the transition
      it has just been given. */
  lemma OneStepIsClassic<S, A>(p: Policy, gamma: real, v: Values<S, A>, e: Episode<S, A>, t: nat, terminal: bool, newS: S, newA: A, r: real)
    requires |e.slots| == 2
    requires Before(t, Advance(e, t, terminal, Entry(newS, newA, r)).horizon)
    ensures Respond(p, gamma, v, Advance(e, t, terminal, Entry(newS, newA, r)), 1, t).Apply?
    ensures Respond(p, gamma, v, Advance(e, t, terminal, Entry(newS, newA, r)), 1, t).ret
         == EndReturn(p, gamma, v, newS, newA, r)
  {
    var e' := Advance(e, t, terminal, Entry(newS, newA, r));
    assert EndT(t, e'.horizon) == t + 1;
    assert Read(e'.slots, t + 1) == Some(Entry(newS, newA, r));
  }

  /** For the policies whose step rule is r + gamma * ret, the backward fold
      is the classic n-step return: the discounted rewards of steps lo .. end - 1
      plus gamma^(end - lo) times the bootstrap at step end. */
  lemma PlainBackupIsDiscounted<S, A>(p: Policy, gamma: real, v: Values<S, A>, hist: seq<Entry<S, A>>, lo: nat, end: nat, bootstrap: real)
    requires PlainStep(p)
    requires lo <= end < |hist|
    requires bootstrap == EndReturn(p, gamma, v, hist[end].s, hist[end].a, hist[end].r)
    ensures Backup(p, gamma, v, hist, lo, end) == Discounted(gamma, hist, lo, end) + Pow(gamma, end - lo) * bootstrap
  {
    BackupIsPlainFold(p, gamma, v, hist, lo, end);
    PlainFoldIsDiscounted(gamma, hist, lo, end, bootstrap);
  }

  /** The fold r_lo + gamma (r_(lo+1) + gamma (... + gamma e)) with bootstrap e. */
  function PlainFold<S, A>(gamma: real, hist: seq<Entry<S, A>>, lo: nat, end: nat, e: real): real
    requires end <= |hist|
    decreases end - lo
  {
    if lo >= end then e else hist[lo].r + gamma * PlainFold(gamma, hist, lo + 1, end, e)
  }

  lemma {:induction false} BackupIsPlainFold<S, A>(p: Policy, gamma: real, v: Values<S, A>, hist: seq<Entry<S, A>>, lo: nat, end: nat)
    requires PlainStep(p)
    requires end < |hist|
    ensures Backup(p, gamma, v, hist, lo, end)
         == PlainFold(gamma, hist, lo, end, EndReturn(p, gamma, v, hist[end].s, hist[end].a, hist[end].r))
    decreases end - lo
  {
    if lo < end {
      BackupIsPlainFold(p, gamma, v, hist, lo + 1, end);
      PlainStepDiscounts(p, gamma, v, hist[lo].s, hist[lo].a, hist[lo].r, Backup(p, gamma, v, hist, lo + 1, end));
    }
  }

  lemma {:induction false} PlainFoldIsDiscounted<S, A>(gamma: real, hist: seq<Entry<S, A>>, lo: nat, end: nat, e: real)
    requires lo <= end <= |hist|
    ensures PlainFold(gamma, hist, lo, end, e) == Discounted(gamma, hist, lo, end) + Pow(gamma, end - lo) * e
    decreases end - lo
  {
    if lo < end {
      PlainFoldIsDiscounted(gamma, hist, lo + 1, end, e);
      Combine(PlainFold(gamma, hist, lo, end, e), hist[lo].r, gamma, PlainFold(gamma, hist, lo + 1, end, e),
              Discounted(gamma, hist, lo + 1, end), Pow(gamma, end - (lo + 1)), e,
              Discounted(gamma, hist, lo, end), Pow(gamma, end - lo));
    }
  }

  lemma Combine(b: real, r: real, g: real, b1: real, d1: real, w1: real, e: real, d: real, w: real)
    requires b == r + g * b1 && b1 == d1 + w1 * e
    requires d == r + g * d1 && w == g * w1
    ensures b == d + w * e
  {
    assert g * (d1 + w1 * e) == g * d1 + (g * w1) * e;
  }

  /** An in-order call keeps the in-order invariant: the history grows by
      the written transition exactly when the step is before the horizon. */
  lemma InOrderAfterAdvance<S, A>(e: Episode<S, A>, hist: seq<Entry<S, A>>, calls: nat, terminal: bool, x: Entry<S, A>)
    requires InOrderState(e.slots, e.horizon, hist, calls)
    ensures InOrderState(Advance(e, calls, terminal, x).slots, Advance(e, calls, terminal, x).horizon,
                         if Before(calls, Advance(e, calls, terminal, x).horizon) then hist + [x] else hist, calls + 1)
    ensures |if Before(calls, Advance(e, calls, terminal, x).horizon) then hist + [x] else hist|
         == EndT(calls, Advance(e, calls, terminal, x).horizon) + 1
  {
    var h := Advance(e, calls, terminal, x).horizon;
    if Before(calls, h) {
      CoherentAfterWrite(e.slots, hist, x);
    }
  }

  class NStepAlgo<S(==), A(==)> {
    const policy: Policy
    const gamma: real
    const nstep: nat
    var buffer: array<Option<Entry<S, A>>>
    var horizon: Horizon
    /** False until InitEpisode: the source's buffer and T_step are None then. */
    var started: bool

    /** The transitions of the episode, by absolute step, while calls come in order. */
    ghost var hist: seq<Entry<S, A>>
    /** Calls since InitEpisode, and whether each had t equal to its position. */
    ghost var calls: nat
    ghost var inOrder: bool

    ghost predicate Valid()
      reads this, buffer
    {
      buffer.Length == nstep + 1 &&
      (started && inOrder ==> InOrderState(buffer[..], horizon, hist, calls))
    }

    function State(): Episode<S, A>
      reads this, buffer
    {
      Episode(buffer[..], horizon)
    }

    constructor (policy: Policy, gamma: real, nstep: nat)
      ensures Valid() && !started
      ensures this.policy == policy && this.gamma == gamma && this.nstep == nstep
    {
      this.policy := policy;
      this.gamma := gamma;
      this.nstep := nstep;
      buffer := new Option<Entry<S, A>>[nstep + 1](_ => None);
      horizon := Inf;
      started := false;
    }

    method InitEpisode(s: S, a: A)
      modifies this
      ensures Valid() && started && fresh(buffer)
      ensures State() == Initial(nstep + 1, s, a)
      ensures inOrder && calls == 0 && hist == [Entry(s, a, 0.0)]
    {
      buffer := new Option<Entry<S, A>>[nstep + 1](_ => None);
      buffer[0] := Some(Entry(s, a, 0.0));
      horizon := Inf;
      started := true;
      hist, calls, inOrder := [Entry(s, a, 0.0)], 0, true;
      assert buffer[..] == Initial(nstep + 1, s, a).slots;
      assert 0 % buffer.Length == 0;
      assert Coherent(buffer[..], hist);
    }

    /** get_return: the backward fold from end_t down to tgt_t + 1. */
    method GetReturn(v: Values<S, A>, t: nat, tgt: nat) returns (ret: Option<real>)
      requires Valid()
      ensures ret == RingBackup(policy, gamma, v, buffer[..], tgt + 1, EndT(t, horizon))
    {
      var endT := EndT(t, horizon);
      var last := buffer[endT % buffer.Length];
      if last.None? {
        RingBackupFails(policy, gamma, v, buffer[..], tgt + 1, endT, endT);
        return None;
      }
      var acc := EndReturn(policy, gamma, v, last.value.s, last.value.a, last.value.r);
      var i: int := endT - 1;
      while i > tgt
        invariant i <= endT - 1
        invariant i >= tgt || i == endT - 1
        invariant Some(acc) == RingBackup(policy, gamma, v, buffer[..], i + 1, endT)
        decreases i
      {
        var x := buffer[i % buffer.Length];
        if x.None? {
          RingBackupFails(policy, gamma, v, buffer[..], tgt + 1, i, endT);
          return None;
        }
        acc := StepReturn(policy, gamma, v, x.value.s, x.value.a, x.value.r, acc);
        i := i - 1;
      }
      ret := Some(acc);
    }

    /** __call__: one real transition (s, a, r, new_s, new_a) at step t. */
    method Call(v: Values<S, A>, s: S, a: A, r: real, newS: S, newA: A, t: nat, terminal: bool) returns (out: Command<S, A>)
      requires Valid()
      modifies this, buffer
      ensures Valid() && buffer == old(buffer) && started == old(started)
      ensures !old(started) ==> out == Fail(NotInitialised) && State() == old(State())
      ensures old(started) ==> State() == Advance(old(State()), t, terminal, Entry(newS, newA, r))
      ensures old(started) ==> out == Respond(policy, gamma, v, State(), nstep, t)
      ensures old(started) ==> inOrder == (old(inOrder) && t == old(calls)) && calls == old(calls) + 1
      ensures hist == if old(started) && inOrder && Before(t, horizon) then old(hist) + [Entry(newS, newA, r)] else old(hist)
      ensures old(started) && inOrder && 0 <= t - nstep + 1 <= EndT(t, horizon) ==>
                |hist| == EndT(t, horizon) + 1 &&
                out == Apply(Backup(policy, gamma, v, hist, t - nstep + 2, EndT(t, horizon)),
                             Some(hist[t - nstep + 1].s), Some(hist[t - nstep + 1].a),
                             Terminates(t - nstep + 1, horizon))
    {
      if !started {
        return Fail(NotInitialised);
      }
      Record(t, terminal, Entry(newS, newA, r));
      out := Answer(v, t);
      if inOrder && 0 <= t - nstep + 1 <= EndT(t, horizon) {
        ResponseFromHistory(policy, gamma, v, State(), hist, nstep, t);
      }
    }

    /** The first half of `__call__`: fix the horizon, then write slot t + 1. */
    method Record(t: nat, terminal: bool, x: Entry<S, A>)
      requires Valid() && started
      modifies this, buffer
      ensures Valid() && buffer == old(buffer) && started
      ensures State() == Advance(old(State()), t, terminal, x)
      ensures inOrder == (old(inOrder) && t == old(calls)) && calls == old(calls) + 1
      ensures inOrder ==> |hist| == EndT(t, horizon) + 1
      ensures hist == if inOrder && Before(t, horizon) then old(hist) + [x] else old(hist)
    {
      ghost var before := State();
      ghost var after := Advance(before, t, terminal, x);
      ghost var wasInOrder := inOrder && t == calls;
      if wasInOrder {
        InOrderAfterAdvance(before, hist, calls, terminal, x);
      }
      if horizon.Inf? && terminal {
        horizon := At(t + 1);
      }
      assert horizon == after.horizon;
      if Before(t, horizon) {
        var j := (t + 1) % buffer.Length;
        buffer[j] := Some(x);
        assert buffer[..] == before.slots[j := Some(x)];
        if wasInOrder {
          hist := hist + [x];
        }
      }
      assert buffer[..] == after.slots;
      assert hist == if wasInOrder && Before(t, horizon) then old(hist) + [x] else old(hist);
      calls, inOrder := calls + 1, wasInOrder;
      if inOrder {
        assert InOrderState(buffer[..], horizon, hist, calls);
      }
    }

    /** The second half of `__call__`, on the state Record left. */
    method Answer(v: Values<S, A>, t: nat) returns (out: Command<S, A>)
      requires Valid()
      ensures out == Respond(policy, gamma, v, State(), nstep, t)
    {
      var tgt := t - nstep + 1;
      if tgt < 0 {
        return Skip;
      }
      var target := buffer[tgt % buffer.Length];
      var ret := GetReturn(v, t, tgt);
      if ret.None? {
        return Fail(EmptySlot);
      }
      out := Apply(ret.value, if target.Some? then Some(target.value.s) else None,
                   if target.Some? then Some(target.value.a) else None,
                   Terminates(tgt, horizon));
    }
  }

  /** The single-step Sarsa episode: gamma = 0.9, nstep = 1, Q(1, 0) = 2 and
      the terminal transition (0, 0, 1, 1, 0) at t = 0 credit (0, 0) with 2.8
      and report termination. */
  method SarsaSingleStepEpisode()
  {
    var v := Values((s: int, a: int) => if s == 1 && a == 0 then 2.0 else 0.0,
                    (s: int) => 0, (s: int) => 0.0, (s: int, a: int) => 0.0, (s: int) => [0]);
    var algo := new NStepAlgo<int, int>(Sarsa, 0.9, 1);
    algo.InitEpisode(0, 0);
    var out := algo.Call(v, 0, 0, 1.0, 1, 0, 0, true);
    assert algo.hist == [Entry(0, 0, 0.0), Entry(1, 0, 1.0)];
    assert out == Apply(2.8, Some(0), Some(0), true);
  }
}
