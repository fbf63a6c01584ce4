/**
 * Episodic one-step Q-learning over the quantized Q-table. The environment is
 * a trace of transitions (what each env.step returned) and the random source a
 * sequence of draws (the uniform number and the random action of each step).
 */
module QLearning {
  import opened QTable

  /** What one environment step returns: the next state, whether the episode is over, the reward. */
  datatype Transition = Transition(nextState: seq<real>, done: bool, reward: real)

  /** The random numbers one action choice may consume: a uniform draw and a random action. */
  datatype Draw = Draw(uniform: real, randomAction: nat)

  /** The action chosen and the table after choosing it. */
  datatype Choice = Choice(action: nat, entries: Table)

  /** numpy's argmax: the lowest index holding the largest value. */
  function ArgMax(v: seq<real>): (k: nat)
    requires |v| >= 1
    ensures k < |v|
    ensures forall j :: 0 <= j < |v| ==> v[j] <= v[k]
    ensures forall j :: 0 <= j < k ==> v[j] < v[k]
  {
    if |v| == 1 then 0
    else
      var k := ArgMax(v[..|v| - 1]);
      if v[|v| - 1] > v[k] then |v| - 1 else k
  }

  /** numpy's max: the largest value. */
  function MaxValue(v: seq<real>): (m: real)
    requires |v| >= 1
    ensures forall j :: 0 <= j < |v| ==> v[j] <= m
    ensures exists j :: 0 <= j < |v| && v[j] == m
  {
    if |v| == 1 then v[0]
    else
      var m := MaxValue(v[..|v| - 1]);
      if v[|v| - 1] > m then v[|v| - 1] else m
  }

  /** The greedy action holds the largest value. */
  lemma MaxValueAtArgMax(v: seq<real>)
    requires |v| >= 1
    ensures MaxValue(v) == v[ArgMax(v)]
  {
  }

  /** The TD target: the reward on a terminal step, else the reward plus the discounted best next value. */
  function TdTarget(reward: real, done: bool, discountFactor: real, nextValues: seq<real>): real
    requires !done ==> |nextValues| >= 1
  {
    if done then reward else reward + discountFactor * MaxValue(nextValues)
  }

  /** The TD(0) update: the old value moved by alpha times the TD error. */
  function TdUpdate(qsa: real, target: real, alpha: real): real
  {
    qsa + alpha * (target - qsa)
  }

  /**
   * With 0 <= alpha <= 1 the new value lies between the old value and the target,
   * and its distance to the target shrinks by the factor 1 - alpha.
   */
  lemma TdUpdateMovesTowardTarget(qsa: real, target: real, alpha: real)
    requires 0.0 <= alpha <= 1.0
    ensures TdUpdate(qsa, target, alpha) - target == (1.0 - alpha) * (qsa - target)
    ensures qsa <= target ==> qsa <= TdUpdate(qsa, target, alpha) <= target
    ensures target <= qsa ==> target <= TdUpdate(qsa, target, alpha) <= qsa
  {
    var d := target - qsa;
    assert TdUpdate(qsa, target, alpha) - qsa == alpha * d;
    if d >= 0.0 {
      assert alpha * d <= 1.0 * d;
    } else {
      assert alpha * d >= 1.0 * d;
    }
  }

  /** alpha = 0.1, discount 0.9, Q(s,a) = 0, reward 1, non-terminal, best next value 0: the new value is 0.1. */
  lemma TdUpdateExample()
    ensures TdUpdate(0.0, TdTarget(1.0, false, 0.9, [0.0, 0.0]), 0.1) == 0.1
  {
  }

  /** The greedy choice over [0.1, 0.9, 0.2, 0.0] is action 1. */
  lemma ArgMaxExample()
    ensures ArgMax([0.1, 0.9, 0.2, 0.0]) == 1
  {
  }

  /** The undiscounted return of the first n transitions: the sum of their rewards. */
  function Return(trace: seq<Transition>, n: nat): real
    requires n <= |trace|
  {
    if n == 0 then 0.0 else Return(trace, n - 1) + trace[n - 1].reward
  }

  /** The return of a run splits at any step: the rewards before it plus the rewards from it on. */
  lemma {:induction false} ReturnSplits(trace: seq<Transition>, k: nat, n: nat)
    requires k <= n <= |trace|
    ensures Return(trace, n) == Return(trace, k) + Return(trace[k..], n - k)
  {
    if n > k {
      ReturnSplits(trace, k, n - 1);
      assert trace[k..][n - 1 - k] == trace[n - 1];
    }
  }

  /** None of the first n transitions ends the episode. */
  predicate NoneDone(trace: seq<Transition>, n: nat)
    requires n <= |trace|
  {
    n == 0 || (NoneDone(trace, n - 1) && !trace[n - 1].done)
  }

  lemma {:induction false} NoneDoneAll(trace: seq<Transition>, n: nat)
    requires n <= |trace| && NoneDone(trace, n)
    ensures forall j :: 0 <= j < n ==> !trace[j].done
  {
    if n > 0 {
      NoneDoneAll(trace, n - 1);
    }
  }

  class QLearningAgent {
    const nActions: nat
    const alpha: real
    const maxStepsPerEpisode: int
    const discountFactor: real
    const qTable: QuantizedQTable

    /** The agent's table is well formed and has one value per environment action, of which there is at least one. */
    ghost predicate Configured()
    {
      qTable.Configured() && nActions == qTable.nActions && nActions >= 1
    }

    /** The trace and the draws cover every step the episode may take, with states and actions of the right shape. */
    ghost predicate Feasible(trace: seq<Transition>, draws: seq<Draw>)
    {
      && |trace| >= maxStepsPerEpisode
      && |draws| >= maxStepsPerEpisode
      && (forall j :: 0 <= j < |trace| ==> |trace[j].nextState| >= qTable.stateLength)
      && (forall j :: 0 <= j < |draws| ==> draws[j].randomAction < nActions)
    }

    constructor (nActions: nat, discountFactor: real, qTable: QuantizedQTable, alpha: real := 0.1, maxStepsPerEpisode: int := 20)
      ensures this.nActions == nActions && this.discountFactor == discountFactor
      ensures this.qTable == qTable && this.alpha == alpha
      ensures this.maxStepsPerEpisode == maxStepsPerEpisode
    {
      this.nActions := nActions;
      this.alpha := alpha;
      this.maxStepsPerEpisode := maxStepsPerEpisode;
      this.discountFactor := discountFactor;
      this.qTable := qTable;
    }

    /** Epsilon-greedy choice on table m: exploit when the draw exceeds epsilon, else take the random action. */
    ghost function Choose(m: Table, epsilon: real, state: seq<real>, draw: Draw): (c: Choice)
      requires Configured() && WellShaped(m, nActions) && |state| >= qTable.stateLength
      requires draw.randomAction < nActions
      ensures c.action < nActions
      ensures WellShaped(c.entries, nActions)
    {
      if draw.uniform > epsilon then Choice(ArgMax(qTable.ValuesAt(m, state)), qTable.Read(m, state))
      else Choice(draw.randomAction, m)
    }

    /**
     * One learning step on table m: read Q(s, a), read the values of the next
     * state, and write the TD(0) update of Q(s, a) back into the cell of s.
     */
    ghost function Learn(m: Table, state: seq<real>, action: nat, t: Transition): (m': Table)
      requires Configured() && WellShaped(m, nActions) && action < nActions
      requires |state| >= qTable.stateLength && |t.nextState| >= qTable.stateLength
      ensures WellShaped(m', nActions)
    {
      var qsa := qTable.ValuesAt(m, state)[action];
      var m1 := qTable.Read(m, state);
      var next := qTable.ValuesAt(m1, t.nextState);
      var m2 := qTable.Read(m1, t.nextState);
      var target := TdTarget(t.reward, t.done, discountFactor, next);
      qTable.Write(m2, state, action, TdUpdate(qsa, target, alpha))
    }

    /** The state the agent is in after k steps: the reset state, then each step's next state. */
    function StateAfter(initial: seq<real>, trace: seq<Transition>, k: nat): seq<real>
      requires k <= |trace|
    {
      if k == 0 then initial else trace[k - 1].nextState
    }

    /*
     * The episode as a function of the step number. Four functions, each defined
     * from the next, describe step k: the choice it makes on the table after k
     * steps, the table its learning step leaves, and the table after k + 1 steps.
     */

    /** The table after the first k steps of an episode that started from table m0 in state `initial`. */
    ghost function TableAfter(m0: Table, epsilon: real, initial: seq<real>, trace: seq<Transition>,
                              draws: seq<Draw>, k: nat): (m: Table)
      requires Configured() && WellShaped(m0, nActions) && |initial| >= qTable.stateLength
      requires Feasible(trace, draws) && k <= |trace| && k <= |draws|
      ensures WellShaped(m, nActions)
      decreases k, 0
    {
      if k == 0 then m0 else TableAfterStep(m0, epsilon, initial, trace, draws, k - 1)
    }

    /**
     * The table step k (counting from 0) leaves behind: the one its learning step
     * leaves, since learning ends a step. It is `Learned` under a second name, kept
     * as a proof device: the extra layer keeps the verifier from unfolding a whole
     * step of the episode each time `TableAfter` is mentioned.
     */
    ghost function TableAfterStep(m0: Table, epsilon: real, initial: seq<real>, trace: seq<Transition>,
                                  draws: seq<Draw>, k: nat): (m: Table)
      requires Configured() && WellShaped(m0, nActions) && |initial| >= qTable.stateLength
      requires Feasible(trace, draws) && k < |trace| && k < |draws|
      ensures WellShaped(m, nActions)
      decreases k, 3
    {
      Learned(m0, epsilon, initial, trace, draws, k)
    }

    /** The learning step of step k: on the table the choice left, for the chosen action, in the state before the step. */
    ghost function Learned(m0: Table, epsilon: real, initial: seq<real>, trace: seq<Transition>,
                           draws: seq<Draw>, k: nat): (m: Table)
      requires Configured() && WellShaped(m0, nActions) && |initial| >= qTable.stateLength
      requires Feasible(trace, draws) && k < |trace| && k < |draws|
      ensures WellShaped(m, nActions)
      decreases k, 2
    {
      var c := ChoiceAt(m0, epsilon, initial, trace, draws, k);
      Learn(c.entries, StateAfter(initial, trace, k), c.action, trace[k])
    }

    /** The choice of step k: epsilon-greedy with the step's draw, on the table after k steps, in the state after k steps. */
    ghost function ChoiceAt(m0: Table, epsilon: real, initial: seq<real>, trace: seq<Transition>,
                            draws: seq<Draw>, k: nat): (c: Choice)
      requires Configured() && WellShaped(m0, nActions) && |initial| >= qTable.stateLength
      requires Feasible(trace, draws) && k < |trace| && k < |draws|
      ensures WellShaped(c.entries, nActions) && c.action < nActions
      decreases k, 1
    {
      Choose(TableAfter(m0, epsilon, initial, trace, draws, k), epsilon, StateAfter(initial, trace, k), draws[k])
    }

    /**
     * A learning step writes the TD(0) update of the value it read into the same
     * cell of s, reading the next state's values from the table as it was; every
     * other cell keeps its action values.
     */
    lemma LearnUpdatesReadCell(m: Table, state: seq<real>, action: nat, t: Transition, other: seq<real>)
      requires Configured() && WellShaped(m, nActions) && action < nActions
      requires |state| >= qTable.stateLength && |t.nextState| >= qTable.stateLength
      requires |other| >= qTable.stateLength
      ensures var before := qTable.ValuesAt(m, state);
        var target := TdTarget(t.reward, t.done, discountFactor, qTable.ValuesAt(m, t.nextState));
        qTable.ValuesAt(Learn(m, state, action, t), state) == before[action := TdUpdate(before[action], target, alpha)]
      ensures qTable.CellOf(other) != qTable.CellOf(state) ==>
        qTable.ValuesAt(Learn(m, state, action, t), other) == qTable.ValuesAt(m, other)
    {
      var m1 := qTable.Read(m, state);
      var m2 := qTable.Read(m1, t.nextState);
      qTable.ReadKeepsValues(m, state, t.nextState);
      qTable.ReadKeepsValues(m, state, state);
      qTable.ReadKeepsValues(m1, t.nextState, state);
      qTable.ReadKeepsValues(m, state, other);
      qTable.ReadKeepsValues(m1, t.nextState, other);
      var qsa := qTable.ValuesAt(m, state)[action];
      var target := TdTarget(t.reward, t.done, discountFactor, qTable.ValuesAt(m1, t.nextState));
      qTable.WriteThenValues(m2, state, action, TdUpdate(qsa, target, alpha), other);
    }

    /**
     * Step k of an episode writes into the cell of the state it started from, not
     * the state it moved to: that cell ends with the TD(0) update of the chosen
     * action's value, every other value of it unchanged.
     */
    lemma StepUpdatesCurrentState(m0: Table, epsilon: real, initial: seq<real>, trace: seq<Transition>,
                                  draws: seq<Draw>, k: nat)
      requires Configured() && WellShaped(m0, nActions) && |initial| >= qTable.stateLength
      requires Feasible(trace, draws) && k < |trace| && k < |draws|
      ensures var s := StateAfter(initial, trace, k);
        var t := trace[k];
        var c := ChoiceAt(m0, epsilon, initial, trace, draws, k);
        var before := qTable.ValuesAt(c.entries, s);
        var target := TdTarget(t.reward, t.done, discountFactor, qTable.ValuesAt(c.entries, t.nextState));
        qTable.ValuesAt(TableAfter(m0, epsilon, initial, trace, draws, k + 1), s)
          == before[c.action := TdUpdate(before[c.action], target, alpha)]
    {
      var s := StateAfter(initial, trace, k);
      var c := ChoiceAt(m0, epsilon, initial, trace, draws, k);
      assert TableAfter(m0, epsilon, initial, trace, draws, k + 1) == TableAfterStep(m0, epsilon, initial, trace, draws, k);
      assert TableAfterStep(m0, epsilon, initial, trace, draws, k) == Learn(c.entries, s, c.action, trace[k]);
      LearnUpdatesReadCell(c.entries, s, c.action, trace[k], s);
    }

    /** Picks an action epsilon-greedily: greedy when the draw exceeds epsilon, else the draw's random action. */
    method EpsilonGreedy(epsilon: real, state: seq<real>, draw: Draw) returns (action: nat)
      requires Configured() && qTable.Valid() && |state| >= qTable.stateLength
      requires draw.randomAction < nActions
      modifies qTable
      ensures qTable.Valid()
      ensures action < nActions
      ensures draw.uniform > epsilon ==> action == ArgMax(qTable.ValuesAt(old(qTable.entries), state))
      ensures draw.uniform <= epsilon ==> action == draw.randomAction
      ensures Choice(action, qTable.entries) == Choose(old(qTable.entries), epsilon, state, draw)
    {
      if draw.uniform > epsilon {
        var vals := qTable.GetVals(state);
        action := ArgMax(vals[..]);
      } else {
        action := draw.randomAction;
      }
    }

    /**
     * The learning step after taking `action` in `state` and observing t: read
     * Q(s, a), read the next state's values, form the TD target (the reward alone
     * on a terminal step) and write Q(s, a) plus alpha times the TD error back.
     */
    method LearnStep(state: seq<real>, action: nat, t: Transition)
      requires Configured() && qTable.Valid() && action < nActions
      requires |state| >= qTable.stateLength && |t.nextState| >= qTable.stateLength
      modifies qTable
      ensures qTable.Valid()
      ensures qTable.entries == Learn(old(qTable.entries), state, action, t)
    {
      var qsa := qTable.GetVal(state, action);
      var qNext := qTable.GetVals(t.nextState);
      var tdTarget := TdTarget(t.reward, t.done, discountFactor, qNext[..]);
      var newVal := TdUpdate(qsa, tdTarget, alpha);
      qTable.SetVal(state, action, newVal);
    }

    /**
     * Step i of an episode: the epsilon-greedy choice in the current state, then
     * the learning step on the transition observed; it carries the table from
     * its value after i steps to its value after i + 1.
     */
    method TrainStep(ghost m0: Table, epsilon: real, ghost initial: seq<real>, s: seq<real>,
                     trace: seq<Transition>, draws: seq<Draw>, i: nat)
      requires Configured() && qTable.Valid() && |initial| >= qTable.stateLength
      requires Feasible(trace, draws) && i < |trace| && i < |draws| && WellShaped(m0, nActions)
      requires s == StateAfter(initial, trace, i)
      requires qTable.entries == TableAfter(m0, epsilon, initial, trace, draws, i)
      modifies qTable
      ensures qTable.Valid()
      ensures qTable.entries == TableAfter(m0, epsilon, initial, trace, draws, i + 1)
    {
      var a := EpsilonGreedy(epsilon, s, draws[i]);
      assert Choice(a, qTable.entries) == ChoiceAt(m0, epsilon, initial, trace, draws, i);
      LearnStep(s, a, trace[i]);
      assert qTable.entries == Learned(m0, epsilon, initial, trace, draws, i);
    }

    /**
     * Runs one episode from `initial` (the state the environment reset to), taking
     * transitions from `trace` and random numbers from `draws`. It takes steps until
     * a transition is terminal or the step budget is spent, and returns the
     * undiscounted return and the number of steps taken; the table ends as the
     * learning steps of exactly those steps leave it.
     */
    method TrainEpisode(epsilon: real, initial: seq<real>, trace: seq<Transition>, draws: seq<Draw>)
      returns (G: real, sCounter: nat)
      requires Configured() && qTable.Valid() && |initial| >= qTable.stateLength
      requires Feasible(trace, draws)
      modifies qTable
      ensures qTable.Valid()
      ensures maxStepsPerEpisode <= 0 ==> sCounter == 0
      ensures maxStepsPerEpisode > 0 ==> 1 <= sCounter <= maxStepsPerEpisode
      ensures forall j :: 0 <= j < sCounter - 1 ==> !trace[j].done
      ensures 0 < sCounter < maxStepsPerEpisode ==> trace[sCounter - 1].done
      ensures sCounter <= |trace| && G == Return(trace, sCounter)
      ensures sCounter <= |draws|
      ensures qTable.entries == TableAfter(old(qTable.entries), epsilon, initial, trace, draws, sCounter)
    {
      G := 0.0;
      sCounter := 0;
      var s := initial;
      ghost var m0 := qTable.entries;
      var i := 0;
      while i < maxStepsPerEpisode
        invariant sCounter == i <= |trace| && i <= |draws|
        invariant maxStepsPerEpisode <= 0 ==> i == 0
        invariant maxStepsPerEpisode > 0 ==> i <= maxStepsPerEpisode
        invariant NoneDone(trace, i)
        invariant qTable.Valid() && s == StateAfter(initial, trace, i)
        invariant G == Return(trace, i)
        invariant qTable.entries == TableAfter(m0, epsilon, initial, trace, draws, i)
        decreases maxStepsPerEpisode - i
      {
        var t := trace[i];
        sCounter := sCounter + 1;
        G := G + t.reward;
        assert G == Return(trace, i + 1);
        TrainStep(m0, epsilon, initial, s, trace, draws, i);
        s := t.nextState;
        if t.done {
          assert sCounter == i + 1;
          assert G == Return(trace, sCounter);
          break;
        }
        i := i + 1;
      }
      NoneDoneAll(trace, i);
    }

    /** The greedy action for a state: the lowest index of the largest value, never exploring. */
    method Act(state: seq<real>) returns (action: nat)
      requires Configured() && qTable.Valid() && |state| >= qTable.stateLength
      modifies qTable
      ensures qTable.Valid()
      ensures action < nActions
      ensures action == ArgMax(qTable.ValuesAt(old(qTable.entries), state))
      ensures qTable.entries == qTable.Read(old(qTable.entries), state)
    {
      var vals := qTable.GetVals(state);
      action := ArgMax(vals[..]);
    }
  }
}
