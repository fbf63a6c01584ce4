# Quantized Q-table and episodic Q-learning, in Dafny

This project models the learning core of a tabular Q-learning agent for a
continuous-state environment (Lunar Lander):

- **The quantized Q-table** (`QuantizedQTable`). Every state dimension gets an
  evenly spaced grid of "pins" from its minimum to its maximum. A state is
  mapped to one bucket index per dimension: the count numpy's `digitize`
  reports, minus one, clipped to the level range. The dimension also snaps to
  that bucket's pin. The index tuple is joined with `#` into a cell key. A
  sparse dictionary maps each key to an entry: a getter count, a setter count,
  the cell's pin values and one value per action. Entries are created on first
  access with zeros. `get_val`, `get_vals` and `set_val` read or overwrite the
  action values and bump the counters.
- **The Q-learning agent** (`QLearningAgent`). It chooses actions
  epsilon-greedily, with first-index argmax for the greedy choice. `train_episode`
  runs a bounded episode that stops after the first terminal transition. It sums
  the raw rewards, counts the steps and applies the one-step TD(0) update
  `Q(s,a) <- Q(s,a) + alpha * (target - Q(s,a))` after every step.

The files:

- `quantizer.dfy` (module `Quantizer`): pins (`Linspace`), numpy's `digitize`
  for rising and for falling bins, `Clip`, the bucket index and vector
  quantization, with their bounds, clamping, right-open and idempotence lemmas.
- `state_id.dfy` (module `StateId`): the decimal rendering of an index and the
  `#`-joined key. A parser for keys proves that the key determines the index
  tuple.
- `qtable.dfy` (module `QTable`): table entries and the pure effect of a read
  and of a write on the table. The class `QuantizedQTable` has constant
  configuration fields and a mutable `entries` map. Its methods are proved
  against those effect functions.
- `q_learning.dfy` (module `QLearning`): argmax, max, the TD target and update,
  and the class `QLearningAgent`.
  - The environment is a trace of transitions, each holding the next state,
    the done flag and the reward.
  - The random source is a sequence of draws, each holding the uniform number
    and the random action.
  - `TableAfter` gives the table after the first k steps of an episode.
    `TrainEpisode` is proved to stop exactly where the source stops, to return
    the sum of the rewards of the steps taken, and to leave the table as
    `TableAfter` of that step count.

State values, pins and Q-values are modelled as mathematical reals.

## Model

| member | source | states |
|---|---|---|
| Quantizer.BroadcastLevels | quantized_q_table.py:26-29 | a single level count is replicated once per state dimension; a per-dimension list is kept as given |
| Quantizer.Linspace | quantized_q_table.py:64-66 | the pins of a dimension number `levels`, start at the minimum and end at the maximum (when there are at least two) |
| Quantizer.LinspaceMonotone | quantized_q_table.py:64-66 | pins rise when min <= max, rise strictly when min < max, and fall when min >= max |
| Quantizer.CountAtMost | quantized_q_table.py:76 | the digitize count for rising bins never exceeds the number of pins |
| Quantizer.CountAbove | quantized_q_table.py:76 | the digitize count for falling bins never exceeds the number of pins |
| Quantizer.Digitize | quantized_q_table.py:76 | numpy's digitize picks the rising-bins count when the pins never fall and the falling-bins count otherwise; the result is at most the number of pins (its meaning on each kind of pins is stated by `CountAtMostSplits` and `CountAboveSplits`) |
| Quantizer.CountAtMostSplits | quantized_q_table.py:76 | on rising pins, the counted pins are exactly a prefix of pins at most x, and every later pin exceeds x |
| Quantizer.CountAboveSplits | quantized_q_table.py:76 | on falling pins, the counted pins are exactly a prefix of pins above x, and every later pin is at most x |
| Quantizer.Clip | quantized_q_table.py:77 | numpy's clip: the result lies in [lo, hi], equals v inside the range and the nearer bound outside it |
| Quantizer.BucketIndex | quantized_q_table.py:76-77 | every bucket index lies in [0, levels - 1], for any real input |
| Quantizer.BucketClampsBelow | quantized_q_table.py:76-77 | a value below the first pin gets bucket 0 |
| Quantizer.BucketClampsAbove | quantized_q_table.py:76-77 | a value at or above the last pin gets bucket levels - 1 |
| Quantizer.BucketRightOpen | quantized_q_table.py:76-79 | from the first pin on, the bucket's pin is at most x and x lies below the next pin, if there is one |
| Quantizer.BucketOfPin | quantized_q_table.py:76-79 | on strictly rising pins, pin k falls into bucket k |
| Quantizer.QuantizeIndices | quantized_q_table.py:74-80 | one index per dimension, each below that dimension's level count |
| Quantizer.QuantizeValues | quantized_q_table.py:79 | one snapped value per dimension |
| Quantizer.QuantizeIdempotent | quantized_q_table.py:76-80 | on strictly rising grids, quantizing a snapped state gives the same indices and the same values again |
| Quantizer.QuantizeNotIdempotentOffRising | quantized_q_table.py:76-80 | off strictly rising pins quantization is not idempotent: on flat pins [1, 1, 1] the value 0 gets bucket 0 but its snapped value 1 gets bucket 2; on falling pins [5, 3, 1] the value 2 gets bucket 1 but its snapped value 3 gets bucket 0 |
| StateId.DigitChar | quantized_q_table.py:85 | a digit below ten renders as a decimal digit character |
| StateId.DigitValue | quantized_q_table.py:85 | a character reads back as a digit below ten |
| StateId.Decimal | quantized_q_table.py:85 | `str(int(i))` is non-empty and made of decimal digits only |
| StateId.ParseDecimalOfDecimal | quantized_q_table.py:85 | reading a rendered index back gives the index |
| StateId.FirstSeparator | quantized_q_table.py:85 | finds the first `#` of a key (or its end), with no `#` before it |
| StateId.Key | quantized_q_table.py:84-85 | the cell key: the indices' decimal renderings joined by `#`; `KeyShape`, `ParseKeyOfKey` and `KeyInjective` prove that it is empty only for the empty tuple and that it determines the index tuple |
| StateId.KeyShape | quantized_q_table.py:85 | a key is empty only for the empty tuple; its first field is the first index's decimal rendering |
| StateId.ParseKeyOfKey | quantized_q_table.py:85 | splitting a key at `#` and reading each field gives back the index tuple |
| StateId.KeyInjective | quantized_q_table.py:84-85 | two index tuples give the same key exactly when they are equal |
| QTable.FreshEntry | quantized_q_table.py:120-134 | a new entry has both counters 0, the snapped state values and every action value 0.0 |
| QTable.EntryOrFresh | quantized_q_table.py:99-103 | an access finds the stored entry when the key is present, else the fresh entry of the cell's snapped values; it always holds one value per action |
| QTable.AbsentCellStartsFresh | quantized_q_table.py:99-117 | on an absent cell an access finds 0.0 for every action; a read leaves Entry(1, 0, snapped, zeros) and a write leaves Entry(0, 1, snapped, zeros with the one action value replaced) |
| QTable.AfterRead | quantized_q_table.py:113-116 | a read leaves every entry with one value per action |
| QTable.AfterWrite | quantized_q_table.py:100-107 | a write leaves every entry with one value per action |
| QTable.AfterReadFrame | quantized_q_table.py:87-91 | a read adds at most the read key, changes no other entry, and bumps the getter count by exactly 1 and nothing else in the entry |
| QTable.AfterWriteFrame | quantized_q_table.py:100-107 | a write adds at most the written key and changes no other entry. It sets only the chosen action's value, keeps the other action values and the state values, bumps the setter count by 1 and keeps the getter count |
| QTable.CreateStatesPins | quantized_q_table.py:61-68 | each dimension's pins are the linspace of its min, max and level count, and the grid is well formed |
| QTable.QuantizedQTable.ValuesAt | quantized_q_table.py:143-147 | the action values an access finds, one per action |
| QTable.QuantizedQTable.Read | quantized_q_table.py:109-116 | table effect of get_val/get_vals; keeps the table well shaped |
| QTable.QuantizedQTable.Write | quantized_q_table.py:96-107 | table effect of set_val; keeps the table well shaped |
| QTable.QuantizedQTable.constructor | quantized_q_table.py:10-46 | stores the configuration and broadcasts the level count; the pins are the per-dimension linspaces; the table is the cached document, or empty when there is none |
| QTable.QuantizedQTable.QuantizeState | quantized_q_table.py:70-82 | the arrays filled by the loop hold the bucket index and the snapped pin of every dimension |
| QTable.QuantizedQTable.RandomizeEntry | quantized_q_table.py:120-134 | the entry built by the loops is the fresh entry of the snapped state |
| QTable.QuantizedQTable.OnAccessListener | quantized_q_table.py:87-94 | bumps the getter count when asked and the setter count when asked, and changes nothing else |
| QTable.QuantizedQTable.SetVal | quantized_q_table.py:96-107 | the new table is the write effect of the state's cell, action and value |
| QTable.QuantizedQTable.GetVal | quantized_q_table.py:109-118 | returns the action's value as stored, or 0.0 for a new cell; the new table is the read effect |
| QTable.QuantizedQTable.GetVals | quantized_q_table.py:136-151 | returns all action values of the state's cell in action order; the new table is the read effect |
| QTable.QuantizedQTable.SameCellIffSameIndices | quantized_q_table.py:97-98 | two states share a cell exactly when their bucket indices agree |
| QTable.QuantizedQTable.ReadKeepsValues | quantized_q_table.py:109-118 | after a read, every state sees the same action values as before |
| QTable.QuantizedQTable.WriteThenValues | quantized_q_table.py:96-107 | after set_val, the cell holds its old values with that one action replaced; a state in another cell sees its old values |
| QLearning.ArgMax | q_learning.py:17 | numpy's argmax: an index holding the maximum, and the lowest such index |
| QLearning.MaxValue | q_learning.py:44 | numpy's max: at least every element, and equal to one of them |
| QLearning.MaxValueAtArgMax | q_learning.py:17 | the greedy action's value is the maximum |
| QLearning.TdTarget | q_learning.py:40-44 | the TD target: the reward on a terminal step, else the reward plus the discount times the largest next-state value; `LearnUpdatesReadCell` proves it is taken from the next state's values as the table held them before the write |
| QLearning.TdUpdate | q_learning.py:46-49 | the new value qsa + alpha * (target - qsa); `TdUpdateMovesTowardTarget` proves it moves toward the target by the factor alpha, and `TdUpdateExample` checks the worked example |
| QLearning.TdUpdateMovesTowardTarget | q_learning.py:46-49 | with 0 <= alpha <= 1 the new value lies between the old value and the target; its distance to the target shrinks by 1 - alpha |
| QLearning.TdUpdateExample | q_learning.py:40-49 | alpha 0.1, discount 0.9, Q 0, reward 1, non-terminal, best next value 0: the new value is 0.1 |
| QLearning.ArgMaxExample | q_learning.py:59-60 | the greedy action for [0.1, 0.9, 0.2, 0.0] is 1 |
| QLearning.Return | q_learning.py:24-35 | G after n steps: the sum of the first n rewards; the `G == Return(trace, sCounter)` ensures of `TrainEpisode` ties it to the episode, and `ReturnSplits` proves it additive |
| QLearning.ReturnSplits | q_learning.py:24-35 | the return of the first n steps is the return of the first k plus the return of steps k..n |
| QLearning.NoneDoneAll | q_learning.py:54-55 | none of the first n transitions is terminal |
| QLearning.QLearningAgent.constructor | q_learning.py:5-12 | stores the action count, discount, table, alpha and step cap |
| QLearning.QLearningAgent.Choose | q_learning.py:14-21 | the chosen action is within [0, n_actions) and the table stays well shaped |
| QLearning.QLearningAgent.Learn | q_learning.py:37-50 | table effect of one learning step (read Q(s, a), read the next state's values, write the update); keeps the table well shaped |
| QLearning.QLearningAgent.StateAfter | q_learning.py:26-52 | the state after k steps: the reset state for k = 0, else the next state of step k; `StepUpdatesCurrentState` proves step k learns in this state before it moves on |
| QLearning.QLearningAgent.TableAfter | q_learning.py:29-52 | the table after the first k steps of an episode: the starting table for k = 0, else what step k - 1 left; stays well shaped |
| QLearning.QLearningAgent.TableAfterStep | q_learning.py:29-52 | the table step k leaves is the one its learning step leaves (the same function as `Learned`, kept as a separate layer for the proof); stays well shaped |
| QLearning.QLearningAgent.Learned | q_learning.py:37-52 | step k learns on the table its choice left, for the chosen action, in the state before the step (the state moves on only afterwards); stays well shaped |
| QLearning.QLearningAgent.ChoiceAt | q_learning.py:30 | step k chooses epsilon-greedily with its own draw, on the table after k steps, in the state after k steps; the action is within [0, n_actions) |
| QLearning.QLearningAgent.LearnUpdatesReadCell | q_learning.py:37-50 | the update writes qsa + alpha * (target - qsa) into the cell it read Q(s, a) from. The target is r when done, else r + discount * max of the next state's values as the table held them. Every other cell keeps its values |
| QLearning.QLearningAgent.StepUpdatesCurrentState | q_learning.py:37-52 | step k updates the cell of the state it started from, before moving on: that cell gets the TD(0) update of the chosen action |
| QLearning.QLearningAgent.EpsilonGreedy | q_learning.py:14-21 | draw > epsilon: the lowest index of the largest value of the state's cell; otherwise the draw's random action; always in [0, n_actions) |
| QLearning.QLearningAgent.LearnStep | q_learning.py:37-50 | the table ends as the learning step on the observed transition leaves it |
| QLearning.QLearningAgent.TrainStep | q_learning.py:30-50 | carries the table from its value after i steps to its value after i + 1 |
| QLearning.QLearningAgent.TrainEpisode | q_learning.py:23-57 | the step count is at most the step cap, and exactly the cap when no step is terminal and the cap is positive. The episode stops right after the first terminal transition. G is the sum of the rewards of exactly the steps taken, and the table is the table after those steps |
| QLearning.QLearningAgent.Act | q_learning.py:59-60 | the lowest index of the largest value of the state's cell; never explores |

## Left out

- Cache persistence is not modelled: `_load_from_cache`, `save_to_cache` and `export2pandas` are JSON and CSV file I/O. The table document found at construction is a constructor parameter (`cached`).
- The directory creation, the path joins and the console messages of the constructor are file-system and console effects, and are not modelled.
- `get_state_pins` only formats the pins for display, so it is not modelled.
- `lunar_lander.py` and `video_maker.py` are wrappers over the gymnasium environment, cv2 and moviepy, and are not part of this model. The environment appears only as the transition trace given to `TrainEpisode`, and its reset state as the `initial` parameter.
- `np.random.rand` and `np.random.randint` are not modelled. Their results are parameters: a `Draw` per step, holding the uniform number and the random action.
- IEEE-754 floating point is replaced by exact reals. This covers rounding in `np.linspace` and in the TD update, the float conversions and numpy's int/float index arrays.
- Display names for states and actions are dropped, together with the `state_names` and `action_names` constructor arguments and their defaults. An entry keeps its counters, state values and action values in separate fields by position. Any collision of names in the source's entry dictionary is therefore not modelled: two actions sharing a name, a state name equal to an action name, or a name equal to one of the two counter keys would share one slot there.
- An action id outside [0, n_actions) is a precondition violation. In the source an id in [-n_actions, -1] wraps to a name from the end of the action-name list; any other out-of-range id raises IndexError.
- A level count below 1 is excluded at construction. The source builds an empty pin list for 0 and fails at the first quantization; `np.linspace` rejects negative counts.
- Quantizer.BroadcastLevels: takes the scalar level count as an integer. The source also accepts a float and truncates it with `int()`.
- QTable.QuantizedQTable.constructor: requires `states_min_vals` and a per-dimension level list to be at least as long as `states_max_vals`. With a shorter list the source raises IndexError while building the pins; that error path is not modelled.
- QLearning.QLearningAgent.Configured: requires at least one action. With no actions the source raises ValueError at every step (`np.argmax` or `np.random.randint(0, 0)` when choosing, `np.max` when learning); that error path is not modelled.
- A cached table must hold one value per action in every entry. A document of another shape is not modelled.
- `use_access_counter` is stored and never consulted, as in the source, so the counters always count.
- QLearning.QLearningAgent.TrainEpisode: requires the trace and the draws to cover the step cap; a real environment supplies transitions on demand.
- QLearning.QLearningAgent.EpsilonGreedy: does not take the table as a parameter (the source's `q`): the agent's own table, which the source always passes, is used.
- The agent's `n_actions` (taken from the environment in the source) is required to equal the table's action count, and the state length of every state to cover the table's dimensions.
- `n_states` is stored by the source's constructor but never used; it is not modelled.
- QTable.QuantizedQTable.OnAccessListener: requires the key to be present; the source's callers always insert it first, and a missing key would raise.
- Quantizer.Digitize: its own contract only bounds the count by the number of pins; what the count means is stated separately by `CountAtMostSplits` (rising pins) and `CountAboveSplits` (falling pins).
- The bucket lemmas (clamping, right-open buckets, idempotence) are stated for rising pins (min <= max, strictly for idempotence). Falling pins (min > max) are modelled through numpy's rule for decreasing bins; only `CountAboveSplits` is stated about them.
