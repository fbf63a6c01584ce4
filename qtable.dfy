/**
 * The sparse, lazily populated Q-table: a map from cell key to entry, where an
 * entry holds the access counters, the snapped state values of its cell and one
 * value per action. Entries are created on first access, zero-initialised.
 */
module QTable {
  import opened Quantizer
  import opened StateId

  datatype Option<T> = None | Some(value: T)

  /** One cell of the table: getter and setter counters, the cell's pin values, one value per action. */
  datatype Entry = Entry(getterCount: nat, setterCount: nat, stateValues: seq<real>, actionValues: seq<real>)

  type Table = map<string, Entry>

  /** Every entry holds exactly one value per configured action. */
  ghost predicate WellShaped(m: Table, nActions: nat)
  {
    forall id :: id in m ==> |m[id].actionValues| == nActions
  }

  /** The entry a new cell starts with: both counters 0, its pin values, every action value 0.0. */
  function FreshEntry(snapped: seq<real>, nActions: nat): (e: Entry)
    ensures e.getterCount == 0 && e.setterCount == 0
    ensures e.stateValues == snapped
    ensures |e.actionValues| == nActions
    ensures forall a :: 0 <= a < nActions ==> e.actionValues[a] == 0.0
  {
    Entry(0, 0, snapped, seq(nActions, _ => 0.0))
  }

  /** The entry an access finds: the stored one, or a fresh one when the cell is absent. */
  function EntryOrFresh(m: Table, id: string, snapped: seq<real>, nActions: nat): (e: Entry)
    requires WellShaped(m, nActions)
    ensures |e.actionValues| == nActions
    ensures id in m ==> e == m[id]
    ensures id !in m ==> e == FreshEntry(snapped, nActions)
  {
    if id in m then m[id] else FreshEntry(snapped, nActions)
  }

  /** The table after a read of cell `id` (get_val or get_vals). */
  function AfterRead(m: Table, id: string, snapped: seq<real>, nActions: nat): (m': Table)
    requires WellShaped(m, nActions)
    ensures WellShaped(m', nActions)
  {
    var e := EntryOrFresh(m, id, snapped, nActions);
    m[id := e.(getterCount := e.getterCount + 1)]
  }

  /** The table after writing `val` for `action` in cell `id` (set_val). */
  function AfterWrite(m: Table, id: string, snapped: seq<real>, nActions: nat, action: nat, val: real): (m': Table)
    requires WellShaped(m, nActions) && action < nActions
    ensures WellShaped(m', nActions)
  {
    var e := EntryOrFresh(m, id, snapped, nActions);
    m[id := Entry(e.getterCount, e.setterCount + 1, e.stateValues, e.actionValues[action := val])]
  }

  /**
   * Lazy creation: an access to an absent cell finds every action value 0.0; a
   * read leaves the cell as a fresh entry read once, and a write leaves it as a
   * fresh entry written once with the one action value replaced.
   */
  lemma AbsentCellStartsFresh(m: Table, id: string, snapped: seq<real>, nActions: nat, action: nat, val: real)
    requires WellShaped(m, nActions) && action < nActions && id !in m
    ensures EntryOrFresh(m, id, snapped, nActions).actionValues[action] == 0.0
    ensures AfterRead(m, id, snapped, nActions)[id] == Entry(1, 0, snapped, seq(nActions, _ => 0.0))
    ensures AfterWrite(m, id, snapped, nActions, action, val)[id]
      == Entry(0, 1, snapped, seq(nActions, _ => 0.0)[action := val])
  {
  }

  /**
   * A read leaves the cell present with its getter count one higher and nothing
   * else in it changed; every other cell stays as it was and none is removed.
   */
  lemma AfterReadFrame(m: Table, id: string, snapped: seq<real>, nActions: nat)
    requires WellShaped(m, nActions)
    ensures var m' := AfterRead(m, id, snapped, nActions);
      && m'.Keys == m.Keys + {id}
      && (forall k :: k in m && k != id ==> m'[k] == m[k])
      && var e := EntryOrFresh(m, id, snapped, nActions);
         m'[id] == Entry(e.getterCount + 1, e.setterCount, e.stateValues, e.actionValues)
  {
  }

  /**
   * A write leaves the cell present with the one action value replaced, the other
   * action values and the state values as before, the setter count one higher and
   * the getter count unchanged; every other cell stays as it was and none is removed.
   */
  lemma AfterWriteFrame(m: Table, id: string, snapped: seq<real>, nActions: nat, action: nat, val: real)
    requires WellShaped(m, nActions) && action < nActions
    ensures var m' := AfterWrite(m, id, snapped, nActions, action, val);
      && m'.Keys == m.Keys + {id}
      && (forall k :: k in m && k != id ==> m'[k] == m[k])
      && var e := EntryOrFresh(m, id, snapped, nActions);
         && |m'[id].actionValues| == nActions
         && m'[id].actionValues[action] == val
         && (forall b :: 0 <= b < nActions && b != action ==> m'[id].actionValues[b] == e.actionValues[b])
         && m'[id].stateValues == e.stateValues
         && m'[id].getterCount == e.getterCount
         && m'[id].setterCount == e.setterCount + 1
  {
  }

  /**
   * The pins of every dimension: levels[i] evenly spaced values from minVals[i]
   * to maxVals[i].
   */
  method CreateStatesPins(minVals: seq<real>, maxVals: seq<real>, levels: seq<int>, stateLength: nat)
    returns (pins: seq<seq<real>>)
    requires |minVals| >= stateLength && |maxVals| >= stateLength && |levels| >= stateLength
    requires forall i :: 0 <= i < stateLength ==> levels[i] >= 1
    ensures |pins| == stateLength
    ensures forall i :: 0 <= i < stateLength ==> pins[i] == Linspace(minVals[i], maxVals[i], levels[i] as nat)
    ensures GridValid(levels, pins)
  {
    pins := [];
    for i := 0 to stateLength
      invariant |pins| == i
      invariant forall j :: 0 <= j < i ==> pins[j] == Linspace(minVals[j], maxVals[j], levels[j] as nat)
      invariant GridValid(levels, pins)
    {
      var p := Linspace(minVals[i], maxVals[i], levels[i] as nat);
      LinspaceMonotone(minVals[i], maxVals[i], levels[i] as nat);
      pins := pins + [p];
    }
  }

  class QuantizedQTable {
    const stateLength: nat
    const statesMaxVals: seq<real>
    const statesMinVals: seq<real>
    const nActions: nat
    const nQuantizationLvls: seq<int>
    const statesPins: seq<seq<real>>
    /** Kept as configured; no operation consults it (the counters are always updated). */
    const useAccessCounter: bool
    var entries: Table

    /** The grid: one well-formed pin sequence per state dimension. */
    ghost predicate Configured()
    {
      |statesPins| == stateLength && GridValid(nQuantizationLvls, statesPins)
    }

    ghost predicate Valid()
      reads this
    {
      Configured() && WellShaped(entries, nActions)
    }

    /** The key of the cell a state falls into. */
    ghost function CellOf(state: seq<real>): string
      requires Configured() && |state| >= stateLength
    {
      Key(QuantizeIndices(nQuantizationLvls, statesPins, state))
    }

    /** The pin values a state snaps to. */
    ghost function SnapOf(state: seq<real>): seq<real>
      requires Configured() && |state| >= stateLength
    {
      QuantizeValues(nQuantizationLvls, statesPins, state)
    }

    /** The action values an access to a state's cell finds in table m, in action order. */
    ghost function ValuesAt(m: Table, state: seq<real>): (v: seq<real>)
      requires Configured() && |state| >= stateLength && WellShaped(m, nActions)
      ensures |v| == nActions
    {
      EntryOrFresh(m, CellOf(state), SnapOf(state), nActions).actionValues
    }

    /** Table m after get_val or get_vals on a state. */
    ghost function Read(m: Table, state: seq<real>): (m': Table)
      requires Configured() && |state| >= stateLength && WellShaped(m, nActions)
      ensures WellShaped(m', nActions)
    {
      AfterRead(m, CellOf(state), SnapOf(state), nActions)
    }

    /** Table m after set_val of `val` for `action` on a state. */
    ghost function Write(m: Table, state: seq<real>, action: nat, val: real): (m': Table)
      requires Configured() && |state| >= stateLength && WellShaped(m, nActions) && action < nActions
      ensures WellShaped(m', nActions)
    {
      AfterWrite(m, CellOf(state), SnapOf(state), nActions, action, val)
    }

    /**
     * A table over states of |statesMaxVals| dimensions. A scalar level count is
     * replicated to every dimension; `cached` stands for the table document found
     * at construction (None: no document, start empty).
     */
    constructor (statesMaxVals: seq<real>, statesMinVals: seq<real>, nActions: nat,
                 nQuantizationLvls: Levels, cached: Option<Table>, useAccessCounter: bool := false)
      requires |statesMinVals| >= |statesMaxVals|
      requires |BroadcastLevels(nQuantizationLvls, |statesMaxVals|)| >= |statesMaxVals|
      requires forall i :: 0 <= i < |statesMaxVals| ==> BroadcastLevels(nQuantizationLvls, |statesMaxVals|)[i] >= 1
      requires cached.Some? ==> WellShaped(cached.value, nActions)
      ensures Valid()
      ensures stateLength == |statesMaxVals| && this.nActions == nActions
      ensures this.statesMaxVals == statesMaxVals && this.statesMinVals == statesMinVals
      ensures this.nQuantizationLvls == BroadcastLevels(nQuantizationLvls, |statesMaxVals|)
      ensures forall i :: 0 <= i < stateLength ==>
        statesPins[i] == Linspace(statesMinVals[i], statesMaxVals[i], this.nQuantizationLvls[i] as nat)
      ensures entries == if cached.Some? then cached.value else map[]
      ensures this.useAccessCounter == useAccessCounter
    {
      var levels := BroadcastLevels(nQuantizationLvls, |statesMaxVals|);
      var pins := CreateStatesPins(statesMinVals, statesMaxVals, levels, |statesMaxVals|);
      this.stateLength := |statesMaxVals|;
      this.statesMaxVals := statesMaxVals;
      this.statesMinVals := statesMinVals;
      this.nActions := nActions;
      this.nQuantizationLvls := levels;
      this.statesPins := pins;
      this.useAccessCounter := useAccessCounter;
      this.entries := if cached.Some? then cached.value else map[];
    }

    /** The snapped pin value and the bucket index of every dimension of a state. */
    method QuantizeState(state: seq<real>) returns (quantizedState: array<real>, quantizedIndices: array<nat>)
      requires Configured() && |state| >= stateLength
      ensures fresh(quantizedState) && fresh(quantizedIndices)
      ensures quantizedIndices[..] == QuantizeIndices(nQuantizationLvls, statesPins, state)
      ensures quantizedState[..] == SnapOf(state)
    {
      quantizedState := new real[stateLength];
      quantizedIndices := new nat[stateLength];
      ghost var idx := QuantizeIndices(nQuantizationLvls, statesPins, state);
      ghost var snapped := SnapOf(state);
      for i := 0 to stateLength
        invariant forall j :: 0 <= j < i ==> quantizedIndices[j] == idx[j] && quantizedState[j] == snapped[j]
      {
        var statePinI := statesPins[i];
        var indicesI := Digitize(state[i], statePinI) as int - 1;
        indicesI := Clip(indicesI, 0, nQuantizationLvls[i] - 1);
        quantizedState[i] := statePinI[indicesI];
        quantizedIndices[i] := indicesI;
      }
    }

    /** A fresh entry for a cell with the given pin values. */
    method RandomizeEntry(quantizedState: seq<real>) returns (e: Entry)
      ensures e == FreshEntry(quantizedState, nActions)
    {
      var stateValues: seq<real> := [];
      for i := 0 to |quantizedState|
        invariant stateValues == quantizedState[..i]
      {
        stateValues := stateValues + [quantizedState[i]];
      }
      var actionValues: seq<real> := [];
      for i := 0 to nActions
        invariant |actionValues| == i
        invariant forall j :: 0 <= j < i ==> actionValues[j] == 0.0
      {
        actionValues := actionValues + [0.0];
      }
      e := Entry(0, 0, stateValues, actionValues);
    }

    /** Bumps the getter and/or setter count of an existing cell. */
    method OnAccessListener(stateId: string, applyGet: bool, applySet: bool)
      requires Valid() && stateId in entries
      modifies this
      ensures Valid()
      ensures entries == old(entries)[stateId := old(entries)[stateId].(
        getterCount := old(entries)[stateId].getterCount + (if applyGet then 1 else 0),
        setterCount := old(entries)[stateId].setterCount + (if applySet then 1 else 0))]
    {
      var accessed := entries[stateId];
      if applyGet {
        accessed := accessed.(getterCount := accessed.getterCount + 1);
      }
      if applySet {
        accessed := accessed.(setterCount := accessed.setterCount + 1);
      }
      entries := entries[stateId := accessed];
    }

    /** Writes `val` as the value of `actionId` in the state's cell, creating the cell if absent. */
    method SetVal(state: seq<real>, actionId: nat, val: real)
      requires Valid() && |state| >= stateLength && actionId < nActions
      modifies this
      ensures Valid()
      ensures entries == Write(old(entries), state, actionId, val)
    {
      var quantizedState, quantizedIndices := QuantizeState(state);
      var stateId := Key(quantizedIndices[..]);
      if stateId !in entries {
        var accessed := RandomizeEntry(quantizedState[..]);
        accessed := accessed.(actionValues := accessed.actionValues[actionId := val]);
        entries := entries[stateId := accessed];
      } else {
        var accessed := entries[stateId];
        entries := entries[stateId := accessed.(actionValues := accessed.actionValues[actionId := val])];
      }
      OnAccessListener(stateId, false, true);
    }

    /** The value of `actionId` in the state's cell, creating the cell if absent. */
    method GetVal(state: seq<real>, actionId: nat) returns (v: real)
      requires Valid() && |state| >= stateLength && actionId < nActions
      modifies this
      ensures Valid()
      ensures v == ValuesAt(old(entries), state)[actionId]
      ensures entries == Read(old(entries), state)
    {
      var quantizedState, quantizedIndices := QuantizeState(state);
      var stateId := Key(quantizedIndices[..]);
      if stateId !in entries {
        var accessed := RandomizeEntry(quantizedState[..]);
        entries := entries[stateId := accessed];
      }
      OnAccessListener(stateId, true, false);
      v := entries[stateId].actionValues[actionId];
    }

    /** All action values of the state's cell in action order, creating the cell if absent. */
    method GetVals(state: seq<real>) returns (vals: array<real>)
      requires Valid() && |state| >= stateLength
      modifies this
      ensures Valid()
      ensures fresh(vals)
      ensures vals[..] == ValuesAt(old(entries), state)
      ensures entries == Read(old(entries), state)
    {
      var quantizedState, quantizedIndices := QuantizeState(state);
      var stateId := Key(quantizedIndices[..]);
      if stateId !in entries {
        var accessed := RandomizeEntry(quantizedState[..]);
        entries := entries[stateId := accessed];
      }
      var accessed := entries[stateId];
      vals := new real[nActions];
      for i := 0 to nActions
        modifies vals
        invariant forall j :: 0 <= j < i ==> vals[j] == accessed.actionValues[j]
      {
        vals[i] := accessed.actionValues[i];
      }
      OnAccessListener(stateId, true, false);
    }

    /** Two states share a cell exactly when they have the same bucket indices. */
    lemma SameCellIffSameIndices(s: seq<real>, t: seq<real>)
      requires Configured() && |s| >= stateLength && |t| >= stateLength
      ensures CellOf(s) == CellOf(t) <==>
        QuantizeIndices(nQuantizationLvls, statesPins, s) == QuantizeIndices(nQuantizationLvls, statesPins, t)
    {
      KeyInjective(QuantizeIndices(nQuantizationLvls, statesPins, s), QuantizeIndices(nQuantizationLvls, statesPins, t));
    }

    /** A read changes no action value anywhere: every state sees the same values afterwards. */
    lemma ReadKeepsValues(m: Table, state: seq<real>, other: seq<real>)
      requires Configured() && WellShaped(m, nActions)
      requires |state| >= stateLength && |other| >= stateLength
      ensures ValuesAt(Read(m, state), other) == ValuesAt(m, other)
    {
      AfterReadFrame(m, CellOf(state), SnapOf(state), nActions);
    }

    /**
     * After a write, the written state's cell holds the old values with the one
     * action replaced, and every state in another cell sees its old values.
     */
    lemma WriteThenValues(m: Table, state: seq<real>, action: nat, val: real, other: seq<real>)
      requires Configured() && WellShaped(m, nActions) && action < nActions
      requires |state| >= stateLength && |other| >= stateLength
      ensures ValuesAt(Write(m, state, action, val), state) == ValuesAt(m, state)[action := val]
      ensures CellOf(other) != CellOf(state) ==>
        ValuesAt(Write(m, state, action, val), other) == ValuesAt(m, other)
    {
      AfterWriteFrame(m, CellOf(state), SnapOf(state), nActions, action, val);
      var before := ValuesAt(m, state);
      var after := ValuesAt(Write(m, state, action, val), state);
      assert |after| == |before|;
      forall b | 0 <= b < nActions ensures after[b] == before[action := val][b] {
      }
    }
  }
}
