/**
  The `sub-table` component of main.js: the controls of one table, each a
  sequence of store mutations. Setting the range from the two clicks keeps
  the range well formed, which is what `SET_PATTERN_RANGE` relies on.
*/
module SubTable {
  import opened Wrappers
  import opened Timetable
  import opened Deriver
  import opened Pattern
  import opened Store

  class SubTable {
    /** The `id` prop: the id of the table this component shows. */
    const id: nat
    const store: Store

    constructor (id: nat, store: Store)
      ensures this.id == id && this.store == store
    {
      this.id := id;
      this.store := store;
    }

    /** The computed `table`: the store's table with this component's id. */
    function Current(): (t: Table)
      reads store, store.tables
      requires store.Has(id)
      ensures t in store.tables && t.id == id
    {
      store.tables[store.Position(id)]
    }

    /** `resetRange`: unset both ends, then recompute the flags. */
    method ResetRange()
      requires store.Valid() && store.Has(id)
      modifies Current()
      ensures store.Valid() && store.Has(id) && Current() == old(Current())
      ensures var t := Current();
        && t.start == None && t.end == None && RangeOk(t.start, t.end)
        && t.services == Detect(old(t.services), None, None)
        && t.target == old(t.target) && t.terminalStations == old(t.terminalStations) && t.bank == old(t.bank)
    {
      store.ResetPatternRange(id);
      store.SetPatternRange(id, None, None);
    }

    /** `setStart(index)`: a first click makes the range one service long. */
    method SetStart(index: nat)
      requires store.Valid() && store.Has(id)
      modifies Current()
      ensures store.Valid() && store.Has(id) && Current() == old(Current())
      ensures var t := Current();
        && t.start == Some(index) && t.end == Some(index) && RangeOk(t.start, t.end)
        && t.services == Detect(old(t.services), t.start, t.end)
        && t.target == old(t.target) && t.terminalStations == old(t.terminalStations) && t.bank == old(t.bank)
    {
      store.SetPatternRange(id, Some(index), Some(index));
    }

    /** `setEnd(index)`: a click after the start moves the end there, a
        click before it moves the start there; a click on the start itself,
        or any click while no start is set, changes nothing. */
    method SetEnd(index: nat)
      requires store.Valid() && store.Has(id) && RangeOk(Current().start, Current().end)
      modifies Current()
      ensures store.Valid() && store.Has(id) && Current() == old(Current())
      ensures RangeOk(Current().start, Current().end)
      ensures var t := Current(); var s := old(Current().start);
        && (s.Some? && index > s.value ==>
              t.start == s && t.end == Some(index) && t.services == Detect(old(t.services), t.start, t.end))
        && (s.Some? && index < s.value ==>
              t.start == Some(index) && t.end == old(t.end) && t.services == Detect(old(t.services), t.start, t.end))
        && (s.None? || index == s.value ==>
              t.start == old(t.start) && t.end == old(t.end) && t.services == old(t.services))
        && t.target == old(t.target) && t.terminalStations == old(t.terminalStations) && t.bank == old(t.bank)
    {
      var start := Current().start;
      if start.Some? && index > start.value {
        store.SetPatternRange(id, None, Some(index));
      } else if start.Some? && index < start.value {
        store.SetPatternRange(id, Some(index), None);
      }
    }

    /** `toggleTerminalStation(stationId)`: toggle the station, derive the
        contents afresh, then recompute the flags over the range as it was. */
    method ToggleTerminalStation(stationId: nat)
      requires store.Valid() && store.Has(id)
      requires stationId < |store.bank| && stationId != Current().target
      modifies Current()
      ensures store.Valid() && store.Has(id) && Current() == old(Current())
      ensures var t := Current();
        && t.terminalStations == ToggleTerminal(old(t.terminalStations), stationId)
        && WellFormed(store.bank, store.services, t.target, t.terminalStations)
        && t.bank == Derive(store.bank, store.services, t.target, t.terminalStations).bank
        && t.services == Detect(Derive(store.bank, store.services, t.target, t.terminalStations).services, t.start, t.end)
        && t.start == old(t.start) && t.end == old(t.end) && t.target == old(t.target)
    {
      store.ToggleTerminalStation(id, stationId);
      store.SetPatternRange(id, None, None);
    }

    /** `toggleTimeIgnore(serviceIndex, timeIndex)`: flip the cell's ignore
        flag, then recompute the flags over the range. */
    method ToggleTimeIgnore(serviceIndex: nat, timeIndex: nat)
      requires store.Valid() && store.Has(id)
      requires serviceIndex < |Current().services|
      requires timeIndex < |Current().services[serviceIndex].times|
      modifies Current()
      ensures store.Valid() && store.Has(id) && Current() == old(Current())
      ensures var t := Current();
        && t.services == Detect(FlipIgnore(old(t.services), serviceIndex, timeIndex), t.start, t.end)
        && t.start == old(t.start) && t.end == old(t.end)
        && t.target == old(t.target) && t.terminalStations == old(t.terminalStations) && t.bank == old(t.bank)
    {
      store.ToggleTimeIgnore(id, serviceIndex, timeIndex);
      store.SetPatternRange(id, None, None);
    }
  }
}
