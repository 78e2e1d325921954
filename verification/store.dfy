/**
  The table state of store.js: a `Table` per sub-table with its terminal
  stations, derived contents and pattern range, and the `Store` holding the
  loaded bank and services, the list of tables and the running table id.
  The mutations update them in place.
*/
module Store {
  import opened Wrappers
  import opened Seqs
  import opened TimeParser
  import opened Timetable
  import opened Deriver
  import opened Pattern

  /** `start` and `end` are both unset, or both set with `start <= end`:
      the ranges the `sub-table` component produces. */
  predicate RangeOk(start: Option<nat>, end: Option<nat>)
  {
    && (start.None? <==> end.None?)
    && RangeOrdered(start, end)
  }

  /** What the detector needs of a range: when both ends are set they are in
      order (a reversed range would make the block loop step backwards). */
  predicate RangeOrdered(start: Option<nat>, end: Option<nat>)
  {
    start.Some? && end.Some? ==> start.value <= end.value
  }

  /** `if (typeof x === 'number') Vue.set(table, 'x', x)`. */
  function Updated(current: Option<nat>, given: Option<nat>): (r: Option<nat>)
    ensures given.Some? ==> r == given
    ensures given.None? ==> r == current
  {
    if given.Some? then given else current
  }

  /** `TOGGLE_TIME_IGNORE`'s write: flip `isIgnored` of one cell. */
  function FlipIgnore(ss: seq<Service>, si: nat, ti: nat): (r: seq<Service>)
    requires si < |ss| && ti < |ss[si].times|
    ensures |r| == |ss| && forall k :: 0 <= k < |ss| && k != si ==> r[k] == ss[k]
    ensures r[si].isPatternMatching == ss[si].isPatternMatching && |r[si].times| == |ss[si].times|
    ensures forall t :: 0 <= t < |ss[si].times| && t != ti ==> r[si].times[t] == ss[si].times[t]
    ensures r[si].times[ti].time == ss[si].times[ti].time
    ensures r[si].times[ti].isInvalid == ss[si].times[ti].isInvalid
    ensures r[si].times[ti].isIgnored == !ss[si].times[ti].isIgnored
  {
    var c := ss[si].times[ti];
    ss[si := ss[si].(times := ss[si].times[ti := c.(isIgnored := !c.isIgnored)])]
  }

  /** Toggling the same cell twice restores the services. */
  lemma FlipIgnoreTwice(ss: seq<Service>, si: nat, ti: nat)
    requires si < |ss| && ti < |ss[si].times|
    ensures FlipIgnore(FlipIgnore(ss, si, ti), si, ti) == ss
  {
    var once := FlipIgnore(ss, si, ti);
    var twice := FlipIgnore(once, si, ti);
    assert twice[si].times == ss[si].times;
    assert twice[si] == ss[si];
  }

  /** Flipping a cell keeps every service's width. */
  lemma FlipIgnoreRectangular(ss: seq<Service>, si: nat, ti: nat, width: nat)
    requires si < |ss| && ti < |ss[si].times| && Rectangular(ss, width)
    ensures Rectangular(FlipIgnore(ss, si, ti), width)
  {}

  /** Services of one width have the same width. */
  lemma RectangularSameWidth(ss: seq<Service>, width: nat)
    requires Rectangular(ss, width)
    ensures SameWidth(ss)
  {}

  /** The detector keeps a table rectangular. */
  lemma DetectRectangular(ss: seq<Service>, width: nat, start: Option<nat>, end: Option<nat>)
    requires Rectangular(ss, width) && RangeOrdered(start, end)
    ensures SameWidth(ss) && Rectangular(Detect(ss, start, end), width)
  {
    DetectKeepsCells(ss, start, end);
  }

  class Table {
    var id: nat
    var name: string
    var stationType: string
    var target: nat
    var terminalStations: seq<nat>
    var bank: seq<Station>
    var services: seq<Service>
    var start: Option<nat>
    var end: Option<nat>

    /** Every service has a cell per station and the range is in order. */
    predicate Valid()
      reads this
    {
      Rectangular(services, |bank|) && RangeOrdered(start, end)
    }

    /** The table shows the contents `calculateTableContents` derives for
        its target and terminal stations from the loaded file. */
    predicate Shows(fullBank: seq<Station>, allServices: seq<Service>)
      reads this
    {
      && WellFormed(fullBank, allServices, target, terminalStations)
      && bank == Derive(fullBank, allServices, target, terminalStations).bank
      && services == Derive(fullBank, allServices, target, terminalStations).services
    }

    /** The table object `ADD_TABLE` receives, before its contents are derived. */
    constructor (name: string, stationType: string, target: nat)
      ensures this.name == name && this.stationType == stationType && this.target == target
      ensures id == 0 && terminalStations == [] && bank == [] && services == []
      ensures start == None && end == None
      ensures Valid()
    {
      id := 0;
      this.name := name;
      this.stationType := stationType;
      this.target := target;
      terminalStations := [];
      bank := [];
      services := [];
      start := None;
      end := None;
    }

    /** The part of `ADD_TABLE` that fills in the table: the default terminal
        stations for its target, the given id, and the contents derived from
        the loaded stations and services. */
    method Fill(fullBank: seq<Station>, allServices: seq<Service>, newId: nat)
      requires Valid() && IdsArePositions(fullBank) && Rectangular(allServices, |fullBank|) && target < |fullBank|
      modifies this
      ensures Valid() && Shows(fullBank, allServices)
      ensures id == newId && terminalStations == DefaultTerminals(fullBank, target)
      ensures name == old(name) && stationType == old(stationType) && target == old(target)
      ensures start == old(start) && end == old(end)
    {
      DefaultTerminalsWellFormed(fullBank, allServices, target);
      terminalStations := DefaultTerminals(fullBank, target);
      id := newId;
      DeriveCells(fullBank, allServices, target, terminalStations);
      var contents := Derive(fullBank, allServices, target, terminalStations);
      bank := contents.bank;
      services := contents.services;
    }

    /** `SET_PATTERN_RANGE` on this table: take the ends that are given, then
        recompute every flag of the services. */
    method SetPatternRange(newStart: Option<nat>, newEnd: Option<nat>)
      requires Valid()
      requires RangeOrdered(Updated(start, newStart), Updated(end, newEnd))
      modifies this
      ensures Valid()
      ensures start == Updated(old(start), newStart) && end == Updated(old(end), newEnd)
      ensures services == Detect(old(services), start, end)
      ensures id == old(id) && name == old(name) && stationType == old(stationType)
      ensures target == old(target) && terminalStations == old(terminalStations) && bank == old(bank)
    {
      start := Updated(start, newStart);
      end := Updated(end, newEnd);
      DetectRectangular(services, |bank|, start, end);
      services := DetectPatterns(services, start, end);
    }

    /** `RESET_PATTERN_RANGE`: forget the range; the flags stay as they are. */
    method ResetPatternRange()
      requires Valid()
      modifies this
      ensures Valid()
      ensures start == None && end == None
      ensures services == old(services)
      ensures id == old(id) && name == old(name) && stationType == old(stationType)
      ensures target == old(target) && terminalStations == old(terminalStations) && bank == old(bank)
    {
      start := None;
      end := None;
    }

    /** `TOGGLE_TIME_IGNORE`: flip the ignore flag of one cell. */
    method ToggleTimeIgnore(serviceIndex: nat, timeIndex: nat)
      requires Valid() && serviceIndex < |services| && timeIndex < |services[serviceIndex].times|
      modifies this
      ensures Valid()
      ensures services == FlipIgnore(old(services), serviceIndex, timeIndex)
      ensures start == old(start) && end == old(end)
      ensures id == old(id) && name == old(name) && stationType == old(stationType)
      ensures target == old(target) && terminalStations == old(terminalStations) && bank == old(bank)
    {
      FlipIgnoreRectangular(services, serviceIndex, timeIndex, |bank|);
      services := FlipIgnore(services, serviceIndex, timeIndex);
    }

    /** `TOGGLE_TERMINAL_STATION` on this table: toggle the station in the
        terminal list and derive the contents afresh. The range is kept, even
        though it indexes the old service list. */
    method ToggleTerminalStation(stationId: nat, fullBank: seq<Station>, allServices: seq<Service>)
      requires Valid() && WellFormed(fullBank, allServices, target, terminalStations)
      requires stationId < |fullBank| && stationId != target
      modifies this
      ensures Valid() && WellFormed(fullBank, allServices, target, terminalStations)
      ensures terminalStations == ToggleTerminal(old(terminalStations), stationId)
      ensures bank == Derive(fullBank, allServices, target, terminalStations).bank
      ensures services == Derive(fullBank, allServices, target, terminalStations).services
      ensures start == old(start) && end == old(end)
      ensures id == old(id) && name == old(name) && stationType == old(stationType) && target == old(target)
    {
      ToggleWellFormed(fullBank, allServices, target, terminalStations, stationId);
      terminalStations := ToggleTerminal(terminalStations, stationId);
      DeriveCells(fullBank, allServices, target, terminalStations);
      var contents := Derive(fullBank, allServices, target, terminalStations);
      bank := contents.bank;
      services := contents.services;
    }
  }

  /** The ids of the tables, in order. */
  function TableIds(ts: seq<Table>): (r: seq<nat>)
    reads ts
    ensures |r| == |ts| && forall i :: 0 <= i < |ts| ==> r[i] == ts[i].id
  {
    seq(|ts|, i requires 0 <= i < |ts| reads ts => ts[i].id)
  }

  /** `state.tables.find(t => t.id === tableId)`, as a position among the
      tables' ids: the first with that id, or `|ids|` when there is none. */
  function FindId(ids: seq<nat>, tableId: nat): (i: nat)
    ensures i <= |ids|
    ensures i < |ids| ==> ids[i] == tableId
    ensures forall j :: 0 <= j < i ==> ids[j] != tableId
  {
    if ids == [] then 0
    else if ids[0] == tableId then 0
    else 1 + FindId(ids[1..], tableId)
  }

  class Store {
    var bank: seq<Station>
    var services: seq<Service>
    var tables: seq<Table>
    /** The module-level counter `id` of store.js, the next table id. */
    var nextId: nat

    /** The loaded file is well formed, the tables have distinct ids below
        `nextId`, and every table is valid and built from the store's
        stations. */
    predicate Valid()
      reads this, tables
    {
      && IdsArePositions(bank) && Rectangular(services, |bank|)
      && (forall i, j :: 0 <= i < j < |tables| ==> tables[i].id != tables[j].id)
      && (forall i :: 0 <= i < |tables| ==> tables[i].id < nextId)
      && (forall i :: 0 <= i < |tables| ==>
            tables[i].Valid() && WellFormed(bank, services, tables[i].target, tables[i].terminalStations))
    }

    /** `LOAD_BANK` and `LOAD_SERVICES` on the initial state. */
    constructor (bank: seq<Station>, services: seq<Service>)
      requires IdsArePositions(bank) && Rectangular(services, |bank|)
      ensures Valid()
      ensures this.bank == bank && this.services == services && tables == [] && nextId == 0
    {
      this.bank := bank;
      this.services := services;
      tables := [];
      nextId := 0;
    }

    /** The position of the table with id `tableId`. */
    function Position(tableId: nat): (i: nat)
      reads this, tables
      ensures i <= |tables|
    {
      FindId(TableIds(tables), tableId)
    }

    /** A table with id `tableId` exists. */
    predicate Has(tableId: nat)
      reads this, tables
    {
      Position(tableId) < |tables|
    }

    /** `ADD_TABLE`: give the table its default terminal stations and the
        next id, append it, and derive its contents. */
    method AddTable(table: Table)
      requires Valid() && table !in tables && table.Valid() && table.target < |bank|
      modifies this, table
      ensures Valid()
      ensures tables == old(tables) + [table] && nextId == old(nextId) + 1
      ensures bank == old(bank) && services == old(services)
      ensures table.id == old(nextId)
      ensures table.terminalStations == DefaultTerminals(bank, table.target)
      ensures table.Shows(bank, services)
      ensures table.name == old(table.name) && table.stationType == old(table.stationType)
      ensures table.target == old(table.target) && table.start == old(table.start) && table.end == old(table.end)
    {
      table.Fill(bank, services, nextId);
      Append(table);
    }

    /** The second half of `ADD_TABLE`: push a filled-in table carrying the
        next id, and advance the counter. */
    method Append(table: Table)
      requires Valid() && table !in tables && table.Valid() && table.id == nextId
      requires WellFormed(bank, services, table.target, table.terminalStations)
      modifies this
      ensures Valid()
      ensures tables == old(tables) + [table] && nextId == old(nextId) + 1
      ensures bank == old(bank) && services == old(services)
    {
      nextId := nextId + 1;
      tables := tables + [table];
    }

    /** `SET_PATTERN_RANGE` on the table with id `tableId`. */
    method SetPatternRange(tableId: nat, start: Option<nat>, end: Option<nat>)
      requires Valid() && Has(tableId)
      requires RangeOrdered(Updated(tables[Position(tableId)].start, start), Updated(tables[Position(tableId)].end, end))
      modifies tables[Position(tableId)]
      ensures Valid() && Has(tableId) && Position(tableId) == old(Position(tableId))
      ensures var t := tables[Position(tableId)];
        && t.start == Updated(old(t.start), start) && t.end == Updated(old(t.end), end)
        && t.services == Detect(old(t.services), t.start, t.end)
        && t.target == old(t.target) && t.terminalStations == old(t.terminalStations) && t.bank == old(t.bank)
    {
      var t := tables[Position(tableId)];
      t.SetPatternRange(start, end);
      assert TableIds(tables) == old(TableIds(tables));
    }

    /** `RESET_PATTERN_RANGE` on the table with id `tableId`. */
    method ResetPatternRange(tableId: nat)
      requires Valid() && Has(tableId)
      modifies tables[Position(tableId)]
      ensures Valid() && Has(tableId) && Position(tableId) == old(Position(tableId))
      ensures var t := tables[Position(tableId)];
        && t.start == None && t.end == None && t.services == old(t.services)
        && t.target == old(t.target) && t.terminalStations == old(t.terminalStations) && t.bank == old(t.bank)
    {
      var t := tables[Position(tableId)];
      t.ResetPatternRange();
      assert TableIds(tables) == old(TableIds(tables));
    }

    /** `TOGGLE_TIME_IGNORE` on the table with id `tableId`. */
    method ToggleTimeIgnore(tableId: nat, serviceIndex: nat, timeIndex: nat)
      requires Valid() && Has(tableId)
      requires serviceIndex < |tables[Position(tableId)].services|
      requires timeIndex < |tables[Position(tableId)].services[serviceIndex].times|
      modifies tables[Position(tableId)]
      ensures Valid() && Has(tableId) && Position(tableId) == old(Position(tableId))
      ensures var t := tables[Position(tableId)];
        && t.services == FlipIgnore(old(t.services), serviceIndex, timeIndex)
        && t.start == old(t.start) && t.end == old(t.end)
        && t.target == old(t.target) && t.terminalStations == old(t.terminalStations) && t.bank == old(t.bank)
    {
      var t := tables[Position(tableId)];
      t.ToggleTimeIgnore(serviceIndex, timeIndex);
      assert TableIds(tables) == old(TableIds(tables));
    }

    /** `TOGGLE_TERMINAL_STATION` on the table with id `tableId`. */
    method ToggleTerminalStation(tableId: nat, stationId: nat)
      requires Valid() && Has(tableId)
      requires stationId < |bank| && stationId != tables[Position(tableId)].target
      modifies tables[Position(tableId)]
      ensures Valid() && Has(tableId) && Position(tableId) == old(Position(tableId))
      ensures var t := tables[Position(tableId)];
        && t.terminalStations == ToggleTerminal(old(t.terminalStations), stationId)
        && t.bank == Derive(bank, services, t.target, t.terminalStations).bank
        && t.services == Derive(bank, services, t.target, t.terminalStations).services
        && t.start == old(t.start) && t.end == old(t.end) && t.target == old(t.target)
    {
      var t := tables[Position(tableId)];
      t.ToggleTerminalStation(stationId, bank, services);
      assert TableIds(tables) == old(TableIds(tables));
    }
  }
}
