/**
  The pattern detector of store.js (`SET_PATTERN_RANGE`), as functions on a
  table's service list. The user picks a range `start..end` of services, the
  pattern's first repetition; every later block of `breadth` services is
  compared cell by cell with that range, by minute only. Services after the
  range are marked as following the pattern until the first block holding a
  mismatch; a run that is too short is dropped, and the last block of a long
  run is kept in the printed table for context.
*/
module Pattern {
  import opened Wrappers
  import opened Seqs
  import opened TimeParser
  import opened Timetable

  /** Every service has the same number of cells. */
  predicate SameWidth(ss: seq<Service>)
  {
    forall i, j :: 0 <= i < |ss| && 0 <= j < |ss| ==> |ss[i].times| == |ss[j].times|
  }

  /** The fields the detector never writes: every cell's time and ignore flag. */
  predicate SameCells(a: seq<Service>, b: seq<Service>)
  {
    && |a| == |b|
    && (forall i :: 0 <= i < |a| ==> |a[i].times| == |b[i].times|)
    && forall i, t :: 0 <= i < |a| && 0 <= t < |a[i].times| ==>
         a[i].times[t].time == b[i].times[t].time && a[i].times[t].isIgnored == b[i].times[t].isIgnored
  }

  /** Every `isPatternMatching` and `isInvalid` flag is clear. */
  predicate FlagsClear(ss: seq<Service>)
  {
    forall i :: 0 <= i < |ss| ==>
      !ss[i].isPatternMatching && forall t :: 0 <= t < |ss[i].times| ==> !ss[i].times[t].isInvalid
  }

  function ClearService(s: Service): Service
  {
    Service(seq(|s.times|, t requires 0 <= t < |s.times| => s.times[t].(isInvalid := false)), false)
  }

  /** The first loop of `SET_PATTERN_RANGE`: clear both flags everywhere. */
  function Reset(ss: seq<Service>): (r: seq<Service>)
    ensures SameCells(ss, r) && FlagsClear(r)
  {
    seq(|ss|, i requires 0 <= i < |ss| => ClearService(ss[i]))
  }

  /** The number of pattern blocks' worth of services, `end - start + 1`. */
  function Breadth(start: nat, end: nat): nat
    requires start <= end
  {
    end - start + 1
  }

  /** The position of service `i` inside its block; blocks of `b` services
      start at `end + 1`. */
  function Offset(i: nat, end: nat, b: nat): (o: nat)
    requires end < i && 0 < b
    ensures o < b && o < i - end
    decreases i
  {
    if i - end - 1 < b then i - end - 1 else Offset(i - b, end, b)
  }

  /** The first service of the block holding service `i`. */
  function BlockStart(i: nat, end: nat, b: nat): (g: nat)
    requires end < i && 0 < b
    ensures end < g <= i < g + b
  {
    i - Offset(i, end, b)
  }

  /** The baseline service service `i` is compared with, `start + offset`. */
  function Baseline(i: nat, start: nat, end: nat): (j: nat)
    requires start <= end < i
    ensures start <= j <= end
  {
    start + Offset(i, end, Breadth(start, end))
  }

  /** The per-cell test: an ignored cell always passes; otherwise a cell fails
      when the baseline cell has a minute and this cell is empty or has a
      different minute, or when the baseline cell has none and this cell is
      not empty. Hours are never compared. */
  predicate CellMismatch(c: Cell, base: Cell)
  {
    && !c.isIgnored
    && match ExpectedMinutes(base)
       case Some(m) => c.time.isEmpty || c.time.m != Some(m)
       case None => !c.time.isEmpty
  }

  /** `compareTime.isEmpty ? null : compareTime.m`. */
  function ExpectedMinutes(base: Cell): (r: Option<nat>)
    ensures r.Some? ==> !base.time.isEmpty && base.time.m == r
  {
    if base.time.isEmpty then None else base.time.m
  }

  /** Some cell of service `s` fails against the same station's cell of `base`. */
  predicate ServiceFails(s: Service, base: Service)
    requires |s.times| == |base.times|
  {
    exists t :: 0 <= t < |s.times| && CellMismatch(s.times[t], base.times[t])
  }

  /** Some cell of service `i` fails against its baseline service. */
  predicate ServiceMismatch(ss: seq<Service>, start: nat, end: nat, i: nat)
    requires SameWidth(ss) && start <= end < i < |ss|
  {
    ServiceFails(ss[i], ss[Baseline(i, start, end)])
  }

  /** No service after the range, up to the end of `i`'s block, fails: the
      sticky `patternBroken` is still false once `i`'s block is checked. */
  predicate Unbroken(ss: seq<Service>, start: nat, end: nat, i: nat)
    requires SameWidth(ss) && start <= end < i
  {
    forall j :: end < j < |ss| && j < BlockStart(i, end, Breadth(start, end)) + Breadth(start, end) ==>
      !ServiceMismatch(ss, start, end, j)
  }

  /** The cells of service `s` checked against those of `base`: each failing
      cell gains `isInvalid`. */
  function MarkCells(s: Service, base: Service): seq<Cell>
    requires |s.times| == |base.times|
  {
    seq(|s.times|, t requires 0 <= t < |s.times| =>
      s.times[t].(isInvalid := s.times[t].isInvalid || CellMismatch(s.times[t], base.times[t])))
  }

  /** Service `i` after the block loop: its cells checked against its baseline
      service, and marked when the pattern is unbroken so far. */
  function CheckedService(ss: seq<Service>, start: nat, end: nat, i: nat): Service
    requires SameWidth(ss) && start <= end < i < |ss|
  {
    Service(MarkCells(ss[i], ss[Baseline(i, start, end)]), Unbroken(ss, start, end, i))
  }

  /** The block loop of `SET_PATTERN_RANGE`: services up to `end` are left
      alone, every later one is checked. */
  function Checked(ss: seq<Service>, start: nat, end: nat): (r: seq<Service>)
    requires SameWidth(ss) && start <= end
  {
    seq(|ss|, i requires 0 <= i < |ss| => if i <= end then ss[i] else CheckedService(ss, start, end, i))
  }

  predicate Marked(ss: seq<Service>, i: nat)
    requires i < |ss|
  {
    ss[i].isPatternMatching
  }

  /** The positions of the marked services, `services.filter(s => s.isPatternMatching)`. */
  function MarkedPositions(ss: seq<Service>): seq<nat>
  {
    Positions(|ss|, MarkedSet(ss))
  }

  function MarkedSet(ss: seq<Service>): set<nat>
  {
    set i: nat | i < |ss| && Marked(ss, i)
  }

  /** The final rule: a run of at most `3 * b` marked services is unmarked
      entirely; otherwise only its last `b` services are unmarked. */
  function Trimmed(ss: seq<Service>, b: nat): (r: seq<Service>)
    requires 0 < b
    ensures SameCells(ss, r)
  {
    var pm := MarkedPositions(ss);
    if |pm| <= 3 * b then
      seq(|ss|, i requires 0 <= i < |ss| => ss[i].(isPatternMatching := false))
    else
      var cut := pm[|pm| - b];
      seq(|ss|, i requires 0 <= i < |ss| => ss[i].(isPatternMatching := ss[i].isPatternMatching && i < cut))
  }

  /** `SET_PATTERN_RANGE` once the range is known: reset, check, trim. */
  function Evaluate(ss: seq<Service>, start: nat, end: nat): seq<Service>
    requires SameWidth(ss) && start <= end
  {
    Trimmed(Checked(Reset(ss), start, end), Breadth(start, end))
  }

  /** `SET_PATTERN_RANGE`'s effect on the services for a range that may be unset. */
  function Detect(ss: seq<Service>, start: Option<nat>, end: Option<nat>): seq<Service>
    requires SameWidth(ss)
    requires start.Some? && end.Some? ==> start.value <= end.value
  {
    if start.None? || end.None? then Reset(ss) else Evaluate(ss, start.value, end.value)
  }

  // Block arithmetic: blocks of `b` services tile everything after `end`.

  /** Inside a block, the offset counts up from zero. */
  lemma {:induction false} OffsetInBlock(g: nat, o: nat, end: nat, b: nat)
    requires end < g && 0 < b && Offset(g, end, b) == 0 && o < b
    ensures Offset(g + o, end, b) == o
    decreases g
  {
    if g - end - 1 >= b {
      OffsetInBlock(g - b, o, end, b);
    }
  }

  /** The service after a block starts the next block. */
  lemma NextBlock(g: nat, end: nat, b: nat)
    requires end < g && 0 < b && Offset(g, end, b) == 0
    ensures Offset(g + b, end, b) == 0
  {}

  /** A block's first service has offset zero. */
  lemma {:induction false} BlockStartOffset(i: nat, end: nat, b: nat)
    requires end < i && 0 < b
    ensures Offset(BlockStart(i, end, b), end, b) == 0
    decreases i
  {
    if i - end - 1 >= b {
      BlockStartOffset(i - b, end, b);
      NextBlock(BlockStart(i - b, end, b), end, b);
    }
  }

  /** Later services lie in the same or a later block. */
  lemma {:induction false} BlockStartMonotone(j: nat, i: nat, end: nat, b: nat)
    requires end < j <= i && 0 < b
    ensures BlockStart(j, end, b) <= BlockStart(i, end, b)
    decreases i
  {
    if i - end - 1 >= b && j - end - 1 >= b {
      BlockStartMonotone(j - b, i - b, end, b);
    }
  }

  // The marked run.

  /** The first failing service at or after `j`, or `|ss|` (at least) when none fails. */
  function FirstMismatch(ss: seq<Service>, start: nat, end: nat, j: nat): (m: nat)
    requires SameWidth(ss) && start <= end < j
    ensures j <= m && (m < |ss| ==> ServiceMismatch(ss, start, end, m))
    ensures forall k :: j <= k < m && k < |ss| ==> !ServiceMismatch(ss, start, end, k)
    decreases |ss| - j
  {
    if j >= |ss| || ServiceMismatch(ss, start, end, j) then j else FirstMismatch(ss, start, end, j + 1)
  }

  /** Where the marked run stops: the start of the first block holding a
      failing service, or the end of the list. */
  function RunEnd(ss: seq<Service>, start: nat, end: nat): (r: nat)
    requires SameWidth(ss) && start <= end
    ensures r <= |ss|
  {
    var m := FirstMismatch(ss, start, end, end + 1);
    if m < |ss| then BlockStart(m, end, Breadth(start, end)) else |ss|
  }

  /** A service is unbroken exactly when it comes before the end of the run. */
  lemma UnbrokenIff(ss: seq<Service>, start: nat, end: nat, i: nat)
    requires SameWidth(ss) && start <= end < i < |ss|
    ensures Unbroken(ss, start, end, i) <==> i < RunEnd(ss, start, end)
  {
    var b := Breadth(start, end);
    var g := BlockStart(i, end, b);
    var m := FirstMismatch(ss, start, end, end + 1);
    BlockStartOffset(i, end, b);
    if Unbroken(ss, start, end, i) {
      if m < |ss| {
        assert m >= g + b;
        NextBlock(g, end, b);
        BlockStartMonotone(g + b, m, end, b);
      }
    } else {
      var j :| end < j < |ss| && j < g + b && ServiceMismatch(ss, start, end, j);
      assert m <= j;
      if m >= g {
        OffsetInBlock(g, m - g, end, b);
      }
    }
  }

  /** After the reset and the block loop the marked services are exactly
      those after the range and before the end of the run: one contiguous run
      from `end + 1`. */
  lemma CheckedMarks(ss: seq<Service>, start: nat, end: nat)
    requires SameWidth(ss) && FlagsClear(ss) && start <= end
    ensures var c := Checked(ss, start, end);
      forall i :: 0 <= i < |c| ==> (Marked(c, i) <==> end < i < RunEnd(ss, start, end))
  {
    var c := Checked(ss, start, end);
    forall i | 0 <= i < |c| ensures Marked(c, i) <==> end < i < RunEnd(ss, start, end) {
      if i > end {
        UnbrokenIff(ss, start, end, i);
      }
    }
  }

  /** The detector's tests read only the cells' times and ignore flags. */
  lemma {:induction false} FirstMismatchIgnoresFlags(a: seq<Service>, b: seq<Service>, start: nat, end: nat, j: nat)
    requires SameWidth(a) && SameWidth(b) && SameCells(a, b) && start <= end < j
    ensures FirstMismatch(a, start, end, j) == FirstMismatch(b, start, end, j)
    decreases |a| - j
  {
    if j < |a| {
      assert ServiceMismatch(a, start, end, j) <==> ServiceMismatch(b, start, end, j) by {
        var base := Baseline(j, start, end);
        if ServiceMismatch(a, start, end, j) {
          var t :| 0 <= t < |a[j].times| && CellMismatch(a[j].times[t], a[base].times[t]);
          assert CellMismatch(b[j].times[t], b[base].times[t]);
        }
        if ServiceMismatch(b, start, end, j) {
          var t :| 0 <= t < |b[j].times| && CellMismatch(b[j].times[t], b[base].times[t]);
          assert CellMismatch(a[j].times[t], a[base].times[t]);
        }
      }
      FirstMismatchIgnoresFlags(a, b, start, end, j + 1);
    }
  }

  /** Trimming a contiguous run `lo..hi-1` of marked services: nothing is
      left when the run has at most `3 * b` services, otherwise the run less
      its last `b` services. */
  lemma TrimmedRun(ss: seq<Service>, b: nat, lo: nat, hi: nat)
    requires 0 < b && lo <= hi <= |ss|
    requires forall i :: 0 <= i < |ss| ==> (Marked(ss, i) <==> lo <= i < hi)
    ensures var t := Trimmed(ss, b);
      forall i :: 0 <= i < |t| ==> (Marked(t, i) <==> lo <= i && i + b < hi && 3 * b < hi - lo)
  {
    PositionsOfInterval(|ss|, MarkedSet(ss), lo, hi);
    var pm := MarkedPositions(ss);
    var t := Trimmed(ss, b);
    if |pm| > 3 * b {
      assert pm[|pm| - b] == hi - b;
      forall i | 0 <= i < |t| ensures Marked(t, i) <==> lo <= i && i + b < hi && 3 * b < hi - lo {
        assert t[i].isPatternMatching == (ss[i].isPatternMatching && i < hi - b);
        assert Marked(ss, i) <==> lo <= i < hi;
        assert |pm| == hi - lo;
      }
    } else {
      forall i | 0 <= i < |t| ensures !Marked(t, i) {
        assert t[i] == ss[i].(isPatternMatching := false);
      }
    }
  }

  /** Once the range is set, the marked services are exactly those after the
      range and before the end of the run, less the run's last block, and
      only when the run is longer than three blocks. */
  lemma EvaluateMarks(ss: seq<Service>, start: nat, end: nat)
    requires SameWidth(ss) && start <= end
    ensures var e := Evaluate(ss, start, end);
      var r := RunEnd(ss, start, end);
      var b := Breadth(start, end);
      forall i :: 0 <= i < |e| ==> (Marked(e, i) <==> end < i && i + b < r && 3 * b < r - end - 1)
  {
    var rs := Reset(ss);
    var b := Breadth(start, end);
    FirstMismatchIgnoresFlags(rs, ss, start, end, end + 1);
    var r := RunEnd(ss, start, end);
    assert r == RunEnd(rs, start, end);
    var c := Checked(rs, start, end);
    CheckedMarks(rs, start, end);
    if r > end {
      TrimmedRun(c, b, end + 1, r);
    } else {
      TrimmedRun(c, b, 0, 0);
    }
  }

  /** The block loop writes flags only. */
  lemma CheckedSameCells(ss: seq<Service>, start: nat, end: nat)
    requires SameWidth(ss) && start <= end
    ensures SameCells(ss, Checked(ss, start, end))
  {
    var c := Checked(ss, start, end);
    forall i | 0 <= i < |ss| ensures |ss[i].times| == |c[i].times| {
      if i > end {
        assert c[i].times == MarkCells(ss[i], ss[Baseline(i, start, end)]);
      }
    }
  }

  lemma SameCellsTrans(a: seq<Service>, b: seq<Service>, c: seq<Service>)
    requires SameCells(a, b) && SameCells(b, c)
    ensures SameCells(a, c)
  {}

  /** Once the range is set, a cell is flagged invalid exactly when it lies in
      a service after the range, is not ignored, and differs in emptiness or
      minute from the same station's cell of its baseline service; nothing
      but the flags changes. */
  lemma EvaluateInvalid(ss: seq<Service>, start: nat, end: nat)
    requires SameWidth(ss) && start <= end
    ensures var e := Evaluate(ss, start, end);
      && SameCells(ss, e)
      && forall i, t :: 0 <= i < |e| && 0 <= t < |e[i].times| ==>
           (e[i].times[t].isInvalid <==>
              end < i && CellMismatch(ss[i].times[t], ss[Baseline(i, start, end)].times[t]))
  {
    var rs := Reset(ss);
    var c := Checked(rs, start, end);
    var e := Evaluate(ss, start, end);
    CheckedSameCells(rs, start, end);
    SameCellsTrans(ss, rs, c);
    SameCellsTrans(ss, c, e);
    forall i, t | 0 <= i < |e| && 0 <= t < |e[i].times|
      ensures e[i].times[t].isInvalid <==>
                end < i && CellMismatch(ss[i].times[t], ss[Baseline(i, start, end)].times[t])
    {
      assert e[i].times[t] == c[i].times[t];
      if end < i {
        var base := Baseline(i, start, end);
        assert c[i].times[t].isInvalid == CellMismatch(rs[i].times[t], rs[base].times[t]);
      }
    }
  }

  /** A failing service breaks the pattern for good: neither it nor any later
      service stays marked. */
  lemma BreakIsSticky(ss: seq<Service>, start: nat, end: nat, j: nat, i: nat)
    requires SameWidth(ss) && start <= end < j <= i < |ss|
    requires ServiceMismatch(ss, start, end, j)
    ensures !Marked(Evaluate(ss, start, end), i)
  {
    var b := Breadth(start, end);
    EvaluateMarks(ss, start, end);
    var m := FirstMismatch(ss, start, end, end + 1);
    assert m <= j;
    BlockStartMonotone(m, j, end, b);
  }

  /** A run that survives trimming starts right after the range and holds
      more than two blocks of services. */
  lemma SurvivingRunIsLong(ss: seq<Service>, start: nat, end: nat, i: nat)
    requires SameWidth(ss) && start <= end && i < |ss|
    requires Marked(Evaluate(ss, start, end), i)
    ensures forall j :: end < j <= end + 2 * Breadth(start, end) + 1 ==>
      j < |ss| && Marked(Evaluate(ss, start, end), j)
  {
    EvaluateMarks(ss, start, end);
  }

  /** Inside the block starting at `g`, a service is unbroken exactly when no
      service after the range, up to the end of that block, fails. */
  lemma UnbrokenInBlock(ss: seq<Service>, start: nat, end: nat, g: nat, i: nat)
    requires SameWidth(ss) && start <= end < g <= i < |ss|
    requires Offset(g, end, Breadth(start, end)) == 0 && i < g + Breadth(start, end)
    ensures Unbroken(ss, start, end, i) <==>
      !exists j :: end < j < |ss| && j < g + Breadth(start, end) && ServiceMismatch(ss, start, end, j)
  {
    OffsetInBlock(g, i - g, end, Breadth(start, end));
  }

  /** Service `g + o` of the block starting at `g` is compared with service `start + o`. */
  lemma BaselineInBlock(start: nat, end: nat, g: nat, o: nat)
    requires start <= end < g && Offset(g, end, Breadth(start, end)) == 0 && o < Breadth(start, end)
    ensures Baseline(g + o, start, end) == start + o
  {
    OffsetInBlock(g, o, end, Breadth(start, end));
  }

  /** While the block loop is at the block starting at `g`, the services of
      that block and of the range are still as they were, so checking service
      `i` of the block against service `start + (i - g)` is checking it
      against its baseline. */
  lemma BlockStep(orig: seq<Service>, cur: seq<Service>, start: nat, end: nat, g: nat, hi: nat)
    requires SameWidth(orig) && start <= end < g <= hi <= |orig| && |cur| == |orig|
    requires hi <= g + Breadth(start, end) && Offset(g, end, Breadth(start, end)) == 0
    requires forall i :: 0 <= i < |cur| && i <= end ==> cur[i] == orig[i]
    requires forall i :: g <= i < |cur| ==> cur[i] == orig[i]
    ensures forall i :: g <= i < hi ==>
      && Baseline(i, start, end) == start + (i - g)
      && cur[i] == orig[i] && cur[start + (i - g)] == orig[Baseline(i, start, end)]
      && (ServiceFails(cur[i], cur[start + (i - g)]) <==> ServiceMismatch(orig, start, end, i))
  {
    forall i | g <= i < hi ensures Baseline(i, start, end) == start + (i - g) {
      BaselineInBlock(start, end, g, i - g);
    }
  }

  /** The block loop's state before the block starting at `g`: the services
      before `g` are checked, the others untouched. */
  predicate CheckedUpTo(orig: seq<Service>, cur: seq<Service>, start: nat, end: nat, g: nat)
    requires SameWidth(orig) && start <= end
  {
    && |cur| == |orig|
    && (forall i :: 0 <= i < |cur| && i < g ==> cur[i] == Checked(orig, start, end)[i])
    && forall i :: g <= i < |cur| ==> cur[i] == orig[i]
  }

  /** One turn of the block loop, the first `forEach`: after checking the
      block `g .. hi - 1`, `patternBroken` tells whether any service up to
      the end of the block fails. */
  lemma BlockBroken(orig: seq<Service>, before: seq<Service>, start: nat, end: nat, g: nat, hi: nat,
                    brokenBefore: bool, broken: bool)
    requires SameWidth(orig) && start <= end < g <= hi <= |orig|
    requires Offset(g, end, Breadth(start, end)) == 0 && hi <= g + Breadth(start, end)
    requires |before| == |orig|
    requires forall i :: 0 <= i < |before| && i <= end ==> before[i] == orig[i]
    requires forall i :: g <= i < |before| ==> before[i] == orig[i]
    requires brokenBefore <==> exists j :: end < j < g && j < |orig| && ServiceMismatch(orig, start, end, j)
    requires broken <==> brokenBefore || exists i :: g <= i < hi && ServiceFails(before[i], before[start + (i - g)])
    requires hi == if g + Breadth(start, end) < |orig| then g + Breadth(start, end) else |orig|
    ensures broken <==> exists j :: end < j < hi && j < |orig| && ServiceMismatch(orig, start, end, j)
    ensures broken <==> exists j :: end < j < g + Breadth(start, end) && j < |orig| && ServiceMismatch(orig, start, end, j)
  {
    BlockStep(orig, before, start, end, g, hi);
    if exists j :: end < j < hi && j < |orig| && ServiceMismatch(orig, start, end, j) {
      var j :| end < j < hi && j < |orig| && ServiceMismatch(orig, start, end, j);
      if j >= g {
        assert ServiceFails(before[j], before[start + (j - g)]);
      }
    }
  }

  /** The block loop never writes the range's own services. */
  lemma RangeUntouched(orig: seq<Service>, cur: seq<Service>, start: nat, end: nat, g: nat)
    requires SameWidth(orig) && start <= end
    requires CheckedUpTo(orig, cur, start, end, g)
    ensures forall i :: 0 <= i < |cur| && i <= end ==> cur[i] == orig[i]
    ensures SameCells(orig, cur) && SameWidth(cur)
  {
    var c := Checked(orig, start, end);
    forall i | 0 <= i < |cur| ensures |cur[i].times| == |orig[i].times| {
      if i < g {
        assert cur[i] == c[i];
      }
    }
    forall i | 0 <= i < |cur| && i <= end ensures cur[i] == orig[i] {
      if i < g {
        assert cur[i] == Checked(orig, start, end)[i];
      }
    }
  }

  /** The end of the block starting at `g`, cut short by the end of the list. */
  function BlockEnd(g: nat, b: nat, n: nat): (hi: nat)
    ensures hi <= g + b && hi <= n && (g <= n ==> g <= hi)
    ensures hi == g + b || hi == n
  {
    if g + b < n then g + b else n
  }

  /** The block loop's state between its two `forEach`es over the block
      `g .. hi - 1`: the block is checked cell by cell but not yet marked, and
      `patternBroken` tells whether any service up to the block's end fails. */
  predicate BlockChecked(orig: seq<Service>, mid: seq<Service>, start: nat, end: nat, g: nat, broken: bool)
    requires SameWidth(orig) && start <= end
  {
    var hi := BlockEnd(g, Breadth(start, end), |orig|);
    && end < g <= |orig| && Offset(g, end, Breadth(start, end)) == 0 && |mid| == |orig|
    && (forall i :: 0 <= i < g ==> mid[i] == Checked(orig, start, end)[i])
    && (forall i :: g <= i < hi ==>
          mid[i] == orig[i].(times := MarkCells(orig[i], orig[Baseline(i, start, end)])))
    && (forall i :: hi <= i < |mid| ==> mid[i] == orig[i])
    && (broken <==> exists j :: end < j < hi && j < |orig| && ServiceMismatch(orig, start, end, j))
  }

  /** The first `forEach` writes exactly the checked cells of the block:
      each service checked against its baseline service. */
  lemma BlockCheckedCells(orig: seq<Service>, before: seq<Service>, mid: seq<Service>, start: nat, end: nat, g: nat, hi: nat)
    requires SameWidth(orig) && SameWidth(before) && start <= end < g <= hi <= |orig| && |before| == |orig| == |mid|
    requires Offset(g, end, Breadth(start, end)) == 0 && hi <= g + Breadth(start, end)
    requires forall i :: g <= i < |before| ==> before[i] == orig[i]
    requires forall i :: 0 <= i < |before| && i <= end ==> before[i] == orig[i]
    requires forall i :: g <= i < hi ==> mid[i] == CheckedInBlock(before, g, start, i)
    ensures forall i :: g <= i < hi ==>
      mid[i] == orig[i].(times := MarkCells(orig[i], orig[Baseline(i, start, end)]))
  {
    forall i | g <= i < hi
      ensures mid[i] == orig[i].(times := MarkCells(orig[i], orig[Baseline(i, start, end)]))
    {
      BaselineInBlock(start, end, g, i - g);
      var base := start + (i - g);
      assert before[i] == orig[i];
      assert before[base] == orig[base];
    }
  }

  /** One turn of the block loop, the second `forEach`: marking the checked
      block extends the checked prefix to the next block. */
  lemma BlockMarked(orig: seq<Service>, mid: seq<Service>, after: seq<Service>,
                    start: nat, end: nat, g: nat, broken: bool)
    requires SameWidth(orig) && start <= end
    requires BlockChecked(orig, mid, start, end, g, broken)
    requires |after| == |mid|
    requires forall i :: 0 <= i < |after| ==>
      after[i] == if g <= i < BlockEnd(g, Breadth(start, end), |orig|)
                  then mid[i].(isPatternMatching := !broken && g > end) else mid[i]
    ensures CheckedUpTo(orig, after, start, end, g + Breadth(start, end))
  {
    var hi := BlockEnd(g, Breadth(start, end), |orig|);
    var c := Checked(orig, start, end);
    forall i | g <= i < hi ensures after[i] == c[i] {
      UnbrokenInBlock(orig, start, end, g, i);
      var base := Baseline(i, start, end);
      assert c[i] == Service(MarkCells(orig[i], orig[base]), Unbroken(orig, start, end, i));
    }
    forall i | 0 <= i < |after| && i < g ensures after[i] == c[i] {
      assert after[i] == mid[i];
    }
  }

  // The loops of `SET_PATTERN_RANGE`, each proved against the function above
  // that it computes. The source writes the flags into the service records in
  // place; here each loop takes the service list and returns the updated one.

  /** The first loop: clear every service's mark and every cell's `isInvalid`. */
  method ResetFlags(ss: seq<Service>) returns (r: seq<Service>)
    ensures r == Reset(ss)
  {
    r := ss;
    var k := 0;
    while k < |r|
      invariant 0 <= k <= |r| == |ss|
      invariant forall j :: 0 <= j < k ==> r[j] == ClearService(ss[j])
      invariant forall j :: k <= j < |r| ==> r[j] == ss[j]
    {
      var times := r[k].times;
      var t := 0;
      while t < |times|
        invariant 0 <= t <= |times| == |ss[k].times|
        invariant forall u :: 0 <= u < t ==> times[u] == ss[k].times[u].(isInvalid := false)
        invariant forall u :: t <= u < |times| ==> times[u] == ss[k].times[u]
      {
        times := times[t := times[t].(isInvalid := false)];
        t := t + 1;
      }
      assert times == ClearService(ss[k]).times;
      r := r[k := Service(times, false)];
      k := k + 1;
    }
  }

  /** The cell loop over one service: compare `service` with `base` cell by
      cell, flag the failing cells invalid, and report whether one fails. */
  method CheckService(service: Service, base: Service) returns (checked: Service, fails: bool)
    requires |service.times| == |base.times|
    ensures checked == service.(times := MarkCells(service, base))
    ensures fails <==> ServiceFails(service, base)
  {
    var times := service.times;
    ghost var marked := MarkCells(service, base);
    fails := false;
    var t := 0;
    while t < |times|
      invariant 0 <= t <= |times| == |base.times| == |marked|
      invariant forall u :: 0 <= u < t ==> times[u] == marked[u]
      invariant forall u :: t <= u < |times| ==> times[u] == service.times[u]
      invariant fails <==> exists u :: 0 <= u < t && CellMismatch(service.times[u], base.times[u])
    {
      var time := times[t];
      if !time.isIgnored {
        var expectedMinutes := ExpectedMinutes(base.times[t]);
        if expectedMinutes.Some? {
          if time.time.isEmpty || time.time.m != expectedMinutes {
            fails := true;
            times := times[t := time.(isInvalid := true)];
          }
        } else {
          if !time.time.isEmpty {
            fails := true;
            times := times[t := time.(isInvalid := true)];
          }
        }
      }
      t := t + 1;
    }
    assert times == marked;
    checked := service.(times := times);
  }

  /** Service `i` of the block starting at `g` after its cells are checked
      against service `s + (i - g)`. */
  function CheckedInBlock(ss: seq<Service>, g: nat, s: nat, i: nat): Service
    requires g <= i < |ss| && s + (i - g) < |ss| && SameWidth(ss)
  {
    ss[i].(times := MarkCells(ss[i], ss[s + (i - g)]))
  }

  /** The first `forEach` over one block: check services `g .. hi - 1`
      against services `s ..` in turn. */
  method CheckBlock(ss: seq<Service>, g: nat, hi: nat, s: nat, brokenIn: bool) returns (r: seq<Service>, broken: bool)
    requires s + (hi - g) <= g <= hi <= |ss| && SameWidth(ss)
    ensures |r| == |ss|
    ensures forall i :: 0 <= i < |r| && !(g <= i < hi) ==> r[i] == ss[i]
    ensures forall i :: g <= i < hi ==> r[i] == CheckedInBlock(ss, g, s, i)
    ensures broken <==> brokenIn || exists i :: g <= i < hi && ServiceFails(ss[i], ss[s + (i - g)])
  {
    r := ss;
    broken := brokenIn;
    var offset := 0;
    while offset < hi - g
      invariant 0 <= offset <= hi - g && |r| == |ss|
      invariant forall i :: 0 <= i < |r| && !(g <= i < g + offset) ==> r[i] == ss[i]
      invariant forall i :: g <= i < g + offset ==> r[i] == CheckedInBlock(ss, g, s, i)
      invariant broken <==> brokenIn || exists i :: g <= i < g + offset && ServiceFails(ss[i], ss[s + (i - g)])
    {
      var checked, fails := CheckService(r[g + offset], r[s + offset]);
      assert checked == CheckedInBlock(ss, g, s, g + offset);
      r := r[g + offset := checked];
      broken := broken || fails;
      offset := offset + 1;
    }
  }

  /** The second `forEach` over one block: set the mark of services
      `g .. hi - 1` to `flag`. */
  method MarkBlock(ss: seq<Service>, g: nat, hi: nat, flag: bool) returns (r: seq<Service>)
    requires g <= hi <= |ss|
    ensures |r| == |ss|
    ensures forall i :: 0 <= i < |r| ==>
      r[i] == if g <= i < hi then ss[i].(isPatternMatching := flag) else ss[i]
  {
    r := ss;
    var offset := 0;
    while offset < hi - g
      invariant 0 <= offset <= hi - g && |r| == |ss|
      invariant forall i :: 0 <= i < |r| ==>
        r[i] == if g <= i < g + offset then ss[i].(isPatternMatching := flag) else ss[i]
    {
      r := r[g + offset := r[g + offset].(isPatternMatching := flag)];
      offset := offset + 1;
    }
  }

  /** The block loop's invariant before the block starting at `g`: `g` starts
      a block, the services before it are checked, and `patternBroken` tells
      whether any service checked so far fails. */
  predicate BlockLoop(orig: seq<Service>, cur: seq<Service>, start: nat, end: nat, g: nat, broken: bool)
    requires SameWidth(orig) && start <= end
  {
    && end < g && Offset(g, end, Breadth(start, end)) == 0
    && CheckedUpTo(orig, cur, start, end, g)
    && (broken <==> exists j :: end < j < g && j < |orig| && ServiceMismatch(orig, start, end, j))
  }

  /** The block loop starts right after the range, with nothing checked or broken. */
  lemma BlockLoopStart(ss: seq<Service>, start: nat, end: nat)
    requires SameWidth(ss) && start <= end
    ensures BlockLoop(ss, ss, start, end, end + 1, false)
  {
    var c := Checked(ss, start, end);
    forall i | 0 <= i < |ss| && i < end + 1 ensures ss[i] == c[i] {}
  }

  /** Once the loop has passed the last service, everything is checked. */
  lemma BlockLoopDone(orig: seq<Service>, cur: seq<Service>, start: nat, end: nat, g: nat, broken: bool)
    requires SameWidth(orig) && start <= end && |orig| <= g
    requires BlockLoop(orig, cur, start, end, g, broken)
    ensures cur == Checked(orig, start, end)
  {}

  /** The first `forEach` over the block starting at `g`: check each of its
      services against the range. */
  method CheckBlockAt(ghost orig: seq<Service>, ss: seq<Service>, s: nat, e: nat, g: nat, brokenIn: bool)
    returns (mid: seq<Service>, broken: bool)
    requires SameWidth(orig) && s <= e && g < |orig|
    requires BlockLoop(orig, ss, s, e, g, brokenIn)
    ensures BlockChecked(orig, mid, s, e, g, broken)
  {
    var breadth := e - s + 1;
    var hi := if g + breadth < |ss| then g + breadth else |ss|;
    assert hi == BlockEnd(g, Breadth(s, e), |orig|);
    RangeUntouched(orig, ss, s, e, g);
    mid, broken := CheckBlock(ss, g, hi, s, brokenIn);
    CheckedBlock(orig, ss, mid, s, e, g, hi, brokenIn, broken);
  }

  /** What `CheckBlock` promises about the block at `g` is the checked state. */
  lemma CheckedBlock(orig: seq<Service>, ss: seq<Service>, mid: seq<Service>, s: nat, e: nat, g: nat, hi: nat,
                     brokenIn: bool, broken: bool)
    requires SameWidth(orig) && s <= e && g < |orig| && SameWidth(ss)
    requires BlockLoop(orig, ss, s, e, g, brokenIn)
    requires hi == BlockEnd(g, Breadth(s, e), |orig|)
    requires |mid| == |ss|
    requires forall i :: 0 <= i < |mid| && !(g <= i < hi) ==> mid[i] == ss[i]
    requires forall i :: g <= i < hi ==> mid[i] == CheckedInBlock(ss, g, s, i)
    requires broken <==> brokenIn || exists i :: g <= i < hi && ServiceFails(ss[i], ss[s + (i - g)])
    ensures BlockChecked(orig, mid, s, e, g, broken)
  {
    RangeUntouched(orig, ss, s, e, g);
    BlockBroken(orig, ss, s, e, g, hi, brokenIn, broken);
    BlockCheckedCells(orig, ss, mid, s, e, g, hi);
  }

  /** The second `forEach` over the block starting at `g`: mark its services
      when the pattern is unbroken so far. */
  method MarkBlockAt(ghost orig: seq<Service>, mid: seq<Service>, s: nat, e: nat, g: nat, broken: bool)
    returns (r: seq<Service>)
    requires SameWidth(orig) && s <= e
    requires BlockChecked(orig, mid, s, e, g, broken)
    ensures BlockLoop(orig, r, s, e, g + Breadth(s, e), broken)
  {
    var breadth := e - s + 1;
    var hi := if g + breadth < |mid| then g + breadth else |mid|;
    assert hi == BlockEnd(g, Breadth(s, e), |orig|);
    r := MarkBlock(mid, g, hi, !broken && g > e);
    BlockMarked(orig, mid, r, s, e, g, broken);
    NextBlock(g, e, breadth);
  }

  /** One turn of the block loop, over the block starting at `g`: both
      `forEach`es over `services.slice(g, g + breadth)`. */
  method CheckAndMarkBlock(ghost orig: seq<Service>, ss: seq<Service>, s: nat, e: nat, g: nat, brokenIn: bool)
    returns (r: seq<Service>, broken: bool)
    requires SameWidth(orig) && s <= e && g < |orig|
    requires BlockLoop(orig, ss, s, e, g, brokenIn)
    ensures BlockLoop(orig, r, s, e, g + Breadth(s, e), broken)
  {
    var mid;
    mid, broken := CheckBlockAt(orig, ss, s, e, g, brokenIn);
    r := MarkBlockAt(orig, mid, s, e, g, broken);
  }

  /** The block loop: for each block of `breadth` services after the range,
      check each service against the range, then mark the block's services
      when no check has failed so far. */
  method CheckBlocks(ss: seq<Service>, s: nat, e: nat) returns (r: seq<Service>)
    requires SameWidth(ss) && s <= e
    ensures r == Checked(ss, s, e)
  {
    r := ss;
    var breadth := e - s + 1;
    var broken := false;
    var g := s + breadth;
    assert g == e + 1 && breadth == Breadth(s, e);
    BlockLoopStart(ss, s, e);
    while g < |ss|
      invariant BlockLoop(ss, r, s, e, g, broken)
      decreases |ss| - g
    {
      r, broken := CheckAndMarkBlock(ss, r, s, e, g, broken);
      g := g + breadth;
    }
    BlockLoopDone(ss, r, s, e, g, broken);
  }

  /** `services.filter(service => service.isPatternMatching)`, by position. */
  method CollectMarked(ss: seq<Service>) returns (pm: seq<nat>)
    ensures pm == MarkedPositions(ss)
  {
    pm := [];
    var i := 0;
    while i < |ss|
      invariant i <= |ss|
      invariant pm == Positions(i, MarkedSet(ss))
    {
      PositionsStep(i, MarkedSet(ss));
      assert i in MarkedSet(ss) <==> ss[i].isPatternMatching;
      if ss[i].isPatternMatching {
        pm := pm + [i];
      }
      i := i + 1;
    }
  }

  /** `forEach(s => s.isPatternMatching = false)` over the services at the
      positions `pm[from..]`. */
  method UnmarkFrom(ss: seq<Service>, pm: seq<nat>, from: nat) returns (r: seq<Service>)
    requires from <= |pm| && forall k :: 0 <= k < |pm| ==> pm[k] < |ss|
    ensures |r| == |ss|
    ensures forall j :: 0 <= j < |r| ==>
      r[j] == if j in pm[from..] then ss[j].(isPatternMatching := false) else ss[j]
  {
    r := ss;
    var k := from;
    while k < |pm|
      invariant from <= k <= |pm| && |r| == |ss|
      invariant forall j :: 0 <= j < |r| ==>
        r[j] == if j in pm[from..k] then ss[j].(isPatternMatching := false) else ss[j]
    {
      assert pm[from..k + 1] == pm[from..k] + [pm[k]];
      r := r[pm[k] := r[pm[k]].(isPatternMatching := false)];
      k := k + 1;
    }
    assert pm[from..k] == pm[from..];
  }

  /** Unmarking the marked positions from `from` on is the trimming rule, for
      the `from` the source picks. */
  lemma TrimmedBySuffix(ss: seq<Service>, b: nat, r: seq<Service>)
    requires 0 < b && |r| == |ss|
    requires var pm := MarkedPositions(ss);
      var from := if |pm| <= 3 * b then 0 else |pm| - b;
      forall j :: 0 <= j < |r| ==>
        r[j] == if j in pm[from..] then ss[j].(isPatternMatching := false) else ss[j]
    ensures r == Trimmed(ss, b)
  {
    var pm := MarkedPositions(ss);
    var from := if |pm| <= 3 * b then 0 else |pm| - b;
    var t := Trimmed(ss, b);
    PositionsSorted(|ss|, MarkedSet(ss));
    PositionsComplete(|ss|, MarkedSet(ss));
    forall j | 0 <= j < |r| ensures r[j] == t[j] {
      assert j in pm <==> ss[j].isPatternMatching by {
        assert j in MarkedSet(ss) <==> ss[j].isPatternMatching;
      }
      if |pm| <= 3 * b {
        assert pm[from..] == pm;
      } else {
        SuffixMembers(pm, from, j);
      }
    }
  }

  /** The last step of `SET_PATTERN_RANGE`: collect the marked services, then
      unmark all of them when there are at most `3 * breadth`, otherwise only
      the last `breadth`. */
  method TrimRun(ss: seq<Service>, b: nat) returns (r: seq<Service>)
    requires 0 < b
    ensures r == Trimmed(ss, b)
  {
    var pm := CollectMarked(ss);
    var from := if |pm| <= b * 3 then 0 else |pm| - b;
    r := UnmarkFrom(ss, pm, from);
    TrimmedBySuffix(ss, b, r);
  }

  /** `SET_PATTERN_RANGE` on the services once `start` and `end` are updated:
      reset the flags, stop when the range is unset, otherwise run the block
      loop and trim the run. */
  method DetectPatterns(ss: seq<Service>, start: Option<nat>, end: Option<nat>) returns (r: seq<Service>)
    requires SameWidth(ss)
    requires start.Some? && end.Some? ==> start.value <= end.value
    ensures r == Detect(ss, start, end)
  {
    r := ResetFlags(ss);
    if start.None? || end.None? {
      return;
    }
    var s := start.value;
    var e := end.value;
    assert SameWidth(r) by {
      assert SameCells(ss, r);
    }
    r := CheckBlocks(r, s, e);
    r := TrimRun(r, e - s + 1);
  }

  /** `SET_PATTERN_RANGE` writes only the two flags, whether or not the range is set. */
  lemma DetectKeepsCells(ss: seq<Service>, start: Option<nat>, end: Option<nat>)
    requires SameWidth(ss)
    requires start.Some? && end.Some? ==> start.value <= end.value
    ensures SameCells(ss, Detect(ss, start, end))
  {
    if start.Some? && end.Some? {
      EvaluateInvalid(ss, start.value, end.value);
    }
  }

  /** A cell the user ignores is never flagged invalid. */
  lemma IgnoredNeverInvalid(ss: seq<Service>, start: Option<nat>, end: Option<nat>, i: nat, t: nat)
    requires SameWidth(ss)
    requires start.Some? && end.Some? ==> start.value <= end.value
    requires i < |ss| && t < |ss[i].times| && ss[i].times[t].isIgnored
    ensures var d := Detect(ss, start, end);
      i < |d| && t < |d[i].times| && !d[i].times[t].isInvalid
  {
    DetectKeepsCells(ss, start, end);
    if start.Some? && end.Some? {
      EvaluateInvalid(ss, start.value, end.value);
    }
  }

  /** With the range unset, nothing is marked and no cell is invalid. */
  lemma UnsetRangeClears(ss: seq<Service>, start: Option<nat>, end: Option<nat>)
    requires SameWidth(ss) && (start.None? || end.None?)
    ensures SameCells(ss, Detect(ss, start, end)) && FlagsClear(Detect(ss, start, end))
  {}
}
