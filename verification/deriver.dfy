/**
  The table deriver of store.js (`calculateTableContents`): from the full
  bank and service list, the stations and services of one sub-table built
  around a target station and its terminal stations.

  The source looks stations up by id and sorts them by id, but indexes the
  cells of a service by position; the two agree when every station's id is
  its position in the full bank, which `WellFormed` demands.
*/
module Deriver {
  import opened Seqs
  import opened TimeParser
  import opened Timetable

  predicate NoDuplicates(xs: seq<nat>)
  {
    forall i, j :: 0 <= i < j < |xs| ==> xs[i] != xs[j]
  }

  predicate DistinctIds(xs: seq<Station>)
  {
    forall i, j :: 0 <= i < j < |xs| ==> xs[i].id != xs[j].id
  }

  /** What the derivation needs of its inputs and the source does not check. */
  predicate WellFormed(fullBank: seq<Station>, allServices: seq<Service>, target: nat, terminals: seq<nat>)
  {
    && IdsArePositions(fullBank)
    && Rectangular(allServices, |fullBank|)
    && target < |fullBank|
    && (forall k :: 0 <= k < |terminals| ==> terminals[k] < |fullBank|)
    && NoDuplicates(terminals)
    && target !in terminals
  }

  /** The elements of `xs`, forgetting order and repetition. */
  function Members(xs: seq<nat>): set<nat>
  {
    set t | t in xs
  }

  /** The station ids a table is built from: the target and its terminal stations. */
  function TableStations(target: nat, terminals: seq<nat>): set<nat>
  {
    Members(terminals) + {target}
  }

  /** One insertion step of the sort by ascending id. */
  function InsertById(x: Station, xs: seq<Station>): (r: seq<Station>)
    ensures |r| == |xs| + 1
  {
    if xs == [] || x.id <= xs[0].id then [x] + xs
    else
      assert xs == [xs[0]] + xs[1..];
      [xs[0]] + InsertById(x, xs[1..])
  }

  /** Insertion adds exactly the one station. */
  lemma {:induction false} InsertByIdPermutes(x: Station, xs: seq<Station>)
    ensures multiset(InsertById(x, xs)) == multiset(xs) + multiset{x}
  {
    if xs != [] && x.id > xs[0].id {
      InsertByIdPermutes(x, xs[1..]);
      assert xs == [xs[0]] + xs[1..];
    }
  }

  /** Every station of `xs` has an id above `b`. */
  predicate IdsAbove(xs: seq<Station>, b: nat)
  {
    forall k :: 0 <= k < |xs| ==> xs[k].id > b
  }

  /** Insertion keeps a lower bound on the ids. */
  lemma {:induction false} InsertByIdAbove(x: Station, xs: seq<Station>, b: nat)
    requires IdsAbove(xs, b) && x.id > b
    ensures IdsAbove(InsertById(x, xs), b)
  {
    if xs != [] && x.id > xs[0].id {
      InsertByIdAbove(x, xs[1..], b);
      var r := InsertById(x, xs);
      assert r == [xs[0]] + InsertById(x, xs[1..]);
    }
  }

  /** Inserting a station whose id is new keeps a sequence sorted strictly by id. */
  lemma {:induction false} InsertByIdSorted(x: Station, xs: seq<Station>)
    requires StrictlyIncreasingIds(xs)
    requires forall k :: 0 <= k < |xs| ==> xs[k].id != x.id
    ensures StrictlyIncreasingIds(InsertById(x, xs))
  {
    if xs == [] {
    } else if x.id <= xs[0].id {
      var r := InsertById(x, xs);
      assert r == [x] + xs;
      forall i, j | 0 <= i < j < |r| ensures r[i].id < r[j].id {
        assert r[j] == xs[j - 1];
        if i > 0 {
          assert r[i] == xs[i - 1];
        } else {
          assert xs[0].id != x.id;
        }
      }
    } else {
      var rest := InsertById(x, xs[1..]);
      assert StrictlyIncreasingIds(xs[1..]) by {
        forall i, j | 0 <= i < j < |xs[1..]| ensures xs[1..][i].id < xs[1..][j].id {
          assert xs[1..][i] == xs[i + 1] && xs[1..][j] == xs[j + 1];
        }
      }
      assert forall k :: 0 <= k < |xs[1..]| ==> xs[1..][k].id != x.id by {
        forall k | 0 <= k < |xs[1..]| ensures xs[1..][k].id != x.id {
          assert xs[1..][k] == xs[k + 1];
        }
      }
      InsertByIdSorted(x, xs[1..]);
      InsertByIdAbove(x, xs[1..], xs[0].id);
      var r := InsertById(x, xs);
      assert r == [xs[0]] + rest;
      forall i, j | 0 <= i < j < |r| ensures r[i].id < r[j].id {
        assert r[j] == rest[j - 1];
        if i > 0 {
          assert r[i] == rest[i - 1];
        }
      }
    }
  }

  lemma TailIdsDiffer(xs: seq<Station>, y: Station)
    requires xs != [] && DistinctIds(xs) && y in multiset(xs[1..])
    ensures y.id != xs[0].id
  {
    var i :| 0 <= i < |xs[1..]| && xs[1..][i] == y;
    assert xs[i + 1] == y;
  }

  /** `sort((a, b) => a.id - b.id)`, as an insertion sort. */
  function SortById(xs: seq<Station>): (r: seq<Station>)
    ensures multiset(r) == multiset(xs)
  {
    if xs == [] then []
    else
      assert xs == [xs[0]] + xs[1..];
      InsertByIdPermutes(xs[0], SortById(xs[1..]));
      InsertById(xs[0], SortById(xs[1..]))
  }

  /** With distinct ids the sort orders the stations strictly by id. */
  lemma {:induction false} SortByIdSorted(xs: seq<Station>)
    requires DistinctIds(xs)
    ensures StrictlyIncreasingIds(SortById(xs))
  {
    if xs != [] {
      var rest := SortById(xs[1..]);
      assert DistinctIds(xs[1..]);
      SortByIdSorted(xs[1..]);
      forall k | 0 <= k < |rest| ensures rest[k].id != xs[0].id {
        assert rest[k] in multiset(rest);
        TailIdsDiffer(xs, rest[k]);
      }
      InsertByIdSorted(xs[0], rest);
    }
  }

  lemma HeadIsMember<T>(b: seq<T>)
    ensures b != [] ==> b[0] in b
  {}

  /** Two sequences sorted strictly by id with the same elements are equal. */
  lemma {:induction false} SortedByIdUnique(a: seq<Station>, b: seq<Station>)
    requires StrictlyIncreasingIds(a) && StrictlyIncreasingIds(b)
    requires forall x :: x in a <==> x in b
    ensures a == b
    decreases |a|
  {
    if a == [] {
      if b != [] {
        HeadIsMember(b);
        assert false;
      }
    } else {
      SortedHeadsAgree(a, b);
      forall x ensures x in a[1..] <==> x in b[1..] {
        if x in a[1..] {
          SortedTailMember(a, b, x);
        }
        if x in b[1..] {
          SortedTailMember(b, a, x);
        }
      }
      SortedByIdUnique(a[1..], b[1..]);
      assert a == [a[0]] + a[1..] && b == [b[0]] + b[1..];
    }
  }

  /** Sorted strictly by id with the same elements, both start alike. */
  lemma SortedHeadsAgree(a: seq<Station>, b: seq<Station>)
    requires StrictlyIncreasingIds(a) && StrictlyIncreasingIds(b) && a != []
    requires forall x :: x in a <==> x in b
    ensures b != [] && a[0] == b[0]
  {
    assert a[0] in b;
    var j :| 0 <= j < |b| && b[j] == a[0];
    assert b[0] in a;
    var i :| 0 <= i < |a| && a[i] == b[0];
    assert a[0].id <= a[i].id == b[0].id <= b[j].id == a[0].id;
  }

  /** A later element of `a` that is in `b` is a later element of `b`. */
  lemma SortedTailMember(a: seq<Station>, b: seq<Station>, x: Station)
    requires StrictlyIncreasingIds(a) && a != [] && b != [] && a[0] == b[0]
    requires x in a[1..] && x in b
    ensures x in b[1..]
  {
    var k :| 0 <= k < |a[1..]| && a[1..][k] == x;
    assert a[k + 1] == x && a[0].id < x.id;
    var m :| 0 <= m < |b| && b[m] == x;
    assert m != 0;
    assert b[1..][m - 1] == x;
  }

  /** Step 1: the target and terminal stations, looked up by id and sorted by id. */
  function Candidate(fullBank: seq<Station>, target: nat, terminals: seq<nat>): seq<Station>
    requires target < |fullBank| && forall k :: 0 <= k < |terminals| ==> terminals[k] < |fullBank|
  {
    SortById(Pick(fullBank, terminals) + [fullBank[target]])
  }

  /** The ids of a bank, the source's `bankIndicies` as a set. */
  function BankIndices(bank: seq<Station>): set<nat>
  {
    set p | 0 <= p < |bank| :: bank[p].id
  }

  lemma CandidateInputDistinct(fullBank: seq<Station>, allServices: seq<Service>, target: nat, terminals: seq<nat>)
    requires WellFormed(fullBank, allServices, target, terminals)
    ensures DistinctIds(Pick(fullBank, terminals) + [fullBank[target]])
  {
    var input := Pick(fullBank, terminals) + [fullBank[target]];
    forall i, j | 0 <= i < j < |input| ensures input[i].id != input[j].id {
      if j < |terminals| {
        assert input[i] == fullBank[terminals[i]] && input[j] == fullBank[terminals[j]];
      } else {
        assert input[i] == fullBank[terminals[i]] && input[j] == fullBank[target];
      }
    }
  }

  /** A station picked by id from the terminals or the target is kept by the filter. */
  lemma CandidateInputFiltered(fullBank: seq<Station>, allServices: seq<Service>, target: nat, terminals: seq<nat>, x: Station)
    requires WellFormed(fullBank, allServices, target, terminals)
    requires x in Pick(fullBank, terminals) + [fullBank[target]]
    ensures x in Pick(fullBank, Positions(|fullBank|, TableStations(target, terminals)))
  {
    var ps := Positions(|fullBank|, TableStations(target, terminals));
    var input := Pick(fullBank, terminals) + [fullBank[target]];
    var i :| 0 <= i < |input| && input[i] == x;
    var id := if i < |terminals| then terminals[i] else target;
    assert x == fullBank[id] && id in TableStations(target, terminals);
    PositionsComplete(|fullBank|, TableStations(target, terminals));
    assert id in ps;
    var k :| 0 <= k < |ps| && ps[k] == id;
    assert Pick(fullBank, ps)[k] == x;
  }

  /** A station kept by the filter is the target or one of the terminals. */
  lemma FilteredIsCandidateInput(fullBank: seq<Station>, allServices: seq<Service>, target: nat, terminals: seq<nat>, x: Station)
    requires WellFormed(fullBank, allServices, target, terminals)
    requires x in Pick(fullBank, Positions(|fullBank|, TableStations(target, terminals)))
    ensures x in Pick(fullBank, terminals) + [fullBank[target]]
  {
    var ps := Positions(|fullBank|, TableStations(target, terminals));
    var input := Pick(fullBank, terminals) + [fullBank[target]];
    var filtered := Pick(fullBank, ps);
    var k :| 0 <= k < |filtered| && filtered[k] == x;
    var id := ps[k];
    assert id in TableStations(target, terminals);
    if id == target {
      assert input[|terminals|] == x;
    } else {
      var i :| 0 <= i < |terminals| && terminals[i] == id;
      assert input[i] == x;
    }
  }

  /** Filtering the full bank by position keeps its strict order by id. */
  lemma FilteredSorted(fullBank: seq<Station>, ps: seq<nat>)
    requires IdsArePositions(fullBank) && StrictlyIncreasing(ps)
    requires forall k :: 0 <= k < |ps| ==> ps[k] < |fullBank|
    ensures StrictlyIncreasingIds(Pick(fullBank, ps))
  {
    var filtered := Pick(fullBank, ps);
    forall i, j | 0 <= i < j < |filtered| ensures filtered[i].id < filtered[j].id {
      assert filtered[i].id == ps[i] && filtered[j].id == ps[j];
    }
  }

  /** The sorted candidate bank is the full bank filtered to the table's
      stations, in route order. */
  lemma CandidateIsPick(fullBank: seq<Station>, allServices: seq<Service>, target: nat, terminals: seq<nat>)
    requires WellFormed(fullBank, allServices, target, terminals)
    ensures Candidate(fullBank, target, terminals) == Pick(fullBank, Positions(|fullBank|, TableStations(target, terminals)))
  {
    var ps := Positions(|fullBank|, TableStations(target, terminals));
    var input := Pick(fullBank, terminals) + [fullBank[target]];
    var sorted := Candidate(fullBank, target, terminals);
    var filtered := Pick(fullBank, ps);
    CandidateInputDistinct(fullBank, allServices, target, terminals);
    SortByIdSorted(input);
    forall x ensures x in sorted <==> x in filtered {
      assert x in sorted <==> x in multiset(input);
      if x in input {
        CandidateInputFiltered(fullBank, allServices, target, terminals, x);
      }
      if x in filtered {
        FilteredIsCandidateInput(fullBank, allServices, target, terminals, x);
      }
    }
    PositionsSorted(|fullBank|, TableStations(target, terminals));
    FilteredSorted(fullBank, ps);
    SortedByIdUnique(sorted, filtered);
  }

  /** The candidate bank's ids, as positions of the full bank, are the
      positions the filter keeps. */
  lemma CandidateIsFilter(fullBank: seq<Station>, allServices: seq<Service>, target: nat, terminals: seq<nat>)
    requires WellFormed(fullBank, allServices, target, terminals)
    ensures var ps := Positions(|fullBank|, TableStations(target, terminals));
      && Candidate(fullBank, target, terminals) == Pick(fullBank, ps)
      && Positions(|fullBank|, BankIndices(Candidate(fullBank, target, terminals))) == ps
  {
    var ps := Positions(|fullBank|, TableStations(target, terminals));
    var sorted := Candidate(fullBank, target, terminals);
    CandidateIsPick(fullBank, allServices, target, terminals);
    PositionsComplete(|fullBank|, TableStations(target, terminals));
    forall i | 0 <= i < |fullBank| ensures i in BankIndices(sorted) <==> i in TableStations(target, terminals) {
      CandidateIndex(fullBank, target, terminals, ps, sorted, i);
    }
    PositionsAgree(|fullBank|, BankIndices(sorted), TableStations(target, terminals));
  }

  /** A station index is in the candidate exactly when the table shows it. */
  lemma CandidateIndex(fullBank: seq<Station>, target: nat, terminals: seq<nat>, ps: seq<nat>, sorted: seq<Station>, i: nat)
    requires IdsArePositions(fullBank)
    requires ps == Positions(|fullBank|, TableStations(target, terminals))
    requires forall k :: 0 <= k < |ps| ==> ps[k] < |fullBank|
    requires sorted == Pick(fullBank, ps)
    requires i < |fullBank| && (i in TableStations(target, terminals) ==> i in ps)
    ensures i in BankIndices(sorted) <==> i in TableStations(target, terminals)
  {
    if i in TableStations(target, terminals) {
      var k :| 0 <= k < |ps| && ps[k] == i;
      assert sorted[k].id == i;
    }
  }

  /** Step 2's test: the service stops at the target and at some terminal station. */
  predicate StopsForTable(s: Service, target: nat, terminals: seq<nat>)
    requires target < |s.times| && forall k :: 0 <= k < |terminals| ==> terminals[k] < |s.times|
  {
    && !s.times[target].time.isEmpty
    && exists k :: 0 <= k < |terminals| && !s.times[terminals[k]].time.isEmpty
  }

  /** The positions of the services kept by step 2, in their original order. */
  function SelectedServices(allServices: seq<Service>, fullBank: seq<Station>, target: nat, terminals: seq<nat>): seq<nat>
    requires WellFormed(fullBank, allServices, target, terminals)
  {
    Positions(|allServices|, StoppingServices(allServices, fullBank, target, terminals))
  }

  /** The services (by position) that stop at the target and at some terminal station. */
  function StoppingServices(allServices: seq<Service>, fullBank: seq<Station>, target: nat, terminals: seq<nat>): set<nat>
    requires WellFormed(fullBank, allServices, target, terminals)
  {
    set i: nat | i < |allServices| && StopsForTable(allServices[i], target, terminals)
  }

  /** A bank and its services, the result of the derivation. */
  datatype Contents = Contents(bank: seq<Station>, services: seq<Service>)

  /** Every service's cell at position `p` is empty. */
  predicate EmptyColumn(services: seq<Service>, p: nat)
  {
    forall k :: 0 <= k < |services| ==> p < |services[k].times| && services[k].times[p].time.isEmpty
  }

  /** The stations (by position in the bank) whose cell is empty in every service. */
  function UnusedStations(width: nat, services: seq<Service>): set<nat>
  {
    set p: nat | p < width && EmptyColumn(services, p)
  }

  /** The `forEach` of step 4 that pushes the index of every station at which
      no service stops: the unused positions in ascending order. */
  method CollectUnused(width: nat, services: seq<Service>) returns (remove: seq<nat>)
    ensures remove == Positions(width, UnusedStations(width, services))
    ensures forall p: nat :: p in remove <==> p < width && EmptyColumn(services, p)
  {
    remove := [];
    var index := 0;
    while index < width
      invariant index <= width
      invariant remove == Positions(index, UnusedStations(width, services))
    {
      PositionsStep(index, UnusedStations(width, services));
      assert index in UnusedStations(width, services) <==> EmptyColumn(services, index);
      if EmptyColumn(services, index) {
        remove := remove + [index];
      }
      index := index + 1;
    }
    PositionsComplete(width, UnusedStations(width, services));
    assert forall p: nat :: p < width && EmptyColumn(services, p) ==> p in UnusedStations(width, services);
  }

  /** The stations (by position in the bank) some service stops at. */
  function UsedStations(width: nat, services: seq<Service>): set<nat>
  {
    set p: nat | p < width && p !in UnusedStations(width, services)
  }

  /** The positions of the stations some service stops at. */
  function Kept(width: nat, services: seq<Service>): seq<nat>
  {
    Positions(width, UsedStations(width, services))
  }

  /** Step 4, `removeStations`: drop every station at which no service stops,
      from the bank and from every service. */
  function Prune(bank: seq<Station>, services: seq<Service>): (c: Contents)
    requires Rectangular(services, |bank|)
    ensures |c.services| == |services| && Rectangular(c.services, |c.bank|)
  {
    var kept := Kept(|bank|, services);
    Contents(Pick(bank, kept),
             seq(|services|, k requires 0 <= k < |services| => services[k].(times := Pick(services[k].times, kept))))
  }

  /** The services of step 3: the selected services with their cells
      projected onto the positions `ps` of the full bank. */
  function Projected(allServices: seq<Service>, selected: seq<nat>, ps: seq<nat>, width: nat): (r: seq<Service>)
    requires forall k :: 0 <= k < |selected| ==> selected[k] < |allServices|
    requires Rectangular(allServices, width) && forall k :: 0 <= k < |ps| ==> ps[k] < width
    ensures |r| == |selected| && Rectangular(r, |ps|)
  {
    seq(|selected|, k requires 0 <= k < |selected| =>
      allServices[selected[k]].(times := Pick(allServices[selected[k]].times, ps)))
  }

  /** `calculateTableContents`. */
  function Derive(fullBank: seq<Station>, allServices: seq<Service>, target: nat, terminals: seq<nat>): Contents
    requires WellFormed(fullBank, allServices, target, terminals)
  {
    var bank := Candidate(fullBank, target, terminals);
    CandidateIsFilter(fullBank, allServices, target, terminals);
    var columns := Positions(|fullBank|, BankIndices(bank));
    var selected := SelectedServices(allServices, fullBank, target, terminals);
    Prune(bank, Projected(allServices, selected, columns, |fullBank|))
  }

  /** Pruning keeps, in order, the stations at `Kept`, and from every service
      exactly the cells at those stations. */
  lemma PruneShape(bank: seq<Station>, services: seq<Service>)
    requires Rectangular(services, |bank|)
    ensures var c := Prune(bank, services);
      var kept := Kept(|bank|, services);
      && StrictlyIncreasing(kept) && |c.bank| == |kept|
      && (forall p :: 0 <= p < |kept| ==> kept[p] < |bank| && c.bank[p] == bank[kept[p]])
      && (forall k :: 0 <= k < |services| ==> c.services[k].isPatternMatching == services[k].isPatternMatching)
      && (forall k, p :: 0 <= k < |services| && 0 <= p < |kept| ==>
            c.services[k].times[p] == services[k].times[kept[p]])
  {
    var c := Prune(bank, services);
    var kept := Kept(|bank|, services);
    PositionsSorted(|bank|, UsedStations(|bank|, services));
    forall k, p | 0 <= k < |services| && 0 <= p < |kept|
      ensures c.services[k].times[p] == services[k].times[kept[p]]
    {
      assert c.services[k].times == Pick(services[k].times, kept);
    }
  }

  /** Pruning is exact: every station left is used by some service, and every
      station dropped has an empty cell in every service. */
  lemma PruneExact(bank: seq<Station>, services: seq<Service>)
    requires Rectangular(services, |bank|)
    ensures var c := Prune(bank, services);
      var kept := Kept(|bank|, services);
      && (forall p :: 0 <= p < |c.bank| ==> !EmptyColumn(c.services, p))
      && (forall q :: 0 <= q < |bank| && q !in kept ==> EmptyColumn(services, q))
  {
    var c := Prune(bank, services);
    var kept := Kept(|bank|, services);
    PruneShape(bank, services);
    PositionsComplete(|bank|, UsedStations(|bank|, services));
    forall p | 0 <= p < |c.bank| ensures !EmptyColumn(c.services, p) {
      assert kept[p] !in UnusedStations(|bank|, services);
      var k :| 0 <= k < |services| && !services[k].times[kept[p]].time.isEmpty;
      assert c.services[k].times[p] == services[k].times[kept[p]];
    }
  }

  /** The derived bank is a subsequence of the full bank in route order
      holding only the target and terminal stations. */
  lemma DeriveBank(fullBank: seq<Station>, allServices: seq<Service>, target: nat, terminals: seq<nat>)
    requires WellFormed(fullBank, allServices, target, terminals)
    ensures var c := Derive(fullBank, allServices, target, terminals);
      && StrictlyIncreasingIds(c.bank)
      && forall p :: 0 <= p < |c.bank| ==>
           c.bank[p].id < |fullBank| && c.bank[p] == fullBank[c.bank[p].id]
           && c.bank[p].id in TableStations(target, terminals)
  {
    CandidateIsFilter(fullBank, allServices, target, terminals);
    var ps := Positions(|fullBank|, TableStations(target, terminals));
    var bank := Candidate(fullBank, target, terminals);
    var selected := SelectedServices(allServices, fullBank, target, terminals);
    var services := Projected(allServices, selected, ps, |fullBank|);
    var kept := Kept(|bank|, services);
    var c := Derive(fullBank, allServices, target, terminals);
    assert c == Prune(bank, services);
    PruneShape(bank, services);
    PositionsSorted(|fullBank|, TableStations(target, terminals));
    forall p | 0 <= p < |c.bank| ensures c.bank[p] == fullBank[ps[kept[p]]] && c.bank[p].id == ps[kept[p]] {
      assert c.bank[p] == bank[kept[p]];
    }
    forall p, q | 0 <= p < q < |c.bank| ensures c.bank[p].id < c.bank[q].id {
      assert kept[p] < kept[q];
    }
  }

  /** The derived services: one per selected service, in order, each with one
      cell per derived station, each cell the source service's cell at that
      station. */
  lemma DeriveCells(fullBank: seq<Station>, allServices: seq<Service>, target: nat, terminals: seq<nat>)
    requires WellFormed(fullBank, allServices, target, terminals)
    ensures var c := Derive(fullBank, allServices, target, terminals);
      var selected := SelectedServices(allServices, fullBank, target, terminals);
      && |c.services| == |selected|
      && Rectangular(c.services, |c.bank|)
      && (forall k :: 0 <= k < |c.services| ==>
            c.services[k].isPatternMatching == allServices[selected[k]].isPatternMatching)
      && (forall k, p :: 0 <= k < |c.services| && 0 <= p < |c.bank| ==>
            c.bank[p].id < |fullBank| &&
            c.services[k].times[p] == allServices[selected[k]].times[c.bank[p].id])
  {
    CandidateIsFilter(fullBank, allServices, target, terminals);
    var ps := Positions(|fullBank|, TableStations(target, terminals));
    var bank := Candidate(fullBank, target, terminals);
    var selected := SelectedServices(allServices, fullBank, target, terminals);
    var services := Projected(allServices, selected, ps, |fullBank|);
    var kept := Kept(|bank|, services);
    var c := Derive(fullBank, allServices, target, terminals);
    assert c == Prune(bank, services);
    PruneShape(bank, services);
    forall k, p | 0 <= k < |c.services| && 0 <= p < |c.bank|
      ensures c.bank[p].id == ps[kept[p]]
      ensures c.services[k].times[p] == allServices[selected[k]].times[ps[kept[p]]]
    {
      assert c.bank[p] == bank[kept[p]];
      assert services[k].times == Pick(allServices[selected[k]].times, ps);
    }
  }

  /** Step 2 keeps, in their original order, exactly the services that stop at
      the target and at some terminal station. */
  lemma SelectedIff(fullBank: seq<Station>, allServices: seq<Service>, target: nat, terminals: seq<nat>)
    requires WellFormed(fullBank, allServices, target, terminals)
    ensures var selected := SelectedServices(allServices, fullBank, target, terminals);
      && StrictlyIncreasing(selected)
      && (forall k :: 0 <= k < |selected| ==> selected[k] < |allServices|)
      && forall i :: 0 <= i < |allServices| ==>
           (i in selected <==> StopsForTable(allServices[i], target, terminals))
  {
    PositionsSorted(|allServices|, StoppingServices(allServices, fullBank, target, terminals));
    PositionsComplete(|allServices|, StoppingServices(allServices, fullBank, target, terminals));
  }

  /** A station at which some service stops survives pruning. */
  lemma PruneKeepsUsed(bank: seq<Station>, services: seq<Service>, q: nat, k: nat)
    requires Rectangular(services, |bank|)
    requires q < |bank| && k < |services| && !services[k].times[q].time.isEmpty
    ensures bank[q] in Prune(bank, services).bank
  {
    var c := Prune(bank, services);
    var kept := Kept(|bank|, services);
    PruneShape(bank, services);
    PositionsComplete(|bank|, UsedStations(|bank|, services));
    assert q !in UnusedStations(|bank|, services);
    assert q in kept;
    var p :| 0 <= p < |kept| && kept[p] == q;
    assert c.bank[p] == bank[q];
  }

  /** `Derive` unfolded: the candidate bank pruned together with the
      selected services projected onto the table's stations. */
  lemma DeriveIsPruned(fullBank: seq<Station>, allServices: seq<Service>, target: nat, terminals: seq<nat>)
    requires WellFormed(fullBank, allServices, target, terminals)
    ensures var ps := Positions(|fullBank|, TableStations(target, terminals));
      && Candidate(fullBank, target, terminals) == Pick(fullBank, ps)
      && Derive(fullBank, allServices, target, terminals)
         == Prune(Pick(fullBank, ps), Projected(allServices, SelectedServices(allServices, fullBank, target, terminals), ps, |fullBank|))
  {
    CandidateIsFilter(fullBank, allServices, target, terminals);
  }

  /** Every table station at which some selected service stops is in the
      derived bank (with `DeriveBank`, the derived bank is exactly these). */
  lemma DeriveComplete(fullBank: seq<Station>, allServices: seq<Service>, target: nat, terminals: seq<nat>, id: nat, k: nat)
    requires WellFormed(fullBank, allServices, target, terminals)
    requires id in TableStations(target, terminals)
    requires k < |SelectedServices(allServices, fullBank, target, terminals)|
    requires !allServices[SelectedServices(allServices, fullBank, target, terminals)[k]].times[id].time.isEmpty
    ensures id in BankIndices(Derive(fullBank, allServices, target, terminals).bank)
  {
    var ps := Positions(|fullBank|, TableStations(target, terminals));
    var selected := SelectedServices(allServices, fullBank, target, terminals);
    var bank := Pick(fullBank, ps);
    var services := Projected(allServices, selected, ps, |fullBank|);
    DeriveIsPruned(fullBank, allServices, target, terminals);
    PositionsComplete(|fullBank|, TableStations(target, terminals));
    assert id in ps;
    var q :| 0 <= q < |ps| && ps[q] == id;
    assert services[k].times == Pick(allServices[selected[k]].times, ps);
    assert services[k].times[q] == allServices[selected[k]].times[id];
    PruneKeepsUsed(bank, services, q, k);
    var c := Prune(bank, services);
    var p :| 0 <= p < |c.bank| && c.bank[p] == bank[q];
    assert bank[q] == fullBank[id];
    assert c.bank[p].id == id;
  }

  /** No station left in the derived bank has an all-empty column. */
  lemma DeriveUsed(fullBank: seq<Station>, allServices: seq<Service>, target: nat, terminals: seq<nat>)
    requires WellFormed(fullBank, allServices, target, terminals)
    ensures var c := Derive(fullBank, allServices, target, terminals);
      forall p :: 0 <= p < |c.bank| ==> !EmptyColumn(c.services, p)
  {
    CandidateIsFilter(fullBank, allServices, target, terminals);
    var ps := Positions(|fullBank|, TableStations(target, terminals));
    var bank := Candidate(fullBank, target, terminals);
    var selected := SelectedServices(allServices, fullBank, target, terminals);
    var services := Projected(allServices, selected, ps, |fullBank|);
    PruneExact(bank, services);
  }

  /** Every table station missing from the derived bank has an empty cell in
      every selected service. */
  lemma DeriveDropped(fullBank: seq<Station>, allServices: seq<Service>, target: nat, terminals: seq<nat>, id: nat)
    requires WellFormed(fullBank, allServices, target, terminals)
    requires id in TableStations(target, terminals)
    requires id !in BankIndices(Derive(fullBank, allServices, target, terminals).bank)
    ensures var selected := SelectedServices(allServices, fullBank, target, terminals);
      forall k :: 0 <= k < |selected| ==> allServices[selected[k]].times[id].time.isEmpty
  {
    var selected := SelectedServices(allServices, fullBank, target, terminals);
    forall k | 0 <= k < |selected| ensures allServices[selected[k]].times[id].time.isEmpty {
      if !allServices[selected[k]].times[id].time.isEmpty {
        DeriveComplete(fullBank, allServices, target, terminals, id, k);
      }
    }
  }

  /** The target station survives pruning whenever some service is selected. */
  lemma TargetSurvives(fullBank: seq<Station>, allServices: seq<Service>, target: nat, terminals: seq<nat>)
    requires WellFormed(fullBank, allServices, target, terminals)
    requires Derive(fullBank, allServices, target, terminals).services != []
    ensures target in BankIndices(Derive(fullBank, allServices, target, terminals).bank)
  {
    var selected := SelectedServices(allServices, fullBank, target, terminals);
    DeriveCells(fullBank, allServices, target, terminals);
    SelectedIff(fullBank, allServices, target, terminals);
    assert selected[0] in selected;
    DeriveComplete(fullBank, allServices, target, terminals, target, 0);
  }

  /** With no services every station is unused. */
  lemma PruneNoServices(bank: seq<Station>)
    ensures Prune(bank, []) == Contents([], [])
  {
    PositionsOfNothing(|bank|, set p: nat | p < |bank| && p !in UnusedStations(|bank|, []));
  }

  /** A table without terminal stations has no stations and no services. */
  lemma NoTerminalsNoContents(fullBank: seq<Station>, allServices: seq<Service>, target: nat)
    requires WellFormed(fullBank, allServices, target, [])
    ensures Derive(fullBank, allServices, target, []) == Contents([], [])
  {
    var keep := set i: nat | i < |allServices| && StopsForTable(allServices[i], target, []);
    PositionsOfNothing(|allServices|, keep);
    var selected := SelectedServices(allServices, fullBank, target, []);
    assert selected == [];
    var bank := Candidate(fullBank, target, []);
    CandidateIsFilter(fullBank, allServices, target, []);
    var columns := Positions(|fullBank|, BankIndices(bank));
    var services := Projected(allServices, selected, columns, |fullBank|);
    assert services == [];
    assert Derive(fullBank, allServices, target, []) == Prune(bank, services);
    PruneNoServices(bank);
  }

  lemma StopsAgree(s: Service, target: nat, t1: seq<nat>, t2: seq<nat>)
    requires target < |s.times|
    requires forall k :: 0 <= k < |t1| ==> t1[k] < |s.times|
    requires forall k :: 0 <= k < |t2| ==> t2[k] < |s.times|
    requires Members(t1) == Members(t2)
    ensures StopsForTable(s, target, t1) ==> StopsForTable(s, target, t2)
  {
    if StopsForTable(s, target, t1) {
      var k :| 0 <= k < |t1| && !s.times[t1[k]].time.isEmpty;
      assert t1[k] in Members(t1);
      assert t1[k] in t2;
      var m :| 0 <= m < |t2| && t2[m] == t1[k];
    }
  }

  lemma SelectedDependsOnSet(fullBank: seq<Station>, allServices: seq<Service>, target: nat, t1: seq<nat>, t2: seq<nat>)
    requires WellFormed(fullBank, allServices, target, t1)
    requires WellFormed(fullBank, allServices, target, t2)
    requires Members(t1) == Members(t2)
    ensures SelectedServices(allServices, fullBank, target, t1) == SelectedServices(allServices, fullBank, target, t2)
  {
    var keep1 := set i: nat | i < |allServices| && StopsForTable(allServices[i], target, t1);
    var keep2 := set i: nat | i < |allServices| && StopsForTable(allServices[i], target, t2);
    forall i | 0 <= i < |allServices| ensures i in keep1 <==> i in keep2 {
      StopsAgree(allServices[i], target, t1, t2);
      StopsAgree(allServices[i], target, t2, t1);
    }
    PositionsAgree(|allServices|, keep1, keep2);
  }

  /** The derivation depends only on the set of terminal stations, not on
      their order. */
  lemma DeriveDependsOnSet(fullBank: seq<Station>, allServices: seq<Service>, target: nat, t1: seq<nat>, t2: seq<nat>)
    requires WellFormed(fullBank, allServices, target, t1)
    requires WellFormed(fullBank, allServices, target, t2)
    requires Members(t1) == Members(t2)
    ensures Derive(fullBank, allServices, target, t1) == Derive(fullBank, allServices, target, t2)
  {
    assert TableStations(target, t1) == TableStations(target, t2);
    CandidateIsFilter(fullBank, allServices, target, t1);
    CandidateIsFilter(fullBank, allServices, target, t2);
    var bank := Candidate(fullBank, target, t1);
    assert bank == Candidate(fullBank, target, t2);
    SelectedDependsOnSet(fullBank, allServices, target, t1, t2);
    var selected := SelectedServices(allServices, fullBank, target, t1);
    var columns := Positions(|fullBank|, BankIndices(bank));
    var services := Projected(allServices, selected, columns, |fullBank|);
    assert Derive(fullBank, allServices, target, t1) == Prune(bank, services);
    assert Derive(fullBank, allServices, target, t2) == Prune(bank, services);
  }

  /** `terminalStations.filter(id => id !== stationId)`. */
  function Without(xs: seq<nat>, id: nat): (r: seq<nat>)
    ensures forall x :: x in r <==> x in xs && x != id
    ensures NoDuplicates(xs) ==> NoDuplicates(r)
  {
    if xs == [] then []
    else if xs[0] == id then Without(xs[1..], id)
    else
      assert NoDuplicates(xs) ==> xs[0] !in xs[1..];
      [xs[0]] + Without(xs[1..], id)
  }

  /** `TOGGLE_TERMINAL_STATION`'s update of the terminal list: remove the
      station when present, otherwise append it. */
  function ToggleTerminal(terminals: seq<nat>, id: nat): (r: seq<nat>)
    ensures Members(r) == if id in terminals then Members(terminals) - {id} else Members(terminals) + {id}
    ensures NoDuplicates(terminals) ==> NoDuplicates(r)
  {
    if id in terminals then Without(terminals, id) else terminals + [id]
  }

  /** Toggling a station is well formed whenever the station is in the full
      bank and is not the target. */
  lemma ToggleWellFormed(fullBank: seq<Station>, allServices: seq<Service>, target: nat, terminals: seq<nat>, id: nat)
    requires WellFormed(fullBank, allServices, target, terminals)
    requires id < |fullBank| && id != target
    ensures WellFormed(fullBank, allServices, target, ToggleTerminal(terminals, id))
  {
    var r := ToggleTerminal(terminals, id);
    forall k | 0 <= k < |r| ensures r[k] < |fullBank| {
      assert r[k] in Members(r);
    }
    assert target !in Members(r);
  }

  /** Toggling the same station twice restores the set of terminal stations
      (though not necessarily their order) and hence the derived table. */
  lemma ToggleTwice(fullBank: seq<Station>, allServices: seq<Service>, target: nat, terminals: seq<nat>, id: nat)
    requires WellFormed(fullBank, allServices, target, terminals)
    requires id < |fullBank| && id != target
    ensures var twice := ToggleTerminal(ToggleTerminal(terminals, id), id);
      && Members(twice) == Members(terminals)
      && WellFormed(fullBank, allServices, target, twice)
      && Derive(fullBank, allServices, target, twice) == Derive(fullBank, allServices, target, terminals)
  {
    var once := ToggleTerminal(terminals, id);
    ToggleWellFormed(fullBank, allServices, target, terminals, id);
    ToggleWellFormed(fullBank, allServices, target, once, id);
    var twice := ToggleTerminal(once, id);
    assert (id in terminals) == (id !in once) by {
      assert id in terminals <==> id in Members(terminals);
      assert id in once <==> id in Members(once);
    }
    assert Members(twice) == Members(terminals);
    DeriveDependsOnSet(fullBank, allServices, target, twice, terminals);
  }

  /** The hard-coded names of the stations every new table starts with as terminals. */
  const DefaultTerminalNames: seq<string> := [
    "St. Pancras International",
    "London Victoria",
    "London Charing Cross",
    "London Bridge",
    "London Cannon Street",
    "London Blackfriars"
  ]

  predicate IsDefaultTerminal(station: Station, target: nat)
  {
    station.id != target && station.name in DefaultTerminalNames
  }

  /** The positions of the stations `ADD_TABLE`'s filter keeps. */
  function DefaultPositions(bank: seq<Station>, target: nat): set<nat>
  {
    set i: nat | i < |bank| && IsDefaultTerminal(bank[i], target)
  }

  /** `ADD_TABLE`'s initial terminal list: the ids, in bank order, of the
      stations other than the target that carry one of the default names. */
  function DefaultTerminals(bank: seq<Station>, target: nat): (r: seq<nat>)
    ensures |r| <= |bank|
  {
    var ps := Positions(|bank|, DefaultPositions(bank, target));
    seq(|ps|, k requires 0 <= k < |ps| => bank[ps[k]].id)
  }

  /** An id is a default terminal exactly when some station other than the
      target carries it and one of the default names. */
  lemma DefaultTerminalsMembers(bank: seq<Station>, target: nat, x: nat)
    ensures x in DefaultTerminals(bank, target)
        <==> exists i :: 0 <= i < |bank| && bank[i].id == x && IsDefaultTerminal(bank[i], target)
  {
    var ps := Positions(|bank|, DefaultPositions(bank, target));
    var r := DefaultTerminals(bank, target);
    if x in r {
      var k :| 0 <= k < |r| && r[k] == x;
      assert ps[k] in DefaultPositions(bank, target);
      assert bank[ps[k]].id == x;
    }
    if exists i :: 0 <= i < |bank| && bank[i].id == x && IsDefaultTerminal(bank[i], target) {
      var i :| 0 <= i < |bank| && bank[i].id == x && IsDefaultTerminal(bank[i], target);
      PositionsComplete(|bank|, DefaultPositions(bank, target));
      assert i in DefaultPositions(bank, target);
      var k :| 0 <= k < |ps| && ps[k] == i;
      assert r[k] == x;
    }
  }

  /** In a bank sorted by id the default terminals come in ascending order. */
  lemma DefaultTerminalsSorted(bank: seq<Station>, target: nat)
    requires StrictlyIncreasingIds(bank)
    ensures StrictlyIncreasing(DefaultTerminals(bank, target))
  {
    var ps := Positions(|bank|, DefaultPositions(bank, target));
    var r := DefaultTerminals(bank, target);
    PositionsSorted(|bank|, DefaultPositions(bank, target));
    forall i, j | 0 <= i < j < |r| ensures r[i] < r[j] {
      assert ps[i] < ps[j];
    }
  }

  /** The default terminal list is one the derivation accepts. */
  lemma DefaultTerminalsWellFormed(fullBank: seq<Station>, allServices: seq<Service>, target: nat)
    requires IdsArePositions(fullBank) && Rectangular(allServices, |fullBank|) && target < |fullBank|
    ensures WellFormed(fullBank, allServices, target, DefaultTerminals(fullBank, target))
  {
    var ps := Positions(|fullBank|, DefaultPositions(fullBank, target));
    var r := DefaultTerminals(fullBank, target);
    PositionsSorted(|fullBank|, DefaultPositions(fullBank, target));
    assert forall k :: 0 <= k < |r| ==> r[k] == ps[k] && IsDefaultTerminal(fullBank[ps[k]], target);
    forall i, j | 0 <= i < j < |r| ensures r[i] != r[j] {
      assert ps[i] < ps[j];
    }
    assert forall k :: 0 <= k < |r| ==> r[k] != target;
  }
}
