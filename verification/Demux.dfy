/** Demultiplexing: keys are given one of a fixed number of slots (or the overflow) until they are closed, and
    every item of a burst is put in the row of its key's slot. */
module Demuxing {
  import opened TimeQueues
  import opened GraphModel
  import opened Evaluation
  import opened Equations

  datatype DemuxEvent = Keep | Close

  datatype DemuxEntry = Slot(index: nat) | Overflow

  /** Free slots, and the slot (or overflow) of every live key. */
  datatype SlotMap<K> = SlotMap(available: set<nat>, inUse: map<K, Option<nat>>, size: nat)

  ghost predicate Holds<K(!new)>(m: SlotMap<K>, k: K, ix: nat) {
    k in m.inUse && m.inUse[k] == Some(ix)
  }

  /** The slots `0..size` are partitioned into free ones and assigned ones, and no two keys share a slot. */
  ghost predicate Partitioned<K(!new)>(m: SlotMap<K>) {
    && (forall ix :: ix in m.available ==> ix < m.size)
    && (forall k, ix: nat :: Holds(m, k, ix) ==> ix < m.size && ix !in m.available)
    && (forall ix: nat :: ix < m.size && ix !in m.available ==> exists k :: Holds(m, k, ix))
    && (forall k, k', ix: nat :: Holds(m, k, ix) && Holds(m, k', ix) ==> k == k')
  }

  function EntryOf(slot: Option<nat>): DemuxEntry {
    match slot
    case Some(ix) => Slot(ix)
    case None => Overflow
  }

  function SlotOf(e: DemuxEntry): Option<nat> {
    match e
    case Slot(ix) => Some(ix)
    case Overflow => None
  }

  function SlotSet(slot: Option<nat>): set<nat> {
    match slot
    case Some(ix) => {ix}
    case None => {}
  }

  /** Some free slot, or the overflow if there is none. */
  ghost predicate Peeks<K>(m: SlotMap<K>, e: DemuxEntry) {
    if m.available == {} then e == Overflow else e.Slot? && e.index in m.available
  }

  /** Looking up key `k` for an item with event `ev`: where the item goes and how the map changes.  Closing a
      key that is not live sends the item to a free slot without claiming it. */
  ghost predicate Routed<K>(m: SlotMap<K>, k: K, ev: DemuxEvent, e: DemuxEntry, m': SlotMap<K>) {
    && m'.size == m.size
    && match ev
       case Close =>
         if k in m.inUse
         then e == EntryOf(m.inUse[k]) && m'.inUse == m.inUse - {k} && m'.available == m.available + SlotSet(m.inUse[k])
         else Peeks(m, e) && m' == m
       case Keep =>
         if k in m.inUse
         then e == EntryOf(m.inUse[k]) && m' == m
         else Peeks(m, e) && m'.inUse == m.inUse[k := SlotOf(e)] && m'.available == m.available - SlotSet(SlotOf(e))
  }

  /** No lookup touches another key. */
  lemma OthersKeepTheirs<K(!new)>(m: SlotMap<K>, k: K, ev: DemuxEvent, e: DemuxEntry, m': SlotMap<K>)
    requires Routed(m, k, ev, e, m')
    ensures forall k', ix: nat :: k' != k ==> (Holds(m', k', ix) <==> Holds(m, k', ix))
    ensures forall k' :: k' != k ==>
              (k' in m'.inUse <==> k' in m.inUse) && (k' in m.inUse ==> m'.inUse[k'] == m.inUse[k'])
  {
  }

  lemma CloseKeepsPartition<K(!new)>(m: SlotMap<K>, k: K, e: DemuxEntry, m': SlotMap<K>)
    requires Partitioned(m) && Routed(m, k, Close, e, m')
    ensures Partitioned(m')
  {
    OthersKeepTheirs(m, k, Close, e, m');
    if k in m.inUse {
      assert forall ix: nat :: !Holds(m', k, ix);
      assert m.inUse[k].Some? ==> Holds(m, k, m.inUse[k].value);
      forall ix: nat | ix < m'.size && ix !in m'.available ensures exists k' :: Holds(m', k', ix) {
        assert ix !in m.available;
        var k' :| Holds(m, k', ix);
        assert Holds(m', k', ix);
      }
    }
  }

  lemma KeepKeepsPartition<K(!new)>(m: SlotMap<K>, k: K, e: DemuxEntry, m': SlotMap<K>)
    requires Partitioned(m) && Routed(m, k, Keep, e, m')
    ensures Partitioned(m')
  {
    OthersKeepTheirs(m, k, Keep, e, m');
    if k !in m.inUse {
      assert forall ix: nat :: Holds(m', k, ix) <==> e == Slot(ix);
      forall ix: nat | ix < m'.size && ix !in m'.available ensures exists k' :: Holds(m', k', ix) {
        if e == Slot(ix) {
          assert Holds(m', k, ix);
        } else {
          assert ix !in m.available;
          var k' :| Holds(m, k', ix);
          assert Holds(m', k', ix);
        }
      }
    }
  }

  lemma PartitionKept<K(!new)>(m: SlotMap<K>, k: K, ev: DemuxEvent, e: DemuxEntry, m': SlotMap<K>)
    requires Partitioned(m) && Routed(m, k, ev, e, m')
    ensures Partitioned(m')
  {
    if ev == Close {
      CloseKeepsPartition(m, k, e, m');
    } else {
      KeepKeepsPartition(m, k, e, m');
    }
  }

  ghost predicate Held<K(!new)>(m: SlotMap<K>, ix: nat) {
    exists k :: Holds(m, k, ix)
  }

  /** A key that is not live gets a slot that nobody holds, unless live keys hold them all. */
  lemma OverflowIffFull<K(!new)>(m: SlotMap<K>, k: K, ev: DemuxEvent, e: DemuxEntry, m': SlotMap<K>)
    requires Partitioned(m) && Routed(m, k, ev, e, m') && k !in m.inUse
    ensures e == Overflow <==> forall ix: nat :: ix < m.size ==> Held(m, ix)
    ensures e.Slot? ==> e.index < m.size && !Held(m, e.index)
    ensures ev == Keep ==> k in m'.inUse && m'.inUse[k] == if e.Slot? then Some(e.index) else None
  {
    forall ix: nat | ix < m.size ensures Held(m, ix) <==> ix !in m.available {
    }
    if m.available != {} {
      var ix :| ix in m.available;
      assert ix < m.size && !Held(m, ix);
    }
  }

  class DemuxMap<K(==,!new)> {
    var available: set<nat>
    var inUse: map<K, Option<nat>>
    const size: nat

    ghost function View(): SlotMap<K>
      reads this
    {
      SlotMap(available, inUse, size)
    }

    constructor (size: nat)
      ensures Partitioned(View()) && inUse == map[] && this.size == size
    {
      this.size := size;
      available, inUse := Below(size), map[];
    }

    method PeekAvailable() returns (slot: Option<nat>)
      ensures Peeks(View(), EntryOf(slot))
    {
      if available == {} {
        return None;
      }
      var ix :| ix in available;
      return Some(ix);
    }

    method Release(key: K) returns (e: DemuxEntry)
      requires Partitioned(View())
      modifies this
      ensures Routed(old(View()), key, Close, e, View()) && Partitioned(View())
    {
      if key in inUse {
        var slot := inUse[key];
        inUse := inUse - {key};
        if slot.Some? {
          available := available + {slot.value};
        }
        e := EntryOf(slot);
      } else {
        var slot := PeekAvailable();
        e := EntryOf(slot);
      }
      PartitionKept(old(View()), key, Close, e, View());
    }

    method GetOrInsert(key: K) returns (e: DemuxEntry)
      requires Partitioned(View())
      modifies this
      ensures Routed(old(View()), key, Keep, e, View()) && Partitioned(View())
    {
      if key in inUse {
        e := EntryOf(inUse[key]);
      } else {
        var slot := PeekAvailable();
        if slot.Some? {
          available := available - {slot.value};
        }
        inUse := inUse[key := slot];
        e := EntryOf(slot);
      }
      PartitionKept(old(View()), key, Keep, e, View());
    }

    /** Which row an item with this key and event goes to; row `size` is the overflow's. */
    method Lookup(key: K, event: DemuxEvent) returns (row: nat, ghost route: Route<K>)
      requires Partitioned(View())
      modifies this
      ensures Partitioned(View()) && row <= size
      ensures route.before == old(View()) && route.after == View() && (route.key, route.event) == (key, event)
      ensures Routed(route.before, route.key, route.event, route.entry, route.after) &&
              row == RowIndex(route.entry, size)
      ensures route.entry.Slot? ==> route.entry.index < size
    {
      ghost var before := View();
      var entry;
      if event == Close {
        entry := Release(key);
      } else {
        entry := GetOrInsert(key);
      }
      route := Route(before, key, event, entry, View());
      row := RowIndex(entry, size);
      EntryInRange(before, key, event, entry, View());
    }
  }

  /** One stream of items at a time: the child of the item's slot is marked, and reads the value. */
  class DemuxParent<T, K(==,!new)> {
    var value: T
    const func: T -> (K, DemuxEvent)
    const demux: DemuxMap<K>
    const children: seq<nat>

    ghost predicate Valid()
      reads this, demux
    {
      Partitioned(demux.View()) && |children| == demux.size + 1
    }

    constructor (default: T, func: T -> (K, DemuxEvent), demux: DemuxMap<K>, children: seq<nat>)
      requires Partitioned(demux.View()) && |children| == demux.size + 1
      ensures Valid() && this.func == func && this.demux == demux && this.children == children
    {
      value, this.func, this.demux, this.children := default, func, demux, children;
    }

    method Cycle(item: T) returns (mark: nat, ghost route: Route<K>)
      requires Valid()
      modifies this`value, demux
      ensures Valid() && value == item && route.before == old(demux.View()) && route.after == demux.View()
      ensures (route.key, route.event) == func(item) &&
              Routed(route.before, route.key, route.event, route.entry, route.after)
      ensures match route.entry
              case Slot(ix) => ix < demux.size && mark == children[ix]
              case Overflow => mark == children[demux.size]
    {
      value := item;
      var (key, event) := func(value);
      var row;
      row, route := demux.Lookup(key, event);
      mark := children[row];
    }
  }

  // ----- Runs of lookups -----

  datatype Route<K> = Route(before: SlotMap<K>, key: K, event: DemuxEvent, entry: DemuxEntry, after: SlotMap<K>)

  /** The lookups take the map from `m` to `m'`. */
  ghost predicate IsRouting<K>(routes: seq<Route<K>>, m: SlotMap<K>, m': SlotMap<K>) {
    if routes == [] then m == m'
    else
      var last := routes[|routes| - 1];
      && IsRouting(routes[..|routes| - 1], m, last.before)
      && Routed(last.before, last.key, last.event, last.entry, last.after) && last.after == m'
  }

  lemma {:induction false} RoutingAt<K(!new)>(routes: seq<Route<K>>, m: SlotMap<K>, m': SlotMap<K>, i: nat)
    requires IsRouting(routes, m, m') && i < |routes| && Partitioned(m)
    ensures Routed(routes[i].before, routes[i].key, routes[i].event, routes[i].entry, routes[i].after)
    ensures Partitioned(routes[i].before) && Partitioned(routes[i].after)
    ensures routes[i].after == if i + 1 < |routes| then routes[i + 1].before else m'
    ensures routes[i].before.size == m.size
    decreases |routes|
  {
    var init, last := routes[..|routes| - 1], routes[|routes| - 1];
    if i < |init| {
      RoutingAt(init, m, last.before, i);
    } else {
      if init == [] {
        assert last.before == m;
      } else {
        RoutingAt(init, m, last.before, |init| - 1);
      }
      PartitionKept(last.before, last.key, last.event, last.entry, last.after);
    }
  }

  ghost predicate Closes<K>(routes: seq<Route<K>>, k: K, i: nat)
    requires i < |routes|
  {
    routes[i].key == k && routes[i].event == Close
  }

  /** A key keeps its slot, or its place in the overflow, until its own close. */
  lemma {:induction false} KeyKeepsSlot<K(!new)>(routes: seq<Route<K>>, m: SlotMap<K>, m': SlotMap<K>, i: nat, j: nat)
    requires IsRouting(routes, m, m') && Partitioned(m) && i < j < |routes| && routes[i].event == Keep
    requires forall x :: i < x < j ==> !Closes(routes, routes[i].key, x)
    ensures var k := routes[i].key; k in routes[j].before.inUse && EntryOf(routes[j].before.inUse[k]) == routes[i].entry
    ensures routes[j].key == routes[i].key ==> routes[j].entry == routes[i].entry
    ensures routes[j].key == routes[i].key ==> SlotsOf(routes, m.size)[j] == SlotsOf(routes, m.size)[i]
    decreases j
  {
    var p := routes[j - 1];
    RoutingAt(routes, m, m', j - 1);
    RoutingAt(routes, m, m', j);
    if i < j - 1 {
      KeyKeepsSlot(routes, m, m', i, j - 1);
      assert !Closes(routes, routes[i].key, j - 1);
      OthersKeepTheirs(p.before, p.key, p.event, p.entry, p.after);
    }
  }

  /** The row of a slot is the slot's own index, and the overflow's row is behind all of them. */
  lemma RowsOfEntries<K(!new)>(routes: seq<Route<K>>, m: SlotMap<K>, m': SlotMap<K>, i: nat)
    requires IsRouting(routes, m, m') && Partitioned(m) && i < |routes|
    ensures match routes[i].entry
            case Slot(ix) => SlotsOf(routes, m.size)[i] == ix < m.size
            case Overflow => SlotsOf(routes, m.size)[i] == m.size
  {
    var p := routes[i];
    RoutingAt(routes, m, m', i);
    EntryInRange(p.before, p.key, p.event, p.entry, p.after);
  }

  /** Two live keys never share a slot: until a key's close, no item of any other key lands in its slot, or in the
      slot's row. */
  lemma LiveKeysAreApart<K(!new)>(routes: seq<Route<K>>, m: SlotMap<K>, m': SlotMap<K>, i: nat, j: nat)
    requires IsRouting(routes, m, m') && Partitioned(m) && i < j < |routes| && routes[i].event == Keep
    requires forall x :: i < x < j ==> !Closes(routes, routes[i].key, x)
    requires routes[j].key != routes[i].key && routes[i].entry.Slot?
    ensures routes[j].entry != routes[i].entry
    ensures SlotsOf(routes, m.size)[j] != SlotsOf(routes, m.size)[i]
  {
    RowsOfEntries(routes, m, m', i);
    RowsOfEntries(routes, m, m', j);
    KeyKeepsSlot(routes, m, m', i, j);
    RoutingAt(routes, m, m', j);
    var b := routes[j].before;
    assert Holds(b, routes[i].key, routes[i].entry.index);
    if routes[j].key in b.inUse && routes[j].entry.Slot? {
      assert Holds(b, routes[j].key, routes[j].entry.index);
    }
  }

  /** Nor does an item of another key mark the child of its slot. */
  lemma LiveKeysMarkApart<K(!new)>(routes: seq<Route<K>>, m: SlotMap<K>, m': SlotMap<K>, children: seq<nat>, i: nat,
                                   j: nat)
    requires IsRouting(routes, m, m') && Partitioned(m) && i < j < |routes| && routes[i].event == Keep
    requires forall x :: i < x < j ==> !Closes(routes, routes[i].key, x)
    requires routes[j].key != routes[i].key && routes[i].entry.Slot?
    requires |children| == m.size + 1 && forall a, b :: 0 <= a < b < |children| ==> children[a] != children[b]
    ensures var marks := MarksOf(SlotsOf(routes, m.size), children);
            routes[i].entry.index < m.size && marks[i] == children[routes[i].entry.index] && marks[j] != marks[i]
  {
    RowsOfEntries(routes, m, m', i);
    RowsOfEntries(routes, m, m', j);
    LiveKeysAreApart(routes, m, m', i, j);
    hide IsRouting, Partitioned;
  }

  // ----- Rows -----

  function RowOf<T>(items: seq<T>, slots: seq<nat>, i: nat): seq<T>
    requires |items| == |slots|
  {
    if items == [] then []
    else
      var n := |items| - 1;
      RowOf(items[..n], slots[..n], i) + if slots[n] == i then [items[n]] else []
  }

  /** `row` is made of the items at the positions `pos`, which are those with slot `i`, in order. */
  ghost predicate Selects<T>(items: seq<T>, slots: seq<nat>, i: nat, row: seq<T>, pos: seq<nat>)
    requires |items| == |slots|
  {
    && |pos| == |row|
    && (forall a :: 0 <= a < |pos| ==> pos[a] < |items| && slots[pos[a]] == i && row[a] == items[pos[a]])
    && (forall a, b :: 0 <= a < b < |pos| ==> pos[a] < pos[b])
    && (forall j: nat :: j < |items| && slots[j] == i ==> j in pos)
  }

  lemma SelectsNext<T>(items: seq<T>, slots: seq<nat>, i: nat, row: seq<T>, pos: seq<nat>, item: T, slot: nat)
    requires |items| == |slots| && Selects(items, slots, i, row, pos)
    ensures slot == i ==> Selects(items + [item], slots + [slot], i, row + [item], pos + [|items|])
    ensures slot != i ==> Selects(items + [item], slots + [slot], i, row, pos)
  {
    assert (pos + [|items|])[|pos|] == |items|;
  }

  /** A row holds exactly the items sent to it, each once, in source order. */
  lemma {:induction false} RowIsSelection<T>(items: seq<T>, slots: seq<nat>, i: nat) returns (pos: seq<nat>)
    requires |items| == |slots|
    ensures Selects(items, slots, i, RowOf(items, slots, i), pos)
    decreases |items|
  {
    if items == [] {
      pos := [];
    } else {
      var n := |items| - 1;
      var init := RowIsSelection(items[..n], slots[..n], i);
      SelectsNext(items[..n], slots[..n], i, RowOf(items[..n], slots[..n], i), init, items[n], slots[n]);
      assert items == items[..n] + [items[n]] && slots == slots[..n] + [slots[n]];
      hide Selects;
      LastOfRow(items, slots, i);
      hide RowOf;
      pos := if slots[n] == i then init + [n] else init;
      assert slots[n] != i ==> RowOf(items, slots, i) == RowOf(items[..n], slots[..n], i);
    }
  }

  /** All the rows together. */
  function Together<T>(rows: seq<seq<T>>): multiset<T> {
    if rows == [] then multiset{} else Together(rows[..|rows| - 1]) + multiset(rows[|rows| - 1])
  }

  lemma {:induction false} TogetherGrows<T>(rows: seq<seq<T>>, i: nat, x: T)
    requires i < |rows|
    ensures Together(rows[i := rows[i] + [x]]) == Together(rows) + multiset{x}
    decreases |rows|
  {
    var n, rows' := |rows| - 1, rows[i := rows[i] + [x]];
    if i < n {
      TogetherGrows(rows[..n], i, x);
      assert rows'[..n] == rows[..n][i := rows[..n][i] + [x]];
    } else {
      assert rows'[..n] == rows[..n];
    }
  }

  lemma {:induction false} TogetherNothing<T>(rows: seq<seq<T>>)
    requires forall i :: 0 <= i < |rows| ==> rows[i] == []
    ensures Together(rows) == multiset{}
  {
    if rows != [] {
      TogetherNothing(rows[..|rows| - 1]);
    }
  }

  ghost predicate Distributed<T>(rows: seq<seq<T>>, items: seq<T>, slots: seq<nat>) {
    && |slots| == |items| && (forall j :: 0 <= j < |slots| ==> slots[j] < |rows|)
    && (forall i :: 0 <= i < |rows| ==> rows[i] == RowOf(items, slots, i))
  }

  lemma LastOfRow<T>(items: seq<T>, slots: seq<nat>, i: nat)
    requires |items| == |slots| > 0
    ensures var n := |items| - 1;
            RowOf(items, slots, i) == RowOf(items[..n], slots[..n], i) + if slots[n] == i then [items[n]] else []
  {
  }

  /** Conservation: the rows together hold the burst, nothing lost and nothing doubled. */
  lemma {:induction false} RowsConserve<T>(rows: seq<seq<T>>, items: seq<T>, slots: seq<nat>)
    requires Distributed(rows, items, slots)
    ensures Together(rows) == multiset(items)
    decreases |items|
  {
    if items == [] {
      TogetherNothing(rows);
    } else {
      var n := |items| - 1;
      var before := RowsBefore(rows, items, slots);
      RowsConserve(before, items[..n], slots[..n]);
      OneMoreItem(before, items, slots[n]);
    }
    hide *;
  }

  lemma OneMoreItem<T>(before: seq<seq<T>>, items: seq<T>, row: nat)
    requires items != [] && row < |before| && Together(before) == multiset(items[..|items| - 1])
    ensures Together(before[row := before[row] + [items[|items| - 1]]]) == multiset(items)
  {
    TogetherGrows(before, row, items[|items| - 1]);
    hide *;
    assert items == items[..|items| - 1] + [items[|items| - 1]];
  }

  /** The rows before the last item came. */
  lemma RowsBefore<T>(rows: seq<seq<T>>, items: seq<T>, slots: seq<nat>) returns (before: seq<seq<T>>)
    requires Distributed(rows, items, slots) && items != []
    ensures var n := |items| - 1;
            && Distributed(before, items[..n], slots[..n]) && slots[n] < |before|
            && rows == before[slots[n] := before[slots[n]] + [items[n]]]
  {
    var n := |items| - 1;
    before := seq(|rows|, i requires 0 <= i < |rows| => RowOf(items[..n], slots[..n], i));
    hide RowOf;
    forall i | 0 <= i < |rows| ensures rows[i] == before[slots[n] := before[slots[n]] + [items[n]]][i] {
      LastOfRow(items, slots, i);
    }
  }

  lemma RowNext<T>(items: seq<T>, slots: seq<nat>, j: nat, s: nat, i: nat)
    requires j < |items| && |slots| == j
    ensures RowOf(items[..j + 1], slots + [s], i) == RowOf(items[..j], slots, i) + if s == i then [items[j]] else []
  {
    assert items[..j + 1][..j] == items[..j] && (slots + [s])[..j] == slots;
  }

  // ----- The parent node -----

  /** Row `size` is the overflow's. */
  function RowIndex(e: DemuxEntry, size: nat): nat {
    match e
    case Slot(ix) => ix
    case Overflow => size
  }

  /** The rows the lookups choose. */
  function SlotsOf<K>(routes: seq<Route<K>>, size: nat): (s: seq<nat>)
    ensures |s| == |routes| && forall j :: 0 <= j < |s| ==> s[j] == RowIndex(routes[j].entry, size)
    ensures forall j :: 0 <= j < |s| ==> s[j] == if routes[j].entry.Slot? then routes[j].entry.index else size
  {
    if routes == [] then [] else SlotsOf(routes[..|routes| - 1], size) + [RowIndex(routes[|routes| - 1].entry, size)]
  }

  class DemuxVecParent<T, K(==,!new)> {
    const func: T -> (K, DemuxEvent)
    const demux: DemuxMap<K>
    /** Graph indices of the children, the overflow's last. */
    const children: seq<nat>
    const rows: array<seq<T>>

    ghost predicate Valid()
      reads this, demux, rows
    {
      Partitioned(demux.View()) && rows.Length == demux.size + 1 == |children|
    }

    constructor (func: T -> (K, DemuxEvent), demux: DemuxMap<K>, children: seq<nat>)
      requires Partitioned(demux.View()) && |children| == demux.size + 1
      ensures Valid() && fresh(rows) && this.func == func && this.demux == demux && this.children == children
    {
      this.func, this.demux, this.children := func, demux, children;
      rows := new seq<T>[demux.size + 1](_ => []);
    }

    method ClearRows()
      modifies rows
      ensures forall i :: 0 <= i < rows.Length ==> rows[i] == []
    {
      for i := 0 to rows.Length
        invariant forall j :: 0 <= j < i ==> rows[j] == []
      {
        rows[i] := [];
      }
    }

    /** Every item of the burst goes to the row of its key's slot; the children of the rows touched are
        marked. */
    method Cycle(items: seq<T>) returns (marks: seq<nat>, ghost routes: seq<Route<K>>)
      requires Valid()
      modifies demux, rows
      ensures Valid() && IsRouting(routes, old(demux.View()), demux.View()) && Keyed(routes, items, func)
      ensures Distributed(rows[..], items, SlotsOf(routes, demux.size))
      ensures marks == MarksOf(SlotsOf(routes, demux.size), children)
      ensures forall j :: 0 <= j < |items| ==>
                match routes[j].entry
                case Slot(ix) => ix < demux.size && marks[j] == children[ix]
                case Overflow => marks[j] == children[demux.size]
    {
      ClearRows();
      marks, routes := [], [];
      ghost var start, slots := demux.View(), [];
      assert items[..0] == [];
      for j := 0 to |items|
        invariant Valid() && IsRouting(routes, start, demux.View()) && Keyed(routes, items[..j], func)
        invariant slots == SlotsOf(routes, demux.size) && Distributed(rows[..], items[..j], slots)
        invariant marks == MarksOf(slots, children)
      {
        var row;
        ghost var route;
        ghost var before := demux.View();
        var (key, event) := func(items[j]);
        row, route := demux.Lookup(key, event);
        RoutesNext(routes, items, func, start, before, route, demux.size);
        MarksNext(slots, children, row);
        DistributedNext(rows[..], items, slots, j, row);
        hide IsRouting, Routed, SlotsOf, Distributed, MarksOf, Keyed;
        ghost var old_ := rows[..];
        rows[row] := rows[row] + [items[j]];
        assert rows[..] == old_[row := old_[row] + [items[j]]];
        marks := marks + [children[row]];
        routes, slots := routes + [route], slots + [row];
      }
      assert items[..|items|] == items;
      forall j | 0 <= j < |items|
        ensures routes[j].entry.Slot? ==> routes[j].entry.index < demux.size
      {
        RowsOfEntries(routes, start, demux.View(), j);
      }
    }
  }

  /** One lookup per item, for its key and event. */
  ghost predicate Keyed<T, K>(routes: seq<Route<K>>, items: seq<T>, func: T -> (K, DemuxEvent)) {
    |routes| == |items| && forall j :: 0 <= j < |items| ==> (routes[j].key, routes[j].event) == func(items[j])
  }

  function MarksOf(slots: seq<nat>, children: seq<nat>): seq<nat> {
    seq(|slots|, j requires 0 <= j < |slots| => if slots[j] < |children| then children[slots[j]] else 0)
  }

  lemma DistributedNext<T>(rows: seq<seq<T>>, items: seq<T>, slots: seq<nat>, j: nat, row: nat)
    requires j < |items| && Distributed(rows, items[..j], slots) && row < |rows|
    ensures Distributed(rows[row := rows[row] + [items[j]]], items[..j + 1], slots + [row])
  {
    var rows' := rows[row := rows[row] + [items[j]]];
    forall i | 0 <= i < |rows| ensures rows'[i] == RowOf(items[..j + 1], slots + [row], i) {
      RowNext(items, slots, j, row, i);
    }
  }

  lemma RoutesNext<T, K>(routes: seq<Route<K>>, items: seq<T>, func: T -> (K, DemuxEvent), start: SlotMap<K>,
                         before: SlotMap<K>, route: Route<K>, size: nat)
    requires IsRouting(routes, start, before) && route.before == before
    requires |routes| < |items| && Keyed(routes, items[..|routes|], func) &&
             (route.key, route.event) == func(items[|routes|])
    requires Routed(route.before, route.key, route.event, route.entry, route.after)
    ensures IsRouting(routes + [route], start, route.after) && Keyed(routes + [route], items[..|routes| + 1], func)
    ensures SlotsOf(routes + [route], size) == SlotsOf(routes, size) + [RowIndex(route.entry, size)]
  {
    assert (routes + [route])[..|routes|] == routes;
    hide Routed;
  }

  lemma MarksNext(slots: seq<nat>, children: seq<nat>, row: nat)
    requires row < |children|
    ensures MarksOf(slots + [row], children) == MarksOf(slots, children) + [children[row]]
  {
  }

  lemma EntryInRange<K(!new)>(m: SlotMap<K>, k: K, ev: DemuxEvent, e: DemuxEntry, m': SlotMap<K>)
    requires Partitioned(m) && Routed(m, k, ev, e, m')
    ensures e.Slot? ==> e.index < m.size
  {
    if k in m.inUse && m.inUse[k].Some? {
      assert Holds(m, k, m.inUse[k].value);
    }
  }

  // ----- The children, in the same engine cycle -----

  /** The states of the nodes of a demux, among others. */
  datatype NodeState<T> = Parent(rows: seq<seq<T>>) | Child(burst: seq<T>) | Other(state: nat)

  /** Child `i` hangs on the parent by a passive edge alone and shows its row. */
  ghost predicate IsChild<T(!new)>(sc: Scene<NodeState<T>>, p: nat, c: nat, i: nat) {
    && Live(sc.nodes, c) && sc.nodes[c].upstreams == [Edge(p, false)] && c !in sc.dirty
    && forall s, up: Seen<NodeState<T>> :: up.value.Parent? && i < |up.value.rows| ==>
         sc.beh(c, s, [up]) == Reply(Child(up.value.rows[i]), true, [], {})
  }

  /** A child runs in the very cycle in which its parent marks it, and then shows exactly its row; an
      unmarked child does not run. */
  lemma ChildRunsThisCycle<T(!new)>(sc: Scene<NodeState<T>>, p: nat, c: nat, i: nat)
    requires WellFormed(sc) && Live(sc.nodes, p) && IsChild(sc, p, c, i)
    requires Eval(sc, p).state.Parent? && i < |Eval(sc, p).state.rows|
    ensures sc.nodes[p].layer < sc.nodes[c].layer
    ensures Eval(sc, c).ran <==> c in Eval(sc, p).marks
    ensures Eval(sc, c).ran ==> Eval(sc, c) == Outcome(Child(Eval(sc, p).state.rows[i]), true, true, [], {}, false)
  {
    var ups := sc.nodes[c].upstreams;
    assert ups[0] == Edge(p, false) && ups[0] in ups;
    assert Triggered(sc, c) <==> Triggers(Eval(sc, p), ups[0], c);
    var seen := seq(|ups|, k requires 0 <= k < |ups| => assert ups[k] in ups; View(Eval(sc, ups[k].node)));
    assert seen == [View(Eval(sc, p))];
  }

  lemma {:induction false} RowTouched<T>(items: seq<T>, slots: seq<nat>, i: nat)
    requires |items| == |slots|
    ensures RowOf(items, slots, i) != [] <==> i in slots
    decreases |items|
  {
    if items != [] {
      var n := |items| - 1;
      RowTouched(items[..n], slots[..n], i);
      assert slots == slots[..n] + [slots[n]];
    }
  }

  lemma MarkedIffTouched(slots: seq<nat>, children: seq<nat>, i: nat)
    requires i < |children| && (forall j :: 0 <= j < |slots| ==> slots[j] < |children|)
    requires forall a, b :: 0 <= a < b < |children| ==> children[a] != children[b]
    ensures children[i] in MarksOf(slots, children) <==> i in slots
  {
    var marks := MarksOf(slots, children);
    if i in slots {
      var j :| 0 <= j < |slots| && slots[j] == i;
      assert marks[j] == children[i];
    }
    if children[i] in marks {
      var j :| 0 <= j < |marks| && marks[j] == children[i];
      assert slots[j] == i;
    }
  }

  /** Child `c` replies if and only if the row is not empty, and then ticks with exactly that row. */
  ghost predicate Shows<T(!new)>(replies: Replies<NodeState<T>>, c: nat, row: seq<T>) {
    if row == [] then c !in replies else c in replies && replies[c] == Reply(Child(row), true, [], {})
  }

  /** A burst to which the parent replies with its rows and the marks of the rows it touched reaches the children
      in the same engine cycle, each item in one child's row and nothing else. */
  lemma BurstReachesChildren<T(!new)>(sc: Scene<NodeState<T>>, replies: Replies<NodeState<T>>, p: nat,
                                      children: seq<nat>, items: seq<T>, slots: seq<nat>, rows: seq<seq<T>>)
    requires WellFormed(sc) && Solves(sc, replies) && |rows| == |children| && Distributed(rows, items, slots)
    requires forall a, b :: 0 <= a < b < |children| ==> children[a] != children[b]
    requires forall i :: 0 <= i < |children| ==> IsChild(sc, p, children[i], i)
    requires p in replies && replies[p].Reply? && replies[p].state == Parent(rows)
    requires |replies[p].marks| == |slots| && forall j :: 0 <= j < |slots| ==> replies[p].marks[j] == children[slots[j]]
    ensures forall i :: 0 <= i < |children| ==> Shows(replies, children[i], rows[i])
    ensures Together(rows) == multiset(items)
  {
    assert Live(sc.nodes, p);
    hide Solves, WellFormed, Shows;
    RowsConserve(rows, items, slots);
    forall i | 0 <= i < |children| ensures Shows(replies, children[i], rows[i]) {
      assert IsChild(sc, p, children[i], i);
      hide IsChild;
      RowShown(sc, replies, p, children, items, slots, rows, i);
    }
  }

  lemma {:induction false} RowShown<T(!new)>(sc: Scene<NodeState<T>>, replies: Replies<NodeState<T>>, p: nat,
                                             children: seq<nat>, items: seq<T>, slots: seq<nat>, rows: seq<seq<T>>,
                                             i: nat)
    requires WellFormed(sc) && Solves(sc, replies) && |rows| == |children| && Distributed(rows, items, slots)
    requires forall a, b :: 0 <= a < b < |children| ==> children[a] != children[b]
    requires i < |children| && Live(sc.nodes, p) && IsChild(sc, p, children[i], i)
    requires p in replies && replies[p].Reply? && replies[p].state == Parent(rows)
    requires |replies[p].marks| == |slots| && forall j :: 0 <= j < |slots| ==> replies[p].marks[j] == children[slots[j]]
    ensures Shows(replies, children[i], rows[i])
  {
    assert Live(sc.nodes, children[i]);
    hide Solves, WellFormed, IsChild, RowOf;
    assert replies[p].marks == MarksOf(slots, children);
    RowTouched(items, slots, i);
    MarkedIffTouched(slots, children, i);
    ChildReplies(sc, replies, p, children[i], i);
  }

  lemma {:induction false} ChildReplies<T(!new)>(sc: Scene<NodeState<T>>, replies: Replies<NodeState<T>>, p: nat,
                                                 c: nat, i: nat)
    requires WellFormed(sc) && Solves(sc, replies) && Live(sc.nodes, p) && Live(sc.nodes, c) && IsChild(sc, p, c, i)
    requires p in replies && replies[p].Reply? && replies[p].state.Parent? && i < |replies[p].state.rows|
    ensures c in replies <==> c in replies[p].marks
    ensures c in replies ==> replies[c] == Reply(Child(replies[p].state.rows[i]), true, [], {})
  {
    hide Eval, WellFormed, Solves, IsChild;
    SolutionIsEval(sc, replies, p);
    SolutionIsEval(sc, replies, c);
    ChildRunsThisCycle(sc, p, c, i);
  }
}
