/** The time-ordered queue behind the scheduler, `delay` and `feedback`: earliest entry first, entries of
    one time in insertion order, and at most one entry per distinct `(value, time)` pair. */
module TimeQueues {

  datatype Option<+T> = None | Some(value: T)

  datatype Entry<T> = Entry(value: T, time: nat)

  /** The entries in the order in which they pop. */
  ghost predicate Ordered<T>(q: seq<Entry<T>>) {
    && (forall i, j :: 0 <= i < j < |q| ==> q[i].time <= q[j].time)
    && (forall i, j :: 0 <= i < j < |q| ==> q[i] != q[j])
  }

  /** Behind every entry that is due no later, ahead of every later one. */
  function Insert<T(!new)>(q: seq<Entry<T>>, e: Entry<T>): (q': seq<Entry<T>>)
    ensures |q'| == |q| + 1
    ensures forall x :: x in q' <==> x in q || x == e
  {
    if q == [] then [e]
    else
      var last := q[|q| - 1];
      assert q == q[..|q| - 1] + [last];
      if last.time <= e.time then q + [e] else Insert(q[..|q| - 1], e) + [last]
  }

  /** A pair that is already queued is suppressed. */
  function Pushed<T(==,!new)>(q: seq<Entry<T>>, e: Entry<T>): (q': seq<Entry<T>>)
    ensures forall x :: x in q' <==> x in q || x == e
  {
    if e in q then q else Insert(q, e)
  }

  lemma OrderedLast<T(!new)>(q: seq<Entry<T>>, last: Entry<T>)
    requires Ordered(q) && last !in q && forall x :: x in q ==> x.time <= last.time
    ensures Ordered(q + [last])
  {
  }

  lemma {:induction false} InsertOrdered<T(!new)>(q: seq<Entry<T>>, e: Entry<T>)
    requires Ordered(q) && e !in q
    ensures Ordered(Insert(q, e))
  {
    if q == [] || q[|q| - 1].time <= e.time {
      OrderedLast(q, e);
    } else {
      var init, last := q[..|q| - 1], q[|q| - 1];
      assert forall x :: x in init ==> x in q;
      InsertOrdered(init, e);
      OrderedLast(Insert(init, e), last);
    }
    hide Ordered;
  }

  /** A new entry goes behind those of its own time or earlier and ahead of the later ones; nothing else moves. */
  lemma {:induction false} InsertPosition<T(!new)>(q: seq<Entry<T>>, e: Entry<T>) returns (k: nat)
    requires forall i, j :: 0 <= i < j < |q| ==> q[i].time <= q[j].time
    ensures k <= |q| && Insert(q, e) == q[..k] + [e] + q[k..]
    ensures (forall i :: 0 <= i < k ==> q[i].time <= e.time) && forall i :: k <= i < |q| ==> q[i].time > e.time
  {
    var n := |q| - 1;
    if q == [] || q[n].time <= e.time {
      k := |q|;
    } else {
      k := InsertPosition(q[..n], e);
      assert q[..n][..k] == q[..k] && q[..n][k..] + [q[n]] == q[k..];
    }
  }

  lemma PushedOrdered<T(!new)>(q: seq<Entry<T>>, e: Entry<T>)
    requires Ordered(q)
    ensures Ordered(Pushed(q, e))
  {
    if e !in q {
      InsertOrdered(q, e);
    }
  }

  /** An entry later than all others goes to the end. */
  lemma PushedLast<T(!new)>(q: seq<Entry<T>>, e: Entry<T>)
    requires forall i :: 0 <= i < |q| ==> q[i].time < e.time
    ensures Pushed(q, e) == q + [e]
  {
  }

  /** How many entries are due at `now`. */
  function DueCount<T>(q: seq<Entry<T>>, now: nat): (n: nat)
    ensures n <= |q|
    ensures forall i :: 0 <= i < n ==> q[i].time <= now
    ensures n < |q| ==> q[n].time > now
  {
    if q == [] || q[0].time > now then 0 else 1 + DueCount(q[1..], now)
  }

  /** Draining takes exactly the entries due at or before `now`. */
  lemma DueExactly<T>(q: seq<Entry<T>>, now: nat, x: Entry<T>)
    requires Ordered(q)
    ensures x in q[..DueCount(q, now)] <==> x in q && x.time <= now
    ensures x in q[DueCount(q, now)..] <==> x in q && x.time > now
  {
    var n := DueCount(q, now);
    hide DueCount;
    assert q == q[..n] + q[n..];
    if x in q[n..] {
      var i :| 0 <= i < |q[n..]| && q[n..][i] == x;
      assert q[n].time <= q[n + i].time;
    }
  }

  class TimeQueue<T(==,!new)> {
    var entries: seq<Entry<T>>

    ghost predicate Valid()
      reads this
    {
      Ordered(entries)
    }

    constructor ()
      ensures Valid() && entries == []
    {
      entries := [];
    }

    method NextTime() returns (t: Option<nat>)
      requires Valid()
      ensures t.None? <==> entries == []
      ensures t.Some? ==> (exists x :: x in entries && x.time == t.value) && forall x :: x in entries ==>
                t.value <= x.time
    {
      if entries == [] {
        t := None;
      } else {
        t := Some(entries[0].time);
        assert entries[0] in entries;
      }
    }

    method Push(value: T, time: nat)
      requires Valid()
      modifies this
      ensures Valid() && entries == Pushed(old(entries), Entry(value, time))
    {
      PushedOrdered(entries, Entry(value, time));
      entries := Pushed(entries, Entry(value, time));
    }

    /** The earliest entry, if it is due. */
    method PopIfPending(now: nat) returns (v: Option<T>)
      requires Valid()
      modifies this
      ensures Valid()
      ensures v.Some? <==> old(entries) != [] && old(entries)[0].time <= now
      ensures v.Some? ==> v.value == old(entries)[0].value && entries == old(entries)[1..]
      ensures v.None? ==> entries == old(entries)
    {
      if entries != [] && entries[0].time <= now {
        v := Some(entries[0].value);
        entries := entries[1..];
      } else {
        v := None;
      }
    }

    method Clear()
      modifies this
      ensures Valid() && entries == []
    {
      entries := [];
    }
  }
}
