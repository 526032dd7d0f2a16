/**
 The timeline indexes: binary searches over ranges and events, and the slices drawn from
 them, against linear scans.
 */
module Timelines {

  // ----- ranges

  datatype DataRange = DataRange(start: int, end: int, value: string)

  predicate Covers(r: DataRange, key: int) {
    r.start <= key <= r.end
  }

  predicate Meets(r: DataRange, start: int, end: int) {
    r.start <= end && start <= r.end
  }

  /** Proper ranges in order, none touching the next. */
  ghost predicate Disjoint(ranges: seq<DataRange>) {
    && (forall i :: 0 <= i < |ranges| ==> ranges[i].start <= ranges[i].end)
    && (forall i, j :: 0 <= i < j < |ranges| ==> ranges[i].end < ranges[j].start)
  }

  /** The linear scan: the first range covering the key, or -1. */
  function Scan(ranges: seq<DataRange>, key: int): (r: int)
    ensures -1 <= r < |ranges|
    ensures r >= 0 ==> Covers(ranges[r], key)
    ensures forall i :: 0 <= i < |ranges| && (r < 0 || i < r) ==> !Covers(ranges[i], key)
  {
    if ranges == [] then -1
    else
      var n := |ranges| - 1;
      var r := Scan(ranges[..n], key);
      if r >= 0 then r else if Covers(ranges[n], key) then n else -1
  }

  /** A linear scan for the elements with a property. */
  function Filter<T>(s: seq<T>, p: T -> bool): seq<T> {
    if s == [] then []
    else Filter(s[..|s| - 1], p) + (if p(s[|s| - 1]) then [s[|s| - 1]] else [])
  }

  /** If the elements with the property stand together, they are a slice. */
  lemma {:induction false} FilterIsSlice<T>(s: seq<T>, p: T -> bool, lo: nat, hi: nat)
    requires lo <= hi <= |s|
    requires forall i :: 0 <= i < |s| ==> (p(s[i]) <==> lo <= i < hi)
    ensures Filter(s, p) == s[lo..hi]
  {
    if s != [] {
      var n := |s| - 1;
      if hi <= n {
        FilterIsSlice(s[..n], p, lo, hi);
        assert s[..n][lo..hi] == s[lo..hi];
      } else if lo == hi {
        FilterIsSlice(s[..n], p, 0, 0);
      } else {
        FilterIsSlice(s[..n], p, lo, n);
        assert s[lo..hi] == s[..n][lo..n] + [s[n]];
      }
    }
  }

  /** The ranges meeting an interval, by a linear scan. */
  function Meeting(ranges: seq<DataRange>, start: int, end: int): seq<DataRange> {
    Filter(ranges, (r: DataRange) => Meets(r, start, end))
  }

  /** A slice as Python takes it: clipped at the end, empty if the bounds cross. */
  function Slice<T>(s: seq<T>, lo: nat, hi: nat): seq<T> {
    var hi := if hi <= |s| then hi else |s|;
    if lo <= hi then s[lo..hi] else []
  }

  class TimelineDataRange {
    var ranges: seq<DataRange>

    constructor ()
      ensures ranges == []
    {
      ranges := [];
    }

    method AddRange(range: DataRange)
      modifies this
      ensures ranges == old(ranges) + [range]
    {
      ranges := ranges + [range];
    }

    /** Binary search. Whatever the order, an index found covers the key; in order, it is the scan's. */
    method Search(key: int) returns (r: int)
      ensures -1 <= r < |ranges| && (r >= 0 ==> Covers(ranges[r], key))
      ensures Disjoint(ranges) ==> r == Scan(ranges, key)
    {
      var l, u := 0, |ranges| - 1;
      while l <= u
        invariant 0 <= l <= u + 1 <= |ranges|
        invariant Disjoint(ranges) ==>
                    forall i :: 0 <= i < |ranges| && (i < l || u < i) ==> !Covers(ranges[i], key)
      {
        var i := (l + u) / 2;
        if ranges[i].start <= key && key <= ranges[i].end {
          return i;
        } else if key < ranges[i].start {
          u := i - 1;
        } else {
          l := i + 1;
        }
      }
      return -1;
    }

    method GetRangesBounds(start: int, end: int) returns (lo: int, hi: int)
      ensures Disjoint(ranges) ==> (lo, hi) == Bounds(ranges, start, end)
      ensures 0 <= lo <= |ranges| && 0 <= hi <= |ranges|
      ensures Disjoint(ranges) ==> forall i :: 0 <= i < |ranges| && Covers(ranges[i], start) ==> lo == i
      ensures Disjoint(ranges) ==> forall i :: 0 <= i < |ranges| && Covers(ranges[i], end) ==> hi == i + 1
      ensures Disjoint(ranges) && (forall r :: r in ranges ==> !Covers(r, start)) ==> lo == 0
      ensures Disjoint(ranges) && (forall r :: r in ranges ==> !Covers(r, end)) ==>
                hi == if exists r :: r in ranges && Covers(r, start) then |ranges| else 0
    {
      var s := Search(start);
      var e := Search(end);
      if s == -1 && e == -1 {
        return 0, 0;
      } else if s == -1 {
        return 0, e + 1;
      } else if e == -1 {
        return s, |ranges|;
      } else {
        return s, e + 1;
      }
    }

    method GetRanges(start: int, end: int) returns (r: seq<DataRange>)
      ensures Disjoint(ranges) ==> r == Selected(ranges, start, end)
    {
      var s := Search(start);
      var e := Search(end);
      if s == -1 && e == -1 {
        return [];
      } else if s == -1 {
        return Slice(ranges, 0, e + 1);
      } else if e == -1 {
        return Slice(ranges, s, |ranges|);
      } else {
        return Slice(ranges, s, e + 1);
      }
    }
  }

  /** The bounds chosen from where the two ends of the interval fall. */
  function Bounds(ranges: seq<DataRange>, start: int, end: int): (b: (int, int))
    ensures 0 <= b.0 <= |ranges| && 0 <= b.1 <= |ranges|
  {
    var s, e := Scan(ranges, start), Scan(ranges, end);
    (if s == -1 then 0 else s,
     if e != -1 then e + 1 else if s != -1 then |ranges| else 0)
  }

  function Selected(ranges: seq<DataRange>, start: int, end: int): seq<DataRange> {
    Slice(ranges, Bounds(ranges, start, end).0, Bounds(ranges, start, end).1)
  }

  /** How many ranges lie wholly before an interval, and how many start within or before it. */
  lemma {:induction false} Cuts(ranges: seq<DataRange>, start: int, end: int) returns (lo: nat, hi: nat)
    requires Disjoint(ranges) && start <= end
    ensures lo <= hi <= |ranges|
    ensures forall i :: 0 <= i < |ranges| ==> (ranges[i].end < start <==> i < lo)
    ensures forall i :: 0 <= i < |ranges| ==> (ranges[i].start <= end <==> i < hi)
  {
    if ranges == [] {
      lo, hi := 0, 0;
    } else {
      var n := |ranges| - 1;
      lo, hi := Cuts(ranges[..n], start, end);
      assert forall i :: 0 <= i < n ==> ranges[..n][i] == ranges[i];
      if ranges[n].end < start {
        lo := n + 1;
      }
      if ranges[n].start <= end {
        hi := n + 1;
      }
    }
  }

  /** When the slice is exactly what meets the interval: nothing else is dragged in or left out. */
  ghost predicate SliceIsExact(ranges: seq<DataRange>, start: int, end: int) {
    var s, e := Scan(ranges, start) >= 0, Scan(ranges, end) >= 0;
    && (!s && e ==> forall r :: r in ranges ==> start <= r.end)
    && (s && !e ==> forall r :: r in ranges ==> r.start <= end)
    && (!s && !e ==> forall r :: r in ranges ==> !Meets(r, start, end))
  }

  /**
   Main result, with its exact condition: the slice is the ranges meeting the interval if
   both ends are covered; if one is not, if and only if no range lies beyond that end; if
   neither is, if and only if no range meets the interval. With an end covered nothing that
   meets the interval is ever left out.
   */
  lemma SelectedIff(ranges: seq<DataRange>, start: int, end: int)
    requires Disjoint(ranges) && start <= end
    ensures Selected(ranges, start, end) == Meeting(ranges, start, end) <==> SliceIsExact(ranges, start, end)
    ensures Scan(ranges, start) >= 0 && Scan(ranges, end) >= 0 ==> SliceIsExact(ranges, start, end)
    ensures Scan(ranges, start) >= 0 || Scan(ranges, end) >= 0 ==>
              forall r :: r in Meeting(ranges, start, end) ==> r in Selected(ranges, start, end)
  {
    var lo, hi := Cuts(ranges, start, end);
    FilterIsSlice(ranges, (r: DataRange) => Meets(r, start, end), lo, hi);
    ScanIsCut(ranges, start, end, lo, hi);
    var s, e := Scan(ranges, start), Scan(ranges, end);
    var selected := Selected(ranges, start, end);
    if s >= 0 && e >= 0 {
      assert selected == ranges[lo..hi];
    } else if s >= 0 {
      assert selected == ranges[lo..];
      OpenSlice(ranges, lo, hi);
      ExactAtEnd(ranges, end, hi);
    } else if e >= 0 {
      assert selected == ranges[..hi];
      OpenSlice(ranges, lo, hi);
      ExactAtStart(ranges, start, lo);
    } else {
      assert selected == [];
      ExactWithin(ranges, start, end, lo, hi);
    }
  }

  /** A range can be missed: it lies between two ends that no range covers. */
  lemma UncoveredEndsMissARange() returns (ranges: seq<DataRange>, start: int, end: int)
    ensures Disjoint(ranges) && start <= end
    ensures Selected(ranges, start, end) == [] && Meeting(ranges, start, end) == ranges != []
  {
    var r := DataRange(2, 3, "");
    ranges, start, end := [r], 1, 4;
    assert Scan(ranges, start) == -1 && Scan(ranges, end) == -1;
    FilterIsSlice(ranges, (r: DataRange) => Meets(r, start, end), 0, 1);
    assert ranges[0..1] == ranges;
  }

  /** A slice against the slices open at one side. */
  lemma OpenSlice(ranges: seq<DataRange>, lo: nat, hi: nat)
    requires lo <= hi <= |ranges|
    ensures ranges[lo..] == ranges[lo..hi] <==> hi == |ranges|
    ensures ranges[..hi] == ranges[lo..hi] <==> lo == 0 || lo == hi == 0
    ensures forall r :: r in ranges[lo..hi] ==> r in ranges[lo..] && r in ranges[..hi]
  {
    assert |ranges[lo..]| == |ranges| - lo && |ranges[lo..hi]| == hi - lo && |ranges[..hi]| == hi;
    assert ranges[lo..] == ranges[lo..hi] + ranges[hi..];
    assert ranges[..hi] == ranges[..lo] + ranges[lo..hi];
  }

  lemma ExactAtEnd(ranges: seq<DataRange>, end: int, hi: nat)
    requires hi <= |ranges| && forall i :: 0 <= i < |ranges| ==> (ranges[i].start <= end <==> i < hi)
    ensures hi == |ranges| <==> forall r :: r in ranges ==> r.start <= end
  {
    if hi < |ranges| {
      assert ranges[hi] in ranges;
    }
  }

  lemma ExactAtStart(ranges: seq<DataRange>, start: int, lo: nat)
    requires lo <= |ranges| && forall i :: 0 <= i < |ranges| ==> (ranges[i].end < start <==> i < lo)
    ensures lo == 0 <==> forall r :: r in ranges ==> start <= r.end
  {
    if lo > 0 {
      assert ranges[0] in ranges;
    }
  }

  lemma ExactWithin(ranges: seq<DataRange>, start: int, end: int, lo: nat, hi: nat)
    requires lo <= hi <= |ranges|
    requires forall i :: 0 <= i < |ranges| ==> (Meets(ranges[i], start, end) <==> lo <= i < hi)
    ensures ranges[lo..hi] == [] <==> forall r :: r in ranges ==> !Meets(r, start, end)
  {
    if lo < hi {
      assert ranges[lo] in ranges && Meets(ranges[lo], start, end);
      assert |ranges[lo..hi]| > 0;
    }
  }

  /** Where the scan finds the ends, relative to the cuts. */
  lemma ScanIsCut(ranges: seq<DataRange>, start: int, end: int, lo: nat, hi: nat)
    requires Disjoint(ranges) && start <= end && lo <= hi <= |ranges|
    requires forall i :: 0 <= i < |ranges| ==> (ranges[i].end < start <==> i < lo)
    requires forall i :: 0 <= i < |ranges| ==> (ranges[i].start <= end <==> i < hi)
    ensures Scan(ranges, start) >= 0 ==> Scan(ranges, start) == lo
    ensures Scan(ranges, end) >= 0 ==> Scan(ranges, end) == hi - 1
  {
    var s, e := Scan(ranges, start), Scan(ranges, end);
    assert s > 0 ==> ranges[s - 1].end < ranges[s].start;
    assert 0 <= e < |ranges| - 1 ==> ranges[e].end < ranges[e + 1].start;
  }

  // ----- events

  datatype Event = Event(at: int, value: string)

  /** Events in order of time, no two at the same time. */
  ghost predicate Increasing(events: seq<Event>) {
    forall i, j :: 0 <= i < j < |events| ==> events[i].at < events[j].at
  }

  /** Events in order of time, perhaps several at the same time. */
  ghost predicate Ordered(events: seq<Event>) {
    forall i, j :: 0 <= i < j < |events| ==> events[i].at <= events[j].at
  }

  /** The number of events before a time. */
  function Before(events: seq<Event>, key: int): (n: nat)
    ensures n <= |events|
  {
    if events == [] then 0
    else Before(events[..|events| - 1], key) + (if events[|events| - 1].at < key then 1 else 0)
  }

  function Between(events: seq<Event>, start: int, end: int): seq<Event> {
    Filter(events, (e: Event) => start <= e.at <= end)
  }

  /** The first event after a time, unless some event is exactly then. */
  function Overshoot(events: seq<Event>, end: int): seq<Event> {
    var n := Before(events, end);
    if n < |events| && events[n].at != end then [events[n]] else []
  }

  class TimelineEvent {
    var events: seq<Event>

    constructor ()
      ensures events == []
    {
      events := [];
    }

    method AddEvent(event: Event)
      modifies this
      ensures events == old(events) + [event]
    {
      events := events + [event];
    }

    /** Binary search for a time, or for where it would be. */
    method Search(key: int) returns (r: int)
      ensures 0 <= r <= |events|
      ensures Increasing(events) ==> r == Before(events, key)
      ensures Ordered(events) && (exists e :: e in events && e.at == key) ==> r < |events| && events[r].at == key
      ensures Ordered(events) && (forall e :: e in events ==> e.at != key) ==> r == Before(events, key)
    {
      var l, u := 0, |events| - 1;
      while l <= u
        invariant 0 <= l <= u + 1 <= |events|
        invariant Ordered(events) ==> forall i :: 0 <= i < l ==> events[i].at < key
        invariant Ordered(events) ==> forall i :: u < i < |events| ==> key < events[i].at
      {
        var i := (l + u) / 2;
        if key == events[i].at {
          if Increasing(events) {
            BeforeIs(events, key, i);
          }
          return i;
        } else if key < events[i].at {
          u := i - 1;
        } else {
          l := i + 1;
        }
      }
      if Ordered(events) {
        BeforeIs(events, key, l);
      }
      return l;
    }

    method GetEventsBounds(start: int, end: int) returns (lo: int, hi: int)
      ensures Increasing(events) ==> (lo, hi) == (Before(events, start), Before(events, end) + 1)
    {
      var s := Search(start);
      var e := Search(end);
      return s, e + 1;
    }

    method GetEvents(start: int, end: int) returns (r: seq<Event>)
      ensures Increasing(events) ==> r == Slice(events, Before(events, start), Before(events, end) + 1)
      ensures Increasing(events) && start <= end ==> r == Between(events, start, end) + Overshoot(events, end)
    {
      var s := Search(start);
      var e := Search(end);
      r := Slice(events, s, e + 1);
      if Increasing(events) && start <= end {
        EventSlice(events, start, end);
      }
    }
  }

  lemma {:induction false} BeforeIs(events: seq<Event>, key: int, n: nat)
    requires n <= |events|
    requires forall i :: 0 <= i < |events| ==> (events[i].at < key <==> i < n)
    ensures Before(events, key) == n
  {
    if events != [] {
      var last := |events| - 1;
      BeforeIs(events[..last], key, if n <= last then n else last);
    }
  }

  lemma {:induction false} BeforeCuts(events: seq<Event>, key: int)
    requires Increasing(events)
    ensures forall i :: 0 <= i < |events| ==> (events[i].at < key <==> i < Before(events, key))
  {
    if events != [] {
      var last := |events| - 1;
      BeforeCuts(events[..last], key);
      assert forall i :: 0 <= i < last ==> events[..last][i] == events[i];
    }
  }

  /** The slice taken is the events of the interval and at most the one after it. */
  lemma EventSlice(events: seq<Event>, start: int, end: int)
    requires Increasing(events) && start <= end
    ensures Slice(events, Before(events, start), Before(events, end) + 1)
            == Between(events, start, end) + Overshoot(events, end)
  {
    var lo, n := Before(events, start), Before(events, end);
    CutAt(events, start, lo);
    CutAt(events, end, n);
    EventSliceAt(events, start, end, lo, n);
    assert Overshoot(events, end) == if n < |events| && events[n].at != end then [events[n]] else [];
  }

  /** The events before a time are the first `n`. */
  ghost predicate Cut(events: seq<Event>, key: int, n: nat) {
    n <= |events| && forall i :: 0 <= i < |events| ==> (events[i].at < key <==> i < n)
  }

  lemma CutAt(events: seq<Event>, key: int, n: nat)
    requires Increasing(events) && n == Before(events, key)
    ensures Cut(events, key, n)
  {
    BeforeCuts(events, key);
  }

  lemma EventSliceAt(events: seq<Event>, start: int, end: int, lo: nat, n: nat)
    requires Increasing(events) && start <= end && Cut(events, start, lo) && Cut(events, end, n)
    ensures Slice(events, lo, n + 1)
            == Between(events, start, end) + (if n < |events| && events[n].at != end then [events[n]] else [])
  {
    var hi := if n < |events| && events[n].at == end then n + 1 else n;
    assert lo > 0 ==> events[lo - 1].at < start;
    forall i | 0 <= i < |events| ensures events[i].at <= end <==> i < hi {
      assert n < i ==> events[n].at < events[i].at;
    }
    IntervalSlice(events, start, end, lo, n, hi);
  }

  lemma IntervalSlice(events: seq<Event>, start: int, end: int, lo: nat, n: nat, hi: nat)
    requires lo <= n <= hi <= |events| && hi <= n + 1
    requires forall i :: 0 <= i < |events| ==> (events[i].at < start <==> i < lo)
    requires forall i :: 0 <= i < |events| ==> (events[i].at <= end <==> i < hi)
    ensures Slice(events, lo, n + 1)
            == Between(events, start, end) + (if n < |events| && hi == n then [events[n]] else [])
  {
    FilterIsSlice(events, (e: Event) => start <= e.at <= end, lo, hi);
    if n < |events| && hi == n {
      assert events[lo..n + 1] == events[lo..n] + [events[n]];
    }
  }

  /** Main result: the slice holds exactly the interval's events iff one is at its end or none is after it. */
  lemma EventsExactIff(events: seq<Event>, start: int, end: int)
    requires Increasing(events) && start <= end
    ensures Slice(events, Before(events, start), Before(events, end) + 1) == Between(events, start, end) <==>
            (exists e :: e in events && e.at == end) || forall e :: e in events ==> e.at <= end
  {
    EventSlice(events, start, end);
    BeforeCuts(events, end);
    var n := Before(events, end);
    if n < |events| {
      assert events[n] in events;
      assert forall i :: 0 <= i < |events| && events[i].at == end ==> i == n;
    }
  }
}
