/**
 TimelineDataRange and TimelineEvent of grid.py: binary search for the ranges and events that a time
 window shows. Times are integers.
 */
module Timeline {

  datatype DataRange = DataRange(start: int, end: int, value: string)

  datatype Event = Event(at: int, value: string)

  predicate Contains(r: DataRange, key: int) {
    r.start <= key <= r.end
  }

  predicate Meets(r: DataRange, start: int, end: int) {
    r.start <= end && start <= r.end
  }

  /** In time order, without overlap. */
  ghost predicate Disjoint(rs: seq<DataRange>) {
    && (forall i :: 0 <= i < |rs| ==> rs[i].start <= rs[i].end)
    && forall i, j :: 0 <= i < j < |rs| ==> rs[i].end < rs[j].start
  }

  ghost predicate Increasing(es: seq<Event>) {
    forall i, j :: 0 <= i < j < |es| ==> es[i].at < es[j].at
  }

  /** The ranges at index lo up to hi are exactly those that meet the window. */
  ghost predicate ExactlyMeeting(rs: seq<DataRange>, lo: int, hi: int, start: int, end: int) {
    forall i :: 0 <= i < |rs| ==> (Meets(rs[i], start, end) <==> lo <= i < hi)
  }

  /** The search of the loop between l and u, on any list, sorted or not. */
  function RangeSearch(rs: seq<DataRange>, key: int, l: int, u: int): (r: int)
    requires 0 <= l <= u + 1 <= |rs|
    ensures -1 <= r < |rs| && (r >= 0 ==> Contains(rs[r], key))
    decreases u - l + 1
  {
    if l > u then -1
    else
      var i := (l + u) / 2;
      if Contains(rs[i], key) then i
      else if key < rs[i].start then RangeSearch(rs, key, l, i - 1)
      else RangeSearch(rs, key, i + 1, u)
  }

  lemma EmptySlice<T>(s: seq<T>)
    ensures Slice(s, 0, 0) == []
  {
  }

  ghost predicate Misses(rs: seq<DataRange>, key: int, l: int, u: int)
    requires 0 <= l <= u + 1 <= |rs|
  {
    forall i :: l <= i <= u ==> !Contains(rs[i], key)
  }

  lemma MissesGrow(rs: seq<DataRange>, key: int, l: int, i: int, u: int)
    requires 0 <= l <= i <= u < |rs| && Disjoint(rs) && !Contains(rs[i], key)
    requires if key < rs[i].start then Misses(rs, key, l, i - 1) else Misses(rs, key, i + 1, u)
    ensures Misses(rs, key, l, u)
  {
    assert forall j :: l <= j < i ==> rs[j].end < rs[i].start;
    assert forall j :: i < j <= u ==> rs[i].end < rs[j].start;
  }

  lemma {:induction false} SearchMisses(rs: seq<DataRange>, key: int, l: int, u: int)
    requires 0 <= l <= u + 1 <= |rs| && Disjoint(rs) && RangeSearch(rs, key, l, u) == -1
    ensures Misses(rs, key, l, u)
    decreases u - l + 1
  {
    hide Disjoint;
    if l <= u {
      hide Misses, Contains;
      var i := (l + u) / 2;
      if key < rs[i].start {
        SearchMisses(rs, key, l, i - 1);
      } else {
        SearchMisses(rs, key, i + 1, u);
      }
      MissesGrow(rs, key, l, i, u);
    }
  }

  /** The bounds of a window, on any list and for any start and end. */
  function RangeBounds(rs: seq<DataRange>, start: int, end: int): (nat, nat) {
    var s, e := RangeSearch(rs, start, 0, |rs| - 1), RangeSearch(rs, end, 0, |rs| - 1);
    if s == -1 && e == -1 then (0, 0)
    else if s == -1 then (0, e + 1)
    else if e == -1 then (s, |rs|)
    else (s, e + 1)
  }

  class TimelineDataRange {
    var name: string
    var ranges: seq<DataRange>

    constructor (name: string)
      ensures this.name == name && ranges == []
    {
      this.name := name;
      ranges := [];
    }

    method AddRange(range: DataRange)
      modifies this`ranges
      ensures ranges == old(ranges) + [range]
    {
      ranges := ranges + [range];
    }

    method Search(key: int) returns (r: int)
      ensures r == RangeSearch(ranges, key, 0, |ranges| - 1) && -1 <= r < |ranges|
      ensures r >= 0 ==> ranges[r].start <= key <= ranges[r].end
      ensures Disjoint(ranges) && r == -1 ==>
        forall i :: 0 <= i < |ranges| ==> key < ranges[i].start || ranges[i].end < key
    {
      var l, u := 0, |ranges| - 1;
      while l <= u
        invariant 0 <= l <= u + 1 <= |ranges|
        invariant RangeSearch(ranges, key, 0, |ranges| - 1) == RangeSearch(ranges, key, l, u)
      {
        var i := (l + u) / 2;
        if key >= ranges[i].start && key <= ranges[i].end {
          return i;
        } else if key < ranges[i].start {
          u := i - 1;
        } else {
          l := i + 1;
        }
      }
      if Disjoint(ranges) {
        SearchMisses(ranges, key, 0, |ranges| - 1);
      }
      return -1;
    }

    method GetRangesBounds(start: int, end: int) returns (lo: nat, hi: nat)
      ensures (lo, hi) == RangeBounds(ranges, start, end) && lo <= |ranges| && hi <= |ranges|
      ensures Disjoint(ranges) && start <= end ==> Window(ranges, start, end, lo, hi)
    {
      hide Window, Disjoint, RangeSearch, Contains, Slice;
      if Disjoint(ranges) && start <= end {
        BoundsAreWindow(ranges, start, end);
      }
      var s := Search(start);
      var e := Search(end);
      if s == -1 && e == -1 {
        lo, hi := 0, 0;
      } else if s == -1 {
        lo, hi := 0, e + 1;
      } else if e == -1 {
        lo, hi := s, |ranges|;
      } else {
        lo, hi := s, e + 1;
      }
    }

    /** The slice between the bounds that GetRangesBounds gives. */
    method GetRanges(start: int, end: int) returns (rs: seq<DataRange>)
      ensures var (lo, hi) := RangeBounds(ranges, start, end);
        && rs == Slice(ranges, lo, hi)
        && (Disjoint(ranges) && start <= end ==> Window(ranges, start, end, lo, hi))
    {
      hide Window, Disjoint, RangeSearch, Contains, Slice;
      if Disjoint(ranges) && start <= end {
        BoundsAreWindow(ranges, start, end);
      }
      var s := Search(start);
      var e := Search(end);
      if s == -1 && e == -1 {
        rs := [];
        EmptySlice(ranges);
      } else if s == -1 {
        rs := Slice(ranges, 0, e + 1);
      } else if e == -1 {
        rs := Slice(ranges, s, |ranges|);
      } else {
        rs := Slice(ranges, s, e + 1);
      }
    }
  }

  /** Python's s[lo:hi] for bounds that are not negative. */
  function Slice<T>(s: seq<T>, lo: nat, hi: nat): seq<T> {
    var top := if hi <= |s| then hi else |s|;
    if lo <= top then s[lo..top] else []
  }

  /** The items from lo up to hi, as far as there are any. */
  lemma SliceMeans<T>(s: seq<T>, lo: nat, hi: nat)
    ensures |Slice(s, lo, hi)| == if lo <= hi && lo <= |s| then (if hi <= |s| then hi else |s|) - lo else 0
    ensures forall k :: 0 <= k < |Slice(s, lo, hi)| ==> Slice(s, lo, hi)[k] == s[lo + k]
  {
  }

  ghost predicate Hit(rs: seq<DataRange>, key: int) {
    exists i :: 0 <= i < |rs| && rs[i].start <= key <= rs[i].end
  }

  /**
   What a range query promises: exactness if both ends of the window hit a range; otherwise all ranges
   that meet it, and the others on the side of the missing end; nothing if both ends miss.
   */
  ghost predicate Window(rs: seq<DataRange>, start: int, end: int, lo: nat, hi: nat) {
    && (Hit(rs, start) && Hit(rs, end) ==> ExactlyMeeting(rs, lo, hi, start, end))
    && (!Hit(rs, start) && Hit(rs, end) ==>
          lo == 0 && forall i :: 0 <= i < |rs| ==> (rs[i].start <= end <==> i < hi))
    && (Hit(rs, start) && !Hit(rs, end) ==>
          hi == |rs| && forall i :: 0 <= i < |rs| ==> (start <= rs[i].end <==> lo <= i))
    && (!Hit(rs, start) && !Hit(rs, end) ==> lo == hi == 0)
  }

  lemma HitIff(rs: seq<DataRange>, key: int)
    requires Disjoint(rs)
    ensures Hit(rs, key) <==> RangeSearch(rs, key, 0, |rs| - 1) != -1
  {
    hide Disjoint, RangeSearch;
    if RangeSearch(rs, key, 0, |rs| - 1) == -1 {
      SearchMisses(rs, key, 0, |rs| - 1);
    }
  }

  lemma BoundsAreWindow(rs: seq<DataRange>, start: int, end: int)
    requires Disjoint(rs) && start <= end
    ensures Window(rs, start, end, RangeBounds(rs, start, end).0, RangeBounds(rs, start, end).1)
  {
    hide Disjoint, RangeSearch, Hit, Contains;
    var s, e := RangeSearch(rs, start, 0, |rs| - 1), RangeSearch(rs, end, 0, |rs| - 1);
    HitIff(rs, start);
    HitIff(rs, end);
    if s != -1 {
      FromHit(rs, start, s);
    }
    if e != -1 {
      UpToHit(rs, end, e);
    }
  }

  lemma FromHit(rs: seq<DataRange>, start: int, s: nat)
    requires Disjoint(rs) && s < |rs| && Contains(rs[s], start)
    ensures forall i :: 0 <= i < |rs| ==> (start <= rs[i].end <==> s <= i)
  {
    assert forall i :: 0 <= i < s ==> rs[i].end < rs[s].start;
    assert forall i :: s < i < |rs| ==> rs[s].end < rs[i].start;
  }

  lemma UpToHit(rs: seq<DataRange>, end: int, e: nat)
    requires Disjoint(rs) && e < |rs| && Contains(rs[e], end)
    ensures forall i :: 0 <= i < |rs| ==> (rs[i].start <= end <==> i < e + 1)
  {
    assert forall i :: 0 <= i < e ==> rs[i].end < rs[e].start;
    assert forall i :: e < i < |rs| ==> rs[e].end < rs[i].start;
  }

  /** The promise determines which ranges are shown. */
  lemma BoundsDetermineRanges(rs: seq<DataRange>, start: int, end: int, lo: nat, hi: nat, lo': nat, hi': nat)
    requires Disjoint(rs) && start <= end && Window(rs, start, end, lo, hi) && Window(rs, start, end, lo', hi')
    ensures Slice(rs, lo, hi) == Slice(rs, lo', hi')
  {
    forall i | 0 <= i < |rs|
      ensures Within(i, lo, hi) <==> Within(i, lo', hi')
    {
      assert Meets(rs[i], start, end) || rs[i].start > end || start > rs[i].end;
    }
    SameSlice(rs, lo, hi, lo', hi');
  }

  predicate Within(i: int, lo: nat, hi: nat) {
    lo <= i < hi
  }

  lemma SameSlice<T>(s: seq<T>, lo: nat, hi: nat, lo': nat, hi': nat)
    requires forall i :: 0 <= i < |s| ==> (Within(i, lo, hi) <==> Within(i, lo', hi'))
    ensures Slice(s, lo, hi) == Slice(s, lo', hi')
  {
    var top, top' := if hi <= |s| then hi else |s|, if hi' <= |s| then hi' else |s|;
    if lo < top {
      assert Within(lo, lo, hi) && Within(top - 1, lo, hi);
      assert Within(lo', lo', hi') && Within(top' - 1, lo', hi');
      assert lo == lo' && top == top';
    } else if lo' < top' {
      assert Within(lo', lo', hi') && !Within(lo', lo, hi);
    }
  }

  /** When a range query is exact. */
  lemma ExactIff(rs: seq<DataRange>, start: int, end: int, lo: nat, hi: nat)
    requires Disjoint(rs) && start <= end && Window(rs, start, end, lo, hi)
    ensures ExactlyMeeting(rs, lo, hi, start, end) <==>
      || (Hit(rs, start) && Hit(rs, end))
      || (!Hit(rs, start) && Hit(rs, end) && start <= rs[0].end)
      || (Hit(rs, start) && !Hit(rs, end) && rs[|rs|-1].start <= end)
      || (!Hit(rs, start) && !Hit(rs, end) && forall i :: 0 <= i < |rs| ==> !Meets(rs[i], start, end))
  {
  }

  /** Both ends of the window lie in gaps: the range between them is not shown. */
  lemma RangeBetweenGaps(r: DataRange)
    requires r.start <= r.end
    ensures var start, end := r.start - 1, r.end + 1;
      && Disjoint([r]) && Meets(r, start, end)
      && RangeBounds([r], start, end) == (0, 0) && !ExactlyMeeting([r], 0, 0, start, end)
  {
    assert !Contains([r][0], r.start - 1) && !Contains([r][0], r.end + 1);
  }

  /** From the first event not before start up to and with the first not before end, if there is one. */
  ghost predicate EventWindow(es: seq<Event>, start: int, end: int, lo: nat, hi: nat) {
    && lo <= |es| && 1 <= hi <= |es| + 1
    && (forall i :: 0 <= i < |es| ==> (start <= es[i].at <==> lo <= i))
    && forall i :: 0 <= i < |es| ==> (es[i].at < end <==> i < hi - 1)
  }

  lemma BoundsDetermineEvents(es: seq<Event>, start: int, end: int, lo: nat, hi: nat, lo': nat, hi': nat)
    requires EventWindow(es, start, end, lo, hi) && EventWindow(es, start, end, lo', hi')
    ensures lo == lo' && hi == hi'
  {
    assert lo < |es| ==> start <= es[lo].at;
    assert lo' < |es| ==> start <= es[lo'].at;
    assert hi - 1 < |es| ==> !(es[hi-1].at < end);
    assert hi' - 1 < |es| ==> !(es[hi'-1].at < end);
  }

  /** All events of the window, none before it, and at most one after it, which then comes last. */
  lemma WindowContents(es: seq<Event>, start: int, end: int, lo: nat, hi: nat)
    requires Increasing(es) && EventWindow(es, start, end, lo, hi)
    ensures var shown := Slice(es, lo, hi);
      && Increasing(shown)
      && (forall v :: v in shown ==> v in es && start <= v.at)
      && (forall v :: v in es && start <= v.at <= end ==> v in shown)
      && forall i :: 0 <= i < |shown| - 1 ==> shown[i].at < end
  {
    var shown := Slice(es, lo, hi);
    forall v | v in es && start <= v.at <= end
      ensures v in shown
    {
      var i :| 0 <= i < |es| && es[i] == v;
      assert i > 0 ==> es[i-1].at < es[i].at;
      assert lo <= i < hi;
      assert shown[i - lo] == v;
    }
  }

  /** The search of the loop between l and u, on any list. */
  function EventSearch(es: seq<Event>, key: int, l: int, u: int): (r: nat)
    requires 0 <= l <= u + 1 <= |es|
    ensures r <= |es|
    decreases u - l + 1
  {
    if l > u then l
    else
      var i := (l + u) / 2;
      if key == es[i].at then i
      else if key < es[i].at then EventSearch(es, key, l, i - 1)
      else EventSearch(es, key, i + 1, u)
  }

  ghost predicate Places(es: seq<Event>, key: int, l: int, u: int, r: int)
    requires 0 <= l <= u + 1 <= |es|
  {
    l <= r <= u + 1 && forall i :: l <= i <= u ==> (es[i].at < key <==> i < r)
  }

  lemma PlacesGrow(es: seq<Event>, key: int, l: int, i: int, u: int, r: int)
    requires 0 <= l <= i <= u < |es| && Increasing(es)
    requires if key < es[i].at then Places(es, key, l, i - 1, r)
      else if key > es[i].at then Places(es, key, i + 1, u, r)
      else r == i
    ensures Places(es, key, l, u, r)
  {
    assert forall j :: l <= j < i ==> es[j].at < es[i].at;
    assert forall j :: i < j <= u ==> es[i].at < es[j].at;
  }

  lemma {:induction false} SearchPlaces(es: seq<Event>, key: int, l: int, u: int)
    requires 0 <= l <= u + 1 <= |es| && Increasing(es)
    ensures Places(es, key, l, u, EventSearch(es, key, l, u))
    decreases u - l + 1
  {
    hide Increasing;
    if l <= u {
      hide Places;
      var i := (l + u) / 2;
      if key < es[i].at {
        SearchPlaces(es, key, l, i - 1);
      } else if key > es[i].at {
        SearchPlaces(es, key, i + 1, u);
      }
      PlacesGrow(es, key, l, i, u, EventSearch(es, key, l, u));
    }
  }

  lemma BoundsAreEventWindow(es: seq<Event>, start: int, end: int)
    requires Increasing(es)
    ensures EventWindow(es, start, end, EventBounds(es, start, end).0, EventBounds(es, start, end).1)
  {
    SearchPlaces(es, start, 0, |es| - 1);
    SearchPlaces(es, end, 0, |es| - 1);
    hide EventSearch, Increasing;
  }

  function EventBounds(es: seq<Event>, start: int, end: int): (nat, nat) {
    (EventSearch(es, start, 0, |es| - 1), EventSearch(es, end, 0, |es| - 1) + 1)
  }

  class TimelineEvent {
    var name: string
    var events: seq<Event>

    constructor (name: string)
      ensures this.name == name && events == []
    {
      this.name := name;
      events := [];
    }

    method AddEvent(event: Event)
      modifies this`events
      ensures events == old(events) + [event]
    {
      events := events + [event];
    }

    /** Where key is, or where it would have to be inserted. */
    method Search(key: int) returns (r: nat)
      ensures r == EventSearch(events, key, 0, |events| - 1) && r <= |events|
      ensures Increasing(events) ==> forall i :: 0 <= i < |events| ==> (events[i].at < key <==> i < r)
    {
      if Increasing(events) {
        SearchPlaces(events, key, 0, |events| - 1);
      }
      hide Increasing;
      var l, u := 0, |events| - 1;
      while l <= u
        invariant 0 <= l <= u + 1 <= |events|
        invariant EventSearch(events, key, 0, |events| - 1) == EventSearch(events, key, l, u)
      {
        var i := (l + u) / 2;
        if key == events[i].at {
          return i;
        } else if key < events[i].at {
          u := i - 1;
        } else {
          l := i + 1;
        }
      }
      return l;
    }

    method GetEventsBounds(start: int, end: int) returns (lo: nat, hi: nat)
      ensures (lo, hi) == EventBounds(events, start, end)
      ensures Increasing(events) ==> EventWindow(events, start, end, lo, hi)
    {
      hide EventSearch, EventWindow, Increasing;
      if Increasing(events) {
        BoundsAreEventWindow(events, start, end);
      }
      var s := Search(start);
      var e := Search(end);
      return s, e + 1;
    }

    /** All events of the window, none before it, and at most one after it, which then comes last. */
    method GetEvents(start: int, end: int) returns (es: seq<Event>)
      ensures var (lo, hi) := EventBounds(events, start, end);
        es == Slice(events, lo, hi) && (Increasing(events) ==> EventWindow(events, start, end, lo, hi))
      ensures Increasing(events) ==> Increasing(es)
      ensures Increasing(events) ==> forall v :: v in es ==> v in events && start <= v.at
      ensures Increasing(events) ==> forall v :: v in events && start <= v.at <= end ==> v in es
      ensures Increasing(events) ==> forall i :: 0 <= i < |es| - 1 ==> es[i].at < end
    {
      hide EventSearch, EventWindow, Increasing, Slice;
      var s := Search(start);
      var e := Search(end);
      es := Slice(events, s, e + 1);
      if Increasing(events) {
        BoundsAreEventWindow(events, start, end);
        WindowContents(events, start, end, s, e + 1);
      }
    }
  }
}
