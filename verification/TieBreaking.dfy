/** Putting simultaneous events in an order of their own. */
module TieBreaking {
  import opened Arithmetic
  import opened Events
  import opened Sorting

  /** What decides among events at the same time: late ones come after the others; pops
      follow each other in some order; a push comes the earlier the later it is taken, and
      before all others if never. */
  datatype Ties = Ties(late: EventId -> bool, isPop: EventId -> bool, taker: EventId -> int)

  /** All events by time. */
  ghost function Base(ids: set<EventId>, time: EventId -> int): (base: seq<EventId>)
    ensures SortedBy(base, time) && NoDuplicates(base) && forall id :: id in base <==> id in ids
  {
    Sort(Listing(ids), time)
  }

  ghost function Second(base: seq<EventId>, ties: Ties, id: EventId): (n: nat)
    ensures n <= |base| + 1
  {
    if ties.isPop(id) then Rank(base, id)
    else if ties.taker(id) >= 0 then |base| + 1 - Rank(base, ties.taker(id))
    else 0
  }

  function Lateness(ties: Ties, id: EventId): nat
  {
    if ties.late(id) then 1 else 0
  }

  ghost function TieKey(base: seq<EventId>, time: EventId -> int, ties: Ties): EventId -> int
  {
    (id: EventId) => (2 * time(id) + Lateness(ties, id)) * (|base| + 2) + Second(base, ties, id)
  }

  /** All events, one after the other. */
  ghost function Ordering(ids: set<EventId>, time: EventId -> int, ties: Ties): (schedule: seq<EventId>)
    ensures NoDuplicates(schedule) && forall id :: id in schedule <==> id in ids
    ensures SortedBy(schedule, TieKey(Base(ids, time), time, ties))
  {
    Sort(Listing(ids), TieKey(Base(ids, time), time, ties))
  }

  /** `x` comes before `y` by time, lateness, or the second key. */
  ghost predicate Sooner(base: seq<EventId>, time: EventId -> int, ties: Ties, x: EventId, y: EventId)
  {
    || time(x) < time(y)
    || (time(x) == time(y) && Lateness(ties, x) < Lateness(ties, y))
    || (time(x) == time(y) && Lateness(ties, x) == Lateness(ties, y) && Second(base, ties, x) < Second(base, ties, y))
  }

  lemma KeysCompare(t: int, s: nat, t': int, s': nat, n: nat)
    requires s <= n && s' <= n && (t < t' || (t == t' && s < s'))
    ensures t * (n + 1) + s < t' * (n + 1) + s'
  {
    if t < t' {
      assert t' * (n + 1) == (t' - t) * (n + 1) + t * (n + 1);
      assert (t' - t) * (n + 1) >= n + 1 by {
        Scale(n + 1, 1, t' - t);
      }
    }
  }

  lemma SoonerKey(base: seq<EventId>, time: EventId -> int, ties: Ties, x: EventId, y: EventId)
    requires Sooner(base, time, ties, x, y)
    ensures TieKey(base, time, ties)(x) < TieKey(base, time, ties)(y)
  {
    KeysCompare(2 * time(x) + Lateness(ties, x), Second(base, ties, x), 2 * time(y) + Lateness(ties, y),
                Second(base, ties, y), |base| + 1);
  }

  lemma SmallerFirst(order: seq<EventId>, key: EventId -> int, p: nat, q: nat)
    requires SortedBy(order, key) && p < |order| && q < |order| && key(order[p]) < key(order[q])
    ensures p < q
  {
  }

  lemma SortedRanks(order: seq<EventId>, key: EventId -> int, x: EventId, y: EventId)
    requires SortedBy(order, key) && x in order && y in order && key(x) < key(y)
    ensures Rank(order, x) < Rank(order, y)
  {
    SmallerFirst(order, key, Rank(order, x) - 1, Rank(order, y) - 1);
  }

  /** What is sooner comes first. */
  lemma SoonerFirst(ids: set<EventId>, time: EventId -> int, ties: Ties, x: EventId, y: EventId)
    requires x in ids && y in ids && Sooner(Base(ids, time), time, ties, x, y)
    ensures Rank(Ordering(ids, time, ties), x) < Rank(Ordering(ids, time, ties), y)
  {
    SoonerKey(Base(ids, time), time, ties, x, y);
    SortedRanks(Ordering(ids, time, ties), TieKey(Base(ids, time), time, ties), x, y);
  }

  /** Pops at the same time are taken in the order of the base. */
  lemma BaseByTime(ids: set<EventId>, time: EventId -> int, x: EventId, y: EventId)
    requires x in ids && y in ids && Rank(Base(ids, time), x) < Rank(Base(ids, time), y)
    ensures time(x) <= time(y)
  {
    if time(y) < time(x) {
      SortedRanks(Base(ids, time), time, y, x);
    }
  }

  /** Positions in the schedule as times. */
  ghost function Ranks(schedule: seq<EventId>): EventId -> int
  {
    (id: EventId) => if id in schedule then Rank(schedule, id) else 1
  }

  /** The same model with the positions of a schedule for times. */
  ghost function Ranked(schedule: seq<EventId>, m: Model): Model
  {
    m.(time := Ranks(schedule))
  }
}
