/**
 The heartbeat evictor.  A connection is known by its key: a file descriptor in the epoll
 server, a socket in the boost server; both maps are treated alike.  Every method is one
 atomic step.
 */
module Heartbeat {

  datatype Info = Info(ip: string, userId: string, num: int)

  const MAX_MISSES: int := 3

  datatype Event<K> = Add(key: K, ip: string) | Remove(key: K) | SetZero(key: K) | AddUserId(key: K, userId: string)
                    | Poll

  /** What a pass makes of an entry that stays. */
  function Kept(info: Info): Info {
    if 0 <= info.num < MAX_MISSES then info.(num := info.num + 1) else info
  }

  /** A polling pass as one simultaneous update: who missed three passes goes, everyone else
      has missed one more. */
  function Polled<K>(m: map<K, Info>): map<K, Info> {
    map k | k in m && m[k].num != MAX_MISSES :: Kept(m[k])
  }

  function Next<K(==)>(m: map<K, Info>, event: Event<K>): map<K, Info> {
    match event
    case Add(k, ip) => if k in m then m else m[k := Info(ip, "", 0)]
    case Remove(k) => m - {k}
    case SetZero(k) => if k in m then m[k := m[k].(num := 0)] else m
    case AddUserId(k, userId) => if k in m then m[k := m[k].(userId := userId)] else m
    case Poll => Polled(m)
  }

  /** The map after these events, starting from the empty map. */
  function Run<K(==)>(events: seq<Event<K>>): map<K, Info> {
    if events == [] then map[] else Next(Run(events[..|events| - 1]), events[|events| - 1])
  }

  class UserStatusEvaluator<K(==)> {
    var entries: map<K, Info>

    constructor ()
      ensures entries == map[]
    {
      entries := map[];
    }

    /** One pass of `start` or `start_boost`: it walks a copy and changes the map; `closed` are
        the connections that it closes. */
    method PollAll() returns (closed: set<K>)
      modifies this
      ensures entries == Next(old(entries), Poll)
      ensures closed == old(entries).Keys - entries.Keys
    {
      var copy := entries;
      var rest := copy.Keys;
      closed := {};
      while rest != {}
        invariant rest <= copy.Keys
        invariant closed == set k | k in copy && k !in rest && copy[k].num == MAX_MISSES
        invariant entries.Keys == copy.Keys - closed
        invariant forall k | k in entries :: entries[k] == if k in rest then copy[k] else Kept(copy[k])
        decreases rest
      {
        var k :| k in rest;
        rest := rest - {k};
        if copy[k].num == MAX_MISSES {
          entries := entries - {k};
          closed := closed + {k};
        } else if copy[k].num < MAX_MISSES && copy[k].num >= 0 {
          entries := entries[k := entries[k].(num := entries[k].num + 1)];
        }
      }
    }

    method AddEntry(k: K, ip: string)
      modifies this
      ensures entries == Next(old(entries), Add(k, ip))
    {
      if k !in entries {
        entries := entries[k := Info(ip, "", 0)];
      }
    }

    method RemoveEntry(k: K)
      modifies this
      ensures entries == Next(old(entries), Remove(k))
    {
      entries := entries - {k};
    }

    /** `found` is false where the original throws `std::out_of_range`. */
    method Reset(k: K) returns (found: bool)
      modifies this
      ensures entries == Next(old(entries), SetZero(k))
      ensures found <==> k in old(entries)
    {
      if k !in entries { return false; }
      entries := entries[k := entries[k].(num := 0)];
      return true;
    }

    method SetUserId(k: K, userId: string) returns (found: bool)
      modifies this
      ensures entries == Next(old(entries), AddUserId(k, userId))
      ensures found <==> k in old(entries)
    {
      if k !in entries { return false; }
      entries := entries[k := entries[k].(userId := userId)];
      return true;
    }
  }

  // ----- runs ------------------------------------------------------------------------

  /** The number of polls among the events from `i` to before `j`. */
  function PollsIn<K(==)>(events: seq<Event<K>>, i: nat, j: nat): nat
    requires j <= |events|
    decreases j
  {
    if j <= i then 0 else PollsIn(events, i, j - 1) + (if events[j - 1] == Poll then 1 else 0)
  }

  /** The position behind the last event that reset `k`, or added it while it was absent. */
  function Since<K(==)>(events: seq<Event<K>>, k: K): (i: nat)
    ensures i <= |events|
  {
    if events == [] then 0
    else
      var before, last := events[..|events| - 1], events[|events| - 1];
      if last == SetZero(k) || (last.Add? && last.key == k && k !in Run(before)) then |events| else Since(before, k)
  }

  lemma {:induction false} PollsPrefix<K>(events: seq<Event<K>>, m: nat, i: nat, j: nat)
    requires j <= m <= |events|
    ensures PollsIn(events[..m], i, j) == PollsIn(events, i, j)
    decreases j
  {
    if i < j { PollsPrefix(events, m, i, j - 1); }
  }

  /** In every run, the number of an entry is the number of polls since it was added or last
      reset, and lies between 0 and 3. */
  lemma {:induction false} NumIsPollsSince<K>(events: seq<Event<K>>, k: K)
    requires k in Run(events)
    ensures Run(events)[k].num == PollsIn(events, Since(events, k), |events|)
    ensures 0 <= Run(events)[k].num <= MAX_MISSES
    decreases |events|
  {
    if events != [] {
      var n := |events| - 1;
      var before := events[..n];
      if Since(events, k) <= n {
        NumIsPollsSince(before, k);
        PollsPrefix(events, n, Since(before, k), n);
      }
    }
  }

  /** A connection is evicted exactly by the fourth poll since it was added or last reset. */
  lemma EvictedAtFourthPoll<K>(events: seq<Event<K>>, k: K)
    requires events != [] && events[|events| - 1] == Poll && k in Run(events[..|events| - 1])
    ensures k !in Run(events) <==> PollsIn(events, Since(events, k), |events|) == 4
    ensures k in Run(events) <==> PollsIn(events, Since(events, k), |events|) <= 3
  {
    var n := |events| - 1;
    NumIsPollsSince(events[..n], k);
    PollsPrefix(events, n, Since(events, k), n);
  }

  /** The entry of `k` was made by the event at `i`, with its address, and has been there since. */
  ghost predicate MadeBy<K>(events: seq<Event<K>>, k: K, i: nat)
    requires k in Run(events)
  {
    && i < |events| && events[i] == Add(k, Run(events)[k].ip)
    && k !in Run(events[..i]) && forall j: nat | i < j <= |events| :: k in Run(events[..j])
  }

  /** The user that was last set from the event at `i` on. */
  function UserSince<K(==)>(events: seq<Event<K>>, k: K, i: nat): string
    decreases |events|
  {
    if |events| <= i then ""
    else
      var last := events[|events| - 1];
      if last.AddUserId? && last.key == k then last.userId else UserSince(events[..|events| - 1], k, i)
  }

  /** In every run an entry holds the address with which its connection was added while it was
      absent, and the user that was last set since. */
  lemma {:induction false} EntryIsMade<K>(events: seq<Event<K>>, k: K)
    requires k in Run(events)
    ensures exists i: nat :: MadeBy(events, k, i) && Run(events)[k].userId == UserSince(events, k, i)
    decreases |events|
  {
    hide Next, UserSince, Kept;
    var n := |events| - 1;
    var before, last := events[..n], events[n];
    EntryAfter(Run(before), last, k);
    if k in Run(before) {
      EntryIsMade(before, k);
      var i: nat :| MadeBy(before, k, i) && Run(before)[k].userId == UserSince(before, k, i);
      forall j: nat | i < j <= |events| ensures k in Run(events[..j]) {
        if j <= n { assert events[..j] == before[..j]; } else { assert events[..j] == events; }
      }
      assert events[..i] == before[..i];
      UserSinceStep(events, k, i);
      assert MadeBy(events, k, i);
    } else {
      UserSinceStep(events, k, n);
      assert events[..|events|] == events;
      assert MadeBy(events, k, n);
    }
  }

  lemma UserSinceStep<K>(events: seq<Event<K>>, k: K, i: nat)
    requires i < |events|
    ensures var last := events[|events| - 1];
            UserSince(events, k, i) ==
            if last.AddUserId? && last.key == k then last.userId else UserSince(events[..|events| - 1], k, i)
    ensures UserSince(events[..i], k, i) == ""
  {
  }

  /** What one event leaves of the address and the user of an entry. */
  lemma EntryAfter<K>(m: map<K, Info>, event: Event<K>, k: K)
    requires k in Next(m, event)
    ensures if k in m then
              && Next(m, event)[k].ip == m[k].ip
              && Next(m, event)[k].userId == (if event.AddUserId? && event.key == k then event.userId else m[k].userId)
            else event.Add? && event.key == k && Next(m, event)[k] == Info(event.ip, "", 0)
  {
  }

  /** No heartbeat of `k` among the events from `i` to before `j`. */
  predicate SilentIn<K(==)>(events: seq<Event<K>>, k: K, i: nat, j: nat)
    requires j <= |events|
  {
    forall x | i <= x < j :: events[x] != SetZero(k)
  }

  /** Every silent stretch from `from` to at most `end` has at most three polls. */
  ghost predicate Regular<K>(events: seq<Event<K>>, k: K, from: nat, end: nat)
    requires end <= |events|
  {
    forall i, j | from <= i <= j <= end && SilentIn(events, k, i, j) :: PollsIn(events, i, j) <= 3
  }

  /** Neither added nor removed from `from` to before `end`. */
  predicate Untouched<K(==)>(events: seq<Event<K>>, k: K, from: nat, end: nat)
    requires end <= |events|
  {
    forall x | from <= x < end :: events[x] != Remove(k) && !(events[x].Add? && events[x].key == k)
  }

  /** The last heartbeat from `from` to before `end`. */
  function LastHeartbeat<K(==)>(events: seq<Event<K>>, k: K, from: nat, end: nat): (i: nat)
    requires from <= end <= |events|
    ensures from <= i <= end && SilentIn(events, k, i, end)
    ensures forall x | from <= x <= end && SilentIn(events, k, x, end) :: i <= x
    decreases end
  {
    if end == from || events[end - 1] == SetZero(k) then end
    else
      assert forall x | from <= x < end && SilentIn(events, k, x, end) :: SilentIn(events, k, x, end - 1);
      LastHeartbeat(events, k, from, end - 1)
  }

  /** A longer stretch has no fewer polls. */
  lemma {:induction false} PollsShorter<K>(events: seq<Event<K>>, i: nat, i': nat, j: nat)
    requires i <= i' && j <= |events|
    ensures PollsIn(events, i', j) <= PollsIn(events, i, j)
    decreases j
  {
    if j > i { PollsShorter(events, i, i', j - 1); }
  }

  /** A connection that has just been added or reset, and is neither added nor removed
      afterwards, is still there exactly if every silent stretch since had at most three polls. */
  lemma {:induction false} StaysIfRegular<K>(events: seq<Event<K>>, k: K, from: nat, end: nat)
    requires from <= end <= |events| && k in Run(events[..from]) && Run(events[..from])[k].num == 0
    requires Untouched(events, k, from, end)
    ensures k in Run(events[..end]) <==> Regular(events, k, from, end)
    ensures k in Run(events[..end]) ==>
              Run(events[..end])[k].num == PollsIn(events, LastHeartbeat(events, k, from, end), end)
    decreases end
  {
    hide Regular, SilentIn, PollsIn, Run, Next, Untouched;
    RegularAtFirst(events, k, from);
    PollsStep(events, LastHeartbeat(events, k, from, end), end);
    if end > from {
      RunStep(events, end);
      StaysIfRegular(events, k, from, end - 1) by { UntouchedBefore(events, k, from, end); }
      RegularBounds(events, k, from, end - 1);
      RegularStep(events, k, from, end);
      EntryStep(Run(events[..end - 1]), events[end - 1], k) by { UntouchedBefore(events, k, from, end); }
      LastHeartbeatStep(events, k, from, end);
    }
  }

  lemma UntouchedBefore<K>(events: seq<Event<K>>, k: K, from: nat, end: nat)
    requires from < end <= |events| && Untouched(events, k, from, end)
    ensures Untouched(events, k, from, end - 1)
    ensures events[end - 1] != Remove(k) && !(events[end - 1].Add? && events[end - 1].key == k)
  {
  }

  lemma RunStep<K>(events: seq<Event<K>>, end: nat)
    requires 0 < end <= |events|
    ensures Run(events[..end]) == Next(Run(events[..end - 1]), events[end - 1])
  {
    hide Next;
    assert events[..end][..end - 1] == events[..end - 1] && events[..end][end - 1] == events[end - 1];
  }

  lemma LastHeartbeatStep<K>(events: seq<Event<K>>, k: K, from: nat, end: nat)
    requires from < end <= |events|
    ensures LastHeartbeat(events, k, from, end) ==
            if events[end - 1] == SetZero(k) then end else LastHeartbeat(events, k, from, end - 1)
  {
  }

  /** What one event does to the entry of a connection that it neither adds nor removes. */
  lemma EntryStep<K>(m: map<K, Info>, event: Event<K>, k: K)
    requires event != Remove(k) && !(event.Add? && event.key == k)
    ensures k !in m ==> k !in Next(m, event)
    ensures k in m && 0 <= m[k].num <= MAX_MISSES ==>
              if event == Poll then
                if m[k].num == MAX_MISSES then k !in Next(m, event)
                else k in Next(m, event) && Next(m, event)[k].num == m[k].num + 1
              else k in Next(m, event) && Next(m, event)[k].num == if event == SetZero(k) then 0 else m[k].num
  {
  }

  lemma RegularAtFirst<K>(events: seq<Event<K>>, k: K, from: nat)
    requires from <= |events|
    ensures Regular(events, k, from, from)
  {
  }

  lemma RegularBounds<K>(events: seq<Event<K>>, k: K, from: nat, end: nat)
    requires from <= end <= |events|
    ensures Regular(events, k, from, end) ==> PollsIn(events, LastHeartbeat(events, k, from, end), end) <= 3
  {
  }

  lemma PollsStep<K>(events: seq<Event<K>>, i: nat, j: nat)
    requires i <= j <= |events|
    ensures PollsIn(events, j, j) == 0
    ensures i < j ==> PollsIn(events, i, j) == PollsIn(events, i, j - 1) + (if events[j - 1] == Poll then 1 else 0)
  {
  }

  lemma RegularStep<K>(events: seq<Event<K>>, k: K, from: nat, end: nat)
    requires from < end <= |events|
    ensures Regular(events, k, from, end) <==>
            Regular(events, k, from, end - 1) && PollsIn(events, LastHeartbeat(events, k, from, end), end) <= 3
  {
    var s := LastHeartbeat(events, k, from, end);
    if Regular(events, k, from, end - 1) && PollsIn(events, s, end) <= 3 {
      forall i, j | from <= i <= j <= end && SilentIn(events, k, i, j) ensures PollsIn(events, i, j) <= 3 {
        if j == end { PollsShorter(events, s, i, end); }
      }
    }
  }
}
