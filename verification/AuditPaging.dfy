/**
 * The activity timeline of one cleanup action and its older pages
 * (apps/api/src/routes/library-cleanup.ts, lines 1652-1795). The audit log is append-only and
 * its event ids increase.
 */
module AuditPaging {

  import opened Options

  datatype Event = Event(id: nat, owner: string, action: string, body: string)

  type Log = seq<Event>

  ghost predicate Ordered(log: Log) {
    forall i, j :: 0 <= i < j < |log| ==> log[i].id < log[j].id
  }

  datatype Filter = Filter(owner: string, action: string, below: Option<nat>)

  predicate Matches(e: Event, f: Filter) {
    e.owner == f.owner && e.action == f.action && (f.below.Some? ==> e.id < f.below.value)
  }

  /** Everything the filter selects, oldest first. */
  function History(log: Log, f: Filter): seq<Event> {
    if log == [] then []
    else History(log[..|log| - 1], f) + if Matches(log[|log| - 1], f) then [log[|log| - 1]] else []
  }

  /** The history of an action is exactly its owner's events of it, here those below a bound, oldest first. */
  lemma {:induction false} HistoryIsExactly(log: Log, owner: string, action: string, below: Option<nat>, e: Event)
    requires Ordered(log)
    ensures e in History(log, Filter(owner, action, below)) <==>
            e in log && e.owner == owner && e.action == action && (below.None? || e.id < below.value)
    ensures multiset(History(log, Filter(owner, action, below)))[e] <= 1
    decreases |log|
  {
    if log != [] {
      var last, rest := log[|log| - 1], log[..|log| - 1];
      assert log == rest + [last];
      HistoryIsExactly(rest, owner, action, below, e);
      assert e == last ==> e !in rest;
    }
  }

  // ----- The two requests -----

  /** The query behind both requests: matching events from the newest backwards, up to a limit. */
  function FindNewest(log: Log, f: Filter, take: nat): seq<Event> {
    if log == [] || take == 0 then []
    else
      var last := log[|log| - 1];
      if Matches(last, f) then [last] + FindNewest(log[..|log| - 1], f, take - 1)
      else FindNewest(log[..|log| - 1], f, take)
  }

  function Reversed(s: seq<Event>): (r: seq<Event>)
    ensures |r| == |s|
  {
    if s == [] then [] else Reversed(s[1..]) + [s[0]]
  }

  datatype Page = Page(events: seq<Event>, olderEventsCursor: Option<nat>)

  const EVENTS_PER_TIMELINE: nat := 200

  /** The first response: `counted` comes from the grouping query, the events from a later one. */
  function Timeline(counted: nat, log: Log, owner: string, action: string): Page {
    var chronological := Reversed(FindNewest(log, Filter(owner, action, None), EVENTS_PER_TIMELINE));
    if chronological == [] then Page([], None)
    else Page(chronological, if counted > |chronological| then Some(chronological[0].id) else None)
  }

  function OlderPage(log: Log, owner: string, action: string, cursor: nat, pageSize: nat): Page {
    var events := FindNewest(log, Filter(owner, action, Some(cursor)), pageSize + 1);
    var hasMore := |events| > pageSize;
    var page := if hasMore then events[..pageSize] else events;
    Page(Reversed(page), if hasMore && page != [] then Some(page[|page| - 1].id) else None)
  }

  /** One request for an older page: the log it reads and the page size it asks for. */
  datatype Request = Request(log: Log, pageSize: nat)

  /** What the client holds after one more request. */
  function Next(held: Page, owner: string, action: string, now: Request): Page
    requires held.olderEventsCursor.Some?
  {
    var older := OlderPage(now.log, owner, action, held.olderEventsCursor.value, now.pageSize);
    Page(older.events + held.events, older.olderEventsCursor)
  }

  /** What a client holds after following the cursor through the requests it makes. */
  function Follow(held: Page, owner: string, action: string, requests: seq<Request>): Page
    decreases |requests|
  {
    if requests == [] || held.olderEventsCursor.None? then held
    else Follow(Next(held, owner, action, requests[0]), owner, action, requests[1..])
  }

  // ----- The query returns the end of the history -----

  /** The last `n` elements, or all of them when there are fewer. */
  function Tail(s: seq<Event>, n: nat): seq<Event> {
    if n <= |s| then s[|s| - n..] else s
  }

  lemma {:induction false} FindsTheNewest(log: Log, f: Filter, take: nat)
    ensures Reversed(FindNewest(log, f, take)) == Tail(History(log, f), take)
    decreases |log|
  {
    if log != [] && take > 0 {
      hide Reversed, Tail, Matches;
      var last := log[|log| - 1];
      var h := History(log[..|log| - 1], f);
      if Matches(last, f) {
        FindsTheNewest(log[..|log| - 1], f, take - 1);
        ReversedStep(last, FindNewest(log[..|log| - 1], f, take - 1));
        TailStep(h, last, take);
      } else {
        FindsTheNewest(log[..|log| - 1], f, take);
        assert h + [] == h;
      }
    }
  }

  lemma ReversedStep(e: Event, rest: seq<Event>)
    ensures Reversed([e] + rest) == Reversed(rest) + [e]
  {
    assert ([e] + rest)[1..] == rest;
  }

  lemma TailStep(h: seq<Event>, last: Event, take: nat)
    requires take > 0
    ensures Tail(h + [last], take) == Tail(h, take - 1) + [last]
  {
  }

  /** Asking for one more and dropping the last is asking for one fewer. */
  lemma {:induction false} OneMoreThenCut(log: Log, f: Filter, n: nat)
    ensures var more := FindNewest(log, f, n + 1);
            FindNewest(log, f, n) == if |more| > n then more[..n] else more
    decreases |log|
  {
    if log != [] {
      var rest := log[..|log| - 1];
      if !Matches(log[|log| - 1], f) {
        OneMoreThenCut(rest, f, n);
      } else if n > 0 {
        OneMoreThenCut(rest, f, n - 1);
      }
    }
  }

  lemma {:induction false} ReversedEnds(s: seq<Event>)
    requires s != []
    ensures Reversed(s)[0] == s[|s| - 1]
  {
    if |s| > 1 {
      ReversedEnds(s[1..]);
    }
  }

  // ----- Histories over time and below a cursor -----

  lemma {:induction false} HistoryOnlyGrows(log: Log, later: Log, f: Filter)
    requires log <= later
    ensures History(log, f) <= History(later, f)
    decreases |later|
  {
    if |log| < |later| {
      HistoryOnlyGrows(log, later[..|later| - 1], f);
    } else {
      assert log == later;
    }
  }

  lemma {:induction false} HistoryIsOrdered(log: Log, f: Filter)
    requires Ordered(log)
    ensures Ordered(History(log, f))
    ensures forall e :: e in History(log, f) ==> e in log && Matches(e, f)
  {
    if log != [] {
      var rest := log[..|log| - 1];
      HistoryIsOrdered(rest, f);
      assert forall e :: e in History(rest, f) ==> e in rest && e.id < log[|log| - 1].id;
    }
  }

  lemma HistoryStep(log: Log, f: Filter)
    requires log != []
    ensures History(log, f) ==
            History(log[..|log| - 1], f) + if Matches(log[|log| - 1], f) then [log[|log| - 1]] else []
  {
  }

  /** The events below a cursor are the history up to the event the cursor names. */
  lemma {:induction false} BelowTheCursor(log: Log, owner: string, action: string, i: nat)
    requires Ordered(log) && i < |History(log, Filter(owner, action, None))|
    ensures var h := History(log, Filter(owner, action, None));
            History(log, Filter(owner, action, Some(h[i].id))) == h[..i]
  {
    var all := Filter(owner, action, None);
    var h := History(log, all);
    var last, rest := log[|log| - 1], log[..|log| - 1];
    assert Ordered(rest);
    hide Ordered, History;
    HistoryIsOrdered(rest, all);
    HistoryStep(log, all);
    HistoryStep(log, Filter(owner, action, Some(h[i].id)));
    if i < |History(rest, all)| {
      BelowTheCursor(rest, owner, action, i);
      assert h[i] in History(rest, all);
      LastIsNewest(log, h[i]);
    } else {
      forall e | e in rest ensures e.id < last.id {
        LastIsNewest(log, e);
      }
      EverythingIsBelow(rest, owner, action, last.id);
    }
  }

  lemma LastIsNewest(log: Log, e: Event)
    requires Ordered(log) && log != [] && e in log[..|log| - 1]
    ensures e.id < log[|log| - 1].id
  {
  }

  lemma {:induction false} EverythingIsBelow(log: Log, owner: string, action: string, bound: nat)
    requires forall e :: e in log ==> e.id < bound
    ensures History(log, Filter(owner, action, Some(bound))) == History(log, Filter(owner, action, None))
  {
    if log != [] {
      EverythingIsBelow(log[..|log| - 1], owner, action, bound);
    }
  }

  // ----- Following the cursor -----

  /** With `i` events of the history still to come, a page brings the ones just before them. */
  lemma OlderPageComesJustBefore(log: Log, owner: string, action: string, i: nat, pageSize: nat)
    requires Ordered(log) && i < |History(log, Filter(owner, action, None))| && pageSize > 0
    ensures var h := History(log, Filter(owner, action, None));
            OlderPage(log, owner, action, h[i].id, pageSize) ==
            if i > pageSize then Page(h[i - pageSize..i], Some(h[i - pageSize].id)) else Page(h[..i], None)
  {
    hide History, FindNewest;
    var h := History(log, Filter(owner, action, None));
    var f := Filter(owner, action, Some(h[i].id));
    BelowTheCursor(log, owner, action, i);
    FindsTheNewest(log, f, pageSize + 1);
    FindsTheNewest(log, f, pageSize);
    OneMoreThenCut(log, f, pageSize);
    if i > pageSize {
      ReversedEnds(FindNewest(log, f, pageSize));
    }
  }

  /** What the client holds is a stretch of the history up to its end, and the cursor says where it starts. */
  ghost predicate Holds(held: Page, h: seq<Event>) {
    && |held.events| <= |h|
    && held.events == h[|h| - |held.events|..]
    && match held.olderEventsCursor
       case None => |held.events| == |h|
       case Some(cursor) => 0 < |held.events| < |h| && cursor == held.events[0].id
  }

  ghost predicate ReadsLaterLogs(requests: seq<Request>, log: Log) {
    forall r :: r in requests ==> log <= r.log && Ordered(r.log) && r.pageSize > 0
  }

  lemma RequestHoldsTheHistory(held: Page, log: Log, owner: string, action: string, now: Request)
    requires held.olderEventsCursor.Some? && Holds(held, History(log, Filter(owner, action, None)))
    requires log <= now.log && Ordered(now.log) && now.pageSize > 0
    ensures Holds(Next(held, owner, action, now), History(log, Filter(owner, action, None)))
    ensures |Next(held, owner, action, now).events| > |held.events|
  {
    hide History, FindNewest, OlderPage, Ordered;
    var all := Filter(owner, action, None);
    var h, later := History(log, all), History(now.log, all);
    var i := |h| - |held.events|;
    HistoryOnlyGrows(log, now.log, all);
    assert later[i] == h[i];
    OlderPageComesJustBefore(now.log, owner, action, i, now.pageSize);
    StretchGrows(h, later, i, now.pageSize);
  }

  /**
   * Whatever the page sizes and whatever was appended in between, each request extends the
   * held stretch backwards without gap or repetition, by at least one event.
   */
  lemma {:induction false} FollowingHoldsTheHistory(held: Page, log: Log, owner: string, action: string,
                                                    requests: seq<Request>)
    requires Holds(held, History(log, Filter(owner, action, None))) && ReadsLaterLogs(requests, log)
    ensures var r := Follow(held, owner, action, requests);
            && Holds(r, History(log, Filter(owner, action, None)))
            && (r.olderEventsCursor.Some? ==> |r.events| >= |held.events| + |requests|)
    decreases |requests|
  {
    hide History, OlderPage, Holds, Ordered;
    if requests != [] && held.olderEventsCursor.Some? {
      assert requests[0] in requests;
      RequestHoldsTheHistory(held, log, owner, action, requests[0]);
      FollowingHoldsTheHistory(Next(held, owner, action, requests[0]), log, owner, action, requests[1..]);
    }
  }

  lemma StretchGrows(h: seq<Event>, later: seq<Event>, i: nat, n: nat)
    requires h <= later && i <= |h|
    ensures later[..i] + h[i..] == h
    ensures n < i ==> later[i - n..i] + h[i..] == h[i - n..]
  {
  }

  /** The first response is the end of the history, and its cursor is right unless the count was short. */
  lemma TimelineHolds(count: nat, log: Log, owner: string, action: string)
    requires count <= |History(log, Filter(owner, action, None))|
    ensures var h := History(log, Filter(owner, action, None));
            var first := Timeline(count, log, owner, action);
            && first.events == Tail(h, EVENTS_PER_TIMELINE)
            && (count <= EVENTS_PER_TIMELINE ==> first.olderEventsCursor.None?)
            && (!(count <= EVENTS_PER_TIMELINE < |h|) ==> Holds(first, h))
  {
    hide History, FindNewest, Reversed;
    FindsTheNewest(log, Filter(owner, action, None), EVENTS_PER_TIMELINE);
  }

  /**
   * The whole walk. The first response counts in one snapshot and reads events in a later one;
   * following its cursor far enough delivers every event up to that response, exactly once and
   * in id order, exactly when the count did not stop at a full timeline while the log outgrew it.
   */
  lemma WalkIsCompleteIff(counted: Log, log: Log, owner: string, action: string, requests: seq<Request>)
    requires counted <= log && Ordered(log) && ReadsLaterLogs(requests, log)
    requires |requests| >= |History(log, Filter(owner, action, None))|
    ensures var h := History(log, Filter(owner, action, None));
            var count := |History(counted, Filter(owner, action, None))|;
            var walk := Follow(Timeline(count, log, owner, action), owner, action, requests);
            && walk.olderEventsCursor.None? && Ordered(walk.events)
            && (walk.events == h <==> !(count <= EVENTS_PER_TIMELINE < |h|))
  {
    hide History, FindNewest, Timeline, ReadsLaterLogs, OlderPage;
    var all := Filter(owner, action, None);
    var h := History(log, all);
    var count := |History(counted, all)|;
    HistoryOnlyGrows(counted, log, all);
    HistoryIsOrdered(log, all);
    TimelineHolds(count, log, owner, action);
    var first := Timeline(count, log, owner, action);
    if !(count <= EVENTS_PER_TIMELINE < |h|) {
      hide Follow;
      FollowingHoldsTheHistory(first, log, owner, action, requests);
    }
  }

  /** When both queries of the first response read one snapshot, the walk is complete. */
  lemma WalkOfOneSnapshotIsComplete(log: Log, owner: string, action: string, requests: seq<Request>)
    requires Ordered(log) && ReadsLaterLogs(requests, log)
    requires |requests| >= |History(log, Filter(owner, action, None))|
    ensures var h := History(log, Filter(owner, action, None));
            Follow(Timeline(|h|, log, owner, action), owner, action, requests) == Page(h, None)
  {
    WalkIsCompleteIff(log, log, owner, action, requests);
  }

  // ----- The cursor can get lost -----

  /** A log of `n` events of one action. */
  function Logged(owner: string, action: string, n: nat): Log {
    seq(n, i requires 0 <= i < n => Event(i, owner, action, ""))
  }

  lemma {:induction false} LoggedHistory(owner: string, action: string, n: nat)
    ensures History(Logged(owner, action, n), Filter(owner, action, None)) == Logged(owner, action, n)
  {
    var log := Logged(owner, action, n);
    if n > 0 {
      LoggedHistory(owner, action, n - 1);
      assert log[..n - 1] == Logged(owner, action, n - 1);
    }
  }

  /** One event recorded between the count and the read: the oldest of 201 events is never delivered. */
  lemma CursorGetsLost(owner: string, action: string, requests: seq<Request>)
    requires ReadsLaterLogs(requests, Logged(owner, action, EVENTS_PER_TIMELINE + 1))
    requires |requests| > EVENTS_PER_TIMELINE
    ensures var counted := Logged(owner, action, EVENTS_PER_TIMELINE);
            var log := Logged(owner, action, EVENTS_PER_TIMELINE + 1);
            && counted <= log && Ordered(log)
            && Follow(Timeline(|counted|, log, owner, action), owner, action, requests).events
               != History(log, Filter(owner, action, None))
  {
    hide History, Follow, Timeline, ReadsLaterLogs;
    LoggedHistory(owner, action, EVENTS_PER_TIMELINE);
    LoggedHistory(owner, action, EVENTS_PER_TIMELINE + 1);
    WalkIsCompleteIff(Logged(owner, action, EVENTS_PER_TIMELINE), Logged(owner, action, EVENTS_PER_TIMELINE + 1),
                      owner, action, requests);
  }
}
