/**
 * The in-memory store of OIDC flows that wait for their callback
 * (apps/api/src/routes/auth-oidc.ts, lines 22-48, 286-302 and 364-396). A flow is stored under a
 * random state, in insertion order; times are in milliseconds.
 */
module OidcStates {

  const MAX_ENTRIES: nat := 1000
  const LIFETIME := 15 * 60 * 1000

  import opened Options

  /** What the callback needs: nonce and verifier, the intent, and who started a link or a test. */
  datatype Intent = Login | LinkOrTest(user: string, session: string)

  datatype Flow = Flow(nonce: string, codeVerifier: string, intent: Intent)

  datatype Entry = Entry(state: string, flow: Flow, expiresAt: int)

  datatype Event =
    | Begin(state: string, flow: Flow, now: int)
    | Callback(state: string, now: int)
    | Sweep(now: int)

  predicate Has(entries: seq<Entry>, state: string) {
    exists x :: x in entries && x.state == state
  }

  function Without(entries: seq<Entry>, state: string): (r: seq<Entry>)
    ensures |r| <= |entries|
    ensures forall x :: x in r <==> x in entries && x.state != state
  {
    if entries == [] then []
    else (if entries[0].state == state then [] else [entries[0]]) + Without(entries[1..], state)
  }

  function Unexpired(entries: seq<Entry>, now: int): (r: seq<Entry>)
    ensures |r| <= |entries|
    ensures forall x :: x in r <==> x in entries && x.expiresAt >= now
  {
    if entries == [] then []
    else (if entries[0].expiresAt < now then [] else [entries[0]]) + Unexpired(entries[1..], now)
  }

  function Find(entries: seq<Entry>, state: string): (r: Option<Entry>)
    ensures r.None? <==> !Has(entries, state)
    ensures r.Some? ==> r.value in entries && r.value.state == state
  {
    if entries == [] then None
    else if entries[0].state == state then Some(entries[0])
    else
      assert forall x :: x in entries && x.state == state ==> x in entries[1..];
      Find(entries[1..], state)
  }

  function Step(entries: seq<Entry>, e: Event): seq<Entry> {
    match e
    case Begin(state, flow, now) =>
      var kept := if |entries| >= MAX_ENTRIES then entries[1..] else entries;
      Without(kept, state) + [Entry(state, flow, now + LIFETIME)]
    case Callback(state, now) => Without(entries, state)
    case Sweep(now) => Unexpired(entries, now)
  }

  /** The flow a callback goes on with. */
  function Accepts(entries: seq<Entry>, e: Event): Option<Flow> {
    if !e.Callback? then None
    else
      match Find(entries, e.state)
      case None => None
      case Some(x) => if x.expiresAt < e.now then None else Some(x.flow)
  }

  class StateStore {
    var entries: seq<Entry>

    constructor ()
      ensures entries == []
    {
      entries := [];
    }

    /** Stores a flow under a new random state; a full store first gives up its oldest flow. */
    method BeginFlow(state: string, flow: Flow, now: int)
      modifies this
      ensures entries == Step(old(entries), Begin(state, flow, now))
      ensures old(|entries|) <= MAX_ENTRIES ==> |entries| <= MAX_ENTRIES
      ensures var kept := old(entries)[if |old(entries)| >= MAX_ENTRIES then 1 else 0..];
              && (forall x :: x in entries <==>
                    x == Entry(state, flow, now + LIFETIME) || (x in kept && x.state != state))
              && entries[|entries| - 1] == Entry(state, flow, now + LIFETIME)
    {
      if |entries| >= MAX_ENTRIES {
        entries := entries[1..];
      }
      entries := Without(entries, state) + [Entry(state, flow, now + LIFETIME)];
    }

    /** Takes the flow of a callback out of the store, expired or not. */
    method TakeFlow(state: string, now: int) returns (flow: Option<Flow>)
      modifies this
      ensures entries == Step(old(entries), Callback(state, now)) && !Has(entries, state)
      ensures flow == Accepts(old(entries), Callback(state, now))
      ensures forall x :: x in entries <==> x in old(entries) && x.state != state
      ensures flow.Some? ==> exists x :: && x in old(entries) && x.state == state && now <= x.expiresAt
                                         && flow.value == x.flow
      ensures flow.None? && Has(old(entries), state) ==>
                exists x :: x in old(entries) && x.state == state && x.expiresAt < now
    {
      var stored := Find(entries, state);
      if stored.None? {
        NothingToRemove(entries, state);
        return None;
      }
      entries := Without(entries, state);
      if stored.value.expiresAt < now {
        return None;
      }
      flow := Some(stored.value.flow);
    }

    method DropExpired(now: int)
      modifies this
      ensures entries == Step(old(entries), Sweep(now))
      ensures forall x :: x in entries <==> x in old(entries) && x.expiresAt >= now
    {
      entries := Unexpired(entries, now);
    }
  }

  lemma {:induction false} NothingToRemove(entries: seq<Entry>, state: string)
    requires !Has(entries, state)
    ensures Without(entries, state) == entries
  {
    if entries != [] {
      assert forall x :: x in entries[1..] ==> x in entries;
      NothingToRemove(entries[1..], state);
    }
  }

  // ----- Runs from an empty store -----

  function At(events: seq<Event>, k: nat): seq<Entry>
    requires k <= |events|
  {
    if k == 0 then [] else Step(At(events, k - 1), events[k - 1])
  }

  /** The generated states are all different. */
  ghost predicate FreshStates(events: seq<Event>) {
    forall i, j :: 0 <= i < j < |events| && events[i].Begin? && events[j].Begin? ==> events[i].state != events[j].state
  }

  lemma {:induction false} NeverOverfull(events: seq<Event>, k: nat)
    requires k <= |events|
    ensures |At(events, k)| <= MAX_ENTRIES
  {
    if k > 0 {
      hide Without, Unexpired;
      NeverOverfull(events, k - 1);
    }
  }

  lemma StepBrings(entries: seq<Entry>, e: Event, x: Entry)
    requires x in Step(entries, e)
    ensures x in entries || (e.Begin? && x == Entry(e.state, e.flow, e.now + LIFETIME))
  {
  }

  /** Step `i` began the stored flow. */
  ghost predicate BegunAt(events: seq<Event>, i: nat, x: Entry) {
    i < |events| && events[i].Begin? && x == Entry(events[i].state, events[i].flow, events[i].now + LIFETIME)
  }

  lemma {:induction false} StoredWasBegun(events: seq<Event>, k: nat, x: Entry) returns (i: nat)
    requires k <= |events| && x in At(events, k)
    ensures i < k && BegunAt(events, i, x)
  {
    hide Step;
    StepBrings(At(events, k - 1), events[k - 1], x);
    if x in At(events, k - 1) {
      i := StoredWasBegun(events, k - 1, x);
    } else {
      i := k - 1;
    }
  }

  lemma {:induction false} GoneStaysGone(events: seq<Event>, state: string, k: nat, j: nat)
    requires k <= j <= |events| && !Has(At(events, k), state)
    requires forall n :: k <= n < j && events[n].Begin? ==> events[n].state != state
    ensures !Has(At(events, j), state)
    decreases j
  {
    hide Without, Unexpired;
    if k < j {
      GoneStaysGone(events, state, k, j - 1);
      var before, e := At(events, j - 1), events[j - 1];
      forall x | x in At(events, j) ensures x.state != state {
        assert x in before || (e.Begin? && x.state == e.state);
      }
    }
  }

  ghost predicate AcceptedFor(events: seq<Event>, k: nat, state: string)
    requires k < |events|
  {
    events[k].Callback? && events[k].state == state && Accepts(At(events, k), events[k]).Some?
  }

  /** Callback `k` goes on with the flow begun by step `i`, within its lifetime. */
  ghost predicate Answers(events: seq<Event>, i: nat, k: nat) {
    && i < |events| && k < |events| && events[i].Begin? && events[k].Callback? && events[k].state == events[i].state
    && Accepts(At(events, k), events[k]) == Some(events[i].flow) && events[k].now <= events[i].now + LIFETIME
  }

  /**
   * An accepted callback answers a flow that was begun, with exactly that flow, within its
   * lifetime; and no other callback with that state is ever accepted.
   */
  lemma AcceptedOnce(events: seq<Event>, k: nat, state: string) returns (i: nat)
    requires FreshStates(events) && k < |events|
    ensures AcceptedFor(events, k, state) ==>
              && i < k && Answers(events, i, k) && events[i].state == state
              && forall j :: 0 <= j < |events| && AcceptedFor(events, j, state) ==> j == k
  {
    i := 0;
    if AcceptedFor(events, k, state) {
      i := AcceptedWasBegun(events, k, state);
      forall j | 0 <= j < |events| && AcceptedFor(events, j, state) ensures j == k {
        hide AcceptedFor;
        TakenOnce(events, j, k, state);
        TakenOnce(events, k, j, state);
      }
    }
  }

  lemma AcceptedWasBegun(events: seq<Event>, k: nat, state: string) returns (i: nat)
    requires k < |events| && AcceptedFor(events, k, state)
    ensures i < k && Answers(events, i, k) && events[i].state == state
  {
    hide At;
    i := StoredWasBegun(events, k, Find(At(events, k), state).value);
  }

  lemma TakenOnce(events: seq<Event>, j: nat, k: nat, state: string)
    requires FreshStates(events) && j < |events| && k < |events|
    requires AcceptedFor(events, j, state) && AcceptedFor(events, k, state)
    ensures !(j < k)
  {
    hide Step, Accepts, Has, AcceptedFor, At;
    if j < k {
      var begun := AcceptedWasBegun(events, j, state);
      TakenIsGone(events, j, state);
      TakenIsGone(events, k, state);
      GoneStaysGone(events, state, j + 1, k);
    }
  }

  lemma TakenIsGone(events: seq<Event>, k: nat, state: string)
    requires k < |events| && AcceptedFor(events, k, state)
    ensures Has(At(events, k), state) && !Has(At(events, k + 1), state)
  {
    TakesOut(At(events, k), state);
  }

  lemma TakesOut(entries: seq<Entry>, state: string)
    ensures !Has(Without(entries, state), state)
  {
  }

  // ----- A flow is not lost -----

  /** How many flows began in a stretch of the run. */
  function Begins(events: seq<Event>, first: nat, end: nat): nat
    requires first <= end <= |events|
    decreases end
  {
    if first == end then 0 else Begins(events, first, end - 1) + if events[end - 1].Begin? then 1 else 0
  }

  /** Between `i` and `k` the clock stays within the lifetime and no callback takes the flow. */
  ghost predicate Undisturbed(events: seq<Event>, i: nat, k: nat) {
    && i < k <= |events| && events[i].Begin?
    && forall n :: i < n < k ==>
         && events[n].now <= events[i].now + LIFETIME
         && (events[n].Callback? ==> events[n].state != events[i].state)
  }

  lemma {:induction false} FlowIsKept(events: seq<Event>, i: nat, k: nat)
    requires FreshStates(events) && Undisturbed(events, i, k) && Begins(events, i + 1, k) < MAX_ENTRIES
    ensures var x := Entry(events[i].state, events[i].flow, events[i].now + LIFETIME);
            KeptWithin(At(events, k), x, Begins(events, i + 1, k))
    decreases k
  {
    hide Step, KeptWithin;
    var x := Entry(events[i].state, events[i].flow, events[i].now + LIFETIME);
    if k == i + 1 {
      BegunIsLast(At(events, i), events[i]);
      LastIsKept(At(events, k), x);
    } else {
      FlowIsKept(events, i, k - 1);
      NeverOverfull(events, k - 1);
      StepKeeps(At(events, k - 1), events[k - 1], x, Begins(events, i + 1, k - 1));
    }
  }

  lemma BegunIsLast(entries: seq<Entry>, e: Event)
    requires e.Begin?
    ensures Step(entries, e) != []
    ensures Step(entries, e)[|Step(entries, e)| - 1] == Entry(e.state, e.flow, e.now + LIFETIME)
  {
  }

  /** The entry is stored, with at most `n` entries behind it. */
  ghost predicate KeptWithin(entries: seq<Entry>, x: Entry, n: nat) {
    exists p :: 0 <= p < |entries| && entries[p] == x && |entries| - 1 - p <= n
  }

  lemma LastIsKept(entries: seq<Entry>, x: Entry)
    requires entries != [] && entries[|entries| - 1] == x
    ensures KeptWithin(entries, x, 0)
  {
    assert entries[|entries| - 1] == x && |entries| - 1 - (|entries| - 1) <= 0;
  }

  lemma {:induction false} WithoutKeeps(entries: seq<Entry>, state: string, x: Entry, n: nat)
    requires KeptWithin(entries, x, n) && x.state != state
    ensures KeptWithin(Without(entries, state), x, n)
  {
    var p :| 0 <= p < |entries| && entries[p] == x && |entries| - 1 - p <= n;
    var rest := Without(entries[1..], state);
    if p == 0 {
      assert Without(entries, state)[0] == x;
    } else {
      assert entries[1..][p - 1] == x;
      WithoutKeeps(entries[1..], state, x, n);
      PrependKeeps(if entries[0].state == state then [] else [entries[0]], rest, x, n);
    }
  }

  lemma {:induction false} UnexpiredKeeps(entries: seq<Entry>, now: int, x: Entry, n: nat)
    requires KeptWithin(entries, x, n) && x.expiresAt >= now
    ensures KeptWithin(Unexpired(entries, now), x, n)
  {
    var p :| 0 <= p < |entries| && entries[p] == x && |entries| - 1 - p <= n;
    var rest := Unexpired(entries[1..], now);
    if p == 0 {
      assert Unexpired(entries, now)[0] == x;
    } else {
      assert entries[1..][p - 1] == x;
      UnexpiredKeeps(entries[1..], now, x, n);
      PrependKeeps(if entries[0].expiresAt < now then [] else [entries[0]], rest, x, n);
    }
  }

  lemma PrependKeeps(front: seq<Entry>, entries: seq<Entry>, x: Entry, n: nat)
    requires KeptWithin(entries, x, n)
    ensures KeptWithin(front + entries, x, n)
  {
    var p :| 0 <= p < |entries| && entries[p] == x && |entries| - 1 - p <= n;
    assert (front + entries)[|front| + p] == x;
  }

  lemma EvictionKeeps(entries: seq<Entry>, x: Entry, n: nat)
    requires KeptWithin(entries, x, n) && n + 1 < |entries|
    ensures KeptWithin(entries[1..], x, n)
  {
    var p :| 0 <= p < |entries| && entries[p] == x && |entries| - 1 - p <= n;
    assert entries[1..][p - 1] == x;
  }

  lemma AppendKeeps(entries: seq<Entry>, last: Entry, x: Entry, n: nat)
    requires KeptWithin(entries, x, n)
    ensures KeptWithin(entries + [last], x, n + 1)
  {
    var p :| 0 <= p < |entries| && entries[p] == x && |entries| - 1 - p <= n;
    assert (entries + [last])[p] == x;
  }

  lemma StepKeeps(entries: seq<Entry>, e: Event, x: Entry, n: nat)
    requires KeptWithin(entries, x, n) && |entries| <= MAX_ENTRIES
    requires e.Begin? ==> n + 1 < MAX_ENTRIES
    requires e.now <= x.expiresAt && (!e.Sweep? ==> e.state != x.state)
    ensures KeptWithin(Step(entries, e), x, if e.Begin? then n + 1 else n)
  {
    hide KeptWithin, Without, Unexpired;
    match e {
      case Begin(state, flow, now) =>
        var kept := if |entries| >= MAX_ENTRIES then entries[1..] else entries;
        if |entries| >= MAX_ENTRIES {
          EvictionKeeps(entries, x, n);
        }
        WithoutKeeps(kept, state, x, n);
        AppendKeeps(Without(kept, state), Entry(state, flow, now + LIFETIME), x, n);
      case Callback(state, now) => WithoutKeeps(entries, state, x, n);
      case Sweep(now) => UnexpiredKeeps(entries, now, x, n);
    }
  }

  /** A callback within the lifetime is accepted, unless a thousand newer flows began meanwhile. */
  lemma PromptCallbackIsAccepted(events: seq<Event>, i: nat, k: nat)
    requires FreshStates(events) && k < |events| && Undisturbed(events, i, k)
    requires events[k].Callback? && events[k].state == events[i].state && events[k].now <= events[i].now + LIFETIME
    requires Begins(events, i + 1, k) < MAX_ENTRIES
    ensures Accepts(At(events, k), events[k]) == Some(events[i].flow)
  {
    var x := Entry(events[i].state, events[i].flow, events[i].now + LIFETIME);
    FlowIsKept(events, i, k);
    assert x in At(events, k);
    var found := Find(At(events, k), events[k].state).value;
    var begun := StoredWasBegun(events, k, found);
    assert begun == i;
  }
}
