/**
 * The cleanup approval queue: approving, rejecting and expiring
 * (apps/api/src/routes/library-cleanup.ts, lines 320-355 and 1346-1644), claiming and executing
 * what was approved (apps/api/src/lib/library-cleanup/cleanup-executor.ts, lines 1164-1182,
 * 2896-2948 and 4403-4455), the scheduler's sweep and crash recovery
 * (apps/api/src/lib/library-cleanup/cleanup-scheduler.ts, lines 180-262 and 337-515), and the
 * withdrawal of approvals when the provider they rest on is replaced
 * (apps/api/src/lib/services/service-identity-lifecycle.ts, lines 115-185). Every change is one
 * conditional update of the stored rows; times are in milliseconds.
 */
module Approvals {

  import opened Options

  datatype Status = Pending | Approved | Rejected | Expired | Executing | RetryPending | RetryExecuting | Executed

  datatype Approval = Approval(
    owner: string,
    status: Status,
    executionToken: Option<string>,
    reviewedAt: Option<int>,
    expiresAt: int)

  type Rows = map<string, Approval>

  /** How a worker gives up the row it holds: untouched, partly done, no longer valid, or done. */
  datatype Outcome = Failed | Partial | Invalid | Done

  /** One conditional update; `now` is the time its condition compares expiry against. */
  datatype Event =
      /** A request marks what has run out of its user's approvals. */
    | Expire(user: string, now: int)
      /** The scheduler marks what has run out, whoever it belongs to. */
    | Lapse(ids: set<string>, now: int)
    | Approve(ids: set<string>, user: string, now: int, reviewedAt: int, token: string)
    | Reject(ids: set<string>, user: string, now: int)
      /** The approvals `ids` rest on a provider that is being replaced. */
    | Withdraw(ids: set<string>, user: string)
      /** Approved rows that execution did not claim go back, those of one request if it is named. */
    | Release(ids: set<string>, user: string, request: Option<string>)
      /** A worker takes an approved row for itself, under a token of its own. */
    | Claim(id: string, user: string, request: Option<string>, now: int, token: string)
      /** A worker takes a row whose mutation was started before; its expiry does not matter. */
    | Retry(id: string, user: string, now: int, token: string)
    | Renew(id: string, user: string, retry: bool, token: string, reviewedAt: int)
    | Finish(id: string, user: string, retry: bool, token: string, outcome: Outcome, noted: Option<int>)
      /** The scheduler takes rows off workers or requests not heard of since `before`. */
    | Recover(ids: set<string>, from: Status, to: Status, before: int, reviewedAt: int)

  /** The approval may still lead to a deletion. */
  predicate IsOpen(status: Status) {
    status.Pending? || status.Approved? || IsRunning(status) || status.RetryPending?
  }

  predicate IsRunning(status: Status) {
    status.Executing? || status.RetryExecuting?
  }

  /** What crash recovery makes of interrupted requests and workers. */
  predicate Recovers(from: Status, to: Status) {
    match from
    case Approved => to.Pending?
    case Executing => to.Pending? || to.RetryPending? || to.Expired?
    case RetryExecuting => to.RetryPending? || to.Expired?
    case _ => false
  }

  /** The row is held under the token, by a worker that retries or one that does not. */
  predicate Holds(row: Approval, retry: bool, token: string) {
    row.status == (if retry then RetryExecuting else Executing) && row.executionToken == Some(token)
  }

  /** The row satisfies the condition of the update. */
  predicate Selects(e: Event, id: string, row: Approval) {
    match e
    case Expire(user, now) => row.owner == user && row.status.Pending? && row.expiresAt <= now
    case Lapse(ids, now) => id in ids && row.status.Pending? && row.expiresAt < now
    case Approve(ids, user, now, _, _) => id in ids && row.owner == user && row.status.Pending? && row.expiresAt > now
    case Reject(ids, user, now) => id in ids && row.owner == user && row.status.Pending? && row.expiresAt > now
    case Withdraw(ids, user) => id in ids && row.owner == user && IsOpen(row.status)
    case Release(ids, user, request) =>
      id in ids && row.owner == user && row.status.Approved? && (request.Some? ==> row.executionToken == request)
    case Claim(claimed, user, request, now, _) =>
      && id == claimed && row.owner == user && row.status.Approved?
      && (request.Some? ==> row.executionToken == request) && row.expiresAt > now
    case Retry(claimed, user, _, _) => id == claimed && row.owner == user && row.status.RetryPending?
    case Renew(held, user, retry, token, _) => id == held && row.owner == user && Holds(row, retry, token)
    case Finish(held, user, retry, token, _, _) => id == held && row.owner == user && Holds(row, retry, token)
    case Recover(ids, from, to, before, _) =>
      && id in ids && row.status == from && Recovers(from, to)
      && row.reviewedAt.Some? && row.reviewedAt.value < before
  }

  /** The status an update gives the rows it selects. */
  function Target(e: Event): Status {
    match e
    case Approve(_, _, _, _, _) => Approved
    case Reject(_, _, _) => Rejected
    case Release(_, _, _) => Pending
    case Claim(_, _, _, _, _) => Executing
    case Retry(_, _, _, _) => RetryExecuting
    case Renew(_, _, retry, _, _) => if retry then RetryExecuting else Executing
    case Finish(_, _, retry, _, outcome, _) =>
      (match outcome
       case Failed => if retry then RetryPending else Pending
       case Partial => RetryPending
       case Invalid => Expired
       case Done => Executed)
    case Recover(_, _, to, _, _) => to
    case _ => Expired
  }

  function TokenAfter(e: Event, held: Option<string>): Option<string> {
    match e
    case Approve(_, _, _, _, token) => Some(token)
    case Claim(_, _, _, _, token) => Some(token)
    case Retry(_, _, _, token) => Some(token)
    case Reject(_, _, _) => None
    case Release(_, _, _) => None
    case Finish(_, _, _, _, _, _) => None
    case Recover(_, _, _, _, _) => None
    case _ => held
  }

  function ReviewedAfter(e: Event, reviewed: Option<int>): Option<int> {
    match e
    case Withdraw(_, _) => reviewed
    case Release(_, _, _) => reviewed
    case Approve(_, _, _, reviewedAt, _) => Some(reviewedAt)
    case Renew(_, _, _, _, reviewedAt) => Some(reviewedAt)
    case Recover(_, _, _, _, reviewedAt) => Some(reviewedAt)
    case Finish(_, _, _, _, _, noted) => if noted.Some? then noted else reviewed
    case Expire(_, now) => Some(now)
    case Lapse(_, now) => Some(now)
    case Reject(_, _, now) => Some(now)
    case Claim(_, _, _, now, _) => Some(now)
    case Retry(_, _, now, _) => Some(now)
  }

  function Changed(e: Event, row: Approval): Approval {
    row.(status := Target(e), executionToken := TokenAfter(e, row.executionToken),
         reviewedAt := ReviewedAfter(e, row.reviewedAt))
  }

  /** What the update makes of the row. */
  function Next(e: Event, id: string, row: Approval): Approval {
    if Selects(e, id, row) then Changed(e, row) else row
  }

  function Apply(rows: Rows, e: Event): Rows {
    map id | id in rows :: Next(e, id, rows[id])
  }

  class ApprovalQueue {
    var rows: Rows

    constructor (rows: Rows)
      ensures this.rows == rows
    {
      this.rows := rows;
    }

    /**
     * The conditional update. Rows that do not satisfy its condition stay as they are; the others
     * get the status the update stands for, and keep owner and expiry. The count is the number of
     * rows that are different afterwards, save that a worker may renew its row to the same.
     */
    method UpdateMany(e: Event) returns (count: nat)
      modifies this
      ensures rows == Apply(old(rows), e)
      ensures rows.Keys == old(rows).Keys
      ensures forall id :: id in rows && !Selects(e, id, old(rows)[id]) ==> rows[id] == old(rows)[id]
      ensures forall id :: id in rows && Selects(e, id, old(rows)[id]) ==>
                             && rows[id].status == Target(e)
                             && rows[id].executionToken == TokenAfter(e, old(rows)[id].executionToken)
                             && rows[id].reviewedAt == ReviewedAfter(e, old(rows)[id].reviewedAt)
                             && rows[id].owner == old(rows)[id].owner && rows[id].expiresAt == old(rows)[id].expiresAt
      ensures count == |set id | id in rows && Selects(e, id, old(rows)[id])|
      ensures !e.Renew? ==> count == |set id | id in rows && rows[id] != old(rows)[id]|
    {
      hide Selects, Target, TokenAfter, ReviewedAfter;
      SelectedChange(rows, e);
      count := |set id | id in rows && Selects(e, id, rows[id])|;
      rows := Apply(rows, e);
    }

    /** Marks what has run out, then approves the one row; the caller learns whether it won. */
    method ApproveOne(id: string, user: string, expiryTime: int, reviewedAt: int, now: int, token: string,
                      auditing: bool)
      returns (won: bool)
      requires expiryTime <= reviewedAt <= now
      modifies this
      ensures var swept := if auditing then Apply(old(rows), Expire(user, expiryTime)) else old(rows);
              && rows == Apply(swept, Approve({id}, user, now, reviewedAt, token))
              && (won <==> id in swept && Selects(Approve({id}, user, now, reviewedAt, token), id, swept[id]))
      ensures won <==> && id in old(rows) && old(rows)[id].owner == user && old(rows)[id].status == Pending
                       && old(rows)[id].expiresAt > now
      ensures won ==> rows[id] == old(rows)[id].(status := Approved, executionToken := Some(token),
                                                 reviewedAt := Some(reviewedAt))
    {
      if auditing {
        var expired := UpdateMany(Expire(user, expiryTime));
      }
      ghost var swept := rows;
      var e := Approve({id}, user, now, reviewedAt, token);
      var count := UpdateMany(e);
      ChangedAmong(swept, e, id);
      won := count == 1;
    }

    method RejectOne(id: string, user: string, now: int) returns (won: bool)
      modifies this
      ensures rows == Apply(old(rows), Reject({id}, user, now))
      ensures won <==> && id in old(rows) && old(rows)[id].owner == user && old(rows)[id].status == Pending
                       && old(rows)[id].expiresAt > now
      ensures won ==> rows[id] == old(rows)[id].(status := Rejected, executionToken := None, reviewedAt := Some(now))
    {
      ghost var before := rows;
      var count := UpdateMany(Reject({id}, user, now));
      ChangedAmong(before, Reject({id}, user, now), id);
      won := count == 1;
    }

    method Bulk(ids: set<string>, approve: bool, user: string, expiryTime: int, reviewedAt: int, now: int,
                token: string, auditing: bool)
      returns (updated: nat)
      requires expiryTime <= reviewedAt <= now
      modifies this
      ensures rows == if !approve then Apply(old(rows), Reject(ids, user, reviewedAt))
                      else Apply(if auditing then Apply(old(rows), Expire(user, expiryTime)) else old(rows),
                                 Approve(ids, user, now, reviewedAt, token))
      ensures !approve ==> updated == |ids * PendingView(old(rows), user, reviewedAt)|
      ensures approve ==> updated == |ids * PendingView(if auditing then Apply(old(rows), Expire(user, expiryTime))
                                                        else old(rows), user, now)|
    {
      if !approve {
        PendingViewIsWhatCanBeDecided(rows, ids, user, reviewedAt, reviewedAt, token);
        updated := UpdateMany(Reject(ids, user, reviewedAt));
        return;
      }
      if auditing {
        var expired := UpdateMany(Expire(user, expiryTime));
      }
      PendingViewIsWhatCanBeDecided(rows, ids, user, now, reviewedAt, token);
      updated := UpdateMany(Approve(ids, user, now, reviewedAt, token));
    }

    /** The loop over the user's open approvals that expires those resting on the replaced provider. */
    method WithdrawFor(user: string, resting: set<string>)
      modifies this
      ensures rows == Apply(old(rows), Withdraw(resting, user)) && rows.Keys == old(rows).Keys
      ensures forall id :: id in rows ==>
                var row := old(rows)[id];
                rows[id] == if id in resting && row.owner == user && row.status !in {Rejected, Expired, Executed}
                            then row.(status := Expired) else row
    {
      var open := set id | id in rows && rows[id].owner == user && IsOpen(rows[id].status);
      ghost var before, done := rows, {};
      assert Apply(before, Withdraw({}, user)) == before;
      while open != {}
        invariant rows == Apply(before, Withdraw(resting * done, user))
        invariant done !! open
        invariant done + open == set id | id in before && before[id].owner == user && IsOpen(before[id].status)
      {
        var id :| id in open;
        WithdrawOne(before, resting, done, user, id);
        if id in resting {
          rows := rows[id := rows[id].(status := Expired)];
        }
        open := open - {id};
        done := done + {id};
      }
      assert Apply(before, Withdraw(resting * done, user)) == Apply(before, Withdraw(resting, user));
    }

    /** One update for each row in turn; the rows it changed are the ones that were won. */
    method UpdateEach(ids: seq<string>, update: string -> Event) returns (won: seq<string>)
      requires forall id :: id in ids ==> TakesOrGives(update(id), id)
      modifies this
      ensures rows == ApplyEach(old(rows), ids, update)
      ensures forall id :: id in won <==> id in ids && id in old(rows) && Selects(update(id), id, old(rows)[id])
    {
      hide Selects, Changed;
      ghost var before := rows;
      won := [];
      assert ApplyEach(before, ids[..0], update) == before;
      for i := 0 to |ids|
        invariant rows == ApplyEach(before, ids[..i], update)
        invariant forall id :: id in won <==> id in ids[..i] && id in before && Selects(update(id), id, before[id])
      {
        var e := update(ids[i]);
        SelectedAmong(rows, e);
        OneMore(before, ids, update, i);
        var count := UpdateMany(e);
        if count == 1 {
          won := won + [ids[i]];
        }
      }
      assert ids[..|ids|] == ids;
    }

    /**
     * What approving does afterwards, with nothing in between: claims the rows one by one, each
     * under a token of its own, works them off, and gives back what it did not claim. Of the rows
     * it was asked for, none that was approved under the request is left so.
     */
    method ExecuteApproved(ids: set<string>, claimable: seq<string>, user: string, request: Option<string>, now: int,
                           tokenOf: string -> string, outcomeOf: string -> Outcome)
      requires forall id :: id in claimable ==> id in ids
      modifies this
      ensures rows.Keys == old(rows).Keys
      ensures forall id :: id in rows ==>
                             Concluded(old(rows)[id], rows[id], user, request, id in ids,
                                       id in claimable && old(rows)[id].expiresAt > now, outcomeOf(id))
    {
      hide Selects, Changed, Concluded;
      ghost var before := rows;
      var claim := id => Claim(id, user, request, now, tokenOf(id));
      var finish := id => Finish(id, user, false, tokenOf(id), outcomeOf(id), None);
      var claimed := UpdateEach(claimable, claim);
      var finished := UpdateEach(claimed, finish);
      var released := UpdateMany(Release(ids, user, request));
      forall id | id in rows
        ensures Concluded(before[id], rows[id], user, request, id in ids,
                          id in claimable && before[id].expiresAt > now, outcomeOf(id))
      {
        OneRow(before[id], id, ids, id in claimable, user, request, now, tokenOf(id), outcomeOf(id));
      }
    }
  }

  /** The update names the one row and, having changed it, does not select it again. */
  predicate TakesOrGives(e: Event, id: string) {
    (e.Claim? || e.Retry? || e.Finish?) && e.id == id
  }

  /** The rows with one update each applied to those named. */
  function ApplyEach(rows: Rows, ids: seq<string>, update: string -> Event): Rows {
    map id | id in rows :: if id in ids then Next(update(id), id, rows[id]) else rows[id]
  }

  lemma OnlyOnce(e: Event, id: string, x: string, row: Approval)
    requires TakesOrGives(e, id)
    ensures Next(e, id, Next(e, id, row)) == Next(e, id, row)
    ensures Selects(e, id, row) ==> !Selects(e, id, Next(e, id, row))
    ensures x != id ==> Next(e, x, row) == row
  {
  }

  lemma OneMore(rows: Rows, ids: seq<string>, update: string -> Event, i: nat)
    requires i < |ids| && TakesOrGives(update(ids[i]), ids[i])
    ensures ids[..i + 1] == ids[..i] + [ids[i]]
    ensures var part := ApplyEach(rows, ids[..i], update);
            && Apply(part, update(ids[i])) == ApplyEach(rows, ids[..i + 1], update)
            && (ids[i] in rows && Selects(update(ids[i]), ids[i], part[ids[i]]) <==>
                ids[i] in rows && ids[i] !in ids[..i] && Selects(update(ids[i]), ids[i], rows[ids[i]]))
  {
    hide Selects, Changed;
    var e, x := update(ids[i]), ids[i];
    assert ids[..i + 1] == ids[..i] + [x];
    var part := ApplyEach(rows, ids[..i], update);
    forall id | id in rows ensures Next(e, id, part[id]) == ApplyEach(rows, ids[..i + 1], update)[id] {
      OnlyOnce(e, x, id, rows[id]);
      OnlyOnce(e, x, id, part[id]);
    }
    if x in rows {
      OnlyOnce(e, x, x, rows[x]);
    }
  }

  /** The row was no business of the request, or it was executed or is in the queue again, under no token. */
  predicate Concluded(row: Approval, last: Approval, user: string, request: Option<string>, named: bool, executed: bool,
                      outcome: Outcome)
  {
    if !(&& named && row.owner == user && row.status == Approved
         && (request.None? || row.executionToken == request)) then last == row
    else
      && last.executionToken == None && last.owner == row.owner && last.expiresAt == row.expiresAt
      && last.status == if !executed then Pending
                        else match outcome
                             case Failed => Pending
                             case Partial => RetryPending
                             case Invalid => Expired
                             case Done => Executed
  }

  /** The three updates on one row: claimed if it is its turn, worked off if claimed, then released. */
  lemma OneRow(row: Approval, id: string, ids: set<string>, turn: bool, user: string, request: Option<string>,
               now: int, token: string, outcome: Outcome)
    requires turn ==> id in ids
    ensures var claim, finish := Claim(id, user, request, now, token), Finish(id, user, false, token, outcome, None);
            var claimed := if turn then Next(claim, id, row) else row;
            var finished := if turn && Selects(claim, id, row) then Next(finish, id, claimed) else claimed;
            Concluded(row, Next(Release(ids, user, request), id, finished), user, request, id in ids,
                      turn && row.expiresAt > now, outcome)
  {
  }

  lemma WithdrawOne(rows: Rows, resting: set<string>, done: set<string>, user: string, id: string)
    requires id in rows && id !in done && rows[id].owner == user && IsOpen(rows[id].status)
    ensures var part := Apply(rows, Withdraw(resting * done, user));
            Apply(rows, Withdraw(resting * (done + {id}), user)) ==
            if id in resting then part[id := part[id].(status := Expired)] else part
  {
  }

  /** Every update but a renewal changes what it selects. */
  lemma SelectedChange(rows: Rows, e: Event)
    ensures !e.Renew? ==> (set id | id in rows && Apply(rows, e)[id] != rows[id]) ==
                          set id | id in rows && Selects(e, id, rows[id])
  {
  }

  /** An approval or rejection naming a single id changes one row or none. */
  lemma ChangedAmong(rows: Rows, e: Event, id: string)
    requires (e.Approve? || e.Reject?) && e.ids == {id}
    ensures var changed := set x | x in Apply(rows, e) && Apply(rows, e)[x] != rows[x];
            |changed| == if id in rows && Selects(e, id, rows[id]) then 1 else 0
  {
    var changed := set x | x in Apply(rows, e) && Apply(rows, e)[x] != rows[x];
    assert changed == if id in rows && Selects(e, id, rows[id]) then {id} else {};
  }

  /** A claim, or what a worker writes, selects its own row or none. */
  lemma SelectedAmong(rows: Rows, e: Event)
    requires e.Claim? || e.Retry? || e.Renew? || e.Finish?
    ensures |set x | x in rows && Selects(e, x, rows[x])|
         == if e.id in rows && Selects(e, e.id, rows[e.id]) then 1 else 0
  {
    var selected := set x | x in rows && Selects(e, x, rows[x]);
    assert selected == if e.id in rows && Selects(e, e.id, rows[e.id]) then {e.id} else {};
  }

  // ----- Runs: any interleaving of updates by any requests, workers and the scheduler -----

  function Run(rows: Rows, events: seq<Event>): (r: Rows)
    ensures r.Keys == rows.Keys
  {
    if events == [] then rows else Apply(Run(rows, events[..|events| - 1]), events[|events| - 1])
  }

  /** One row after the first `k` updates. */
  function At(rows: Rows, events: seq<Event>, id: string, k: nat): Approval
    requires id in rows && k <= |events|
  {
    Run(rows, events[..k])[id]
  }

  lemma AtStart(rows: Rows, events: seq<Event>, id: string)
    requires id in rows
    ensures At(rows, events, id, 0) == rows[id]
  {
  }

  lemma AtNext(rows: Rows, events: seq<Event>, id: string, k: nat)
    requires id in rows && k < |events|
    ensures At(rows, events, id, k + 1) == Next(events[k], id, At(rows, events, id, k))
  {
    assert events[..k + 1][..k] == events[..k];
  }

  /** The ways a status changes. */
  predicate Moves(from: Status, to: Status) {
    match from
    case Pending => to.Approved? || to.Rejected? || to.Expired?
    case Approved => to.Pending? || to.Executing? || to.Expired?
    case Executing => to.Pending? || to.RetryPending? || to.Executed? || to.Expired?
    case RetryPending => to.RetryExecuting? || to.Expired?
    case RetryExecuting => to.RetryPending? || to.Executed? || to.Expired?
    case _ => false
  }

  lemma NextMoves(e: Event, id: string, row: Approval)
    ensures var next := Next(e, id, row);
            && next.owner == row.owner && next.expiresAt == row.expiresAt
            && (next.status != row.status ==> Moves(row.status, next.status))
            && (next.status == row.status ==> next == row || (e.Renew? && IsRunning(row.status)))
  {
  }

  lemma {:induction false} OwnerAndExpiryAreFixed(rows: Rows, events: seq<Event>, id: string, k: nat)
    requires id in rows && k <= |events|
    ensures At(rows, events, id, k).owner == rows[id].owner
    ensures At(rows, events, id, k).expiresAt == rows[id].expiresAt
  {
    if k > 0 {
      hide Run;
      OwnerAndExpiryAreFixed(rows, events, id, k - 1);
      AtNext(rows, events, id, k - 1);
    }
  }

  /**
   * Who holds the row: a request holds what it approved and a worker what it runs, each under a
   * token and since a recorded time; nobody holds anything else, except that a withdrawn row keeps
   * the token it had.
   */
  predicate HeldRight(row: Approval) {
    match row.status
    case Approved => row.executionToken.Some? && row.reviewedAt.Some?
    case Executing => row.executionToken.Some? && row.reviewedAt.Some?
    case RetryExecuting => row.executionToken.Some? && row.reviewedAt.Some?
    case Expired => true
    case _ => row.executionToken.None?
  }

  lemma NextHeldRight(e: Event, id: string, row: Approval)
    requires HeldRight(row)
    ensures HeldRight(Next(e, id, row))
  {
  }

  lemma {:induction false} AlwaysHeldRight(rows: Rows, events: seq<Event>, id: string, k: nat)
    requires id in rows && k <= |events| && HeldRight(rows[id])
    ensures HeldRight(At(rows, events, id, k))
  {
    hide At, Next, HeldRight;
    if k > 0 {
      AlwaysHeldRight(rows, events, id, k - 1);
      AtNext(rows, events, id, k - 1);
      NextHeldRight(events[k - 1], id, At(rows, events, id, k - 1));
    } else {
      AtStart(rows, events, id);
    }
  }

  /** The user on whose behalf an update is made; the scheduler acts for everyone. */
  function ActsFor(e: Event): Option<string> {
    if e.Lapse? || e.Recover? then None else Some(e.user)
  }

  /** Nobody's request changes anybody else's row. */
  lemma OthersAreUntouched(rows: Rows, e: Event, id: string)
    requires id in rows && ActsFor(e).Some? && ActsFor(e).value != rows[id].owner
    ensures Apply(rows, e)[id] == rows[id]
  {
  }

  /** The scheduler expires exactly what has run out, and takes exactly what was not heard of since. */
  lemma SchedulerIsPatient(rows: Rows, e: Event, id: string)
    requires id in rows
    ensures var row := rows[id];
            && (e.Lapse? ==>
                  Apply(rows, e)[id] == if id in e.ids && row.status == Pending && row.expiresAt < e.now
                                        then row.(status := Expired, reviewedAt := Some(e.now)) else row)
            && (e.Recover? && (e.from, e.to) in {(Approved, Pending), (Executing, Pending), (Executing, RetryPending),
                                                 (Executing, Expired), (RetryExecuting, RetryPending),
                                                 (RetryExecuting, Expired)} ==>
                  Apply(rows, e)[id] ==
                  if id in e.ids && row.status == e.from && row.reviewedAt.Some? && row.reviewedAt.value < e.before
                  then Approval(row.owner, e.to, None, Some(e.reviewedAt), row.expiresAt) else row)
  {
  }

  /** A worker takes its user's approved rows in time, and rows left for a retry whenever. */
  lemma WorkersTake(rows: Rows, id: string, user: string, token: string, now: int)
    requires id in rows
    ensures Apply(rows, Claim(id, user, None, now, token))[id] ==
            if rows[id].owner == user && rows[id].status == Approved && rows[id].expiresAt > now
            then Approval(user, Executing, Some(token), Some(now), rows[id].expiresAt) else rows[id]
    ensures Apply(rows, Retry(id, user, now, token))[id] ==
            if rows[id].owner == user && rows[id].status == RetryPending
            then Approval(user, RetryExecuting, Some(token), Some(now), rows[id].expiresAt) else rows[id]
  {
  }

  /** What a worker's updates make of the row they name: nothing, unless it holds the row. */
  lemma WorkersWriteTheirOwn(rows: Rows, id: string, user: string, retry: bool, token: string, outcome: Outcome,
                             noted: Option<int>, now: int)
    requires id in rows
    ensures var row := rows[id];
            var held := row.owner == user && row.executionToken == Some(token)
                        && row.status == (if retry then RetryExecuting else Executing);
            && Apply(rows, Renew(id, user, retry, token, now))[id] ==
               (if held then row.(reviewedAt := Some(now)) else row)
            && Apply(rows, Finish(id, user, retry, token, outcome, noted))[id] ==
               (if held
                then Approval(user,
                              match outcome
                              case Done => Executed
                              case Invalid => Expired
                              case Partial => RetryPending
                              case Failed => if retry then RetryPending else Pending,
                              None, if noted.None? then row.reviewedAt else noted, row.expiresAt)
                else row)
  {
  }

  /** A row that was rejected, has expired or was executed stays exactly as it is. */
  lemma {:induction false} SettledIsFinal(rows: Rows, events: seq<Event>, id: string, i: nat, j: nat)
    requires id in rows && i <= j <= |events| && !IsOpen(At(rows, events, id, i).status)
    ensures At(rows, events, id, j) == At(rows, events, id, i)
    decreases j - i
  {
    hide At, Next;
    if i < j {
      SettledIsFinal(rows, events, id, i, j - 1);
      AtNext(rows, events, id, j - 1);
      NextMoves(events[j - 1], id, At(rows, events, id, j - 1));
    }
  }

  /** Update `k` takes the row out of the queue. */
  ghost predicate Leaves(rows: Rows, events: seq<Event>, id: string, k: nat) {
    && id in rows && k < |events|
    && At(rows, events, id, k).status.Pending? && !At(rows, events, id, k + 1).status.Pending?
  }

  /**
   * Update `k` puts the row back into the queue: its request or its worker released it, or the
   * scheduler took it off either. It carries no token then.
   */
  ghost predicate Returns(rows: Rows, events: seq<Event>, id: string, k: nat) {
    && id in rows && k < |events|
    && At(rows, events, id, k + 1) ==
       At(rows, events, id, k).(status := Pending, executionToken := None,
                                reviewedAt := At(rows, events, id, k + 1).reviewedAt)
    && match events[k]
       case Release(_, _, _) => At(rows, events, id, k).status.Approved?
       case Finish(_, _, retry, token, outcome, _) =>
         !retry && outcome.Failed? && Holds(At(rows, events, id, k), false, token)
       case Recover(_, _, _, _, _) =>
         At(rows, events, id, k).status.Approved? || At(rows, events, id, k).status.Executing?
       case _ => false
  }

  /** Only a release, a failed execution or crash recovery bring a row back into the queue. */
  lemma {:induction false} ComesBackOnlyByReturn(rows: Rows, events: seq<Event>, id: string, i: nat, j: nat)
    returns (k: nat)
    requires id in rows && i <= j <= |events|
    requires !At(rows, events, id, i).status.Pending? && At(rows, events, id, j).status.Pending?
    ensures i <= k < j && Returns(rows, events, id, k)
    decreases j
  {
    hide Run;
    if At(rows, events, id, j - 1).status.Pending? {
      k := ComesBackOnlyByReturn(rows, events, id, i, j - 1);
    } else {
      k := j - 1;
      AtNext(rows, events, id, k);
    }
  }

  /** Between two updates that take a row out of the queue there is one that puts it back. */
  lemma LeavesOncePerReturn(rows: Rows, events: seq<Event>, id: string, i: nat, j: nat) returns (k: nat)
    requires i < j && Leaves(rows, events, id, i) && Leaves(rows, events, id, j)
    ensures i < k < j && Returns(rows, events, id, k)
  {
    k := ComesBackOnlyByReturn(rows, events, id, i + 1, j);
  }

  /** Update `a` approved the row for its owner, before expiry, and left it as it is at `n`. */
  ghost predicate ApprovedBy(rows: Rows, events: seq<Event>, id: string, a: nat, n: nat) {
    && id in rows && a < n <= |events| && events[a].Approve? && id in events[a].ids
    && events[a].user == rows[id].owner && events[a].now < rows[id].expiresAt
    && At(rows, events, id, a).status.Pending?
    && forall m :: a < m <= n ==>
         At(rows, events, id, m) ==
         At(rows, events, id, a).(status := Approved, executionToken := Some(events[a].token),
                                  reviewedAt := Some(events[a].reviewedAt))
  }

  lemma {:induction false} ApprovalOf(rows: Rows, events: seq<Event>, id: string, i: nat, n: nat) returns (a: nat)
    requires id in rows && i <= n <= |events|
    requires !At(rows, events, id, i).status.Approved? && At(rows, events, id, n).status.Approved?
    ensures i <= a && ApprovedBy(rows, events, id, a, n)
    decreases n
  {
    hide Run;
    AtNext(rows, events, id, n - 1);
    OwnerAndExpiryAreFixed(rows, events, id, n - 1);
    if At(rows, events, id, n - 1).status.Approved? {
      a := ApprovalOf(rows, events, id, i, n - 1);
    } else {
      a := n - 1;
    }
  }

  /**
   * A row that was not approved at first and is at `n` owes it to exactly one update: of its
   * owner, before it expired, whose token and time it carries ever since.
   */
  lemma ApprovedHasOneWinner(rows: Rows, events: seq<Event>, id: string, n: nat) returns (a: nat)
    requires id in rows && n <= |events|
    requires !rows[id].status.Approved? && At(rows, events, id, n).status.Approved?
    ensures ApprovedBy(rows, events, id, a, n)
    ensures forall b: nat :: ApprovedBy(rows, events, id, b, n) ==> b == a
  {
    a := ApprovalOf(rows, events, id, 0, n);
  }

  // ----- Claims -----

  predicate IsClaim(e: Event) {
    e.Claim? || e.Retry?
  }

  /** Update `c` made the owner's row, approved and in time, a worker's own. */
  ghost predicate FirstClaim(rows: Rows, events: seq<Event>, id: string, c: nat) {
    && id in rows && c < |events| && events[c].Claim?
    && Selects(events[c], id, At(rows, events, id, c))
  }

  /** Update `c` made the row a worker's own, and it still is at `n`. */
  ghost predicate ClaimedBy(rows: Rows, events: seq<Event>, id: string, c: nat, n: nat) {
    && id in rows && c < n <= |events| && IsClaim(events[c])
    && Selects(events[c], id, At(rows, events, id, c))
    && forall m :: c < m <= n ==> Holds(At(rows, events, id, m), events[c].Retry?, events[c].token)
  }

  lemma {:induction false} ClaimOf(rows: Rows, events: seq<Event>, id: string, i: nat, n: nat) returns (c: nat)
    requires id in rows && i <= n <= |events|
    requires !IsRunning(At(rows, events, id, i).status) && IsRunning(At(rows, events, id, n).status)
    ensures i <= c && ClaimedBy(rows, events, id, c, n)
    decreases n
  {
    hide Run;
    AtNext(rows, events, id, n - 1);
    if IsRunning(At(rows, events, id, n - 1).status) {
      c := ClaimOf(rows, events, id, i, n - 1);
    } else {
      c := n - 1;
    }
  }

  /** A worker holds the row, left it for a retry, or executed it. */
  predicate IsStarted(status: Status) {
    IsRunning(status) || status.RetryPending? || status.Executed?
  }

  lemma {:induction false} StartsWithClaim(rows: Rows, events: seq<Event>, id: string, n: nat) returns (c: nat)
    requires id in rows && n <= |events|
    requires !IsStarted(rows[id].status) && IsStarted(At(rows, events, id, n).status)
    ensures c < n && FirstClaim(rows, events, id, c)
    decreases n
  {
    hide Run;
    AtStart(rows, events, id);
    AtNext(rows, events, id, n - 1);
    if IsStarted(At(rows, events, id, n - 1).status) {
      c := StartsWithClaim(rows, events, id, n - 1);
    } else {
      c := n - 1;
    }
  }

  /**
   * A row that began in the queue is never worked on, left for a retry or executed unless its
   * owner approved it in time and a worker then claimed it in time, the owner's request being the
   * one the worker names.
   */
  lemma NothingRunsUnapproved(rows: Rows, events: seq<Event>, id: string, n: nat) returns (a: nat, c: nat)
    requires id in rows && n <= |events|
    requires rows[id].status.Pending? && IsStarted(At(rows, events, id, n).status)
    ensures c < n && FirstClaim(rows, events, id, c) && ApprovedBy(rows, events, id, a, c)
    ensures events[c].now < rows[id].expiresAt
    ensures events[c].request.Some? ==> events[c].request == Some(events[a].token)
  {
    c := StartsWithClaim(rows, events, id, n);
    a := ApprovedHasOneWinner(rows, events, id, c);
    OwnerAndExpiryAreFixed(rows, events, id, c);
  }

  /** Between two workers claiming a row the owner approved it anew. */
  lemma OneClaimPerApproval(rows: Rows, events: seq<Event>, id: string, c: nat, d: nat) returns (a: nat)
    requires c < d && FirstClaim(rows, events, id, c) && FirstClaim(rows, events, id, d)
    ensures c < a < d && ApprovedBy(rows, events, id, a, d)
  {
    AtNext(rows, events, id, c);
    a := ApprovalOf(rows, events, id, c + 1, d);
  }

  /** Claims are made under different tokens. */
  ghost predicate FreshTokens(events: seq<Event>) {
    forall c, d :: 0 <= c < d < |events| && IsClaim(events[c]) && IsClaim(events[d]) ==>
                     events[c].token != events[d].token
  }

  /**
   * A worker that lost its row, by recovery, withdrawal or its own release, cannot write it any
   * more, whoever has claimed it since.
   */
  lemma LostClaimIsPowerless(rows: Rows, events: seq<Event>, id: string, c: nat, m: nat, f: nat)
    requires FreshTokens(events) && id in rows && c < m <= f < |events|
    requires ClaimedBy(rows, events, id, c, c + 1) && !IsRunning(At(rows, events, id, m).status)
    requires (events[f].Renew? || events[f].Finish?) && events[f].token == events[c].token
    ensures At(rows, events, id, f + 1) == At(rows, events, id, f)
  {
    hide Run, Changed;
    AtNext(rows, events, id, f);
    if Selects(events[f], id, At(rows, events, id, f)) {
      var d := ClaimOf(rows, events, id, m, f);
    }
  }

  /** An executed row was recorded as such once, by the worker that held it then. */
  lemma {:induction false} ExecutedHasOneWorker(rows: Rows, events: seq<Event>, id: string, n: nat)
    returns (c: nat, f: nat)
    requires id in rows && n <= |events| && IsOpen(rows[id].status) && !IsRunning(rows[id].status)
    requires At(rows, events, id, n).status.Executed?
    ensures c < f < n && ClaimedBy(rows, events, id, c, f)
    ensures events[f].Finish? && events[f].outcome.Done? && events[f].token == events[c].token
    ensures forall m :: 0 <= m <= n ==> (At(rows, events, id, m).status.Executed? <==> f < m)
    decreases n
  {
    hide Run;
    AtStart(rows, events, id);
    AtNext(rows, events, id, n - 1);
    if At(rows, events, id, n - 1).status.Executed? {
      c, f := ExecutedHasOneWorker(rows, events, id, n - 1);
    } else {
      f := n - 1;
      c := ClaimOf(rows, events, id, 0, f);
      forall m | 0 <= m <= n ensures At(rows, events, id, m).status.Executed? <==> f < m {
        if m <= f && At(rows, events, id, m).status.Executed? {
          SettledIsFinal(rows, events, id, m, f);
        }
      }
    }
  }

  // ----- Expiry -----

  /** From update `i` on, whoever decides or claims compares with a time when it has run out. */
  ghost predicate TimeIsUp(events: seq<Event>, i: nat, expiresAt: int) {
    forall k :: i <= k < |events| && (events[k].Approve? || events[k].Reject? || events[k].Claim?) ==>
                  expiresAt <= events[k].now
  }

  predicate PendingOrExpired(row: Approval) {
    row.status.Pending? || row.status.Expired?
  }

  /** Once its time has run out, an approval in the queue is never approved, swept or not. */
  lemma {:induction false} ExpiredIsNeverApproved(rows: Rows, events: seq<Event>, id: string, i: nat, j: nat)
    requires id in rows && i <= j <= |events| && TimeIsUp(events, i, rows[id].expiresAt)
    requires At(rows, events, id, i).status.Pending?
    ensures PendingOrExpired(At(rows, events, id, j))
    decreases j
  {
    hide Run;
    if i < j {
      ExpiredIsNeverApproved(rows, events, id, i, j - 1);
      OwnerAndExpiryAreFixed(rows, events, id, j - 1);
      AtNext(rows, events, id, j - 1);
    }
  }

  /** And one that nobody had claimed by then is never worked on, even if it was approved in time. */
  lemma {:induction false} ExpiredIsNeverStarted(rows: Rows, events: seq<Event>, id: string, i: nat, j: nat)
    requires id in rows && i <= j <= |events| && TimeIsUp(events, i, rows[id].expiresAt)
    requires !IsStarted(At(rows, events, id, i).status)
    ensures !IsStarted(At(rows, events, id, j).status)
    decreases j
  {
    hide Run;
    if i < j {
      ExpiredIsNeverStarted(rows, events, id, i, j - 1);
      OwnerAndExpiryAreFixed(rows, events, id, j - 1);
      AtNext(rows, events, id, j - 1);
    }
  }

  // ----- What the queue shows -----

  predicate InPendingView(row: Approval, user: string, now: int) {
    row.owner == user && row.status.Pending? && row.expiresAt > now
  }

  predicate InExpiredView(row: Approval, user: string, now: int) {
    row.owner == user && (row.status.Expired? || (row.status.Pending? && row.expiresAt <= now))
  }

  function PendingView(rows: Rows, user: string, now: int): set<string> {
    set id | id in rows && InPendingView(rows[id], user, now)
  }

  function ExpiredView(rows: Rows, user: string, now: int): set<string> {
    set id | id in rows && InExpiredView(rows[id], user, now)
  }

  /**
   * At any instant the two views split the user's pending and expired approvals between them;
   * sweeping at that instant, by anyone, changes neither, and the user's own sweep leaves nothing
   * in the expired view pending.
   */
  lemma ViewsPartition(rows: Rows, user: string, now: int, sweeper: string)
    ensures PendingView(rows, user, now) !! ExpiredView(rows, user, now)
    ensures PendingView(rows, user, now) + ExpiredView(rows, user, now) ==
            set id | id in rows && rows[id].owner == user && PendingOrExpired(rows[id])
    ensures PendingView(Apply(rows, Expire(sweeper, now)), user, now) == PendingView(rows, user, now)
    ensures ExpiredView(Apply(rows, Expire(sweeper, now)), user, now) == ExpiredView(rows, user, now)
    ensures forall id :: id in ExpiredView(rows, user, now) && rows[id].status.Pending? ==>
                           Apply(rows, Expire(user, now))[id] == rows[id].(status := Expired, reviewedAt := Some(now))
  {
  }

  /** What the pending view shows at some instant is exactly what its owner can approve or reject then. */
  lemma PendingViewIsWhatCanBeDecided(rows: Rows, ids: set<string>, user: string, now: int, reviewedAt: int,
                                      token: string)
    ensures (set id | id in rows && Apply(rows, Approve(ids, user, now, reviewedAt, token))[id] != rows[id]) ==
            ids * PendingView(rows, user, now)
    ensures (set id | id in rows && Apply(rows, Reject(ids, user, now))[id] != rows[id]) ==
            ids * PendingView(rows, user, now)
  {
  }
}
