/** models/Subscription.js: the `assinaturas` table. A user's subscription is the most
    recently started active row; changing plan rewrites the active rows in place and
    cancelling marks one row cancelled. Rows are never deleted. */
module Subscriptions {
  import opened Base
  import Tables

  /** `status`: `'ativo'` or `'cancelado'`. */
  datatype SubStatus = Active | Cancelled

  /** One row: `id`, `usuario_id`, `tipo_plano`, `status`, `iniciado_em`. */
  datatype SubRow = SubRow(id: nat, userId: nat, plan: string, status: SubStatus, startedAt: int)

  function SubId(r: SubRow): nat
  {
    r.id
  }

  function StartedAt(r: SubRow): int
  {
    r.startedAt
  }

  /** `WHERE usuario_id = $1 AND status = 'ativo'`. */
  predicate IsActiveFor(r: SubRow, userId: nat)
  {
    r.userId == userId && r.status == Active
  }

  function ActiveOf(userId: nat): SubRow -> bool
  {
    (x: SubRow) => IsActiveFor(x, userId)
  }

  /** The active rows of a user, latest start first. */
  function ActiveSorted(rows: seq<SubRow>, userId: nat): (r: seq<SubRow>)
    ensures multiset(r) == multiset(Tables.Filter(ActiveOf(userId), rows))
    ensures forall x :: x in r <==> x in rows && IsActiveFor(x, userId)
    ensures Tables.Descending(r, StartedAt)
  {
    var active := Tables.Filter(ActiveOf(userId), rows);
    var sorted := Tables.SortDesc(active, StartedAt);
    assert forall x :: x in sorted <==> x in active by {
      forall x ensures x in sorted <==> x in active {
        assert x in sorted <==> x in multiset(sorted);
        assert x in active <==> x in multiset(active);
      }
    }
    sorted
  }

  /** `findByUserId`: the user's active row with the latest start, or none when the user
      has no active row. */
  function FindActive(rows: seq<SubRow>, userId: nat): (r: Option<SubRow>)
    ensures r.None? <==> forall x :: x in rows ==> !IsActiveFor(x, userId)
    ensures r.Some? ==> r.value in rows && IsActiveFor(r.value, userId)
    ensures r.Some? ==> forall x :: x in rows && IsActiveFor(x, userId) ==> x.startedAt <= r.value.startedAt
  {
    var sorted := ActiveSorted(rows, userId);
    if sorted == [] then None
    else
      Tables.SortedHeadIsMax(sorted, StartedAt);
      assert sorted[0] in sorted;
      Some(sorted[0])
  }

  /** `updatePlan`'s `UPDATE`: every active row of the user gets the new plan and a new start;
      ids, owners and statuses stay, and every other row is untouched. */
  function Renew(rows: seq<SubRow>, userId: nat, plan: string, now: int): (r: seq<SubRow>)
    ensures |r| == |rows|
    ensures forall i :: 0 <= i < |rows| ==>
              r[i].id == rows[i].id && r[i].userId == rows[i].userId && r[i].status == rows[i].status
    ensures forall i :: 0 <= i < |rows| ==>
              if IsActiveFor(rows[i], userId) then r[i].plan == plan && r[i].startedAt == now else r[i] == rows[i]
  {
    seq(|rows|, i requires 0 <= i < |rows| =>
      if IsActiveFor(rows[i], userId) then rows[i].(plan := plan, startedAt := now) else rows[i])
  }

  /** `cancel`'s `UPDATE`: the row with the id becomes cancelled; every other row is untouched. */
  function CancelRow(rows: seq<SubRow>, id: nat): (r: seq<SubRow>)
    ensures |r| == |rows|
    ensures forall i :: 0 <= i < |rows| ==>
              if rows[i].id == id then r[i] == rows[i].(status := Cancelled) else r[i] == rows[i]
  {
    seq(|rows|, i requires 0 <= i < |rows| =>
      if rows[i].id == id then rows[i].(status := Cancelled) else rows[i])
  }

  /** Repeating a plan change with the same plan and time changes nothing more. */
  lemma RenewIdempotent(rows: seq<SubRow>, userId: nat, plan: string, now: int)
    ensures Renew(Renew(rows, userId, plan, now), userId, plan, now) == Renew(rows, userId, plan, now)
  {
  }

  /** A plan change keeps every row's owner, so every owner still names a created user. */
  lemma RenewKeepsOwners(rows: seq<SubRow>, userId: nat, plan: string, now: int, bound: nat)
    requires forall x :: x in rows ==> 1 <= x.userId < bound
    ensures forall y :: y in Renew(rows, userId, plan, now) ==> 1 <= y.userId < bound
  {
    var r := Renew(rows, userId, plan, now);
    forall y | y in r ensures 1 <= y.userId < bound {
      var i :| 0 <= i < |r| && r[i] == y;
      assert rows[i] in rows;
    }
  }

  /** The first active row of a user is their subscription. */
  lemma FirstActiveIsFound(rows: seq<SubRow>, row: SubRow)
    requires row.status == Active
    requires forall x :: x in rows ==> x.userId != row.userId
    ensures FindActive(rows + [row], row.userId) == Some(row)
  {
    assert row in rows + [row];
  }

  /** After a plan change the user's subscription, if they had one, carries the new plan and
      the new start; a user without an active row still has none. */
  lemma RenewThenFind(rows: seq<SubRow>, userId: nat, plan: string, now: int)
    ensures var after := FindActive(Renew(rows, userId, plan, now), userId);
            && (after.None? <==> FindActive(rows, userId).None?)
            && (after.Some? ==> after.value.plan == plan && after.value.startedAt == now)
  {
    var renewed := Renew(rows, userId, plan, now);
    var after := FindActive(renewed, userId);
    if after.Some? {
      var i :| 0 <= i < |renewed| && renewed[i] == after.value;
      assert IsActiveFor(rows[i], userId);
      assert rows[i] in rows;
    } else {
      forall x | x in rows ensures !IsActiveFor(x, userId) {
        var i :| 0 <= i < |rows| && rows[i] == x;
        assert renewed[i] in renewed;
      }
    }
  }

  /** A plan change of one user leaves every other user's subscription as it was. */
  lemma {:induction false} RenewOtherUser(rows: seq<SubRow>, userId: nat, plan: string, now: int, other: nat)
    requires other != userId
    ensures ActiveSorted(Renew(rows, userId, plan, now), other) == ActiveSorted(rows, other)
    ensures FindActive(Renew(rows, userId, plan, now), other) == FindActive(rows, other)
  {
    var p := (x: SubRow) => IsActiveFor(x, other);
    RenewFilterOther(rows, userId, plan, now, other, p);
  }

  lemma {:induction false} RenewFilterOther(rows: seq<SubRow>, userId: nat, plan: string, now: int, other: nat,
                                            p: SubRow -> bool)
    requires other != userId
    requires forall x :: p(x) == IsActiveFor(x, other)
    ensures Tables.Filter(p, Renew(rows, userId, plan, now)) == Tables.Filter(p, rows)
  {
    if rows != [] {
      var renewed := Renew(rows, userId, plan, now);
      assert renewed[1..] == Renew(rows[1..], userId, plan, now);
      RenewFilterOther(rows[1..], userId, plan, now, other, p);
      assert p(renewed[0]) == p(rows[0]);
      assert p(rows[0]) ==> renewed[0] == rows[0];
    }
  }

  /** A row started strictly after every existing row is the user's subscription. */
  lemma LatestCreatedIsFound(rows: seq<SubRow>, row: SubRow)
    requires row.status == Active
    requires forall x :: x in rows ==> x.startedAt < row.startedAt
    ensures FindActive(rows + [row], row.userId) == Some(row)
  {
    var after := FindActive(rows + [row], row.userId);
    assert row in rows + [row];
    assert after.value.startedAt >= row.startedAt;
  }

  /** `create` does not look for an existing active row: each call adds one more active row
      for the user. */
  lemma CreateAddsActiveRow(rows: seq<SubRow>, row: SubRow)
    requires row.status == Active
    ensures |Tables.Filter(ActiveOf(row.userId), rows + [row])| == |Tables.Filter(ActiveOf(row.userId), rows)| + 1
  {
    Tables.FilterAppend(ActiveOf(row.userId), rows, [row]);
    Tables.FilterCons(ActiveOf(row.userId), row, []);
    assert [row] + [] == [row];
  }

  /** Cancelling twice is cancelling once. */
  lemma CancelIdempotent(rows: seq<SubRow>, id: nat)
    ensures CancelRow(CancelRow(rows, id), id) == CancelRow(rows, id)
  {
  }

  /** After a cancellation the cancelled row is nobody's subscription. */
  lemma CancelHides(rows: seq<SubRow>, id: nat, userId: nat)
    ensures var after := FindActive(CancelRow(rows, id), userId);
            after.Some? ==> after.value.id != id
  {
    var cancelled := CancelRow(rows, id);
    var after := FindActive(cancelled, userId);
    if after.Some? {
      var i :| 0 <= i < |cancelled| && cancelled[i] == after.value;
    }
  }

  /** The `assinaturas` table, with the next value of its `id` sequence. */
  class SubscriptionTable {
    var rows: seq<SubRow>
    var nextId: nat

    ghost predicate Valid()
      reads this
    {
      nextId >= 1 && Tables.Serial(rows, SubId, nextId)
    }

    constructor ()
      ensures Valid()
      ensures rows == [] && nextId == 1
    {
      rows := [];
      nextId := 1;
    }

    /** `create`: appends an active row for the user, started now, with the plan (`FREE` by
        default), and returns it. */
    method Create(userId: nat, now: int, plan: string := "FREE") returns (row: SubRow)
      requires Valid()
      modifies this
      ensures Valid()
      ensures row == SubRow(old(nextId), userId, plan, Active, now)
      ensures rows == old(rows) + [row] && nextId == old(nextId) + 1
    {
      row := SubRow(nextId, userId, plan, Active, now);
      Tables.SerialAppend(rows, SubId, nextId, row);
      rows := rows + [row];
      nextId := nextId + 1;
    }

    /** `updatePlan`: renews the user's active rows and returns the first of them (none when
        the user has no active row). */
    method UpdatePlan(userId: nat, plan: string, now: int) returns (row: Option<SubRow>)
      requires Valid()
      modifies this
      ensures Valid()
      ensures rows == Renew(old(rows), userId, plan, now) && nextId == old(nextId)
      ensures row.None? <==> forall x :: x in old(rows) ==> !IsActiveFor(x, userId)
      ensures row.Some? ==> row.value in rows && IsActiveFor(row.value, userId)
                            && row.value.plan == plan && row.value.startedAt == now
    {
      var before := rows;
      rows := Renew(rows, userId, plan, now);
      SameIdsSerial(before, rows, nextId);
      row := Tables.FindFirst((x: SubRow) => IsActiveFor(x, userId), rows);
      RenewedActive(before, rows, userId, plan, now);
    }

    /** `cancel`: marks the row with the id cancelled and returns it (none when no row has it). */
    method Cancel(id: nat) returns (row: Option<SubRow>)
      requires Valid()
      modifies this
      ensures Valid()
      ensures rows == CancelRow(old(rows), id) && nextId == old(nextId)
      ensures row.None? <==> forall x :: x in old(rows) ==> x.id != id
      ensures row.Some? ==> row.value in rows && row.value.id == id && row.value.status == Cancelled
    {
      var before := rows;
      rows := CancelRow(rows, id);
      SameIdsSerial(before, rows, nextId);
      row := Tables.FindFirst((x: SubRow) => x.id == id, rows);
      CancelledIds(before, rows, id);
      if row.Some? {
        var i :| 0 <= i < |rows| && rows[i] == row.value;
      }
    }
  }

  /** The renewed rows are active for the user exactly where the old rows were. */
  lemma RenewedActive(before: seq<SubRow>, after: seq<SubRow>, userId: nat, plan: string, now: int)
    requires after == Renew(before, userId, plan, now)
    ensures (forall x :: x in before ==> !IsActiveFor(x, userId)) <==> (forall y :: y in after ==> !IsActiveFor(y, userId))
    ensures forall y :: y in after && IsActiveFor(y, userId) ==> y.plan == plan && y.startedAt == now
  {
    forall y | y in after ensures IsActiveFor(y, userId) ==> y.plan == plan && y.startedAt == now {
      var i :| 0 <= i < |after| && after[i] == y;
    }
    if exists x :: x in before && IsActiveFor(x, userId) {
      var x :| x in before && IsActiveFor(x, userId);
      var i :| 0 <= i < |before| && before[i] == x;
      assert after[i] in after;
    }
    if exists y :: y in after && IsActiveFor(y, userId) {
      var y :| y in after && IsActiveFor(y, userId);
      var i :| 0 <= i < |after| && after[i] == y;
      assert before[i] in before;
    }
  }

  /** Cancelling keeps every id: a row has the id after iff one had it before. */
  lemma CancelledIds(before: seq<SubRow>, after: seq<SubRow>, id: nat)
    requires after == CancelRow(before, id)
    ensures (forall x :: x in before ==> x.id != id) <==> (forall y :: y in after ==> y.id != id)
    ensures forall y :: y in after && y.id == id ==> y.status == Cancelled
  {
    forall y | y in after ensures y.id == id ==> y.status == Cancelled {
      var i :| 0 <= i < |after| && after[i] == y;
    }
    if exists x :: x in before && x.id == id {
      var x :| x in before && x.id == id;
      var i :| 0 <= i < |before| && before[i] == x;
      assert after[i] in after;
    }
    if exists y :: y in after && y.id == id {
      var y :| y in after && y.id == id;
      var i :| 0 <= i < |after| && after[i] == y;
      assert before[i] in before;
    }
  }

  /** Rewriting rows without touching their ids keeps the ids serial. */
  lemma SameIdsSerial(before: seq<SubRow>, after: seq<SubRow>, next: nat)
    requires Tables.Serial(before, SubId, next)
    requires |after| == |before| && forall i :: 0 <= i < |before| ==> after[i].id == before[i].id
    ensures Tables.Serial(after, SubId, next)
  {
  }
}
