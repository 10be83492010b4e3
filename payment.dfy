/** models/Payment.js: the `pagamentos` table. A payment is created `pendente` with no
    Stripe id unless given; its status can later be overwritten with any value. */
module Payments {
  import opened Base
  import Tables

  const Pending: string := "pendente"
  const Paid: string := "pago"

  /** One row: `id`, `usuario_id`, `assinatura_id`, `valor` (cents), `stripe_id`, `status`,
      `criado_em`. */
  datatype PaymentRow = PaymentRow(
    id: nat, userId: nat, subscriptionId: Option<nat>, amount: int,
    stripeId: Option<string>, status: string, createdAt: int)

  function PaymentId(r: PaymentRow): nat
  {
    r.id
  }

  function CreatedAt(r: PaymentRow): int
  {
    r.createdAt
  }

  /** `findById`: the row with the id, if any. */
  function FindById(rows: seq<PaymentRow>, id: nat): (r: Option<PaymentRow>)
    ensures r.None? <==> forall x :: x in rows ==> x.id != id
    ensures r.Some? ==> r.value in rows && r.value.id == id
  {
    Tables.FindFirst((x: PaymentRow) => x.id == id, rows)
  }

  /** `findByUserId`: every payment of the user, newest first. */
  function FindByUserId(rows: seq<PaymentRow>, userId: nat): (r: seq<PaymentRow>)
    ensures multiset(r) == multiset(Tables.Filter((x: PaymentRow) => x.userId == userId, rows))
    ensures forall x :: x in r <==> x in rows && x.userId == userId
    ensures Tables.Descending(r, CreatedAt)
  {
    var mine := Tables.Filter((x: PaymentRow) => x.userId == userId, rows);
    var sorted := Tables.SortDesc(mine, CreatedAt);
    assert forall x :: x in sorted <==> x in mine by {
      forall x ensures x in sorted <==> x in mine {
        assert x in sorted <==> x in multiset(sorted);
        assert x in mine <==> x in multiset(mine);
      }
    }
    sorted
  }

  /** `findByStripeId`: the first row with that Stripe id; a missing id (SQL `NULL`) matches
      no row, not even rows whose Stripe id is missing. */
  function FindByStripeId(rows: seq<PaymentRow>, stripeId: Option<string>): (r: Option<PaymentRow>)
    ensures stripeId.None? ==> r.None?
    ensures stripeId.Some? ==> (r.None? <==> forall x :: x in rows ==> x.stripeId != stripeId)
    ensures r.Some? ==> r.value in rows && r.value.stripeId == stripeId
  {
    if stripeId.None? then None
    else Tables.FindFirst((x: PaymentRow) => x.stripeId == stripeId, rows)
  }

  /** `updateStatus`'s `UPDATE`: the row with the id takes the status, whatever it was; every
      other row is untouched. */
  function SetStatus(rows: seq<PaymentRow>, id: nat, status: string): (r: seq<PaymentRow>)
    ensures |r| == |rows|
    ensures forall i :: 0 <= i < |rows| ==>
              if rows[i].id == id then r[i] == rows[i].(status := status) else r[i] == rows[i]
  {
    seq(|rows|, i requires 0 <= i < |rows| =>
      if rows[i].id == id then rows[i].(status := status) else rows[i])
  }

  /** Setting the same status twice is setting it once. */
  lemma SetStatusIdempotent(rows: seq<PaymentRow>, id: nat, status: string)
    ensures SetStatus(SetStatus(rows, id, status), id, status) == SetStatus(rows, id, status)
  {
  }

  /** No transition is refused: after any update an existing payment reads back with exactly
      the status written (so `pago` can go back to `pendente`), and an absent id stays absent. */
  lemma SetStatusThenFind(rows: seq<PaymentRow>, id: nat, status: string)
    ensures var after := FindById(SetStatus(rows, id, status), id);
            && (after.None? <==> FindById(rows, id).None?)
            && (after.Some? ==> after.value.status == status)
  {
    var updated := SetStatus(rows, id, status);
    SameIds(rows, updated, id);
    var after := FindById(updated, id);
    if after.Some? {
      var i :| 0 <= i < |updated| && updated[i] == after.value;
    }
  }

  /** A rewrite that keeps ids keeps whether an id occurs. */
  lemma SameIds(before: seq<PaymentRow>, after: seq<PaymentRow>, id: nat)
    requires |after| == |before| && forall i :: 0 <= i < |before| ==> after[i].id == before[i].id
    ensures (forall x :: x in before ==> x.id != id) <==> (forall y :: y in after ==> y.id != id)
  {
    if exists x :: x in before && x.id == id {
      var x :| x in before && x.id == id;
      var i :| 0 <= i < |before| && before[i] == x;
      assert after[i] in after;
    }
    if exists y :: y in after && y.id == id {
      var y :| y in after && y.id == id;
      var i :| 0 <= i < |after| && after[i] == y;
      assert before[i] in before;
    }
  }

  /** In a table with serial ids, a new row is what its id finds. */
  lemma CreatedIsFound(rows: seq<PaymentRow>, next: nat, row: PaymentRow)
    requires Tables.Serial(rows, PaymentId, next) && row.id == next
    ensures FindById(rows + [row], next) == Some(row)
  {
    var found := FindById(rows + [row], next);
    assert row in rows + [row];
  }

  /** Updating the status of the row just appended to a serial table touches that row only. */
  lemma SetStatusAppended(rows: seq<PaymentRow>, next: nat, row: PaymentRow, status: string)
    requires Tables.Serial(rows, PaymentId, next) && row.id == next
    ensures SetStatus(rows + [row], next, status) == rows + [row.(status := status)]
  {
    var r := SetStatus(rows + [row], next, status);
    forall i | 0 <= i < |rows| ensures r[i] == rows[i] {
      assert (rows + [row])[i] == rows[i];
    }
  }

  /** The `pagamentos` table, with the next value of its `id` sequence. */
  class PaymentTable {
    var rows: seq<PaymentRow>
    var nextId: nat

    ghost predicate Valid()
      reads this
    {
      nextId >= 1 && Tables.Serial(rows, PaymentId, nextId)
    }

    constructor ()
      ensures Valid()
      ensures rows == [] && nextId == 1
    {
      rows := [];
      nextId := 1;
    }

    /** `create`: appends the payment, `pendente` and without Stripe id unless given, and
        returns it; afterwards its id finds it. */
    method Create(userId: nat, subscriptionId: Option<nat>, amount: int, now: int,
                  stripeId: Option<string> := None, status: string := Pending)
      returns (row: PaymentRow)
      requires Valid()
      modifies this
      ensures Valid()
      ensures row == PaymentRow(old(nextId), userId, subscriptionId, amount, stripeId, status, now)
      ensures rows == old(rows) + [row] && nextId == old(nextId) + 1
      ensures FindById(rows, row.id) == Some(row)
    {
      row := PaymentRow(nextId, userId, subscriptionId, amount, stripeId, status, now);
      CreatedIsFound(rows, nextId, row);
      Tables.SerialAppend(rows, PaymentId, nextId, row);
      rows := rows + [row];
      nextId := nextId + 1;
    }

    /** `updateStatus`: overwrites the status of the payment with the id and returns it (none
        when no payment has the id). */
    method UpdateStatus(id: nat, status: string) returns (row: Option<PaymentRow>)
      requires Valid()
      modifies this
      ensures Valid()
      ensures rows == SetStatus(old(rows), id, status) && nextId == old(nextId)
      ensures row == FindById(rows, id)
      ensures row.None? <==> FindById(old(rows), id).None?
      ensures row.Some? ==> row.value in rows && row.value.id == id && row.value.status == status
    {
      var before := rows;
      rows := SetStatus(rows, id, status);
      SameIdsSerial(before, rows, nextId);
      row := FindById(rows, id);
      SetStatusThenFind(before, id, status);
    }
  }

  /** Rewriting rows without touching their ids keeps the ids serial. */
  lemma SameIdsSerial(before: seq<PaymentRow>, after: seq<PaymentRow>, next: nat)
    requires Tables.Serial(before, PaymentId, next)
    requires |after| == |before| && forall i :: 0 <= i < |before| ==> after[i].id == before[i].id
    ensures Tables.Serial(after, PaymentId, next)
  {
  }
}
