/** models/Transaction.js: the older `pagamento` table (its class is also named `Payment`,
    and nothing calls it). A row is always created `pendente`; a status change also stamps
    `atualizado_em`. */
module Transactions {
  import opened Base
  import Tables

  const Pending: string := "pendente"
  const Paid: string := "pago"

  /** One row: `id`, `usuario_id`, `assinatura_id`, `valor`, `status`, `metodo`,
      `stripe_intent_id`, `criado_em`, `atualizado_em`. */
  datatype TxRow = TxRow(
    id: nat, userId: nat, subscriptionId: Option<nat>, amount: int, status: string,
    paymentMethod: string, stripeIntentId: Option<string>, createdAt: int, updatedAt: int)

  function TxId(r: TxRow): nat
  {
    r.id
  }

  function CreatedAt(r: TxRow): int
  {
    r.createdAt
  }

  /** `usuario_id = $1`. */
  function OfUser(userId: nat): TxRow -> bool
  {
    (r: TxRow) => r.userId == userId
  }

  /** `status = 'pago'`. */
  function IsPaid(): TxRow -> bool
  {
    (r: TxRow) => r.status == Paid
  }

  /** `usuario_id = $1 AND status = 'pago'`. */
  function PaidOfUser(userId: nat): TxRow -> bool
  {
    (r: TxRow) => r.userId == userId && r.status == Paid
  }

  /** `findById`. */
  function FindById(rows: seq<TxRow>, id: nat): (r: Option<TxRow>)
    ensures r.None? <==> forall x :: x in rows ==> x.id != id
    ensures r.Some? ==> r.value in rows && r.value.id == id
  {
    Tables.FindFirst((x: TxRow) => x.id == id, rows)
  }

  /** `findByStripeIntentId`: a missing intent id (SQL `NULL`) matches no row. */
  function FindByStripeIntentId(rows: seq<TxRow>, intentId: Option<string>): (r: Option<TxRow>)
    ensures intentId.None? ==> r.None?
    ensures intentId.Some? ==> (r.None? <==> forall x :: x in rows ==> x.stripeIntentId != intentId)
    ensures r.Some? ==> r.value in rows && r.value.stripeIntentId == intentId
  {
    if intentId.None? then None
    else Tables.FindFirst((x: TxRow) => x.stripeIntentId == intentId, rows)
  }

  /** `findByUserId`: the user's rows, newest first. */
  function FindByUserId(rows: seq<TxRow>, userId: nat): (r: seq<TxRow>)
    ensures multiset(r) == multiset(Tables.Filter(OfUser(userId), rows))
    ensures Tables.Descending(r, CreatedAt)
  {
    Tables.SortDesc(Tables.Filter(OfUser(userId), rows), CreatedAt)
  }

  /** `findPaidByUserId`: the user's paid rows, newest first. */
  function FindPaidByUserId(rows: seq<TxRow>, userId: nat): (r: seq<TxRow>)
    ensures multiset(r) == multiset(Tables.Filter(PaidOfUser(userId), rows))
    ensures Tables.Descending(r, CreatedAt)
  {
    Tables.SortDesc(Tables.Filter(PaidOfUser(userId), rows), CreatedAt)
  }

  /** The paid history is the full history with the unpaid rows dropped: the same rows, in
      the same order. */
  lemma PaidIsFilteredHistory(rows: seq<TxRow>, userId: nat)
    ensures FindPaidByUserId(rows, userId) == Tables.Filter(IsPaid(), FindByUserId(rows, userId))
  {
    Tables.FilterSortDesc(IsPaid(), Tables.Filter(OfUser(userId), rows), CreatedAt);
    Tables.FilterFilter(OfUser(userId), IsPaid(), PaidOfUser(userId), rows);
  }

  /** `updateStatus`'s `UPDATE`: the row with the id takes the status and `atualizado_em = now`;
      every other row is untouched. */
  function SetStatus(rows: seq<TxRow>, id: nat, status: string, now: int): (r: seq<TxRow>)
    ensures |r| == |rows|
    ensures forall i :: 0 <= i < |rows| ==>
              if rows[i].id == id then r[i] == rows[i].(status := status, updatedAt := now) else r[i] == rows[i]
  {
    seq(|rows|, i requires 0 <= i < |rows| =>
      if rows[i].id == id then rows[i].(status := status, updatedAt := now) else rows[i])
  }

  /** After an update the row reads back with the status and the time written; an absent id
      stays absent. */
  lemma SetStatusThenFind(rows: seq<TxRow>, id: nat, status: string, now: int)
    ensures var after := FindById(SetStatus(rows, id, status, now), id);
            && (after.None? <==> FindById(rows, id).None?)
            && (after.Some? ==> after.value.status == status && after.value.updatedAt == now)
  {
    var updated := SetStatus(rows, id, status, now);
    if exists x :: x in rows && x.id == id {
      var x :| x in rows && x.id == id;
      var i :| 0 <= i < |rows| && rows[i] == x;
      assert updated[i] in updated;
    }
    var after := FindById(updated, id);
    if after.Some? {
      var i :| 0 <= i < |updated| && updated[i] == after.value;
      assert rows[i] in rows;
    }
  }

  /** The `pagamento` table, with the next value of its `id` sequence. */
  class TransactionTable {
    var rows: seq<TxRow>
    var nextId: nat

    ghost predicate Valid()
      reads this
    {
      nextId >= 1 && Tables.Serial(rows, TxId, nextId)
    }

    constructor ()
      ensures Valid()
      ensures rows == [] && nextId == 1
    {
      rows := [];
      nextId := 1;
    }

    /** `create`: appends the row with status `pendente` whatever the caller passes, created
        now (`atualizado_em`, which the statement omits, takes its default, the current time),
        and returns it. */
    method Create(userId: nat, subscriptionId: Option<nat>, amount: int, paymentMethod: string, now: int,
                  stripeIntentId: Option<string> := None)
      returns (row: TxRow)
      requires Valid()
      modifies this
      ensures Valid()
      ensures row == TxRow(old(nextId), userId, subscriptionId, amount, Pending, paymentMethod, stripeIntentId, now, now)
      ensures rows == old(rows) + [row] && nextId == old(nextId) + 1
    {
      row := TxRow(nextId, userId, subscriptionId, amount, Pending, paymentMethod, stripeIntentId, now, now);
      Tables.SerialAppend(rows, TxId, nextId, row);
      rows := rows + [row];
      nextId := nextId + 1;
    }

    /** `updateStatus`: sets the status and `atualizado_em` of the row with the id and returns
        it (none when no row has the id). */
    method UpdateStatus(id: nat, status: string, now: int) returns (row: Option<TxRow>)
      requires Valid()
      modifies this
      ensures Valid()
      ensures rows == SetStatus(old(rows), id, status, now) && nextId == old(nextId)
      ensures row.None? <==> FindById(old(rows), id).None?
      ensures row.Some? ==> row.value in rows && row.value.id == id
                            && row.value.status == status && row.value.updatedAt == now
    {
      var before := rows;
      rows := SetStatus(rows, id, status, now);
      assert Tables.Serial(rows, TxId, nextId);
      row := FindById(rows, id);
      SetStatusThenFind(before, id, status, now);
    }
  }
}
