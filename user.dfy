/** models/User.js: the `usuarios` table, its finders, and `update`, which builds a
    parameter-numbered `SET` clause from the keys of an update object. */
module Users {
  import opened Base
  import opened Text
  import Tables

  /** One row: `id`, `google_id`, `email`, `nome`, `avatar_url`, `senha` (a bcrypt hash),
      `atualizado_em`. */
  datatype UserRow = UserRow(
    id: nat, googleId: Option<string>, email: string, name: string,
    avatarUrl: Option<string>, password: Option<string>, updatedAt: int)

  function UserId(r: UserRow): nat
  {
    r.id
  }

  /** `findByEmail`. */
  function FindByEmail(rows: seq<UserRow>, email: string): (r: Option<UserRow>)
    ensures r.None? <==> forall x :: x in rows ==> x.email != email
    ensures r.Some? ==> r.value in rows && r.value.email == email
  {
    Tables.FindFirst((x: UserRow) => x.email == email, rows)
  }

  /** `findByGoogleId`: rows without a Google id are never found. */
  function FindByGoogleId(rows: seq<UserRow>, googleId: string): (r: Option<UserRow>)
    ensures r.None? <==> forall x :: x in rows ==> x.googleId != Some(googleId)
    ensures r.Some? ==> r.value in rows && r.value.googleId == Some(googleId)
  {
    Tables.FindFirst((x: UserRow) => x.googleId == Some(googleId), rows)
  }

  /** `findById`. */
  function FindById(rows: seq<UserRow>, id: nat): (r: Option<UserRow>)
    ensures r.None? <==> forall x :: x in rows ==> x.id != id
    ensures r.Some? ==> r.value in rows && r.value.id == id
  {
    Tables.FindFirst((x: UserRow) => x.id == id, rows)
  }

  /** In a table with serial ids, a new row is what its id finds. */
  lemma CreatedIsFound(rows: seq<UserRow>, next: nat, row: UserRow)
    requires Tables.Serial(rows, UserId, next) && row.id == next
    ensures FindById(rows + [row], next) == Some(row)
  {
    assert row in rows + [row];
  }

  /** In a table with serial ids every row is what its own id finds. */
  lemma IdFindsRow(rows: seq<UserRow>, next: nat, u: UserRow)
    requires Tables.Serial(rows, UserId, next) && u in rows
    ensures FindById(rows, u.id) == Some(u)
  {
    var found := FindById(rows, u.id);
    var i :| 0 <= i < |rows| && rows[i] == u;
    var j :| 0 <= j < |rows| && rows[j] == found.value;
    Tables.SerialUnique(rows, UserId, next, i, j);
  }

  /** No two users share an e-mail address. */
  ghost predicate EmailsUnique(rows: seq<UserRow>)
  {
    forall i, j :: 0 <= i < j < |rows| ==> rows[i].email != rows[j].email
  }

  /** Appending a user whose e-mail no row has keeps e-mails unique. */
  lemma UniqueAppend(rows: seq<UserRow>, row: UserRow)
    requires EmailsUnique(rows) && FindByEmail(rows, row.email).None?
    ensures EmailsUnique(rows + [row])
  {
    var r := rows + [row];
    forall i, j | 0 <= i < j < |r| ensures r[i].email != r[j].email {
      assert r[i] == rows[i];
      if j == |rows| {
        assert rows[i] in rows;
      } else {
        assert r[j] == rows[j];
      }
    }
  }

  /** With unique e-mails every user is what their own e-mail finds. */
  lemma EmailFindsRow(rows: seq<UserRow>, u: UserRow)
    requires EmailsUnique(rows) && u in rows
    ensures FindByEmail(rows, u.email) == Some(u)
  {
    var found := FindByEmail(rows, u.email);
    var i :| 0 <= i < |rows| && rows[i] == u;
    var j :| 0 <= j < |rows| && rows[j] == found.value;
    if i < j {
      assert rows[i].email != rows[j].email;
    } else if j < i {
      assert rows[j].email != rows[i].email;
    }
  }

  /** The columns an update object may name. */
  datatype Column = GoogleIdColumn | EmailColumn | NameColumn | AvatarUrlColumn | PasswordColumn

  /** The column's SQL name. */
  function ColumnName(c: Column): string
  {
    match c
    case GoogleIdColumn => "google_id"
    case EmailColumn => "email"
    case NameColumn => "nome"
    case AvatarUrlColumn => "avatar_url"
    case PasswordColumn => "senha"
  }

  /** `$k`. */
  function Placeholder(k: nat): string
  {
    "$" + Show(k)
  }

  /** `fields.map((field, i) => `${field} = $${i + 1}`)`. */
  function Assignments(fields: seq<Column>): (r: seq<string>)
    ensures |r| == |fields|
  {
    seq(|fields|, i requires 0 <= i < |fields| => ColumnName(fields[i]) + " = " + Placeholder(i + 1))
  }

  /** `parts.join(sep)`. */
  function Join(parts: seq<string>, sep: string): string
  {
    if |parts| == 0 then ""
    else if |parts| == 1 then parts[0]
    else Join(parts[..|parts| - 1], sep) + sep + parts[|parts| - 1]
  }

  /** The `SET` clause of `update`. */
  function SetClause(fields: seq<Column>): string
  {
    Join(Assignments(fields), ", ")
  }

  /** The statement text of `update` (whitespace normalised). */
  function UpdateSql(fields: seq<Column>): string
  {
    "UPDATE usuarios SET " + SetClause(fields) + ", atualizado_em = CURRENT_TIMESTAMP WHERE id = "
      + Placeholder(|fields| + 1) + " RETURNING *;"
  }

  /** A bound parameter: a column value, or the row id. */
  datatype Param = Text(s: string) | Key(id: nat)

  /** `[...values, id]`. */
  function Params(values: seq<string>, id: nat): (r: seq<Param>)
    ensures |r| == |values| + 1
  {
    seq(|values|, i requires 0 <= i < |values| => Text(values[i])) + [Key(id)]
  }

  /** The first assignment is numbered 1. */
  lemma SetClauseFirst(c: Column)
    ensures SetClause([c]) == ColumnName(c) + " = $1"
  {
    assert Show(1) == "1";
    assert Assignments([c]) == [ColumnName(c) + " = " + Placeholder(1)];
  }

  /** Each further field extends the clause with the next number. */
  lemma SetClauseShape(fields: seq<Column>, c: Column)
    requires fields != []
    ensures SetClause(fields + [c]) == SetClause(fields) + ", " + ColumnName(c) + " = " + Placeholder(|fields| + 1)
  {
    var a := Assignments(fields + [c]);
    assert a[..|a| - 1] == Assignments(fields);
    assert a[|a| - 1] == ColumnName(c) + " = " + Placeholder(|fields| + 1);
  }

  /** Placeholder `k` binds the `k`-th parameter: field `i` is numbered `i + 1` and the
      parameter at that position is its value; the id is numbered `n + 1` and is the last
      parameter. */
  lemma PlaceholdersBind(fields: seq<Column>, values: seq<string>, id: nat)
    requires |fields| == |values|
    ensures forall i :: 0 <= i < |fields| ==>
              Assignments(fields)[i] == ColumnName(fields[i]) + " = " + Placeholder(i + 1)
              && Params(values, id)[(i + 1) - 1] == Text(values[i])
    ensures Params(values, id)[(|fields| + 1) - 1] == Key(id)
  {
  }

  /** Different numbers give different placeholders, so no parameter is bound twice. */
  lemma PlaceholdersDistinct(k: nat, m: nat)
    requires k != m
    ensures Placeholder(k) != Placeholder(m)
  {
    if Placeholder(k) == Placeholder(m) {
      assert Show(k) == Placeholder(k)[1..];
      assert Show(m) == Placeholder(m)[1..];
      ShowInjective(k, m);
    }
  }

  /** A placeholder reads back as its number. */
  lemma PlaceholderReadsBack(k: nat)
    ensures Placeholder(k)[0] == '$' && ParseId(Placeholder(k)[1..]) == Some(k)
  {
    assert Placeholder(k)[1..] == Show(k);
    ParseShow(k);
  }

  /** The value of a column in a row. */
  function Get(row: UserRow, c: Column): Option<string>
  {
    match c
    case GoogleIdColumn => row.googleId
    case EmailColumn => Some(row.email)
    case NameColumn => Some(row.name)
    case AvatarUrlColumn => row.avatarUrl
    case PasswordColumn => row.password
  }

  /** Assigns one column. */
  function Set(row: UserRow, c: Column, v: string): (r: UserRow)
    ensures Get(r, c) == Some(v)
    ensures forall d :: d != c ==> Get(r, d) == Get(row, d)
    ensures r.id == row.id && r.updatedAt == row.updatedAt
  {
    match c
    case GoogleIdColumn => row.(googleId := Some(v))
    case EmailColumn => row.(email := v)
    case NameColumn => row.(name := v)
    case AvatarUrlColumn => row.(avatarUrl := Some(v))
    case PasswordColumn => row.(password := Some(v))
  }

  /** The `SET` assignments in field order. */
  function SetAll(row: UserRow, fields: seq<Column>, values: seq<string>): (r: UserRow)
    requires |fields| == |values|
    ensures r.id == row.id && r.updatedAt == row.updatedAt
    decreases |fields|
  {
    if fields == [] then row
    else SetAll(Set(row, fields[0], values[0]), fields[1..], values[1..])
  }

  /** A column the update does not name keeps its value. */
  lemma {:induction false} SetAllOther(row: UserRow, fields: seq<Column>, values: seq<string>, c: Column)
    requires |fields| == |values| && c !in fields
    ensures Get(SetAll(row, fields, values), c) == Get(row, c)
    decreases |fields|
  {
    if fields != [] {
      assert c !in fields[1..];
      SetAllOther(Set(row, fields[0], values[0]), fields[1..], values[1..], c);
    }
  }

  /** With distinct keys, as an object's keys are, a named column takes its value. */
  lemma {:induction false} SetAllNamed(row: UserRow, fields: seq<Column>, values: seq<string>, i: nat)
    requires |fields| == |values| && i < |fields|
    requires forall j, k :: 0 <= j < k < |fields| ==> fields[j] != fields[k]
    ensures Get(SetAll(row, fields, values), fields[i]) == Some(values[i])
    decreases |fields|
  {
    if i == 0 {
      assert fields[0] !in fields[1..];
      SetAllOther(Set(row, fields[0], values[0]), fields[1..], values[1..], fields[0]);
    } else {
      assert fields[1..][i - 1] == fields[i];
      SetAllNamed(Set(row, fields[0], values[0]), fields[1..], values[1..], i - 1);
    }
  }

  /** The `UPDATE ... WHERE id = $n+1`: the row with the id gets the assignments and a new
      `atualizado_em`; every other row is untouched. */
  function ApplyUpdate(rows: seq<UserRow>, id: nat, fields: seq<Column>, values: seq<string>, now: int)
    : (r: seq<UserRow>)
    requires |fields| == |values|
    ensures |r| == |rows|
    ensures forall i :: 0 <= i < |rows| ==> r[i].id == rows[i].id
    ensures forall i :: 0 <= i < |rows| && rows[i].id != id ==> r[i] == rows[i]
    ensures forall i :: 0 <= i < |rows| && rows[i].id == id ==> r[i].updatedAt == now
  {
    seq(|rows|, i requires 0 <= i < |rows| =>
      if rows[i].id == id then SetAll(rows[i], fields, values).(updatedAt := now) else rows[i])
  }

  /** The `usuarios` table, with the next value of its `id` sequence. */
  class UserTable {
    var rows: seq<UserRow>
    var nextId: nat

    ghost predicate Valid()
      reads this
    {
      nextId >= 1 && Tables.Serial(rows, UserId, nextId)
    }

    constructor ()
      ensures Valid()
      ensures rows == [] && nextId == 1
    {
      rows := [];
      nextId := 1;
    }

    /** `create`: appends the user (no avatar and no password unless given) and returns it;
        afterwards its id finds it. */
    method Create(googleId: Option<string>, email: string, name: string, now: int,
                  avatarUrl: Option<string> := None, password: Option<string> := None)
      returns (row: UserRow)
      requires Valid()
      modifies this
      ensures Valid()
      ensures row == UserRow(old(nextId), googleId, email, name, avatarUrl, password, now)
      ensures rows == old(rows) + [row] && nextId == old(nextId) + 1
      ensures FindById(rows, row.id) == Some(row)
    {
      row := UserRow(nextId, googleId, email, name, avatarUrl, password, now);
      CreatedIsFound(rows, nextId, row);
      Tables.SerialAppend(rows, UserId, nextId, row);
      rows := rows + [row];
      nextId := nextId + 1;
    }

    /** `update`: nothing for an empty update object; otherwise the statement of `UpdateSql`
        with the parameters of `Params`, returning the updated row (none for an unknown id). */
    method Update(id: nat, fields: seq<Column>, values: seq<string>, now: int)
      returns (sql: Option<string>, params: seq<Param>, row: Option<UserRow>)
      requires Valid()
      requires |fields| == |values|
      modifies this
      ensures Valid()
      ensures fields == [] ==> sql.None? && row.None? && rows == old(rows)
      ensures fields != [] ==>
                && sql == Some(UpdateSql(fields)) && params == Params(values, id)
                && rows == ApplyUpdate(old(rows), id, fields, values, now)
                && (row.None? <==> FindById(old(rows), id).None?)
                && (row.Some? ==> row.value in rows && row.value.id == id && row.value.updatedAt == now)
      ensures nextId == old(nextId)
    {
      if |fields| == 0 {
        return None, [], None;
      }
      sql := Some(UpdateSql(fields));
      params := Params(values, id);
      row := Apply(id, fields, values, now);
    }

    /** The database running the `UPDATE ... RETURNING *` statement: every row with the id
        gets the new column values and `atualizado_em`, and the first such row is returned. */
    method Apply(id: nat, fields: seq<Column>, values: seq<string>, now: int) returns (row: Option<UserRow>)
      requires Valid()
      requires |fields| == |values|
      modifies this
      ensures Valid()
      ensures rows == ApplyUpdate(old(rows), id, fields, values, now)
      ensures row.None? <==> FindById(old(rows), id).None?
      ensures row.Some? ==> row.value in rows && row.value.id == id && row.value.updatedAt == now
      ensures nextId == old(nextId)
    {
      var after := ApplyUpdate(rows, id, fields, values, now);
      UpdatedIdsSerial(rows, after, nextId);
      UpdatedIdsKept(rows, after, id);
      row := FindById(after, id);
      if row.Some? {
        UpdateStamps(rows, id, fields, values, now, row.value);
      }
      rows := after;
    }
  }

  /** An update that keeps every row's id keeps the ids serial. */
  lemma UpdatedIdsSerial(before: seq<UserRow>, after: seq<UserRow>, next: nat)
    requires |after| == |before| && forall i :: 0 <= i < |before| ==> after[i].id == before[i].id
    requires Tables.Serial(before, UserId, next)
    ensures Tables.Serial(after, UserId, next)
  {
  }

  /** Every row the update reaches carries the new `updated_at`. */
  lemma UpdateStamps(rows: seq<UserRow>, id: nat, fields: seq<Column>, values: seq<string>, now: int, y: UserRow)
    requires |fields| == |values|
    requires y in ApplyUpdate(rows, id, fields, values, now) && y.id == id
    ensures y.updatedAt == now
  {
    var after := ApplyUpdate(rows, id, fields, values, now);
    var i :| 0 <= i < |after| && after[i] == y;
  }

  lemma UpdatedIdsKept(before: seq<UserRow>, after: seq<UserRow>, id: nat)
    requires |after| == |before| && forall i :: 0 <= i < |before| ==> after[i].id == before[i].id
    ensures FindById(before, id).None? <==> FindById(after, id).None?
  {
    if exists x :: x in before && x.id == id {
      var x :| x in before && x.id == id;
      var i :| 0 <= i < |before| && before[i] == x;
      assert after[i] in after;
    }
    if exists y :: y in after && y.id == id {
      var y :| y in after && y.id == id;
      var i :| 0 <= i < |after| && after[i] == y;
      assert before[i] in before;
    }
  }
}
