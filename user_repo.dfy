/** The user repository (internal/user/repo.go) over an in-memory `user_data`
    table. Rows are column maps; executing an UPDATE works on the structured
    statement whose text `BuildUpdateQuery` renders. */
module UserRepo {
  import opened Wrappers
  import opened Sql
  import opened Text
  import opened UserRecord
  import opened Password

  const UserTableName := "user_data"

  /** The columns of `user_data`, in the order `SELECT *` returns them:
      id, email, created_at, updated_at, username, bio, password, salt. */
  const UserColumns: set<string> :=
    {"id", "email", "created_at", "updated_at", "username", "bio", "password", "salt"}

  // ---- reading rows into a User ------------------------------------------------

  function ScanUint(v: Value): Option<nat> {
    if v.Number? && v.n >= 0 then Some(v.n) else None
  }

  function ScanString(v: Value): Option<string> {
    if v.Text? then Some(v.s) else None
  }

  function ScanNullString(v: Value): Option<NullString> {
    if v.Null? then Some(NullStr) else if v.Text? then Some(NullString(v.s, true)) else None
  }

  /** Scanning into a `*string`: a NULL is an error. */
  function ScanBytes(v: Value): Option<Bytes> {
    if v.Blob? then Some(v.bytes) else None
  }

  /** Scanning into a `*[]byte`: a NULL gives a nil slice, which has no bytes. */
  function ScanByteSlice(v: Value): Option<Bytes> {
    if v.Null? then Some([]) else if v.Blob? then Some(v.bytes) else None
  }

  /** `row.Scan(&Id, &Email, &CreatedAt, &UpdatedAt, &Username, &Bio, &Password, &Salt)`
      after `SELECT *`: every column must convert to its field. */
  function ScanUser(row: Row): (r: Option<User>)
    ensures r.Some? ==> row.Keys == UserColumns
    ensures r.Some? ==>
      row["id"] == Number(r.value.id) && row["email"] == Text(r.value.email) &&
      row["created_at"] == Text(r.value.createdAt) && row["updated_at"] == Text(r.value.updatedAt) &&
      row["username"] == Text(r.value.username) &&
      row["password"] == Blob(r.value.password)
    ensures r.Some? ==> row["salt"] == Blob(r.value.salt) || (row["salt"] == Null && r.value.salt == [])
    ensures r.Some? ==> r.value.token == "" && r.value.encryptedPassword == []
  {
    if row.Keys != UserColumns then None
    else
      assert "id" in row && "email" in row && "created_at" in row && "updated_at" in row;
      assert "username" in row && "bio" in row && "password" in row && "salt" in row;
      var id :- ScanUint(row["id"]);
      var email :- ScanString(row["email"]);
      var createdAt :- ScanString(row["created_at"]);
      var updatedAt :- ScanString(row["updated_at"]);
      var username :- ScanString(row["username"]);
      var bio :- ScanNullString(row["bio"]);
      var password :- ScanBytes(row["password"]);
      var salt :- ScanByteSlice(row["salt"]);
      Some(User(id, email, createdAt, updatedAt, username, "", password, [], salt, bio))
  }

  predicate Matches(row: Row, column: string, v: Value) {
    column in row && row[column] == v
  }

  /** The row `QueryRow(... WHERE column = $1)` reads: the first match. */
  function FirstMatch(rows: seq<Row>, column: string, v: Value): (r: Option<nat>)
    ensures r.Some? ==> r.value < |rows| && Matches(rows[r.value], column, v)
    ensures r.Some? ==> forall j | 0 <= j < r.value :: !Matches(rows[j], column, v)
    ensures r.None? ==> forall j | 0 <= j < |rows| :: !Matches(rows[j], column, v)
  {
    if rows == [] then None
    else if Matches(rows[0], column, v) then Some(0)
    else
      var rest := FirstMatch(rows[1..], column, v);
      if rest.None? then None else Some(rest.value + 1)
  }

  /** `GetUserById` / `GetUserByEmail` on the table: the first matching row, scanned. */
  function LookupUser(rows: seq<Row>, column: string, v: Value): (r: Option<User>)
    ensures r.Some? ==> exists i | 0 <= i < |rows| :: Matches(rows[i], column, v) && ScanUser(rows[i]) == r
    ensures (forall i | 0 <= i < |rows| :: !Matches(rows[i], column, v)) ==> r.None?
  {
    var i :- FirstMatch(rows, column, v);
    ScanUser(rows[i])
  }

  /** The row `Create` inserts; `bio` is not in the INSERT and stays NULL. */
  function InsertedRow(id: nat, user: User, now: string, encrypted: Bytes, salt: Bytes): (row: Row)
    ensures row.Keys == UserColumns
    ensures row["id"] == Number(id) && row["bio"] == Null
    ensures row["created_at"] == row["updated_at"] == Text(now)
    ensures row["password"] == Blob(encrypted) && row["salt"] == Blob(salt)
  {
    map["id" := Number(id), "email" := Text(user.email), "created_at" := Text(now),
        "updated_at" := Text(now), "username" := Text(user.username), "bio" := Null,
        "password" := Blob(encrypted), "salt" := Blob(salt)]
  }

  /** What is inserted reads back as the created user, with the digest and salt stored. */
  lemma InsertedRowReadsBack(id: nat, user: User, now: string, encrypted: Bytes, salt: Bytes)
    ensures ScanUser(InsertedRow(id, user, now, encrypted, salt)) ==
      Some(User(id, user.email, now, now, user.username, "", encrypted, [], salt, NullStr))
  {
    assert InsertedRow(id, user, now, encrypted, salt).Keys == UserColumns;
  }

  // ---- the UPDATE statement ----------------------------------------------------

  /** `column = $placeholder`. */
  datatype Assignment = Assignment(column: string, placeholder: nat)

  datatype UpdateStatement = UpdateStatement(table: string, sets: seq<Assignment>, wherePlaceholder: nat)

  function FieldAssignments(fields: seq<string>): (sets: seq<Assignment>)
    ensures |sets| == |fields|
    ensures forall i | 0 <= i < |fields| :: sets[i] == Assignment(fields[i], i + 1)
  {
    seq(|fields|, i requires 0 <= i < |fields| => Assignment(fields[i], i + 1))
  }

  /** The statement `UpdateUser` builds for `fields` and `valueCount` values:
      the `updated_at` and `WHERE id` placeholders are numbered from the count
      of values, not of fields. */
  function StatementFor(fields: seq<string>, valueCount: nat): UpdateStatement {
    UpdateStatement(UserTableName,
                    FieldAssignments(fields) + [Assignment("updated_at", valueCount + 1)],
                    valueCount + 2)
  }

  /** `column = $k`. */
  function SetText(column: string, placeholder: nat): string {
    column + " = $" + NatToString(placeholder)
  }

  function RenderAssignment(a: Assignment): string {
    SetText(a.column, a.placeholder)
  }

  function RenderAssignments(sets: seq<Assignment>): (texts: seq<string>)
    ensures |texts| == |sets|
    ensures forall i | 0 <= i < |sets| :: texts[i] == RenderAssignment(sets[i])
  {
    seq(|sets|, i requires 0 <= i < |sets| => RenderAssignment(sets[i]))
  }

  /** `UPDATE table SET setList WHERE id = $where`. */
  function UpdateText(table: string, setList: string, where: nat): string {
    "UPDATE " + table + " SET " + setList + " WHERE id = $" + NatToString(where)
  }

  /** The SQL text of a statement. */
  function Render(stmt: UpdateStatement): string {
    UpdateText(stmt.table, Join(RenderAssignments(stmt.sets), ", "), stmt.wherePlaceholder)
  }

  /** The rendered `column = $k` pieces of the field assignments. */
  function FieldTexts(fields: seq<string>): seq<string> {
    RenderAssignments(FieldAssignments(fields))
  }

  lemma FieldTextsStep(fields: seq<string>, i: nat)
    requires i < |fields|
    ensures Terminated(FieldTexts(fields)[..i + 1], ", ") ==
            Terminated(FieldTexts(fields)[..i], ", ") + SetText(fields[i], i + 1) + ", "
  {
    var texts := FieldTexts(fields);
    assert texts[..i + 1][..i] == texts[..i];
    assert texts[i] == SetText(fields[i], i + 1);
  }

  lemma SetListOfStatement(fields: seq<string>, valueCount: nat)
    ensures Join(RenderAssignments(StatementFor(fields, valueCount).sets), ", ") ==
            Terminated(FieldTexts(fields), ", ") + SetText("updated_at", valueCount + 1)
  {
    var texts := FieldTexts(fields);
    var last := SetText("updated_at", valueCount + 1);
    TerminatedThenLast(texts, last, ", ");
    assert RenderAssignments(StatementFor(fields, valueCount).sets) == texts + [last];
  }

  /** The query and argument list of `UserRepo.UpdateUser`: field names
      verbatim and in order, `updated_at` always set, and the arguments are the
      new values, then the timestamp, then the id. */
  method BuildUpdateQuery(id: nat, fields: seq<string>, values: seq<Value>, now: string)
    returns (query: string, args: seq<Value>)
    ensures query == Render(StatementFor(fields, |values|))
    ensures args == values + [Text(now), Number(id)]
  {
    var pairs := "";
    for i := 0 to |fields|
      invariant pairs == Terminated(FieldTexts(fields)[..i], ", ")
    {
      FieldTextsStep(fields, i);
      pairs := pairs + SetText(fields[i], i + 1) + ", ";
    }
    assert FieldTexts(fields)[..|fields|] == FieldTexts(fields);
    pairs := pairs + SetText("updated_at", |values| + 1);
    SetListOfStatement(fields, |values|);
    args := values + [Text(now)];
    query := UpdateText(UserTableName, pairs, |args| + 1);
    args := args + [Number(id)];
  }

  /** With as many values as fields, the placeholder `$k` of every assignment
      binds the k-th argument: field i gets value i, `updated_at` the
      timestamp, and `WHERE id` the id. */
  lemma PlaceholdersBindArguments(id: nat, fields: seq<string>, values: seq<Value>, now: string)
    requires |fields| == |values|
    ensures var stmt := StatementFor(fields, |values|);
            var args := values + [Text(now), Number(id)];
            && |stmt.sets| == |fields| + 1
            && (forall k | 0 <= k < |stmt.sets| :: 1 <= stmt.sets[k].placeholder <= |args|)
            && (forall k | 0 <= k < |fields| ::
                  stmt.sets[k].column == fields[k] && args[stmt.sets[k].placeholder - 1] == values[k])
            && stmt.sets[|fields|].column == "updated_at"
            && args[stmt.sets[|fields|].placeholder - 1] == Text(now)
            && 1 <= stmt.wherePlaceholder <= |args| && args[stmt.wherePlaceholder - 1] == Number(id)
  {
  }

  /** With more fields than values the numbering collides: field `m` and
      `updated_at` both bind `$m+1`, so that argument is stored in two columns. */
  lemma PlaceholderClashWhenLengthsDiffer(fields: seq<string>, m: nat)
    requires |fields| > m
    ensures var stmt := StatementFor(fields, m);
            && stmt.sets[m].column == fields[m] && stmt.sets[|fields|].column == "updated_at"
            && stmt.sets[m].placeholder == stmt.sets[|fields|].placeholder
  {
  }

  // ---- executing it ------------------------------------------------------------

  /** The declared type of each column of `user_data`: `id` is an integer,
      `password` and `salt` are bytea, the rest are text. */
  function ColumnTypeOf(column: string): ColumnType {
    if column == "id" then IntegerColumn
    else if column == "password" || column == "salt" then ByteaColumn
    else TextColumn
  }

  /** What the database accepts: known columns, none assigned twice, every
      placeholder bound. */
  predicate WellFormedUpdate(stmt: UpdateStatement, argCount: nat) {
    && (forall k | 0 <= k < |stmt.sets| ::
          stmt.sets[k].column in UserColumns && 1 <= stmt.sets[k].placeholder <= argCount)
    && (forall k, l | 0 <= k < l < |stmt.sets| :: stmt.sets[k].column != stmt.sets[l].column)
    && 1 <= stmt.wherePlaceholder <= argCount
  }

  /** The value the column of `a` receives: its argument converted to the column's type. */
  function AssignedValue(a: Assignment, args: seq<Value>): Result<Value>
    requires 1 <= a.placeholder <= |args|
  {
    Coerce(ColumnTypeOf(a.column), args[a.placeholder - 1])
  }

  predicate AssignmentsConvert(sets: seq<Assignment>, args: seq<Value>)
    requires forall k | 0 <= k < |sets| :: 1 <= sets[k].placeholder <= |args|
  {
    forall k | 0 <= k < |sets| :: AssignedValue(sets[k], args).Ok?
  }

  /** Every argument converts to the type of the column it is compared with or stored in. */
  predicate ArgumentsConvert(stmt: UpdateStatement, args: seq<Value>)
    requires WellFormedUpdate(stmt, |args|)
  {
    AssignmentsConvert(stmt.sets, args) && Coerce(IntegerColumn, args[stmt.wherePlaceholder - 1]).Ok?
  }

  function ApplyAssignments(row: Row, sets: seq<Assignment>, args: seq<Value>): Row
    requires forall k | 0 <= k < |sets| :: 1 <= sets[k].placeholder <= |args|
    requires AssignmentsConvert(sets, args)
    decreases |sets|
  {
    if sets == [] then row
    else ApplyAssignments(row[sets[0].column := AssignedValue(sets[0], args).value], sets[1..], args)
  }

  /** The table after the UPDATE: it fails unless the statement is well formed
      and every argument converts; then every row whose id equals the WHERE
      argument gets the converted values. */
  function ExecUpdate(rows: seq<Row>, stmt: UpdateStatement, args: seq<Value>): (r: Result<seq<Row>>)
    ensures r.Ok? <==> WellFormedUpdate(stmt, |args|) && ArgumentsConvert(stmt, args)
    ensures r.Ok? ==> |r.value| == |rows|
  {
    if !WellFormedUpdate(stmt, |args|) || !ArgumentsConvert(stmt, args) then Err
    else
      var key := Coerce(IntegerColumn, args[stmt.wherePlaceholder - 1]).value;
      Ok(seq(|rows|, i requires 0 <= i < |rows| =>
        if Matches(rows[i], "id", key) then ApplyAssignments(rows[i], stmt.sets, args) else rows[i]))
  }

  /** The table after `UserRepo.UpdateUser(id, fields, values)` succeeds at the database. */
  function UpdatedRows(rows: seq<Row>, id: nat, fields: seq<string>, values: seq<Value>, now: string): Result<seq<Row>> {
    ExecUpdate(rows, StatementFor(fields, |values|), values + [Text(now), Number(id)])
  }

  function AssignedColumns(sets: seq<Assignment>): set<string> {
    set k | 0 <= k < |sets| :: sets[k].column
  }

  lemma {:induction false} ApplyAssignmentsEffect(row: Row, sets: seq<Assignment>, args: seq<Value>)
    requires forall k | 0 <= k < |sets| :: 1 <= sets[k].placeholder <= |args|
    requires AssignmentsConvert(sets, args)
    requires forall k, l | 0 <= k < l < |sets| :: sets[k].column != sets[l].column
    decreases |sets|
    ensures var r := ApplyAssignments(row, sets, args);
            && (forall k | 0 <= k < |sets| :: sets[k].column in r && r[sets[k].column] == AssignedValue(sets[k], args).value)
            && (forall c | c !in AssignedColumns(sets) ::
                  (c in r <==> c in row) && (c in row ==> r[c] == row[c]))
  {
    if sets != [] {
      var first := row[sets[0].column := AssignedValue(sets[0], args).value];
      var rest := sets[1..];
      assert AssignmentsConvert(rest, args) by {
        forall j | 0 <= j < |rest| ensures AssignedValue(rest[j], args).Ok? {
          assert rest[j] == sets[j + 1];
        }
      }
      ApplyAssignmentsEffect(first, rest, args);
      var r := ApplyAssignments(row, sets, args);
      assert r == ApplyAssignments(first, rest, args);
      assert sets[0].column !in AssignedColumns(rest) by {
        forall j | 0 <= j < |rest| ensures rest[j].column != sets[0].column {
          assert rest[j] == sets[j + 1];
        }
      }
      forall k | 0 <= k < |sets|
        ensures sets[k].column in r && r[sets[k].column] == AssignedValue(sets[k], args).value
      {
        if k > 0 {
          assert rest[k - 1] == sets[k];
        }
      }
      forall c | c !in AssignedColumns(sets)
        ensures (c in r <==> c in row) && (c in row ==> r[c] == row[c])
      {
        assert sets[0].column != c;
        assert c !in AssignedColumns(rest) by {
          forall j | 0 <= j < |rest| ensures rest[j].column != c {
            assert rest[j] == sets[j + 1];
          }
        }
      }
    }
  }

  /** Every value converts to the type of its field's column. */
  predicate ValuesConvert(fields: seq<string>, values: seq<Value>)
    requires |fields| == |values|
  {
    forall k | 0 <= k < |fields| :: Coerce(ColumnTypeOf(fields[k]), values[k]).Ok?
  }

  /** `after` is `before` with each field set to its value converted to the
      column's type and `updated_at` to `now`, every other column as it was. */
  ghost predicate RowUpdated(before: Row, after: Row, fields: seq<string>, values: seq<Value>, now: string)
    requires |fields| == |values|
  {
    && (forall k | 0 <= k < |fields| ::
          fields[k] in after && Coerce(ColumnTypeOf(fields[k]), values[k]) == Ok(after[fields[k]]))
    && "updated_at" in after && after["updated_at"] == Text(now)
    && (forall c | c != "updated_at" && c !in fields ::
          (c in after <==> c in before) && (c in before ==> after[c] == before[c]))
  }

  /** Whitelisted, distinct fields other than `updated_at`. */
  predicate UpdatableFields(fields: seq<string>) {
    && (forall k | 0 <= k < |fields| :: fields[k] in UserColumns && fields[k] != "updated_at")
    && (forall k, l | 0 <= k < l < |fields| :: fields[k] != fields[l])
  }

  /** The columns the statement for `fields` assigns: the fields, then `updated_at`. */
  lemma StatementColumns(fields: seq<string>, valueCount: nat)
    ensures var sets := StatementFor(fields, valueCount).sets;
            && |sets| == |fields| + 1
            && (forall k | 0 <= k < |fields| :: sets[k].column == fields[k])
            && sets[|fields|].column == "updated_at"
  {
    var sets := StatementFor(fields, valueCount).sets;
    assert sets[|fields|] == Assignment("updated_at", valueCount + 1);
  }

  lemma StatementIsWellFormed(id: nat, fields: seq<string>, values: seq<Value>, now: string)
    requires |fields| == |values| && UpdatableFields(fields)
    ensures WellFormedUpdate(StatementFor(fields, |values|), |values| + 2)
  {
    var sets := StatementFor(fields, |values|).sets;
    PlaceholdersBindArguments(id, fields, values, now);
    StatementColumns(fields, |values|);
    forall k | 0 <= k < |sets| ensures sets[k].column in UserColumns {
      if k < |fields| {
        assert sets[k].column == fields[k];
      }
    }
    forall k, l | 0 <= k < l < |sets| ensures sets[k].column != sets[l].column {
      assert sets[k].column == fields[k];
      if l < |fields| {
        assert sets[l].column == fields[l];
      }
    }
  }

  /** What each assignment of the statement for `fields` receives: field k
      its value converted, `updated_at` the timestamp as text. */
  lemma AssignedValuesOfStatement(id: nat, fields: seq<string>, values: seq<Value>, now: string)
    requires |fields| == |values|
    ensures var stmt := StatementFor(fields, |values|);
            var args := values + [Text(now), Number(id)];
            && |stmt.sets| == |fields| + 1
            && (forall k | 0 <= k < |stmt.sets| :: 1 <= stmt.sets[k].placeholder <= |args|)
            && (forall k | 0 <= k < |fields| ::
                  AssignedValue(stmt.sets[k], args) == Coerce(ColumnTypeOf(fields[k]), values[k]))
            && AssignedValue(stmt.sets[|fields|], args) == Coerce(TextColumn, Text(now))
  {
    var stmt := StatementFor(fields, |values|);
    var args := values + [Text(now), Number(id)];
    PlaceholdersBindArguments(id, fields, values, now);
    forall k | 0 <= k < |fields|
      ensures AssignedValue(stmt.sets[k], args) == Coerce(ColumnTypeOf(fields[k]), values[k])
    {
      assert stmt.sets[k].column == fields[k];
    }
  }

  /** The assignments of the statement for `fields` convert exactly when
      every value converts to its field's column type and the timestamp has no NUL. */
  lemma AssignmentsConvertExactly(id: nat, fields: seq<string>, values: seq<Value>, now: string)
    requires |fields| == |values|
    ensures var stmt := StatementFor(fields, |values|);
            var args := values + [Text(now), Number(id)];
            && (forall k | 0 <= k < |stmt.sets| :: 1 <= stmt.sets[k].placeholder <= |args|)
            && (AssignmentsConvert(stmt.sets, args) <==> ValuesConvert(fields, values) && '\0' !in now)
  {
    var stmt := StatementFor(fields, |values|);
    var args := values + [Text(now), Number(id)];
    AssignedValuesOfStatement(id, fields, values, now);
    assert Coerce(TextColumn, Text(now)).Ok? <==> '\0' !in now;
    if ValuesConvert(fields, values) && '\0' !in now {
      forall k | 0 <= k < |stmt.sets| ensures AssignedValue(stmt.sets[k], args).Ok? {
        if k < |fields| {
          assert Coerce(ColumnTypeOf(fields[k]), values[k]).Ok?;
        }
      }
    }
    if AssignmentsConvert(stmt.sets, args) {
      forall k | 0 <= k < |fields| ensures Coerce(ColumnTypeOf(fields[k]), values[k]).Ok? {
        assert AssignedValue(stmt.sets[k], args).Ok?;
      }
      assert AssignedValue(stmt.sets[|fields|], args).Ok?;
    }
  }

  /** The arguments of a whitelisted update convert exactly when the values
      and the timestamp do; the id is then compared as the integer it is. */
  lemma ArgumentsConvertExactly(id: nat, fields: seq<string>, values: seq<Value>, now: string)
    requires |fields| == |values| && UpdatableFields(fields)
    ensures WellFormedUpdate(StatementFor(fields, |values|), |values| + 2)
    ensures ArgumentsConvert(StatementFor(fields, |values|), values + [Text(now), Number(id)]) <==>
            ValuesConvert(fields, values) && '\0' !in now
    ensures Coerce(IntegerColumn, Number(id)) == Ok(Number(id))
  {
    StatementIsWellFormed(id, fields, values, now);
    AssignmentsConvertExactly(id, fields, values, now);
    CoerceKeepsTypedValue(IntegerColumn, Number(id));
    var stmt := StatementFor(fields, |values|);
    var args := values + [Text(now), Number(id)];
    assert args[stmt.wherePlaceholder - 1] == Number(id);
  }

  lemma RowUpdateEffect(row: Row, id: nat, fields: seq<string>, values: seq<Value>, now: string)
    requires |fields| == |values| && UpdatableFields(fields)
    requires ValuesConvert(fields, values) && '\0' !in now
    ensures var stmt := StatementFor(fields, |values|);
            var args := values + [Text(now), Number(id)];
            && WellFormedUpdate(stmt, |args|) && ArgumentsConvert(stmt, args)
            && RowUpdated(row, ApplyAssignments(row, stmt.sets, args), fields, values, now)
  {
    var stmt := StatementFor(fields, |values|);
    var args := values + [Text(now), Number(id)];
    PlaceholdersBindArguments(id, fields, values, now);
    ArgumentsConvertExactly(id, fields, values, now);
    var after := ApplyAssignments(row, stmt.sets, args);
    ApplyAssignmentsEffect(row, stmt.sets, args);
    assert stmt.sets[|fields|].column == "updated_at";
    assert AssignedValue(stmt.sets[|fields|], args) == Coerce(TextColumn, Text(now));
    CoerceKeepsTypedValue(TextColumn, Text(now));
    assert after["updated_at"] == Text(now);
    forall k | 0 <= k < |fields|
      ensures fields[k] in after && Coerce(ColumnTypeOf(fields[k]), values[k]) == Ok(after[fields[k]])
    {
      assert stmt.sets[k].column == fields[k];
      assert AssignedValue(stmt.sets[k], args) == Coerce(ColumnTypeOf(fields[k]), values[k]);
    }
    forall c | c != "updated_at" && c !in fields
      ensures (c in after <==> c in row) && (c in row ==> after[c] == row[c])
    {
      assert c !in AssignedColumns(stmt.sets) by {
        forall k | 0 <= k < |stmt.sets| ensures stmt.sets[k].column != c {
          if k < |fields| {
            assert stmt.sets[k].column == fields[k];
          }
        }
      }
    }
  }

  /** A whitelisted update with distinct fields succeeds exactly when every
      value converts to its column's type (and the timestamp has no NUL); then
      the row with the id gets each field's converted value and the new
      `updated_at`, keeps every other column, and every other row is untouched. */
  lemma UpdateAppliesFields(rows: seq<Row>, id: nat, fields: seq<string>, values: seq<Value>, now: string)
    requires |fields| == |values| && UpdatableFields(fields)
    ensures UpdatedRows(rows, id, fields, values, now).Ok? <==> ValuesConvert(fields, values) && '\0' !in now
    ensures UpdatedRows(rows, id, fields, values, now).Ok? ==>
            var after := UpdatedRows(rows, id, fields, values, now).value;
            && |after| == |rows|
            && (forall i | 0 <= i < |rows| && !Matches(rows[i], "id", Number(id)) :: after[i] == rows[i])
            && (forall i | 0 <= i < |rows| && Matches(rows[i], "id", Number(id)) ::
                  RowUpdated(rows[i], after[i], fields, values, now))
  {
    ArgumentsConvertExactly(id, fields, values, now);
    if ValuesConvert(fields, values) && '\0' !in now {
      var after := UpdatedRows(rows, id, fields, values, now).value;
      forall i | 0 <= i < |rows| && Matches(rows[i], "id", Number(id))
        ensures RowUpdated(rows[i], after[i], fields, values, now)
      {
        RowUpdateEffect(rows[i], id, fields, values, now);
      }
    }
  }

  /** Rows appended after the last match do not change which row matches first. */
  lemma {:induction false} FirstMatchOfAppended(rows: seq<Row>, row: Row, column: string, v: Value)
    requires forall j | 0 <= j < |rows| :: !Matches(rows[j], column, v)
    requires Matches(row, column, v)
    ensures FirstMatch(rows + [row], column, v) == Some(|rows|)
  {
    if rows == [] {
      assert rows + [row] == [row];
    } else {
      assert (rows + [row])[1..] == rows[1..] + [row];
      FirstMatchOfAppended(rows[1..], row, column, v);
    }
  }

  /** A user registered under a new email is found by that email, with the
      stored digest and salt, and the password they registered with verifies
      against them. */
  lemma RegisteredUserCanLogIn(rows: seq<Row>, id: nat, user: User, now: string, random: Bytes, kdf: Kdf)
    requires forall j | 0 <= j < |rows| :: !Matches(rows[j], "email", Text(user.email))
    ensures var salt := FilledSalt(SaltSize, random);
            var digest := PasswordArgon2WithSalt(kdf, user.password, salt);
            var found := LookupUser(rows + [InsertedRow(id, user, now, digest, salt)], "email", Text(user.email));
            && found == Some(User(id, user.email, now, now, user.username, "", digest, [], salt, NullStr))
            && IsValidPassword(kdf, user.password, found.value.salt, found.value.password)
  {
    var salt := FilledSalt(SaltSize, random);
    var digest := PasswordArgon2WithSalt(kdf, user.password, salt);
    var row := InsertedRow(id, user, now, digest, salt);
    FirstMatchOfAppended(rows, row, "email", Text(user.email));
    InsertedRowReadsBack(id, user, now, digest, salt);
    assert (rows + [row])[|rows|] == row;
    HashThenVerify(kdf, user.password, salt, digest);
  }

  lemma ScanAfterBioUpdate(row: Row, bio: string, now: string)
    requires ScanUser(row).Some?
    ensures ScanUser(row["bio" := Text(bio)]["updated_at" := Text(now)]) ==
            Some(ScanUser(row).value.(bio := NullString(bio, true), updatedAt := now))
  {
    assert row["bio" := Text(bio)]["updated_at" := Text(now)].Keys == UserColumns;
  }

  lemma ScanAfterPasswordUpdate(row: Row, password: Bytes, now: string)
    requires ScanUser(row).Some?
    ensures ScanUser(row["password" := Blob(password)]["updated_at" := Text(now)]) ==
            Some(ScanUser(row).value.(password := password, updatedAt := now))
  {
    assert row["password" := Blob(password)]["updated_at" := Text(now)].Keys == UserColumns;
  }

  lemma ScanAfterSaltCleared(row: Row, now: string)
    requires ScanUser(row).Some?
    ensures ScanUser(row["salt" := Null]["updated_at" := Text(now)]) ==
            Some(ScanUser(row).value.(salt := [], updatedAt := now))
  {
    assert row["salt" := Null]["updated_at" := Text(now)].Keys == UserColumns;
  }

  lemma {:induction false} FirstMatchIsFirst(rows: seq<Row>, i: nat, column: string, v: Value)
    requires i < |rows| && Matches(rows[i], column, v)
    requires forall j | 0 <= j < i :: !Matches(rows[j], column, v)
    ensures FirstMatch(rows, column, v) == Some(i)
  {
    if i > 0 {
      var rest := rows[1..];
      assert rest[i - 1] == rows[i];
      assert forall j | 0 <= j < i - 1 :: rest[j] == rows[j + 1];
      FirstMatchIsFirst(rest, i - 1, column, v);
    }
  }

  /** A row updated in one column is the old row with that column and `updated_at` replaced. */
  lemma OneColumnRowUpdated(before: Row, after: Row, field: string, v: Value, now: string)
    requires RowUpdated(before, after, [field], [v], now) && Coerce(ColumnTypeOf(field), v).Ok?
    ensures after == before[field := Coerce(ColumnTypeOf(field), v).value]["updated_at" := Text(now)]
  {
    var stored := Coerce(ColumnTypeOf(field), v).value;
    var expected := before[field := stored]["updated_at" := Text(now)];
    assert [field][0] == field;
    assert field in after && after[field] == stored;
    forall c ensures (c in after <==> c in expected) && (c in expected ==> after[c] == expected[c]) {
      if c == "updated_at" {
      } else if c == field {
        assert expected[c] == stored;
      } else {
        assert c !in [field];
      }
    }
  }

  /** Updating one column other than `id` and reading the user back by id
      reads the first row with that id, now holding the converted value and
      the new `updated_at`. */
  lemma OneFieldUpdateReadsBack(rows: seq<Row>, id: nat, i: nat, field: string, v: Value, now: string)
    requires FirstMatch(rows, "id", Number(id)) == Some(i)
    requires field in UserColumns && field != "id" && field != "updated_at"
    requires Coerce(ColumnTypeOf(field), v).Ok? && '\0' !in now
    ensures UpdatedRows(rows, id, [field], [v], now).Ok?
    ensures LookupUser(UpdatedRows(rows, id, [field], [v], now).value, "id", Number(id)) ==
            ScanUser(rows[i][field := Coerce(ColumnTypeOf(field), v).value]["updated_at" := Text(now)])
  {
    UpdateAppliesFields(rows, id, [field], [v], now);
    var after := UpdatedRows(rows, id, [field], [v], now).value;
    assert RowUpdated(rows[i], after[i], [field], [v], now);
    OneColumnRowUpdated(rows[i], after[i], field, v, now);
    assert Matches(after[i], "id", Number(id));
    forall j | 0 <= j < i ensures !Matches(after[j], "id", Number(id)) {
      assert after[j] == rows[j];
    }
    FirstMatchIsFirst(after, i, "id", Number(id));
  }

  /** Updating the bio and reading the user back by id shows the new bio and
      the new `updated_at`, everything else as before. */
  lemma BioUpdateReadsBack(rows: seq<Row>, id: nat, i: nat, bio: string, now: string)
    requires FirstMatch(rows, "id", Number(id)) == Some(i)
    requires ScanUser(rows[i]).Some?
    requires '\0' !in bio && '\0' !in now
    ensures UpdatedRows(rows, id, ["bio"], [Text(bio)], now).Ok?
    ensures LookupUser(UpdatedRows(rows, id, ["bio"], [Text(bio)], now).value, "id", Number(id)) ==
            Some(ScanUser(rows[i]).value.(bio := NullString(bio, true), updatedAt := now))
  {
    CoerceKeepsTypedValue(TextColumn, Text(bio));
    OneFieldUpdateReadsBack(rows, id, i, "bio", Text(bio), now);
    ScanAfterBioUpdate(rows[i], bio, now);
  }

  /** A password sent as a JSON string, whatever its characters, is stored as
      the bytes of its UTF-8 encoding (not hashed), and the user still reads
      back, with those bytes. */
  lemma PasswordUpdateReadsBack(rows: seq<Row>, id: nat, i: nat, password: string, now: string)
    requires FirstMatch(rows, "id", Number(id)) == Some(i)
    requires ScanUser(rows[i]).Some?
    requires '\0' !in now
    ensures UpdatedRows(rows, id, ["password"], [Text(password)], now).Ok?
    ensures LookupUser(UpdatedRows(rows, id, ["password"], [Text(password)], now).value, "id", Number(id)) ==
            Some(ScanUser(rows[i]).value.(password := Utf8(password), updatedAt := now))
  {
    assert Coerce(ByteaColumn, Text(password)) == Ok(Blob(Utf8(password)));
    OneFieldUpdateReadsBack(rows, id, i, "password", Text(password), now);
    ScanAfterPasswordUpdate(rows[i], Utf8(password), now);
  }

  /** Setting the salt to NULL is accepted, and the user still reads back by
      id, with no salt bytes and the new `updated_at`. */
  lemma SaltClearedReadsBack(rows: seq<Row>, id: nat, i: nat, now: string)
    requires FirstMatch(rows, "id", Number(id)) == Some(i)
    requires ScanUser(rows[i]).Some?
    requires '\0' !in now
    ensures UpdatedRows(rows, id, ["salt"], [Null], now).Ok?
    ensures LookupUser(UpdatedRows(rows, id, ["salt"], [Null], now).value, "id", Number(id)) ==
            Some(ScanUser(rows[i]).value.(salt := [], updatedAt := now))
  {
    OneFieldUpdateReadsBack(rows, id, i, "salt", Null, now);
    ScanAfterSaltCleared(rows[i], now);
  }

  /** An id that is not an integer literal makes the whole update fail. */
  lemma NonNumericIdIsRefused(rows: seq<Row>, id: nat, now: string)
    ensures UpdatedRows(rows, id, ["id"], [Text("abc")], now).Err?
    ensures UpdatedRows(rows, id, ["id"], [Bool(true)], now).Err?
  {
    StringIntoInteger();
    BooleanIsNotAnInteger(true);
    UpdateAppliesFields(rows, id, ["id"], [Text("abc")], now);
    assert !ValuesConvert(["id"], [Text("abc")]) by {
      assert ColumnTypeOf(["id"][0]) == IntegerColumn;
    }
    UpdateAppliesFields(rows, id, ["id"], [Bool(true)], now);
  }

  // ---- the repository ----------------------------------------------------------

  /** `UserRepo` over the `user_data` table. `dbError` is a failure the
      database reports for reasons the table does not show. */
  class UserRepo {
    var rows: seq<Row>

    constructor ()
      ensures rows == []
    {
      rows := [];
    }

    /** `Create`: both timestamps are the same `now`; the digest of the
        password with a fresh 16-byte salt is stored with that salt; the id is
        the one the insert returned (`insertedId`), and a failed insert returns
        no user and changes nothing. */
    method Create(user: User, now: string, random: Bytes, kdf: Kdf, insertedId: Result<nat>)
      returns (r: Option<User>)
      modifies this
      ensures insertedId.Err? ==> r.None? && rows == old(rows)
      ensures insertedId.Ok? ==>
        var salt := FilledSalt(SaltSize, random);
        && r == Some(user.(id := insertedId.value, createdAt := now, updatedAt := now))
        && rows == old(rows) + [InsertedRow(insertedId.value, user, now,
                                            PasswordArgon2WithSalt(kdf, user.password, salt), salt)]
    {
      var u := user.(updatedAt := now, createdAt := now);
      var encrypted, salt := GetPasswordSalt(user.password, random, kdf);
      if insertedId.Err? {
        return None;
      }
      rows := rows + [InsertedRow(insertedId.value, u, now, encrypted, salt)];
      u := u.(id := insertedId.value);
      r := Some(u);
    }

    /** `GetUserById`. */
    method GetUserById(id: nat, dbError: bool) returns (r: Result<User>)
      ensures dbError ==> r.Err?
      ensures !dbError ==> r == ToResult(LookupUser(rows, "id", Number(id)))
      ensures r.Ok? ==> r.value.id == id
    {
      if dbError {
        return Err;
      }
      r := ToResult(LookupUser(rows, "id", Number(id)));
    }

    /** `GetUserByEmail`. */
    method GetUserByEmail(email: string, dbError: bool) returns (r: Result<User>)
      ensures dbError ==> r.Err?
      ensures !dbError ==> r == ToResult(LookupUser(rows, "email", Text(email)))
      ensures r.Ok? ==> r.value.email == email
    {
      if dbError {
        return Err;
      }
      r := ToResult(LookupUser(rows, "email", Text(email)));
    }

    /** `UpdateUser`: build the statement and arguments, execute them. */
    method UpdateUser(id: nat, fields: seq<string>, values: seq<Value>, now: string, dbError: bool)
      returns (ok: bool)
      modifies this
      ensures ok <==> !dbError && UpdatedRows(old(rows), id, fields, values, now).Ok?
      ensures ok ==> rows == UpdatedRows(old(rows), id, fields, values, now).value
      ensures !ok ==> rows == old(rows)
    {
      var query, args := BuildUpdateQuery(id, fields, values, now);
      // the database executes the statement `query` renders
      var result := ExecUpdate(rows, StatementFor(fields, |values|), args);
      if dbError || result.Err? {
        return false;
      }
      rows := result.value;
      ok := true;
    }
  }
}
