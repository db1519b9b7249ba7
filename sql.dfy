/** The driver-level values the model's tables hold and the row sets queries return. */
module Sql {
  import opened Wrappers
  import opened Text

  newtype byte = x: int | 0 <= x < 256

  type Bytes = seq<byte>

  /** A column value as the driver passes it (JSON numbers are modelled as integers). */
  datatype Value = Null | Bool(b: bool) | Number(n: int) | Text(s: string) | Blob(bytes: Bytes)

  /** A table row: column name to value. */
  type Row = map<string, Value>

  /** One `rows.Scan` of a result row: the scanned value or a scan error. */
  datatype Scan<T> = Scanned(value: T) | ScanError

  /** What `db.Query` hands back: an error, or the result rows in order. */
  datatype Rows<T> = QueryError | Rows(items: seq<Scan<T>>)

  /** `sql.NullString` (and its JSON wrapper): a string that may be NULL. */
  datatype NullString = NullString(s: string, valid: bool)

  const NullStr := NullString("", false)

  predicate AllScanned<T>(items: seq<Scan<T>>) {
    forall i | 0 <= i < |items| :: items[i].Scanned?
  }

  /** The values of a fully scanned result, in row order. */
  function ScannedValues<T>(items: seq<Scan<T>>): (vs: seq<T>)
    requires AllScanned(items)
    ensures |vs| == |items|
    ensures forall i | 0 <= i < |items| :: vs[i] == items[i].value
  {
    seq(|items|, i requires 0 <= i < |items| => items[i].value)
  }

  /** Scanning one more row appends its value. */
  lemma ScannedValuesSnoc<T>(items: seq<Scan<T>>, i: nat)
    requires i < |items| && AllScanned(items[..i]) && items[i].Scanned?
    ensures AllScanned(items[..i + 1])
    ensures ScannedValues(items[..i + 1]) == ScannedValues(items[..i]) + [items[i].value]
  {
    assert items[..i + 1] == items[..i] + [items[i]];
  }

  // ---- arguments as PostgreSQL receives them ------------------------------------

  function Utf8Char(c: char): (bs: Bytes)
    ensures 1 <= |bs| <= 4
  {
    var n := c as int;
    if n < 0x80 then [n as byte]
    else if n < 0x800 then [(0xC0 + n / 0x40) as byte, (0x80 + n % 0x40) as byte]
    else if n < 0x1_0000 then
      [(0xE0 + n / 0x1000) as byte, (0x80 + n / 0x40 % 0x40) as byte, (0x80 + n % 0x40) as byte]
    else
      [(0xF0 + n / 0x4_0000) as byte, (0x80 + n / 0x1000 % 0x40) as byte,
       (0x80 + n / 0x40 % 0x40) as byte, (0x80 + n % 0x40) as byte]
  }

  /** The UTF-8 encoding of a string: the bytes a UTF-8 database stores for it. */
  function Utf8(s: string): (bs: Bytes)
    ensures |bs| >= |s|
  {
    if s == [] then [] else Utf8(s[..|s| - 1]) + Utf8Char(s[|s| - 1])
  }

  /** An ASCII string encodes to its character codes, one byte each. */
  lemma {:induction false} Utf8OfAscii(s: string)
    requires forall i | 0 <= i < |s| :: s[i] as int < 0x80
    ensures |Utf8(s)| == |s|
    ensures forall i | 0 <= i < |s| :: Utf8(s)[i] as int == s[i] as int
  {
    if s != [] {
      var init := s[..|s| - 1];
      Utf8OfAscii(init);
    }
  }

  /** The column types of the tables the model stores. */
  datatype ColumnType = IntegerColumn | TextColumn | ByteaColumn

  /** A value a column of type `t` can hold. */
  predicate HasType(t: ColumnType, v: Value) {
    match v
    case Null => true
    case Number(_) => t == IntegerColumn
    case Text(_) => t == TextColumn
    case Blob(_) => t == ByteaColumn
    case Bool(_) => false
  }

  /** The text form in which the driver sends a boolean, number or string
      argument: `true`/`false`, the decimal literal, the string itself. */
  function ParamText(v: Value): string
    requires v.Bool? || v.Number? || v.Text?
  {
    match v
    case Bool(b) => if b then "true" else "false"
    case Number(n) => IntToString(n)
    case Text(s) => s
  }

  /** What a column of type `t` receives for the text form `s` of an
      argument. The driver prepares the statement and learns the parameter
      types, so for a bytea parameter it hex-encodes the UTF-8 bytes itself and
      the server stores them exactly, backslashes and NUL included. Otherwise
      the server parses the text: it refuses text containing NUL, a text
      column takes the text, and an integer column an optionally signed
      decimal literal. */
  function FromText(t: ColumnType, s: string): (r: Result<Value>)
    ensures r.Ok? ==> HasType(t, r.value) && !r.value.Null?
    ensures t == ByteaColumn ==> r.Ok?
    ensures t != ByteaColumn && '\0' in s ==> r.Err?
  {
    if t == ByteaColumn then Ok(Blob(Utf8(s)))
    else if '\0' in s then Err
    else if t == TextColumn then Ok(Text(s))
    else
      var n :- ToResult(ParseInt(s));
      Ok(Number(n))
  }

  /** The value a column of type `t` receives for an argument: NULL stays
      NULL, a byte string is bound as bytea, anything else is sent as text
      and converted by the server. */
  function Coerce(t: ColumnType, v: Value): (r: Result<Value>)
    ensures r.Ok? ==> HasType(t, r.value)
    ensures r.Ok? ==> (r.value.Null? <==> v.Null?)
    ensures v.Null? ==> r.Ok?
  {
    match v
    case Null => Ok(Null)
    case Blob(_) => if t == ByteaColumn then Ok(v) else Err
    case _ => FromText(t, ParamText(v))
  }

  /** A value already of the column's type is stored as it is. */
  lemma CoerceKeepsTypedValue(t: ColumnType, v: Value)
    requires HasType(t, v)
    requires v.Text? ==> '\0' !in v.s
    ensures Coerce(t, v) == Ok(v)
  {
    if v.Number? {
      ParseIntOfIntToString(v.n);
    }
  }

  /** A boolean never converts to an integer. */
  lemma BooleanIsNotAnInteger(b: bool)
    ensures Coerce(IntegerColumn, Bool(b)).Err?
  {
    assert ParseInt(ParamText(Bool(b))).None? by {
      var s := ParamText(Bool(b));
      assert s[0] == 't' || s[0] == 'f';
    }
  }

  /** A number or boolean bound to a text column is stored as its literal. */
  lemma LiteralsIntoText()
    ensures Coerce(TextColumn, Number(5)) == Ok(Text("5"))
    ensures Coerce(TextColumn, Number(-12)) == Ok(Text("-12"))
    ensures Coerce(TextColumn, Bool(true)) == Ok(Text("true"))
  {
    assert NatToString(12) == NatToString(1) + [DigitChar(2)] == "12";
    assert IntToString(-12) == "-12";
  }

  lemma Utf8OfThree(x: char, y: char, z: char)
    ensures Utf8([x, y, z]) == Utf8Char(x) + Utf8Char(y) + Utf8Char(z)
  {
    assert [x, y, z][..2] == [x, y] && [x, y][..1] == [x] && [x][..0] == [];
    assert Utf8([x]) == Utf8Char(x);
    assert Utf8([x, y]) == Utf8([x]) + Utf8Char(y);
    assert Utf8([x, y, z]) == Utf8([x, y]) + Utf8Char(z);
  }

  /** A string bound to a bytea column is stored as exactly its bytes, a
      backslash or a NUL among them. */
  lemma StringIntoBytea()
    ensures Coerce(ByteaColumn, Text("x")) == Ok(Blob([120]))
    ensures Coerce(ByteaColumn, Text("a\\b")) == Ok(Blob([97, 92, 98]))
    ensures Coerce(ByteaColumn, Text("a\0b")) == Ok(Blob([97, 0, 98]))
  {
    assert Utf8("x") == [120] by {
      assert "x"[..0] == "";
    }
    assert Utf8Char('a') == [97] && Utf8Char('b') == [98];
    assert Utf8Char('\\') == [92] && Utf8Char('\0') == [0];
    assert "a\\b" == ['a', '\\', 'b'];
    Utf8OfThree('a', '\\', 'b');
    assert Utf8("a\\b") == [97, 92, 98];
    assert "a\0b" == ['a', '\0', 'b'];
    Utf8OfThree('a', '\0', 'b');
    assert Utf8("a\0b") == [97, 0, 98];
  }

  /** The NUL a bytea column stores makes a text or integer column refuse the string. */
  lemma NulRefusedOutsideBytea()
    ensures Coerce(TextColumn, Text("a\0b")).Err?
    ensures Coerce(IntegerColumn, Text("1\0")).Err?
  {
    assert "a\0b"[1] == '\0';
    assert "1\0"[1] == '\0';
  }

  /** A digit string bound to an integer column is stored as its number;
      anything else is refused. */
  lemma StringIntoInteger()
    ensures Coerce(IntegerColumn, Text("-7")) == Ok(Number(-7))
    ensures Coerce(IntegerColumn, Text("abc")).Err?
    ensures Coerce(IntegerColumn, Text("")).Err?
  {
    assert "-7"[1..] == "7";
    assert DigitsValue("7") == 7 by {
      assert "7"[..0] == "";
    }
    assert !AllDigits("abc") by {
      assert "abc"[0] == 'a';
    }
  }
}
