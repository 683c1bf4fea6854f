/**
 * Values shared by every route handler: optional values, loosely typed
 * request fields, HTTP replies, stamped table rows with their generated ids,
 * and the "findMany ... orderBy createdAt desc ... take n" query shape that
 * every listing endpoint uses.
 */
module Common {

  datatype Option<T> = None | Some(value: T)

  /** A field of a parsed JSON request body: missing, a string, or any
      other JSON value (number, boolean, null, object, array), for which
      only its JavaScript truthiness matters to the handlers. */
  datatype Field = Absent | Str(s: string) | Other(truthy: bool)

  /** JavaScript truthiness of a body field (`if (x)`, `!x`, `x || y`). */
  predicate Truthy(f: Field) {
    match f
    case Absent => false
    case Str(s) => s != ""
    case Other(t) => t
  }

  /** A query-string parameter as `searchParams.get` returns it (a string or
      null) is "given" when it is truthy, i.e. present and non-empty. */
  predicate Given(p: Option<string>) {
    p.Some? && p.value != ""
  }

  /** `z.string().optional()`: the field is missing or a string. */
  predicate OptionalString(f: Field) {
    f.Absent? || f.Str?
  }

  /** The value an optional string field carries into the store
      (`undefined` becomes a missing column value). */
  function StringOrNone(f: Field): (r: Option<string>)
    requires OptionalString(f)
    ensures r.Some? <==> f.Str?
    ensures r.Some? ==> r.value == f.s
  {
    if f.Str? then Some(f.s) else None
  }

  /** The JSON response of a route handler: a status code with either the
      body of a success or the `error` message of a failure. */
  datatype Reply<T> = Ok(status: nat, value: T) | Err(status: nat, error: string)

  /** The reply to a request without a session. */
  function Unauthorized<T>(): Reply<T> { Err(401, "Unauthorized") }

  /** The reply to a caller who is not a member of the workspace. */
  function AccessDenied<T>(): Reply<T> { Err(403, "Access denied") }

  // ---------------------------------------------------------------------
  // Decimal rendering and generated ids
  // ---------------------------------------------------------------------

  function DigitChar(d: nat): (c: char)
    requires d < 10
    ensures '0' <= c <= '9'
  {
    ('0' as int + d) as char
  }

  /** The value of a decimal digit. */
  function DigitValue(c: char): (d: nat)
    requires '0' <= c <= '9'
    ensures d < 10 && DigitChar(d) == c
  {
    c as int - '0' as int
  }

  /** The number a string of decimal digits denotes, most significant
      digit first. */
  function DecimalValue(s: string): nat
    requires forall i :: 0 <= i < |s| ==> '0' <= s[i] <= '9'
  {
    if s == [] then 0 else 10 * DecimalValue(s[..|s| - 1]) + DigitValue(s[|s| - 1])
  }

  /** The decimal rendering of n, as `${n}` produces it: digits only, and
      no leading zero unless n is zero itself. */
  function Digits(n: nat): (r: string)
    ensures |r| >= 1
    ensures n >= 10 ==> |r| >= 2
    ensures forall i :: 0 <= i < |r| ==> '0' <= r[i] <= '9'
    ensures r[0] == '0' <==> n == 0
    ensures r[|r| - 1] == DigitChar(n % 10)
  {
    if n < 10 then [DigitChar(n)] else Digits(n / 10) + [DigitChar(n % 10)]
  }

  /** The rendering denotes the number rendered. */
  lemma {:induction false} DigitsValue(n: nat)
    ensures DecimalValue(Digits(n)) == n
  {
    var r := Digits(n);
    if n < 10 {
      assert r[..|r| - 1] == [];
    } else {
      assert r[..|r| - 1] == Digits(n / 10);
      DigitsValue(n / 10);
    }
  }

  /** Distinct numbers render to distinct strings. */
  lemma DigitsInjective(a: nat, b: nat)
    requires Digits(a) == Digits(b)
    ensures a == b
  {
    DigitsValue(a);
    DigitsValue(b);
  }

  /** The id the store gives the row created at tick n (standing for the
      database's generated cuid). */
  function IdFor(n: nat): (id: string)
    ensures |id| >= 2 && id[0] == 'c'
  {
    "c" + Digits(n)
  }

  lemma IdForInjective(a: nat, b: nat)
    requires IdFor(a) == IdFor(b)
    ensures a == b
  {
    assert IdFor(a)[1..] == Digits(a);
    assert IdFor(b)[1..] == Digits(b);
    DigitsInjective(a, b);
  }

  // ---------------------------------------------------------------------
  // Stamped rows
  // ---------------------------------------------------------------------

  /** A table row: its generated id, its creation tick and its columns. */
  datatype Row<T> = Row(id: string, createdAt: nat, data: T)

  /** Rows appear in the order they were created, and no two share a tick. */
  predicate Ascending<T>(rows: seq<Row<T>>) {
    forall i, j :: 0 <= i < j < |rows| ==> rows[i].createdAt < rows[j].createdAt
  }

  /** The order of `orderBy: { createdAt: "desc" }`, without ties. */
  predicate Descending<T>(rows: seq<Row<T>>) {
    forall i, j :: 0 <= i < j < |rows| ==> rows[i].createdAt > rows[j].createdAt
  }

  /** A table whose rows were all created before tick `clock`, in order,
      each with the id generated for its tick. */
  predicate Stamped<T>(rows: seq<Row<T>>, clock: nat) {
    && Ascending(rows)
    && (forall i :: 0 <= i < |rows| ==> rows[i].createdAt < clock)
    && (forall i :: 0 <= i < |rows| ==> rows[i].id == IdFor(rows[i].createdAt))
  }

  function Ids<T(==)>(rows: seq<Row<T>>): set<string> {
    set r | r in rows :: r.id
  }

  /** The id of a row created now is not yet used in a stamped table. */
  lemma FreshId<T>(rows: seq<Row<T>>, clock: nat)
    requires Stamped(rows, clock)
    ensures IdFor(clock) !in Ids(rows)
  {
    forall r | r in rows ensures r.id != IdFor(clock) {
      var i :| 0 <= i < |rows| && rows[i] == r;
      if r.id == IdFor(clock) {
        IdForInjective(r.createdAt, clock);
      }
    }
  }

  /** Appending the row created at tick `clock` keeps a table stamped. */
  lemma StampedAppend<T>(rows: seq<Row<T>>, clock: nat, data: T)
    requires Stamped(rows, clock)
    ensures Stamped(rows + [Row(IdFor(clock), clock, data)], clock + 1)
    ensures Ids(rows + [Row(IdFor(clock), clock, data)]) == Ids(rows) + {IdFor(clock)}
  {
    var s := rows + [Row(IdFor(clock), clock, data)];
    assert forall r :: r in s <==> r in rows || r == s[|rows|];
  }

  /** The first row with the given id (`findUnique({ where: { id } })`). */
  function FindById<T(==,!new)>(rows: seq<Row<T>>, id: string): (r: Option<Row<T>>)
    ensures r.Some? <==> id in Ids(rows)
    ensures r.Some? ==> r.value in rows && r.value.id == id
  {
    if rows == [] then None
    else if rows[0].id == id then Some(rows[0])
    else
      assert Ids(rows) == {rows[0].id} + Ids(rows[1..]) by {
        assert forall r :: r in rows <==> r == rows[0] || r in rows[1..];
      }
      FindById(rows[1..], id)
  }

  /** In a stamped table no two rows share an id, so looking a row's id up
      finds that very row. */
  lemma FindByIdStamped<T(!new)>(rows: seq<Row<T>>, clock: nat, x: Row<T>)
    requires Stamped(rows, clock) && x in rows
    ensures FindById(rows, x.id) == Some(x)
  {
    var f := FindById(rows, x.id).value;
    var i :| 0 <= i < |rows| && rows[i] == x;
    var j :| 0 <= j < |rows| && rows[j] == f;
    IdForInjective(x.createdAt, f.createdAt);
  }

  // ---------------------------------------------------------------------
  // findMany
  // ---------------------------------------------------------------------

  /** The rows satisfying `where`, in table order. */
  function Select<T(==,!new)>(rows: seq<Row<T>>, where: Row<T> -> bool): (r: seq<Row<T>>)
    ensures |r| <= |rows|
    ensures forall x :: x in r <==> x in rows && where(x)
    ensures Ascending(rows) ==> Ascending(r)
  {
    if rows == [] then []
    else
      var rest := Select(rows[1..], where);
      var r := if where(rows[0]) then [rows[0]] + rest else rest;
      assert Ascending(rows) ==> Ascending(r) by {
        if Ascending(rows) && where(rows[0]) {
          forall x | x in rest ensures rows[0].createdAt < x.createdAt {
            var k :| 0 <= k < |rows[1..]| && rows[1..][k] == x;
            assert rows[k + 1] == x;
          }
          forall i, j | 0 <= i < j < |r| ensures r[i].createdAt < r[j].createdAt {
            if i > 0 {
              assert r[i] == rest[i - 1] && r[j] == rest[j - 1];
            } else {
              assert r[j] in rest;
            }
          }
        }
      }
      r
  }

  /** Nothing is selected when no row matches. */
  lemma {:induction false} SelectNone<T(!new)>(rows: seq<Row<T>>, where: Row<T> -> bool)
    requires forall x :: x in rows ==> !where(x)
    ensures Select(rows, where) == []
  {
    if rows != [] {
      assert rows[0] in rows;
      assert forall x :: x in rows[1..] ==> x in rows;
      SelectNone(rows[1..], where);
    }
  }

  /** Selecting from a table with one more row selects that row last, when
      it matches. */
  lemma {:induction false} SelectAppend<T(!new)>(rows: seq<Row<T>>, x: Row<T>, where: Row<T> -> bool)
    ensures Select(rows + [x], where) == Select(rows, where) + (if where(x) then [x] else [])
  {
    if rows == [] {
      assert [] + [x] == [x];
    } else {
      var head := if where(rows[0]) then [rows[0]] else [];
      var tail := if where(x) then [x] else [];
      assert (rows + [x])[0] == rows[0];
      assert (rows + [x])[1..] == rows[1..] + [x];
      assert Select(rows + [x], where) == head + Select(rows[1..] + [x], where);
      assert Select(rows, where) == head + Select(rows[1..], where);
      SelectAppend(rows[1..], x, where);
      assert head + (Select(rows[1..], where) + tail) == (head + Select(rows[1..], where)) + tail;
    }
  }

  function Reverse<T>(s: seq<T>): (r: seq<T>)
    ensures |r| == |s|
    ensures forall i :: 0 <= i < |s| ==> r[i] == s[|s| - 1 - i]
  {
    if s == [] then [] else Reverse(s[1..]) + [s[0]]
  }

  /** `findMany({ where, orderBy: { createdAt: "desc" } })`: exactly the
      matching rows, newest first. */
  function FindMany<T(==,!new)>(rows: seq<Row<T>>, where: Row<T> -> bool): (r: seq<Row<T>>)
    ensures forall x :: x in r <==> x in rows && where(x)
    ensures Ascending(rows) ==> Descending(r)
  {
    var s := Select(rows, where);
    var r := Reverse(s);
    assert forall x :: x in r <==> x in s by {
      forall x ensures x in r <==> x in s {
        if x in s {
          var i :| 0 <= i < |s| && s[i] == x;
          assert r[|s| - 1 - i] == x;
        }
      }
    }
    r
  }

  lemma ReverseAppend<T>(s: seq<T>, x: T)
    ensures Reverse(s + [x]) == [x] + Reverse(s)
  {
    var a, b := Reverse(s + [x]), [x] + Reverse(s);
    forall i | 0 <= i < |a| ensures a[i] == b[i] {
      if i > 0 {
        assert a[i] == (s + [x])[|s| - i];
      }
    }
  }

  /** A row added to the table, when it matches, is listed first. */
  lemma FindManyAppend<T(!new)>(rows: seq<Row<T>>, x: Row<T>, where: Row<T> -> bool)
    ensures FindMany(rows + [x], where) == (if where(x) then [x] else []) + FindMany(rows, where)
  {
    SelectAppend(rows, x, where);
    assert FindMany(rows + [x], where) == Reverse(Select(rows + [x], where));
    assert FindMany(rows, where) == Reverse(Select(rows, where));
    if where(x) {
      ReverseAppend(Select(rows, where), x);
    }
  }

  /** `findMany({ where, orderBy: { createdAt: "desc" }, take })`: the
      `take` newest matching rows, newest first. */
  function FindManyTake<T(==,!new)>(rows: seq<Row<T>>, where: Row<T> -> bool, take: nat): (r: seq<Row<T>>)
    requires Ascending(rows)
    ensures |r| <= take
    ensures forall x :: x in r ==> x in rows && where(x)
    ensures Descending(r)
  {
    var s := FindMany(rows, where);
    s[..if |s| < take then |s| else take]
  }

  /** Every matching row that `take` leaves out is older than every row it
      returns, and is left out only because the limit was reached. */
  lemma TakeKeepsNewest<T(!new)>(rows: seq<Row<T>>, where: Row<T> -> bool, take: nat, x: Row<T>)
    requires Ascending(rows)
    requires x in rows && where(x) && x !in FindManyTake(rows, where, take)
    ensures |FindManyTake(rows, where, take)| == take
    ensures forall y :: y in FindManyTake(rows, where, take) ==> y.createdAt > x.createdAt
  {
    var s := FindMany(rows, where);
    var r := FindManyTake(rows, where, take);
    var i :| 0 <= i < |s| && s[i] == x;
    assert i >= |r|;
    forall y | y in r ensures y.createdAt > x.createdAt {
      var j :| 0 <= j < |r| && r[j] == y;
      assert s[j] == y;
    }
  }

  /** A stamped table, or any selection of it, lists each row once, so it
      has as many rows as distinct rows. */
  lemma {:induction false} AscendingCount<T>(rows: seq<Row<T>>)
    requires Ascending(rows)
    ensures |set x | x in rows| == |rows|
  {
    if rows != [] {
      var tail := rows[1..];
      assert Ascending(tail) by {
        forall i, j | 0 <= i < j < |tail| ensures tail[i].createdAt < tail[j].createdAt {
          assert tail[i] == rows[i + 1] && tail[j] == rows[j + 1];
        }
      }
      AscendingCount(tail);
      assert rows[0] !in tail by {
        forall k | 0 <= k < |tail| ensures tail[k] != rows[0] {
          assert tail[k] == rows[k + 1];
        }
      }
      assert (set x | x in rows) == {rows[0]} + (set x | x in tail);
    }
  }

  /** Nothing is returned when no row matches. */
  lemma FindManyTakeNone<T(!new)>(rows: seq<Row<T>>, where: Row<T> -> bool, take: nat)
    requires Ascending(rows)
    requires forall x :: x in rows ==> !where(x)
    ensures FindManyTake(rows, where, take) == []
  {
    SelectNone(rows, where);
  }

  /** The first row `take` returns is the newest matching row. */
  lemma FindManyTakeAppend<T(!new)>(rows: seq<Row<T>>, x: Row<T>, where: Row<T> -> bool, take: nat)
    requires Ascending(rows + [x]) && Ascending(rows) && where(x) && take >= 1
    ensures FindManyTake(rows + [x], where, take)[0] == x
  {
    FindManyAppend(rows, x, where);
  }

  // ---------------------------------------------------------------------
  // update / updateMany
  // ---------------------------------------------------------------------

  /** `updateMany({ where, data })`: every row satisfying `where` gets its
      columns changed by `change`; ids, creation ticks, order and every
      other row stay as they were. */
  function UpdateMany<T>(rows: seq<Row<T>>, where: Row<T> -> bool, change: T -> T): (r: seq<Row<T>>)
    ensures |r| == |rows|
    ensures forall i :: 0 <= i < |rows| ==> r[i].id == rows[i].id && r[i].createdAt == rows[i].createdAt
    ensures forall i :: 0 <= i < |rows| ==>
              r[i].data == if where(rows[i]) then change(rows[i].data) else rows[i].data
  {
    seq(|rows|, i requires 0 <= i < |rows| =>
      if where(rows[i]) then rows[i].(data := change(rows[i].data)) else rows[i])
  }

  /** Updating columns in place keeps a table stamped and keeps its ids. */
  lemma StampedUpdate<T>(rows: seq<Row<T>>, clock: nat, where: Row<T> -> bool, change: T -> T)
    requires Stamped(rows, clock)
    ensures Stamped(UpdateMany(rows, where, change), clock)
    ensures Ids(UpdateMany(rows, where, change)) == Ids(rows)
  {
    var r := UpdateMany(rows, where, change);
    forall x | x in Ids(r) ensures x in Ids(rows) {
      var i :| 0 <= i < |r| && r[i].id == x;
      assert rows[i] in rows;
    }
    forall x | x in Ids(rows) ensures x in Ids(r) {
      var i :| 0 <= i < |rows| && rows[i].id == x;
      assert r[i] in r;
    }
  }
}
