/** The table helpers: `rnd`, the random helper-column name, and `extendable`,
    which lifts a function on one-row tables to whole tables by numbering the
    rows in a helper column and applying the function group by group.

    A table is a sequence of rows. Grouping on a column whose values are
    1..n, all different, makes every group a single row, in input order, so
    `groupby(...).apply(func)` is the flat-map `GroupApply`. */
module PandasExtensions {
  import opened Values

  /** ASCII letter number `k` of string.ascii_letters: the 26 lower-case
      letters, then the 26 upper-case ones. */
  function LetterAt(k: nat): (c: char)
    requires k < 52
    ensures k < 26 ==> c == ('a' as int + k) as char
    ensures 26 <= k ==> c == ('A' as int + (k - 26)) as char
  {
    if k < 26 then ('a' as int + k) as char else ('A' as int + (k - 26)) as char
  }

  /** string.ascii_letters: "abc...z" followed by "ABC...Z". */
  function AsciiLetters(): (s: string)
    ensures |s| == 52 && forall k :: 0 <= k < 52 ==> s[k] == LetterAt(k)
  {
    seq(52, k requires 0 <= k < 52 => LetterAt(k))
  }

  predicate IsAsciiLetter(c: char) {
    'a' <= c <= 'z' || 'A' <= c <= 'Z'
  }

  /** The position of a letter in string.ascii_letters. */
  function LetterIndex(c: char): (k: nat)
    requires IsAsciiLetter(c)
    ensures k < 52 && AsciiLetters()[k] == c
  {
    if 'a' <= c <= 'z' then c as int - 'a' as int else c as int - 'A' as int + 26
  }

  /** rnd(length): `length` independent random.choice picks from
      string.ascii_letters; `draw(i)` stands for the index of the i-th pick. */
  function Rnd(length: nat, draw: nat -> nat): (name: string)
    ensures |name| == length
    ensures forall i :: 0 <= i < |name| ==> IsAsciiLetter(name[i])
  {
    seq(length, i requires 0 <= i => AsciiLetters()[draw(i) % 52])
  }

  /** Every letter string of the given length is a possible result of rnd. */
  lemma RndReachesEveryName(s: string)
    requires forall i :: 0 <= i < |s| ==> IsAsciiLetter(s[i])
    ensures exists draw: nat -> nat :: Rnd(|s|, draw) == s
  {
    var draw: nat -> nat := (i: nat) => if i < |s| then LetterIndex(s[i]) else 0;
    assert Rnd(|s|, draw) == s;
  }

  /** `df[column] = range(1, len(df.index) + 1)`: row i (from 0) gets the id
      i + 1 in `column`, replacing any value it had there. */
  function Number(rows: seq<Row>, column: string): (numbered: seq<Row>)
    ensures |numbered| == |rows|
    ensures forall i :: 0 <= i < |rows| ==>
              && numbered[i].Keys == rows[i].Keys + {column}
              && numbered[i][column] == Int(i + 1)
              && forall k :: k in rows[i] && k != column ==> numbered[i][k] == rows[i][k]
  {
    seq(|rows|, i requires 0 <= i < |rows| => rows[i][column := Int(i + 1)])
  }

  /** The helper column tells all rows apart, so grouping on it gives one
      group per row. */
  lemma NumberingIsUnique(rows: seq<Row>, column: string)
    ensures forall i, j :: 0 <= i < j < |rows| ==> Number(rows, column)[i][column] != Number(rows, column)[j][column]
  {
  }

  /** `df.drop(column, axis=1)`, for a column some row has. */
  function DropColumn(rows: seq<Row>, column: string): (dropped: seq<Row>)
    ensures |dropped| == |rows|
    ensures forall i :: 0 <= i < |rows| ==>
              && dropped[i].Keys == rows[i].Keys - {column}
              && forall k :: k in dropped[i] ==> dropped[i][k] == rows[i][k]
  {
    seq(|rows|, i requires 0 <= i < |rows| => rows[i] - {column})
  }

  /** Dropping a helper column that was not there before restores the table. */
  lemma DropUndoesNumber(rows: seq<Row>, column: string)
    requires forall i :: 0 <= i < |rows| ==> column !in rows[i]
    ensures DropColumn(Number(rows, column), column) == rows
  {
    var back := DropColumn(Number(rows, column), column);
    forall i | 0 <= i < |rows| ensures back[i] == rows[i] {
      assert back[i].Keys == rows[i].Keys;
    }
  }

  /** The column is present in a table whose columns are those of its rows. */
  predicate HasColumn(rows: seq<Row>, column: string) {
    exists i :: 0 <= i < |rows| && column in rows[i]
  }

  /** `groupby(key).apply(f, args)` on a key that is unique per row: `f` is
      called on each one-row group in turn, with the same extra arguments,
      and its outputs, of any length, are concatenated in that order; the
      first call that raises ends the apply with its exception. */
  function GroupApply<A>(rows: seq<Row>, f: (seq<Row>, A) -> Result<seq<Row>>, args: A): Result<seq<Row>>
    decreases |rows|
  {
    if rows == [] then Ok([])
    else
      match f([rows[0]], args)
      case Err(e) => Err(e)
      case Ok(out) =>
        match GroupApply(rows[1..], f, args)
        case Err(e) => Err(e)
        case Ok(more) => Ok(out + more)
  }

  /** The concatenation of a sequence of tables. */
  function Flatten(tables: seq<seq<Row>>): (rows: seq<Row>)
    ensures |tables| == 1 ==> rows == tables[0]
    decreases |tables|
  {
    if tables == [] then [] else tables[0] + Flatten(tables[1..])
  }

  /** Every per-row call succeeds. */
  predicate AllRowsOk<A>(rows: seq<Row>, f: (seq<Row>, A) -> Result<seq<Row>>, args: A) {
    forall i :: 0 <= i < |rows| ==> f([rows[i]], args).Ok?
  }

  /** The per-row outputs, when every call succeeds. */
  function Outputs<A>(rows: seq<Row>, f: (seq<Row>, A) -> Result<seq<Row>>, args: A): (outs: seq<seq<Row>>)
    requires AllRowsOk(rows, f, args)
    ensures |outs| == |rows|
  {
    seq(|rows|, i requires 0 <= i < |rows| => f([rows[i]], args).value)
  }

  /** The lift succeeds exactly when every per-row call does, and then it is
      the concatenation of their outputs in row order; otherwise it raises
      the exception of the first call that failed. */
  lemma {:induction false} GroupApplyFlattens<A>(rows: seq<Row>, f: (seq<Row>, A) -> Result<seq<Row>>, args: A)
    ensures GroupApply(rows, f, args).Ok? <==> AllRowsOk(rows, f, args)
    ensures AllRowsOk(rows, f, args) ==> GroupApply(rows, f, args).value == Flatten(Outputs(rows, f, args))
    ensures GroupApply(rows, f, args).Err? ==>
              exists i :: 0 <= i < |rows| && f([rows[i]], args) == Err(GroupApply(rows, f, args).error) &&
                          forall j :: 0 <= j < i ==> f([rows[j]], args).Ok?
    decreases |rows|
  {
    if rows != [] {
      var rest := rows[1..];
      GroupApplyFlattens(rest, f, args);
      assert forall i :: 0 <= i < |rest| ==> rest[i] == rows[i + 1];
      if f([rows[0]], args).Ok? {
        assert AllRowsOk(rows, f, args) <==> AllRowsOk(rest, f, args);
        if AllRowsOk(rows, f, args) {
          assert Outputs(rows, f, args)[1..] == Outputs(rest, f, args);
        }
        if GroupApply(rest, f, args).Err? {
          var i :| 0 <= i < |rest| && f([rest[i]], args) == Err(GroupApply(rest, f, args).error) &&
                   forall j :: 0 <= j < i ==> f([rest[j]], args).Ok?;
          assert f([rows[i + 1]], args) == Err(GroupApply(rows, f, args).error);
          assert forall j :: 0 <= j < i + 1 ==> f([rows[j]], args).Ok? by {
            forall j | 0 <= j < i + 1 ensures f([rows[j]], args).Ok? {
              if j > 0 { assert rows[j] == rest[j - 1]; }
            }
          }
        }
      }
    }
  }

  /** Applying to a table split in two is applying to each part and joining. */
  lemma {:induction false} GroupApplyAppend<A>(a: seq<Row>, b: seq<Row>, f: (seq<Row>, A) -> Result<seq<Row>>, args: A)
    ensures GroupApply(a + b, f, args) ==
            match GroupApply(a, f, args)
            case Err(e) => Err(e)
            case Ok(x) =>
              match GroupApply(b, f, args)
              case Err(e) => Err(e)
              case Ok(y) => Ok(x + y)
    decreases |a|
  {
    if a == [] {
      assert a + b == b;
      match GroupApply(b, f, args)
      case Err(e) =>
      case Ok(y) => assert [] + y == y;
    } else {
      assert (a + b)[0] == a[0] && (a + b)[1..] == a[1..] + b;
      GroupApplyAppend(a[1..], b, f, args);
      match f([a[0]], args)
      case Err(e) =>
      case Ok(out) =>
        match GroupApply(a[1..], f, args)
        case Err(e) =>
        case Ok(x) =>
          match GroupApply(b, f, args)
          case Err(e) =>
          case Ok(y) => assert out + (x + y) == (out + x) + y;
    }
  }

  lemma {:induction false} FlattenSingletons(tables: seq<seq<Row>>)
    requires forall i :: 0 <= i < |tables| ==> |tables[i]| == 1
    ensures |Flatten(tables)| == |tables|
    ensures forall i :: 0 <= i < |tables| ==> Flatten(tables)[i] == tables[i][0]
    decreases |tables|
  {
    if tables != [] {
      FlattenSingletons(tables[1..]);
      assert forall i :: 1 <= i < |tables| ==> tables[i] == tables[1..][i - 1];
    }
  }

  /** When every call returns exactly one row, the lift keeps the number and
      the order of the rows: output row i is the output of input row i. */
  lemma GroupApplyOneToOne<A>(rows: seq<Row>, f: (seq<Row>, A) -> Result<seq<Row>>, args: A)
    requires forall i :: 0 <= i < |rows| && f([rows[i]], args).Ok? ==> |f([rows[i]], args).value| == 1
    ensures GroupApply(rows, f, args).Ok? <==> AllRowsOk(rows, f, args)
    ensures GroupApply(rows, f, args).Ok? ==>
              && |GroupApply(rows, f, args).value| == |rows|
              && forall i :: 0 <= i < |rows| ==> GroupApply(rows, f, args).value[i] == f([rows[i]], args).value[0]
  {
    GroupApplyFlattens(rows, f, args);
    if AllRowsOk(rows, f, args) {
      FlattenSingletons(Outputs(rows, f, args));
    }
  }

  /** A pandas DataFrame, whose rows are changed in place or replaced. */
  class Frame {
    var rows: seq<Row>

    constructor (rows: seq<Row>)
      ensures this.rows == rows
    {
      this.rows := rows;
    }
  }

  /** wrap_extend (the function `extendable` returns): numbers the rows of
      `df` in a column named by rnd(8), in place; applies `func` to each
      one-row group with the same `args`; then drops the helper column, in
      place, from whatever `df` names at that point. If `func` raises, that is
      still the caller's frame, which loses the column again before the
      exception propagates. If it returns, `df` has been rebound to the
      result: the caller's frame keeps the helper column, and the drop on the
      result raises a KeyError when no result row has it. */
  method WrapExtend<A>(df: Frame, func: (seq<Row>, A) -> Result<seq<Row>>, args: A, draw: nat -> nat)
    returns (r: Result<Frame>)
    modifies df
    ensures var name := Rnd(8, draw);
            var applied := GroupApply(Number(old(df.rows), name), func, args);
            && (applied.Err? ==> r == Err(applied.error) && df.rows == DropColumn(Number(old(df.rows), name), name))
            && (applied.Ok? ==> df.rows == Number(old(df.rows), name))
            && (applied.Ok? && !HasColumn(applied.value, name) ==> r == Err(MissingKey(name)))
            && (applied.Ok? && HasColumn(applied.value, name) ==>
                  r.Ok? && fresh(r.value) && r.value.rows == DropColumn(applied.value, name))
  {
    var rowName := Rnd(8, draw);
    df.rows := Number(df.rows, rowName);
    var applied := GroupApply(df.rows, func, args);
    if applied.Err? {
      df.rows := DropColumn(df.rows, rowName);
      return Err(applied.error);
    }
    var result := new Frame(applied.value);
    if !HasColumn(result.rows, rowName) {
      return Err(MissingKey(rowName));
    }
    result.rows := DropColumn(result.rows, rowName);
    r := Ok(result);
  }

  /** When `func` raises and the helper name was new to the table, the
      caller's frame is left exactly as it was. */
  lemma WrapExtendFailureRestores(rows: seq<Row>, name: string)
    requires forall i :: 0 <= i < |rows| ==> name !in rows[i]
    ensures DropColumn(Number(rows, name), name) == rows
  {
    DropUndoesNumber(rows, name);
  }

  /** On success the returned table has no helper column and is the per-row
      outputs, concatenated in input order, with that column removed. */
  lemma WrapExtendResult<A>(rows: seq<Row>, func: (seq<Row>, A) -> Result<seq<Row>>, args: A, name: string)
    requires GroupApply(Number(rows, name), func, args).Ok?
    ensures AllRowsOk(Number(rows, name), func, args)
    ensures DropColumn(GroupApply(Number(rows, name), func, args).value, name) ==
            DropColumn(Flatten(Outputs(Number(rows, name), func, args)), name)
    ensures !HasColumn(DropColumn(GroupApply(Number(rows, name), func, args).value, name), name)
  {
    GroupApplyFlattens(Number(rows, name), func, args);
  }
}
