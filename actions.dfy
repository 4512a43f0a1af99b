/** The update action: setting columns of a row to templates rendered
    against the rule's property bag. */
module Actions {
  import opened Values
  import opened Template

  /** The body of an update action: (column, template) pairs in declared order. */
  type UpdateBody = seq<(string, string)>

  /** The columns an update body names. */
  function Columns(pairs: UpdateBody): (cs: set<string>)
    ensures forall c :: c in cs <==> exists i :: 0 <= i < |pairs| && pairs[i].0 == c
  {
    set i | 0 <= i < |pairs| :: pairs[i].0
  }

  /** The template of the last pair that names column `c`. */
  function LastTemplate(pairs: UpdateBody, c: string): (t: string)
    requires c in Columns(pairs)
    ensures (c, t) in pairs
    decreases |pairs|
  {
    if c in Columns(pairs[1..]) then LastTemplate(pairs[1..], c) else pairs[0].1
  }

  /** ... and no later pair names `c`. */
  lemma {:induction false} LastTemplateIsLast(pairs: UpdateBody, c: string)
    requires c in Columns(pairs)
    ensures exists i :: 0 <= i < |pairs| && pairs[i] == (c, LastTemplate(pairs, c)) &&
                        forall j :: i < j < |pairs| ==> pairs[j].0 != c
    decreases |pairs|
  {
    var rest := pairs[1..];
    if c in Columns(rest) {
      LastTemplateIsLast(rest, c);
      var i :| 0 <= i < |rest| && rest[i] == (c, LastTemplate(rest, c)) &&
               forall j :: i < j < |rest| ==> rest[j].0 != c;
      assert pairs[i + 1] == rest[i];
      assert forall j :: i + 1 < j < |pairs| ==> pairs[j] == rest[j - 1];
    } else {
      assert forall j :: 0 < j < |pairs| ==> pairs[j] == rest[j - 1];
    }
  }

  /** Every template of the body renders against the bag. */
  predicate AllRender(pairs: UpdateBody, bag: Bag) {
    forall i :: 0 <= i < |pairs| ==> Format(pairs[i].1, bag).Ok?
  }

  /** Each pair assigns its column, whether or not the row has it, in order;
      the first template that fails to render raises and ends the run. */
  function AssignAll(row: Row, pairs: UpdateBody, bag: Bag): Result<Row>
    decreases |pairs|
  {
    if pairs == [] then Ok(row)
    else
      match Format(pairs[0].1, bag)
      case Err(e) => Err(e)
      case Ok(v) => AssignAll(row[pairs[0].0 := Text(v)], pairs[1..], bag)
  }

  /** The row all assignments of a body leave behind, column by column: a
      named column holds its last template rendered, every other column keeps
      its value. */
  function Assigned(row: Row, pairs: UpdateBody, bag: Bag): Row
    requires AllRender(pairs, bag)
  {
    map c | c in row.Keys + Columns(pairs) ::
      if c in Columns(pairs) then Text(Format(LastTemplate(pairs, c), bag).value) else row[c]
  }

  lemma ColumnsCons(pairs: UpdateBody)
    requires pairs != []
    ensures Columns(pairs) == {pairs[0].0} + Columns(pairs[1..])
  {
    forall c | c in Columns(pairs) ensures c in {pairs[0].0} + Columns(pairs[1..]) {
      var i :| 0 <= i < |pairs| && pairs[i].0 == c;
      if i > 0 { assert pairs[1..][i - 1].0 == c; }
    }
  }

  lemma AllRenderTail(pairs: UpdateBody, bag: Bag)
    requires pairs != [] && AllRender(pairs, bag)
    ensures AllRender(pairs[1..], bag)
  {
    var rest := pairs[1..];
    forall i | 0 <= i < |rest| ensures Format(rest[i].1, bag).Ok? {
      assert rest[i] == pairs[i + 1];
    }
  }

  lemma AssignedStep(row: Row, pairs: UpdateBody, bag: Bag, v: string)
    requires pairs != [] && AllRender(pairs, bag) && Format(pairs[0].1, bag) == Ok(v)
    ensures AllRender(pairs[1..], bag)
    ensures Assigned(row[pairs[0].0 := Text(v)], pairs[1..], bag) == Assigned(row, pairs, bag)
  {
    AllRenderTail(pairs, bag);
    var rest := pairs[1..];
    var row' := row[pairs[0].0 := Text(v)];
    var left := Assigned(row', rest, bag);
    var right := Assigned(row, pairs, bag);
    ColumnsCons(pairs);
    assert left.Keys == right.Keys;
    forall c | c in left ensures left[c] == right[c] {
      AssignedStepAt(row, pairs, bag, v, c);
    }
  }

  lemma AssignedStepAt(row: Row, pairs: UpdateBody, bag: Bag, v: string, c: string)
    requires pairs != [] && AllRender(pairs, bag) && AllRender(pairs[1..], bag) && Format(pairs[0].1, bag) == Ok(v)
    requires Columns(pairs) == {pairs[0].0} + Columns(pairs[1..])
    requires c in Assigned(row[pairs[0].0 := Text(v)], pairs[1..], bag) && c in Assigned(row, pairs, bag)
    ensures Assigned(row[pairs[0].0 := Text(v)], pairs[1..], bag)[c] == Assigned(row, pairs, bag)[c]
  {
    var rest := pairs[1..];
    if c in Columns(rest) {
      assert LastTemplate(pairs, c) == LastTemplate(rest, c);
    } else if c == pairs[0].0 {
      assert LastTemplate(pairs, c) == pairs[0].1;
    }
  }

  /** Running the assignments succeeds exactly when every template renders;
      it then yields the row `Assigned` describes, and otherwise raises the
      exception of the first template that does not render. */
  lemma {:induction false} AssignAllMeaning(row: Row, pairs: UpdateBody, bag: Bag)
    ensures AssignAll(row, pairs, bag).Ok? <==> AllRender(pairs, bag)
    ensures AllRender(pairs, bag) ==> AssignAll(row, pairs, bag) == Ok(Assigned(row, pairs, bag))
    ensures !AllRender(pairs, bag) ==>
              exists i :: 0 <= i < |pairs| && Format(pairs[i].1, bag).Err? &&
                          AssignAll(row, pairs, bag) == Err(Format(pairs[i].1, bag).error) &&
                          forall j :: 0 <= j < i ==> Format(pairs[j].1, bag).Ok?
    decreases |pairs|
  {
    if pairs == [] {
      assert Assigned(row, pairs, bag) == row;
    } else {
      var rest := pairs[1..];
      assert forall i :: 0 <= i < |rest| ==> rest[i] == pairs[i + 1];
      match Format(pairs[0].1, bag)
      case Err(e) =>
      case Ok(v) =>
        var row' := row[pairs[0].0 := Text(v)];
        AssignAllMeaning(row', rest, bag);
        assert AllRender(pairs, bag) <==> AllRender(rest, bag);
        if AllRender(pairs, bag) {
          AssignedStep(row, pairs, bag, v);
        } else {
          var i :| 0 <= i < |rest| && Format(rest[i].1, bag).Err? &&
                   AssignAll(row', rest, bag) == Err(Format(rest[i].1, bag).error) &&
                   forall j :: 0 <= j < i ==> Format(rest[j].1, bag).Ok?;
          assert forall j :: 0 <= j < i + 1 ==> Format(pairs[j].1, bag).Ok? by {
            forall j | 0 <= j < i + 1 ensures Format(pairs[j].1, bag).Ok? {
              if j > 0 { assert pairs[j] == rest[j - 1]; }
            }
          }
          assert pairs[i + 1] == rest[i];
        }
    }
  }

  /** Assignments of two bodies one after the other are the assignments of
      the joined body. */
  lemma {:induction false} AssignAllAppend(row: Row, a: UpdateBody, b: UpdateBody, bag: Bag)
    ensures AssignAll(row, a + b, bag) ==
            match AssignAll(row, a, bag)
            case Err(e) => Err(e)
            case Ok(r) => AssignAll(r, b, bag)
    decreases |a|
  {
    if a == [] {
      assert a + b == b;
    } else {
      assert (a + b)[0] == a[0] && (a + b)[1..] == a[1..] + b;
      match Format(a[0].1, bag)
      case Err(e) =>
      case Ok(v) => AssignAllAppend(row[a[0].0 := Text(v)], a[1..], b, bag);
    }
  }

  /** The pairs whose column is among `columns`, in order. */
  function Present(columns: set<string>, pairs: UpdateBody): (p: UpdateBody)
    ensures forall i :: 0 <= i < |p| ==> p[i].0 in columns
    ensures forall q :: q in p <==> q in pairs && q.0 in columns
    decreases |pairs|
  {
    if pairs == [] then []
    else if pairs[0].0 in columns then [pairs[0]] + Present(columns, pairs[1..])
    else Present(columns, pairs[1..])
  }

  /** How far action_update got: the row as it stands, and the exception that
      stopped it, if one did. */
  datatype Progress = Progress(row: Row, failure: Option<Error>)

  /** action_update's loop: a pair whose column the row lacks is skipped;
      otherwise its column is set, in place; a template that fails to render
      stops the loop with the earlier assignments already made. */
  function UpdateSteps(row: Row, pairs: UpdateBody, properties: Bag): Progress
    decreases |pairs|
  {
    if pairs == [] then Progress(row, None)
    else if pairs[0].0 !in row then UpdateSteps(row, pairs[1..], properties)
    else
      match Format(pairs[0].1, properties)
      case Err(e) => Progress(row, Some(e))
      case Ok(v) => UpdateSteps(row[pairs[0].0 := Text(v)], pairs[1..], properties)
  }

  /** The tolerant update is the unconditional one run on the pairs that
      name columns the row has. */
  lemma {:induction false} UpdateStepsIsAssignPresent(row: Row, pairs: UpdateBody, properties: Bag)
    ensures UpdateSteps(row, pairs, properties).row.Keys == row.Keys
    ensures UpdateSteps(row, pairs, properties).failure.None? <==>
            AssignAll(row, Present(row.Keys, pairs), properties).Ok?
    ensures UpdateSteps(row, pairs, properties).failure.None? ==>
            UpdateSteps(row, pairs, properties).row == AssignAll(row, Present(row.Keys, pairs), properties).value
    ensures UpdateSteps(row, pairs, properties).failure.Some? ==>
            AssignAll(row, Present(row.Keys, pairs), properties) == Err(UpdateSteps(row, pairs, properties).failure.value)
    decreases |pairs|
  {
    if pairs != [] {
      if pairs[0].0 !in row {
        UpdateStepsIsAssignPresent(row, pairs[1..], properties);
      } else {
        match Format(pairs[0].1, properties)
        case Err(e) =>
        case Ok(v) =>
          var row' := row[pairs[0].0 := Text(v)];
          assert row'.Keys == row.Keys;
          UpdateStepsIsAssignPresent(row', pairs[1..], properties);
      }
    }
  }

  /** action_update never adds or removes a column, whether it completes or not. */
  lemma KeepsColumns(row: Row, pairs: UpdateBody, properties: Bag)
    ensures UpdateSteps(row, pairs, properties).row.Keys == row.Keys
  {
    UpdateStepsIsAssignPresent(row, pairs, properties);
  }

  /** When action_update completes: every template of a pair naming a column
      of the row rendered, each such column holds its last template rendered,
      and every other column keeps its value. */
  lemma UpdateMeaning(row: Row, pairs: UpdateBody, properties: Bag)
    ensures var p := Present(row.Keys, pairs);
            && (UpdateSteps(row, pairs, properties).failure.None? <==> AllRender(p, properties))
            && (AllRender(p, properties) ==>
                  var r := UpdateSteps(row, pairs, properties).row;
                  && r.Keys == row.Keys
                  && (forall c :: c in row && c in Columns(p) ==>
                        r[c] == Text(Format(LastTemplate(p, c), properties).value))
                  && (forall c :: c in row && c !in Columns(pairs) ==> r[c] == row[c]))
  {
    var p := Present(row.Keys, pairs);
    UpdateStepsIsAssignPresent(row, pairs, properties);
    AssignAllMeaning(row, p, properties);
  }

  /** When a template raises, the row is left as the pairs before the failing
      one made it. */
  lemma {:induction false} FailureLeavesEarlierUpdates(row: Row, pairs: UpdateBody, properties: Bag)
    requires UpdateSteps(row, pairs, properties).failure.Some?
    ensures exists i :: 0 <= i < |pairs| && pairs[i].0 in row
              && Format(pairs[i].1, properties).Err?
              && UpdateSteps(row, pairs, properties).failure == Some(Format(pairs[i].1, properties).error)
              && UpdateSteps(row, pairs[..i], properties) == Progress(UpdateSteps(row, pairs, properties).row, None)
    decreases |pairs|
  {
    var rest := pairs[1..];
    if pairs[0].0 in row && Format(pairs[0].1, properties).Err? {
      assert pairs[..0] == [];
    } else {
      var row' := if pairs[0].0 in row then row[pairs[0].0 := Text(Format(pairs[0].1, properties).value)] else row;
      assert row'.Keys == row.Keys;
      FailureLeavesEarlierUpdates(row', rest, properties);
      var i :| 0 <= i < |rest| && rest[i].0 in row'
               && Format(rest[i].1, properties).Err?
               && UpdateSteps(row', rest, properties).failure == Some(Format(rest[i].1, properties).error)
               && UpdateSteps(row', rest[..i], properties) == Progress(UpdateSteps(row', rest, properties).row, None);
      assert pairs[i + 1] == rest[i];
      assert pairs[..i + 1][1..] == rest[..i];
    }
  }

  /** A pandas row (Series), updated in place by the action. */
  class SeriesRow {
    var cells: Row

    constructor (cells: Row)
      ensures this.cells == cells
    {
      this.cells := cells;
    }
  }

  /** action_update: updates `row` in place and returns a one-row table of it. */
  method ActionUpdate(row: SeriesRow, actionParams: UpdateBody, properties: Bag) returns (r: Result<seq<Row>>)
    modifies row
    ensures row.cells == UpdateSteps(old(row.cells), actionParams, properties).row
    ensures UpdateSteps(old(row.cells), actionParams, properties).failure.None? ==> r == Ok([row.cells])
    ensures UpdateSteps(old(row.cells), actionParams, properties).failure.Some? ==>
              r == Err(UpdateSteps(old(row.cells), actionParams, properties).failure.value)
  {
    var i := 0;
    while i < |actionParams|
      invariant 0 <= i <= |actionParams|
      invariant UpdateSteps(old(row.cells), actionParams, properties) ==
                UpdateSteps(row.cells, actionParams[i..], properties)
    {
      var (name, content) := actionParams[i];
      assert actionParams[i..][1..] == actionParams[i + 1..];
      if name !in row.cells {
        i := i + 1;
        continue;
      }
      var rendered := Format(content, properties);
      if rendered.Err? {
        return Err(rendered.error);
      }
      row.cells := row.cells[name := Text(rendered.value)];
      i := i + 1;
    }
    r := Ok([row.cells]);
  }
}
