/** The rule engine of categorize.py: the extractor registry and rule_params,
    apply_rule, row_categorizer, the validation and filter of load_rules, and
    the per-row lift of the whole table. */
module Categorize {
  import opened Values
  import opened Regex
  import opened Template
  import opened Actions
  import opened Matching
  import opened PropGenerators
  import opened PandasExtensions

  /** The column holding the bank's comment. */
  const COMMENT := "Jegyzet"
  const DEFAULT := "default"
  const ERSTE_COMMENT := "erste_comment"
  /** The helper column row_categorizer numbers the rows in for each rule. */
  const TEMP_UID := "temp_uid"
  /** The helper column the table is numbered in before the per-row lift. */
  const UNIQUE_ID := "unique_id"

  /** One entry of a rule's `actions` mapping: its kind and, for an update,
      its (column, template) pairs. */
  datatype Action = Action(kind: string, body: UpdateBody)

  /** A rule as loaded from the rule file; `None` marks a key the rule does
      not have. */
  datatype Rule = Rule(
    name: Option<string>,
    active: Option<bool>,
    properties: Option<seq<string>>,
    matcher: Option<seq<Condition>>,
    actions: Option<seq<Action>>)

  // ----- properties -----

  /** param_map[name](row): the named extractor applied to the row. */
  function Extract(engine: Engine, name: string, row: Row): (r: Result<Bag>)
    ensures name == DEFAULT ==> r == Ok(row)
    // an extractor name the registry lacks is a KeyError, not a ValueError
    ensures name != DEFAULT && name != ERSTE_COMMENT ==> r == Err(MissingKey(name)) && !r.error.IsValueError()
    // only the bank-comment extractor raises a ValueError, and only on a comment text
    ensures r.Err? && r.error.IsValueError() ==> name == ERSTE_COMMENT && COMMENT in row && row[COMMENT].Text?
  {
    if name == DEFAULT then Ok(DefaultParams(row))
    else if name == ERSTE_COMMENT then ErsteCommentParams(engine, COMMENT, row)
    else Err(MissingKey(name))
  }

  /** `required_params if required_params else []` */
  function Names(properties: Option<seq<string>>): seq<string> {
    if properties.Some? then properties.value else []
  }

  /** Merges the extractors' bags over `acc` left to right, as dict.update
      does, stopping at the first extractor that raises. */
  function MergeFrom(engine: Engine, acc: Bag, names: seq<string>, row: Row): Result<Bag>
    decreases |names|
  {
    if names == [] then Ok(acc)
    else
      match Extract(engine, names[0], row)
      case Err(e) => Err(e)
      case Ok(bag) => MergeFrom(engine, acc + bag, names[1..], row)
  }

  /** The property bag of a rule for a row: the row's columns, then the
      rule's extractors. */
  function BuildProperties(engine: Engine, properties: Option<seq<string>>, row: Row): Result<Bag> {
    MergeFrom(engine, DefaultParams(row), Names(properties), row)
  }

  /** Every named extractor succeeds on the row. */
  predicate AllExtract(engine: Engine, names: seq<string>, row: Row) {
    forall i :: 0 <= i < |names| ==> Extract(engine, names[i], row).Ok?
  }

  /** Extractor `name` succeeds on the row and yields property `k`. */
  predicate Yields(engine: Engine, name: string, row: Row, k: string) {
    Extract(engine, name, row).Ok? && k in Extract(engine, name, row).value
  }

  /** Some named extractor yields property `k`. */
  predicate Provided(engine: Engine, names: seq<string>, row: Row, k: string) {
    exists i :: 0 <= i < |names| && Yields(engine, names[i], row, k)
  }

  /** Extractor `i` is the last of the list that yields `k`. */
  predicate LastYield(engine: Engine, names: seq<string>, row: Row, i: nat, k: string)
    requires i < |names|
  {
    Yields(engine, names[i], row, k) && forall j :: i < j < |names| ==> !Yields(engine, names[j], row, k)
  }

  lemma ProvidedCons(engine: Engine, names: seq<string>, row: Row, k: string)
    requires names != []
    ensures Provided(engine, names, row, k) <==>
            Yields(engine, names[0], row, k) || Provided(engine, names[1..], row, k)
  {
    var rest := names[1..];
    if Provided(engine, names, row, k) {
      var i :| 0 <= i < |names| && Yields(engine, names[i], row, k);
      if i > 0 { assert rest[i - 1] == names[i]; }
    }
    if Provided(engine, rest, row, k) {
      var i :| 0 <= i < |rest| && Yields(engine, rest[i], row, k);
      assert names[i + 1] == rest[i];
    }
  }

  /** Merging succeeds exactly when every extractor does. */
  lemma {:induction false} MergeFromOkIff(engine: Engine, acc: Bag, names: seq<string>, row: Row)
    ensures MergeFrom(engine, acc, names, row).Ok? <==> AllExtract(engine, names, row)
    decreases |names|
  {
    if names != [] {
      var rest := names[1..];
      assert forall i :: 0 <= i < |rest| ==> rest[i] == names[i + 1];
      match Extract(engine, names[0], row)
      case Err(e) =>
      case Ok(bag) =>
        MergeFromOkIff(engine, acc + bag, rest, row);
        assert AllExtract(engine, names, row) <==> AllExtract(engine, rest, row);
    }
  }

  /** The merged bag has the keys of `acc` and of every extractor, and a key
      no extractor yields keeps its value from `acc`. */
  lemma {:induction false} MergeFromKeys(engine: Engine, acc: Bag, names: seq<string>, row: Row)
    requires MergeFrom(engine, acc, names, row).Ok?
    ensures var m := MergeFrom(engine, acc, names, row).value;
            && (forall k :: k in m <==> k in acc || Provided(engine, names, row, k))
            && (forall k :: k in acc && !Provided(engine, names, row, k) ==> m[k] == acc[k])
    decreases |names|
  {
    if names != [] {
      var bag := Extract(engine, names[0], row).value;
      MergeFromKeys(engine, acc + bag, names[1..], row);
      forall k ensures Provided(engine, names, row, k) <==> k in bag || Provided(engine, names[1..], row, k) {
        ProvidedCons(engine, names, row, k);
      }
    }
  }

  /** A key takes the value of the last extractor that yields it. */
  lemma {:induction false} MergeFromLastWins(engine: Engine, acc: Bag, names: seq<string>, row: Row, i: nat, k: string)
    requires MergeFrom(engine, acc, names, row).Ok?
    requires i < |names| && LastYield(engine, names, row, i, k)
    ensures k in MergeFrom(engine, acc, names, row).value
    ensures MergeFrom(engine, acc, names, row).value[k] == Extract(engine, names[i], row).value[k]
    decreases |names|
  {
    var bag := Extract(engine, names[0], row).value;
    var rest := names[1..];
    if i == 0 {
      MergeFromKeys(engine, acc + bag, rest, row);
      assert !Provided(engine, rest, row, k) by {
        forall j | 0 <= j < |rest| ensures !Yields(engine, rest[j], row, k) {
          assert rest[j] == names[j + 1];
        }
      }
    } else {
      assert rest[i - 1] == names[i];
      assert forall j :: i - 1 < j < |rest| ==> rest[j] == names[j + 1];
      MergeFromLastWins(engine, acc + bag, rest, row, i - 1, k);
    }
  }

  /** When an extractor raises, every earlier one having succeeded, its
      exception is the one merging raises. */
  lemma {:induction false} MergeFromFirstError(engine: Engine, acc: Bag, names: seq<string>, row: Row, i: nat)
    requires i < |names| && Extract(engine, names[i], row).Err?
    requires forall j :: 0 <= j < i ==> Extract(engine, names[j], row).Ok?
    ensures MergeFrom(engine, acc, names, row) == Err(Extract(engine, names[i], row).error)
    decreases i
  {
    if i > 0 {
      var rest := names[1..];
      assert rest[i - 1] == names[i];
      assert forall j :: 0 <= j < i - 1 ==> rest[j] == names[j + 1];
      MergeFromFirstError(engine, acc + Extract(engine, names[0], row).value, rest, row, i - 1);
    }
  }

  function ThenMerge(r: Result<Bag>, bag: Result<Bag>): Result<Bag> {
    match r
    case Err(e) => Err(e)
    case Ok(m) =>
      match bag
      case Err(e) => Err(e)
      case Ok(b) => Ok(m + b)
  }

  /** One more extractor at the end of the list is merged over everything
      before it: later keys overwrite earlier ones. */
  lemma {:induction false} MergeFromSnoc(engine: Engine, acc: Bag, names: seq<string>, name: string, row: Row)
    ensures MergeFrom(engine, acc, names + [name], row) ==
            ThenMerge(MergeFrom(engine, acc, names, row), Extract(engine, name, row))
    decreases |names|
  {
    if names == [] {
      assert [] + [name] == [name];
      assert ([name])[1..] == [];
    } else {
      assert (names + [name])[0] == names[0] && (names + [name])[1..] == names[1..] + [name];
      match Extract(engine, names[0], row)
      case Err(e) =>
      case Ok(bag) => MergeFromSnoc(engine, acc + bag, names[1..], name, row);
    }
  }

  /** rule_params: the row's columns, then the rule's extractors in list
      order, each dict.update'd over the bag so far. */
  lemma BuildPropertiesMeaning(engine: Engine, properties: Option<seq<string>>, row: Row)
    ensures var names := Names(properties);
            var r := BuildProperties(engine, properties, row);
            && (r.Ok? <==> AllExtract(engine, names, row))
            && (r.Ok? ==>
                  && (forall k :: k in r.value <==> k in row || Provided(engine, names, row, k))
                  && (forall k :: k in row && !Provided(engine, names, row, k) ==> r.value[k] == row[k])
                  && (forall i, k :: 0 <= i < |names| && LastYield(engine, names, row, i, k) ==>
                        r.value[k] == Extract(engine, names[i], row).value[k]))
            && (names == [] ==> r == Ok(row))
  {
    var names := Names(properties);
    MergeFromOkIff(engine, DefaultParams(row), names, row);
    if BuildProperties(engine, properties, row).Ok? {
      MergeFromKeys(engine, DefaultParams(row), names, row);
      forall i, k | 0 <= i < |names| && LastYield(engine, names, row, i, k)
        ensures BuildProperties(engine, properties, row).value[k] == Extract(engine, names[i], row).value[k]
      {
        MergeFromLastWins(engine, DefaultParams(row), names, row, i, k);
      }
    }
  }

  /** Naming "default" again changes nothing: it yields the row's own columns,
      already in the bag. */
  lemma DefaultFirstIsRedundant(engine: Engine, names: seq<string>, row: Row)
    ensures MergeFrom(engine, row, [DEFAULT] + names, row) == MergeFrom(engine, row, names, row)
  {
    assert ([DEFAULT] + names)[0] == DEFAULT && ([DEFAULT] + names)[1..] == names;
    assert row + row == row;
  }

  /** Naming "default" after other extractors is not redundant: it puts the
      row's own values back over every key the row shares with them. */
  lemma DefaultLastRestoresRow(engine: Engine, names: seq<string>, row: Row)
    ensures BuildProperties(engine, Some(names + [DEFAULT]), row).Ok? <==> BuildProperties(engine, Some(names), row).Ok?
    ensures BuildProperties(engine, Some(names + [DEFAULT]), row).Ok? ==>
              var before := BuildProperties(engine, Some(names), row).value;
              var after := BuildProperties(engine, Some(names + [DEFAULT]), row).value;
              && after.Keys == before.Keys
              && (forall k :: k in row ==> k in after && after[k] == row[k])
              && (forall k :: k in before && k !in row ==> after[k] == before[k])
  {
    MergeFromSnoc(engine, DefaultParams(row), names, DEFAULT, row);
    assert Extract(engine, DEFAULT, row) == Ok(row);
    var r := MergeFrom(engine, DefaultParams(row), names, row);
    if r.Ok? {
      MergeFromKeys(engine, DefaultParams(row), names, row);
      assert BuildProperties(engine, Some(names + [DEFAULT]), row) == Ok(r.value + row);
    }
  }

  /** rule_params */
  method RuleParams(engine: Engine, requiredParams: Option<seq<string>>, row: Row) returns (r: Result<Bag>)
    ensures r == BuildProperties(engine, requiredParams, row)
  {
    var params := DefaultParams(row);
    var names := Names(requiredParams);
    var i := 0;
    while i < |names|
      invariant 0 <= i <= |names|
      invariant BuildProperties(engine, requiredParams, row) == MergeFrom(engine, params, names[i..], row)
    {
      assert names[i..][1..] == names[i + 1..];
      var extracted := Extract(engine, names[i], row);
      if extracted.Err? {
        return Err(extracted.error);
      }
      params := params + extracted.value;
      i := i + 1;
    }
    r := Ok(params);
  }

  // ----- actions -----

  function ThenRun(res: Result<Row>, actions: seq<Action>, bag: Bag): Result<Row> {
    match res
    case Err(e) => Err(e)
    case Ok(row) => RunActions(row, actions, bag)
  }

  /** The actions loop of apply_rule: an "update" assigns its pairs
      unconditionally; "create" does nothing, and so does any other kind,
      which the if/elif never tests. */
  function RunActions(row: Row, actions: seq<Action>, bag: Bag): Result<Row>
    decreases |actions|
  {
    if actions == [] then Ok(row)
    else if actions[0].kind == "update" then
      match AssignAll(row, actions[0].body, bag)
      case Err(e) => Err(e)
      case Ok(updated) => RunActions(updated, actions[1..], bag)
    else RunActions(row, actions[1..], bag)
  }

  /** All pairs of all update actions, in order. */
  function UpdatePairs(actions: seq<Action>): (pairs: UpdateBody)
    ensures forall i :: 0 <= i < |actions| && actions[i].kind == "update" ==>
              forall q :: q in actions[i].body ==> q in pairs
    ensures forall q :: q in pairs ==> exists i :: 0 <= i < |actions| && actions[i].kind == "update" && q in actions[i].body
    decreases |actions|
  {
    if actions == [] then []
    else
      var rest := UpdatePairs(actions[1..]);
      assert forall i :: 1 <= i < |actions| ==> actions[i] == actions[1..][i - 1];
      if actions[0].kind == "update" then actions[0].body + rest else rest
  }

  /** The update pairs keep the order of the actions: those of a later
      action come after those of an earlier one. */
  lemma {:induction false} UpdatePairsAppend(a: seq<Action>, b: seq<Action>)
    ensures UpdatePairs(a + b) == UpdatePairs(a) + UpdatePairs(b)
    decreases |a|
  {
    if a == [] {
      assert a + b == b;
    } else {
      assert (a + b)[0] == a[0];
      assert (a + b)[1..] == a[1..] + b;
      UpdatePairsAppend(a[1..], b);
      if a[0].kind == "update" {
        assert UpdatePairs(a + b) == a[0].body + (UpdatePairs(a[1..]) + UpdatePairs(b));
        assert a[0].body + (UpdatePairs(a[1..]) + UpdatePairs(b)) == (a[0].body + UpdatePairs(a[1..])) + UpdatePairs(b);
      }
    }
  }

  /** A single action contributes its own pairs, in its own order, when it is
      an update, and nothing otherwise. */
  lemma UpdatePairsSingle(x: Action)
    ensures UpdatePairs([x]) == if x.kind == "update" then x.body else []
  {
    assert [x][1..] == [];
  }

  /** Running the actions is assigning all update pairs in one go. */
  lemma {:induction false} RunActionsIsAssignAll(row: Row, actions: seq<Action>, bag: Bag)
    ensures RunActions(row, actions, bag) == AssignAll(row, UpdatePairs(actions), bag)
    decreases |actions|
  {
    if actions != [] {
      if actions[0].kind == "update" {
        AssignAllAppend(row, actions[0].body, UpdatePairs(actions[1..]), bag);
        match AssignAll(row, actions[0].body, bag)
        case Err(e) =>
        case Ok(r) => RunActionsIsAssignAll(r, actions[1..], bag);
      } else {
        RunActionsIsAssignAll(row, actions[1..], bag);
      }
    }
  }

  // ----- apply_rule -----

  /** apply_rule on the row of a one-row group. */
  function ApplyRow(engine: Engine, rule: Rule, row: Row): Result<Row> {
    if rule.name.None? then Err(MissingKey("name"))
    else
      match BuildProperties(engine, rule.properties, row)
      // only a ValueError is caught and passes the row through
      case Err(e) => if e.IsValueError() then Ok(row) else Err(e)
      case Ok(params) =>
        if rule.matcher.None? then Err(MissingKey("matcher"))
        else
          match RuleMatcher(engine.matchAt, rule.matcher.value, params)
          case Err(e) => Err(e)
          case Ok(matching) =>
            if !matching then Ok(row)
            else if rule.actions.None? then Err(MissingKey("actions"))
            else RunActions(row, rule.actions.value, params)
  }

  /** apply_rule(group, rule) */
  function RuleGroup(engine: Engine, group: seq<Row>, rule: Rule): (r: Result<seq<Row>>)
    ensures |group| != 1 ==> r == Err(AssertionFailed)
    // the result is always a single row
    ensures r.Ok? ==> |r.value| == 1
    ensures |group| == 1 ==> (r.Ok? <==> ApplyRow(engine, rule, group[0]).Ok?)
  {
    if |group| != 1 then Err(AssertionFailed)
    else
      match ApplyRow(engine, rule, group[0])
      case Err(e) => Err(e)
      case Ok(row) => Ok([row])
  }

  /** apply_rule: the checks in order, then the nested loops over the rows
      (the one row), the actions and the update pairs, assigning in place. */
  method ApplyRule(engine: Engine, group: seq<Row>, rule: Rule) returns (r: Result<seq<Row>>)
    ensures r == RuleGroup(engine, group, rule)
  {
    if |group| != 1 {
      return Err(AssertionFailed);
    }
    var row := group[0];
    if rule.name.None? {
      return Err(MissingKey("name"));
    }
    var extracted := RuleParams(engine, rule.properties, row);
    if extracted.Err? {
      if extracted.error.IsValueError() {
        return Ok([row]);
      }
      return Err(extracted.error);
    }
    var params := extracted.value;
    if rule.matcher.None? {
      return Err(MissingKey("matcher"));
    }
    var matching := RuleMatcher(engine.matchAt, rule.matcher.value, params);
    if matching.Err? {
      return Err(matching.error);
    }
    if !matching.value {
      return Ok([row]);
    }
    if rule.actions.None? {
      return Err(MissingKey("actions"));
    }
    var actions := rule.actions.value;
    var rows := [row];
    var k := 0;
    while k < |rows|
      invariant 0 <= k <= |rows| == 1
      invariant k == 0 ==> rows == [row]
      invariant k == 1 ==> RunActions(row, actions, params) == Ok(rows[0])
    {
      var current := rows[k];
      var a := 0;
      while a < |actions|
        invariant 0 <= a <= |actions|
        invariant RunActions(row, actions, params) == RunActions(current, actions[a..], params)
      {
        assert actions[a..][1..] == actions[a + 1..];
        assert actions[a..][0] == actions[a];
        var action := actions[a];
        if action.kind == "create" {
        } else if action.kind == "update" {
          var body := action.body;
          assert body[0..] == body;
          var p := 0;
          while p < |body|
            invariant 0 <= p <= |body|
            invariant RunActions(row, actions, params) ==
                      ThenRun(AssignAll(current, body[p..], params), actions[a + 1..], params)
          {
            assert body[p..][1..] == body[p + 1..] && body[p..][0] == body[p];
            var (column, template) := body[p];
            var rendered := Format(template, params);
            if rendered.Err? {
              return Err(rendered.error);
            }
            current := current[column := Text(rendered.value)];
            p := p + 1;
          }
          assert body[p..] == [];
        }
        a := a + 1;
      }
      assert actions[a..] == [];
      rows := rows[k := current];
      k := k + 1;
    }
    assert rows == [rows[0]];
    r := Ok(rows);
  }

  /** An extraction ValueError, or a condition that fails before any raises,
      passes the row through unchanged. */
  lemma ApplyRowPassThrough(engine: Engine, rule: Rule, row: Row)
    requires rule.name.Some?
    requires var p := BuildProperties(engine, rule.properties, row);
             || (p.Err? && p.error.IsValueError())
             || (p.Ok? && rule.matcher.Some? &&
                 exists i :: 0 <= i < |rule.matcher.value| &&
                             CheckMatching(engine.matchAt, p.value, rule.matcher.value[i]) == Ok(false) &&
                             HoldBefore(engine.matchAt, rule.matcher.value, p.value, i))
    ensures ApplyRow(engine, rule, row) == Ok(row)
  {
    var p := BuildProperties(engine, rule.properties, row);
    if p.Ok? {
      var i :| 0 <= i < |rule.matcher.value| &&
               CheckMatching(engine.matchAt, p.value, rule.matcher.value[i]) == Ok(false) &&
               HoldBefore(engine.matchAt, rule.matcher.value, p.value, i);
      RuleMatcherFirstFailure(engine.matchAt, rule.matcher.value, p.value, i);
    }
  }

  /** On a match, every pair of every update action sets its column, present
      or not, to its template rendered against the bag; other action kinds
      change nothing; a template that fails to render raises. */
  lemma ApplyRowOnMatch(engine: Engine, rule: Rule, row: Row)
    requires rule.name.Some? && rule.matcher.Some? && rule.actions.Some?
    requires BuildProperties(engine, rule.properties, row).Ok?
    requires HoldBefore(engine.matchAt, rule.matcher.value, BuildProperties(engine, rule.properties, row).value,
                        |rule.matcher.value|)
    ensures var params := BuildProperties(engine, rule.properties, row).value;
            var pairs := UpdatePairs(rule.actions.value);
            && (ApplyRow(engine, rule, row).Ok? <==> AllRender(pairs, params))
            && (AllRender(pairs, params) ==> ApplyRow(engine, rule, row) == Ok(Assigned(row, pairs, params)))
            && (!AllRender(pairs, params) ==>
                  exists i :: 0 <= i < |pairs| && Format(pairs[i].1, params).Err? &&
                              (forall j :: 0 <= j < i ==> Format(pairs[j].1, params).Ok?) &&
                              ApplyRow(engine, rule, row) == Err(Format(pairs[i].1, params).error))
  {
    var params := BuildProperties(engine, rule.properties, row).value;
    RunActionsIsAssignAll(row, rule.actions.value, params);
    AssignAllMeaning(row, UpdatePairs(rule.actions.value), params);
  }

  /** Exceptions that apply_rule does not catch: an extractor name the
      registry lacks, and a malformed condition once it is reached, although
      the latter is a ValueError. */
  lemma ApplyRowEscapes(engine: Engine, rule: Rule, row: Row)
    requires rule.name.Some?
    ensures var names := Names(rule.properties);
            forall i :: 0 <= i < |names| && names[i] != DEFAULT && names[i] != ERSTE_COMMENT &&
                        (forall j :: 0 <= j < i ==> Extract(engine, names[j], row).Ok?) ==>
                        ApplyRow(engine, rule, row) == Err(MissingKey(names[i]))
    ensures var p := BuildProperties(engine, rule.properties, row);
            p.Ok? && rule.matcher.Some? ==>
              forall i :: 0 <= i < |rule.matcher.value| && |rule.matcher.value[i]| != 1 &&
                          HoldBefore(engine.matchAt, rule.matcher.value, p.value, i) ==>
                          ApplyRow(engine, rule, row) == Err(MalformedMatcher)
  {
    var names := Names(rule.properties);
    forall i | 0 <= i < |names| && names[i] != DEFAULT && names[i] != ERSTE_COMMENT &&
               (forall j :: 0 <= j < i ==> Extract(engine, names[j], row).Ok?)
      ensures ApplyRow(engine, rule, row) == Err(MissingKey(names[i]))
    {
      MergeFromFirstError(engine, DefaultParams(row), names, row, i);
    }
    var p := BuildProperties(engine, rule.properties, row);
    if p.Ok? && rule.matcher.Some? {
      forall i | 0 <= i < |rule.matcher.value| && |rule.matcher.value[i]| != 1 &&
                 HoldBefore(engine.matchAt, rule.matcher.value, p.value, i)
        ensures ApplyRow(engine, rule, row) == Err(MalformedMatcher)
      {
        RuleMatcherFirstError(engine.matchAt, rule.matcher.value, p.value, i);
      }
    }
  }

  /** apply_rule never removes a column. */
  lemma ApplyRowKeepsColumns(engine: Engine, rule: Rule, row: Row)
    requires ApplyRow(engine, rule, row).Ok?
    ensures row.Keys <= ApplyRow(engine, rule, row).value.Keys
  {
    var p := BuildProperties(engine, rule.properties, row);
    if p.Ok? && rule.matcher.Some? && RuleMatcher(engine.matchAt, rule.matcher.value, p.value) == Ok(true) {
      RunActionsIsAssignAll(row, rule.actions.value, p.value);
      AssignAllMeaning(row, UpdatePairs(rule.actions.value), p.value);
    }
  }

  // ----- row_categorizer -----

  /** apply_rule as the function groupby(...).apply calls, with the rule as
      its forwarded argument. */
  function RuleStep(engine: Engine): (step: (seq<Row>, Rule) -> Result<seq<Row>>)
    ensures forall g, rule :: step(g, rule) == RuleGroup(engine, g, rule)
  {
    (g, rule) => RuleGroup(engine, g, rule)
  }

  /** row_categorizer: for each rule in order, the rows are numbered in
      TEMP_UID and apply_rule is applied to each one-row group, and the next
      rule sees the concatenated result; the drop of TEMP_UID is not kept. */
  function CategorizeRows(engine: Engine, group: seq<Row>, rules: seq<Rule>): Result<seq<Row>>
    decreases |rules|
  {
    if rules == [] then Ok(group)
    else
      match GroupApply(Number(group, TEMP_UID), RuleStep(engine), rules[0])
      case Err(e) => Err(e)
      case Ok(next) => CategorizeRows(engine, next, rules[1..])
  }

  /** row_categorizer */
  method RowCategorizer(engine: Engine, group: seq<Row>, rules: seq<Rule>) returns (r: Result<seq<Row>>)
    ensures r == CategorizeRows(engine, group, rules)
  {
    var current := group;
    for i := 0 to |rules|
      invariant CategorizeRows(engine, group, rules) == CategorizeRows(engine, current, rules[i..])
    {
      assert rules[i..][0] == rules[i] && rules[i..][1..] == rules[i + 1..];
      current := Number(current, TEMP_UID);
      var applied := GroupApply(current, RuleStep(engine), rules[i]);
      if applied.Err? {
        return Err(applied.error);
      }
      current := applied.value;
      var discarded := DropColumn(current, TEMP_UID);
    }
    assert rules[|rules|..] == [];
    r := Ok(current);
  }

  /** Rules applied one list after another are the joined list applied. */
  lemma {:induction false} CategorizeRowsAppend(engine: Engine, group: seq<Row>, a: seq<Rule>, b: seq<Rule>)
    ensures CategorizeRows(engine, group, a + b) ==
            match CategorizeRows(engine, group, a)
            case Err(e) => Err(e)
            case Ok(g) => CategorizeRows(engine, g, b)
    decreases |a|
  {
    if a == [] {
      assert a + b == b;
    } else {
      assert (a + b)[0] == a[0] && (a + b)[1..] == a[1..] + b;
      match GroupApply(Number(group, TEMP_UID), RuleStep(engine), a[0])
      case Err(e) =>
      case Ok(next) => CategorizeRowsAppend(engine, next, a[1..], b);
    }
  }

  /** One row's way through the rules: before each rule its TEMP_UID is set
      to `uid`, its position in the table. */
  function RowThrough(engine: Engine, row: Row, uid: int, rules: seq<Rule>): Result<Row>
    decreases |rules|
  {
    if rules == [] then Ok(row)
    else
      match ApplyRow(engine, rules[0], row[TEMP_UID := Int(uid)])
      case Err(e) => Err(e)
      case Ok(next) => RowThrough(engine, next, uid, rules[1..])
  }

  /** row_categorizer keeps the number and the order of the rows: it
      succeeds exactly when every row makes it through every rule, and row i
      of the output is row i of the input taken through the rules on its own. */
  lemma {:induction false} CategorizeRowsPerRow(engine: Engine, group: seq<Row>, rules: seq<Rule>)
    ensures CategorizeRows(engine, group, rules).Ok? <==>
            forall i :: 0 <= i < |group| ==> RowThrough(engine, group[i], i + 1, rules).Ok?
    ensures CategorizeRows(engine, group, rules).Ok? ==>
              && |CategorizeRows(engine, group, rules).value| == |group|
              && forall i :: 0 <= i < |group| ==>
                   CategorizeRows(engine, group, rules).value[i] == RowThrough(engine, group[i], i + 1, rules).value
    decreases |rules|
  {
    if rules != [] {
      OneRulePerRow(engine, group, rules[0]);
      var applied := GroupApply(Number(group, TEMP_UID), RuleStep(engine), rules[0]);
      if applied.Err? {
        var i :| 0 <= i < |group| && !ApplyRow(engine, rules[0], group[i][TEMP_UID := Int(i + 1)]).Ok?;
        assert !RowThrough(engine, group[i], i + 1, rules).Ok?;
      } else {
        var next := applied.value;
        CategorizeRowsPerRow(engine, next, rules[1..]);
        assert forall i :: 0 <= i < |group| ==>
                 RowThrough(engine, group[i], i + 1, rules) == RowThrough(engine, next[i], i + 1, rules[1..]);
      }
    }
  }

  /** One pass of row_categorizer's loop, row by row. */
  lemma OneRulePerRow(engine: Engine, group: seq<Row>, rule: Rule)
    ensures var applied := GroupApply(Number(group, TEMP_UID), RuleStep(engine), rule);
            && (applied.Ok? <==> forall i :: 0 <= i < |group| ==> ApplyRow(engine, rule, group[i][TEMP_UID := Int(i + 1)]).Ok?)
            && (applied.Ok? ==>
                  && |applied.value| == |group|
                  && forall i :: 0 <= i < |group| ==>
                       applied.value[i] == ApplyRow(engine, rule, group[i][TEMP_UID := Int(i + 1)]).value)
  {
    var numbered := Number(group, TEMP_UID);
    GroupApplyOneToOne(numbered, RuleStep(engine), rule);
    assert forall i :: 0 <= i < |group| ==> numbered[i] == group[i][TEMP_UID := Int(i + 1)];
  }

  /** A row taken through at least one rule carries TEMP_UID, and no rule
      removes a column. */
  lemma {:induction false} RowThroughKeepsColumns(engine: Engine, row: Row, uid: int, rules: seq<Rule>)
    requires RowThrough(engine, row, uid, rules).Ok?
    ensures row.Keys <= RowThrough(engine, row, uid, rules).value.Keys
    ensures rules != [] ==> TEMP_UID in RowThrough(engine, row, uid, rules).value
    decreases |rules|
  {
    if rules != [] {
      var tagged := row[TEMP_UID := Int(uid)];
      ApplyRowKeepsColumns(engine, rules[0], tagged);
      RowThroughKeepsColumns(engine, ApplyRow(engine, rules[0], tagged).value, uid, rules[1..]);
    }
  }

  // ----- the table -----

  /** row_categorizer as the function the table-wide apply calls. */
  function CategorizeStep(engine: Engine): (step: (seq<Row>, seq<Rule>) -> Result<seq<Row>>)
    ensures forall g, rules :: step(g, rules) == CategorizeRows(engine, g, rules)
  {
    (g, rules) => CategorizeRows(engine, g, rules)
  }

  /** The table transformation of the categoriser: the rows are numbered in
      UNIQUE_ID and row_categorizer is applied to each one-row group; the
      drop of UNIQUE_ID is not kept. */
  function CategorizeTable(engine: Engine, table: seq<Row>, rules: seq<Rule>): Result<seq<Row>> {
    GroupApply(Number(table, UNIQUE_ID), CategorizeStep(engine), rules)
  }

  /** Every row is categorised on its own, as the single row of its group,
      so its TEMP_UID is always 1; the table keeps its number and order of
      rows, and fails exactly when some row fails. */
  lemma CategorizeTablePerRow(engine: Engine, table: seq<Row>, rules: seq<Rule>)
    ensures CategorizeTable(engine, table, rules).Ok? <==>
            forall i :: 0 <= i < |table| ==> RowThrough(engine, table[i][UNIQUE_ID := Int(i + 1)], 1, rules).Ok?
    ensures CategorizeTable(engine, table, rules).Ok? ==>
              && |CategorizeTable(engine, table, rules).value| == |table|
              && forall i :: 0 <= i < |table| ==>
                   CategorizeTable(engine, table, rules).value[i] ==
                   RowThrough(engine, table[i][UNIQUE_ID := Int(i + 1)], 1, rules).value
  {
    var numbered := Number(table, UNIQUE_ID);
    var step := CategorizeStep(engine);
    forall i | 0 <= i < |numbered|
      ensures step([numbered[i]], rules).Ok? <==> RowThrough(engine, numbered[i], 1, rules).Ok?
      ensures step([numbered[i]], rules).Ok? ==>
                |step([numbered[i]], rules).value| == 1 &&
                step([numbered[i]], rules).value[0] == RowThrough(engine, numbered[i], 1, rules).value
    {
      CategorizeRowsPerRow(engine, [numbered[i]], rules);
    }
    GroupApplyOneToOne(numbered, step, rules);
    assert forall i :: 0 <= i < |table| ==> numbered[i] == table[i][UNIQUE_ID := Int(i + 1)];
  }

  /** The helper columns stay in the categorised table: every row keeps
      UNIQUE_ID, and TEMP_UID too once there is a rule. */
  lemma HelperColumnsLeftBehind(engine: Engine, table: seq<Row>, rules: seq<Rule>)
    requires CategorizeTable(engine, table, rules).Ok?
    ensures forall i :: 0 <= i < |CategorizeTable(engine, table, rules).value| ==>
              && UNIQUE_ID in CategorizeTable(engine, table, rules).value[i]
              && (rules != [] ==> TEMP_UID in CategorizeTable(engine, table, rules).value[i])
  {
    CategorizeTablePerRow(engine, table, rules);
    forall i | 0 <= i < |table| ensures
      var out := RowThrough(engine, table[i][UNIQUE_ID := Int(i + 1)], 1, rules).value;
      UNIQUE_ID in out && (rules != [] ==> TEMP_UID in out)
    {
      RowThroughKeepsColumns(engine, table[i][UNIQUE_ID := Int(i + 1)], 1, rules);
    }
  }

  // ----- load_rules -----

  /** `('active' not in r) or r['active']` */
  predicate IsActive(rule: Rule) {
    rule.active.None? || rule.active.value
  }

  /** The filter of load_rules: the active rules, in their order. */
  function ActiveRules(rules: seq<Rule>): (kept: seq<Rule>)
    ensures forall rule :: rule in kept <==> rule in rules && IsActive(rule)
    ensures |kept| <= |rules|
    decreases |rules|
  {
    if rules == [] then []
    else if IsActive(rules[0]) then [rules[0]] + ActiveRules(rules[1..])
    else ActiveRules(rules[1..])
  }

  /** Filtering keeps the order: the filter of a joined list is the join of
      the filters. */
  lemma {:induction false} ActiveRulesAppend(a: seq<Rule>, b: seq<Rule>)
    ensures ActiveRules(a + b) == ActiveRules(a) + ActiveRules(b)
    decreases |a|
  {
    if a == [] {
      assert a + b == b;
    } else {
      assert (a + b)[0] == a[0] && (a + b)[1..] == a[1..] + b;
      ActiveRulesAppend(a[1..], b);
      if IsActive(a[0]) {
        assert ActiveRules(a + b) == [a[0]] + ActiveRules(a[1..] + b);
        assert ActiveRules(a) == [a[0]] + ActiveRules(a[1..]);
      } else {
        assert ActiveRules(a + b) == ActiveRules(a[1..] + b);
        assert ActiveRules(a) == ActiveRules(a[1..]);
      }
    }
  }

  /** A list of active rules is kept whole. */
  lemma {:induction false} ActiveRulesKeepsActive(rules: seq<Rule>)
    requires forall i :: 0 <= i < |rules| ==> IsActive(rules[i])
    ensures ActiveRules(rules) == rules
    decreases |rules|
  {
    if rules != [] {
      ActiveRulesKeepsActive(rules[1..]);
    }
  }

  /** The validation and filter of load_rules, on the parsed document. */
  function LoadRules(document: map<string, seq<Rule>>): (r: Result<seq<Rule>>)
    ensures "rules" !in document <==> r == Err(MissingRulesRoot)
    ensures r.Ok? ==> forall rule :: rule in r.value <==> rule in document["rules"] && IsActive(rule)
    ensures "rules" in document ==> r == Ok(ActiveRules(document["rules"]))
  {
    if "rules" !in document then Err(MissingRulesRoot) else Ok(ActiveRules(document["rules"]))
  }

  /** The categoriser on a parsed rule document and a table. */
  function CategorizeDocument(engine: Engine, table: seq<Row>, document: map<string, seq<Rule>>): Result<seq<Row>> {
    match LoadRules(document)
    case Err(e) => Err(e)
    case Ok(rules) => CategorizeTable(engine, table, rules)
  }

  /** An inactive rule has no effect, wherever it stands in the document. */
  lemma InactiveRuleIgnored(engine: Engine, table: seq<Row>, before: seq<Rule>, rule: Rule, after: seq<Rule>)
    requires !IsActive(rule)
    ensures CategorizeDocument(engine, table, map["rules" := before + [rule] + after]) ==
            CategorizeDocument(engine, table, map["rules" := before + after])
  {
    ActiveRulesAppend(before + [rule], after);
    ActiveRulesAppend(before, [rule]);
    ActiveRulesAppend(before, after);
    assert ActiveRules([rule]) == [];
    assert ActiveRules(before) + [] == ActiveRules(before);
    assert ActiveRules(before + [rule] + after) == ActiveRules(before + after);
    assert LoadRules(map["rules" := before + [rule] + after]) == Ok(ActiveRules(before + [rule] + after));
    assert LoadRules(map["rules" := before + after]) == Ok(ActiveRules(before + after));
  }

  /** A rule putting amounts that start with "1" in category "small". */
  const SmallAmounts := Rule(Some("small amounts"), None, None, Some([[("amount", "^1")]]),
                             Some([Action("update", [("category", "small")])]))

  /** The row of a one-row table as the rule sees it. */
  function Tagged(amount: string): Row {
    map["amount" := Text(amount), UNIQUE_ID := Int(1), TEMP_UID := Int(1)]
  }

  lemma TaggedProperties(engine: Engine, amount: string)
    ensures BuildProperties(engine, None, Tagged(amount)) == Ok(Tagged(amount))
  {
  }

  lemma SmallAmountsConditions(engine: Engine, amount: string)
    requires forall s :: engine.matchAt("^1", s) <==> |s| >= 1 && s[0] == '1'
    ensures RuleMatcher(engine.matchAt, [[("amount", "^1")]], Tagged(amount)) == Ok(|amount| >= 1 && amount[0] == '1')
  {
    assert CheckMatching(engine.matchAt, Tagged(amount), [("amount", "^1")]) == Ok(|amount| >= 1 && amount[0] == '1');
  }

  lemma SmallAmountsUpdate(amount: string)
    ensures RunActions(Tagged(amount), SmallAmounts.actions.value, Tagged(amount)) ==
            Ok(Tagged(amount)["category" := Text("small")])
  {
    BracelessRendersAsItself("small", Tagged(amount));
    assert AssignAll(Tagged(amount), [("category", "small")], Tagged(amount)) == Ok(Tagged(amount)["category" := Text("small")]);
  }

  /** Every amount starting with "1" is put in category "small"; every
      other amount passes through unchanged. */
  lemma SmallAmountsMatch(engine: Engine, amount: string)
    requires forall s :: engine.matchAt("^1", s) <==> |s| >= 1 && s[0] == '1'
    ensures |amount| >= 1 && amount[0] == '1' ==>
              ApplyRow(engine, SmallAmounts, Tagged(amount)) == Ok(Tagged(amount)["category" := Text("small")])
    ensures !(|amount| >= 1 && amount[0] == '1') ==>
              ApplyRow(engine, SmallAmounts, Tagged(amount)) == Ok(Tagged(amount))
  {
    TaggedProperties(engine, amount);
    SmallAmountsConditions(engine, amount);
    SmallAmountsUpdate(amount);
  }

  lemma SmallAmountsTable(engine: Engine, amount: string, out: Row)
    requires ApplyRow(engine, SmallAmounts, Tagged(amount)) == Ok(out)
    ensures CategorizeTable(engine, [map["amount" := Text(amount)]], [SmallAmounts]) == Ok([out])
  {
    var table := [map["amount" := Text(amount)]];
    assert table[0][UNIQUE_ID := Int(1)][TEMP_UID := Int(1)] == Tagged(amount);
    assert RowThrough(engine, table[0][UNIQUE_ID := Int(1)], 1, [SmallAmounts]) == Ok(out);
    CategorizeTablePerRow(engine, table, [SmallAmounts]);
    var result := CategorizeTable(engine, table, [SmallAmounts]);
    assert result.Ok? && |result.value| == 1 && result.value[0] == out;
    assert result.value == [out];
  }

  /** The rule on one-row tables: an amount "10" is put in category "small",
      an amount "20" passes through, and both keep the helper columns. */
  lemma CategorizeExample(engine: Engine)
    requires forall s :: engine.matchAt("^1", s) <==> |s| >= 1 && s[0] == '1'
    ensures CategorizeTable(engine, [map["amount" := Text("10")]], [SmallAmounts]) ==
            Ok([map["amount" := Text("10"), UNIQUE_ID := Int(1), TEMP_UID := Int(1), "category" := Text("small")]])
    ensures CategorizeTable(engine, [map["amount" := Text("20")]], [SmallAmounts]) ==
            Ok([map["amount" := Text("20"), UNIQUE_ID := Int(1), TEMP_UID := Int(1)]])
  {
    SmallAmountsMatch(engine, "10");
    SmallAmountsMatch(engine, "20");
    SmallAmountsTable(engine, "10", Tagged("10")["category" := Text("small")]);
    SmallAmountsTable(engine, "20", Tagged("20"));
  }
}
