/** The property extractors: each derives a property bag from one row. */
module PropGenerators {
  import opened Values
  import opened Regex
  import DateFormat

  /** get_default_params: every column of the row, with its value unchanged. */
  function DefaultParams(row: Row): (bag: Bag)
    ensures bag.Keys == row.Keys
    ensures forall k :: k in row ==> bag[k] == row[k]
  {
    row
  }

  /** The named groups of the bank-comment pattern. */
  const GroupNames: set<string> :=
    {"card", "id", "place", "date", "time", "exchange", "amount", "currency", "rate"}

  /** The value groupdict() reports for an optional group. */
  function OptionalGroup(o: Option<string>): Value {
    match o
    case Some(s) => Text(s)
    case None => NoneValue
  }

  /** match.groupdict(): every named group, None for one that did not take part. */
  function GroupDict(g: CommentGroups): (d: Bag)
    ensures d.Keys == GroupNames
    ensures d["card"] == Text(g.card) && d["place"] == Text(g.place)
    ensures d["date"] == Text(g.date) && d["time"] == Text(g.time)
    ensures d["id"] == OptionalGroup(g.id)
    ensures g.exchange.None? <==> d["exchange"] == NoneValue
    ensures g.exchange.None? ==> d["amount"] == NoneValue && d["currency"] == NoneValue && d["rate"] == NoneValue
    ensures g.exchange.Some? ==>
              && d["exchange"] == Text(g.exchange.value.whole)
              && d["amount"] == Text(g.exchange.value.amount)
              && d["currency"] == Text(g.exchange.value.currency)
              && d["rate"] == Text(g.exchange.value.rate)
  {
    var x := g.exchange;
    map[
      "card" := Text(g.card),
      "id" := OptionalGroup(g.id),
      "place" := Text(g.place),
      "date" := Text(g.date),
      "time" := Text(g.time),
      "exchange" := (if x.Some? then Text(x.value.whole) else NoneValue),
      "amount" := (if x.Some? then Text(x.value.amount) else NoneValue),
      "currency" := (if x.Some? then Text(x.value.currency) else NoneValue),
      "rate" := (if x.Some? then Text(x.value.rate) else NoneValue)]
  }

  /** The comment text gives a bag exactly when the comment pattern matches it
      and its date and time name a real calendar time. */
  predicate CommentParses(engine: Engine, s: string) {
    && engine.comment(s).Some?
    && DateFormat.Reformat(engine.comment(s).value.date + engine.comment(s).value.time).Ok?
  }

  /** get_erste_comment_params, reading the comment from `column`. */
  function ErsteCommentParams(engine: Engine, column: string, row: Row): (r: Result<Bag>)
    // an absent column is a KeyError, a missing comment an empty bag, and a
    // number reaching the pattern a TypeError
    ensures column !in row ==> r == Err(MissingKey(column))
    ensures r == Ok(map[]) <==> column in row && row[column].IsMissing()
    ensures column in row && row[column].Int? ==> r == Err(NotAString)
    // a comment text succeeds exactly when it parses; a failure on a comment
    // text, and only there, is a ValueError
    ensures column in row && row[column].Text? ==> (r.Ok? <==> CommentParses(engine, row[column].s))
    ensures r.Err? ==> (r.error.IsValueError() <==> column in row && row[column].Text?)
    ensures column in row && row[column].Text? && engine.comment(row[column].s).None? ==>
              r == Err(InvalidComment(row[column].s))
    // on success: the groups plus the rewritten date
    ensures r.Ok? && column in row && row[column].Text? ==>
              var g := engine.comment(row[column].s).value;
              && r.value.Keys == GroupNames + {"comment_date"}
              && (forall k :: k in GroupNames ==> r.value[k] == GroupDict(g)[k])
              && r.value["comment_date"] == Text(DateFormat.Reformat(g.date + g.time).value)
  {
    if column !in row then Err(MissingKey(column))
    else
      match row[column]
      case NaN => Ok(map[])
      case NoneValue => Ok(map[])
      case Int(_) => Err(NotAString)
      case Text(s) =>
        match engine.comment(s)
        case None => Err(InvalidComment(s))
        case Some(g) =>
          match DateFormat.Reformat(g.date + g.time)
          case Err(e) => Err(e)
          case Ok(stamp) =>
            assert "comment_date" in GroupDict(g)["comment_date" := Text(stamp)];
            Ok(GroupDict(g)["comment_date" := Text(stamp)])
  }

  /** The comment date is the comment's "YYMMDD" and "HH:MM" spelt as
      "YYYY-MM-DD HH:MM", with the century Python's %y gives the year. */
  lemma CommentDateText(engine: Engine, column: string, row: Row)
    requires column in row && row[column].Text?
    requires ErsteCommentParams(engine, column, row).Ok?
    ensures var g := engine.comment(row[column].s).value;
            var t := g.date + g.time;
            && DateFormat.ShortShape(t)
            && ErsteCommentParams(engine, column, row).value["comment_date"] ==
               Text((if DateFormat.Two(t, 0) < 69 then "20" else "19") + t[0..2] + "-" + t[2..4] + "-"
                    + t[4..6] + " " + t[6..8] + ":" + t[9..11])
  {
    var g := engine.comment(row[column].s).value;
    DateFormat.ReformatKeepsDigits(g.date + g.time);
  }
}
