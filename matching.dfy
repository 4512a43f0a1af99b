/** Rule matching (check_matching, rule_matcher): a rule's conditions checked
    against a property bag. */
module Matching {
  import opened Values
  import opened Regex

  /** One matcher element as written in the rule file: the items of a
      mapping from property name to pattern, which must hold exactly one. */
  type Condition = seq<(string, Pattern)>

  /** check_matching */
  function CheckMatching(matchAt: (Pattern, string) -> bool, params: Bag, matcher: Condition): (r: Result<bool>)
    // a matcher of any other size than one pair is a ValueError
    ensures r == Err(MalformedMatcher) <==> |matcher| != 1
    // an absent property is a failed condition, not an error
    ensures |matcher| == 1 && matcher[0].0 !in params ==> r == Ok(false)
    // a present text holds the condition iff the pattern matches at its start
    ensures |matcher| == 1 && matcher[0].0 in params && params[matcher[0].0].Text? ==>
              r == Ok(matchAt(matcher[0].1, params[matcher[0].0].s))
    // anything but a string reaching re.match is a TypeError
    ensures |matcher| == 1 && matcher[0].0 in params && !params[matcher[0].0].Text? ==>
              r == Err(NotAString)
  {
    if |matcher| != 1 then Err(MalformedMatcher)
    else
      var (k, v) := matcher[0];
      if k !in params then Ok(false)
      else
        match params[k]
        case Text(s) => Ok(matchAt(v, s))
        case _ => Err(NotAString)
  }

  /** The first `n` conditions all hold. */
  predicate HoldBefore(matchAt: (Pattern, string) -> bool, matchers: seq<Condition>, params: Bag, n: nat)
    requires n <= |matchers|
  {
    forall j :: 0 <= j < n ==> CheckMatching(matchAt, params, matchers[j]) == Ok(true)
  }

  lemma HoldBeforeShift(matchAt: (Pattern, string) -> bool, matchers: seq<Condition>, params: Bag)
    requires matchers != [] && CheckMatching(matchAt, params, matchers[0]) == Ok(true)
    ensures forall n :: 0 <= n < |matchers| ==>
              (HoldBefore(matchAt, matchers[1..], params, n) <==> HoldBefore(matchAt, matchers, params, n + 1))
  {
    var rest := matchers[1..];
    forall n | 0 <= n < |matchers|
      ensures HoldBefore(matchAt, rest, params, n) <==> HoldBefore(matchAt, matchers, params, n + 1)
    {
      if HoldBefore(matchAt, rest, params, n) {
        forall j | 0 <= j < n + 1 ensures CheckMatching(matchAt, params, matchers[j]) == Ok(true) {
          if j > 0 { assert matchers[j] == rest[j - 1]; }
        }
      }
      if HoldBefore(matchAt, matchers, params, n + 1) {
        forall j | 0 <= j < n ensures CheckMatching(matchAt, params, rest[j]) == Ok(true) {
          assert rest[j] == matchers[j + 1];
        }
      }
    }
  }

  /** rule_matcher: `all(map(check, matchers))`, which stops at the first
      condition that does not hold, so later matchers are never examined. */
  function RuleMatcher(matchAt: (Pattern, string) -> bool, matchers: seq<Condition>, params: Bag): (r: Result<bool>)
    // the rule matches iff every condition holds (so no conditions always match)
    ensures r == Ok(true) <==> HoldBefore(matchAt, matchers, params, |matchers|)
    // an error escapes iff a failing condition is reached, every earlier one
    // having held, and it is that condition's error
    ensures r.Err? <==>
            exists i :: 0 <= i < |matchers| && CheckMatching(matchAt, params, matchers[i]).Err? &&
                        HoldBefore(matchAt, matchers, params, i)
    ensures r.Err? ==>
            exists i :: 0 <= i < |matchers| && CheckMatching(matchAt, params, matchers[i]) == r
    decreases |matchers|
  {
    if matchers == [] then Ok(true)
    else
      match CheckMatching(matchAt, params, matchers[0])
      case Err(e) => assert HoldBefore(matchAt, matchers, params, 0); Err(e)
      case Ok(false) =>
        assert forall i :: 0 < i <= |matchers| ==> !HoldBefore(matchAt, matchers, params, i);
        Ok(false)
      case Ok(true) =>
        var rest := matchers[1..];
        var r := RuleMatcher(matchAt, rest, params);
        HoldBeforeShift(matchAt, matchers, params);
        assert r.Err? ==> exists i :: 0 <= i < |rest| && CheckMatching(matchAt, params, rest[i]).Err? &&
                                      HoldBefore(matchAt, rest, params, i);
        assert forall i :: 0 <= i < |rest| ==> rest[i] == matchers[i + 1];
        assert HoldBefore(matchAt, matchers, params, 0);
        r
  }

  /** The first condition that does not hold decides: when it raises, its
      exception is the one rule_matcher raises. */
  lemma {:induction false} RuleMatcherFirstError(matchAt: (Pattern, string) -> bool, matchers: seq<Condition>, params: Bag, i: nat)
    requires i < |matchers| && CheckMatching(matchAt, params, matchers[i]).Err?
    requires HoldBefore(matchAt, matchers, params, i)
    ensures RuleMatcher(matchAt, matchers, params) == CheckMatching(matchAt, params, matchers[i])
    decreases i
  {
    if i > 0 {
      HoldBeforeShift(matchAt, matchers, params);
      assert matchers[1..][i - 1] == matchers[i];
      RuleMatcherFirstError(matchAt, matchers[1..], params, i - 1);
    }
  }

  /** ... and when it merely fails, the rule does not match. */
  lemma {:induction false} RuleMatcherFirstFailure(matchAt: (Pattern, string) -> bool, matchers: seq<Condition>, params: Bag, i: nat)
    requires i < |matchers| && CheckMatching(matchAt, params, matchers[i]) == Ok(false)
    requires HoldBefore(matchAt, matchers, params, i)
    ensures RuleMatcher(matchAt, matchers, params) == Ok(false)
    decreases i
  {
    if i > 0 {
      HoldBeforeShift(matchAt, matchers, params);
      assert matchers[1..][i - 1] == matchers[i];
      RuleMatcherFirstFailure(matchAt, matchers[1..], params, i - 1);
    }
  }

  /** Start-anchored matching on an example: with "^COFFEE" matching the
      texts that start with "COFFEE", a place "COFFEE SHOP 12" matches and
      "THE COFFEE SHOP" does not. */
  lemma CoffeeExample(matchAt: (Pattern, string) -> bool)
    requires forall s :: matchAt("^COFFEE", s) <==> |s| >= 6 && s[..6] == "COFFEE"
    ensures CheckMatching(matchAt, map["place" := Text("COFFEE SHOP 12")], [("place", "^COFFEE")]) == Ok(true)
    ensures CheckMatching(matchAt, map["place" := Text("THE COFFEE SHOP")], [("place", "^COFFEE")]) == Ok(false)
  {
    assert "COFFEE SHOP 12"[..6] == "COFFEE";
    assert "THE COFFEE SHOP"[..6][0] == 'T';
  }

  /** A pattern anchored at the end as well: "^10$" (whose `$` also accepts
      one trailing newline) holds for an amount "10" but not for "100", so a
      rule on it leaves an amount "100" alone. */
  lemma EndAnchorExample(matchAt: (Pattern, string) -> bool)
    requires forall s :: matchAt("^10$", s) <==> s == "10" || s == "10\n"
    ensures RuleMatcher(matchAt, [[("amount", "^10$")]], map["amount" := Text("10")]) == Ok(true)
    ensures RuleMatcher(matchAt, [[("amount", "^10$")]], map["amount" := Text("100")]) == Ok(false)
  {
    assert "100" != "10" && "100" != "10\n";
    assert CheckMatching(matchAt, map["amount" := Text("10")], [("amount", "^10$")]) == Ok(true);
    assert CheckMatching(matchAt, map["amount" := Text("100")], [("amount", "^10$")]) == Ok(false);
  }
}
