/**
 * The field checks the routes chain with express-validator, and the order in which their
 * failures are collected. A chain such as `body("price").isNumeric().notEmpty()` becomes one
 * `Rule` per check; every rule of every chain runs, nothing stops at the first failure, and
 * each failure adds one error, in declaration order.
 */
module Validator {
  import opened Requests

  /** The checks the routes use; `Positive` is the custom check `value > 0`. */
  datatype Check = IsInt | NotEmpty | IsNumeric | Positive | IsBoolean

  /**
   * Whether `v` passes `c`. The library turns the value into text before most checks (absent
   * reads as the empty text, a boolean as "true" or "false"), so text that is not a numeral is
   * never an integer or numeric. The custom check is JavaScript's `value > 0`: true for a
   * positive number and for the boolean true, false for an absent field; text is taken to
   * fail it, which JavaScript's own conversion does not always do (" 5" and "1e3" pass there).
   */
  function Passes(c: Check, v: Value): (ok: bool)
    ensures v.Missing? ==> !ok
    ensures ok && (c == IsInt || c == IsNumeric) ==> v.Num?
    ensures c == NotEmpty && (v.Num? || v.Bool?) ==> ok
    ensures ok && c == Positive ==> v.Num? || v == Bool(true)
    ensures ok && c == IsBoolean ==>
              v.Bool? || v == Num(0) || v == Num(100) || v == Str("true") || v == Str("false")
  {
    match c
    case IsInt => v.Num? && v.hundredths % 100 == 0
    case NotEmpty => !v.Missing? && v != Str("")
    case IsNumeric => v.Num?
    case Positive => (
      match v
      case Num(h) => h > 0
      case Bool(b) => b
      case _ => false)
    case IsBoolean => (
      match v
      case Bool(_) => true
      case Num(h) => h == 0 || h == 100
      case Str(s) => s == "true" || s == "false"
      case Missing => false)
  }

  /** The message express-validator gives a check that has no `withMessage` of its own. */
  const DefaultMessage := "Invalid value"

  /** One check on one field, with the message its failure reports. */
  datatype Rule = Rule(location: Location, field: string, check: Check, message: string)

  /** One entry of the `errors` array: where, which field, the message and the value seen. */
  datatype ValidationError = ValidationError(location: Location, path: string, msg: string, value: Value)

  predicate Satisfied(rule: Rule, req: Request) {
    Passes(rule.check, Read(req, rule.location, rule.field))
  }

  /** The error `rule` reports when it fails on `req`. */
  function ErrorFor(rule: Rule, req: Request): ValidationError {
    ValidationError(rule.location, rule.field, rule.message, Read(req, rule.location, rule.field))
  }

  /** What one rule adds to the error list: nothing when it holds, its own error when it fails. */
  function Report(rule: Rule, req: Request): seq<ValidationError> {
    if Satisfied(rule, req) then [] else [ErrorFor(rule, req)]
  }

  /** The errors of running every rule of `rules` on `req`, in the order the rules are declared. */
  function Validate(rules: seq<Rule>, req: Request): (errors: seq<ValidationError>)
    ensures |errors| <= |rules|
  {
    if rules == [] then []
    else Report(rules[0], req) + Validate(rules[1..], req)
  }

  /**
   * No error exactly when every rule holds, and every error reported is the error of a rule
   * that fails.
   */
  lemma {:induction false} ValidateSound(rules: seq<Rule>, req: Request)
    ensures Validate(rules, req) == [] <==> forall i :: 0 <= i < |rules| ==> Satisfied(rules[i], req)
    ensures forall e :: e in Validate(rules, req) ==>
              exists i :: 0 <= i < |rules| && !Satisfied(rules[i], req) && e == ErrorFor(rules[i], req)
  {
    if rules != [] {
      ValidateSound(rules[1..], req);
      assert forall i :: 1 <= i < |rules| ==> rules[i] == rules[1..][i - 1];
      forall e | e in Validate(rules, req)
        ensures exists i :: 0 <= i < |rules| && !Satisfied(rules[i], req) && e == ErrorFor(rules[i], req)
      {
        if e !in Validate(rules[1..], req) {
          assert !Satisfied(rules[0], req) && e == ErrorFor(rules[0], req);
        } else {
          var j :| 0 <= j < |rules[1..]| && !Satisfied(rules[1..][j], req) && e == ErrorFor(rules[1..][j], req);
          assert rules[j + 1] == rules[1..][j];
        }
      }
    }
  }

  /** The first rule's error, if any, comes before the errors of the rest. */
  lemma ValidateCons(rule: Rule, rest: seq<Rule>, req: Request)
    ensures Validate([rule] + rest, req) == Report(rule, req) + Validate(rest, req)
  {
    assert ([rule] + rest)[1..] == rest;
  }

  /** The errors of one rule alone. */
  lemma ValidateOne(rule: Rule, req: Request)
    ensures Validate([rule], req) == Report(rule, req)
  {
    assert [rule][1..] == [];
  }

  /**
   * Chains accumulate: validating `a` and then `b` reports the errors of `a` followed by
   * those of `b`, whatever either finds.
   */
  lemma {:induction false} ValidateAppend(a: seq<Rule>, b: seq<Rule>, req: Request)
    ensures Validate(a + b, req) == Validate(a, req) + Validate(b, req)
  {
    if a == [] {
      assert a + b == b;
    } else {
      var head, tail := a[0], a[1..];
      assert a == [head] + tail;
      assert a + b == [head] + (tail + b);
      ValidateCons(head, tail + b, req);
      ValidateCons(head, tail, req);
      ValidateAppend(tail, b, req);
      var r, t, u := Report(head, req), Validate(tail, req), Validate(b, req);
      assert r + (t + u) == (r + t) + u;
    }
  }

  /** Only the fields the rules name matter: requests that agree on them get the same errors. */
  lemma {:induction false} ValidateReadsOnlyRuleFields(rules: seq<Rule>, req: Request, req': Request)
    requires forall i :: 0 <= i < |rules| ==>
               Read(req, rules[i].location, rules[i].field) == Read(req', rules[i].location, rules[i].field)
    ensures Validate(rules, req) == Validate(rules, req')
  {
    if rules != [] {
      ValidateReadsOnlyRuleFields(rules[1..], req, req');
    }
  }
}
