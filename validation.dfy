/**
 * The request validators the routers declare (express-validator chains),
 * as data: a rule names a field, where it is read from, whether it is
 * optional, and the one check it must pass. `Errors` runs a list of rules
 * over a request and returns one `FieldError` per failing rule, in order;
 * a controller answers 400 exactly when that list is not empty.
 *
 * A check sees the field as text; an absent field reads as the empty text,
 * and an optional rule skips an absent field altogether.
 */
module Validation {
  import opened Http

  /**
   * The library checks this model leaves uninterpreted: `isEmail` and
   * `isISO8601`. Both reject the empty text (see `Holds`).
   */
  datatype Lib = Lib(isEmail: string -> bool, isIso8601: string -> bool)

  predicate IsDigit(c: char)
  {
    '0' <= c <= '9'
  }

  predicate AllDigits(s: string)
  {
    forall i :: 0 <= i < |s| ==> IsDigit(s[i])
  }

  /** The text `isInt` accepts: an optional sign, then one or more decimal digits (leading zeros allowed). */
  predicate IntText(s: string)
  {
    if |s| > 0 && (s[0] == '+' || s[0] == '-') then |s| > 1 && AllDigits(s[1..])
    else |s| > 0 && AllDigits(s)
  }

  function DigitsValue(d: string): nat
    requires AllDigits(d)
  {
    if d == [] then 0 else DigitsValue(d[..|d| - 1]) * 10 + (d[|d| - 1] as int - '0' as int)
  }

  /** The number an integer text denotes. */
  function ParseInt(s: string): int
    requires IntText(s)
  {
    if s[0] == '-' then -(DigitsValue(s[1..]) as int)
    else if s[0] == '+' then DigitsValue(s[1..])
    else DigitsValue(s)
  }

  /** An optional field read as an integer: `None` when absent or not integer text. */
  function ToInt(v: Option<string>): Option<int>
  {
    if v.Some? && IntText(v.value) then Some(ParseInt(v.value)) else None
  }

  function DigitChar(d: nat): char
    requires d < 10
  {
    ('0' as int + d) as char
  }

  /** Decimal rendering of a natural number, as a JSON number turns into text. */
  function ShowNat(n: nat): string
  {
    if n < 10 then [DigitChar(n)] else ShowNat(n / 10) + [DigitChar(n % 10)]
  }

  function ShowInt(n: int): string
  {
    if n < 0 then "-" + ShowNat(-n) else ShowNat(n)
  }

  lemma {:induction false} ShowNatDigits(n: nat)
    ensures |ShowNat(n)| > 0 && AllDigits(ShowNat(n)) && DigitsValue(ShowNat(n)) == n
  {
    if n >= 10 {
      ShowNatDigits(n / 10);
      var s := ShowNat(n);
      assert s[..|s| - 1] == ShowNat(n / 10);
    }
  }

  /** Every integer, rendered in decimal, is integer text that parses back to itself. */
  lemma ShowIntParses(n: int)
    ensures IntText(ShowInt(n)) && ParseInt(ShowInt(n)) == n
  {
    if n < 0 {
      ShowNatDigits(-n);
      assert ShowInt(n)[1..] == ShowNat(-n);
    } else {
      ShowNatDigits(n);
    }
  }

  /** The checks the routers use. */
  datatype Check =
    | NotEmpty              // notEmpty()
    | IsInt                 // isInt()
    | IntAtLeast(min: int)  // isInt({ min })
    | IsIn(options: seq<string>)  // isIn([...])
    | MinLength(least: nat) // isLength({ min })
    | IsEmail               // isEmail()
    | IsIso8601             // isISO8601()

  /** One validator chain: `body(field)` or `param(field)`, maybe `.optional()`, then one check. */
  datatype Rule = Rule(location: Location, field: string, optional: bool, check: Check)

  /** The text a check sees: an absent field reads as the empty text. */
  function Text(v: Option<string>): string
  {
    if v.Some? then v.value else ""
  }

  /** Variation selectors U+FE0E and U+FE0F, which `isLength` does not count. */
  predicate PresentationSelector(c: char)
  {
    c == '\U{FE0E}' || c == '\U{FE0F}'
  }

  /**
   * The length `isLength` measures: characters (a surrogate pair is one
   * character here already), leaving out the variation selectors.
   */
  function MeasuredLength(t: string): (n: nat)
    ensures n <= |t|
    ensures (forall i :: 0 <= i < |t| ==> !PresentationSelector(t[i])) ==> n == |t|
  {
    if t == [] then 0 else (if PresentationSelector(t[0]) then 0 else 1) + MeasuredLength(t[1..])
  }

  predicate Holds(c: Check, t: string, lib: Lib)
  {
    match c
    case NotEmpty => |t| > 0
    case IsInt => IntText(t)
    case IntAtLeast(min) => IntText(t) && ParseInt(t) >= min
    case IsIn(options) => t in options
    case MinLength(least) => MeasuredLength(t) >= least
    case IsEmail => |t| > 0 && lib.isEmail(t)
    case IsIso8601 => |t| > 0 && lib.isIso8601(t)
  }

  predicate Passes(rule: Rule, req: Request, lib: Lib)
  {
    var v := Field(req, rule.location, rule.field);
    (rule.optional && v.None?) || Holds(rule.check, Text(v), lib)
  }

  function ErrorOf(rule: Rule): FieldError
  {
    FieldError(rule.location, rule.field)
  }

  /** `validationResult(req).array()`: one error per failing rule, in declaration order. */
  function Errors(rules: seq<Rule>, req: Request, lib: Lib): (errs: seq<FieldError>)
    ensures |errs| <= |rules|
  {
    if rules == [] then []
    else (if Passes(rules[0], req, lib) then [] else [ErrorOf(rules[0])]) + Errors(rules[1..], req, lib)
  }

  /** The rules read only the body and the path parameters: the Authorization header plays no part. */
  lemma {:induction false} ErrorsIgnoreHeader(rules: seq<Rule>, req: Request, header: Option<string>, lib: Lib)
    ensures Errors(rules, req, lib) == Errors(rules, req.(authorization := header), lib)
  {
    if rules != [] {
      ErrorsIgnoreHeader(rules[1..], req, header, lib);
    }
  }

  /** A request is valid (no errors) exactly when every rule passes. */
  lemma {:induction false} ErrorsEmptyIff(rules: seq<Rule>, req: Request, lib: Lib)
    ensures Errors(rules, req, lib) == [] <==> forall i :: 0 <= i < |rules| ==> Passes(rules[i], req, lib)
  {
    if rules != [] {
      ErrorsEmptyIff(rules[1..], req, lib);
      assert forall i :: 1 <= i < |rules| ==> rules[i] == rules[1..][i - 1];
    }
  }

  /** The errors reported are exactly those of the failing rules. */
  lemma {:induction false} ErrorsReportFailing(rules: seq<Rule>, req: Request, lib: Lib, e: FieldError)
    ensures e in Errors(rules, req, lib) <==>
            exists i :: 0 <= i < |rules| && !Passes(rules[i], req, lib) && e == ErrorOf(rules[i])
  {
    if rules != [] {
      ErrorsReportFailing(rules[1..], req, lib, e);
      if e in Errors(rules[1..], req, lib) {
        var j :| 0 <= j < |rules[1..]| && !Passes(rules[1..][j], req, lib) && e == ErrorOf(rules[1..][j]);
        assert rules[j + 1] == rules[1..][j];
      }
      if exists i :: 0 <= i < |rules| && !Passes(rules[i], req, lib) && e == ErrorOf(rules[i]) {
        var i :| 0 <= i < |rules| && !Passes(rules[i], req, lib) && e == ErrorOf(rules[i]);
        if i > 0 {
          assert rules[1..][i - 1] == rules[i];
        }
      }
    }
  }

  /** An integer sent as a JSON number passes `isInt({ min })` exactly when it is at least `min`. */
  lemma IntAtLeastOnNumbers(n: int, min: int, lib: Lib)
    ensures Holds(IntAtLeast(min), ShowInt(n), lib) <==> n >= min
  {
    ShowIntParses(n);
  }
}
