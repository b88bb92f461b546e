/** The express-validator checks the routes attach: each `body(field)` chain
    is a middleware that records an error on the request when its check fails
    and always calls next(); validationResult(req) reads the errors back. */
module Validation {
  import opened JsBuiltins
  import opened Http

  /** isLength({ min, max }), isEmail(), exists() on one body field. */
  datatype Rule =
    | Length(field: Field, min: nat, max: Option<nat>)
    | IsEmail(field: Field)
    | Exists(field: Field)

  function FieldValue(b: Body, f: Field): Option<string> {
    match f
    case Title => b.title
    case Content => b.content
    case Name => b.name
    case Email => b.email
    case Password => b.password
  }

  /** Whether the field passes the rule. The standard validators read an
      absent field as the empty string; exists() fails only on an absent one.
      isEmail's grammar belongs to validator.js and is a parameter here. */
  predicate Passes(r: Rule, b: Body, isEmail: string -> bool)
    ensures r.Length? && r.min >= 1 && FieldValue(b, r.field).None? ==> !Passes(r, b, isEmail)
    ensures r.Length? && r.min == 0 && r.max.None? ==> Passes(r, b, isEmail)
    ensures r.Exists? ==> (Passes(r, b, isEmail) <==> FieldValue(b, r.field).Some?)
  {
    var v := FieldValue(b, r.field);
    match r
    case Length(_, min, max) =>
      var n := |v.GetOr("")|;
      min <= n && (max.None? || n <= max.value)
    case IsEmail(_) => isEmail(v.GetOr(""))
    case Exists(_) => v.Some?
  }

  /** The errors a sequence of chains records, in chain order. */
  function Errors(rules: seq<Rule>, b: Body, isEmail: string -> bool): (es: seq<FieldError>)
    ensures |es| <= |rules|
    ensures es == [] <==> forall i :: 0 <= i < |rules| ==> Passes(rules[i], b, isEmail)
    ensures forall e :: e in es ==> exists i :: 0 <= i < |rules| && rules[i].field == e.field && !Passes(rules[i], b, isEmail)
  {
    if rules == [] then []
    else
      var rest := Errors(rules[1..], b, isEmail);
      assert forall e :: e in rest ==> exists i :: 1 <= i < |rules| && rules[i].field == e.field && !Passes(rules[i], b, isEmail) by {
        forall e | e in rest
          ensures exists i :: 1 <= i < |rules| && rules[i].field == e.field && !Passes(rules[i], b, isEmail)
        {
          var i :| 0 <= i < |rules[1..]| && rules[1..][i].field == e.field && !Passes(rules[1..][i], b, isEmail);
          assert rules[i + 1] == rules[1..][i];
        }
      }
      (if Passes(rules[0], b, isEmail) then [] else [FieldError(rules[0].field)]) + rest
  }

  /** A validation chain as a middleware. */
  method Check(req: Request, r: Rule, isEmail: string -> bool) returns (o: Outcome)
    modifies req
    ensures o == Next && req.user == old(req.user)
    ensures req.errors == old(req.errors) + Errors([r], req.body, isEmail)
  {
    if !Passes(r, req.body, isEmail) {
      req.errors := req.errors + [FieldError(r.field)];
    }
    o := Next;
  }
}
