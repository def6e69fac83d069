/** What the express-validator rule sets have in common. A rule set becomes
    the list of errors it records, in chain order, each with its field; every
    validator of a chain runs (none bails), on the value the chain's
    sanitisers left. A missing field is validated as the empty string. The
    reply built from the list by `errors.mapped()` keeps the first error of
    each field. */
module Validation {
  datatype FieldError = FieldError(field: string, message: string)

  /** The length validator.js's `isLength` measures: code points, not
      counting the variation selectors U+FE0E and U+FE0F. */
  function LengthCount(s: string): (n: nat)
    ensures n <= |s|
    ensures (forall i :: 0 <= i < |s| ==> s[i] != '︎' && s[i] != '️') ==> n == |s|
  {
    if s == [] then 0
    else (if s[0] == '︎' || s[0] == '️' then 0 else 1) + LengthCount(s[1..])
  }

  /** One validator: no error when it holds. */
  function Check(holds: bool, field: string, message: string): (r: seq<FieldError>)
    ensures r == [] <==> holds
    ensures forall e :: e in r ==> e.field == field && e.message == message
  {
    if holds then [] else [FieldError(field, message)]
  }

  /** `errors.mapped()`: per field, the message of its first error. */
  function Mapped(errs: seq<FieldError>): (m: map<string, string>)
    ensures m.Keys == set e | e in errs :: e.field
  {
    if errs == [] then map[]
    else
      var rest := Mapped(errs[1..]);
      assert forall e :: e in errs <==> e == errs[0] || e in errs[1..];
      rest[errs[0].field := errs[0].message]
  }

  /** An error whose field no earlier error names gives that field's message. */
  lemma {:induction false} MappedKeepsFirst(errs: seq<FieldError>, i: nat)
    requires i < |errs|
    requires forall j :: 0 <= j < i ==> errs[j].field != errs[i].field
    ensures errs[i].field in Mapped(errs) && Mapped(errs)[errs[i].field] == errs[i].message
  {
    if i > 0 {
      MappedKeepsFirst(errs[1..], i - 1);
    }
  }
}
