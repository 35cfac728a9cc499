/**
 * What a request can end in, and the request inputs the validators look at.
 * Laravel turns a denied Gate or FormRequest authorization into 403, a route
 * binding that finds no row into 404, a failed validator into a 422 with one
 * message per field, and an exception thrown by a unique index into a 500.
 */
module Http {
  import opened Wrappers

  datatype Field = NameField | EmailField | RoleField | DescriptionField | PasswordField

  datatype Failure =
    | Forbidden                    // abort(403), Gate::authorize, FormRequest::authorize
    | NotFound                     // abort(404), route-model binding without a row
    | Invalid(fields: set<Field>)  // a validator failed on these fields
    | QuotaExceeded(limit: int)    // redirect to billing carrying the plan's task limit
    | Conflict                     // a unique index refused the insert

  datatype Result<+T> = Ok(value: T) | Err(failure: Failure)

  /** One request field as the validator sees it. */
  datatype Input = Absent | Null | Text(s: string) | NonString

  /** The characters PHP's trim() strips: space, tab, LF, CR, NUL and vertical tab. */
  predicate IsTrimmed(c: char) {
    c == ' ' || c == '\t' || c == '\n' || c == '\r' || c as int == 0 || c as int == 11
  }

  /** A string that is empty once trimmed. */
  predicate Blank(s: string) {
    forall i :: 0 <= i < |s| ==> IsTrimmed(s[i])
  }

  /** The `required` rule: present, not null, and not blank (arrays and numbers pass it). */
  predicate Required(i: Input) {
    match i
    case Absent => false
    case Null => false
    case Text(s) => !Blank(s)
    case NonString => true
  }

  /** `required|string|max:n` on one field. */
  predicate RequiredString(i: Input, n: nat) {
    Required(i) && i.Text? && |i.s| <= n
  }

  /** `nullable|string`: absent and null pass, any string passes. */
  predicate NullableString(i: Input) {
    !i.NonString?
  }

  /** The value stored for a `nullable` field: `$validated[f] ?? null`. */
  function OrNull(i: Input): (v: Option<string>)
    ensures v.Some? <==> i.Text?
    ensures i.Text? ==> v.value == i.s
  {
    if i.Text? then Some(i.s) else None
  }

  /** The `lowercase` rule over ASCII: no letter from A to Z. */
  predicate Lowercase(s: string) {
    forall i :: 0 <= i < |s| ==> !('A' <= s[i] <= 'Z')
  }
}
