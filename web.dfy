/**
 * What the route handlers share: the current identity, the outcome of a
 * request, and the way a form field is read.
 */
module Web {
  import opened Options
  import opened Text

  /** Flask-Login's current_user: nobody, or a signed-in user with an admin flag. */
  datatype Principal = Anonymous | Member(id: nat, isAdmin: bool)

  /**
   * The result of a mutating request. Only `Saved` and `Deleted` commit
   * anything; every other outcome leaves the tables as they were.
   */
  datatype Outcome =
    | Saved(id: nat)               // committed, redirect to the list
    | Deleted(id: nat)             // row removed, redirect to the list
    | LoginRequired                // @login_required: redirect to the login page
    | Forbidden                    // HTTP 403
    | NotFound                     // HTTP 404 from get_or_404
    | Invalid(message: string)     // form re-rendered with this flashed message
    | Crashed                      // uncaught exception: HTTP 500, session rolled back

  /** The result of a list request. */
  datatype Page = LoginRedirect | Shown(ids: seq<nat>)

  /**
   * `form.get(name, "")`: a missing field reads as the empty string. It is
   * the same as `form.get(name) or ""`, the other spelling the handlers use.
   */
  function OrEmpty(v: Option<string>): (s: string)
    ensures s == OrDefault(v, "")
  {
    if v.Some? then v.value else ""
  }

  /** `value or default`: a missing or empty field reads as the default. */
  function OrDefault(v: Option<string>, default: string): (r: string)
    ensures v.Some? && v.value != "" ==> r == v.value
    ensures (v.None? || v.value == "") ==> r == default
  {
    if v.Some? && v.value != "" then v.value else default
  }

  /**
   * `(form.get(name) or default).strip()`: a sent, non-empty value is
   * stripped; otherwise the default is, so the default stands as it is
   * when it has no whitespace at either end.
   */
  function FieldOr(v: Option<string>, default: string): (s: string)
    ensures Trimmed(s)
    ensures v.Some? && v.value != "" ==> s == Strip(v.value)
    ensures (v.None? || v.value == "") && Trimmed(default) ==> s == default
  {
    assert Trimmed(default) ==> Strip(default) == default by {
      if Trimmed(default) {
        StripKeepsTrimmed(default);
      }
    }
    Strip(OrDefault(v, default))
  }

  /**
   * `(form.get(name) or "").strip()`, equally `form.get(name, "").strip()`:
   * no whitespace at either end, and empty exactly when the field is missing
   * or blank.
   */
  function Field(v: Option<string>): (s: string)
    ensures Trimmed(s)
    ensures s == [] <==> v.None? || AllSpace(v.value)
  {
    Strip(OrEmpty(v))
  }
}
