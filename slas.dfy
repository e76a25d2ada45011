/**
 * The SLAs blueprint: any signed-in user may list SLAs; creating, editing
 * and deleting one takes an admin. The two minute targets are read with
 * `int(value or 0)`, which raises on anything that is not a number.
 */
module Slas {
  import opened Options
  import opened Text
  import opened Numerals
  import opened Web
  import opened Ordering

  const NameRequired: string := "Name is required."

  datatype Sla = Sla(name: string, responseMins: int, resolveMins: int)

  datatype SlaForm = SlaForm(name: Option<string>, responseMins: Option<string>, resolveMins: Option<string>)

  /**
   * `int(value or 0)`: a missing or empty field is 0, a sent one is what
   * int() makes of it, and None stands for the ValueError int() raises,
   * which only a sent, non-empty field can cause.
   */
  function ParseMinutes(v: Option<string>): (m: Option<int>)
    ensures v.None? || v.value == "" ==> m == Some(0)
    ensures v.Some? && v.value != "" ==> m == ParseInt(v.value)
    ensures m.None? ==> v.Some? && v.value != "" && (!IsNumeral(Strip(v.value)) || !NoSeparator(v.value) || DigitCount(Strip(v.value)) > MaxStrDigits)
  {
    if v.None? || v.value == "" then Some(0) else ParseInt(v.value)
  }

  /**
   * Any integer's numeral within int()'s digit limit is accepted as is:
   * there is no lower bound, negative targets included.
   */
  lemma NumeralMinutesAccepted(n: int)
    requires WithinDigitLimit(n)
    ensures ParseMinutes(Some(FormatInt(n))) == Some(n)
  {
    ParseFormatRoundTrip(n);
  }

  /** Whitespace alone is not empty, so it reaches int() and raises. */
  lemma WhitespaceMinutesRaise(s: string)
    requires s != [] && AllSpace(s)
    ensures ParseMinutes(Some(s)) == None
  {
    BlankIsNotNumber(s);
  }

  function NameOf(s: Sla): string {
    s.name
  }

  class SlaTable {
    var rows: map<nat, Sla>
    var nextId: nat

    ghost predicate Valid()
      reads this
    {
      forall id :: id in rows ==> id < nextId
    }

    constructor ()
      ensures Valid() && rows == map[]
    {
      rows := map[];
      nextId := 0;
    }

    /** GET /slas/: every SLA, ordered by name. */
    method Index(who: Principal) returns (page: Page)
      ensures who.Anonymous? ==> page == LoginRedirect
      ensures who.Member? ==> page.Shown? && Enumerates(page.ids, rows.Keys)
      ensures who.Member? ==> page.Shown? && SortedBy(page.ids, Column(rows, NameOf), LexLeq)
    {
      if who.Anonymous? {
        return LoginRedirect;
      }
      ByNameIsTotalPreorder();
      var ids := OrderBy(Column(rows, NameOf), LexLeq);
      page := Shown(ids);
    }

    /**
     * POST /slas/create. Both minute fields are parsed before the name is
     * looked at, so a bad number fails the request even when the name is empty.
     */
    method Create(who: Principal, form: SlaForm) returns (outcome: Outcome)
      requires Valid()
      modifies this
      ensures Valid()
      ensures who.Anonymous? ==> outcome == LoginRequired && rows == old(rows)
      ensures who.Member? && !who.isAdmin ==> outcome == Forbidden && rows == old(rows)
      ensures who.Member? && who.isAdmin ==>
        var resp, reso := ParseMinutes(form.responseMins), ParseMinutes(form.resolveMins);
        if resp.None? || reso.None? then
          outcome == Crashed && rows == old(rows)
        else if Field(form.name) == [] then
          outcome == Invalid(NameRequired) && rows == old(rows)
        else
          && outcome.Saved? && outcome.id !in old(rows)
          && rows == old(rows)[outcome.id := Sla(Field(form.name), resp.value, reso.value)]
    {
      if who.Anonymous? {
        return LoginRequired;
      }
      if !who.isAdmin {
        return Forbidden;
      }
      var name := Field(form.name);
      var resp := ParseMinutes(form.responseMins);
      if resp.None? {
        return Crashed;
      }
      var reso := ParseMinutes(form.resolveMins);
      if reso.None? {
        return Crashed;
      }
      if name == [] {
        return Invalid(NameRequired);
      }
      var id := nextId;
      rows := rows[id := Sla(name, resp.value, reso.value)];
      nextId := nextId + 1;
      outcome := Saved(id);
    }

    /**
     * POST /slas/<id>/edit: overwrites the name and both targets; the name is
     * not re-checked, and a bad number fails the request before the commit.
     */
    method Edit(who: Principal, id: nat, form: SlaForm) returns (outcome: Outcome)
      requires Valid()
      modifies this
      ensures Valid()
      ensures who.Anonymous? ==> outcome == LoginRequired && rows == old(rows)
      ensures who.Member? && !who.isAdmin ==> outcome == Forbidden && rows == old(rows)
      ensures who.Member? && who.isAdmin && id !in old(rows) ==> outcome == NotFound && rows == old(rows)
      ensures who.Member? && who.isAdmin && id in old(rows) ==>
        var resp, reso := ParseMinutes(form.responseMins), ParseMinutes(form.resolveMins);
        if resp.None? || reso.None? then
          outcome == Crashed && rows == old(rows)
        else
          outcome == Saved(id) && rows == old(rows)[id := Sla(Field(form.name), resp.value, reso.value)]
    {
      if who.Anonymous? {
        return LoginRequired;
      }
      if !who.isAdmin {
        return Forbidden;
      }
      if id !in rows {
        return NotFound;
      }
      var sla := rows[id];
      sla := sla.(name := Field(form.name));
      var resp := ParseMinutes(form.responseMins);
      if resp.None? {
        return Crashed;  // the assignment above is never committed
      }
      sla := sla.(responseMins := resp.value);
      var reso := ParseMinutes(form.resolveMins);
      if reso.None? {
        return Crashed;
      }
      sla := sla.(resolveMins := reso.value);
      rows := rows[id := sla];
      outcome := Saved(id);
    }

    /** POST /slas/<id>/delete: no check for incidents that still refer to the SLA. */
    method Delete(who: Principal, id: nat) returns (outcome: Outcome)
      requires Valid()
      modifies this
      ensures Valid()
      ensures who.Anonymous? ==> outcome == LoginRequired && rows == old(rows)
      ensures who.Member? && !who.isAdmin ==> outcome == Forbidden && rows == old(rows)
      ensures who.Member? && who.isAdmin && id !in old(rows) ==> outcome == NotFound && rows == old(rows)
      ensures who.Member? && who.isAdmin && id in old(rows) ==>
        outcome == Deleted(id) && rows == old(rows) - {id}
    {
      if who.Anonymous? {
        return LoginRequired;
      }
      if !who.isAdmin {
        return Forbidden;
      }
      if id !in rows {
        return NotFound;
      }
      rows := rows - {id};
      outcome := Deleted(id);
    }
  }

  /** An admin can store an SLA with a negative target: nothing bounds the minutes from below. */
  method NegativeTargetStored(name: string, n: int) returns (created: Outcome, stored: Sla)
    requires Strip(name) != [] && n < 0 && WithinDigitLimit(n)
    ensures created.Saved?
    ensures stored == Sla(Strip(name), n, 0)
  {
    var table := new SlaTable();
    NumeralMinutesAccepted(n);
    created := table.Create(Member(0, true), SlaForm(Some(name), Some(FormatInt(n)), None));
    stored := table.rows[created.id];
  }
}
