/**
 * The incidents blueprint. Any signed-in user may create incidents; admins
 * see and edit every incident, other users only the ones they created;
 * only admins delete.
 */
module Incidents {
  import opened Options
  import opened Text
  import opened Numerals
  import opened Web
  import opened Ordering

  const DetailsRequired: string := "Title, Client and SLA are required."
  const DefaultPriority: string := "Low"
  const DefaultStatus: string := "Open"

  /** Timestamps from datetime.utcnow(), as a number of ticks. */
  type Timestamp = int

  datatype Incident = Incident(
    title: string, description: string, priority: string, status: string,
    clientId: int, slaId: int,
    createdBy: nat, createdAt: Timestamp, updatedAt: Timestamp)

  datatype IncidentForm = IncidentForm(
    title: Option<string>, description: Option<string>, priority: Option<string>,
    status: Option<string>, clientId: Option<string>, slaId: Option<string>)

  /** The editable fields of an incident, as read from a form. */
  datatype Details = Details(
    title: string, description: string, priority: string, status: string,
    clientId: int, slaId: int)

  /**
   * `_to_int(v, default)`: int(v), or the default where int() raises
   * TypeError (a missing field, int(None)) or ValueError (anything that is
   * not a numeral int() accepts). It never raises itself.
   */
  function ToInt(v: Option<string>, default: int): (n: int)
    ensures v.None? || !IsNumeral(Strip(v.value)) || !NoSeparator(v.value) ==> n == default
    ensures v.Some? && ParseInt(v.value).Some? ==> Some(n) == ParseInt(v.value)
    ensures n == default || (v.Some? && ParseInt(v.value) == Some(n))
  {
    if v.Some? && ParseInt(v.value).Some? then ParseInt(v.value).value else default
  }

  /** The numeral of any integer within int()'s digit limit reads back as that integer, whatever the default. */
  lemma ToIntReadsNumerals(n: int, default: int)
    requires WithinDigitLimit(n)
    ensures ToInt(Some(FormatInt(n)), default) == n
  {
    ParseFormatRoundTrip(n);
  }

  /**
   * How create and edit read the form: the four text fields stripped, a
   * blank title read as empty, "Low" and "Open" for a missing or empty
   * priority and status, and each id the integer int() reads, or 0.
   */
  function ReadDetails(form: IncidentForm): (d: Details)
    ensures Trimmed(d.title) && Trimmed(d.description) && Trimmed(d.priority) && Trimmed(d.status)
    ensures d.title == [] <==> form.title.None? || AllSpace(form.title.value)
    ensures form.priority.None? || form.priority.value == "" ==> d.priority == DefaultPriority
    ensures form.status.None? || form.status.value == "" ==> d.status == DefaultStatus
    ensures d.clientId != 0 <==> form.clientId.Some? && ParseInt(form.clientId.value).Some? && ParseInt(form.clientId.value).value != 0
    ensures d.slaId != 0 <==> form.slaId.Some? && ParseInt(form.slaId.value).Some? && ParseInt(form.slaId.value).value != 0
  {
    assert !IsSpace(DefaultPriority[0]) && !IsSpace(DefaultPriority[2]);
    assert !IsSpace(DefaultStatus[0]) && !IsSpace(DefaultStatus[3]);
    Details(
      Field(form.title), Field(form.description),
      FieldOr(form.priority, DefaultPriority), FieldOr(form.status, DefaultStatus),
      ToInt(form.clientId, 0), ToInt(form.slaId, 0))
  }

  /**
   * Priority and status ("Low" and "Open" by default): the default is used
   * exactly when the field is missing or empty; any other value is stored
   * stripped, so whitespace alone is stored as the empty string rather than
   * defaulted.
   */
  lemma DefaultOnlyForBlank(v: Option<string>, default: string)
    requires Trimmed(default)
    ensures v.None? || v.value == "" ==> FieldOr(v, default) == default
    ensures v.Some? && v.value != "" ==> FieldOr(v, default) == Strip(v.value)
    ensures v.Some? && v.value != "" && AllSpace(v.value) ==> FieldOr(v, default) == ""
  {
    StripKeepsTrimmed(default);
  }

  /** The required-field rule: a title, and client and SLA ids other than 0 (negative ids pass). */
  predicate Complete(d: Details) {
    d.title != [] && d.clientId != 0 && d.slaId != 0
  }

  /**
   * On the posted form, the rule asks for a title with a non-space character
   * and two ids that int() reads as integers other than 0; nothing checks
   * that the ids name a client or an SLA.
   */
  lemma CompleteIffFieldsGiven(form: IncidentForm)
    ensures Complete(ReadDetails(form)) <==>
      && form.title.Some? && !AllSpace(form.title.value)
      && form.clientId.Some? && ParseInt(form.clientId.value).Some? && ParseInt(form.clientId.value).value != 0
      && form.slaId.Some? && ParseInt(form.slaId.value).Some? && ParseInt(form.slaId.value).value != 0
  {
  }

  /** `_user_can_edit`: admins edit every incident, other users exactly the ones they created. */
  function CanEdit(who: Principal, inc: Incident): (ok: bool)
    requires who.Member?
    ensures who.isAdmin ==> ok
    ensures !who.isAdmin ==> (ok <==> inc.createdBy == who.id)
  {
    who.isAdmin || inc.createdBy == who.id
  }

  /** The list query's filter: none for admins, `created_by == current_user.id` otherwise. */
  function Listed(who: Principal, inc: Incident): (shown: bool)
    requires who.Member?
    ensures who.isAdmin ==> shown
    ensures !who.isAdmin ==> (shown <==> inc.createdBy == who.id)
  {
    if who.isAdmin then true else inc.createdBy == who.id
  }

  /** A signed-in user's list holds exactly the incidents they may edit. */
  lemma ListedIffEditable(who: Principal, inc: Incident)
    requires who.Member?
    ensures Listed(who, inc) <==> CanEdit(who, inc)
  {
  }

  /** The ids the list query selects: every id for an admin, the caller's own incidents otherwise. */
  function VisibleIds(who: Principal, rows: map<nat, Incident>): (ids: set<nat>)
    requires who.Member?
    ensures ids <= rows.Keys
    ensures who.isAdmin ==> ids == rows.Keys
    ensures !who.isAdmin ==> forall id :: id in rows ==> (id in ids <==> rows[id].createdBy == who.id)
  {
    set id | id in rows && Listed(who, rows[id])
  }

  function CreationTimes(who: Principal, rows: map<nat, Incident>): (times: map<nat, Timestamp>)
    requires who.Member?
    ensures times.Keys == VisibleIds(who, rows)
    ensures forall id :: id in times ==> times[id] == rows[id].createdAt
  {
    map id | id in rows && Listed(who, rows[id]) :: rows[id].createdAt
  }

  /** The record a successful edit commits: the form's fields and the new time; creator and creation time kept. */
  function Revised(inc: Incident, d: Details, now: Timestamp): (r: Incident)
    ensures r.createdBy == inc.createdBy && r.createdAt == inc.createdAt
    ensures Details(r.title, r.description, r.priority, r.status, r.clientId, r.slaId) == d
    ensures r.updatedAt == now
  {
    inc.(title := d.title, description := d.description, priority := d.priority, status := d.status,
         clientId := d.clientId, slaId := d.slaId, updatedAt := now)
  }

  class IncidentTable {
    var rows: map<nat, Incident>
    var nextId: nat

    ghost predicate Valid()
      reads this
    {
      forall id :: id in rows ==> id < nextId
    }

    constructor ()
      ensures Valid() && rows == map[]
    {
      rows := map[];
      nextId := 0;
    }

    /** GET /incidents/: the incidents the user may see, newest first. */
    method Index(who: Principal) returns (page: Page)
      ensures who.Anonymous? ==> page == LoginRedirect
      ensures who.Member? ==>
        && page.Shown?
        && Enumerates(page.ids, VisibleIds(who, rows))
        && (forall i, j :: 0 <= i < j < |page.ids| ==> rows[page.ids[i]].createdAt >= rows[page.ids[j]].createdAt)
    {
      if who.Anonymous? {
        return LoginRedirect;
      }
      NewestFirstIsTotalPreorder();
      var times := CreationTimes(who, rows);
      var ids := OrderBy(times, NewestFirst);
      page := Shown(ids);
    }

    /**
     * POST /incidents/create. `createdAt` and `updatedAt` are the two
     * separate readings of the clock the handler takes.
     */
    method Create(who: Principal, form: IncidentForm, createdAt: Timestamp, updatedAt: Timestamp)
      returns (outcome: Outcome)
      requires Valid()
      modifies this
      ensures Valid()
      ensures who.Anonymous? ==> outcome == LoginRequired && rows == old(rows)
      ensures who.Member? && !Complete(ReadDetails(form)) ==>
        outcome == Invalid(DetailsRequired) && rows == old(rows)
      ensures who.Member? && Complete(ReadDetails(form)) ==>
        var d := ReadDetails(form);
        && outcome.Saved? && outcome.id !in old(rows)
        && rows == old(rows)[outcome.id := Incident(d.title, d.description, d.priority, d.status,
                                                    d.clientId, d.slaId, who.id, createdAt, updatedAt)]
    {
      if who.Anonymous? {
        return LoginRequired;
      }
      var d := ReadDetails(form);
      if !Complete(d) {
        return Invalid(DetailsRequired);
      }
      var id := nextId;
      rows := rows[id := Incident(d.title, d.description, d.priority, d.status,
                                  d.clientId, d.slaId, who.id, createdAt, updatedAt)];
      nextId := nextId + 1;
      outcome := Saved(id);
    }

    /**
     * POST /incidents/<id>/edit. The ownership check comes before the form
     * is read; the fields are then assigned one by one and committed only if
     * the required-field rule holds.
     */
    method Edit(who: Principal, id: nat, form: IncidentForm, now: Timestamp) returns (outcome: Outcome)
      requires Valid()
      modifies this
      ensures Valid()
      ensures who.Anonymous? ==> outcome == LoginRequired && rows == old(rows)
      ensures who.Member? && id !in old(rows) ==> outcome == NotFound && rows == old(rows)
      ensures who.Member? && id in old(rows) && !CanEdit(who, old(rows)[id]) ==>
        outcome == Forbidden && rows == old(rows)
      ensures who.Member? && id in old(rows) && CanEdit(who, old(rows)[id]) && !Complete(ReadDetails(form)) ==>
        outcome == Invalid(DetailsRequired) && rows == old(rows)
      ensures who.Member? && id in old(rows) && CanEdit(who, old(rows)[id]) && Complete(ReadDetails(form)) ==>
        outcome == Saved(id) && rows == old(rows)[id := Revised(old(rows)[id], ReadDetails(form), now)]
    {
      if who.Anonymous? {
        return LoginRequired;
      }
      if id !in rows {
        return NotFound;
      }
      var inc := rows[id];
      if !CanEdit(who, inc) {
        return Forbidden;
      }
      inc := inc.(title := Field(form.title));
      inc := inc.(description := Field(form.description));
      inc := inc.(priority := FieldOr(form.priority, DefaultPriority));
      inc := inc.(status := FieldOr(form.status, DefaultStatus));
      inc := inc.(clientId := ToInt(form.clientId, 0));
      inc := inc.(slaId := ToInt(form.slaId, 0));
      inc := inc.(updatedAt := now);
      if !(inc.title != [] && inc.clientId != 0 && inc.slaId != 0) {
        return Invalid(DetailsRequired);  // the in-memory changes are never committed
      }
      rows := rows[id := inc];
      outcome := Saved(id);
    }

    /** POST /incidents/<id>/delete: admins only; being the creator is not enough. */
    method Delete(who: Principal, id: nat) returns (outcome: Outcome)
      requires Valid()
      modifies this
      ensures Valid()
      ensures who.Anonymous? ==> outcome == LoginRequired && rows == old(rows)
      ensures who.Member? && !who.isAdmin ==> outcome == Forbidden && rows == old(rows)
      ensures who.Member? && who.isAdmin && id !in old(rows) ==> outcome == NotFound && rows == old(rows)
      ensures who.Member? && who.isAdmin && id in old(rows) ==>
        outcome == Deleted(id) && rows == old(rows) - {id}
    {
      if who.Anonymous? {
        return LoginRequired;
      }
      if !who.isAdmin {
        return Forbidden;
      }
      if id !in rows {
        return NotFound;
      }
      rows := rows - {id};
      outcome := Deleted(id);
    }
  }

  /**
   * A regular user's new incident is in their own list and in an admin's,
   * not in another regular user's; the other user may not edit it, and its
   * creator may not delete it.
   */
  method OwnIncidentVisibility(owner: nat, other: nat, form: IncidentForm, t: Timestamp)
    returns (created: Outcome, mine: Page, theirs: Page, admins: Page, edit: Outcome, delete: Outcome)
    requires owner != other && Complete(ReadDetails(form))
    ensures created.Saved?
    ensures mine.Shown? && created.id in mine.ids
    ensures theirs.Shown? && created.id !in theirs.ids
    ensures admins.Shown? && created.id in admins.ids
    ensures edit == Forbidden && delete == Forbidden
  {
    var table := new IncidentTable();
    created := table.Create(Member(owner, false), form, t, t);
    mine := table.Index(Member(owner, false));
    theirs := table.Index(Member(other, false));
    admins := table.Index(Member(other, true));
    edit := table.Edit(Member(other, false), created.id, form, t);
    delete := table.Delete(Member(owner, false), created.id);
  }
}
