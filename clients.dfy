/**
 * The clients blueprint: any signed-in user may list clients; creating,
 * editing and deleting one takes an admin.
 */
module Clients {
  import opened Options
  import opened Text
  import opened Web
  import opened Ordering

  const NameRequired: string := "Name is required."

  datatype Client = Client(name: string, sector: string, contactEmail: string)

  /** The posted form; a field the browser did not send is None. */
  datatype ClientForm = ClientForm(name: Option<string>, sector: Option<string>, contactEmail: Option<string>)

  /**
   * The three fields as the handlers store them: stripped, and otherwise
   * not checked; the name is empty exactly when it was missing or blank.
   */
  function ReadClient(form: ClientForm): (c: Client)
    ensures Trimmed(c.name) && Trimmed(c.sector) && Trimmed(c.contactEmail)
    ensures c.name == [] <==> form.name.None? || AllSpace(form.name.value)
  {
    Client(Field(form.name), Field(form.sector), Field(form.contactEmail))
  }

  function NameOf(c: Client): string {
    c.name
  }

  class ClientTable {
    var rows: map<nat, Client>
    var nextId: nat

    ghost predicate Valid()
      reads this
    {
      forall id :: id in rows ==> id < nextId
    }

    constructor ()
      ensures Valid() && rows == map[]
    {
      rows := map[];
      nextId := 0;
    }

    /** GET /clients/: every client, ordered by name. */
    method Index(who: Principal) returns (page: Page)
      ensures who.Anonymous? ==> page == LoginRedirect
      ensures who.Member? ==> page.Shown? && Enumerates(page.ids, rows.Keys)
      ensures who.Member? ==> page.Shown? && SortedBy(page.ids, Column(rows, NameOf), LexLeq)
    {
      if who.Anonymous? {
        return LoginRedirect;
      }
      ByNameIsTotalPreorder();
      var ids := OrderBy(Column(rows, NameOf), LexLeq);
      page := Shown(ids);
    }

    /** POST /clients/create. */
    method Create(who: Principal, form: ClientForm) returns (outcome: Outcome)
      requires Valid()
      modifies this
      ensures Valid()
      ensures who.Anonymous? ==> outcome == LoginRequired && rows == old(rows)
      ensures who.Member? && !who.isAdmin ==> outcome == Forbidden && rows == old(rows)
      ensures who.Member? && who.isAdmin && Field(form.name) == [] ==>
        outcome == Invalid(NameRequired) && rows == old(rows)
      ensures who.Member? && who.isAdmin && Field(form.name) != [] ==>
        && outcome.Saved? && outcome.id !in old(rows)
        && rows == old(rows)[outcome.id := ReadClient(form)]
    {
      if who.Anonymous? {
        return LoginRequired;
      }
      if !who.isAdmin {
        return Forbidden;
      }
      var name := Field(form.name);
      var sector := Field(form.sector);
      var contactEmail := Field(form.contactEmail);
      if name == [] {
        return Invalid(NameRequired);
      }
      var id := nextId;
      rows := rows[id := Client(name, sector, contactEmail)];
      nextId := nextId + 1;
      outcome := Saved(id);
    }

    /** POST /clients/<id>/edit: overwrites all three fields; the name is not re-checked. */
    method Edit(who: Principal, id: nat, form: ClientForm) returns (outcome: Outcome)
      requires Valid()
      modifies this
      ensures Valid()
      ensures who.Anonymous? ==> outcome == LoginRequired && rows == old(rows)
      ensures who.Member? && !who.isAdmin ==> outcome == Forbidden && rows == old(rows)
      ensures who.Member? && who.isAdmin && id !in old(rows) ==> outcome == NotFound && rows == old(rows)
      ensures who.Member? && who.isAdmin && id in old(rows) ==>
        outcome == Saved(id) && rows == old(rows)[id := ReadClient(form)]
    {
      if who.Anonymous? {
        return LoginRequired;
      }
      if !who.isAdmin {
        return Forbidden;
      }
      if id !in rows {
        return NotFound;
      }
      var client := rows[id];
      client := client.(name := Field(form.name));
      client := client.(sector := Field(form.sector));
      client := client.(contactEmail := Field(form.contactEmail));
      rows := rows[id := client];
      outcome := Saved(id);
    }

    /** POST /clients/<id>/delete: no check for incidents that still refer to the client. */
    method Delete(who: Principal, id: nat) returns (outcome: Outcome)
      requires Valid()
      modifies this
      ensures Valid()
      ensures who.Anonymous? ==> outcome == LoginRequired && rows == old(rows)
      ensures who.Member? && !who.isAdmin ==> outcome == Forbidden && rows == old(rows)
      ensures who.Member? && who.isAdmin && id !in old(rows) ==> outcome == NotFound && rows == old(rows)
      ensures who.Member? && who.isAdmin && id in old(rows) ==>
        outcome == Deleted(id) && rows == old(rows) - {id}
    {
      if who.Anonymous? {
        return LoginRequired;
      }
      if !who.isAdmin {
        return Forbidden;
      }
      if id !in rows {
        return NotFound;
      }
      rows := rows - {id};
      outcome := Deleted(id);
    }
  }

  /** An admin's edit can leave a client with an empty name, which Create would refuse. */
  method EditCanBlankName(name: string) returns (created: Outcome, edited: Outcome, stored: string)
    requires Strip(name) != []
    ensures created.Saved? && edited == Saved(created.id)
    ensures stored == []
  {
    var table := new ClientTable();
    var admin := Member(0, true);
    created := table.Create(admin, ClientForm(Some(name), None, None));
    assert AllSpace(" ");
    edited := table.Edit(admin, created.id, ClientForm(Some(" "), None, None));
    stored := table.rows[created.id].name;
  }
}
