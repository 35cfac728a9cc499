/**
 * The `InviteForm` Livewire component: three string properties bound to the
 * form, a permission check on mount and again on submit, and the same rules
 * as the invitation request.
 */
module InviteForm {
  import opened Wrappers
  import opened Entities
  import opened Http
  import opened RoleEnum
  import P = Permissions
  import D = Database
  import IR = InvitationRules

  predicate MayInvite(grants: P.Grants, actor: UserRow) {
    P.HasPermissionTo(grants, actor.role, P.Permission(P.Users, P.Create))
  }

  /**
   * rules() on the component's string properties. The properties are always
   * present and always strings, so `required|string` reduces to "not blank",
   * and `Rule::enum` to "parses as a role".
   */
  function Rules(users: seq<UserRow>, invitations: seq<InvitationRow>, orgId: nat,
                 name: string, email: string, role: string, isEmail: string -> bool): (bad: set<Field>)
    ensures bad <= {NameField, EmailField, RoleField}
    ensures NameField !in bad <==> !Blank(name) && |name| <= IR.FieldMax
    ensures EmailField !in bad <==>
      && !Blank(email) && |email| <= IR.FieldMax && Lowercase(email) && isEmail(email)
      && !D.EmailTaken(users, email) && !D.InvitedInOrganization(invitations, orgId, email)
    ensures RoleField !in bad <==> role == "admin" || role == "user" || role == "viewer"
  {
    (if !Blank(name) && |name| <= IR.FieldMax then {} else {NameField})
    + (if && !Blank(email) && |email| <= IR.FieldMax && Lowercase(email) && isEmail(email)
          && !D.EmailTaken(users, email) && !D.InvitedInOrganization(invitations, orgId, email)
       then {} else {EmailField})
    + (if TryFrom(role).Some? then {} else {RoleField})
  }

  class Form {
    var name: string
    var email: string
    var role: string

    constructor()
      ensures name == "" && email == "" && role == ""
    {
      name := "";
      email := "";
      role := "";
    }

    /** mount: 403 without users.create, otherwise the role defaults to 'user'. */
    method Mount(grants: P.Grants, actor: UserRow) returns (r: Result<()>)
      modifies this
      ensures !MayInvite(grants, actor) ==> r == Err(Forbidden) && unchanged(this)
      ensures MayInvite(grants, actor) ==>
        r == Ok(()) && role == Value(User) && name == old(name) && email == old(email)
    {
      if !MayInvite(grants, actor) {
        return Err(Forbidden);
      }
      role := Value(User);
      r := Ok(());
    }

    /**
     * submit: re-checks users.create, validates, then inserts one pending
     * invitation in the actor's organization carrying the form's values and
     * the generated token; any refusal leaves the tables as they were.
     */
    method Submit(db: D.Db, grants: P.Grants, actor: UserRow, isEmail: string -> bool, token: string, now: nat)
      returns (r: Result<nat>)
      requires db.Valid()
      modifies db
      ensures db.Valid()
      ensures r.Err? ==> unchanged(db)
      ensures !MayInvite(grants, actor) ==> r == Err(Forbidden)
      ensures var bad := old(Rules(db.users, db.invitations, actor.organizationId, name, email, role, isEmail));
        MayInvite(grants, actor) && bad != {} ==> r == Err(Invalid(bad))
      ensures (MayInvite(grants, actor)
               && old(Rules(db.users, db.invitations, actor.organizationId, name, email, role, isEmail)) == {}) ==>
        && (r.Err? <==> old(D.TokenUsed(db.invitations, token)))
        && (r.Err? ==> r.failure == Conflict)
        && (r.Ok? ==>
              && r.value == old(db.nextId)
              && TryFrom(role).Some?
              && db.invitations == old(db.invitations)
                   + [InvitationRow(r.value, actor.organizationId, name, email, TryFrom(role).value, token, None, now)]
              && db.KeepsExcept({D.InvitationsTable}))
    {
      if !MayInvite(grants, actor) {
        return Err(Forbidden);
      }
      var bad := Rules(db.users, db.invitations, actor.organizationId, name, email, role, isEmail);
      if bad != {} {
        return Err(Invalid(bad));
      }
      IR.ValuesEnumerate(Text(role));
      var id := db.AddInvitation(actor.organizationId, name, email, TryFrom(role).value, token, now);
      if id.None? {
        return Err(Conflict);
      }
      r := Ok(id.value);
    }
  }

  /** The form and the request accept and refuse the same values. */
  lemma FormMatchesRequest(grants: P.Grants, actor: UserRow, users: seq<UserRow>, invitations: seq<InvitationRow>,
                           name: string, email: string, role: string, isEmail: string -> bool)
    ensures MayInvite(grants, actor) == IR.Authorize(grants, Some(actor))
    ensures Rules(users, invitations, actor.organizationId, name, email, role, isEmail)
         == IR.Errors(users, invitations, actor.organizationId, Text(name), Text(email), Text(role), isEmail)
  {
    var form := Rules(users, invitations, actor.organizationId, name, email, role, isEmail);
    var request := IR.Errors(users, invitations, actor.organizationId, Text(name), Text(email), Text(role), isEmail);
    forall f | f in form ensures f in request {
      match f
      case NameField =>
      case EmailField =>
      case RoleField =>
    }
    forall f | f in request ensures f in form {
      match f
      case NameField =>
      case EmailField =>
      case RoleField =>
    }
  }
}
