/**
 * `StoreInvitationRequest`: who may invite, and which name, email and role
 * an invitation may carry. The email format rule is the framework's and is
 * a parameter here (`isEmail`).
 */
module InvitationRules {
  import opened Wrappers
  import opened Entities
  import opened Http
  import opened RoleEnum
  import P = Permissions
  import D = Database

  /** `max:255` on name and email. */
  const FieldMax: nat := 255

  /** authorize: false without an authenticated user, otherwise whether the user holds users.create. */
  function Authorize(grants: P.Grants, actor: Option<UserRow>): (ok: bool)
    ensures ok <==> actor.Some? && P.Permission(P.Users, P.Create) in grants(actor.value.role)
  {
    match actor
    case None => false
    case Some(u) => P.HasPermissionTo(grants, u.role, P.Permission(P.Users, P.Create))
  }

  /** `email: required|string|lowercase|email|max:255|unique:users|unique:invitations,email` scoped to the organization. */
  predicate EmailAllowed(users: seq<UserRow>, invitations: seq<InvitationRow>, orgId: nat, email: Input,
                         isEmail: string -> bool) {
    && RequiredString(email, FieldMax)
    && Lowercase(email.s)
    && isEmail(email.s)
    && !D.EmailTaken(users, email.s)
    && !D.InvitedInOrganization(invitations, orgId, email.s)
  }

  /**
   * The fields that fail the rules, for an actor of organization `orgId`.
   * The invitation check covers accepted invitations as well as pending ones.
   */
  function Errors(users: seq<UserRow>, invitations: seq<InvitationRow>, orgId: nat,
                  name: Input, email: Input, role: Input, isEmail: string -> bool): (bad: set<Field>)
    ensures bad <= {NameField, EmailField, RoleField}
    ensures NameField !in bad <==> name.Text? && !Blank(name.s) && |name.s| <= FieldMax
    ensures EmailField !in bad <==>
      && email.Text? && !Blank(email.s) && |email.s| <= FieldMax
      && Lowercase(email.s) && isEmail(email.s)
      && (forall i :: 0 <= i < |users| ==> users[i].email != email.s)
      && (forall i :: 0 <= i < |invitations| ==>
            invitations[i].organizationId != orgId || invitations[i].email != email.s)
    ensures RoleField !in bad <==> role.Text? && role.s in {"admin", "user", "viewer"}
  {
    ValuesEnumerate(role);
    (if RequiredString(name, FieldMax) then {} else {NameField})
    + (if EmailAllowed(users, invitations, orgId, email, isEmail) then {} else {EmailField})
    + (if Required(role) && role.Text? && TryFrom(role.s).Some? then {} else {RoleField})
  }

  /** `Rule::enum(RoleEnum::class)` accepts exactly the three backing values. */
  lemma ValuesEnumerate(role: Input)
    ensures role.Text? && TryFrom(role.s).Some? <==> role.Text? && role.s in {"admin", "user", "viewer"}
    ensures role.Text? && TryFrom(role.s).Some? ==> Required(role)
  {
    if role.Text? && TryFrom(role.s).Some? {
      var r := TryFrom(role.s).value;
      assert Value(r) == role.s;
      assert role.s[0] != ' ' && !IsTrimmed(role.s[0]);
    }
  }

  /** A valid request's role, as a case of the enum. */
  function ValidatedRole(role: Input): (r: Role)
    requires role.Text? && TryFrom(role.s).Some?
    ensures Value(r) == role.s
  {
    TryFrom(role.s).value
  }

  /** An email already invited into the organization is refused even when that invitation was accepted. */
  lemma AcceptedInvitationStillBlocks(users: seq<UserRow>, invitations: seq<InvitationRow>, orgId: nat,
                                      name: Input, role: Input, isEmail: string -> bool, i: nat)
    requires i < |invitations| && invitations[i].organizationId == orgId && invitations[i].acceptedAt.Some?
    ensures EmailField in Errors(users, invitations, orgId, name, Text(invitations[i].email), role, isEmail)
  {
    assert !(invitations[i].organizationId != orgId || invitations[i].email != invitations[i].email);
  }

  /** An email invited by another organization only does not block an invitation. */
  lemma OtherOrganizationsInvitationsDoNotBlock(users: seq<UserRow>, invitations: seq<InvitationRow>, orgId: nat,
                                                name: Input, email: string, role: Input, isEmail: string -> bool)
    requires forall i :: 0 <= i < |invitations| ==> invitations[i].email == email ==> invitations[i].organizationId != orgId
    requires !Blank(email) && |email| <= FieldMax && Lowercase(email) && isEmail(email)
    requires forall i :: 0 <= i < |users| ==> users[i].email != email
    ensures EmailField !in Errors(users, invitations, orgId, name, Text(email), role, isEmail)
  {
  }

  /**
   * What passes validation also passes the table's unique (organization_id, email)
   * index, so only a token collision can still refuse the insert.
   */
  lemma ValidPassesUniqueIndex(users: seq<UserRow>, invitations: seq<InvitationRow>, orgId: nat,
                               name: Input, email: Input, role: Input, isEmail: string -> bool)
    requires Errors(users, invitations, orgId, name, email, role, isEmail) == {}
    ensures email.Text? && !D.InvitedInOrganization(invitations, orgId, email.s)
    ensures !D.EmailTaken(users, email.s)
  {
  }
}
