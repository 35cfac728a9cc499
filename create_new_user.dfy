/**
 * Fortify's `CreateNewUser` action: self-registration validates the input,
 * creates a fresh organization named after the user, creates the user in
 * it, and makes the user an Admin. The framework's email format rule and
 * password rules are the parameters `isEmail` and `passwordOk`.
 */
module CreateNewUser {
  import opened Wrappers
  import opened Entities
  import opened Http
  import opened RoleEnum
  import D = Database

  const FieldMax: nat := 255

  /**
   * The fields that fail `name: required|string|max:255`,
   * `email: required|string|email|max:255|unique:users` and the password rules.
   */
  function Errors(users: seq<UserRow>, name: Input, email: Input, password: Input,
                  isEmail: string -> bool, passwordOk: Input -> bool): (bad: set<Field>)
    ensures bad <= {NameField, EmailField, PasswordField}
    ensures NameField !in bad <==> name.Text? && !Blank(name.s) && |name.s| <= FieldMax
    ensures EmailField !in bad <==>
      && email.Text? && !Blank(email.s) && |email.s| <= FieldMax && isEmail(email.s)
      && forall i :: 0 <= i < |users| ==> users[i].email != email.s
    ensures PasswordField !in bad <==> passwordOk(password)
  {
    (if RequiredString(name, FieldMax) then {} else {NameField})
    + (if RequiredString(email, FieldMax) && isEmail(email.s) && !D.EmailTaken(users, email.s) then {} else {EmailField})
    + (if passwordOk(password) then {} else {PasswordField})
  }

  /** The name of the organization a registration creates. */
  function OrganizationName(userName: string): (s: string)
    ensures |s| == |userName| + 15 && s[..|userName|] == userName && s[|userName|..] == "'s Organization"
  {
    userName + "'s Organization"
  }

  /** Different user names give different organization names. */
  lemma OrganizationNameInjective(a: string, b: string)
    requires OrganizationName(a) == OrganizationName(b)
    ensures a == b
  {
    assert |a| == |b|;
    assert a == OrganizationName(a)[..|a|];
  }

  /**
   * create: 422 on invalid input with nothing written; otherwise one new
   * organization without a subscription and one Admin user who belongs to it.
   */
  method Create(db: D.Db, name: Input, email: Input, password: Input,
                isEmail: string -> bool, passwordOk: Input -> bool) returns (r: Result<nat>)
    requires db.Valid()
    modifies db
    ensures db.Valid()
    ensures var bad := old(Errors(db.users, name, email, password, isEmail, passwordOk));
      && (bad != {} ==> r == Err(Invalid(bad)) && unchanged(db))
      && (bad == {} ==>
            var orgId := old(db.nextId);
            && r == Ok(orgId + 1)
            && db.organizations == old(db.organizations) + [OrganizationRow(orgId, OrganizationName(name.s), Billing(false, None))]
            && (forall k :: 0 <= k < |old(db.organizations)| ==> old(db.organizations)[k].id != orgId)
            && db.users == old(db.users) + [UserRow(orgId + 1, name.s, email.s, orgId, Admin, db.emailNotificationsDefault)]
            && db.KeepsExcept({D.OrganizationsTable, D.UsersTable}))
  {
    var bad := Errors(db.users, name, email, password, isEmail, passwordOk);
    if bad != {} {
      return Err(Invalid(bad));
    }
    var orgId := db.AddOrganization(OrganizationName(name.s), Billing(false, None));
    var userId := db.AddUser(name.s, email.s, orgId, Admin);
    r := Ok(userId.value);
  }
}
