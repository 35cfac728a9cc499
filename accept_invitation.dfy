/**
 * The `AcceptInvitation` Livewire component. Mounting refuses (404) an
 * invitation that is already accepted or whose email already belongs to a
 * user. Accepting re-reads the invitation by id, validates the password,
 * creates the user with the invitation's name, email, organization and role,
 * and stamps `accepted_at`. The password rule of the framework
 * (`Password::defaults()`) is the parameter `strong`.
 */
module AcceptInvitation {
  import opened Wrappers
  import opened Entities
  import opened Http
  import D = Database
  import S = Sorting

  /** The guards of mount, after route-model binding has looked the invitation up. */
  function MountCheck(users: seq<UserRow>, invitations: seq<InvitationRow>, invitationId: nat): (r: Result<nat>)
    ensures r.Err? ==> r.failure == NotFound
    ensures r.Ok? <==>
      && D.FindInvitation(invitations, invitationId).Some?
      && invitations[D.FindInvitation(invitations, invitationId).value].acceptedAt.None?
      && !D.EmailTaken(users, invitations[D.FindInvitation(invitations, invitationId).value].email)
    ensures r.Ok? ==> r.value == D.FindInvitation(invitations, invitationId).value
  {
    match D.FindInvitation(invitations, invitationId)
    case None => Err(NotFound)
    case Some(i) =>
      if invitations[i].acceptedAt.Some? then Err(NotFound)
      else if D.EmailTaken(users, invitations[i].email) then Err(NotFound)
      else Ok(i)
  }

  /** `password: required|string|confirmed|Password::defaults()`. */
  predicate PasswordAccepted(password: string, confirmation: string, strong: string -> bool) {
    !Blank(password) && confirmation == password && strong(password)
  }

  /** Stamping one invitation does not move any invitation's position. */
  lemma FindAfterStamp(invitations: seq<InvitationRow>, i: nat, id: nat, now: nat)
    requires D.FindInvitation(invitations, id) == Some(i)
    ensures D.FindInvitation(invitations[i := invitations[i].(acceptedAt := Some(now))], id) == Some(i)
  {
    var after := invitations[i := invitations[i].(acceptedAt := Some(now))];
    var p := (v: InvitationRow) => v.id == id;
    assert forall k :: 0 <= k < |after| ==> p(after[k]) == p(invitations[k]);
    S.FirstWhereSame(invitations, after, p);
  }

  class Component {
    /** The key of the bound invitation; Livewire reloads the row from it on every request. */
    const invitationId: nat
    var password: string
    var passwordConfirmation: string

    constructor(invitationId: nat)
      ensures this.invitationId == invitationId && password == "" && passwordConfirmation == ""
    {
      this.invitationId := invitationId;
      password := "";
      passwordConfirmation := "";
    }

    /**
     * accept. A missing invitation is 404 and a refused password is 422, both
     * before any write. Otherwise the user is inserted (a duplicate email is
     * refused by the users.email unique index) and the invitation stamped.
     * Afterwards mount refuses the invitation, and the email is taken, so no
     * later accept can create a second user from it.
     */
    method Accept(db: D.Db, strong: string -> bool, now: nat) returns (r: Result<nat>)
      requires db.Valid()
      modifies db
      ensures db.Valid()
      ensures r.Err? ==> unchanged(db)
      ensures old(D.FindInvitation(db.invitations, invitationId)).None? ==> r == Err(NotFound)
      ensures old(D.FindInvitation(db.invitations, invitationId)).Some? ==>
        var i := old(D.FindInvitation(db.invitations, invitationId)).value;
        var v := old(db.invitations[i]);
        && (!PasswordAccepted(password, passwordConfirmation, strong) ==> r == Err(Invalid({PasswordField})))
        && (PasswordAccepted(password, passwordConfirmation, strong) && old(D.EmailTaken(db.users, v.email)) ==>
              r == Err(Conflict))
        && (r.Ok? ==>
              && r.value == old(db.nextId)
              && db.users == old(db.users) + [UserRow(r.value, v.name, v.email, v.organizationId, v.role, db.emailNotificationsDefault)]
              && db.invitations == old(db.invitations)[i := v.(acceptedAt := Some(now))]
              && db.KeepsExcept({D.UsersTable, D.InvitationsTable})
              && MountCheck(db.users, db.invitations, invitationId) == Err(NotFound)
              && D.EmailTaken(db.users, v.email))
      ensures r.Ok? <==>
        && old(D.FindInvitation(db.invitations, invitationId)).Some?
        && PasswordAccepted(password, passwordConfirmation, strong)
        && !old(D.EmailTaken(db.users, db.invitations[D.FindInvitation(db.invitations, invitationId).value].email))
    {
      var found := D.FindInvitation(db.invitations, invitationId);
      if found.None? {
        return Err(NotFound);
      }
      var i := found.value;
      var v := db.invitations[i];
      if !PasswordAccepted(password, passwordConfirmation, strong) {
        return Err(Invalid({PasswordField}));
      }
      var id := db.AddUser(v.name, v.email, v.organizationId, v.role);
      if id.None? {
        return Err(Conflict);
      }
      ghost var users := db.users;
      assert users[|users| - 1].email == v.email;
      db.StampAccepted(i, now);
      FindAfterStamp(old(db.invitations), i, invitationId, now);
      r := Ok(id.value);
    }
  }

  /** mount: the guards, then a fresh component bound to the invitation with empty password fields. */
  method Mount(db: D.Db, invitationId: nat) returns (r: Result<Component>)
    ensures r.Err? <==> MountCheck(db.users, db.invitations, invitationId).Err?
    ensures r.Err? ==> r.failure == NotFound
    ensures r.Ok? ==>
      && fresh(r.value) && r.value.invitationId == invitationId
      && r.value.password == "" && r.value.passwordConfirmation == ""
  {
    var check := MountCheck(db.users, db.invitations, invitationId);
    if check.Err? {
      return Err(NotFound);
    }
    var c := new Component(invitationId);
    r := Ok(c);
  }
}
