/**
 * `App\Http\Controllers\UserController`: the members page, sending an
 * invitation, and removing a member. The invitation mail is I/O and is not
 * part of this model.
 */
module UserController {
  import opened Wrappers
  import opened Entities
  import opened Sorting
  import opened Http
  import P = Permissions
  import D = Database
  import IR = InvitationRules

  /** `orderBy('name')`. */
  predicate NameOrder(a: UserRow, b: UserRow) {
    LexLe(a.name, b.name)
  }

  lemma NameOrderIsPreorder()
    ensures TotalPreorder(NameOrder)
  {
    forall a: UserRow, b: UserRow ensures NameOrder(a, b) || NameOrder(b, a) {
      LexLeTotal(a.name, b.name);
    }
    forall a: UserRow, b: UserRow, c: UserRow | NameOrder(a, b) && NameOrder(b, c) ensures NameOrder(a, c) {
      LexLeTransitive(a.name, b.name, c.name);
    }
  }

  predicate IsColleague(actor: UserRow, u: UserRow) {
    u.organizationId == actor.organizationId && u.id != actor.id
  }

  /** The members the page lists: the actor's organization, the actor excluded. */
  function ColleaguesOf(actor: UserRow): UserRow -> bool {
    u => IsColleague(actor, u)
  }

  predicate IsPendingIn(orgId: nat, v: InvitationRow) {
    v.organizationId == orgId && v.Pending()
  }

  /** The invitations the page lists: the organization's, not yet accepted. */
  function PendingIn(orgId: nat): InvitationRow -> bool {
    v => IsPendingIn(orgId, v)
  }

  /** index: 403 without users.viewAny; otherwise the colleagues by name and the pending invitations newest first. */
  function Index(grants: P.Grants, actor: UserRow, users: seq<UserRow>, invitations: seq<InvitationRow>)
    : (r: Result<(seq<UserRow>, seq<InvitationRow>)>)
    ensures r.Err? <==> !P.HasPermissionTo(grants, actor.role, P.Permission(P.Users, P.ViewAny))
    ensures r.Err? ==> r.failure == Forbidden
    ensures r.Ok? ==> IsListing(r.value.0, users, ColleaguesOf(actor), NameOrder)
    ensures r.Ok? ==> IsListing(r.value.1, invitations, PendingIn(actor.organizationId), InvitationNewerOrSame)
  {
    if !P.HasPermissionTo(grants, actor.role, P.Permission(P.Users, P.ViewAny)) then Err(Forbidden)
    else
      NameOrderIsPreorder();
      Ok((Listing(users, ColleaguesOf(actor), NameOrder),
          Listing(invitations, PendingIn(actor.organizationId), InvitationNewerOrSame)))
  }

  /** The page never lists the actor, a member of another organization, or an accepted invitation. */
  lemma IndexExcludes(grants: P.Grants, actor: UserRow, users: seq<UserRow>, invitations: seq<InvitationRow>)
    requires Index(grants, actor, users, invitations).Ok?
    ensures forall u :: u in Index(grants, actor, users, invitations).value.0 <==>
      u in users && u.organizationId == actor.organizationId && u.id != actor.id
    ensures forall v :: v in Index(grants, actor, users, invitations).value.1 <==>
      v in invitations && v.organizationId == actor.organizationId && v.acceptedAt.None?
  {
    var r := Index(grants, actor, users, invitations).value;
    ListingMembers(r.0, users, ColleaguesOf(actor), NameOrder);
    ListingMembers(r.1, invitations, PendingIn(actor.organizationId), InvitationNewerOrSame);
  }

  /**
   * store: 403 unless the request authorizes, 422 on invalid input; otherwise
   * one pending invitation in the actor's organization with the validated
   * name, email and role and the generated `token`. A token that collides
   * with an existing one is refused by the unique index.
   */
  method Store(db: D.Db, grants: P.Grants, actor: UserRow, name: Input, email: Input, role: Input,
               isEmail: string -> bool, token: string, now: nat) returns (r: Result<nat>)
    requires db.Valid()
    modifies db
    ensures db.Valid()
    ensures r.Err? ==> unchanged(db)
    ensures !IR.Authorize(grants, Some(actor)) ==> r == Err(Forbidden)
    ensures var bad := old(IR.Errors(db.users, db.invitations, actor.organizationId, name, email, role, isEmail));
      IR.Authorize(grants, Some(actor)) && bad != {} ==> r == Err(Invalid(bad))
    ensures (old(IR.Errors(db.users, db.invitations, actor.organizationId, name, email, role, isEmail)) == {}
             && IR.Authorize(grants, Some(actor))) ==>
        && (r.Err? <==> old(D.TokenUsed(db.invitations, token)))
        && (r.Err? ==> r.failure == Conflict)
        && (r.Ok? ==>
              && r.value == old(db.nextId)
              && db.invitations == old(db.invitations)
                   + [InvitationRow(r.value, actor.organizationId, name.s, email.s, IR.ValidatedRole(role), token, None, now)]
              && db.KeepsExcept({D.InvitationsTable}))
  {
    if !IR.Authorize(grants, Some(actor)) {
      return Err(Forbidden);
    }
    var bad := IR.Errors(db.users, db.invitations, actor.organizationId, name, email, role, isEmail);
    if bad != {} {
      return Err(Invalid(bad));
    }
    IR.ValuesEnumerate(role);
    IR.ValidPassesUniqueIndex(db.users, db.invitations, actor.organizationId, name, email, role, isEmail);
    var id := db.AddInvitation(actor.organizationId, name.s, email.s, IR.ValidatedRole(role), token, now);
    if id.None? {
      return Err(Conflict);
    }
    r := Ok(id.value);
  }

  /** The three guards of destroy, in order, on a target that exists. */
  function DestroyGuard(grants: P.Grants, actor: UserRow, target: UserRow): (r: Result<()>)
    ensures r.Ok? <==>
      && P.Permission(P.Users, P.Delete) in grants(actor.role)
      && target.id != actor.id
      && target.organizationId == actor.organizationId
    ensures r.Err? ==> r.failure == Forbidden
  {
    if !P.HasPermissionTo(grants, actor.role, P.Permission(P.Users, P.Delete)) then Err(Forbidden)
    else if target.id == actor.id then Err(Forbidden)
    else if target.organizationId != actor.organizationId then Err(Forbidden)
    else Ok(())
  }

  /** Nobody can remove themselves, whatever their permissions. */
  lemma NoSelfRemoval(grants: P.Grants, actor: UserRow)
    ensures DestroyGuard(grants, actor, actor).Err?
  {
  }

  /**
   * destroy: 404 for an unknown user, 403 from the guards; otherwise the
   * row is deleted for good, so the id no longer resolves.
   */
  method Destroy(db: D.Db, grants: P.Grants, actor: UserRow, userId: nat) returns (r: Result<()>)
    requires db.Valid()
    modifies db
    ensures db.Valid()
    ensures r.Err? ==> unchanged(db)
    ensures old(D.FindUser(db.users, userId)).None? ==> r == Err(NotFound)
    ensures old(D.FindUser(db.users, userId)).Some? ==>
      var i := old(D.FindUser(db.users, userId)).value;
      && (DestroyGuard(grants, actor, old(db.users[i])).Err? ==> r == Err(Forbidden))
      && (DestroyGuard(grants, actor, old(db.users[i])).Ok? ==>
            && r == Ok(())
            && db.users == old(db.users[..i] + db.users[i + 1..])
            && D.FindUser(db.users, userId).None?
            && db.KeepsExcept({D.UsersTable}))
  {
    var found := D.FindUser(db.users, userId);
    if found.None? {
      return Err(NotFound);
    }
    var guard := DestroyGuard(grants, actor, db.users[found.value]);
    if guard.Err? {
      return Err(Forbidden);
    }
    D.RemovedUserGone(db.users, found.value);
    db.RemoveUser(found.value);
    r := Ok(());
  }
}
