/**
 * `StoreProjectRequest` and `UpdateProjectRequest`: each authorizes through
 * the project policy, and both validate the same two fields.
 */
module ProjectRequests {
  import opened Wrappers
  import opened Entities
  import opened Http
  import opened Organizations
  import P = Permissions
  import A = Authorization
  import PP = ProjectPolicy

  /** `max:255` on the name. */
  const NameMax: nat := 255

  /** StoreProjectRequest::authorize: the policy's `create`. */
  function StoreAuthorize(grants: P.Grants, cfg: Config, actor: UserRow, actorOrg: OrganizationRow): (ok: bool)
    requires actorOrg.id == actor.organizationId
    ensures ok == A.Decide(grants, actor, P.Projects, A.Create, None, CanAccessProjects(actorOrg, cfg))
  {
    PP.Create(grants, cfg, actor, actorOrg)
  }

  /** UpdateProjectRequest::authorize: the policy's `update` on the routed project. */
  function UpdateAuthorize(grants: P.Grants, actor: UserRow, project: ProjectRow): (ok: bool)
    ensures forall enabled: bool :: ok == A.Decide(grants, actor, P.Projects, A.Update, Some(project.organizationId), enabled)
  {
    PP.Update(grants, actor, project)
  }

  /**
   * The fields that fail `name: required|string|max:255` and
   * `description: nullable|string`.
   */
  function Errors(name: Input, description: Input): (bad: set<Field>)
    ensures bad <= {NameField, DescriptionField}
    ensures NameField !in bad <==> name.Text? && !Blank(name.s) && |name.s| <= NameMax
    ensures DescriptionField !in bad <==> !description.NonString?
  {
    (if RequiredString(name, NameMax) then {} else {NameField})
    + (if NullableString(description) then {} else {DescriptionField})
  }

  /** An empty name is refused and a 255-character name is accepted; one character more is refused. */
  lemma NameLengthBoundary(s: string, description: Input)
    requires |s| == NameMax && s[0] == 'x'
    ensures NameField in Errors(Text(""), description)
    ensures NameField !in Errors(Text(s), description)
    ensures NameField in Errors(Text(s + "x"), description)
  {
    assert !IsTrimmed(s[0]);
  }
}
