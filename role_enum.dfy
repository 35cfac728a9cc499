/** `App\Enums\RoleEnum`: the three roles and their string backing values. */
module RoleEnum {
  import opened Wrappers

  datatype Role = Admin | User | Viewer

  /** Every case, in declaration order (`RoleEnum::cases()`). */
  const Cases: seq<Role> := [Admin, User, Viewer]

  /** The backing value (`->value`). */
  function Value(r: Role): string {
    match r
    case Admin => "admin"
    case User => "user"
    case Viewer => "viewer"
  }

  /** `RoleEnum::tryFrom`: the case whose backing value is `s`, if any. */
  function TryFrom(s: string): (r: Option<Role>)
    ensures forall role :: r == Some(role) <==> Value(role) == s
  {
    if s == "admin" then Some(Admin)
    else if s == "user" then Some(User)
    else if s == "viewer" then Some(Viewer)
    else None
  }

  function IsAdmin(r: Role): bool {
    r == Admin
  }

  function Label(r: Role): string {
    match r
    case Admin => "Administrator"
    case User => "User"
    case Viewer => "Viewer"
  }

  /** Exactly three cases, each once, and every role is among them. */
  lemma CasesEnumerateRoles()
    ensures |Cases| == 3
    ensures forall r :: r in Cases
    ensures forall i, j :: 0 <= i < j < |Cases| ==> Cases[i] != Cases[j]
  {
    forall r ensures r in Cases {
      match r
      case Admin => assert Cases[0] == r;
      case User => assert Cases[1] == r;
      case Viewer => assert Cases[2] == r;
    }
  }

  /** Backing values are the three strings of the enum and tell the cases apart. */
  lemma ValuesAreDistinct()
    ensures Value(Admin) == "admin" && Value(User) == "user" && Value(Viewer) == "viewer"
    ensures forall r1, r2 :: Value(r1) == Value(r2) ==> r1 == r2
  {
  }

  /** Parsing a backing value gives the case back. */
  lemma TryFromValue(r: Role)
    ensures TryFrom(Value(r)) == Some(r)
  {
  }

  /** Only Admin is an administrator. */
  lemma IsAdminOnlyForAdmin(r: Role)
    ensures IsAdmin(r) <==> r == Admin
  {
  }

  /** label() is total and injective. */
  lemma LabelsAreDistinct()
    ensures Label(Admin) == "Administrator" && Label(User) == "User" && Label(Viewer) == "Viewer"
    ensures forall r1, r2 :: Label(r1) == Label(r2) ==> r1 == r2
  {
  }
}
