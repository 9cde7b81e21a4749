/** The user record and the role enumeration shared by the session logic. */
module Types {
  /** The two roles a user can hold; the string literals are those of the role constant. */
  datatype UserRole = USER | ADMIN

  /** The literal each role stands for in a token's `userRole` claim. */
  function RoleName(r: UserRole): (name: string)
    ensures name == "ADMIN" <==> r == ADMIN
    ensures name == "USER" <==> r == USER
  {
    match r
    case USER => "USER"
    case ADMIN => "ADMIN"
  }

  lemma RoleNameInjective(r1: UserRole, r2: UserRole)
    ensures RoleName(r1) == RoleName(r2) <==> r1 == r2
  {
  }

  /** The user derived from a token's claims. */
  datatype User = User(id: string, login: string, email: string, role: UserRole)
}
