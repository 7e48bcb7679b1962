/**
 Scalar vocabulary shared by the whole inventory backend: identifiers, time,
 the four user roles and the kinds of error a request can end in.
 */
module Domain {
  import opened Wrappers

  /** Milliseconds since the epoch, as JavaScript's `Date.now()`. */
  type Time = int

  /** One day in milliseconds (`24 * 60 * 60 * 1000`). */
  const DAY: int := 86400000

  /** Database identifiers; the stores hand them out from a counter. */
  type ComponentId = nat
  type UserId = nat
  type NotificationId = nat

  /** The roles a user can hold (the enumeration on `Notification.targetRoles`). */
  datatype Role = Admin | LabTechnician | Researcher | Engineer

  function RoleName(r: Role): string {
    match r
    case Admin => "Admin"
    case LabTechnician => "Lab Technician"
    case Researcher => "Researcher"
    case Engineer => "Engineer"
  }

  /** Reads a role tag as stored; anything outside the enumeration is rejected. */
  function ParseRole(s: string): (r: Option<Role>)
    ensures r.Some? ==> RoleName(r.value) == s
    ensures forall role: Role :: RoleName(role) == s ==> r == Some(role)
  {
    if s == "Admin" then Some(Admin)
    else if s == "Lab Technician" then Some(LabTechnician)
    else if s == "Researcher" then Some(Researcher)
    else if s == "Engineer" then Some(Engineer)
    else None
  }

  /** The fields of the (unseen) User record that the core reads. */
  datatype User = User(id: UserId, role: Role, isActive: bool)

  /** Why authentication failed; each is answered with status 401. */
  datatype AuthFailure = NoToken | InvalidToken | UnknownOrInactiveUser | AuthenticationRequired

  /** How a request can fail. */
  datatype Error =
    | Unauthorized(why: AuthFailure)                      // 401
    | Forbidden(requiredRoles: seq<Role>, userRole: Role)  // 403 from the role guard
    | AdminOnly                                            // 403 raised inside a handler
    | ValidationFailure                                    // 400 from request validation
    | DuplicatePartNumber                                  // 400
    | NotFound                                             // 404
    | InsufficientStock(available: int, requested: int)    // 400
    | SchemaViolation                                      // 500: a model validator refused the save

  /** The HTTP status each error is answered with. */
  function Status(e: Error): (code: nat)
    ensures 400 <= code < 600
    ensures code == 401 <==> e.Unauthorized?
    ensures code == 403 <==> e.Forbidden? || e.AdminOnly?
  {
    match e
    case Unauthorized(_) => 401
    case Forbidden(_, _) => 403
    case AdminOnly => 403
    case ValidationFailure => 400
    case DuplicatePartNumber => 400
    case NotFound => 404
    case InsufficientStock(_, _) => 400
    case SchemaViolation => 500
  }
}
