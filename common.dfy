/**
 * Values shared by every view: optional values, JavaScript truthiness of
 * route parameters, and the project roles that gate editing.
 */
module Common {

  /** A value that may be missing (`undefined` or `null` in the views). */
  datatype Option<T> = None | Some(value: T) {
    function GetOr(default: T): T {
      match this
      case Some(v) => v
      case None => default
    }
  }

  /**
   * JavaScript truthiness of an optional string, as in `if (!workspaceSlug)`:
   * a missing value and the empty string are both falsy.
   */
  predicate Present(s: Option<string>) {
    s.Some? && s.value != ""
  }

  /**
   * The project roles, in increasing order of rights. The views compare
   * them numerically (`role >= MEMBER`); only their order matters here.
   */
  datatype Role = Guest | Viewer | Member | Admin

  function Rank(r: Role): nat {
    match r
    case Guest => 0
    case Viewer => 1
    case Member => 2
    case Admin => 3
  }

  /**
   * `!!role && role >= EUserWorkspaceRoles.MEMBER`: the rule that lets a
   * member or an administrator edit.
   */
  predicate IsAtLeastMember(role: Option<Role>) {
    role.Some? && Rank(role.value) >= Rank(Member)
  }
}
