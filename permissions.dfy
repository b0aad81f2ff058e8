/**
 * The permission classes of api/permissions.py. Each check is one boolean
 * expression over the request method and the requesting user.
 */
module Permissions {
  import opened Models
  import opened Responses

  datatype Method = Get | Head | Options | Post | Put | Patch | Delete

  /** `permissions.SAFE_METHODS`. */
  predicate IsSafe(m: Method)
  {
    m == Get || m == Head || m == Options
  }

  /** `request.user`: Django's AnonymousUser, or an authenticated row of the user table. */
  datatype Requester = Anonymous | Authenticated(name: Username, account: Account)

  /** `request.user.is_superuser`; AnonymousUser answers false. */
  predicate IsSuperuser(r: Requester)
  {
    r.Authenticated? && r.account.isSuperuser
  }

  /**
   * The outcome of a check. `Fault` is the AttributeError raised when the
   * check reads `is_admin` from AnonymousUser, which has no such attribute.
   */
  datatype Decision = Allow | Deny | Fault

  const OwnerMessage := "Изменение запрещено,всем кроме админа, автора, модера!"
  const AdminMessage := "Админ онли!"
  const AdminOrReadOnlyMessage := "Администратор или только чтение."

  /** What Django REST framework answers when a permission refuses: 401 for anonymous, else 403 with the message. */
  function Refusal(r: Requester, message: string): (e: Error)
    ensures r.Anonymous? <==> e == NotAuthenticated
    ensures r.Authenticated? ==> e == PermissionDenied(message)
  {
    if r.Anonymous? then NotAuthenticated else PermissionDenied(message)
  }

  // ---------------------------------------------------------------- IsAdminModeratorOwnerOrReadOnly

  /** `IsAdminModeratorOwnerOrReadOnly.has_permission`. */
  predicate OwnerHasPermission(m: Method, r: Requester)
    ensures OwnerHasPermission(m, r) <==> (r.Anonymous? ==> IsSafe(m))
  {
    IsSafe(m) || r.Authenticated?
  }

  /** `IsAdminModeratorOwnerOrReadOnly.has_object_permission`, for an object written by `author`. */
  function OwnerHasObjectPermission(m: Method, r: Requester, author: Username): (d: Decision)
    ensures d == Fault <==> !IsSafe(m) && r.Anonymous?
    ensures d == Allow <==>
      IsSafe(m) || (r.Authenticated? && (r.account.role != User || r.account.isStaff || author == r.name))
  {
    if IsSafe(m) then Allow
    else match r
      case Anonymous => Fault
      case Authenticated(name, a) =>
        if IsAdmin(a) || IsModerator(a) || author == name then Allow else Deny
  }

  /** Django REST framework's order for an object request: `has_permission` first, then `has_object_permission`. */
  predicate OwnerAllows(m: Method, r: Requester, author: Username)
    ensures OwnerAllows(m, r, author) <==>
      IsSafe(m) || (r.Authenticated? && (IsAdmin(r.account) || IsModerator(r.account) || author == r.name))
  {
    OwnerHasPermission(m, r) && OwnerHasObjectPermission(m, r, author) == Allow
  }

  /** A safe method passes both checks whoever asks. */
  lemma SafeMethodsAllowed(m: Method, r: Requester, author: Username)
    requires IsSafe(m)
    ensures OwnerHasPermission(m, r)
    ensures OwnerHasObjectPermission(m, r, author) == Allow
  {
  }

  /** An unsafe method passes `has_permission` exactly when the requester is authenticated. */
  lemma UnsafeNeedsAuthentication(m: Method, r: Requester)
    requires !IsSafe(m)
    ensures OwnerHasPermission(m, r) <==> r.Authenticated?
  {
  }

  /** For an authenticated requester and an unsafe method: admin, moderator or author, and nobody else. */
  lemma UnsafeObjectDecision(m: Method, name: Username, a: Account, author: Username)
    requires !IsSafe(m)
    ensures OwnerHasObjectPermission(m, Authenticated(name, a), author) == Allow
        <==> IsAdmin(a) || IsModerator(a) || author == name
    ensures OwnerHasObjectPermission(m, Authenticated(name, a), author) != Fault
  {
  }

  /** A plain user without the staff flag may not change what someone else wrote. */
  lemma PlainUserDeniedOthersObjects(m: Method, name: Username, a: Account, author: Username)
    requires !IsSafe(m) && a.role == User && !a.isStaff && author != name
    ensures OwnerHasObjectPermission(m, Authenticated(name, a), author) == Deny
    ensures !OwnerAllows(m, Authenticated(name, a), author)
  {
  }

  /**
   * Together the two checks deny every unsafe request from an anonymous
   * requester, and `has_permission` stops it before `has_object_permission`
   * could raise.
   */
  lemma AnonymousNeverWrites(m: Method, author: Username)
    requires !IsSafe(m)
    ensures !OwnerHasPermission(m, Anonymous)
    ensures !OwnerAllows(m, Anonymous, author)
  {
  }

  lemma ObjectCheckNeverFaultsAfterGate(m: Method, r: Requester, author: Username)
    requires OwnerHasPermission(m, r)
    ensures OwnerHasObjectPermission(m, r, author) != Fault
  {
  }

  // ---------------------------------------------------------------- IsAdmin

  /** `IsAdmin.has_permission`; the method plays no part. */
  predicate AdminHasPermission(m: Method, r: Requester)
    ensures AdminHasPermission(m, r) <==>
      r.Authenticated? && (r.account.role == Admin || r.account.isStaff || r.account.isSuperuser)
  {
    r.Authenticated? && (IsAdmin(r.account) || r.account.isSuperuser)
  }

  lemma AdminDecision(m: Method, r: Requester)
    ensures AdminHasPermission(m, r) <==> r.Authenticated? && (IsAdmin(r.account) || IsSuperuser(r))
    ensures AdminHasPermission(m, r) <==> AdminHasPermission(Get, r)
  {
  }

  /** A requester who is neither admin, staff nor superuser is refused even a GET. */
  lemma NonAdminDeniedEvenReads(m: Method, r: Requester)
    requires r.Authenticated? ==> r.account.role != Admin && !r.account.isStaff && !r.account.isSuperuser
    ensures !AdminHasPermission(m, r)
  {
  }

  // ---------------------------------------------------------------- IsAdminOrReadOnly

  /** `IsAdminOrReadOnly.has_permission`. */
  predicate AdminOrReadOnlyHasPermission(m: Method, r: Requester)
    ensures AdminOrReadOnlyHasPermission(m, r) <==> IsSafe(m) || AdminHasPermission(m, r)
  {
    IsSafe(m) || (r.Authenticated? && (IsAdmin(r.account) || r.account.isSuperuser))
  }

  lemma AdminOrReadOnlyDecision(m: Method, r: Requester)
    ensures IsSafe(m) ==> AdminOrReadOnlyHasPermission(m, r)
    ensures !IsSafe(m) ==> (AdminOrReadOnlyHasPermission(m, r) <==> AdminHasPermission(m, r))
  {
  }

  /** Whatever IsAdmin lets through, IsAdminOrReadOnly lets through too. */
  lemma AdminImpliesAdminOrReadOnly(m: Method, r: Requester)
    requires AdminHasPermission(m, r)
    ensures AdminOrReadOnlyHasPermission(m, r)
  {
  }

  /**
   * The object check ignores `is_superuser`: a superuser with neither the
   * admin role nor the staff flag passes IsAdmin but may not change another
   * author's review or comment.
   */
  lemma SuperuserNotOwnerAdmin(m: Method, name: Username, a: Account, author: Username)
    requires !IsSafe(m) && a.isSuperuser && a.role == User && !a.isStaff && author != name
    ensures AdminHasPermission(m, Authenticated(name, a))
    ensures OwnerHasObjectPermission(m, Authenticated(name, a), author) == Deny
  {
  }
}
