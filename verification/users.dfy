/** Role strings and the account checks every authenticated handler relies on. */
module Users {
  import opened Results
  import opened Text
  import opened Records

  /** The names of the audited user actions, in order; an action's code is its index. */
  const UserActionNames: seq<string> := [
    "CREATE_ACCESS_TOKEN",
    "BAD_USERNAME_OR_PASSWORD",
    "DISABLED_USER_LOGIN_ATTEMPT",
    "REFRESHED_ACCESS_TOKEN",
    "CREATED_NEW_USER",
    "USER_LOGOUT",
    "FAILED_EMAIL_VERIFY",
    "VERIFIED_EMAIL",
    "UNKNOWN_USER_RESET_PASSWORD_ATTEMPT",
    "UNVERIFIED_USER_PASSWORD_RESET_ATTEMPT",
    "USER_RESET_PASSWORD",
    "NONADMIN_ATTEMPTED_USER_ROLES_ASSIGNMENT",
    "USER_ROLES_ASSIGNMENT",
    "UNVERIFIED_USER_SET_PASSWORD_ATTEMPT",
    "USER_SET_PASSWORD",
    "UNVERIFIED_USER_SET_EMAIL_ATTEMPT",
    "FAILED_USER_SET_EMAIL",
    "USER_SET_EMAIL",
    "DISABLE_USER",
    "NONADMIN_USER_ACTION_REQUEST"]

  /** `UserAction[code]`: Python list indexing, where a negative code counts
      from the end and a code outside the list raises `IndexError`. */
  function ActionName(code: int): (r: Result<string>)
    ensures r.Ok? <==> -|UserActionNames| <= code < |UserActionNames|
    ensures r.Err? ==> r.error == Raised("IndexError")
  {
    var n := |UserActionNames|;
    if 0 <= code < n then Ok(UserActionNames[code])
    else if -n <= code < 0 then Ok(UserActionNames[code + n])
    else Err(Raised("IndexError"))
  }

  /** Every name a code looks up is one of the listed actions. */
  lemma ActionNameIsListed(code: int)
    requires ActionName(code).Ok?
    ensures ActionName(code).value in UserActionNames
  {
  }

  /** `UserAction.index(name)`: the position of the first entry equal to `name`. */
  function ActionIndex(name: string): (i: nat)
    requires name in UserActionNames
    ensures i < |UserActionNames| && UserActionNames[i] == name
    ensures forall j :: 0 <= j < i ==> UserActionNames[j] != name
  {
    FirstIndex(UserActionNames, name)
  }

  function FirstIndex(s: seq<string>, x: string): (i: nat)
    requires x in s
    ensures i < |s| && s[i] == x
    ensures forall j :: 0 <= j < i ==> s[j] != x
  {
    if s[0] == x then 0 else 1 + FirstIndex(s[1..], x)
  }

  /** Looking up the code stored for an action gives its name back. */
  lemma ActionNameOfIndex(name: string)
    requires name in UserActionNames
    ensures ActionName(ActionIndex(name)) == Ok(name)
  {
  }

  // ---------------------------------------------------------------------------
  // Roles

  /** `user_initial_roles`: every account starts as staff and unverified; the
      configured administrator also gets admin. */
  function InitialRoles(isAdmin: bool): (r: string)
    ensures r == if isAdmin then "staff unverified admin" else "staff unverified"
  {
    var ret := "staff unverified";
    if isAdmin then ret + " admin" else ret
  }

  /** `user_has_role`: plain substring containment in the roles string, not a
      match on whole words (so "admin" is held by roles "administrator"). */
  predicate HasRole(u: User, role: string) {
    IsSubstring(role, u.roles)
  }

  /** Having a role means the role text occurs somewhere in the roles string. */
  lemma HasRoleIffOccurs(u: User, role: string)
    ensures HasRole(u, role) <==> exists i :: OccursAt(role, u.roles, i)
  {
    SubstringIffOccurs(role, u.roles);
  }

  /** Substring semantics: a role word that merely contains "admin" grants it. */
  lemma HasRoleIsNotWordMatch(u: User)
    requires u.roles == "administrator"
    ensures HasRole(u, "admin") && Words(u.roles) == ["administrator"]
  {
    assert OccursAt("admin", u.roles, 0);
    OccurrenceIsSubstring("admin", u.roles, 0);
    WordsOfWord(u.roles);
  }

  /** The text every role word must be a substring of. */
  const ValidRolesText := "staff admin unverified public"

  /** The loop of `user_role_verify`: stop at the first word that is not a substring of `valid`. */
  function AllIn(ws: seq<string>, valid: string): bool {
    if |ws| == 0 then true
    else if !IsSubstring(ws[0], valid) then false
    else AllIn(ws[1..], valid)
  }

  /** `user_role_verify`: checks the whitespace-separated words of `roles`. */
  predicate RoleVerify(roles: string) {
    AllIn(Words(roles), ValidRolesText)
  }

  lemma {:induction false} AllInIff(ws: seq<string>, valid: string)
    ensures AllIn(ws, valid) <==> forall i :: 0 <= i < |ws| ==> IsSubstring(ws[i], valid)
  {
    if |ws| > 0 {
      AllInIff(ws[1..], valid);
      assert forall i :: 0 < i < |ws| ==> ws[i] == ws[1..][i - 1];
    }
  }

  lemma AllInWordsIff(roles: string, valid: string)
    ensures AllIn(Words(roles), valid) <==> forall w :: w in Words(roles) ==> IsSubstring(w, valid)
  {
    AllInIff(Words(roles), valid);
  }

  /** A roles string passes exactly when each of its words is a substring of
      "staff admin unverified public"; the empty string passes. */
  lemma RoleVerifyIff(roles: string)
    ensures RoleVerify(roles) <==> forall w :: w in Words(roles) ==> IsSubstring(w, ValidRolesText)
    ensures roles == "" ==> RoleVerify(roles)
  {
    AllInWordsIff(roles, ValidRolesText);
  }

  lemma InitialRolesText()
    ensures InitialRoles(false) == "staff" + " " + "unverified"
    ensures InitialRoles(true) == "staff" + " " + "unverified" + " " + "admin"
  {
  }

  lemma InitialRolesWordsStaff()
    ensures Words("staff" + " " + "unverified") == ["staff", "unverified"]
  {
    var staff, unverified := "staff", "unverified";
    assert IsWord(staff) && IsWord(unverified);
    TwoWords(staff, unverified);
  }

  lemma InitialRolesWordsAdmin()
    ensures Words("staff" + " " + "unverified" + " " + "admin") == ["staff", "unverified", "admin"]
  {
    var staff, unverified, admin := "staff", "unverified", "admin";
    assert IsWord(staff) && IsWord(unverified) && IsWord(admin);
    ThreeWords(staff, unverified, admin);
  }

  /** The words of the initial roles, in order. */
  lemma InitialRolesWords(isAdmin: bool)
    ensures Words(InitialRoles(isAdmin)) == ["staff", "unverified"] + (if isAdmin then ["admin"] else [])
  {
    InitialRolesText();
    if isAdmin {
      InitialRolesWordsAdmin();
    } else {
      InitialRolesWordsStaff();
    }
  }

  /** The three role words `user_initial_roles` uses are in the valid-roles text. */
  lemma InitialRoleWordsValid()
    ensures IsSubstring("staff", ValidRolesText)
    ensures IsSubstring("admin", ValidRolesText)
    ensures IsSubstring("unverified", ValidRolesText)
  {
    var v := ValidRolesText;
    var staff, unverified, admin := "staff", "unverified", "admin";
    assert v == staff + " " + admin + " " + unverified + " public";
    assert v[0..5] == staff;
    assert v[6..11] == admin;
    assert v[12..22] == unverified;
    OccurrenceIsSubstring(staff, v, 0);
    OccurrenceIsSubstring(admin, v, 6);
    OccurrenceIsSubstring(unverified, v, 12);
  }

  /** Two or three words, joined by single spaces, pass when each is a substring of `valid`. */
  lemma AllInOfWords(a: string, b: string, c: string, three: bool, valid: string)
    requires IsWord(a) && IsWord(b) && IsWord(c)
    requires IsSubstring(a, valid) && IsSubstring(b, valid) && IsSubstring(c, valid)
    ensures AllIn(Words(if three then a + " " + b + " " + c else a + " " + b), valid)
  {
    if three {
      ThreeWords(a, b, c);
      AllInIff([a, b, c], valid);
    } else {
      TwoWords(a, b);
      AllInIff([a, b], valid);
    }
  }

  /** Every string `user_initial_roles` produces passes `user_role_verify`. */
  lemma InitialRolesVerify(isAdmin: bool)
    ensures RoleVerify(InitialRoles(isAdmin))
  {
    var staff, unverified, admin := "staff", "unverified", "admin";
    assert IsWord(staff) && IsWord(unverified) && IsWord(admin);
    InitialRoleWordsValid();
    InitialRolesText();
    AllInOfWords(staff, unverified, admin, isAdmin, ValidRolesText);
  }

  // ---------------------------------------------------------------------------
  // Account checks

  /** `get_current_active_user`: a disabled account is refused with 400; any
      other account passes through unchanged. */
  function CurrentActiveUser(u: User): (r: Result<User>)
    ensures r.Err? <==> HasRole(u, "disabled")
    ensures r.Err? ==> r.error == Http(BAD_REQUEST_400)
    ensures r.Ok? ==> r.value == u
  {
    if HasRole(u, "disabled") then Err(Http(BAD_REQUEST_400)) else Ok(u)
  }

  /** What `validate_email_address` reports: the normalised address, or the validator's message. */
  datatype EmailCheck = EmailValid(normalized: string) | EmailInvalid(message: string)

  /** The dictionary `validate_new_user_info` returns. On success `msg` is the normalised email. */
  datatype NewUserCheck = NewUserCheck(success: bool, statusCode: int, msg: string)

  /** `validate_new_user_info`. The database lookups are parameters:
      `usernameTaken` is the lookup of the requested username, `emailCheck` the
      validator's verdict on the requested address, and `emailTaken` the lookup
      by email, which the source makes with the normalised address. */
  function ValidateNewUserInfo(usernameTaken: bool, emailCheck: EmailCheck, emailTaken: string -> bool): (r: NewUserCheck)
    ensures r.success <==> !usernameTaken && emailCheck.EmailValid? && !emailTaken(emailCheck.normalized)
    ensures r.success <==> r.statusCode == OK_200
    ensures r.success ==> r.msg == emailCheck.normalized
    ensures usernameTaken ==> r.statusCode == CONFLICT_409
    ensures !usernameTaken && emailCheck.EmailInvalid? ==> r.statusCode == NOT_ACCEPTABLE_406 && r.msg == emailCheck.message
    ensures !usernameTaken && emailCheck.EmailValid? && emailTaken(emailCheck.normalized) ==> r.statusCode == CONFLICT_409
  {
    if usernameTaken then NewUserCheck(false, CONFLICT_409, "Username already in use.")
    else if emailCheck.EmailInvalid? then NewUserCheck(false, NOT_ACCEPTABLE_406, emailCheck.message)
    else if emailTaken(emailCheck.normalized) then NewUserCheck(false, CONFLICT_409, "Email already in use.")
    else NewUserCheck(true, OK_200, emailCheck.normalized)
  }
}
