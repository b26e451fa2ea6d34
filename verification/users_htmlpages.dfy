/** The account endpoints: registration, email verification, role
    assignment, email change and account disabling. Database lookups, the
    id `put_user` answers with, the email validator's verdict and freshly
    generated codes are parameters. */
module UserPages {
  import opened Results
  import opened Text
  import opened Records
  import opened Users
  import opened Lists

  /** A handler's JSON `status` and the user row it hands to `put_user`, if any. */
  datatype Outcome = Outcome(status: string, stored: Option<User>)

  /** The `UserPublic` answer of the registration endpoints. */
  datatype UserPublic = UserPublic(username: string, userid: int, email: string, roles: string)

  /** The site configuration note: absent, or present with or without a
      `public_registration` entry. */
  datatype SiteConfig = NoSiteConfig | SiteConfig(publicRegistration: Option<bool>)

  // ---------------------------------------------------------------------------
  // Registration

  /** `sign_up` at /users/register. A configuration that turns public
      registration off is 401 and one without the entry raises `KeyError`;
      then `validate_new_user_info` decides. That check stores the normalised
      address back into the request, so the new account is an administrator
      exactly when the username and the normalised email are the configured
      administrator's. */
  function SignUp(config: SiteConfig, username: string,
                  usernameTaken: bool, emailCheck: EmailCheck, emailTaken: string -> bool,
                  adminUsername: string, adminEmail: string, newId: int): (r: Result<UserPublic>)
    ensures config == SiteConfig(Some(false)) ==> r == Err(Http(UNAUTHORIZED_401))
    ensures config == SiteConfig(None) ==> r == Err(Raised("KeyError"))
    ensures config.NoSiteConfig? || config == SiteConfig(Some(true)) ==>
      var v := ValidateNewUserInfo(usernameTaken, emailCheck, emailTaken);
      && (r.Ok? <==> v.success)
      && (!v.success ==> r == Err(Http(v.statusCode)))
    ensures r.Ok? ==> emailCheck.EmailValid? && r.value == UserPublic(username, newId, emailCheck.normalized,
      InitialRoles(username == adminUsername && emailCheck.normalized == adminEmail))
  {
    if config.SiteConfig? && config.publicRegistration.None? then Err(Raised("KeyError"))
    else if config.SiteConfig? && config.publicRegistration == Some(false) then Err(Http(UNAUTHORIZED_401))
    else
      var v := ValidateNewUserInfo(usernameTaken, emailCheck, emailTaken);
      if !v.success then Err(Http(v.statusCode))
      else
        var isAdmin := username == adminUsername && v.msg == adminEmail;
        Ok(UserPublic(username, newId, v.msg, InitialRoles(isAdmin)))
  }

  /** "admin" is in the initial roles exactly when they are an administrator's. */
  lemma InitialRolesAdmin(isAdmin: bool)
    ensures IsSubstring("admin", InitialRoles(isAdmin)) <==> isAdmin
  {
    var admin := "admin";
    InitialRolesText();
    if isAdmin {
      SuffixIsSubstring("staff" + " " + "unverified" + " ", admin);
      assert "staff" + " " + "unverified" + " " + "admin" == ("staff" + " " + "unverified" + " ") + admin;
    } else {
      var r := "staff unverified";
      assert admin[2] == 'm';
      assert forall i :: 0 <= i < |r| ==> r[i] != 'm';
      MissingCharNotSubstring(admin, r, 'm');
    }
  }

  /** A registered account holds the admin role only when it is the configured
      administrator, and its roles always pass `user_role_verify`. */
  lemma SignUpAdminDecision(config: SiteConfig, username: string,
                            usernameTaken: bool, emailCheck: EmailCheck, emailTaken: string -> bool,
                            adminUsername: string, adminEmail: string, newId: int)
    requires SignUp(config, username, usernameTaken, emailCheck, emailTaken, adminUsername, adminEmail, newId).Ok?
    ensures var u := SignUp(config, username, usernameTaken, emailCheck, emailTaken, adminUsername, adminEmail, newId).value;
      && (IsSubstring("admin", u.roles) <==> username == adminUsername && emailCheck.normalized == adminEmail)
      && RoleVerify(u.roles)
  {
    InitialRolesAdmin(username == adminUsername && emailCheck.normalized == adminEmail);
    InitialRolesVerify(username == adminUsername && emailCheck.normalized == adminEmail);
  }

  /** `sign_up` at /users/create: only a caller holding " admin" may create
      accounts, which never start as administrators. */
  function AdminCreateUser(current: User, username: string,
                           usernameTaken: bool, emailCheck: EmailCheck, emailTaken: string -> bool,
                           newId: int): (r: Result<UserPublic>)
    ensures !HasRole(current, " admin") ==> r == Err(Http(UNAUTHORIZED_401))
    ensures HasRole(current, " admin") ==>
      var v := ValidateNewUserInfo(usernameTaken, emailCheck, emailTaken);
      && (r.Ok? <==> v.success)
      && (!v.success ==> r == Err(Http(v.statusCode)))
    ensures r.Ok? ==> emailCheck.EmailValid? && r.value == UserPublic(username, newId, emailCheck.normalized, InitialRoles(false))
  {
    if !HasRole(current, " admin") then Err(Http(UNAUTHORIZED_401))
    else
      var v := ValidateNewUserInfo(usernameTaken, emailCheck, emailTaken);
      if !v.success then Err(Http(v.statusCode))
      else Ok(UserPublic(username, newId, v.msg, InitialRoles(false)))
  }

  /** An account an administrator creates does not hold the admin role. */
  lemma AdminCreateUserNotAdmin(current: User, username: string,
                                usernameTaken: bool, emailCheck: EmailCheck, emailTaken: string -> bool,
                                newId: int)
    requires AdminCreateUser(current, username, usernameTaken, emailCheck, emailTaken, newId).Ok?
    ensures !IsSubstring("admin", AdminCreateUser(current, username, usernameTaken, emailCheck, emailTaken, newId).value.roles)
  {
    InitialRolesAdmin(false);
  }

  // ---------------------------------------------------------------------------
  // Email verification

  function IsNot(role: string): string -> bool {
    w => w != role
  }

  /** The roles string without any word equal to `role`, single-space joined. */
  function WithoutRole(roles: string, role: string): string {
    Join(Filter(Words(roles), IsNot(role)), " ")
  }

  /** The role-removal loop of `verify_user_email`. */
  method RemoveRole(roles: string, role: string) returns (newRoles: string)
    ensures newRoles == WithoutRole(roles, role)
  {
    var roleList := Words(roles);
    newRoles := "";
    var first := true;
    for i := 0 to |roleList|
      invariant newRoles == Join(Filter(roleList[..i], IsNot(role)), " ")
      invariant first <==> Filter(roleList[..i], IsNot(role)) == []
    {
      var kept := Filter(roleList[..i], IsNot(role));
      assert roleList[..i + 1] == roleList[..i] + [roleList[i]];
      FilterSnoc(roleList[..i], roleList[i], IsNot(role));
      JoinSnoc(kept, roleList[i], " ");
      if roleList[i] != role {
        assert Filter(roleList[..i + 1], IsNot(role)) == kept + [roleList[i]];
        if !first {
          newRoles := newRoles + " ";
        }
        newRoles := newRoles + roleList[i];
        first := false;
      } else {
        assert Filter(roleList[..i + 1], IsNot(role)) == kept;
      }
    }
    assert roleList[..|roleList|] == roleList;
  }

  /** The words left after removal are the old words other than `role`, in
      order; the result is single-spaced. */
  lemma WithoutRoleWords(roles: string, role: string)
    ensures Words(WithoutRole(roles, role)) == Filter(Words(roles), IsNot(role))
    ensures role !in Words(WithoutRole(roles, role))
    ensures forall w :: w in Words(WithoutRole(roles, role)) <==> w in Words(roles) && w != role
    ensures SingleSpaced(WithoutRole(roles, role))
  {
    var ws := Words(roles);
    var kept := Filter(ws, IsNot(role));
    forall i | 0 <= i < |kept|
      ensures IsWord(kept[i])
    {
      FilterMembers(ws, IsNot(role), kept[i]);
    }
    WordsOfJoin(kept);
    JoinSingleSpaced(kept);
    FilterMembers(ws, IsNot(role), role);
    forall w
      ensures w in kept <==> w in ws && w != role
    {
      FilterMembers(ws, IsNot(role), w);
    }
  }

  /** `verify_user_email`. A verified account is left alone ("Already
      verified"); a wrong code is 406 with nothing stored; a right one stores
      the roles without "unverified" (500 when `put_user` answers another id). */
  function VerifyUserEmail(current: User, code: string, putId: int): (r: Result<Outcome>)
    ensures !HasRole(current, "unverified") <==> r == Ok(Outcome("Already verified", None))
    ensures r == Err(Http(NOT_ACCEPTABLE_406)) <==> HasRole(current, "unverified") && current.verifyCode != code
    ensures r.Ok? && r.value.stored.Some? ==>
      && r.value.status == "Ok"
      && r.value.stored.value == current.(roles := WithoutRole(current.roles, "unverified"))
    ensures r.Err? ==> r.error == Http(NOT_ACCEPTABLE_406) || r.error == Http(INTERNAL_SERVER_ERROR_500)
    ensures HasRole(current, "unverified") && current.verifyCode == code ==>
      && (r.Ok? <==> putId == current.userid)
      && (r.Ok? ==> r.value.stored.Some?)
  {
    if !HasRole(current, "unverified") then Ok(Outcome("Already verified", None))
    else if current.verifyCode != code then Err(Http(NOT_ACCEPTABLE_406))
    else
      var updated := current.(roles := WithoutRole(current.roles, "unverified"));
      if putId != current.userid then Err(Http(INTERNAL_SERVER_ERROR_500))
      else Ok(Outcome("Ok", Some(updated)))
  }

  /** After a successful verification no role word is "unverified" and the
      other words are kept in order. */
  lemma VerifyUserEmailRemovesUnverified(current: User, code: string, putId: int)
    requires VerifyUserEmail(current, code, putId).Ok?
    requires VerifyUserEmail(current, code, putId).value.stored.Some?
    ensures var u := VerifyUserEmail(current, code, putId).value.stored.value;
      && "unverified" !in Words(u.roles)
      && Words(u.roles) == Filter(Words(current.roles), IsNot("unverified"))
  {
    WithoutRoleWords(current.roles, "unverified");
  }

  // ---------------------------------------------------------------------------
  // Role assignment

  /** The role words the normalisation loop of `set_user_roles` keeps: a word
      is appended unless it is already a substring of what has been built. */
  function DedupKept(ws: seq<string>): seq<string> {
    if |ws| == 0 then []
    else
      var kept := DedupKept(ws[..|ws| - 1]);
      var w := ws[|ws| - 1];
      if IsSubstring(w, Join(kept, " ")) then kept else kept + [w]
  }

  /** The roles string `set_user_roles` stores for a payload. */
  function NormalizeRoles(payload: string): string {
    Join(DedupKept(Words(payload)), " ")
  }

  /** The normalisation loop of `set_user_roles`, with its `first` flag. */
  method DedupRoles(payload: string) returns (final: string)
    ensures final == NormalizeRoles(payload)
  {
    var roles := Words(payload);
    var first := true;
    final := "";
    for i := 0 to |roles|
      invariant final == Join(DedupKept(roles[..i]), " ")
      invariant first <==> DedupKept(roles[..i]) == []
    {
      assert roles[..i + 1][..i] == roles[..i];
      JoinSnoc(DedupKept(roles[..i]), roles[i], " ");
      if !IsSubstring(roles[i], final) {
        if first {
          first := false;
        } else {
          final := final + " ";
        }
        final := final + roles[i];
      }
    }
    assert roles[..|roles|] == roles;
  }

  /** Each kept word comes from the input. */
  lemma {:induction false} DedupKeptFromInput(ws: seq<string>)
    ensures forall i :: 0 <= i < |DedupKept(ws)| ==> DedupKept(ws)[i] in ws
    decreases |ws|
  {
    if |ws| > 0 {
      var init := ws[..|ws| - 1];
      DedupKeptFromInput(init);
      assert forall x :: x in init ==> x in ws;
    }
  }

  /** No kept word is a substring of the words kept before it (so in
      particular no word is kept twice). */
  lemma {:induction false} DedupKeptFresh(ws: seq<string>)
    ensures forall j :: 0 <= j < |DedupKept(ws)| ==>
      !IsSubstring(DedupKept(ws)[j], Join(DedupKept(ws)[..j], " "))
    decreases |ws|
  {
    if |ws| > 0 {
      var init := ws[..|ws| - 1];
      var kept := DedupKept(init);
      DedupKeptFresh(init);
      var k := DedupKept(ws);
      forall j | 0 <= j < |k|
        ensures !IsSubstring(k[j], Join(k[..j], " "))
      {
        if j < |kept| {
          assert k[j] == kept[j] && k[..j] == kept[..j];
        } else {
          assert k[..j] == kept;
        }
      }
    }
  }

  /** Every word of a list is a substring of the list joined. */
  lemma {:induction false} WordInJoin(ws: seq<string>, i: int, sep: string)
    requires 0 <= i < |ws|
    ensures IsSubstring(ws[i], Join(ws, sep))
    decreases |ws|
  {
    if |ws| == 1 {
      assert OccursAt(ws[0], ws[0], 0);
      OccurrenceIsSubstring(ws[0], ws[0], 0);
    } else {
      var init := ws[..|ws| - 1];
      assert Join(ws, sep) == (Join(init, sep) + sep) + ws[|ws| - 1];
      if i < |ws| - 1 {
        WordInJoin(init, i, sep);
        assert Join(ws, sep) == Join(init, sep) + (sep + ws[|ws| - 1]);
        SubstringOfLonger(ws[i], Join(init, sep), sep + ws[|ws| - 1]);
      } else {
        SuffixIsSubstring(Join(init, sep) + sep, ws[|ws| - 1]);
      }
    }
  }

  /** Nothing asked for is lost: every input word is a substring of the kept words joined. */
  lemma {:induction false} DedupKeptCovers(ws: seq<string>)
    ensures forall i :: 0 <= i < |ws| ==> IsSubstring(ws[i], Join(DedupKept(ws), " "))
  {
    forall i | 0 <= i < |ws|
      ensures IsSubstring(ws[i], Join(DedupKept(ws), " "))
    {
      DedupKeptCoversAt(ws, i);
    }
  }

  lemma {:induction false} DedupKeptCoversAt(ws: seq<string>, i: int)
    requires 0 <= i < |ws|
    ensures IsSubstring(ws[i], Join(DedupKept(ws), " "))
    decreases |ws|
  {
    var init := ws[..|ws| - 1];
    var kept := DedupKept(init);
    var w := ws[|ws| - 1];
    var extended := !IsSubstring(w, Join(kept, " "));
    assert DedupKept(ws) == if extended then kept + [w] else kept;
    if i < |init| {
      DedupKeptCoversAt(init, i);
      assert ws[i] == init[i];
      if extended {
        JoinSnoc(kept, w, " ");
        if kept != [] {
          assert Join(kept + [w], " ") == Join(kept, " ") + (" " + w);
          SubstringOfLonger(ws[i], Join(kept, " "), " " + w);
        } else {
          assert Join(kept, " ") == "";
          assert Join(kept + [w], " ") == "" + w;
          SubstringOfLongerLeft(ws[i], "", w);
        }
      }
    } else if extended {
      assert (kept + [w])[|kept|] == w;
      WordInJoin(kept + [w], |kept|, " ");
    }
  }

  /** No word of `ws` is a substring of the words before it. */
  predicate Fresh(ws: seq<string>) {
    forall j :: 0 <= j < |ws| ==> !IsSubstring(ws[j], Join(ws[..j], " "))
  }

  /** A prefix of a fresh list is fresh. */
  lemma FreshPrefix(ws: seq<string>, n: nat)
    requires Fresh(ws) && n <= |ws|
    ensures Fresh(ws[..n])
  {
    var init := ws[..n];
    forall j | 0 <= j < |init|
      ensures !IsSubstring(init[j], Join(init[..j], " "))
    {
      assert init[j] == ws[j] && init[..j] == ws[..j];
    }
  }

  /** The last word of a fresh list is not in the words before it. */
  lemma FreshLast(ws: seq<string>)
    requires Fresh(ws) && |ws| > 0
    ensures !IsSubstring(ws[|ws| - 1], Join(ws[..|ws| - 1], " "))
  {
  }

  /** A new word after words kept whole is kept too. */
  lemma DedupKeptKeepsNew(init: seq<string>, w: string)
    requires DedupKept(init) == init
    requires !IsSubstring(w, Join(init, " "))
    ensures DedupKept(init + [w]) == init + [w]
  {
    assert (init + [w])[..|init|] == init;
  }

  /** A list of fresh words is kept whole. */
  lemma {:induction false} DedupKeptOfFresh(ws: seq<string>)
    requires Fresh(ws)
    ensures DedupKept(ws) == ws
    decreases |ws|
  {
    if |ws| > 0 {
      FreshPrefix(ws, |ws| - 1);
      FreshLast(ws);
      DedupKeptOfFresh(ws[..|ws| - 1]);
      DedupKeptKeepsNew(ws[..|ws| - 1], ws[|ws| - 1]);
      InitLast(ws);
    }
  }

  /** The stored roles are single-spaced, hold each role word at most once,
      contain every requested word, and normalising them again changes nothing. */
  lemma NormalizeRolesProperties(payload: string)
    ensures SingleSpaced(NormalizeRoles(payload))
    ensures Words(NormalizeRoles(payload)) == DedupKept(Words(payload))
    ensures forall w :: w in Words(NormalizeRoles(payload)) ==> w in Words(payload)
    ensures forall i, j :: 0 <= i < j < |Words(NormalizeRoles(payload))| ==>
      Words(NormalizeRoles(payload))[i] != Words(NormalizeRoles(payload))[j]
    ensures forall w :: w in Words(payload) ==> IsSubstring(w, NormalizeRoles(payload))
    ensures NormalizeRoles(NormalizeRoles(payload)) == NormalizeRoles(payload)
  {
    var ws := Words(payload);
    var k := DedupKept(ws);
    DedupKeptFromInput(ws);
    assert AllWords(k);
    WordsOfJoin(k);
    JoinSingleSpaced(k);
    DedupKeptFresh(ws);
    assert Fresh(k);
    forall i, j | 0 <= i < j < |k|
      ensures k[i] != k[j]
    {
      WordInJoin(k[..j], i, " ");
      assert k[..j][i] == k[i];
    }
    DedupKeptCovers(ws);
    DedupKeptOfFresh(k);
  }

  /** `set_user_roles`, in the source's order: a caller without " admin" may
      only target their own account (401); an unknown user is 404; the
      superuser (userid 1) must keep " admin" in the payload (401); a
      non-administrator may not ask for " admin" (401); then the normalised
      roles are stored (500 when `put_user` answers another id). */
  function SetUserRoles(current: User, userid: int, payload: string, existing: Option<User>, putId: int): (r: Result<Outcome>)
    ensures !HasRole(current, " admin") && userid != current.userid ==> r == Err(Http(UNAUTHORIZED_401))
    ensures (HasRole(current, " admin") || userid == current.userid) && existing.None? ==> r == Err(Http(NOT_FOUND_404))
    ensures existing.Some? && existing.value.userid == 1 && !IsSubstring(" admin", payload) ==> r == Err(Http(UNAUTHORIZED_401))
    ensures existing.Some? && !HasRole(current, " admin") && IsSubstring(" admin", payload) ==> r == Err(Http(UNAUTHORIZED_401))
    ensures r.Ok? ==> existing.Some? && r.value == Outcome("ok", Some(existing.value.(roles := NormalizeRoles(payload))))
    ensures r.Ok? <==>
      && (HasRole(current, " admin") || userid == current.userid)
      && existing.Some?
      && (existing.value.userid == 1 ==> IsSubstring(" admin", payload))
      && (!HasRole(current, " admin") ==> !IsSubstring(" admin", payload))
      && putId == existing.value.userid
  {
    var isAdmin := HasRole(current, " admin");
    if !isAdmin && userid != current.userid then Err(Http(UNAUTHORIZED_401))
    else if existing.None? then Err(Http(NOT_FOUND_404))
    else if existing.value.userid == 1 && !IsSubstring(" admin", payload) then Err(Http(UNAUTHORIZED_401))
    else if !isAdmin && IsSubstring(" admin", payload) then Err(Http(UNAUTHORIZED_401))
    else
      var updated := existing.value.(roles := NormalizeRoles(payload));
      if putId != updated.userid then Err(Http(INTERNAL_SERVER_ERROR_500))
      else Ok(Outcome("ok", Some(updated)))
  }

  /** A single word after a space is stored as that word alone. */
  lemma NormalizeSpacedWord(w: string)
    requires IsWord(w)
    ensures NormalizeRoles(" " + w) == w
  {
    assert " " + w == "" + [' '] + w;
    WordsAroundSpace("", ' ', w);
    WordsOfWord(w);
    assert Words(" " + w) == [w];
    var one: seq<string> := [w];
    assert one[..0] == [];
    assert DedupKept(one) == one;
  }

  /** The superuser guard checks the raw payload, not the stored roles: the
      payload " admin" passes it, yet the stored roles "admin" no longer hold
      " admin", the text this module's handlers use to recognise administrators. */
  lemma SetUserRolesSuperuserLosesLeadingSpaceAdmin(current: User, superuser: User)
    requires HasRole(current, " admin") && superuser.userid == 1
    ensures var r := SetUserRoles(current, 1, " admin", Some(superuser), 1);
      && r.Ok? && r.value.stored.Some?
      && r.value.stored.value.roles == "admin"
      && !HasRole(r.value.stored.value, " admin")
  {
    var admin := "admin";
    var payload := " admin";
    assert payload == " " + admin;
    assert IsWord(admin);
    NormalizeSpacedWord(admin);
    assert OccursAt(payload, payload, 0);
    OccurrenceIsSubstring(payload, payload, 0);
    assert payload[0] == ' ' && ' ' !in admin;
    MissingCharNotSubstring(payload, admin, ' ');
  }

  // ---------------------------------------------------------------------------
  // Email change and disabling

  /** `set_user_email`: an unverified account is 412; the current address
      is "ok" with nothing stored; an address the validator rejects is 406;
      otherwise the normalised address and the new verification code are
      stored and the roles gain " unverified" (500 when `put_user` answers
      another id). */
  function SetUserEmail(current: User, payload: string, emailCheck: EmailCheck, newCode: string, putId: int): (r: Result<Outcome>)
    ensures HasRole(current, "unverified") ==> r == Err(Http(PRECONDITION_FAILED_412))
    ensures !HasRole(current, "unverified") && payload == current.email ==> r == Ok(Outcome("ok", None))
    ensures !HasRole(current, "unverified") && payload != current.email && emailCheck.EmailInvalid? ==> r == Err(Http(NOT_ACCEPTABLE_406))
    ensures r.Ok? && r.value.stored.Some? ==>
      && payload != current.email && emailCheck.EmailValid?
      && r.value.stored.value == current.(email := emailCheck.normalized, verifyCode := newCode, roles := current.roles + " unverified")
    ensures r.Ok? ==> r.value.status == "ok"
    ensures !HasRole(current, "unverified") && payload != current.email && emailCheck.EmailValid? ==>
      && (r.Ok? <==> putId == current.userid)
      && (r.Ok? ==> r.value.stored.Some?)
  {
    if HasRole(current, "unverified") then Err(Http(PRECONDITION_FAILED_412))
    else if payload == current.email then Ok(Outcome("ok", None))
    else if emailCheck.EmailInvalid? then Err(Http(NOT_ACCEPTABLE_406))
    else
      var updated := current.(email := emailCheck.normalized, verifyCode := newCode, roles := current.roles + " unverified");
      if putId != current.userid then Err(Http(INTERNAL_SERVER_ERROR_500))
      else Ok(Outcome("ok", Some(updated)))
  }

  /** A changed address marks the account unverified again: its role words
      are the old ones followed by "unverified", and email verification then
      accepts the new code and only that code. */
  lemma SetUserEmailUnverifies(current: User, payload: string, emailCheck: EmailCheck, newCode: string, putId: int)
    requires SetUserEmail(current, payload, emailCheck, newCode, putId).Ok?
    requires SetUserEmail(current, payload, emailCheck, newCode, putId).value.stored.Some?
    ensures var u := SetUserEmail(current, payload, emailCheck, newCode, putId).value.stored.value;
      && HasRole(u, "unverified")
      && Words(u.roles) == Words(current.roles) + ["unverified"]
      && VerifyUserEmail(u, newCode, u.userid).Ok?
      && (forall code :: code != newCode ==> VerifyUserEmail(u, code, u.userid) == Err(Http(NOT_ACCEPTABLE_406)))
  {
    var u := SetUserEmail(current, payload, emailCheck, newCode, putId).value.stored.value;
    var unverified := "unverified";
    assert u.roles == current.roles + " " + unverified;
    assert IsWord(unverified);
    AppendWord(current.roles, unverified);
    assert HasRole(u, unverified);
    assert u.verifyCode == newCode;
  }

  /** `delete_user`: the caller's roles gain " disabled" and nothing else
      changes (500 when `put_user` answers another id). */
  function DeleteUser(current: User, putId: int): (r: Result<User>)
    ensures r.Ok? <==> putId == current.userid
    ensures r.Ok? ==> r.value == current.(roles := current.roles + " disabled")
    ensures r.Err? ==> r.error == Http(INTERNAL_SERVER_ERROR_500)
  {
    var updated := current.(roles := current.roles + " disabled");
    if putId != current.userid then Err(Http(INTERNAL_SERVER_ERROR_500)) else Ok(updated)
  }

  /** A disabled account is refused from then on by `get_current_active_user`. */
  lemma DeleteUserLocksOut(current: User)
    ensures DeleteUser(current, current.userid).Ok?
    ensures CurrentActiveUser(DeleteUser(current, current.userid).value) == Err(Http(BAD_REQUEST_400))
  {
    SuffixIsSubstring(current.roles + " ", "disabled");
    assert current.roles + " disabled" == (current.roles + " ") + "disabled";
  }
}
