/** The admin endpoints that list the audited user actions, each action code
    turned into its name and each action labelled with a user name. */
module UserActions {
  import opened Results
  import opened Records
  import opened Users
  import UserPages

  /** A row of the user action table. */
  datatype ActionRow = ActionRow(userid: int, actionCode: int, description: string, createdDate: string)

  /** One listed action (`UserActionResponse`). */
  datatype ActionResponse = ActionResponse(action: string, username: string, description: string,
                                           createdDate: string)

  /** `read_user_action`: 401 for a non-admin, 404 without the action, the
      name lookup's `IndexError` for a code outside the list; the answer is
      labelled with the caller's user name. */
  function ReadUserAction(current: User, action: Option<ActionRow>): (r: Result<ActionResponse>)
    ensures !HasRole(current, "admin") ==> r == Err(Http(UNAUTHORIZED_401))
    ensures HasRole(current, "admin") && action.None? ==> r == Err(Http(NOT_FOUND_404))
    ensures r.Ok? <==> HasRole(current, "admin") && action.Some? && ActionName(action.value.actionCode).Ok?
    ensures r.Err? && !IsHttp(r, UNAUTHORIZED_401) && !IsHttp(r, NOT_FOUND_404) ==> r == Err(Raised("IndexError"))
    ensures r.Ok? ==>
      && r.value.action in UserActionNames
      && r.value == ActionResponse(ActionName(action.value.actionCode).value, current.username,
                                   action.value.description, action.value.createdDate)
  {
    if !HasRole(current, "admin") then Err(Http(UNAUTHORIZED_401))
    else if action.None? then Err(Http(NOT_FOUND_404))
    else
      var a := action.value;
      var name := ActionName(a.actionCode);
      if name.Err? then Err(name.error)
      else Ok(ActionResponse(name.value, current.username, a.description, a.createdDate))
  }

  // ---------------------------------------------------------------------------
  // All actions, joined with all users

  /** The last user in `us` with the given id: the one the inner loop of
      `read_all_user_actions` settles on. */
  function LastMatch(us: seq<UserPages.UserPublic>, userid: int): (m: Option<UserPages.UserPublic>)
    ensures m.None? <==> forall i :: 0 <= i < |us| ==> us[i].userid != userid
    ensures m.Some? ==>
      exists i :: 0 <= i < |us| && us[i] == m.value && m.value.userid == userid
                  && forall j :: i < j < |us| ==> us[j].userid != userid
  {
    if |us| == 0 then None
    else if us[|us| - 1].userid == userid then Some(us[|us| - 1])
    else LastMatch(us[..|us| - 1], userid)
  }

  /** The entry for one action: labelled with the last matching user's name;
      with no matching user, the previous entry again, or `UnboundLocalError`
      when there is none yet. */
  function EntryFor(a: ActionRow, us: seq<UserPages.UserPublic>, prev: Option<ActionResponse>)
    : Result<ActionResponse>
  {
    var m := LastMatch(us, a.userid);
    if m.Some? then
      var name := ActionName(a.actionCode);
      if name.Err? then Err(name.error)
      else Ok(ActionResponse(name.value, m.value.username, a.description, a.createdDate))
    else if prev.Some? then Ok(prev.value)
    else Err(Raised("UnboundLocalError"))
  }

  /** What `read_all_user_actions` computes for an admin: one entry per
      action in order, each seeing the entry before it; the first exception
      ends the listing. */
  function JoinedActions(actions: seq<ActionRow>, us: seq<UserPages.UserPublic>): (r: Result<seq<ActionResponse>>)
    ensures r.Ok? ==> |r.value| == |actions|
  {
    if |actions| == 0 then Ok([])
    else
      var prefix := JoinedActions(actions[..|actions| - 1], us);
      if prefix.Err? then prefix
      else
        var prev := if |prefix.value| == 0 then None else Some(prefix.value[|prefix.value| - 1]);
        var e := EntryFor(actions[|actions| - 1], us, prev);
        if e.Err? then Err(e.error) else Ok(prefix.value + [e.value])
  }

  /** Once an exception is raised, later actions do not matter. */
  lemma {:induction false} JoinedActionsErrPersists(actions: seq<ActionRow>, us: seq<UserPages.UserPublic>, k: nat)
    requires k <= |actions| && JoinedActions(actions[..k], us).Err?
    ensures JoinedActions(actions, us) == JoinedActions(actions[..k], us)
    decreases |actions| - k
  {
    if k < |actions| {
      var n := |actions[..k + 1]|;
      assert actions[..k + 1][..n - 1] == actions[..k];
      JoinedActionsErrPersists(actions, us, k + 1);
    } else {
      assert actions[..k] == actions;
    }
  }

  /** The listing has exactly one entry per action: the action's name, its
      description and date, and the name of the last user with its user id;
      an action whose user is unknown repeats the entry before it. */
  lemma {:induction false} JoinedActionsEntries(actions: seq<ActionRow>, us: seq<UserPages.UserPublic>, i: int)
    requires JoinedActions(actions, us).Ok? && 0 <= i < |actions|
    ensures var es := JoinedActions(actions, us).value;
      var m := LastMatch(us, actions[i].userid);
      && (m.Some? ==>
           && ActionName(actions[i].actionCode).Ok?
           && es[i] == ActionResponse(ActionName(actions[i].actionCode).value, m.value.username,
                                      actions[i].description, actions[i].createdDate))
      && (m.None? ==> i > 0 && es[i] == es[i - 1])
  {
    var n := |actions|;
    var prefix := JoinedActions(actions[..n - 1], us);
    if i < n - 1 {
      assert actions[..n - 1][i] == actions[i];
      JoinedActionsEntries(actions[..n - 1], us, i);
      if LastMatch(us, actions[i].userid).None? {
        assert JoinedActions(actions, us).value[i - 1] == prefix.value[i - 1];
      }
    }
  }

  /** An action list whose first action has no known user raises `UnboundLocalError`. */
  lemma {:induction false} FirstActionUnmatched(actions: seq<ActionRow>, us: seq<UserPages.UserPublic>)
    requires |actions| > 0 && LastMatch(us, actions[0].userid).None?
    ensures JoinedActions(actions, us) == Err(Raised("UnboundLocalError"))
  {
    var one := actions[..1];
    assert one[..0] == [];
    assert one[0] == actions[0];
    assert JoinedActions(one, us) == Err(Raised("UnboundLocalError"));
    JoinedActionsErrPersists(actions, us, 1);
  }

  /** `read_all_user_actions`: 401 for a non-admin; otherwise the nested
      loop over actions and users, `retAction` surviving from one action to
      the next. */
  method ReadAllUserActions(current: User, actionList: seq<ActionRow>, userList: seq<UserPages.UserPublic>)
    returns (r: Result<seq<ActionResponse>>)
    ensures !HasRole(current, "admin") ==> r == Err(Http(UNAUTHORIZED_401))
    ensures HasRole(current, "admin") ==> r == JoinedActions(actionList, userList)
  {
    if !HasRole(current, "admin") {
      return Err(Http(UNAUTHORIZED_401));
    }
    var retList: seq<ActionResponse> := [];
    var retAction: Option<ActionResponse> := None;
    for i := 0 to |actionList|
      invariant JoinedActions(actionList[..i], userList) == Ok(retList)
      invariant retAction == if i == 0 then None else Some(retList[i - 1])
    {
      var a := actionList[i];
      var prev := retAction;
      for j := 0 to |userList|
        invariant LastMatch(userList[..j], a.userid).None? ==> retAction == prev
        invariant LastMatch(userList[..j], a.userid).Some? ==>
          && ActionName(a.actionCode).Ok?
          && retAction == Some(ActionResponse(ActionName(a.actionCode).value,
                                              LastMatch(userList[..j], a.userid).value.username,
                                              a.description, a.createdDate))
      {
        assert userList[..j + 1][..j] == userList[..j];
        var u := userList[j];
        if a.userid == u.userid {
          var name := ActionName(a.actionCode);
          if name.Err? {
            assert userList[..j + 1][j] == u;
            assert LastMatch(userList, a.userid).Some?;
            assert actionList[..i + 1][..i] == actionList[..i];
            assert EntryFor(a, userList, prev).Err?;
            JoinedActionsErrPersists(actionList, userList, i + 1);
            return Err(name.error);
          }
          retAction := Some(ActionResponse(name.value, u.username, a.description, a.createdDate));
        }
      }
      assert userList[..|userList|] == userList;
      assert actionList[..i + 1][..i] == actionList[..i];
      if retAction.None? {
        assert EntryFor(a, userList, prev) == Err(Raised("UnboundLocalError"));
        JoinedActionsErrPersists(actionList, userList, i + 1);
        return Err(Raised("UnboundLocalError"));
      }
      assert EntryFor(a, userList, prev) == Ok(retAction.value);
      retList := retList + [retAction.value];
    }
    assert actionList[..|actionList|] == actionList;
    r := Ok(retList);
  }

  // ---------------------------------------------------------------------------
  // One user's actions

  /** The entry for one action of the requested user. The name is looked up
      first, so a bad code raises `IndexError` even when the user is missing;
      a missing user then raises `AttributeError`. */
  function ThisUserEntry(a: ActionRow, user: Option<UserPages.UserPublic>): Result<ActionResponse> {
    var name := ActionName(a.actionCode);
    if name.Err? then Err(name.error)
    else if user.None? then Err(Raised("AttributeError"))
    else Ok(ActionResponse(name.value, user.value.username, a.description, a.createdDate))
  }

  /** What `read_all_this_users_actions` lists for an admin: the entries in
      order, up to the first exception. */
  function ThisUsersEntries(actions: seq<ActionRow>, user: Option<UserPages.UserPublic>)
    : (r: Result<seq<ActionResponse>>)
    ensures r.Ok? ==> |r.value| == |actions|
  {
    if |actions| == 0 then Ok([])
    else
      var prefix := ThisUsersEntries(actions[..|actions| - 1], user);
      if prefix.Err? then prefix
      else
        var e := ThisUserEntry(actions[|actions| - 1], user);
        if e.Err? then Err(e.error) else Ok(prefix.value + [e.value])
  }

  lemma {:induction false} ThisUsersEntriesErrPersists(actions: seq<ActionRow>, user: Option<UserPages.UserPublic>,
                                                       k: nat)
    requires k <= |actions| && ThisUsersEntries(actions[..k], user).Err?
    ensures ThisUsersEntries(actions, user) == ThisUsersEntries(actions[..k], user)
    decreases |actions| - k
  {
    if k < |actions| {
      var n := |actions[..k + 1]|;
      assert actions[..k + 1][..n - 1] == actions[..k];
      ThisUsersEntriesErrPersists(actions, user, k + 1);
    } else {
      assert actions[..k] == actions;
    }
  }

  /** The listing succeeds exactly when the user exists (or there is nothing
      to list) and every code names an action. */
  lemma {:induction false} ThisUsersEntriesOk(actions: seq<ActionRow>, user: Option<UserPages.UserPublic>)
    ensures ThisUsersEntries(actions, user).Ok? <==>
      && (user.Some? || |actions| == 0)
      && forall i :: 0 <= i < |actions| ==> ActionName(actions[i].actionCode).Ok?
  {
    if |actions| > 0 {
      var n := |actions|;
      var init := actions[..n - 1];
      ThisUsersEntriesOk(init, user);
      var e := ThisUserEntry(actions[n - 1], user);
      assert ThisUsersEntries(actions, user).Ok? <==> ThisUsersEntries(init, user).Ok? && e.Ok?;
      assert e.Ok? <==> ActionName(actions[n - 1].actionCode).Ok? && user.Some?;
      assert (forall i :: 0 <= i < n ==> ActionName(actions[i].actionCode).Ok?) <==>
        (forall i :: 0 <= i < n - 1 ==> ActionName(init[i].actionCode).Ok?) && ActionName(actions[n - 1].actionCode).Ok?
      by {
        forall i | 0 <= i < n - 1
          ensures init[i] == actions[i]
        {
        }
      }
    }
  }

  /** A successful listing maps the actions one to one, in order, all
      labelled with the user's name. */
  lemma {:induction false} ThisUsersEntryAt(actions: seq<ActionRow>, user: Option<UserPages.UserPublic>, i: int)
    requires ThisUsersEntries(actions, user).Ok? && 0 <= i < |actions|
    ensures user.Some? && ActionName(actions[i].actionCode).Ok?
    ensures ThisUsersEntries(actions, user).value[i]
            == ActionResponse(ActionName(actions[i].actionCode).value, user.value.username,
                              actions[i].description, actions[i].createdDate)
  {
    var n := |actions|;
    if i < n - 1 {
      assert actions[..n - 1][i] == actions[i];
      ThisUsersEntryAt(actions[..n - 1], user, i);
    }
  }

  /** `read_all_this_users_actions`: the user is looked up first, so for a
      non-admin a missing user raises `AttributeError` where a present one
      gives 401; an admin gets the loop over the user's actions. */
  method ReadAllThisUsersActions(current: User, user: Option<UserPages.UserPublic>, actionList: seq<ActionRow>)
    returns (r: Result<seq<ActionResponse>>)
    ensures !HasRole(current, "admin") && user.None? ==> r == Err(Raised("AttributeError"))
    ensures !HasRole(current, "admin") && user.Some? ==> r == Err(Http(UNAUTHORIZED_401))
    ensures HasRole(current, "admin") ==> r == ThisUsersEntries(actionList, user)
  {
    if !HasRole(current, "admin") {
      if user.None? {
        return Err(Raised("AttributeError"));
      }
      return Err(Http(UNAUTHORIZED_401));
    }
    var retList: seq<ActionResponse> := [];
    for i := 0 to |actionList|
      invariant ThisUsersEntries(actionList[..i], user) == Ok(retList)
    {
      var a := actionList[i];
      assert actionList[..i + 1][..i] == actionList[..i];
      var name := ActionName(a.actionCode);
      if name.Err? {
        ThisUsersEntriesErrPersists(actionList, user, i + 1);
        return Err(name.error);
      }
      if user.None? {
        ThisUsersEntriesErrPersists(actionList, user, i + 1);
        return Err(Raised("AttributeError"));
      }
      retList := retList + [ActionResponse(name.value, user.value.username, a.description, a.createdDate)];
    }
    assert actionList[..|actionList|] == actionList;
    r := Ok(retList);
  }
}
