/**
 * The application state the program starts with: the session the handler
 * reports (or a guest when there is none), the ids and names of the user's
 * projects in the order the handler lists them, and the project selected at
 * start, the first one marked primary.
 */
module AppState {
  import opened Wrappers
  import opened Seqs
  import opened Store
  import Handler
  import ProjectForms

  /** The entries of `app_state` derived from the session at start. */
  datatype AppState = AppState(
    userName: string, userId: int, sessionUuid: string, sessionStart: Option<int>, isLoggedIn: bool,
    projectIds: seq<int>, projectNames: seq<string>, projectId: int)

  const NoProjectsName := "No Projects"

  function ProjectIds(info: seq<Handler.ProjectInfo>): seq<int> {
    seq(|info|, i requires 0 <= i < |info| => info[i].projectId)
  }

  function ProjectNames(info: seq<Handler.ProjectInfo>): seq<string> {
    seq(|info|, i requires 0 <= i < |info| => info[i].projectName)
  }

  predicate IsPrimary(p: Handler.ProjectInfo) {
    p.projectPrimary
  }

  /** The project selected at start: the first one marked primary, or else the first one. */
  function PrimaryProjectId(info: seq<Handler.ProjectInfo>): (r: int)
    requires info != []
    ensures (exists k :: 0 <= k < |info| && info[k].projectPrimary) ==>
      exists k :: 0 <= k < |info| && info[k].projectPrimary && r == info[k].projectId
                  && forall j :: 0 <= j < k ==> !info[j].projectPrimary
    ensures (forall k :: 0 <= k < |info| ==> !info[k].projectPrimary) ==> r == info[0].projectId
    ensures r in ProjectIds(info)
  {
    match IndexOf(info, IsPrimary)
    case Some(k) => assert ProjectIds(info)[k] == info[k].projectId; info[k].projectId
    case None =>
      assert forall k :: 0 <= k < |info| ==> info[k] in info;
      assert ProjectIds(info)[0] == info[0].projectId;
      info[0].projectId
  }

  /** The state `MyApp.__init__` derives from what `op_get_user_sessions` returned. */
  function AppStateOf(u: Option<Handler.SessionView>): AppState {
    var (userName, userId, sessionUuid, sessionStart, isLoggedIn) :=
      match u
      case None => ("Guest", -1, "No session", None, false)
      case Some(v) => (v.userInfo.username, v.userInfo.userId, v.sessionUuid, Some(v.sessionStart), v.isLoggedIn);
    var info := if u.Some? then u.value.projectInfo else [];
    if info == [] then AppState(userName, userId, sessionUuid, sessionStart, isLoggedIn, [0], [NoProjectsName], 0)
    else AppState(userName, userId, sessionUuid, sessionStart, isLoggedIn,
                  ProjectIds(info), ProjectNames(info), PrimaryProjectId(info))
  }

  /**
   * Ids and names come in pairs, in the handler's order, and the selected
   * project is one of them; without a session the user is a guest with the
   * placeholder project 0.
   */
  lemma AppStateShape(u: Option<Handler.SessionView>)
    ensures var st := AppStateOf(u);
      && |st.projectIds| == |st.projectNames| >= 1
      && st.projectId in st.projectIds
      && (u.None? ==> st == AppState("Guest", -1, "No session", None, false, [0], [NoProjectsName], 0))
      && (u.Some? && u.value.projectInfo != [] ==>
            |st.projectIds| == |u.value.projectInfo|
            && forall i :: 0 <= i < |st.projectIds| ==>
                 st.projectIds[i] == u.value.projectInfo[i].projectId
                 && st.projectNames[i] == u.value.projectInfo[i].projectName)
  {
  }

  /**
   * The assignments of `MyApp.__init__`, one entry at a time: the session
   * entries with their defaults, then one pass over the projects that
   * collects ids and names and remembers the first primary one.
   */
  method DeriveAppState(u: Option<Handler.SessionView>) returns (st: AppState)
    ensures st == AppStateOf(u)
  {
    var userName, userId, sessionUuid, sessionStart, isLoggedIn := "Guest", -1, "No session", None, false;
    if u.Some? {
      userName := u.value.userInfo.username;
      userId := u.value.userInfo.userId;
      sessionUuid := u.value.sessionUuid;
      sessionStart := Some(u.value.sessionStart);
      isLoggedIn := u.value.isLoggedIn;
    }
    var info := if u.Some? then u.value.projectInfo else [];
    if info == [] {
      return AppState(userName, userId, sessionUuid, sessionStart, isLoggedIn, [0], [NoProjectsName], 0);
    }
    var ids, names, primary := CollectProjects(info);
    var projectId := if primary.Some? then primary.value else ids[0];
    st := AppState(userName, userId, sessionUuid, sessionStart, isLoggedIn, ids, names, projectId);
  }

  /** The loop of `MyApp.__init__` over the projects: ids and names in order, and the first primary project's id. */
  method CollectProjects(info: seq<Handler.ProjectInfo>) returns (ids: seq<int>, names: seq<string>, primary: Option<int>)
    ensures ids == ProjectIds(info) && names == ProjectNames(info)
    ensures primary == (match IndexOf(info, IsPrimary) case None => None case Some(k) => Some(info[k].projectId))
  {
    ids, names, primary := [], [], None;
    var i := 0;
    while i < |info|
      invariant 0 <= i <= |info|
      invariant ids == ProjectIds(info[..i]) && names == ProjectNames(info[..i])
      invariant primary == (match IndexOf(info[..i], IsPrimary) case None => None case Some(k) => Some(info[k].projectId))
    {
      if primary.None? && info[i].projectPrimary {
        primary := Some(info[i].projectId);
      }
      FirstIndexExtends(info, i);
      ListsExtend(info, i);
      ids := ids + [info[i].projectId];
      names := names + [info[i].projectName];
      i := i + 1;
    }
    assert info[..|info|] == info;
  }

  /** Ids and names of one more entry. */
  lemma ListsExtend(info: seq<Handler.ProjectInfo>, i: nat)
    requires i < |info|
    ensures ProjectIds(info[..i + 1]) == ProjectIds(info[..i]) + [info[i].projectId]
    ensures ProjectNames(info[..i + 1]) == ProjectNames(info[..i]) + [info[i].projectName]
  {
    assert forall j :: 0 <= j < i ==> info[..i + 1][j] == info[..i][j];
  }

  /** Looking for the first primary project in one more entry. */
  lemma FirstIndexExtends(info: seq<Handler.ProjectInfo>, i: nat)
    requires i < |info|
    ensures IndexOf(info[..i + 1], IsPrimary) ==
      (if IndexOf(info[..i], IsPrimary).Some? then IndexOf(info[..i], IsPrimary)
       else if info[i].projectPrimary then Some(i) else None)
  {
    assert info[..i + 1] == info[..i] + [info[i]];
    IndexOfAppend(info[..i], info[i], IsPrimary);
  }

  /** The application: its state as derived at start. */
  class MyApp {
    var appState: AppState

    /**
     * `MyApp.__init__`: asks the handler for the session and derives the
     * state from the answer; with no single live session the user is a guest.
     */
    constructor (dbh: Handler.SQLLiteHandler, now: int)
      requires dbh.Valid()
      modifies dbh
      ensures dbh.Valid()
      ensures (|old(dbh.sessions)| != 1 || Handler.Expired(old(dbh.sessions)[0].sessionStart, now)) ==>
        appState == AppStateOf(None)
      ensures (|old(dbh.sessions)| == 1 && !Handler.Expired(old(dbh.sessions)[0].sessionStart, now)) ==>
        var s := old(dbh.sessions)[0];
        && appState.isLoggedIn && appState.sessionUuid == s.sessionUuid && appState.sessionStart == Some(s.sessionStart)
        && dbh.UserGetInfo(s.userId).Some?
        && appState.userName == dbh.UserGetInfo(s.userId).value.username
        && appState.userId == dbh.UserGetInfo(s.userId).value.userId == s.userId
        && (dbh.ProjectGetInfo(s.userId) != [] ==>
              appState.projectIds == ProjectIds(dbh.ProjectGetInfo(s.userId))
              && appState.projectNames == ProjectNames(dbh.ProjectGetInfo(s.userId))
              && appState.projectId == PrimaryProjectId(dbh.ProjectGetInfo(s.userId)))
        && (dbh.ProjectGetInfo(s.userId) == [] ==> appState.projectIds == [0] && appState.projectId == 0)
      ensures dbh.sessions ==
        (if |old(dbh.sessions)| == 1 && Handler.Expired(old(dbh.sessions)[0].sessionStart, now) then [] else old(dbh.sessions))
      ensures dbh.users == old(dbh.users) && dbh.projects == old(dbh.projects)
      ensures dbh.memberships == old(dbh.memberships) && dbh.labels == old(dbh.labels)
    {
      var u := dbh.GetUserSessions(now);
      var st := DeriveAppState(u);
      appState := st;
    }
  }

  // ---------------------------------------------------------------------
  // The project count the new-project form reads
  // ---------------------------------------------------------------------

  /** The count the new-project form takes from the state: the length of its project id list. */
  function FormProjectCount(st: AppState): nat {
    |st.projectIds|
  }

  /** The user's real projects in the state: the placeholder list `[0]` of a user without projects counts as none. */
  function ProjectCount(st: AppState): nat {
    if st.projectIds == [0] then 0 else |st.projectIds|
  }

  /**
   * As written: a logged-in user without projects has the placeholder id in
   * the state, so the form counts one project and, with a limit of 1, shows
   * the error box and refuses, while the handler's own quota check (no
   * membership, 0 below 1) does not refuse that user.
   */
  lemma PlaceholderCountedAsProject(sha256: string -> string, v: Handler.SessionView, users: seq<User>,
                                    memberships: seq<Membership>, projects: seq<Project>, req: ProjectRequest,
                                    id: int, now: string, form: ProjectForms.ProjectForm, formNow: string)
    requires v.userInfo.userId > 0 && v.projectInfo == []
    requires HasUser(users, v.userInfo.userId) && Handler.MaxProjectsIn(users, v.userInfo.userId) == 1
    requires Handler.MembershipCount(memberships, v.userInfo.userId) == 0
    ensures FormProjectCount(AppStateOf(Some(v))) == 1
    ensures ProjectForms.CreateProject(sha256, v.userInfo.userId, FormProjectCount(AppStateOf(Some(v))), 1, form, formNow)
            == Err(ProjectForms.LimitReached(1, 1))
    ensures ProjectForms.QuotaBanner(FormProjectCount(AppStateOf(Some(v))), 1) == ProjectForms.ErrorBox
    ensures Handler.ProjectCreateError(sha256, users, memberships, projects, req, v.userInfo.userId, id, now)
            != Some(QuotaReached(v.userInfo.userId, 1))
  {
  }

  /**
   * Corrected: counting only real projects, the form refuses for the limit,
   * and shows the error box, exactly when the handler's quota check refuses
   * the same user, given that the state lists the user's memberships with
   * their positive project ids.
   */
  lemma ProjectCountAgreesWithHandler(sha256: string -> string, v: Handler.SessionView, users: seq<User>,
                                      memberships: seq<Membership>, projects: seq<Project>, req: ProjectRequest,
                                      id: int, now: string, form: ProjectForms.ProjectForm, formNow: string)
    requires v.userInfo.userId > 0 && HasUser(users, v.userInfo.userId) && Present(req.name)
    requires forall i :: 0 <= i < |v.projectInfo| ==> v.projectInfo[i].projectId > 0
    requires |v.projectInfo| == Handler.MembershipCount(memberships, v.userInfo.userId)
    ensures ProjectCount(AppStateOf(Some(v))) == |v.projectInfo|
    ensures var uid, limit := v.userInfo.userId, Handler.MaxProjectsIn(users, v.userInfo.userId);
      var count := ProjectCount(AppStateOf(Some(v)));
      && ((ProjectForms.CreateProject(sha256, uid, count, limit, form, formNow) == Err(ProjectForms.LimitReached(count, limit)))
          <==> Handler.ProjectCreateError(sha256, users, memberships, projects, req, uid, id, now) == Some(QuotaReached(uid, limit)))
      && ((ProjectForms.QuotaBanner(count, limit) == ProjectForms.ErrorBox)
          <==> Handler.ProjectCreateError(sha256, users, memberships, projects, req, uid, id, now) == Some(QuotaReached(uid, limit)))
  {
  }
}
