/**
 * `SQLLiteHandler`: the database operations over the five tables. Each
 * operation checks its inputs in the order the handler does, raises the
 * same errors (as `Err`), and changes exactly the rows its SQL statements
 * change. SHA-256 is an opaque function given to the handler; uuids and the
 * current time are parameters.
 */
module Handler {
  import opened Wrappers
  import opened Seqs
  import opened Store

  const DefaultPwSalt := "fiwa_default_salt_2026"
  const DefaultMaxProjects := 3
  const DefaultScope := "user:write"
  const LocalLogin := "local_login"
  const DefaultPermModel := "000000"
  const DefaultLabelStatus := 2
  const DefaultLabelType := 1
  /** Thirty minutes, in microseconds. */
  const SessionTimeout := 30 * 60 * 1000000

  /** `hash_password`: the digest of the password followed by the salt. */
  function HashPassword(sha256: string -> string, password: string, salt: string): string {
    sha256(password + salt)
  }

  // ---------------------------------------------------------------------
  // Users
  // ---------------------------------------------------------------------

  /** The required keys of `op_user_create`, in the order they are checked. */
  function RequiredFields(req: UserRequest): seq<(string, Option<string>)> {
    [("first_name", req.firstName), ("last_name", req.lastName), ("username", req.username),
     ("email", req.email), ("password", req.password)]
  }

  /** The first key that is missing or empty, if any. */
  function FirstMissing(fields: seq<(string, Option<string>)>): (r: Option<string>)
    ensures r.None? <==> forall i :: 0 <= i < |fields| ==> Present(fields[i].1)
    ensures r.Some? ==> exists i :: 0 <= i < |fields| && fields[i].0 == r.value && !Present(fields[i].1)
                                   && forall j :: 0 <= j < i ==> Present(fields[j].1)
  {
    if fields == [] then None
    else if !Present(fields[0].1) then Some(fields[0].0)
    else
      var r := FirstMissing(fields[1..]);
      assert r.Some? ==> exists i :: 1 <= i < |fields| && fields[i].0 == r.value && !Present(fields[i].1)
                                     && forall j :: 0 <= j < i ==> Present(fields[j].1)
      by {
        if r.Some? {
          var k :| 0 <= k < |fields[1..]| && fields[1..][k].0 == r.value && !Present(fields[1..][k].1)
                   && forall j :: 0 <= j < k ==> Present(fields[1..][j].1);
          assert forall j :: 0 <= j < k + 1 ==> Present(fields[j].1) by {
            forall j | 0 <= j < k + 1 ensures Present(fields[j].1) {
              if j > 0 { assert fields[j] == fields[1..][j - 1]; }
            }
          }
        }
      }
      r
  }

  /** The loop of `op_user_create` over the required keys: the first one missing or empty, if any. */
  method CheckRequired(fields: seq<(string, Option<string>)>) returns (missing: Option<string>)
    ensures missing == FirstMissing(fields)
  {
    var i := 0;
    while i < |fields|
      invariant 0 <= i <= |fields|
      invariant forall j :: 0 <= j < i ==> Present(fields[j].1)
    {
      if !Present(fields[i].1) {
        assert FirstMissing(fields[i..]) == Some(fields[i].0);
        FirstMissingSkips(fields, i);
        return Some(fields[i].0);
      }
      i := i + 1;
    }
    return None;
  }

  predicate EmailTaken(users: seq<User>, email: string) {
    exists u :: u in users && u.email == email
  }

  predicate UsernameTaken(users: seq<User>, username: string) {
    exists u :: u in users && u.username == username
  }

  /** The error `op_user_create` raises for `req`, if any: a missing field, then the email, then the username constraint. */
  function UserCreateError(users: seq<User>, req: UserRequest): (r: Option<Error>)
    ensures r.None? <==> && Present(req.firstName) && Present(req.lastName) && Present(req.username)
                         && Present(req.email) && Present(req.password)
                         && !EmailTaken(users, req.email.value) && !UsernameTaken(users, req.username.value)
    ensures r.Some? && r.value.MissingField? ==> r.value.field in ["first_name", "last_name", "username", "email", "password"]
    ensures Present(req.firstName) && Present(req.lastName) && Present(req.username) && Present(req.email)
            && Present(req.password) && EmailTaken(users, req.email.value)
            ==> r == Some(EmailExists(req.email.value))
  {
    var fields := RequiredFields(req);
    match FirstMissing(fields)
    case Some(f) =>
      assert f in ["first_name", "last_name", "username", "email", "password"] by {
        var i :| 0 <= i < |fields| && fields[i].0 == f && !Present(fields[i].1);
      }
      Some(MissingField(f))
    case None =>
      assert forall i :: 0 <= i < |fields| ==> Present(fields[i].1);
      assert Present(fields[0].1) && Present(fields[1].1) && Present(fields[2].1) && Present(fields[3].1) && Present(fields[4].1);
      if EmailTaken(users, req.email.value) then Some(EmailExists(req.email.value))
      else if UsernameTaken(users, req.username.value) then Some(UserExists)
      else None
  }

  /** The row `op_user_create` inserts: the given fields, and the defaults for the optional ones. */
  function NewUser(req: UserRequest, id: int, passwordHash: string, uuid: string): User
    requires Present(req.firstName) && Present(req.lastName) && Present(req.username) && Present(req.email)
  {
    User(id, req.firstName.value, req.lastName.value, req.username.value, req.birthday,
         req.email.value, passwordHash,
         req.activated.GetOr(true), req.isSuperuser.GetOr(false),
         req.scope.GetOr(DefaultScope), req.maxProjects.GetOr(DefaultMaxProjects), uuid)
  }

  /** A request naming only the required fields gets three projects, the user scope, an active and ordinary account. */
  lemma NewUserDefaults(req: UserRequest, id: int, passwordHash: string, uuid: string)
    requires Present(req.firstName) && Present(req.lastName) && Present(req.username) && Present(req.email)
    requires req.maxProjects.None? && req.isSuperuser.None? && req.scope.None? && req.activated.None?
    ensures var u := NewUser(req, id, passwordHash, uuid);
      u.maxProjects == 3 && !u.isSuperuser && u.scope == "user:write" && u.activated
      && u.birthday == req.birthday && u.passwordHash == passwordHash && u.uniqueIdentifier == uuid
  {
  }

  /** `op_user_get_info`'s dictionary: every column but the password hash. */
  datatype UserInfo = UserInfo(
    userId: int, firstName: string, lastName: string, username: string, email: string,
    birthday: Val, activated: bool, isSuperuser: bool, scope: string, maxProjects: int,
    uniqueIdentifier: string)

  function InfoOf(u: User): UserInfo {
    UserInfo(u.userId, u.firstName, u.lastName, u.username, u.email, u.birthday,
             u.activated, u.isSuperuser, u.scope, u.maxProjects, u.uniqueIdentifier)
  }

  /** `op_user_get_info` over the users table. */
  function UserInfoIn(users: seq<User>, userId: int): (r: Option<UserInfo>)
    ensures r.Some? <==> HasUser(users, userId)
    ensures r.Some? ==> exists u :: u in users && u.userId == userId && r.value == InfoOf(u)
  {
    match FindUser(users, userId)
    case None => None
    case Some(i) => Some(InfoOf(users[i]))
  }

  /** `op_get_max_projects` over the users table: the user's limit, or 3 for an unknown user. */
  function MaxProjectsIn(users: seq<User>, userId: int): (r: int)
    ensures HasUser(users, userId) ==> exists u :: u in users && u.userId == userId && r == u.maxProjects
    ensures !HasUser(users, userId) ==> r == 3
  {
    match FindUser(users, userId)
    case None => DefaultMaxProjects
    case Some(i) => users[i].maxProjects
  }

  /** With unique user ids the limit read is the one of the user with that id. */
  lemma MaxProjectsOfUser(users: seq<User>, u: User)
    requires Pairwise(users, DistinctUsers) && u in users
    ensures MaxProjectsIn(users, u.userId) == u.maxProjects
  {
    var i := FindUser(users, u.userId).value;
    var k :| 0 <= k < |users| && users[k] == u;
  }

  // ---------------------------------------------------------------------
  // Sessions
  // ---------------------------------------------------------------------

  /** The dictionary `op_user_login` returns. */
  datatype SessionInfo = SessionInfo(userId: int, sessionUuid: string, sessionStart: int, sessionType: string)

  /** A session started at `start` has expired at `now`: more than thirty minutes have passed. */
  predicate Expired(start: int, now: int) {
    now - start > SessionTimeout
  }

  // ---------------------------------------------------------------------
  // Projects
  // ---------------------------------------------------------------------

  /** A row of `op_project_get_info`: the project joined with the user's membership. */
  datatype ProjectInfo = ProjectInfo(
    projectId: int, projectName: string, description: Val, createdAt: string,
    currencyMain: Val, currencyList: seq<string>, projectHash: string,
    projectPrimary: bool, projectPermModel: string)

  function JoinRow(p: Project, m: Membership): ProjectInfo {
    ProjectInfo(p.projectId, p.name, p.description, p.createdAt, p.currencyMain,
                p.currencyList, p.projectHash, m.primary, m.permModel)
  }

  /** The projects matching one membership row. */
  function JoinMembership(m: Membership, projects: seq<Project>): seq<ProjectInfo> {
    var ps := Filter(projects, ProjectWithId(m.projectId));
    seq(|ps|, i requires 0 <= i < |ps| => JoinRow(ps[i], m))
  }

  /** `projects JOIN user_project_map ON project_id WHERE user_id = ?`, in membership order. */
  function ProjectsOf(memberships: seq<Membership>, projects: seq<Project>, userId: int): (r: seq<ProjectInfo>)
    ensures forall info :: info in r ==>
      (exists m :: m in memberships && m.userId == userId && m.projectId == info.projectId
                   && m.primary == info.projectPrimary && m.permModel == info.projectPermModel)
      && (exists p :: p in projects && p.projectId == info.projectId && p.name == info.projectName
                      && p.projectHash == info.projectHash)
  {
    if memberships == [] then []
    else
      var m := memberships[0];
      var head := if m.userId == userId then JoinMembership(m, projects) else [];
      var tail := ProjectsOf(memberships[1..], projects, userId);
      assert forall info :: info in head ==>
        && m in memberships && m.userId == userId && m.projectId == info.projectId
        && m.primary == info.projectPrimary && m.permModel == info.projectPermModel
        && exists p :: p in projects && p.projectId == info.projectId && p.name == info.projectName
                       && p.projectHash == info.projectHash
      by {
        forall info | info in head
          ensures && m in memberships && m.userId == userId && m.projectId == info.projectId
                  && m.primary == info.projectPrimary && m.permModel == info.projectPermModel
          ensures exists p :: p in projects && p.projectId == info.projectId && p.name == info.projectName
                              && p.projectHash == info.projectHash
        {
          var ps := Filter(projects, ProjectWithId(m.projectId));
          var i :| 0 <= i < |head| && head[i] == info;
          assert ps[i] in ps;
        }
      }
      assert forall x :: x in memberships[1..] ==> x in memberships;
      head + tail
  }

  /** With unique project ids, exactly one project has the id of an existing project. */
  lemma {:induction false} OneProjectWithId(projects: seq<Project>, id: int)
    requires Pairwise(projects, DistinctProjects) && HasProject(projects, id)
    ensures |Filter(projects, ProjectWithId(id))| == 1
  {
    var t := projects[1..];
    assert Pairwise(t, DistinctProjects) by {
      forall i, j | 0 <= i < j < |t| ensures DistinctProjects(t[i], t[j]) {
        assert t[i] == projects[i + 1] && t[j] == projects[j + 1];
      }
    }
    if projects[0].projectId == id {
      forall x | x in t ensures x.projectId != id {
        var k :| 0 <= k < |t| && t[k] == x;
        assert DistinctProjects(projects[0], projects[k + 1]);
      }
      FilterKeepsNone(t, ProjectWithId(id));
      assert Filter(projects, ProjectWithId(id)) == [projects[0]] + Filter(t, ProjectWithId(id));
    } else {
      var p :| p in projects && p.projectId == id;
      assert p in t by {
        var k :| 0 <= k < |projects| && projects[k] == p;
        assert k != 0 && projects[k] == t[k - 1];
      }
      OneProjectWithId(t, id);
    }
  }

  /**
   * When every membership names an existing project and project ids are
   * unique, the join yields one row per membership of the user.
   */
  lemma {:induction false} ProjectsOfCount(memberships: seq<Membership>, projects: seq<Project>, userId: int)
    requires Pairwise(projects, DistinctProjects)
    requires forall m :: m in memberships ==> HasProject(projects, m.projectId)
    ensures |ProjectsOf(memberships, projects, userId)| == |Filter(memberships, MembershipOf(userId))|
  {
    if memberships != [] {
      var m := memberships[0];
      ProjectsOfCount(memberships[1..], projects, userId);
      if m.userId == userId {
        OneProjectWithId(projects, m.projectId);
      }
    }
  }

  /** `info` is membership `m` joined with the project of the table holding `m`'s project id. */
  predicate Joined(projects: seq<Project>, m: Membership, info: ProjectInfo) {
    && FindProject(projects, m.projectId).Some?
    && info == JoinRow(projects[FindProject(projects, m.projectId).value], m)
  }

  /** With unique project ids, a project of the table is the one `FindProject` finds for its id. */
  lemma ProjectWithIdIsFound(projects: seq<Project>, p: Project)
    requires Pairwise(projects, DistinctProjects) && p in projects
    ensures FindProject(projects, p.projectId).Some?
    ensures projects[FindProject(projects, p.projectId).value] == p
  {
    var k :| 0 <= k < |projects| && projects[k] == p;
    assert FindProject(projects, p.projectId).Some?;
  }

  /**
   * The join, row by row: with unique project ids and every membership
   * naming an existing project, the `k`-th row is the user's `k`-th
   * membership joined with the project holding its id.
   */
  lemma {:induction false} ProjectsOfJoin(memberships: seq<Membership>, projects: seq<Project>, userId: int)
    requires Pairwise(projects, DistinctProjects)
    requires forall m :: m in memberships ==> HasProject(projects, m.projectId)
    ensures var r, ms := ProjectsOf(memberships, projects, userId), Filter(memberships, MembershipOf(userId));
      && |r| == |ms|
      && forall k :: 0 <= k < |ms| ==> Joined(projects, ms[k], r[k])
  {
    if memberships != [] {
      var m, t := memberships[0], memberships[1..];
      assert forall x :: x in t ==> HasProject(projects, x.projectId) by {
        assert forall x :: x in t ==> x in memberships;
      }
      ProjectsOfJoin(t, projects, userId);
      FilterCons(memberships, MembershipOf(userId));
      ProjectsOfCons(memberships, projects, userId);
      if m.userId == userId {
        JoinMembershipOne(m, projects);
        JoinedCons(projects, m, JoinRow(projects[FindProject(projects, m.projectId).value], m),
                   Filter(t, MembershipOf(userId)), ProjectsOf(t, projects, userId));
      }
    }
  }

  lemma ProjectsOfCons(memberships: seq<Membership>, projects: seq<Project>, userId: int)
    requires memberships != []
    ensures ProjectsOf(memberships, projects, userId)
            == (if memberships[0].userId == userId then JoinMembership(memberships[0], projects) else [])
               + ProjectsOf(memberships[1..], projects, userId)
  {
  }

  /** One more membership and its joined row, in front of a joined list. */
  lemma JoinedCons(projects: seq<Project>, m: Membership, row: ProjectInfo, ms: seq<Membership>, rows: seq<ProjectInfo>)
    requires Joined(projects, m, row) && |rows| == |ms|
    requires forall k :: 0 <= k < |ms| ==> Joined(projects, ms[k], rows[k])
    ensures forall k :: 0 <= k < |ms| + 1 ==> Joined(projects, ([m] + ms)[k], ([row] + rows)[k])
  {
  }

  /** With unique project ids, an existing project's membership joins with exactly that project. */
  lemma JoinMembershipOne(m: Membership, projects: seq<Project>)
    requires Pairwise(projects, DistinctProjects) && HasProject(projects, m.projectId)
    ensures JoinMembership(m, projects) == [JoinRow(projects[FindProject(projects, m.projectId).value], m)]
  {
    OneProjectWithId(projects, m.projectId);
    var ps := Filter(projects, ProjectWithId(m.projectId));
    assert ps[0] in ps;
    ProjectWithIdIsFound(projects, ps[0]);
  }

  /** The number of memberships of the user, as `COUNT(*)` reads it. */
  function MembershipCount(memberships: seq<Membership>, userId: int): nat {
    |Filter(memberships, MembershipOf(userId))|
  }

  /** The text the project hash digests when it is recomputed from the project's own columns. */
  function StoredHashInput(p: Project): string {
    HashInput(p.name, OrEmpty(p.description), OrEmpty(p.currencyMain))
  }

  /** `op_project_create`'s hash input: the description as written (None as "None"), then `currency_main or ''`. */
  function CreateHashInput(name: string, description: Val, currencyMain: Val): string {
    HashInput(name, Show(description), OrEmpty(currencyMain))
  }

  /** The row `op_project_create` inserts, with its defaults. */
  function NewProject(sha256: string -> string, req: ProjectRequest, id: int, now: string): Project
    requires Present(req.name)
  {
    var description := req.description.GetOr(Str(""));
    var currencyMain := req.currencyMain.GetOr(NoneVal);
    Project(id, req.name.value, description, req.createdAt.GetOr(now), currencyMain,
            req.currencyList.GetOr([]), sha256(CreateHashInput(req.name.value, description, currencyMain)))
  }

  /**
   * A created project's hash digests its own stored name, description and
   * main currency, unless the description was given as `None`: that one is
   * stored as NULL but digested as the text "None".
   */
  lemma NewProjectHash(sha256: string -> string, req: ProjectRequest, id: int, now: string)
    requires Present(req.name)
    ensures var p := NewProject(sha256, req, id, now);
      && (req.description != Some(NoneVal) ==> p.projectHash == sha256(StoredHashInput(p)))
      && (req.description == Some(NoneVal) ==>
            p.description == NoneVal && p.projectHash == sha256(HashInput(p.name, "None", OrEmpty(p.currencyMain))))
  {
  }

  /** `op_project_update` writes nothing: no truthy name and none of the other three keys. */
  predicate NoProjectFields(patch: ProjectPatch) {
    !(patch.name.Some? && Truthy(patch.name.value))
    && patch.description.None? && patch.currencyMain.None? && patch.currencyList.None?
  }

  /**
   * The project `op_project_update` writes: a truthy name, a description
   * (empty text for a falsy one), the main currency as given, the currency
   * list; and, when any of the keys name, description or currency_main is
   * present, a hash of the supplied-or-stored values.
   */
  function PatchProject(sha256: string -> string, p: Project, patch: ProjectPatch): Project {
    var name := if patch.name.Some? && Truthy(patch.name.value) then patch.name.value.s else p.name;
    var description :=
      if patch.description.Some? then (if Truthy(patch.description.value) then patch.description.value else Str(""))
      else p.description;
    var currencyMain := if patch.currencyMain.Some? then patch.currencyMain.value else p.currencyMain;
    var currencyList := if patch.currencyList.Some? then patch.currencyList.value else p.currencyList;
    var hashName := if patch.name.Some? then Show(patch.name.value) else p.name;
    var hashDescription := if patch.description.Some? then Show(patch.description.value) else OrEmpty(p.description);
    var hashCurrency := if patch.currencyMain.Some? then Show(patch.currencyMain.value) else OrEmpty(p.currencyMain);
    var hash :=
      if patch.name.Some? || patch.description.Some? || patch.currencyMain.Some?
      then sha256(HashInput(hashName, hashDescription, hashCurrency))
      else p.projectHash;
    Project(p.projectId, name, description, p.createdAt, currencyMain, currencyList, hash)
  }

  /**
   * What a patch leaves alone: the id and creation time always, each column
   * whose key is absent, and the hash when none of name, description and
   * currency_main is given. A patch of string values keeps a hash that
   * digests the stored columns such a hash.
   */
  lemma PatchProjectSpec(sha256: string -> string, p: Project, patch: ProjectPatch)
    ensures var q := PatchProject(sha256, p, patch);
      && q.projectId == p.projectId && q.createdAt == p.createdAt
      && (patch.description.None? ==> q.description == p.description)
      && (patch.currencyMain.None? ==> q.currencyMain == p.currencyMain)
      && (patch.currencyList.None? ==> q.currencyList == p.currencyList)
      && (q.name != p.name ==> patch.name.Some? && Truthy(patch.name.value) && q.name == patch.name.value.s)
      && (patch.name.None? && patch.description.None? && patch.currencyMain.None? ==> q.projectHash == p.projectHash)
    ensures var q := PatchProject(sha256, p, patch);
      (patch.name.None? || Truthy(patch.name.value))
      && (patch.description.None? || patch.description.value.Str?)
      && (patch.currencyMain.None? || patch.currencyMain.value.Str?)
      && (patch.name.Some? || patch.description.Some? || patch.currencyMain.Some? || p.projectHash == sha256(StoredHashInput(p)))
      ==> q.projectHash == sha256(StoredHashInput(q))
  {
  }

  /**
   * A present but empty name is not written, yet it is what the new hash
   * digests: the stored name stays while the hash input starts with "|".
   */
  lemma PatchProjectEmptyName(sha256: string -> string, p: Project, patch: ProjectPatch)
    requires patch.name == Some(Str("")) && p.name != ""
    ensures var q := PatchProject(sha256, p, patch);
      q.name == p.name
      && q.projectHash == sha256(HashInput("", if patch.description.Some? then Show(patch.description.value) else OrEmpty(p.description),
                                               if patch.currencyMain.Some? then Show(patch.currencyMain.value) else OrEmpty(p.currencyMain)))
      && HashInput("", OrEmpty(q.description), OrEmpty(q.currencyMain)) != StoredHashInput(q)
  {
    var q := PatchProject(sha256, p, patch);
    var d, c := OrEmpty(q.description), OrEmpty(q.currencyMain);
    assert HashInput("", d, c)[0] == '|';
    assert StoredHashInput(q)[0] == q.name[0];
    if q.name[0] == '|' {
      assert |HashInput(q.name, d, c)| > |HashInput("", d, c)|;
    }
  }

  // ---------------------------------------------------------------------
  // Labels
  // ---------------------------------------------------------------------

  /** The row `op_label_create` inserts, with its defaults. */
  function NewLabel(req: LabelRequest, id: int, projectId: int, now: string): Label
    requires Present(req.name)
  {
    Label(id, projectId, req.name.value, req.description.GetOr(Str("")), now,
          req.composite.GetOr([]), req.status.GetOr(DefaultLabelStatus), req.labelType.GetOr(DefaultLabelType))
  }

  /** A label created from a name alone is active, of type 1, with an empty description and composite. */
  lemma NewLabelDefaults(req: LabelRequest, id: int, projectId: int, now: string)
    requires Present(req.name) && req.description.None? && req.composite.None? && req.status.None? && req.labelType.None?
    ensures var l := NewLabel(req, id, projectId, now);
      l.status == 2 && l.labelType == 1 && l.description == Str("") && l.composite == []
      && l.name == req.name.value && l.projectId == projectId
  {
  }

  predicate LabelNameTaken(labels: seq<Label>, projectId: int, name: string) {
    exists l :: l in labels && l.projectId == projectId && l.name == name
  }

  /** `op_label_update` writes nothing: no truthy name and none of the other keys. */
  predicate NoLabelFields(patch: LabelPatch) {
    !(patch.name.Some? && Truthy(patch.name.value))
    && patch.description.None? && patch.composite.None? && patch.status.None? && patch.labelType.None?
  }

  /** The label `op_label_update` writes: a truthy name, and the other present keys as given. */
  function PatchLabel(l: Label, patch: LabelPatch): Label {
    Label(l.labelId, l.projectId,
          if patch.name.Some? && Truthy(patch.name.value) then patch.name.value.s else l.name,
          patch.description.GetOr(l.description), l.createdAt,
          patch.composite.GetOr(l.composite), patch.status.GetOr(l.status), patch.labelType.GetOr(l.labelType))
  }

  /** A label patch never moves the label to another project or changes its id or creation time, and a patch that writes nothing is the identity. */
  lemma PatchLabelSpec(l: Label, patch: LabelPatch)
    ensures var q := PatchLabel(l, patch);
      && q.labelId == l.labelId && q.projectId == l.projectId && q.createdAt == l.createdAt
      && (q.name != l.name ==> patch.name.Some? && Truthy(patch.name.value))
      && (NoLabelFields(patch) ==> q == l)
  {
  }

  /** The labels table and next id after `op_label_create(req, projectId)`, and whether it succeeded. */
  function LabelCreateOutcome(labels: seq<Label>, next: int, req: LabelRequest, projectId: int, now: string): (seq<Label>, int, bool) {
    if Present(req.name) && !LabelNameTaken(labels, projectId, req.name.value)
    then (labels + [NewLabel(req, next, projectId, now)], next + 1, true)
    else (labels, next, false)
  }

  /** The labels table after `op_label_update(labelId, patch)`, and whether it succeeded. */
  function LabelUpdateOutcome(labels: seq<Label>, labelId: int, patch: LabelPatch): (seq<Label>, bool) {
    match FindLabel(labels, labelId)
    case None => (labels, false)
    case Some(i) =>
      if NoLabelFields(patch) then (labels, false)
      else
        var q := PatchLabel(labels[i], patch);
        if exists j :: 0 <= j < |labels| && j != i && labels[j].projectId == q.projectId && labels[j].name == q.name
        then (labels, false)
        else (labels[i := q], true)
  }

  /** `UPDATE labels SET label_status = 0 WHERE label_id = ?`. */
  function SoftDeleted(labels: seq<Label>, labelId: int): (r: seq<Label>)
    ensures |r| == |labels|
  {
    seq(|labels|, i requires 0 <= i < |labels| =>
      if labels[i].labelId == labelId then labels[i].(status := 0) else labels[i])
  }

  /** A soft delete changes only the status of the label with that id, to 0, and leaves every other label as it was. */
  lemma SoftDeleteSpec(labels: seq<Label>, labelId: int)
    ensures var r := SoftDeleted(labels, labelId);
      forall i :: 0 <= i < |labels| ==>
        (labels[i].labelId == labelId ==> r[i] == labels[i].(status := 0) && r[i].status == 0)
        && (labels[i].labelId != labelId ==> r[i] == labels[i])
  {
  }

  /**
   * A hard delete removes the label with that id and keeps every other one;
   * with unique ids it removes exactly one row of an existing label, and
   * nothing when no label has that id.
   */
  lemma HardDeleteSpec(labels: seq<Label>, labelId: int)
    ensures forall l :: l in Filter(labels, LabelNotId(labelId)) <==> l in labels && l.labelId != labelId
    ensures Pairwise(labels, DistinctLabels) && (exists l :: l in labels && l.labelId == labelId)
      ==> |Filter(labels, LabelNotId(labelId))| == |labels| - 1
    ensures (forall l :: l in labels ==> l.labelId != labelId) ==> Filter(labels, LabelNotId(labelId)) == labels
  {
    if Pairwise(labels, DistinctLabels) && (exists l :: l in labels && l.labelId == labelId) {
      HardDeleteOne(labels, labelId);
    }
    if forall l :: l in labels ==> l.labelId != labelId {
      FilterKeepsAll(labels, LabelNotId(labelId));
    }
  }

  lemma {:induction false} HardDeleteOne(labels: seq<Label>, labelId: int)
    requires Pairwise(labels, DistinctLabels) && exists l :: l in labels && l.labelId == labelId
    ensures |Filter(labels, LabelNotId(labelId))| == |labels| - 1
  {
    var t := labels[1..];
    assert Pairwise(t, DistinctLabels) by {
      forall i, j | 0 <= i < j < |t| ensures DistinctLabels(t[i], t[j]) {
        assert t[i] == labels[i + 1] && t[j] == labels[j + 1];
      }
    }
    if labels[0].labelId == labelId {
      forall x | x in t ensures x.labelId != labelId {
        var k :| 0 <= k < |t| && t[k] == x;
        assert DistinctLabels(labels[0], labels[k + 1]);
      }
      FilterKeepsAll(t, LabelNotId(labelId));
    } else {
      var l :| l in labels && l.labelId == labelId;
      assert l in t by {
        var k :| 0 <= k < |labels| && labels[k] == l;
        assert k != 0 && labels[k] == t[k - 1];
      }
      HardDeleteOne(t, labelId);
    }
  }

  /** The labels of one project, as any list holding them, have distinct names. */
  lemma NamesUniqueInProject(labels: seq<Label>, projectId: int, a: seq<Label>)
    requires Pairwise(labels, DistinctLabels)
    requires multiset(a) == multiset(Filter(labels, InProject(projectId)))
    ensures forall x, y :: x in a && y in a && x.name == y.name ==> x == y
  {
    var f := Filter(labels, InProject(projectId));
    forall x, y | x in a && y in a && x.name == y.name ensures x == y {
      assert x in multiset(a) && y in multiset(a);
      assert x in f && y in f;
      var i :| 0 <= i < |labels| && labels[i] == x;
      var j :| 0 <= j < |labels| && labels[j] == y;
      if i < j {
        assert false;
      } else if j < i {
        assert false;
      }
    }
  }

  /**
   * Two lists sorted by name holding the same labels, with names unique
   * among them, are the same list: `ORDER BY name` fixes the result.
   */
  lemma {:induction false} SortedByNameUnique(a: seq<Label>, b: seq<Label>)
    requires SortedByName(a) && SortedByName(b) && multiset(a) == multiset(b)
    requires forall x, y :: x in a && y in a && x.name == y.name ==> x == y
    ensures a == b
  {
    assert |a| == |multiset(a)| == |multiset(b)| == |b|;
    if a != [] {
      SortedHeadsEqual(a, b);
      TailSorted(a);
      TailSorted(b);
      TailMultiset(a, b);
      assert forall x :: x in a[1..] ==> x in a;
      SortedByNameUnique(a[1..], b[1..]);
      assert a == [a[0]] + a[1..] && b == [b[0]] + b[1..];
    }
  }

  /** Two sorted lists of the same labels, names unique, start with the same label. */
  lemma SortedHeadsEqual(a: seq<Label>, b: seq<Label>)
    requires a != [] && b != []
    requires SortedByName(a) && SortedByName(b) && multiset(a) == multiset(b)
    requires forall x, y :: x in a && y in a && x.name == y.name ==> x == y
    ensures a[0] == b[0]
  {
    assert a[0] in multiset(b) && b[0] in multiset(a);
    SortedHeadFirst(b, a[0]);
    SortedHeadFirst(a, b[0]);
    NameLeAntisymmetric(a[0].name, b[0].name);
    assert a[0] in a && b[0] in a;
  }

  /** Removing equal heads from equal multisets leaves equal multisets. */
  lemma TailMultiset(a: seq<Label>, b: seq<Label>)
    requires a != [] && b != [] && a[0] == b[0] && multiset(a) == multiset(b)
    ensures multiset(a[1..]) == multiset(b[1..])
  {
    assert a == [a[0]] + a[1..] && b == [b[0]] + b[1..];
    assert multiset(a) == multiset{a[0]} + multiset(a[1..]);
    assert multiset(b) == multiset{a[0]} + multiset(b[1..]);
    assert multiset(a[1..]) == multiset(a) - multiset{a[0]};
  }

  /** The head of a list sorted by name sorts before or equal to every element. */
  lemma SortedHeadFirst(s: seq<Label>, x: Label)
    requires SortedByName(s) && x in s
    ensures NameLe(s[0].name, x.name)
  {
    var i :| 0 <= i < |s| && s[i] == x;
    if i == 0 {
      NameLeReflexive(x.name);
    }
  }

  /**
   * The error `op_project_create` raises, checked in this order: an empty
   * name, an unknown user, a user at their project limit, a hash already in
   * the projects table.
   */
  function ProjectCreateError(sha256: string -> string, users: seq<User>, memberships: seq<Membership>,
                              projects: seq<Project>, req: ProjectRequest, userId: int, id: int, now: string): (r: Option<Error>)
    ensures !Present(req.name) ==> r == Some(ProjectNameRequired)
    ensures Present(req.name) && !HasUser(users, userId) ==> r == Some(UserNotFound(userId))
    ensures Present(req.name) && HasUser(users, userId)
            && MembershipCount(memberships, userId) >= MaxProjectsIn(users, userId)
            ==> r == Some(QuotaReached(userId, MaxProjectsIn(users, userId)))
    ensures Present(req.name) && HasUser(users, userId)
            && MembershipCount(memberships, userId) < MaxProjectsIn(users, userId)
            ==> (r.Some? <==> exists q :: q in projects && q.projectHash == NewProject(sha256, req, id, now).projectHash)
                && (r.Some? ==> r == Some(SimilarProject))
  {
    if !Present(req.name) then Some(ProjectNameRequired)
    else if !HasUser(users, userId) then Some(UserNotFound(userId))
    else if MembershipCount(memberships, userId) >= MaxProjectsIn(users, userId)
    then Some(QuotaReached(userId, MaxProjectsIn(users, userId)))
    else if exists q :: q in projects && q.projectHash == NewProject(sha256, req, id, now).projectHash
    then Some(SimilarProject)
    else None
  }

  /** Some row other than the `i`-th already holds project hash `h`. */
  predicate HashTakenByOther(projects: seq<Project>, i: int, h: string) {
    exists j :: 0 <= j < |projects| && j != i && projects[j].projectHash == h
  }

  /**
   * The error `op_project_update` raises, checked in this order: a falsy
   * project id, an unknown project, a patch with nothing to write, and a new
   * hash another project already has.
   */
  function ProjectUpdateError(sha256: string -> string, projects: seq<Project>, patch: ProjectPatch): (r: Option<Error>)
    ensures !(patch.projectId.Some? && patch.projectId.value != 0) ==> r == Some(ProjectIdRequired)
    ensures (patch.projectId.Some? && patch.projectId.value != 0 && !HasProject(projects, patch.projectId.value))
            ==> r == Some(ProjectNotFound(patch.projectId.value))
    ensures (patch.projectId.Some? && patch.projectId.value != 0 && HasProject(projects, patch.projectId.value)
             && NoProjectFields(patch)) ==> r == Some(NoFieldsToUpdate)
    ensures (patch.projectId.Some? && patch.projectId.value != 0 && HasProject(projects, patch.projectId.value)
             && !NoProjectFields(patch)) ==>
      var i := FindProject(projects, patch.projectId.value).value;
      && (r.Some? <==> HashTakenByOther(projects, i, PatchProject(sha256, projects[i], patch).projectHash))
      && (r.Some? ==> r == Some(SimilarProject))
  {
    if !(patch.projectId.Some? && patch.projectId.value != 0) then Some(ProjectIdRequired)
    else
      var found := FindProject(projects, patch.projectId.value);
      if found.None? then Some(ProjectNotFound(patch.projectId.value))
      else if NoProjectFields(patch) then Some(NoFieldsToUpdate)
      else if HashTakenByOther(projects, found.value, PatchProject(sha256, projects[found.value], patch).projectHash)
      then Some(SimilarProject)
      else None
  }

  /**
   * The error `op_project_add_user` raises, checked in this order: an unknown
   * project, an unknown user, a user already in the project.
   */
  function ProjectAddUserError(users: seq<User>, projects: seq<Project>, memberships: seq<Membership>,
                               projectId: int, userId: int): (r: Option<Error>)
    ensures !HasProject(projects, projectId) ==> r == Some(ProjectNotFound(projectId))
    ensures HasProject(projects, projectId) && !HasUser(users, userId) ==> r == Some(UserNotFound(userId))
    ensures HasProject(projects, projectId) && HasUser(users, userId) ==>
      && (r.Some? <==> exists m :: m in memberships && m.userId == userId && m.projectId == projectId)
      && (r.Some? ==> r == Some(AlreadyMember(userId, projectId)))
  {
    if FindProject(projects, projectId).None? then Some(ProjectNotFound(projectId))
    else if FindUser(users, userId).None? then Some(UserNotFound(userId))
    else if exists m :: m in memberships && m.userId == userId && m.projectId == projectId
    then Some(AlreadyMember(userId, projectId))
    else None
  }

  /** A membership with a fresh id, of an existing user in an existing project they are not yet in, keeps the table constraint. */
  lemma AppendMembershipKeepsTable(memberships: seq<Membership>, users: seq<User>, projects: seq<Project>,
                                   next: int, m: Membership)
    requires MembershipsOk(memberships, users, projects, next) && m.id == next
    requires HasUser(users, m.userId) && HasProject(projects, m.projectId)
    requires !(exists x :: x in memberships && x.userId == m.userId && x.projectId == m.projectId)
    ensures MembershipsOk(memberships + [m], users, projects, next + 1)
  {
    PairwiseAppend(memberships, m, DistinctMemberships);
  }

  /** Appending a user with the next id and an email and username nobody has keeps the tables' constraints. */
  lemma AppendUserKeepsTables(users: seq<User>, sessions: seq<Session>, projects: seq<Project>, memberships: seq<Membership>,
                              nextUserId: int, nextSessionId: int, nextMembershipId: int, u: User)
    requires UsersOk(users, nextUserId) && SessionsOk(sessions, users, nextSessionId)
    requires MembershipsOk(memberships, users, projects, nextMembershipId)
    requires u.userId == nextUserId && !EmailTaken(users, u.email) && !UsernameTaken(users, u.username)
    ensures UsersOk(users + [u], nextUserId + 1) && SessionsOk(sessions, users + [u], nextSessionId)
    ensures MembershipsOk(memberships, users + [u], projects, nextMembershipId)
  {
    PairwiseAppend(users, u, DistinctUsers);
    assert forall s :: s in sessions && HasUser(users, s.userId) ==> HasUser(users + [u], s.userId);
    assert forall m :: m in memberships && HasUser(users, m.userId) ==> HasUser(users + [u], m.userId);
  }

  /** Replacing a label by one with the same id and a name no other label of its project has keeps the table's constraint. */
  lemma UpdateLabelKeepsTable(labels: seq<Label>, nextLabelId: int, i: int, q: Label)
    requires LabelsOk(labels, nextLabelId) && 0 <= i < |labels| && q.labelId == labels[i].labelId
    requires forall j :: 0 <= j < |labels| && j != i ==> labels[j].projectId != q.projectId || labels[j].name != q.name
    ensures LabelsOk(labels[i := q], nextLabelId)
  {
    forall j | 0 <= j < |labels| && j != i
      ensures DistinctLabels(labels[j], q) && DistinctLabels(q, labels[j])
    {
      if j < i {
        assert DistinctLabels(labels[j], labels[i]);
      } else {
        assert DistinctLabels(labels[i], labels[j]);
      }
    }
    PairwiseUpdate(labels, i, q, DistinctLabels);
  }

  /** A session with the next id, for an existing user, replacing that user's sessions keeps the table's constraint. */
  lemma ReplaceSessionKeepsTable(sessions: seq<Session>, users: seq<User>, nextSessionId: int, s: Session)
    requires SessionsOk(sessions, users, nextSessionId) && s.id == nextSessionId && HasUser(users, s.userId)
    ensures SessionsOk(ReplaceSession(sessions, s), users, nextSessionId + 1)
  {
    ReplaceSessionSpec(sessions, s);
  }

  /** Replacing a project by one with the same id and a hash no other project has keeps both tables' constraints. */
  lemma UpdateProjectKeepsTables(users: seq<User>, projects: seq<Project>, memberships: seq<Membership>,
                                 nextProjectId: int, nextMembershipId: int, i: int, q: Project)
    requires ProjectsOk(projects, nextProjectId) && MembershipsOk(memberships, users, projects, nextMembershipId)
    requires 0 <= i < |projects| && q.projectId == projects[i].projectId
    requires forall j :: 0 <= j < |projects| && j != i ==> projects[j].projectHash != q.projectHash
    ensures ProjectsOk(projects[i := q], nextProjectId)
    ensures MembershipsOk(memberships, users, projects[i := q], nextMembershipId)
  {
    forall j | 0 <= j < |projects| && j != i
      ensures DistinctProjects(projects[j], q) && DistinctProjects(q, projects[j])
    {
      if j < i {
        assert DistinctProjects(projects[j], projects[i]);
      } else {
        assert DistinctProjects(projects[i], projects[j]);
      }
    }
    PairwiseUpdate(projects, i, q, DistinctProjects);
    var ps := projects[i := q];
    forall x | x in memberships ensures HasProject(ps, x.projectId) {
      var p :| p in projects && p.projectId == x.projectId;
      var k :| 0 <= k < |projects| && projects[k] == p;
      assert ps[k].projectId == p.projectId;
      assert ps[k] in ps;
    }
  }

  /** Appending a project with a fresh id and hash, and its owner's membership, keeps both tables' constraints. */
  lemma AppendProjectKeepsTables(users: seq<User>, projects: seq<Project>, memberships: seq<Membership>,
                                 nextProjectId: int, nextMembershipId: int, p: Project, m: Membership)
    requires ProjectsOk(projects, nextProjectId) && MembershipsOk(memberships, users, projects, nextMembershipId)
    requires p.projectId == nextProjectId && m.id == nextMembershipId && m.projectId == nextProjectId
    requires HasUser(users, m.userId)
    requires forall q :: q in projects ==> q.projectHash != p.projectHash
    ensures ProjectsOk(projects + [p], nextProjectId + 1)
    ensures MembershipsOk(memberships + [m], users, projects + [p], nextMembershipId + 1)
  {
    PairwiseAppend(projects, p, DistinctProjects);
    var ps := projects + [p];
    assert HasProject(ps, p.projectId) by { assert p in ps; }
    forall x | x in memberships ensures DistinctMemberships(x, m) && HasProject(ps, x.projectId) {
      var q :| q in projects && q.projectId == x.projectId;
      assert q in ps;
    }
    PairwiseAppend(memberships, m, DistinctMemberships);
  }

  // ---------------------------------------------------------------------
  // The handler
  // ---------------------------------------------------------------------

  /** What `op_get_user_sessions` returns for a live session. */
  datatype SessionView = SessionView(
    userId: int, sessionUuid: string, sessionStart: int, sessionType: string, isLoggedIn: bool,
    userInfo: UserInfo, projectInfo: seq<ProjectInfo>)

  class SQLLiteHandler {
    const sha256: string -> string
    var pwSalt: string
    var users: seq<User>
    var sessions: seq<Session>
    var projects: seq<Project>
    var memberships: seq<Membership>
    var labels: seq<Label>
    /** The ids the next inserts receive, as `lastrowid` reports them. */
    var nextUserId: int
    var nextSessionId: int
    var nextProjectId: int
    var nextMembershipId: int
    var nextLabelId: int

    /** The table constraints: unique keys, fresh next ids, and rows that name existing users and projects. */
    ghost predicate Valid()
      reads this
    {
      && UsersOk(users, nextUserId)
      && SessionsOk(sessions, users, nextSessionId)
      && ProjectsOk(projects, nextProjectId)
      && MembershipsOk(memberships, users, projects, nextMembershipId)
      && LabelsOk(labels, nextLabelId)
    }

    /** A handler on an empty database, with the default password salt. */
    constructor (sha256: string -> string)
      ensures Valid()
      ensures this.sha256 == sha256 && pwSalt == DefaultPwSalt
      ensures users == [] && sessions == [] && projects == [] && memberships == [] && labels == []
    {
      this.sha256 := sha256;
      pwSalt := DefaultPwSalt;
      users, sessions, projects, memberships, labels := [], [], [], [], [];
      nextUserId, nextSessionId, nextProjectId, nextMembershipId, nextLabelId := 1, 1, 1, 1, 1;
    }

    /** `set_pw_salt`. */
    method SetPwSalt(salt: string)
      modifies this
      ensures pwSalt == salt
      ensures users == old(users) && sessions == old(sessions) && projects == old(projects)
      ensures memberships == old(memberships) && labels == old(labels)
      ensures nextUserId == old(nextUserId) && nextSessionId == old(nextSessionId) && nextProjectId == old(nextProjectId)
      ensures nextMembershipId == old(nextMembershipId) && nextLabelId == old(nextLabelId)
    {
      pwSalt := salt;
    }

    /**
     * `op_user_create`: the required fields are checked in order, then the
     * email and username constraints; on success one user row is appended
     * and its id returned. On an error no table changes.
     */
    method UserCreate(req: UserRequest, uuid: string) returns (r: Result<int, Error>)
      requires Valid()
      modifies this
      ensures Valid()
      ensures r.Err? <==> UserCreateError(old(users), req).Some?
      ensures r.Err? ==> r.error == UserCreateError(old(users), req).value && unchanged(this)
      ensures r.Ok? ==> && r.value == old(nextUserId)
                        && users == old(users) + [NewUser(req, r.value, HashPassword(sha256, req.password.value, pwSalt), uuid)]
                        && nextUserId == old(nextUserId) + 1
      ensures sessions == old(sessions) && projects == old(projects) && memberships == old(memberships)
      ensures labels == old(labels) && pwSalt == old(pwSalt)
      ensures nextSessionId == old(nextSessionId) && nextProjectId == old(nextProjectId)
      ensures nextMembershipId == old(nextMembershipId) && nextLabelId == old(nextLabelId)
    {
      var fields := RequiredFields(req);
      var missing := CheckRequired(fields);
      if missing.Some? {
        return Err(MissingField(missing.value));
      }
      assert Present(fields[0].1) && Present(fields[1].1) && Present(fields[2].1) && Present(fields[3].1) && Present(fields[4].1);
      var email, username := req.email.value, req.username.value;
      if EmailTaken(users, email) {
        return Err(EmailExists(email));
      }
      if UsernameTaken(users, username) {
        return Err(UserExists);
      }
      var hash := HashPassword(sha256, req.password.value, pwSalt);
      var u := NewUser(req, nextUserId, hash, uuid);
      AppendUserKeepsTables(users, sessions, projects, memberships, nextUserId, nextSessionId, nextMembershipId, u);
      users := users + [u];
      r := Ok(nextUserId);
      nextUserId := nextUserId + 1;
    }

    /**
     * `op_user_login`: the first activated user whose username or email is
     * `identifier` and whose password hash matches gets a fresh session
     * replacing any session of theirs; otherwise nothing changes.
     */
    method UserLogin(identifier: string, password: string, now: int, uuid: string) returns (r: Option<SessionInfo>)
      requires Valid()
      modifies this
      ensures Valid()
      ensures var m := IndexOf(old(users), LoginMatches(identifier, HashPassword(sha256, password, old(pwSalt))));
        && (m.None? ==> r.None? && sessions == old(sessions) && nextSessionId == old(nextSessionId))
        && (m.Some? ==>
              var uid := old(users)[m.value].userId;
              && r == Some(SessionInfo(uid, uuid, now, LocalLogin))
              && sessions == ReplaceSession(old(sessions), Session(old(nextSessionId), uid, now, uuid, LocalLogin))
              && nextSessionId == old(nextSessionId) + 1)
      ensures users == old(users) && projects == old(projects) && memberships == old(memberships)
      ensures labels == old(labels) && pwSalt == old(pwSalt)
      ensures nextUserId == old(nextUserId) && nextProjectId == old(nextProjectId)
      ensures nextMembershipId == old(nextMembershipId) && nextLabelId == old(nextLabelId)
    {
      var hash := HashPassword(sha256, password, pwSalt);
      var m := IndexOf(users, LoginMatches(identifier, hash));
      if m.None? {
        return None;
      }
      var uid := users[m.value].userId;
      var s := Session(nextSessionId, uid, now, uuid, LocalLogin);
      assert HasUser(users, uid) by { assert users[m.value] in users; }
      ReplaceSessionKeepsTable(sessions, users, nextSessionId, s);
      sessions := ReplaceSession(sessions, s);
      nextSessionId := nextSessionId + 1;
      r := Some(SessionInfo(uid, uuid, now, LocalLogin));
    }

    /** `op_user_logout`: delete the sessions with that uuid; always reports success. */
    method UserLogout(uuid: string) returns (ok: bool)
      requires Valid()
      modifies this
      ensures Valid()
      ensures ok
      ensures sessions == Filter(old(sessions), SessionNotUuid(uuid))
      ensures forall s :: s in sessions <==> s in old(sessions) && s.sessionUuid != uuid
      ensures users == old(users) && projects == old(projects) && memberships == old(memberships)
      ensures labels == old(labels) && pwSalt == old(pwSalt)
      ensures nextUserId == old(nextUserId) && nextSessionId == old(nextSessionId) && nextProjectId == old(nextProjectId)
      ensures nextMembershipId == old(nextMembershipId) && nextLabelId == old(nextLabelId)
    {
      FilterPairwise(sessions, SessionNotUuid(uuid), DistinctSessions);
      sessions := Filter(sessions, SessionNotUuid(uuid));
      ok := true;
    }

    /** `op_user_get_info`. */
    function UserGetInfo(userId: int): (r: Option<UserInfo>)
      reads this
      ensures r.Some? <==> HasUser(users, userId)
      ensures r.Some? ==> exists u :: u in users && u.userId == userId && r.value == InfoOf(u)
    {
      UserInfoIn(users, userId)
    }

    /** `op_get_max_projects`: the user's limit, or 3 when there is no such user. */
    function GetMaxProjects(userId: int): (r: int)
      reads this
      ensures HasUser(users, userId) ==> exists u :: u in users && u.userId == userId && r == u.maxProjects
      ensures !HasUser(users, userId) ==> r == 3
    {
      MaxProjectsIn(users, userId)
    }

    /** `op_project_get_info`: one row per membership of the user, joined with its project. */
    function ProjectGetInfo(userId: int): (r: seq<ProjectInfo>)
      reads this
      requires Valid()
      ensures |r| == MembershipCount(memberships, userId)
      ensures forall info :: info in r ==>
        exists m :: m in memberships && m.userId == userId && m.projectId == info.projectId
                    && m.primary == info.projectPrimary && m.permModel == info.projectPermModel
      ensures var ms := Filter(memberships, MembershipOf(userId));
        forall k :: 0 <= k < |ms| ==> Joined(projects, ms[k], r[k])
    {
      ProjectsOfJoin(memberships, projects, userId);
      ProjectsOf(memberships, projects, userId)
    }

    /**
     * `op_get_user_sessions`: anything but exactly one session row gives
     * nothing; a single row older than thirty minutes is logged out and gives
     * nothing; otherwise the session, its user and their projects.
     */
    method GetUserSessions(now: int) returns (r: Option<SessionView>)
      requires Valid()
      modifies this
      ensures Valid()
      ensures |old(sessions)| != 1 ==> r.None? && sessions == old(sessions)
      ensures |old(sessions)| == 1 && Expired(old(sessions)[0].sessionStart, now) ==> r.None? && sessions == []
      ensures |old(sessions)| == 1 && !Expired(old(sessions)[0].sessionStart, now) ==>
        var s := old(sessions)[0];
        && sessions == old(sessions)
        && r.Some? && r.value.isLoggedIn
        && r.value.userId == s.userId && r.value.sessionUuid == s.sessionUuid
        && r.value.sessionStart == s.sessionStart && r.value.sessionType == s.sessionType
        && Some(r.value.userInfo) == UserGetInfo(s.userId)
        && r.value.projectInfo == ProjectGetInfo(s.userId)
      ensures users == old(users) && projects == old(projects) && memberships == old(memberships)
      ensures labels == old(labels) && pwSalt == old(pwSalt)
      ensures nextUserId == old(nextUserId) && nextSessionId == old(nextSessionId) && nextProjectId == old(nextProjectId)
      ensures nextMembershipId == old(nextMembershipId) && nextLabelId == old(nextLabelId)
    {
      if |sessions| != 1 {
        return None;
      }
      var s := sessions[0];
      if Expired(s.sessionStart, now) {
        var _ := UserLogout(s.sessionUuid);
        assert Filter([s], SessionNotUuid(s.sessionUuid)) == [];
        return None;
      }
      assert s in sessions;
      var info := UserGetInfo(s.userId);
      var projectInfo := ProjectGetInfo(s.userId);
      r := Some(SessionView(info.value.userId, s.sessionUuid, s.sessionStart, s.sessionType, true, info.value, projectInfo));
      assert info.value.userId == s.userId;
    }

    /**
     * `op_project_create`: a name is required, the user must exist and be
     * under their project limit, and the hash must be new; then one project
     * and one membership (permissions "000000", primary exactly when it is
     * the user's first) are appended and the project id returned.
     */
    method ProjectCreate(req: ProjectRequest, userId: int, now: string) returns (r: Result<int, Error>)
      requires Valid()
      modifies this
      ensures Valid()
      ensures r.Err? <==> ProjectCreateError(sha256, old(users), old(memberships), old(projects), req, userId, old(nextProjectId), now).Some?
      ensures r.Err? ==> Some(r.error) == ProjectCreateError(sha256, old(users), old(memberships), old(projects), req, userId, old(nextProjectId), now)
      ensures r.Err? ==> projects == old(projects) && memberships == old(memberships)
                         && nextProjectId == old(nextProjectId) && nextMembershipId == old(nextMembershipId)
      ensures r.Ok? ==>
        && Present(req.name)
        && r.value == old(nextProjectId)
        && projects == old(projects) + [NewProject(sha256, req, r.value, now)]
        && memberships == old(memberships)
             + [Membership(old(nextMembershipId), userId, r.value, now, DefaultPermModel,
                           MembershipCount(old(memberships), userId) == 0)]
        && nextProjectId == old(nextProjectId) + 1 && nextMembershipId == old(nextMembershipId) + 1
      ensures users == old(users) && sessions == old(sessions) && labels == old(labels) && pwSalt == old(pwSalt)
      ensures nextUserId == old(nextUserId) && nextSessionId == old(nextSessionId) && nextLabelId == old(nextLabelId)
    {
      ghost var err := ProjectCreateError(sha256, users, memberships, projects, req, userId, nextProjectId, now);
      if !Present(req.name) {
        return Err(ProjectNameRequired);
      }
      var p := NewProject(sha256, req, nextProjectId, now);
      if FindUser(users, userId).None? {
        return Err(UserNotFound(userId));
      }
      var maxProjects := MaxProjectsIn(users, userId);
      var count := MembershipCount(memberships, userId);
      if count >= maxProjects {
        return Err(QuotaReached(userId, maxProjects));
      }
      if exists q :: q in projects && q.projectHash == p.projectHash {
        return Err(SimilarProject);
      }
      assert err.None?;
      var m := Membership(nextMembershipId, userId, nextProjectId, now, DefaultPermModel, count == 0);
      r := Ok(nextProjectId);
      InsertProject(p, m);
    }

    /** The two INSERTs of `op_project_create`: the project, then its owner's membership. */
    method InsertProject(p: Project, m: Membership)
      requires Valid()
      requires p.projectId == nextProjectId && m.id == nextMembershipId && m.projectId == nextProjectId
      requires HasUser(users, m.userId)
      requires forall q :: q in projects ==> q.projectHash != p.projectHash
      modifies this
      ensures Valid()
      ensures projects == old(projects) + [p] && memberships == old(memberships) + [m]
      ensures nextProjectId == old(nextProjectId) + 1 && nextMembershipId == old(nextMembershipId) + 1
      ensures users == old(users) && sessions == old(sessions) && labels == old(labels) && pwSalt == old(pwSalt)
      ensures nextUserId == old(nextUserId) && nextSessionId == old(nextSessionId) && nextLabelId == old(nextLabelId)
    {
      AppendProjectKeepsTables(users, projects, memberships, nextProjectId, nextMembershipId, p, m);
      projects := projects + [p];
      memberships := memberships + [m];
      nextProjectId := nextProjectId + 1;
      nextMembershipId := nextMembershipId + 1;
    }

    /**
     * `op_project_update`: a truthy project id naming an existing project
     * and at least one field to write are required; the patched row replaces
     * the old one unless its hash is another project's.
     */
    method ProjectUpdate(patch: ProjectPatch) returns (r: Result<bool, Error>)
      requires Valid()
      modifies this
      ensures Valid()
      ensures !(patch.projectId.Some? && patch.projectId.value != 0) ==> r == Err(ProjectIdRequired)
      ensures patch.projectId.Some? && patch.projectId.value != 0 && !HasProject(old(projects), patch.projectId.value)
              ==> r == Err(ProjectNotFound(patch.projectId.value))
      ensures (patch.projectId.Some? && patch.projectId.value != 0 && HasProject(old(projects), patch.projectId.value)
               && NoProjectFields(patch)) ==> r == Err(NoFieldsToUpdate)
      ensures r.Err? <==> ProjectUpdateError(sha256, old(projects), patch).Some?
      ensures r.Err? ==> Some(r.error) == ProjectUpdateError(sha256, old(projects), patch) && projects == old(projects)
      ensures r.Ok? ==>
        && r.value
        && patch.projectId.Some? && !NoProjectFields(patch)
        && var i := FindProject(old(projects), patch.projectId.value);
        && i.Some?
        && projects == old(projects)[i.value := PatchProject(sha256, old(projects)[i.value], patch)]
        && !HashTakenByOther(old(projects), i.value, projects[i.value].projectHash)
      ensures users == old(users) && sessions == old(sessions) && memberships == old(memberships)
      ensures labels == old(labels) && pwSalt == old(pwSalt)
      ensures nextUserId == old(nextUserId) && nextSessionId == old(nextSessionId) && nextProjectId == old(nextProjectId)
      ensures nextMembershipId == old(nextMembershipId) && nextLabelId == old(nextLabelId)
    {
      if !(patch.projectId.Some? && patch.projectId.value != 0) {
        return Err(ProjectIdRequired);
      }
      var id := patch.projectId.value;
      var found := FindProject(projects, id);
      if found.None? {
        return Err(ProjectNotFound(id));
      }
      if NoProjectFields(patch) {
        return Err(NoFieldsToUpdate);
      }
      var i := found.value;
      var q := PatchProject(sha256, projects[i], patch);
      if HashTakenByOther(projects, i, q.projectHash) {
        return Err(SimilarProject);
      }
      UpdateProjectKeepsTables(users, projects, memberships, nextProjectId, nextMembershipId, i, q);
      projects := projects[i := q];
      r := Ok(true);
    }

    /**
     * `op_project_add_user`: the project and the user must exist and the user
     * must not be a member yet; then one membership is appended.
     */
    method ProjectAddUser(projectId: int, userId: int, permModel: string, primary: bool, now: string)
      returns (r: Result<bool, Error>)
      requires Valid()
      modifies this
      ensures Valid()
      ensures !HasProject(old(projects), projectId) ==> r == Err(ProjectNotFound(projectId))
      ensures HasProject(old(projects), projectId) && !HasUser(old(users), userId) ==> r == Err(UserNotFound(userId))
      ensures HasProject(old(projects), projectId) && HasUser(old(users), userId)
              && (exists m :: m in old(memberships) && m.userId == userId && m.projectId == projectId)
              ==> r == Err(AlreadyMember(userId, projectId))
      ensures r.Err? <==> ProjectAddUserError(old(users), old(projects), old(memberships), projectId, userId).Some?
      ensures r.Err? ==> Some(r.error) == ProjectAddUserError(old(users), old(projects), old(memberships), projectId, userId)
      ensures r.Err? ==> memberships == old(memberships) && nextMembershipId == old(nextMembershipId)
      ensures r.Ok? ==>
        && r.value
        && HasProject(old(projects), projectId) && HasUser(old(users), userId)
        && !(exists m :: m in old(memberships) && m.userId == userId && m.projectId == projectId)
        && memberships == old(memberships) + [Membership(old(nextMembershipId), userId, projectId, now, permModel, primary)]
        && nextMembershipId == old(nextMembershipId) + 1
      ensures users == old(users) && sessions == old(sessions) && projects == old(projects)
      ensures labels == old(labels) && pwSalt == old(pwSalt)
      ensures nextUserId == old(nextUserId) && nextSessionId == old(nextSessionId) && nextProjectId == old(nextProjectId)
      ensures nextLabelId == old(nextLabelId)
    {
      var err := ProjectAddUserError(users, projects, memberships, projectId, userId);
      if err.Some? {
        return Err(err.value);
      }
      var m := Membership(nextMembershipId, userId, projectId, now, permModel, primary);
      AppendMembershipKeepsTable(memberships, users, projects, nextMembershipId, m);
      memberships := memberships + [m];
      nextMembershipId := nextMembershipId + 1;
      r := Ok(true);
    }

    /**
     * `op_label_get_all`: the labels of the project ordered by name, each
     * row converted in turn.
     */
    method LabelGetAll(projectId: int) returns (result: seq<Label>)
      ensures SortedByName(result)
      ensures multiset(result) == multiset(Filter(labels, InProject(projectId)))
      ensures forall l :: l in result <==> l in labels && l.projectId == projectId
    {
      result := SortProjectLabels(labels, projectId);
      SameMembers(result, Filter(labels, InProject(projectId)));
    }

    /**
     * The list `op_label_get_all` returns is the only list sorted by name
     * holding exactly the project's labels.
     */
    lemma LabelGetAllDetermined(projectId: int, a: seq<Label>, b: seq<Label>)
      requires Valid()
      requires SortedByName(a) && multiset(a) == multiset(Filter(labels, InProject(projectId)))
      requires SortedByName(b) && multiset(b) == multiset(Filter(labels, InProject(projectId)))
      ensures a == b
    {
      NamesUniqueInProject(labels, projectId, a);
      SortedByNameUnique(a, b);
    }

    /**
     * `op_label_create`: a name is required and must be new in the project
     * (the same name in another project is allowed); then one label with the
     * defaults filled in is appended and its id returned.
     */
    method LabelCreate(req: LabelRequest, projectId: int, now: string) returns (r: Result<int, Error>)
      requires Valid()
      modifies this
      ensures Valid()
      ensures !Present(req.name) ==> r == Err(LabelNameRequired)
      ensures Present(req.name) && LabelNameTaken(old(labels), projectId, req.name.value) ==> r == Err(LabelExists(req.name.value))
      ensures r.Err? ==> labels == old(labels) && nextLabelId == old(nextLabelId)
      ensures r.Ok? <==> Present(req.name) && !LabelNameTaken(old(labels), projectId, req.name.value)
      ensures (labels, nextLabelId, r.Ok?) == LabelCreateOutcome(old(labels), old(nextLabelId), req, projectId, now)
      ensures r.Ok? ==> && r.value == old(nextLabelId)
                        && labels == old(labels) + [NewLabel(req, r.value, projectId, now)]
                        && nextLabelId == old(nextLabelId) + 1
      ensures users == old(users) && sessions == old(sessions) && projects == old(projects)
      ensures memberships == old(memberships) && pwSalt == old(pwSalt)
      ensures nextUserId == old(nextUserId) && nextSessionId == old(nextSessionId) && nextProjectId == old(nextProjectId)
      ensures nextMembershipId == old(nextMembershipId)
    {
      if !Present(req.name) {
        return Err(LabelNameRequired);
      }
      var name := req.name.value;
      if LabelNameTaken(labels, projectId, name) {
        return Err(LabelExists(name));
      }
      var l := NewLabel(req, nextLabelId, projectId, now);
      PairwiseAppend(labels, l, DistinctLabels);
      labels := labels + [l];
      r := Ok(nextLabelId);
      nextLabelId := nextLabelId + 1;
    }

    /**
     * `op_label_update`: the label must exist and the patch must write
     * something; the patched row replaces the old one unless its name is
     * already used by another label of the project.
     */
    method LabelUpdate(labelId: int, patch: LabelPatch) returns (r: Result<bool, Error>)
      requires Valid()
      modifies this
      ensures Valid()
      ensures (forall l :: l in old(labels) ==> l.labelId != labelId) ==> r == Err(LabelNotFound(labelId))
      ensures (exists l :: l in old(labels) && l.labelId == labelId) && NoLabelFields(patch) ==> r == Err(NoFieldsToUpdate)
      ensures r.Err? ==> labels == old(labels)
      ensures (labels, r.Ok?) == LabelUpdateOutcome(old(labels), labelId, patch)
      ensures r.Ok? ==>
        && r.value && !NoLabelFields(patch)
        && var i := FindLabel(old(labels), labelId);
        && i.Some?
        && labels == old(labels)[i.value := PatchLabel(old(labels)[i.value], patch)]
      ensures (exists l :: l in old(labels) && l.labelId == labelId) && !NoLabelFields(patch) ==>
        var i := FindLabel(old(labels), labelId).value;
        var q := PatchLabel(old(labels)[i], patch);
        && (r.Err? ==> r == Err(LabelNameNotUnique))
        && (r.Err? <==> exists j :: 0 <= j < |old(labels)| && j != i && old(labels)[j].projectId == q.projectId
                                    && old(labels)[j].name == q.name)
      ensures users == old(users) && sessions == old(sessions) && projects == old(projects)
      ensures memberships == old(memberships) && pwSalt == old(pwSalt)
      ensures nextUserId == old(nextUserId) && nextSessionId == old(nextSessionId) && nextProjectId == old(nextProjectId)
      ensures nextMembershipId == old(nextMembershipId) && nextLabelId == old(nextLabelId)
    {
      var found := FindLabel(labels, labelId);
      if found.None? {
        return Err(LabelNotFound(labelId));
      }
      if NoLabelFields(patch) {
        return Err(NoFieldsToUpdate);
      }
      var i := found.value;
      var q := PatchLabel(labels[i], patch);
      if exists j :: 0 <= j < |labels| && j != i && labels[j].projectId == q.projectId && labels[j].name == q.name {
        return Err(LabelNameNotUnique);
      }
      UpdateLabelKeepsTable(labels, nextLabelId, i, q);
      labels := labels[i := q];
      r := Ok(true);
    }

    /**
     * `op_label_delete`: a hard delete removes the rows with that id, a soft
     * delete sets their status to 0; the id is not checked and the result is
     * always success.
     */
    method LabelDelete(labelId: int, hardDelete: bool) returns (ok: bool)
      requires Valid()
      modifies this
      ensures Valid()
      ensures ok
      ensures hardDelete ==> labels == Filter(old(labels), LabelNotId(labelId))
      ensures !hardDelete ==> labels == SoftDeleted(old(labels), labelId)
      ensures users == old(users) && sessions == old(sessions) && projects == old(projects)
      ensures memberships == old(memberships) && pwSalt == old(pwSalt)
      ensures nextUserId == old(nextUserId) && nextSessionId == old(nextSessionId) && nextProjectId == old(nextProjectId)
      ensures nextMembershipId == old(nextMembershipId) && nextLabelId == old(nextLabelId)
    {
      if hardDelete {
        FilterPairwise(labels, LabelNotId(labelId), DistinctLabels);
        labels := Filter(labels, LabelNotId(labelId));
      } else {
        var soft := SoftDeleted(labels, labelId);
        assert forall i :: 0 <= i < |labels| ==> soft[i].labelId == labels[i].labelId && soft[i].projectId == labels[i].projectId
                                                 && soft[i].name == labels[i].name;
        assert forall l :: l in soft ==> exists k :: 0 <= k < |labels| && soft[k] == l;
        labels := soft;
      }
      ok := true;
    }
  }

  /** Skipping present fields does not change the first missing one. */
  lemma {:induction false} FirstMissingSkips(fields: seq<(string, Option<string>)>, i: int)
    requires 0 <= i <= |fields|
    requires forall j :: 0 <= j < i ==> Present(fields[j].1)
    ensures FirstMissing(fields) == FirstMissing(fields[i..])
  {
    if i > 0 {
      assert fields[1..][i - 1..] == fields[i..];
      FirstMissingSkips(fields[1..], i - 1);
    }
  }
}
