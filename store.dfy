/**
 * The rows of the five tables the SQLite handler keeps (users, sessions,
 * projects, user-project memberships, labels), the dictionaries its
 * operations accept, the uniqueness constraints on the tables, and the
 * queries it runs over them.
 */
module Store {
  import opened Wrappers
  import opened Seqs

  /** A value Python may hold as `None` or as a string. */
  datatype Val = NoneVal | Str(s: string)

  /** `f"{v}"`: `None` is written as "None". */
  function Show(v: Val): string {
    match v
    case NoneVal => "None"
    case Str(s) => s
  }

  /** `v or ''`. */
  function OrEmpty(v: Val): string {
    match v
    case NoneVal => ""
    case Str(s) => s
  }

  /** Python truthiness of a string-or-None. */
  predicate Truthy(v: Val) {
    v.Str? && v.s != ""
  }

  /** Python truthiness of `d.get(key)` for a string entry that may be missing. */
  predicate Present(o: Option<string>) {
    o.Some? && o.value != ""
  }

  datatype User = User(
    userId: int, firstName: string, lastName: string, username: string, birthday: Val,
    email: string, passwordHash: string, activated: bool, isSuperuser: bool,
    scope: string, maxProjects: int, uniqueIdentifier: string)

  /** A session row; the start is a timestamp in microseconds. */
  datatype Session = Session(id: int, userId: int, sessionStart: int, sessionUuid: string, sessionType: string)

  /** A project row; `currencyList` is the list the JSON text column encodes. */
  datatype Project = Project(
    projectId: int, name: string, description: Val, createdAt: string,
    currencyMain: Val, currencyList: seq<string>, projectHash: string)

  /** A row of the user-project map. */
  datatype Membership = Membership(id: int, userId: int, projectId: int, createdAt: string, permModel: string, primary: bool)

  /** A label row; `composite` is the list the JSON text column encodes. */
  datatype Label = Label(
    labelId: int, projectId: int, name: string, description: Val, createdAt: string,
    composite: seq<int>, status: int, labelType: int)

  /** The dictionary `op_user_create` accepts; `None` stands for a missing key. */
  datatype UserRequest = UserRequest(
    firstName: Option<string>, lastName: Option<string>, username: Option<string>,
    email: Option<string>, password: Option<string>, birthday: Val, maxProjects: Option<int>,
    isSuperuser: Option<bool>, scope: Option<string>, activated: Option<bool>)

  /** The dictionary `op_project_create` accepts. */
  datatype ProjectRequest = ProjectRequest(
    name: Option<string>, description: Option<Val>, createdAt: Option<string>,
    currencyMain: Option<Val>, currencyList: Option<seq<string>>)

  /** The dictionary `op_project_update` accepts: each `Some` is a key present in it. */
  datatype ProjectPatch = ProjectPatch(
    projectId: Option<int>, name: Option<Val>, description: Option<Val>,
    currencyMain: Option<Val>, currencyList: Option<seq<string>>)

  /** The dictionary `op_label_create` accepts. */
  datatype LabelRequest = LabelRequest(
    name: Option<string>, description: Option<Val>, composite: Option<seq<int>>,
    status: Option<int>, labelType: Option<int>)

  /** The dictionary `op_label_update` accepts: each `Some` is a key present in it. */
  datatype LabelPatch = LabelPatch(
    name: Option<Val>, description: Option<Val>, composite: Option<seq<int>>,
    status: Option<int>, labelType: Option<int>)

  /** The ValueErrors the handler raises. */
  datatype Error =
    | MissingField(field: string)
    | EmailExists(email: string)
    | UserExists
    | UserNotFound(userId: int)
    | ProjectNameRequired
    | QuotaReached(userId: int, maxProjects: int)
    | SimilarProject
    | ProjectIdRequired
    | ProjectNotFound(projectId: int)
    | NoFieldsToUpdate
    | AlreadyMember(userId: int, projectId: int)
    | LabelNameRequired
    | LabelExists(name: string)
    | LabelNotFound(labelId: int)
    | LabelNameNotUnique

  // ---------------------------------------------------------------------
  // Uniqueness constraints and references between the tables
  // ---------------------------------------------------------------------

  /** Two user rows differ in id, email and username. */
  predicate DistinctUsers(a: User, b: User) {
    a.userId != b.userId && a.email != b.email && a.username != b.username
  }

  /** Two session rows differ in id and belong to different users. */
  predicate DistinctSessions(a: Session, b: Session) {
    a.id != b.id && a.userId != b.userId
  }

  /** Two project rows differ in id and hash. */
  predicate DistinctProjects(a: Project, b: Project) {
    a.projectId != b.projectId && a.projectHash != b.projectHash
  }

  /** Two memberships differ in id and in the pair of user and project. */
  predicate DistinctMemberships(a: Membership, b: Membership) {
    a.id != b.id && (a.userId, a.projectId) != (b.userId, b.projectId)
  }

  /** Two labels differ in id, and in name when they share a project. */
  predicate DistinctLabels(a: Label, b: Label) {
    a.labelId != b.labelId && (a.projectId, a.name) != (b.projectId, b.name)
  }

  predicate HasUser(users: seq<User>, id: int) {
    exists u :: u in users && u.userId == id
  }

  predicate HasProject(projects: seq<Project>, id: int) {
    exists p :: p in projects && p.projectId == id
  }

  predicate UsersOk(users: seq<User>, next: int) {
    && 0 < next
    && (forall u :: u in users ==> 0 < u.userId < next)
    && Pairwise(users, DistinctUsers)
  }

  predicate SessionsOk(sessions: seq<Session>, users: seq<User>, next: int) {
    && 0 < next
    && (forall s :: s in sessions ==> 0 < s.id < next && HasUser(users, s.userId))
    && Pairwise(sessions, DistinctSessions)
  }

  predicate ProjectsOk(projects: seq<Project>, next: int) {
    && 0 < next
    && (forall p :: p in projects ==> 0 < p.projectId < next)
    && Pairwise(projects, DistinctProjects)
  }

  predicate MembershipsOk(memberships: seq<Membership>, users: seq<User>, projects: seq<Project>, next: int) {
    && 0 < next
    && (forall m :: m in memberships ==> 0 < m.id < next && HasUser(users, m.userId) && HasProject(projects, m.projectId))
    && Pairwise(memberships, DistinctMemberships)
  }

  predicate LabelsOk(labels: seq<Label>, next: int) {
    && 0 < next
    && (forall l :: l in labels ==> 0 < l.labelId < next)
    && Pairwise(labels, DistinctLabels)
  }

  // ---------------------------------------------------------------------
  // Row selectors (named, so that the same WHERE clause is the same term)
  // ---------------------------------------------------------------------

  function UserWithId(id: int): User -> bool {
    (u: User) => u.userId == id
  }

  function ProjectWithId(id: int): Project -> bool {
    (p: Project) => p.projectId == id
  }

  function LabelWithId(id: int): Label -> bool {
    (l: Label) => l.labelId == id
  }

  function LabelNotId(id: int): Label -> bool {
    (l: Label) => l.labelId != id
  }

  function InProject(projectId: int): Label -> bool {
    (l: Label) => l.projectId == projectId
  }

  function MembershipOf(userId: int): Membership -> bool {
    (m: Membership) => m.userId == userId
  }

  function SessionNotOf(userId: int): Session -> bool {
    (s: Session) => s.userId != userId
  }

  function SessionNotUuid(uuid: string): Session -> bool {
    (s: Session) => s.sessionUuid != uuid
  }

  /** `WHERE (username = ? OR email = ?) AND password_hash = ? AND activated = 1`. */
  function LoginMatches(identifier: string, hash: string): User -> bool {
    (u: User) => (u.username == identifier || u.email == identifier) && u.passwordHash == hash && u.activated
  }

  /** The position of the user with id `id`, if any. */
  function FindUser(users: seq<User>, id: int): (r: Option<nat>)
    ensures r.Some? ==> r.value < |users| && users[r.value].userId == id
    ensures r.None? <==> !HasUser(users, id)
  {
    IndexOf(users, UserWithId(id))
  }

  /** The position of the project with id `id`, if any. */
  function FindProject(projects: seq<Project>, id: int): (r: Option<nat>)
    ensures r.Some? ==> r.value < |projects| && projects[r.value].projectId == id
    ensures r.None? <==> !HasProject(projects, id)
  {
    IndexOf(projects, ProjectWithId(id))
  }

  /** The position of the label with id `id`, if any. */
  function FindLabel(labels: seq<Label>, id: int): (r: Option<nat>)
    ensures r.Some? ==> r.value < |labels| && labels[r.value].labelId == id
    ensures r.None? <==> forall l :: l in labels ==> l.labelId != id
  {
    IndexOf(labels, LabelWithId(id))
  }

  // ---------------------------------------------------------------------
  // Session replacement at login
  // ---------------------------------------------------------------------

  /** Delete the user's sessions, then insert the new one. */
  function ReplaceSession(sessions: seq<Session>, s: Session): seq<Session> {
    Filter(sessions, SessionNotOf(s.userId)) + [s]
  }

  /**
   * After a login the user owns exactly one session, the new one, and every
   * other user keeps exactly the sessions they had; the single-session rule
   * survives.
   */
  lemma ReplaceSessionSpec(sessions: seq<Session>, s: Session)
    ensures var r := ReplaceSession(sessions, s);
      && s in r
      && (forall x :: x in r && x.userId == s.userId ==> x == s)
      && (forall x: Session :: x.userId != s.userId ==> (x in r <==> x in sessions))
    ensures Pairwise(sessions, DistinctSessions) && (forall x :: x in sessions ==> x.id != s.id)
      ==> Pairwise(ReplaceSession(sessions, s), DistinctSessions)
  {
    var kept := Filter(sessions, SessionNotOf(s.userId));
    if Pairwise(sessions, DistinctSessions) && (forall x :: x in sessions ==> x.id != s.id) {
      FilterPairwise(sessions, SessionNotOf(s.userId), DistinctSessions);
      PairwiseAppend(kept, s, DistinctSessions);
    }
  }

  // ---------------------------------------------------------------------
  // The project hash
  // ---------------------------------------------------------------------

  /** `f"{name}|{description}|{currency}"`, the text the project hash digests. */
  function HashInput(name: string, description: string, currency: string): string {
    name + "|" + description + "|" + currency
  }

  /**
   * Parts free of "|" are recovered from the hash input, so two projects
   * whose inputs coincide agree on all three parts.
   */
  lemma {:induction false} HashInputInjective(n1: string, d1: string, c1: string, n2: string, d2: string, c2: string)
    requires '|' !in n1 && '|' !in d1 && '|' !in n2 && '|' !in d2
    requires HashInput(n1, d1, c1) == HashInput(n2, d2, c2)
    ensures n1 == n2 && d1 == d2 && c1 == c2
  {
    assert HashInput(n1, d1, c1) == n1 + "|" + (d1 + "|" + c1);
    assert HashInput(n2, d2, c2) == n2 + "|" + (d2 + "|" + c2);
    SplitAtBar(n1, d1 + "|" + c1, n2, d2 + "|" + c2);
    SplitAtBar(d1, c1, d2, c2);
  }

  /** `a + "|" + b` with no bar in `a` determines `a` and `b`. */
  lemma {:induction false} SplitAtBar(a1: string, b1: string, a2: string, b2: string)
    requires '|' !in a1 && '|' !in a2
    requires a1 + "|" + b1 == a2 + "|" + b2
    ensures a1 == a2 && b1 == b2
  {
    var t := a1 + "|" + b1;
    var u := a2 + "|" + b2;
    assert t[|a1|] == '|' && u[|a2|] == '|';
    assert forall k :: 0 <= k < |a1| ==> t[k] == a1[k];
    assert forall k :: 0 <= k < |a2| ==> u[k] == a2[k];
    assert |a1| == |a2|;
    assert a1 == t[..|a1|] == u[..|a2|] == a2;
    assert b1 == t[|a1| + 1..] == u[|a2| + 1..] == b2;
  }

  // ---------------------------------------------------------------------
  // Labels ordered by name
  // ---------------------------------------------------------------------

  predicate SortedByName(s: seq<Label>) {
    forall i, j :: 0 <= i < j < |s| ==> NameLe(s[i].name, s[j].name)
  }

  /** Insert `x` before the first label it sorts before or equal to. */
  function InsertByName(x: Label, s: seq<Label>): (r: seq<Label>)
    ensures multiset(r) == multiset(s) + multiset{x}
  {
    if s == [] then [x]
    else if NameLe(x.name, s[0].name) then [x] + s
    else
      assert s == [s[0]] + s[1..];
      [s[0]] + InsertByName(x, s[1..])
  }

  /** Inserting into a list sorted by name keeps it sorted. */
  lemma {:induction false} InsertByNameSorted(x: Label, s: seq<Label>)
    requires SortedByName(s)
    ensures SortedByName(InsertByName(x, s))
  {
    if s == [] {
    } else if NameLe(x.name, s[0].name) {
      forall y | y in s ensures NameLe(x.name, y.name) {
        var k :| 0 <= k < |s| && s[k] == y;
        if k > 0 {
          NameLeTrans(x.name, s[0].name, y.name);
        }
      }
      ConsSorted(x, s);
    } else {
      var t := s[1..];
      TailSorted(s);
      InsertByNameSorted(x, t);
      NameLeTotal(x.name, s[0].name);
      var rt := InsertByName(x, t);
      forall y | y in rt ensures NameLe(s[0].name, y.name) {
        assert y in multiset(rt);
        if y != x {
          assert y in multiset(t);
          var k :| 0 <= k < |t| && t[k] == y;
          assert s[k + 1] == y;
        }
      }
      ConsSorted(s[0], rt);
      assert InsertByName(x, s) == [s[0]] + rt;
    }
  }

  /** A label sorting before or equal to every label of a sorted list can go in front of it. */
  lemma ConsSorted(h: Label, r: seq<Label>)
    requires SortedByName(r) && forall y :: y in r ==> NameLe(h.name, y.name)
    ensures SortedByName([h] + r)
  {
    var s := [h] + r;
    forall i, j | 0 <= i < j < |s| ensures NameLe(s[i].name, s[j].name) {
      assert s[j] == r[j - 1];
      if i > 0 {
        assert s[i] == r[i - 1];
      } else {
        assert r[j - 1] in r;
      }
    }
  }

  lemma TailSorted(s: seq<Label>)
    requires s != [] && SortedByName(s)
    ensures SortedByName(s[1..])
  {
    var t := s[1..];
    forall i, j | 0 <= i < j < |t| ensures NameLe(t[i].name, t[j].name) {
      assert t[i] == s[i + 1] && t[j] == s[j + 1];
    }
  }

  /**
   * `SELECT … WHERE project_id = ? ORDER BY name`: the project's labels,
   * inserted one at a time into a list kept sorted by name.
   */
  method SortProjectLabels(labels: seq<Label>, projectId: int) returns (result: seq<Label>)
    ensures SortedByName(result)
    ensures multiset(result) == multiset(Filter(labels, InProject(projectId)))
  {
    result := [];
    var i := 0;
    while i < |labels|
      invariant 0 <= i <= |labels|
      invariant SortedByName(result)
      invariant multiset(result) == multiset(Filter(labels[..i], InProject(projectId)))
    {
      FilterAppend(labels[..i], labels[i], InProject(projectId));
      assert labels[..i + 1] == labels[..i] + [labels[i]];
      if labels[i].projectId == projectId {
        InsertByNameSorted(labels[i], result);
        result := InsertByName(labels[i], result);
      }
      i := i + 1;
    }
    assert labels[..i] == labels;
  }
}
