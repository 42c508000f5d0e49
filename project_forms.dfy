/**
 * The project forms: the new-project form's validation, its quota banner
 * and the data it posts; the modify form's validation, the patch it sends to
 * the handler, and the text it pre-fills the currency list with. Both forms
 * read additional currencies as comma-separated text.
 */
module ProjectForms {
  import opened Wrappers
  import opened PyText
  import opened Store
  import Handler
  import Seqs

  // ---------------------------------------------------------------------
  // The currency list
  // ---------------------------------------------------------------------

  /** A code the parser can produce: non-empty, no comma, no whitespace at its ends, no lower-case letter. */
  predicate WellFormedCode(c: string) {
    c != [] && ',' !in c && Trimmed(c) && forall k :: 0 <= k < |c| ==> !IsLower(c[k])
  }

  /** `[c.strip().upper() for c in parts if c.strip()]`. */
  function ParseParts(parts: seq<string>): (r: seq<string>)
    requires forall p :: p in parts ==> ',' !in p
    ensures |r| <= |parts|
    ensures forall c :: c in r ==> WellFormedCode(c)
    ensures |r| == |Seqs.Filter(parts, NonBlank)|
    ensures forall k :: 0 <= k < |r| ==> r[k] == Upper(Strip(Seqs.Filter(parts, NonBlank)[k]))
  {
    if parts == [] then []
    else
      var t := Strip(parts[0]);
      var rest := ParseParts(parts[1..]);
      PiecesCons(parts, t);
      if t != [] then
        PieceWellFormed(parts[0]);
        NormalizedCons(parts[0], rest, Seqs.Filter(parts[1..], NonBlank));
        [Upper(t)] + rest
      else rest
  }

  /** The non-blank pieces of a list: its first piece when that is non-blank, then those of the rest. */
  lemma PiecesCons(parts: seq<string>, t: string)
    requires parts != [] && t == Strip(parts[0])
    ensures t != [] ==> Seqs.Filter(parts, NonBlank) == [parts[0]] + Seqs.Filter(parts[1..], NonBlank)
    ensures t == [] ==> Seqs.Filter(parts, NonBlank) == Seqs.Filter(parts[1..], NonBlank)
  {
    Seqs.FilterCons(parts, NonBlank);
  }

  /** One more piece in front keeps each code the stripped, upper-cased piece at its index. */
  lemma NormalizedCons(p: string, codes: seq<string>, pieces: seq<string>)
    requires |codes| == |pieces|
    requires forall k :: 0 <= k < |codes| ==> codes[k] == Upper(Strip(pieces[k]))
    ensures forall k :: 0 <= k < |codes| + 1 ==> ([Upper(Strip(p))] + codes)[k] == Upper(Strip(([p] + pieces)[k]))
  {
  }

  /** A piece that has something left after stripping. */
  predicate NonBlank(p: string) {
    Strip(p) != []
  }

  /** Parsing a non-blank first piece keeps it, stripped and upper-cased, ahead of the rest. */
  lemma ParsePartsCons(p: string, rest: seq<string>)
    requires ',' !in p && Strip(p) != []
    requires forall q :: q in rest ==> ',' !in q
    ensures forall q :: q in [p] + rest ==> ',' !in q
    ensures ParseParts([p] + rest) == [Upper(Strip(p))] + ParseParts(rest)
  {
    assert ([p] + rest)[0] == p && ([p] + rest)[1..] == rest;
  }

  /** A non-blank piece without a comma, stripped and upper-cased, is a well-formed code. */
  lemma PieceWellFormed(p: string)
    requires ',' !in p && Strip(p) != []
    ensures WellFormedCode(Upper(Strip(p)))
  {
    var t := Strip(p);
    assert ',' !in t;
    UpperTrimmed(t);
  }

  /** Upper-casing trimmed, comma-free text gives a well-formed code. */
  lemma UpperTrimmed(t: string)
    requires t != [] && ',' !in t && Trimmed(t)
    ensures WellFormedCode(Upper(t))
  {
    var u := Upper(t);
    forall k | 0 <= k < |u| ensures u[k] != ',' && !IsLower(u[k]) {
      UpperCharKeeps(t[k]);
    }
    UpperCharKeeps(t[0]);
    UpperCharKeeps(t[|t| - 1]);
  }

  lemma HeadTail(codes: seq<string>)
    requires codes != []
    ensures codes == [codes[0]] + codes[1..]
  {
  }

  /** A well-formed code after the space a ", "-join puts before it. */
  lemma SpacedCode(c: string)
    requires WellFormedCode(c)
    ensures ',' !in " " + c
    ensures Strip(" " + c) != [] && Upper(Strip(" " + c)) == c
  {
    var spaced := " " + c;
    assert spaced == [' '] + c;
    assert ',' !in spaced by {
      assert forall x :: x in spaced ==> x == ' ' || x in c;
    }
    StripLeadingSpace(' ', c);
    StripTrimmed(c);
    assert Strip(spaced) == c;
    UpperIdempotent(c);
  }

  /**
   * The additional currencies typed as text: stripped, split on commas,
   * each piece stripped and upper-cased, empty pieces dropped, order kept.
   */
  function ParseCurrencyList(text: string): (r: seq<string>)
    ensures forall c :: c in r ==> WellFormedCode(c)
    ensures r != [] ==> Strip(text) != []
    ensures var kept := Seqs.Filter(Split(Strip(text), ','), NonBlank);
      |r| == |kept| && forall k :: 0 <= k < |r| ==> r[k] == Upper(Strip(kept[k]))
  {
    var t := Strip(text);
    if t != [] then ParseParts(Split(t, ',')) else BlankHasNoPieces(); []
  }

  /** Blank text splits into one empty piece, which is dropped. */
  lemma BlankHasNoPieces()
    ensures Seqs.Filter(Split([], ','), NonBlank) == []
  {
    assert Split([], ',') == [[]];
    PiecesCons([[]], []);
  }

  /** The modify form's pre-fill: the stored list joined with ", ", or "" when it is empty or does not decode. */
  function CurrencyPrefill(decoded: Option<seq<string>>): (r: string)
    ensures decoded.None? ==> r == ""
    ensures decoded.Some? && decoded.value != [] && (forall c :: c in decoded.value ==> c != []) ==> r != ""
  {
    match decoded
    case None => ""
    case Some(codes) => if codes == [] then "" else assert codes[0] in codes; Join(codes, ", ")
  }

  /** The pieces ", "-joined text splits into at its commas: the first code, then each later one after a space. */
  function Spaced(codes: seq<string>): (r: seq<string>)
    ensures |r| == |codes|
  {
    if codes == [] then [] else [" " + codes[0]] + Spaced(codes[1..])
  }

  /** Joining with ", " is joining with "," after putting a space before every code but the first. */
  lemma {:induction false} JoinSpaced(codes: seq<string>)
    requires codes != []
    ensures Join(codes, ", ") == Join([codes[0]] + Spaced(codes[1..]), ",")
    decreases |codes|
  {
    if |codes| > 1 {
      var rest := codes[1..];
      JoinSpaced(rest);
      var sp := Spaced(rest);
      assert sp == [" " + rest[0]] + Spaced(rest[1..]);
      assert ([codes[0]] + sp)[1..] == sp;
      assert rest[1..] == codes[2..];
      if |rest| == 1 {
        assert Join(sp, ",") == " " + rest[0];
      } else {
        assert sp[1..] == Spaced(rest[1..]);
        assert ([rest[0]] + Spaced(rest[1..]))[1..] == Spaced(rest[1..]);
        assert Join(sp, ",") == " " + Join([rest[0]] + Spaced(rest[1..]), ",");
      }
    }
  }

  /** The pieces of a ", "-joined list of well-formed codes contain no comma. */
  lemma {:induction false} SpacedNoComma(codes: seq<string>)
    requires forall c :: c in codes ==> WellFormedCode(c)
    ensures forall p :: p in Spaced(codes) ==> ',' !in p
    decreases |codes|
  {
    if codes != [] {
      assert codes[0] in codes;
      assert forall c :: c in codes[1..] ==> c in codes;
      SpacedNoComma(codes[1..]);
      SpacedCode(codes[0]);
      assert Spaced(codes) == [" " + codes[0]] + Spaced(codes[1..]);
    }
  }

  /** Parsing the space-prefixed pieces of well-formed codes gives the codes. */
  lemma {:induction false} ParseSpaced(codes: seq<string>)
    requires forall c :: c in codes ==> WellFormedCode(c)
    ensures forall p :: p in Spaced(codes) ==> ',' !in p
    ensures ParseParts(Spaced(codes)) == codes
    decreases |codes|
  {
    SpacedNoComma(codes);
    if codes != [] {
      var c, tail := codes[0], codes[1..];
      assert WellFormedCode(c) by {
        assert c in codes;
      }
      assert forall x :: x in tail ==> WellFormedCode(x) by {
        forall x | x in tail ensures WellFormedCode(x) {
          assert x in codes;
        }
      }
      ParseSpaced(tail);
      SpacedCode(c);
      var rest := Spaced(tail);
      assert Spaced(codes) == [" " + c] + rest;
      ParsePartsCons(" " + c, rest);
      calc {
        ParseParts(Spaced(codes));
        ParseParts([" " + c] + rest);
        [Upper(Strip(" " + c))] + ParseParts(rest);
        [c] + tail;
        { HeadTail(codes); }
        codes;
      }
    }
  }

  /**
   * The pre-fill round trip: the text the modify form shows for a stored
   * list of well-formed codes parses back to that list.
   */
  lemma PrefillRoundTrip(codes: seq<string>)
    requires forall c :: c in codes ==> WellFormedCode(c)
    ensures ParseCurrencyList(CurrencyPrefill(Some(codes))) == codes
  {
    if codes != [] {
      var text := Join(codes, ", ");
      JoinedTrimmed(codes);
      StripTrimmed(text);
      SplitJoined(codes);
    }
  }

  /** Well-formed codes joined with ", " have no whitespace at either end. */
  lemma JoinedTrimmed(codes: seq<string>)
    requires codes != [] && forall c :: c in codes ==> WellFormedCode(c)
    ensures Join(codes, ", ") != [] && Trimmed(Join(codes, ", "))
  {
    var text := Join(codes, ", ");
    var first, last := codes[0], codes[|codes| - 1];
    assert first in codes && last in codes;
    JoinEndsWithLast(codes, ", ");
    assert text[0] == first[0];
    assert text[|text| - 1] == last[|last| - 1];
  }

  /** Well-formed codes joined with ", " split at the commas and parse back to the codes. */
  lemma SplitJoined(codes: seq<string>)
    requires codes != [] && forall c :: c in codes ==> WellFormedCode(c)
    ensures forall p :: p in Split(Join(codes, ", "), ',') ==> ',' !in p
    ensures ParseParts(Split(Join(codes, ", "), ',')) == codes
  {
    var first, rest := codes[0], Spaced(codes[1..]);
    assert WellFormedCode(first) by { assert first in codes; }
    ParseSpaced(codes[1..]);
    assert Strip(first) == first by { StripTrimmed(first); }
    ParsePartsCons(first, rest);
    assert Upper(first) == first by { UpperIdempotent(first); }
    SplitJoin([first] + rest, ',');
    JoinSpaced(codes);
    HeadTail(codes);
  }

  /** Parsing is idempotent through the pre-fill: a parsed list survives being shown and parsed again. */
  lemma ParsePrefillStable(text: string)
    ensures ParseCurrencyList(CurrencyPrefill(Some(ParseCurrencyList(text)))) == ParseCurrencyList(text)
  {
    PrefillRoundTrip(ParseCurrencyList(text));
  }

  // ---------------------------------------------------------------------
  // Validation
  // ---------------------------------------------------------------------

  /** The texts of the form's four inputs, as typed. */
  datatype ProjectForm = ProjectForm(name: string, description: string, currencyMain: string, currencyList: string)

  /** Why a form refuses to go on. */
  datatype FormError =
    | LimitReached(current: int, maxProjects: int)
    | NameRequired
    | CurrencyRequired
    | NotLoaded

  /** The name, description and currencies both forms read from their inputs. */
  datatype Fields = Fields(name: string, description: Val, currencyMain: string, currencyList: seq<string>)

  /**
   * The checks both forms share: a non-blank name, then a main currency of
   * exactly three characters; an empty description is sent as None.
   */
  function ReadFields(form: ProjectForm): (r: Result<Fields, FormError>)
    ensures r == Err(NameRequired) <==> Strip(form.name) == []
    ensures r == Err(CurrencyRequired) <==> Strip(form.name) != [] && |Strip(form.currencyMain)| != 3
    ensures r.Ok? <==> Strip(form.name) != [] && |Strip(form.currencyMain)| == 3
    ensures r.Ok? ==>
      && r.value.name != [] && Trimmed(r.value.name)
      && |r.value.currencyMain| == 3 && (forall k :: 0 <= k < 3 ==> !IsLower(r.value.currencyMain[k]))
      && (r.value.description == NoneVal <==> Strip(form.description) == [])
      && (r.value.description.Str? ==> r.value.description.s == Strip(form.description) && Trimmed(r.value.description.s))
      && (forall c :: c in r.value.currencyList ==> WellFormedCode(c))
  {
    var name := Strip(form.name);
    var description := Strip(form.description);
    var currencyMain := Upper(Strip(form.currencyMain));
    if name == [] then Err(NameRequired)
    else if |currencyMain| != 3 then Err(CurrencyRequired)
    else Ok(Fields(name, if description != [] then Str(description) else NoneVal, currencyMain,
                   ParseCurrencyList(form.currencyList)))
  }

  /** What the new-project form posts. */
  datatype NewProjectData = NewProjectData(
    name: string, description: Val, createdAt: string, currencyMain: string,
    currencyList: seq<string>, projectHash: string)

  /**
   * `create_project`: a logged-in user at or above the limit is refused
   * before any input is read; then the shared checks; the hash digests the
   * name followed by the creation time.
   */
  function CreateProject(sha256: string -> string, userId: int, currentProjects: nat, maxProjects: int,
                         form: ProjectForm, now: string): (r: Result<NewProjectData, FormError>)
    ensures userId > 0 && currentProjects >= maxProjects ==> r == Err(LimitReached(currentProjects, maxProjects))
    ensures r.Err? && r.error.LimitReached? ==> userId > 0 && currentProjects >= maxProjects
    ensures !(userId > 0 && currentProjects >= maxProjects) ==>
      (r.Ok? <==> ReadFields(form).Ok?)
      && (r.Err? ==> r.error == ReadFields(form).error)
    ensures r.Ok? ==>
      var f := ReadFields(form).value;
      && r.value.name == f.name && r.value.description == f.description
      && r.value.currencyMain == f.currencyMain && r.value.currencyList == f.currencyList
      && r.value.createdAt == now && r.value.projectHash == sha256(f.name + now)
  {
    if userId > 0 && currentProjects >= maxProjects then Err(LimitReached(currentProjects, maxProjects))
    else
      match ReadFields(form)
      case Err(e) => Err(e)
      case Ok(f) => Ok(NewProjectData(f.name, f.description, now, f.currencyMain, f.currencyList, sha256(f.name + now)))
  }

  /** The banner above the new-project form. */
  datatype Banner = ErrorBox | WarningBox | InfoBox

  /** The limit the banner compares with: the stored one for a logged-in user, 3 otherwise. */
  function BannerLimit(userId: int, storedMax: int): int {
    if userId > 0 then storedMax else Handler.DefaultMaxProjects
  }

  /** At or above the limit an error, one below it a warning, further below an information box. */
  function QuotaBanner(current: int, maxProjects: int): (b: Banner)
    ensures b == ErrorBox <==> current >= maxProjects
    ensures b == WarningBox <==> current == maxProjects - 1
    ensures b == InfoBox <==> current < maxProjects - 1
  {
    if current >= maxProjects then ErrorBox
    else if current >= maxProjects - 1 then WarningBox
    else InfoBox
  }

  function Severity(b: Banner): nat {
    match b
    case InfoBox => 0
    case WarningBox => 1
    case ErrorBox => 2
  }

  /**
   * More projects never make the banner milder, and for a logged-in user the
   * error banner shows exactly when the form refuses to create.
   */
  lemma QuotaBannerAgrees(sha256: string -> string, userId: int, c1: nat, c2: nat, storedMax: int, form: ProjectForm, now: string)
    requires c1 <= c2
    ensures Severity(QuotaBanner(c1, storedMax)) <= Severity(QuotaBanner(c2, storedMax))
    ensures userId > 0 ==>
      ((QuotaBanner(c1, BannerLimit(userId, storedMax)) == ErrorBox)
       <==> (CreateProject(sha256, userId, c1, storedMax, form, now) == Err(LimitReached(c1, storedMax))))
  {
  }

  // ---------------------------------------------------------------------
  // Modifying a project
  // ---------------------------------------------------------------------

  /** The patch `update_project` sends: always the project id and all four fields. */
  function UpdatePatch(projectId: int, f: Fields): ProjectPatch {
    ProjectPatch(Some(projectId), Some(Str(f.name)), Some(f.description), Some(Str(f.currencyMain)), Some(f.currencyList))
  }

  /** `update_project`'s checks: a project and a logged-in user, then the shared checks. */
  function UpdateProjectData(projectId: int, userId: int, form: ProjectForm): (r: Result<ProjectPatch, FormError>)
    ensures projectId == 0 || userId <= 0 ==> r == Err(NotLoaded)
    ensures projectId != 0 && userId > 0 ==>
      (r.Ok? <==> ReadFields(form).Ok?) && (r.Err? ==> r.error == ReadFields(form).error)
    ensures r.Ok? ==>
      && r.value.projectId == Some(projectId) && projectId != 0
      && !Handler.NoProjectFields(r.value)
      && r.value.name.Some? && r.value.name.value.Str? && r.value.name.value.s != []
  {
    if projectId == 0 || userId <= 0 then Err(NotLoaded)
    else
      match ReadFields(form)
      case Err(e) => Err(e)
      case Ok(f) => Ok(UpdatePatch(projectId, f))
  }

  /**
   * A patch the modify form sends writes the new name, description (empty
   * text for none) and currencies; its hash digests "None" for an empty
   * description, so it is the stored columns' hash only when a description
   * was given.
   */
  lemma UpdatePatchApplies(sha256: string -> string, p: Project, projectId: int, userId: int, form: ProjectForm)
    requires UpdateProjectData(projectId, userId, form).Ok?
    ensures var f := ReadFields(form).value;
      var q := Handler.PatchProject(sha256, p, UpdateProjectData(projectId, userId, form).value);
      && q.name == f.name && q.currencyMain == Str(f.currencyMain) && q.currencyList == f.currencyList
      && q.description == (if f.description == NoneVal then Str("") else f.description)
      && q.projectId == p.projectId && q.createdAt == p.createdAt
      && (f.description.Str? ==> q.projectHash == sha256(Handler.StoredHashInput(q)))
      && (f.description == NoneVal ==> q.projectHash == sha256(HashInput(f.name, "None", f.currencyMain)))
  {
    Handler.PatchProjectSpec(sha256, p, UpdateProjectData(projectId, userId, form).value);
  }

  /**
   * `update_project` with the handler: a refused form leaves the database
   * alone; an accepted one fails in the handler exactly when the project is
   * missing or its new hash is another project's, and otherwise rewrites
   * that one project row.
   */
  method UpdateProject(dbh: Handler.SQLLiteHandler, projectId: int, userId: int, form: ProjectForm)
    returns (r: Result<ProjectPatch, FormError>, saved: Option<Result<bool, Error>>)
    requires dbh.Valid()
    modifies dbh
    ensures dbh.Valid()
    ensures r == UpdateProjectData(projectId, userId, form)
    ensures r.Err? ==> saved.None? && unchanged(dbh)
    ensures r.Ok? ==> saved.Some?
    ensures r.Ok? ==>
      (saved.value.Ok? <==>
        HasProject(old(dbh.projects), projectId)
        && var i := FindProject(old(dbh.projects), projectId).value;
        !Handler.HashTakenByOther(old(dbh.projects), i, Handler.PatchProject(dbh.sha256, old(dbh.projects)[i], r.value).projectHash))
    ensures r.Ok? && saved.value.Err? ==>
      (saved.value.error == ProjectNotFound(projectId) || saved.value.error == SimilarProject)
      && dbh.projects == old(dbh.projects)
    ensures r.Ok? && saved.value.Ok? ==>
      var i := FindProject(old(dbh.projects), projectId).value;
      dbh.projects == old(dbh.projects)[i := Handler.PatchProject(dbh.sha256, old(dbh.projects)[i], r.value)]
    ensures dbh.users == old(dbh.users) && dbh.sessions == old(dbh.sessions)
    ensures dbh.memberships == old(dbh.memberships) && dbh.labels == old(dbh.labels)
  {
    r := UpdateProjectData(projectId, userId, form);
    if r.Err? {
      return r, None;
    }
    var outcome := dbh.ProjectUpdate(r.value);
    saved := Some(outcome);
  }
}
