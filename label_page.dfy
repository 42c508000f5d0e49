/**
 * The label management screen's own logic: the status and type captions,
 * the status cycle a click on "Edit" steps through, the pending changes it
 * records, and the save that sends them to the handler and counts the
 * outcomes.
 */
module LabelPage {
  import opened Wrappers
  import opened Seqs
  import opened Store
  import Handler

  const StatusCaptions: map<int, string> := map[0 := "Mark for Deletion", 1 := "Deactivated", 2 := "Active"]
  const TypeCaptions: map<int, string> := map[0 := "Action", 1 := "Account", 2 := "Label"]

  /** `_get_status_text`: the caption of a status code, "Unknown" for any other code. */
  function StatusText(status: int): (r: string) {
    if status in StatusCaptions then StatusCaptions[status] else "Unknown"
  }

  /** `_get_action_type`: the caption of a label type, "Unknown" for any other type. */
  function ActionType(labelType: int): (r: string) {
    if labelType in TypeCaptions then TypeCaptions[labelType] else "Unknown"
  }

  /** Exactly the codes 0, 1 and 2 have captions, and no two of them share one. */
  lemma CaptionsDistinguishCodes(s: int, t: int)
    ensures StatusText(s) != "Unknown" <==> 0 <= s <= 2
    ensures ActionType(s) != "Unknown" <==> 0 <= s <= 2
    ensures 0 <= s <= 2 && 0 <= t <= 2 && StatusText(s) == StatusText(t) ==> s == t
    ensures 0 <= s <= 2 && 0 <= t <= 2 && ActionType(s) == ActionType(t) ==> s == t
    ensures StatusText(0) == "Mark for Deletion" && StatusText(1) == "Deactivated" && StatusText(2) == "Active"
    ensures ActionType(0) == "Action" && ActionType(1) == "Account" && ActionType(2) == "Label"
  {
  }

  /** The status after one click: Active to Deactivated to Mark for Deletion and back to Active. */
  function NextStatus(status: int): (r: int) {
    if status == 2 then 1
    else if status == 1 then 0
    else 2
  }

  /**
   * Every click lands in 0..2, any unknown status becomes Active, and from a
   * known status the cycle takes exactly three clicks to come back.
   */
  lemma NextStatusCycle(s: int)
    ensures 0 <= NextStatus(s) <= 2
    ensures !(0 <= s <= 2) ==> NextStatus(s) == 2
    ensures 0 <= s <= 2 ==> NextStatus(NextStatus(NextStatus(s))) == s
    ensures 0 <= s <= 2 ==> NextStatus(s) != s && NextStatus(NextStatus(s)) != s
  {
  }

  /** The patch with no key: the dictionary `_modified_labels` starts a label with. */
  const NoChanges := LabelPatch(None, None, None, None, None)

  /** The outcome a save reports. */
  datatype Summary = Summary(totalChanges: int, newLabels: int, modifiedLabels: int, errors: int)

  /** The pending changes after a click on label `id`: its entry gets the new status and keeps its other keys; a new entry goes last. */
  function RecordStatus(pending: seq<(int, LabelPatch)>, id: int, status: int): (r: seq<(int, LabelPatch)>)
    ensures forall k :: 0 <= k < |pending| && pending[k].0 != id ==> k < |r| && r[k] == pending[k]
    ensures exists k :: 0 <= k < |r| && r[k].0 == id && r[k].1.status == Some(status)
  {
    match IndexOf(pending, (e: (int, LabelPatch)) => e.0 == id)
    case Some(k) =>
      assert pending[k := (id, pending[k].1.(status := Some(status)))][k].0 == id;
      pending[k := (id, pending[k].1.(status := Some(status)))]
    case None =>
      assert (pending + [(id, NoChanges.(status := Some(status)))])[|pending|].0 == id;
      pending + [(id, NoChanges.(status := Some(status)))]
  }

  /** Keys stay unique: a click adds an entry only for a label with none. */
  lemma RecordStatusKeys(pending: seq<(int, LabelPatch)>, id: int, status: int)
    requires Pairwise(pending, DistinctKeys)
    ensures Pairwise(RecordStatus(pending, id, status), DistinctKeys)
    ensures |RecordStatus(pending, id, status)| == |pending| + (if exists k :: 0 <= k < |pending| && pending[k].0 == id then 0 else 1)
  {
    var r := RecordStatus(pending, id, status);
    match IndexOf(pending, (e: (int, LabelPatch)) => e.0 == id)
    case Some(k) =>
      PairwiseUpdate(pending, k, (id, pending[k].1.(status := Some(status))), DistinctKeys);
    case None =>
      assert forall e :: e in pending ==> e.0 != id;
      PairwiseAppend(pending, (id, NoChanges.(status := Some(status))), DistinctKeys);
  }

  predicate DistinctKeys(a: (int, LabelPatch), b: (int, LabelPatch)) {
    a.0 != b.0
  }

  // ---------------------------------------------------------------------
  // What a save does to the labels table
  // ---------------------------------------------------------------------

  /** The creates of a save, in order: the table, the next id and each create's success. */
  function CreateAll(labels: seq<Label>, next: int, reqs: seq<LabelRequest>, projectId: int, now: string): (r: (seq<Label>, int, seq<bool>))
    ensures |r.2| == |reqs|
  {
    if reqs == [] then (labels, next, [])
    else
      var prev := CreateAll(labels, next, reqs[..|reqs| - 1], projectId, now);
      var step := Handler.LabelCreateOutcome(prev.0, prev.1, reqs[|reqs| - 1], projectId, now);
      (step.0, step.1, prev.2 + [step.2])
  }

  /** The updates of a save, in order: the table and each update's success. */
  function UpdateAll(labels: seq<Label>, changes: seq<(int, LabelPatch)>): (r: (seq<Label>, seq<bool>))
    ensures |r.1| == |changes|
  {
    if changes == [] then (labels, [])
    else
      var prev := UpdateAll(labels, changes[..|changes| - 1]);
      var step := Handler.LabelUpdateOutcome(prev.0, changes[|changes| - 1].0, changes[|changes| - 1].1);
      (step.0, prev.1 + [step.1])
  }

  /** How many attempts succeeded. */
  function CountOk(oks: seq<bool>): nat {
    if oks == [] then 0 else CountOk(oks[..|oks| - 1]) + (if oks[|oks| - 1] then 1 else 0)
  }

  lemma {:induction false} CountOkBound(oks: seq<bool>)
    ensures CountOk(oks) <= |oks|
  {
    if oks != [] {
      CountOkBound(oks[..|oks| - 1]);
    }
  }

  /**
   * The creates only append: the old rows stay in front, one new row and one
   * id per successful create, each new row in the save's project.
   */
  lemma {:induction false} CreateAllAppends(labels: seq<Label>, next: int, reqs: seq<LabelRequest>, projectId: int, now: string)
    ensures var r := CreateAll(labels, next, reqs, projectId, now);
      && |r.0| == |labels| + CountOk(r.2)
      && r.1 == next + CountOk(r.2)
      && r.0[..|labels|] == labels
      && forall k :: |labels| <= k < |r.0| ==> r.0[k].projectId == projectId
  {
    if reqs != [] {
      var prev := CreateAll(labels, next, reqs[..|reqs| - 1], projectId, now);
      CreateAllAppends(labels, next, reqs[..|reqs| - 1], projectId, now);
      var r := CreateAll(labels, next, reqs, projectId, now);
      assert r.2[..|r.2| - 1] == prev.2;
      if r.2[|r.2| - 1] {
        assert r.0 == prev.0 + [Handler.NewLabel(reqs[|reqs| - 1], prev.1, projectId, now)];
        assert r.0[..|labels|] == prev.0[..|labels|];
      }
    }
  }

  /**
   * The updates never add or remove a row, nor move a label to another id
   * or project; an update that fails leaves the table as it was.
   */
  lemma {:induction false} UpdateAllKeepsRows(labels: seq<Label>, changes: seq<(int, LabelPatch)>)
    ensures var r := UpdateAll(labels, changes);
      && |r.0| == |labels|
      && forall k :: 0 <= k < |labels| ==>
           r.0[k].labelId == labels[k].labelId && r.0[k].projectId == labels[k].projectId
    ensures forall k :: 0 <= k < |changes| ==> !UpdateAll(labels, changes).1[k] ==>
      UpdateAll(labels, changes[..k + 1]).0 == UpdateAll(labels, changes[..k]).0
  {
    if changes != [] {
      var init := changes[..|changes| - 1];
      UpdateAllKeepsRows(labels, init);
      var prev := UpdateAll(labels, init);
      var (id, patch) := changes[|changes| - 1];
      match FindLabel(prev.0, id) {
        case None =>
        case Some(i) =>
          Handler.PatchLabelSpec(prev.0[i], patch);
      }
      var r := UpdateAll(labels, changes);
      forall k | 0 <= k < |changes| && !r.1[k]
        ensures UpdateAll(labels, changes[..k + 1]).0 == UpdateAll(labels, changes[..k]).0
      {
        if k < |changes| - 1 {
          assert changes[..k + 1] == init[..k + 1] && changes[..k] == init[..k];
          assert r.1[k] == prev.1[k];
        } else {
          assert changes[..k + 1] == changes && changes[..k] == init;
        }
      }
    }
  }

  /** The screen's state: the labels shown, the labels still to create, and the pending changes per label id in insertion order. */
  class LabelManagementForm {
    var labels: seq<Label>
    var newLabels: seq<LabelRequest>
    var modifiedLabels: seq<(int, LabelPatch)>

    /** The pending changes form a dictionary: one entry per label id. */
    ghost predicate Valid()
      reads this
    {
      Pairwise(modifiedLabels, DistinctKeys)
    }

    /** A screen showing `labels`, with nothing pending. */
    constructor (labels: seq<Label>)
      ensures Valid()
      ensures this.labels == labels && newLabels == [] && modifiedLabels == []
    {
      this.labels := labels;
      newLabels := [];
      modifiedLabels := [];
    }

    /**
     * `_toggle_label_status`: an id not shown changes nothing; otherwise the
     * first label with that id moves one step along the status cycle, and the
     * new status is recorded among its pending changes.
     */
    method ToggleLabelStatus(labelId: int)
      requires Valid()
      modifies this
      ensures Valid()
      ensures newLabels == old(newLabels)
      ensures IndexOf(old(labels), LabelWithId(labelId)).None? ==>
        labels == old(labels) && modifiedLabels == old(modifiedLabels)
      ensures IndexOf(old(labels), LabelWithId(labelId)).Some? ==>
        var i := IndexOf(old(labels), LabelWithId(labelId)).value;
        var s := NextStatus(old(labels)[i].status);
        && labels == old(labels)[i := old(labels)[i].(status := s)]
        && modifiedLabels == RecordStatus(old(modifiedLabels), labelId, s)
    {
      var found := IndexOf(labels, LabelWithId(labelId));
      if found.None? {
        return;
      }
      var i := found.value;
      var s := NextStatus(labels[i].status);
      labels := labels[i := labels[i].(status := s)];
      RecordStatusKeys(modifiedLabels, labelId, s);
      modifiedLabels := RecordStatus(modifiedLabels, labelId, s);
    }

    /**
     * `_save_all_changes`: with no project selected nothing happens;
     * otherwise every new label is created and then every pending change
     * applied, in order; the labels table ends as `CreateAll` and then
     * `UpdateAll` leave it, the other tables are untouched, and the summary
     * counts the successes as changes and the failures as errors.
     */
    method SaveAllChanges(dbh: Handler.SQLLiteHandler, projectId: int, now: string) returns (summary: Option<Summary>)
      requires dbh.Valid()
      modifies dbh
      ensures dbh.Valid()
      ensures projectId <= 0 ==> summary.None? && unchanged(dbh)
      ensures projectId > 0 ==>
        var created := CreateAll(old(dbh.labels), old(dbh.nextLabelId), newLabels, projectId, now);
        var updated := UpdateAll(created.0, modifiedLabels);
        && summary.Some?
        && dbh.labels == updated.0 && dbh.nextLabelId == created.1
        && summary.value.totalChanges == CountOk(created.2) + CountOk(updated.1)
        && summary.value.totalChanges + summary.value.errors == |newLabels| + |modifiedLabels|
        && summary.value.newLabels == |newLabels| && summary.value.modifiedLabels == |modifiedLabels|
      ensures dbh.users == old(dbh.users) && dbh.sessions == old(dbh.sessions) && dbh.projects == old(dbh.projects)
      ensures dbh.memberships == old(dbh.memberships)
    {
      if projectId <= 0 {
        return None;
      }
      var created, createErrors, okCreates := CreateLabels(dbh, newLabels, projectId, now);
      var updated, updateErrors, okUpdates := UpdateLabels(dbh, modifiedLabels);
      summary := Some(Summary(created + updated, |newLabels|, |modifiedLabels|, |createErrors + updateErrors|));
    }
  }

  /** The first loop of `_save_all_changes`: each new label sent to `op_label_create`, in order. */
  method CreateLabels(dbh: Handler.SQLLiteHandler, reqs: seq<LabelRequest>, projectId: int, now: string)
    returns (changes: nat, errors: seq<Error>, ghost oks: seq<bool>)
    requires dbh.Valid()
    modifies dbh
    ensures dbh.Valid()
    ensures (dbh.labels, dbh.nextLabelId, oks) == CreateAll(old(dbh.labels), old(dbh.nextLabelId), reqs, projectId, now)
    ensures changes == CountOk(oks) && changes + |errors| == |reqs|
    ensures dbh.users == old(dbh.users) && dbh.sessions == old(dbh.sessions) && dbh.projects == old(dbh.projects)
    ensures dbh.memberships == old(dbh.memberships)
  {
    changes, errors, oks := 0, [], [];
    var i := 0;
    while i < |reqs|
      invariant 0 <= i <= |reqs|
      invariant dbh.Valid()
      invariant (dbh.labels, dbh.nextLabelId, oks) == CreateAll(old(dbh.labels), old(dbh.nextLabelId), reqs[..i], projectId, now)
      invariant changes == CountOk(oks) && changes + |errors| == i
      invariant dbh.users == old(dbh.users) && dbh.sessions == old(dbh.sessions) && dbh.projects == old(dbh.projects)
      invariant dbh.memberships == old(dbh.memberships)
    {
      var r := dbh.LabelCreate(reqs[i], projectId, now);
      assert reqs[..i + 1][..i] == reqs[..i];
      assert (oks + [r.Ok?])[..i] == oks;
      if r.Ok? {
        changes := changes + 1;
      } else {
        errors := errors + [r.error];
      }
      oks := oks + [r.Ok?];
      i := i + 1;
    }
    assert reqs[..i] == reqs;
  }

  /** The second loop of `_save_all_changes`: each pending change sent to `op_label_update`, in order. */
  method UpdateLabels(dbh: Handler.SQLLiteHandler, pending: seq<(int, LabelPatch)>)
    returns (changes: nat, errors: seq<Error>, ghost oks: seq<bool>)
    requires dbh.Valid()
    modifies dbh
    ensures dbh.Valid()
    ensures (dbh.labels, oks) == UpdateAll(old(dbh.labels), pending)
    ensures changes == CountOk(oks) && changes + |errors| == |pending|
    ensures dbh.nextLabelId == old(dbh.nextLabelId)
    ensures dbh.users == old(dbh.users) && dbh.sessions == old(dbh.sessions) && dbh.projects == old(dbh.projects)
    ensures dbh.memberships == old(dbh.memberships)
  {
    changes, errors, oks := 0, [], [];
    var j := 0;
    while j < |pending|
      invariant 0 <= j <= |pending|
      invariant dbh.Valid()
      invariant (dbh.labels, oks) == UpdateAll(old(dbh.labels), pending[..j])
      invariant changes == CountOk(oks) && changes + |errors| == j
      invariant dbh.nextLabelId == old(dbh.nextLabelId)
      invariant dbh.users == old(dbh.users) && dbh.sessions == old(dbh.sessions) && dbh.projects == old(dbh.projects)
      invariant dbh.memberships == old(dbh.memberships)
    {
      var r := dbh.LabelUpdate(pending[j].0, pending[j].1);
      assert pending[..j + 1][..j] == pending[..j];
      assert (oks + [r.Ok?])[..j] == oks;
      if r.Ok? {
        changes := changes + 1;
      } else {
        errors := errors + [r.error];
      }
      oks := oks + [r.Ok?];
      j := j + 1;
    }
    assert pending[..j] == pending;
  }
}
