/** The edit-task screen without its rendering: loading the draft for a
    route id, and saving the edited draft back over every stored record with
    that id. The stored collection is what the key-value store holds under
    "tasks" after JSON parsing; `None` stands for a missing (or empty) value. */
module TaskEditor {
  import opened Wrappers
  import opened Tasks
  import Text
  import DateStamp

  /** The ids of a collection, in order. */
  function Ids(ts: seq<Task>): seq<string> {
    seq(|ts|, i requires 0 <= i < |ts| => ts[i].id)
  }

  /** No record of `ts` carries `id`. */
  predicate Absent(ts: seq<Task>, id: string) {
    forall i :: 0 <= i < |ts| ==> ts[i].id != id
  }

  /** `k` is the position of the first record of `ts` that carries `id`. */
  predicate IsFirstWithId(ts: seq<Task>, id: string, k: int) {
    && 0 <= k < |ts|
    && ts[k].id == id
    && forall j :: 0 <= j < k ==> ts[j].id != id
  }

  /** `all.find((t) => t.id === id)`: the first record carrying `id`, or
      nothing when no record does. */
  function FindById(ts: seq<Task>, id: string): (r: Option<Task>)
    ensures r.None? <==> Absent(ts, id)
    ensures r.Some? ==> exists k :: IsFirstWithId(ts, id, k) && ts[k] == r.value
  {
    if |ts| == 0 then None
    else if ts[0].id == id then
      assert IsFirstWithId(ts, id, 0);
      Some(ts[0])
    else
      var r := FindById(ts[1..], id);
      if r.Some? then
        var k :| IsFirstWithId(ts[1..], id, k) && ts[1..][k] == r.value;
        assert IsFirstWithId(ts, id, k + 1);
        r
      else
        r
  }

  /** The screen's load effect: when a collection is stored and a record
      carries the route id, the draft becomes the first such record;
      otherwise the draft keeps whatever it held. */
  function Load(draft: Option<Task>, stored: Option<seq<Task>>, id: string): (r: Option<Task>)
    ensures stored.None? ==> r == draft
    ensures stored.Some? && Absent(stored.value, id) ==> r == draft
    ensures stored.Some? && !Absent(stored.value, id) ==>
      && r.Some?
      && exists k :: IsFirstWithId(stored.value, id, k) && stored.value[k] == r.value
  {
    if stored.None? then draft
    else
      var found := FindById(stored.value, id);
      if found.Some? then found else draft
  }

  /** A draft that was loaded carries the route id. */
  lemma LoadedDraftHasRouteId(draft: Option<Task>, stored: Option<seq<Task>>, id: string)
    ensures var r := Load(draft, stored, id);
      r == draft || (r.Some? && r.value.id == id)
  {
  }

  /** `all.map((t) => t.id === id ? x : t)`: every record carrying `id` is
      replaced by `x`, every other record stays where and what it was. */
  function ReplaceById(ts: seq<Task>, id: string, x: Task): (r: seq<Task>)
    ensures |r| == |ts|
    ensures forall i :: 0 <= i < |ts| ==> r[i] == if ts[i].id == id then x else ts[i]
  {
    if |ts| == 0 then []
    else [if ts[0].id == id then x else ts[0]] + ReplaceById(ts[1..], id, x)
  }

  /** The three ends of a press on "Save Task". */
  datatype SaveOutcome =
    | Rejected                      // "All fields are required"; nothing read or written
    | NoWrite                       // no collection stored; nothing written
    | Written(tasks: seq<Task>)     // the collection written back under "tasks"

  /** The record written for each matching id: the draft as typed, with its
      date replaced by the minute stamp of the picked date-time. */
  function Replacement(draft: Task, iso: string): (r: Task)
    ensures r.(date := draft.date) == draft
    ensures r.date == DateStamp.Stamp(iso)
  {
    draft.(date := DateStamp.Stamp(iso))
  }

  /** `handleSave`. A draft that is missing, or whose title, description or
      location trims to nothing, is rejected before storage is read. Without
      a stored collection nothing is written. Otherwise every stored record
      whose id is the route id becomes the draft, with its date set from
      `iso`; the rest are kept. */
  function Save(stored: Option<seq<Task>>, draft: Option<Task>, id: string, iso: string): (r: SaveOutcome)
    ensures r.Rejected? <==>
      || draft.None?
      || Text.AllWhitespace(draft.value.title)
      || Text.AllWhitespace(draft.value.description)
      || Text.AllWhitespace(draft.value.location)
    ensures r.NoWrite? <==> !r.Rejected? && stored.None?
    ensures r.Written? ==> stored.Some? && draft.Some? && |r.tasks| == |stored.value|
    ensures r.Written? ==> forall i :: 0 <= i < |stored.value| ==>
      (stored.value[i].id != id ==> r.tasks[i] == stored.value[i])
    ensures r.Written? ==> forall i :: 0 <= i < |stored.value| ==>
      (stored.value[i].id == id ==> r.tasks[i] == Replacement(draft.value, iso))
  {
    if draft.None? then Rejected
    else
      var t := draft.value;
      Text.BlankIffAllWhitespace(t.title);
      Text.BlankIffAllWhitespace(t.description);
      Text.BlankIffAllWhitespace(t.location);
      if Text.Blank(t.title) || Text.Blank(t.description) || Text.Blank(t.location) then Rejected
      else if stored.None? then NoWrite
      else Written(ReplaceById(stored.value, id, Replacement(t, iso)))
  }

  /** A draft loaded for `id` and then edited keeps `id`, so saving it never
      ends in "no write" and keeps the stored ids, in order. */
  lemma SavePreservesIds(stored: seq<Task>, draft: Task, id: string, iso: string)
    requires draft.id == id
    ensures var r := Save(Some(stored), Some(draft), id, iso);
      r.Rejected? || (r.Written? && Ids(r.tasks) == Ids(stored))
  {
  }

  /** Loading the route id from the collection just written yields the saved
      draft with its new date: what was saved is what the screen reads back. */
  lemma SaveThenLoad(stored: seq<Task>, draft: Task, id: string, iso: string)
    requires draft.id == id
    requires !Absent(stored, id)
    ensures var r := Save(Some(stored), Some(draft), id, iso);
      r.Written? ==> Load(None, Some(r.tasks), id) == Some(Replacement(draft, iso))
  {
    var r := Save(Some(stored), Some(draft), id, iso);
    if r.Written? {
      var found := Load(None, Some(r.tasks), id);
      var k :| IsFirstWithId(r.tasks, id, k) && r.tasks[k] == found.value;
    }
  }

  /** Pressing save twice with the same draft and date writes the same
      collection both times. */
  lemma SaveIdempotent(stored: seq<Task>, draft: Task, id: string, iso: string)
    requires draft.id == id
    ensures var r := Save(Some(stored), Some(draft), id, iso);
      r.Written? ==> Save(Some(r.tasks), Some(draft), id, iso) == r
  {
    var r := Save(Some(stored), Some(draft), id, iso);
    if r.Written? {
      assert Save(Some(r.tasks), Some(draft), id, iso).tasks == r.tasks;
    }
  }

  /** Saving for an id no stored record carries writes the collection back
      unchanged, unless the draft is rejected. */
  lemma SaveUnknownIdWritesBackUnchanged(stored: seq<Task>, draft: Option<Task>, id: string, iso: string)
    requires Absent(stored, id)
    ensures var r := Save(Some(stored), draft, id, iso);
      r == Rejected || r == Written(stored)
  {
    var r := Save(Some(stored), draft, id, iso);
    if r.Written? {
      assert r.tasks == stored;
    }
  }

  /** No record of `ts` has a title, description or location that trims to
      nothing. */
  predicate NoBlankFields(ts: seq<Task>) {
    forall i :: 0 <= i < |ts| ==>
      !Text.Blank(ts[i].title) && !Text.Blank(ts[i].description) && !Text.Blank(ts[i].location)
  }

  /** Save never writes a record with a required field left blank: if the
      stored records have all fields filled, so do the written ones. */
  lemma SaveKeepsFieldsFilled(stored: seq<Task>, draft: Option<Task>, id: string, iso: string)
    requires NoBlankFields(stored)
    ensures var r := Save(Some(stored), draft, id, iso);
      r.Written? ==> NoBlankFields(r.tasks)
  {
    if draft.Some? {
      Text.BlankIffAllWhitespace(draft.value.title);
      Text.BlankIffAllWhitespace(draft.value.description);
      Text.BlankIffAllWhitespace(draft.value.location);
    }
  }

  /** No two records of `ts` share an id. */
  predicate UniqueIds(ts: seq<Task>) {
    forall i, j :: 0 <= i < j < |ts| ==> ts[i].id != ts[j].id
  }

  /** Saving a draft that carries the route id keeps ids unique. */
  lemma SaveKeepsIdsUnique(stored: seq<Task>, draft: Task, id: string, iso: string)
    requires draft.id == id
    requires UniqueIds(stored)
    ensures var r := Save(Some(stored), Some(draft), id, iso);
      r.Written? ==> UniqueIds(r.tasks)
  {
    var r := Save(Some(stored), Some(draft), id, iso);
    if r.Written? {
      forall i, j | 0 <= i < j < |r.tasks| ensures r.tasks[i].id != r.tasks[j].id {
        assert r.tasks[i].id == stored[i].id && r.tasks[j].id == stored[j].id;
      }
    }
  }

  /** Given a well-formed ISO timestamp, every replaced record's date has the
      `yyyy-MM-dd HH:mm` shape. */
  lemma SavedDateHasStampShape(stored: seq<Task>, draft: Task, id: string, iso: string)
    requires DateStamp.Matches(iso, DateStamp.IsoPattern)
    ensures var r := Save(Some(stored), Some(draft), id, iso);
      r.Written? ==> forall i :: 0 <= i < |stored| && stored[i].id == id ==>
        DateStamp.Matches(r.tasks[i].date, DateStamp.StampPattern)
  {
    DateStamp.StampOfIso(iso);
  }

  /** A whole visit to the screen: load the draft for `id`, make edits, save.
      Unless a required field was left blank, the written collection keeps
      the stored ids in order, and reading `id` back gives the edited draft
      with the new date. */
  lemma EditSession(stored: seq<Task>, id: string, es: seq<Edit>, iso: string)
    requires !Absent(stored, id)
    ensures Load(None, Some(stored), id).Some?
    ensures
      var edited := ApplyEdits(Load(None, Some(stored), id).value, es);
      var r := Save(Some(stored), Some(edited), id, iso);
      && (r.Rejected? || r.Written?)
      && (r.Written? ==> Ids(r.tasks) == Ids(stored))
      && (r.Written? ==> Load(None, Some(r.tasks), id) == Some(Replacement(edited, iso)))
  {
    var d := Load(None, Some(stored), id);
    LoadedDraftHasRouteId(None, Some(stored), id);
    var edited := ApplyEdits(d.value, es);
    SavePreservesIds(stored, edited, id, iso);
    SaveThenLoad(stored, edited, id, iso);
  }
}
