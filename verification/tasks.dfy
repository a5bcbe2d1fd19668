/** The task record as the edit screen reads and writes it, and the
    single-field edits its inputs make to the draft. */
module Tasks {
  import opened Wrappers

  /** The three status labels a task can carry. */
  datatype Status = InProgress | Completed | Cancelled

  /** The label stored in the task record and shown on the status badge. */
  function Label(s: Status): string {
    match s
    case InProgress => "In Progress"
    case Completed => "Completed"
    case Cancelled => "Cancelled"
  }

  /** Reads a stored label back into a status; any other text is not a
      status. The screen itself never parses a label (the stored string
      passes through JSON untyped). This function exists to show, with
      `LabelRoundTrip`, that `Status` stands one-to-one for the three-label
      union of the task type. */
  function ParseStatus(text: string): (r: Option<Status>)
    ensures r.Some? ==> Label(r.value) == text
    ensures r.None? ==> forall s: Status :: Label(s) != text
  {
    if text == "In Progress" then Some(InProgress)
    else if text == "Completed" then Some(Completed)
    else if text == "Cancelled" then Some(Cancelled)
    else None
  }

  /** Every status survives being written as its label and read back. */
  lemma LabelRoundTrip(s: Status)
    ensures ParseStatus(Label(s)) == Some(s)
  {
  }

  /** The badges offered by the editor, in display order. */
  const StatusOptions: seq<Status> := [InProgress, Completed, Cancelled]

  /** The badges offer every status exactly once, each under its own label. */
  lemma StatusOptionsComplete()
    ensures forall s: Status :: s in StatusOptions
    ensures forall i, j :: 0 <= i < j < |StatusOptions| ==>
      Label(StatusOptions[i]) != Label(StatusOptions[j])
  {
    forall s: Status ensures s in StatusOptions {
      match s
      case InProgress => assert StatusOptions[0] == s;
      case Completed => assert StatusOptions[1] == s;
      case Cancelled => assert StatusOptions[2] == s;
    }
  }

  datatype Task = Task(
    id: string,
    title: string,
    description: string,
    date: string,
    location: string,
    status: Status)

  /** One change made by an input of the edit screen: a text field
      receives new text, or a status badge is pressed. */
  datatype Edit =
    | SetTitle(text: string)
    | SetDescription(text: string)
    | SetLocation(text: string)
    | SetStatus(status: Status)

  datatype Field = TitleField | DescriptionField | LocationField | StatusField

  /** The one field an edit writes. */
  function Target(e: Edit): Field {
    match e
    case SetTitle(_) => TitleField
    case SetDescription(_) => DescriptionField
    case SetLocation(_) => LocationField
    case SetStatus(_) => StatusField
  }

  /** `a` and `b` agree on every field except possibly `f`. */
  predicate SameExcept(a: Task, b: Task, f: Field) {
    && a.id == b.id
    && a.date == b.date
    && (f == TitleField || a.title == b.title)
    && (f == DescriptionField || a.description == b.description)
    && (f == LocationField || a.location == b.location)
    && (f == StatusField || a.status == b.status)
  }

  /** `a` and `b` hold the same value in field `f`. */
  predicate AgreeOn(a: Task, b: Task, f: Field) {
    match f
    case TitleField => a.title == b.title
    case DescriptionField => a.description == b.description
    case LocationField => a.location == b.location
    case StatusField => a.status == b.status
  }

  /** `t` carries the value `e` writes. */
  predicate Reflects(t: Task, e: Edit) {
    match e
    case SetTitle(x) => t.title == x
    case SetDescription(x) => t.description == x
    case SetLocation(x) => t.location == x
    case SetStatus(s) => t.status == s
  }

  /** `setTask({ ...task, field: value })`: the draft takes the new value as
      typed and keeps every other field, its id and date included. */
  function ApplyEdit(t: Task, e: Edit): (r: Task)
    ensures Reflects(r, e)
    ensures SameExcept(t, r, Target(e))
  {
    match e
    case SetTitle(x) => t.(title := x)
    case SetDescription(x) => t.(description := x)
    case SetLocation(x) => t.(location := x)
    case SetStatus(s) => t.(status := s)
  }

  /** A sequence of edits applied in order. */
  function ApplyEdits(t: Task, es: seq<Edit>): (r: Task)
    ensures r.id == t.id && r.date == t.date
    decreases |es|
  {
    if |es| == 0 then t else ApplyEdits(ApplyEdit(t, es[0]), es[1..])
  }

  /** Two edits of different fields can be made in either order. */
  lemma EditsOfDifferentFieldsCommute(t: Task, e1: Edit, e2: Edit)
    requires Target(e1) != Target(e2)
    ensures ApplyEdit(ApplyEdit(t, e1), e2) == ApplyEdit(ApplyEdit(t, e2), e1)
  {
  }

  /** Of two edits of the same field, the later one wins. */
  lemma LaterEditWins(t: Task, e1: Edit, e2: Edit)
    requires Target(e1) == Target(e2)
    ensures ApplyEdit(ApplyEdit(t, e1), e2) == ApplyEdit(t, e2)
  {
  }

  /** Retyping the value a field already holds leaves the draft as it is. */
  lemma EditAlreadyReflectedIsNoOp(t: Task, e: Edit)
    requires Reflects(t, e)
    ensures ApplyEdit(t, e) == t
  {
  }

  /** After a run of edits, a field holds the value of the last edit that
      wrote it. */
  lemma {:induction false} LastEditOfFieldWins(t: Task, es: seq<Edit>, k: nat)
    requires k < |es|
    requires forall j :: k < j < |es| ==> Target(es[j]) != Target(es[k])
    ensures Reflects(ApplyEdits(t, es), es[k])
    decreases |es|
  {
    var t1 := ApplyEdit(t, es[0]);
    if k == 0 {
      UntouchedFieldKept(t1, es[1..], Target(es[0]));
    } else {
      LastEditOfFieldWins(t1, es[1..], k - 1);
    }
  }

  /** Edits that never target `f` leave field `f` as it was. */
  lemma {:induction false} UntouchedFieldKept(t: Task, es: seq<Edit>, f: Field)
    requires forall j :: 0 <= j < |es| ==> Target(es[j]) != f
    ensures AgreeOn(t, ApplyEdits(t, es), f)
    decreases |es|
  {
    if |es| > 0 {
      UntouchedFieldKept(ApplyEdit(t, es[0]), es[1..], f);
    }
  }
}
