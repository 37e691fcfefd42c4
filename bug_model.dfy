/**
 * The Mongoose schema of a bug record (server/models/Bug.js): field domains,
 * the `trim` setters, the `required`, `minlength`, `maxlength` and `enum`
 * validators, the `open`/`medium` defaults and the timestamps.  Clock time is
 * an abstract counter.
 */
module BugModel {
  import opened Wrappers
  import opened Validation

  type Id = nat

  datatype Bug = Bug(
    id: Id,
    title: string,
    description: string,
    status: string,
    priority: string,
    reporter: string,
    createdAt: nat,
    updatedAt: nat)

  const StatusEnum: seq<string> := ["open", "in-progress", "resolved", "closed"]
  const PriorityEnum: seq<string> := ["low", "medium", "high"]
  const DefaultStatus := "open"
  const DefaultPriority := "medium"

  /** The schema's enums list the same words as the validator's. */
  lemma EnumsAgree()
    ensures StatusEnum == AllowedStatuses && PriorityEnum == AllowedPriorities
  {
  }

  function FieldOf(b: Bug, f: Field): string
  {
    match f
    case Title => b.title
    case Description => b.description
    case Status => b.status
    case Priority => b.priority
    case Reporter => b.reporter
  }

  /** The setter of a path: title, description and reporter are declared `trim: true`. */
  function Setter(f: Field, s: string): string
  {
    if f == Status || f == Priority then s else Trim(s)
  }

  /**
   * The validators of a path, run on the value it would store: `required`
   * refuses the empty string, the length caps count UTF-16 units.
   */
  predicate PathValid(f: Field, v: string)
  {
    match f
    case Title => v != "" && 3 <= JsLength(v) <= 100
    case Description => v != "" && JsLength(v) <= 500
    case Status => v in StatusEnum
    case Priority => v in PriorityEnum
    case Reporter => v != "" && JsLength(v) <= 50
  }

  /** A stored value is one its setter would leave unchanged and its validators accept. */
  predicate Storable(f: Field, v: string)
  {
    (f == Status || f == Priority || Trimmed(v)) && PathValid(f, v)
  }

  /** The schema invariant every stored record satisfies. */
  predicate WellFormed(b: Bug)
  {
    && Storable(Title, b.title)
    && Storable(Description, b.description)
    && Storable(Status, b.status)
    && Storable(Priority, b.priority)
    && Storable(Reporter, b.reporter)
    && b.createdAt <= b.updatedAt
  }

  /** The value a path defaults to when it is undefined; required paths have none. */
  function Default(f: Field): Option<string>
  {
    match f
    case Status => Some(DefaultStatus)
    case Priority => Some(DefaultPriority)
    case _ => None
  }

  /**
   * Writing a supplied value to a path: the setter runs, then the validators;
   * `None` is Mongoose's validation error.  Only strings reach the store
   * through the controller, so other JSON values are refused here.
   */
  function SetPath(f: Field, v: Value): (r: Option<string>)
    ensures r.Some? ==> Storable(f, r.value)
    ensures r.Some? ==> v.Str? && r.value == Setter(f, v.s)
  {
    if v.Str? && PathValid(f, Setter(f, v.s)) then
      Some(Setter(f, v.s))
    else
      None
  }

  /** Creating a document: an undefined path takes its default, if it has one. */
  function InitPath(f: Field, v: Value): (r: Option<string>)
    ensures r.Some? ==> Storable(f, r.value)
  {
    if v.Absent? then Default(f) else SetPath(f, v)
  }

  /** `Bug.create({title, description, status, priority, reporter})` at clock time `now`. */
  function Create(data: Input, id: Id, now: nat): (r: Option<Bug>)
    ensures r.Some? ==> WellFormed(r.value)
    ensures r.Some? ==> r.value.id == id && r.value.createdAt == now && r.value.updatedAt == now
  {
    var title := InitPath(Title, data.title);
    var description := InitPath(Description, data.description);
    var status := InitPath(Status, data.status);
    var priority := InitPath(Priority, data.priority);
    var reporter := InitPath(Reporter, data.reporter);
    if title.Some? && description.Some? && status.Some? && priority.Some? && reporter.Some? then
      Some(Bug(id, title.value, description.value, status.value, priority.value, reporter.value, now, now))
    else
      None
  }

  lemma CreateSucceedsIff(data: Input, id: Id, now: nat)
    ensures Create(data, id, now).Some? <==>
      && InitPath(Title, data.title).Some? && InitPath(Description, data.description).Some?
      && InitPath(Status, data.status).Some? && InitPath(Priority, data.priority).Some?
      && InitPath(Reporter, data.reporter).Some?
  {
  }

  /** The value of path `f` after `$set`-ting the supplied fields of `delta`. */
  function Updated(b: Bug, delta: map<Field, Value>, f: Field): string
    requires f in delta ==> SetPath(f, delta[f]).Some?
  {
    if f in delta then SetPath(f, delta[f]).value else FieldOf(b, f)
  }

  /**
   * `findByIdAndUpdate(id, delta, { runValidators: true })` at clock time
   * `now`: the supplied paths go through their setters and validators, the
   * others keep their stored value, and `updatedAt` is refreshed.
   */
  function Patch(b: Bug, delta: map<Field, Value>, now: nat): (r: Option<Bug>)
    requires WellFormed(b) && b.updatedAt <= now
    ensures r.Some? <==> forall f :: f in delta ==> SetPath(f, delta[f]).Some?
    ensures r.Some? ==> WellFormed(r.value)
    ensures r.Some? ==> r.value.id == b.id && r.value.createdAt == b.createdAt && r.value.updatedAt == now
  {
    if forall f :: f in delta ==> SetPath(f, delta[f]).Some? then
      Some(Bug(b.id,
        Updated(b, delta, Title),
        Updated(b, delta, Description),
        Updated(b, delta, Status),
        Updated(b, delta, Priority),
        Updated(b, delta, Reporter),
        b.createdAt, now))
    else
      None
  }

  /** The record as the plain object `bug.toObject()` hands to the validator. */
  function AsInput(b: Bug): (r: Input)
    ensures forall f :: Get(r, f) == Str(FieldOf(b, f))
  {
    Input(Str(b.title), Str(b.description), Str(b.status), Str(b.priority), Str(b.reporter))
  }

  /** A patch rewrites exactly the supplied paths, each to its trimmed value where the path trims. */
  lemma PatchTouchesOnlySupplied(b: Bug, delta: map<Field, Value>, now: nat, f: Field)
    requires WellFormed(b) && b.updatedAt <= now && Patch(b, delta, now).Some?
    ensures f !in delta ==> FieldOf(Patch(b, delta, now).value, f) == FieldOf(b, f)
    ensures f in delta ==> delta[f].Str? && FieldOf(Patch(b, delta, now).value, f) == Setter(f, delta[f].s)
  {
    assert f in delta ==> SetPath(f, delta[f]).Some?;
    match f
    case Title =>
    case Description =>
    case Status =>
    case Priority =>
    case Reporter =>
  }

  /** A created record stores each supplied value through its setter, and a default for an undefined enum. */
  lemma CreateStoresInput(data: Input, id: Id, now: nat, f: Field)
    requires Create(data, id, now).Some?
    ensures Get(data, f).Absent? ==> Some(FieldOf(Create(data, id, now).value, f)) == Default(f)
    ensures Get(data, f).Str? ==> FieldOf(Create(data, id, now).value, f) == Setter(f, Get(data, f).s)
    ensures Get(data, f).Absent? || Get(data, f).Str?
  {
    match f
    case Title =>
    case Description =>
    case Status =>
    case Priority =>
    case Reporter =>
  }

  /** An undefined status or priority is stored as `open` or `medium`. */
  lemma CreateAppliesDefaults(data: Input, id: Id, now: nat)
    requires data.status.Absent? && data.priority.Absent?
    requires Create(data, id, now).Some?
    ensures Create(data, id, now).value.status == DefaultStatus
    ensures Create(data, id, now).value.priority == DefaultPriority
  {
    CreateStoresInput(data, id, now, Status);
    CreateStoresInput(data, id, now, Priority);
  }

  /**
   * A value the validator accepts for a field is also accepted by the
   * schema, except a description made only of whitespace: the validator
   * tests the untrimmed description for emptiness, `required` the trimmed one.
   */
  lemma AcceptedValueStores(f: Field, v: Value)
    requires FieldOk(f, v)
    ensures SetPath(f, v).Some? <==> (f != Description || !AllWhitespace(v.s))
  {
    match f
    case Title => AcceptedLengthStores(Title, v);
    case Description => AcceptedDescriptionStores(v);
    case Status => AcceptedEnumStores(Status, v);
    case Priority => AcceptedEnumStores(Priority, v);
    case Reporter => AcceptedLengthStores(Reporter, v);
  }

  lemma AcceptedLengthStores(f: Field, v: Value)
    requires f == Title || f == Reporter
    requires FieldOk(f, v)
    ensures SetPath(f, v).Some?
  {
    assert Trim(v.s) != "";
  }

  lemma AcceptedDescriptionStores(v: Value)
    requires FieldOk(Description, v)
    ensures SetPath(Description, v).Some? <==> !AllWhitespace(v.s)
  {
    TrimEmptyIff(v.s);
  }

  lemma AcceptedEnumStores(f: Field, v: Value)
    requires f == Status || f == Priority
    requires FieldOk(f, v)
    ensures SetPath(f, v).Some?
  {
    EnumsAgree();
  }

  /** A body that passes full-mode validation is created unless its description is only whitespace. */
  lemma SchemaAfterValidator(data: Input, id: Id, now: nat)
    requires ValidateBugInput(data, false).Pass?
    ensures Create(data, id, now).None? <==> AllWhitespace(data.description.s)
  {
    FullPassFieldsOk(data);
    CreateSucceedsIff(data, id, now);
    AcceptedValueStores(Title, data.title);
    AcceptedValueStores(Description, data.description);
    AcceptedValueStores(Status, data.status);
    AcceptedValueStores(Priority, data.priority);
    AcceptedValueStores(Reporter, data.reporter);
  }

  /** Every well-formed record, as a plain object, passes the validator in full mode. */
  lemma StoredRecordValid(b: Bug)
    requires WellFormed(b)
    ensures ValidateBugInput(AsInput(b), false) == Pass
  {
    var data := AsInput(b);
    assert Trim(b.title) == b.title && Trim(b.description) == b.description && Trim(b.reporter) == b.reporter;
    assert FieldOk(Title, data.title) && FieldOk(Description, data.description) && FieldOk(Status, data.status);
    assert FieldOk(Priority, data.priority) && FieldOk(Reporter, data.reporter);
    RejectedIffNotOk(data.title);
    RejectedIffNotOk(data.description);
    RejectedIffNotOk(data.status);
    RejectedIffNotOk(data.priority);
    RejectedIffNotOk(data.reporter);
  }
}
