/**
 * The five request handlers of server/controllers/bugController.js, over a
 * store that stands for the Mongo collection: a map from ids to records, the
 * next fresh id, and an abstract clock for the timestamps.
 *
 * A handler ends either by sending a response, or by throwing an `Error`
 * while `res.statusCode` holds whatever it last set (Express starts it at
 * 200); `express-async-handler` passes that error on to `errorHandler`.
 */
module BugController {
  import opened Wrappers
  import opened Validation
  import opened BugModel
  import ErrorHandler

  /** The JSON body of a successful response. */
  datatype Body = BugList(bugs: seq<Bug>) | OneBug(bug: Bug) | Note(message: string)

  /** How a handler ends: `res.status(status).json(body)`, or a thrown `Error(message)`. */
  datatype Outcome = Sent(status: int, body: Body) | Thrown(statusCode: int, message: string)

  const NotFoundMessage := "Bug not found"
  const RemovedMessage := "Bug removed"
  /** The message of the validation error Mongoose raises when the schema refuses a write. */
  const SchemaErrorMessage := "Bug validation failed"

  /** Every record is stored under its own id. */
  ghost predicate Keyed(records: map<Id, Bug>)
  {
    forall k :: k in records ==> records[k].id == k
  }

  /** What each stored record satisfies: its own id, issued already, schema-valid, not from the future. */
  ghost predicate RecordOk(b: Bug, id: Id, nextId: Id, clock: nat)
  {
    b.id == id && id < nextId && WellFormed(b) && b.updatedAt <= clock
  }

  ghost predicate StoreOk(records: map<Id, Bug>, nextId: Id, clock: nat)
  {
    forall id :: id in records ==> RecordOk(records[id], id, nextId, clock)
  }

  lemma InsertKeepsStoreOk(records: map<Id, Bug>, nextId: Id, clock: nat, b: Bug)
    requires StoreOk(records, nextId, clock)
    requires b.id == nextId && WellFormed(b) && b.updatedAt <= clock + 1
    ensures StoreOk(records[nextId := b], nextId + 1, clock + 1)
  {
    var updated := records[nextId := b];
    forall id | id in updated ensures RecordOk(updated[id], id, nextId + 1, clock + 1) {
      if id != nextId {
        assert RecordOk(records[id], id, nextId, clock);
      }
    }
  }

  lemma ReplaceKeepsStoreOk(records: map<Id, Bug>, nextId: Id, clock: nat, b: Bug)
    requires StoreOk(records, nextId, clock)
    requires b.id in records && WellFormed(b) && b.updatedAt <= clock + 1
    ensures StoreOk(records[b.id := b], nextId, clock + 1)
  {
    var updated := records[b.id := b];
    forall id | id in updated ensures RecordOk(updated[id], id, nextId, clock + 1) {
      assert RecordOk(records[id], id, nextId, clock);
    }
  }

  lemma RemoveKeepsStoreOk(records: map<Id, Bug>, nextId: Id, clock: nat, id: Id)
    requires StoreOk(records, nextId, clock)
    ensures StoreOk(records - {id}, nextId, clock)
  {
  }

  /**
   * `Bug.find({})`: the records with ids below `n`.  The query sorts
   * nothing; the model assumes the collection returns them in insertion
   * order, which is ascending id order.
   */
  function Listing(records: map<Id, Bug>, n: nat): (r: seq<Bug>)
    ensures |r| <= n
  {
    if n == 0 then []
    else Listing(records, n - 1) + if n - 1 in records then [records[n - 1]] else []
  }

  /** The listing holds every record below `n`, each once, in ascending id order. */
  lemma {:induction false} ListingSound(records: map<Id, Bug>, n: nat)
    requires Keyed(records)
    ensures forall k :: k in records && k < n ==> records[k] in Listing(records, n)
    ensures forall i :: 0 <= i < |Listing(records, n)| ==>
      var b := Listing(records, n)[i]; b.id < n && b.id in records && records[b.id] == b
    ensures forall i, j :: 0 <= i < j < |Listing(records, n)| ==> Listing(records, n)[i].id < Listing(records, n)[j].id
  {
    if n > 0 {
      ListingSound(records, n - 1);
    }
  }

  /** The `updateData` object: exactly the fields of the body that are not `undefined`. */
  function Supplied(body: Input): (r: map<Field, Value>)
    ensures forall f :: f in r <==> !Get(body, f).Absent?
    ensures forall f :: f in r ==> r[f] == Get(body, f)
  {
    map f | f in {Title, Description, Status, Priority, Reporter} && !Get(body, f).Absent? :: Get(body, f)
  }

  /** `delta` holds exactly the defined fields of `body`, with their values. */
  predicate SameFields(delta: map<Field, Value>, body: Input)
  {
    forall f :: (f in delta <==> !Get(body, f).Absent?) && (f in delta ==> delta[f] == Get(body, f))
  }

  /** `Supplied` is the only map with the fields of the body. */
  lemma SameFieldsIsSupplied(delta: map<Field, Value>, body: Input)
    requires SameFields(delta, body)
    ensures delta == Supplied(body)
  {
  }

  /** `{ ...bug.toObject(), ...updateData }`: the stored record overlaid with the delta. */
  function Overlay(b: Bug, delta: map<Field, Value>): (r: Input)
    ensures forall f :: Get(r, f) == if f in delta then delta[f] else Str(FieldOf(b, f))
  {
    Input(
      if Title in delta then delta[Title] else Str(b.title),
      if Description in delta then delta[Description] else Str(b.description),
      if Status in delta then delta[Status] else Str(b.status),
      if Priority in delta then delta[Priority] else Str(b.priority),
      if Reporter in delta then delta[Reporter] else Str(b.reporter))
  }

  /**
   * The decision the update handler takes before writing: a supplied status
   * is checked on its own first, then the merged record is validated
   * (the handler passes partial mode).
   */
  function UpdateCheck(b: Bug, body: Input): Check
  {
    if !body.status.Absent? && ValidateBugStatus(body.status).Fail? then
      ValidateBugStatus(body.status)
    else
      ValidateBugInput(Overlay(b, Supplied(body)), true)
  }

  /**
   * Lines 67-80 of the update handler: collect the supplied fields into
   * `updateData`, checking a supplied status on the way.
   */
  method CollectUpdate(body: Input) returns (updateData: map<Field, Value>, statusCheck: Check)
    ensures statusCheck.Fail? <==> !body.status.Absent? && !FieldOk(Status, body.status)
    ensures statusCheck.Fail? ==> statusCheck.message == InvalidStatusMessage
    ensures statusCheck.Pass? ==> SameFields(updateData, body)
  {
    var Input(title, description, status, priority, reporter) := body;
    updateData := map[];
    if !title.Absent? {
      updateData := updateData[Title := title];
    }
    if !description.Absent? {
      updateData := updateData[Description := description];
    }
    if !status.Absent? {
      statusCheck := ValidateBugStatus(status);
      if statusCheck.Fail? {
        return;
      }
      updateData := updateData[Status := status];
    }
    statusCheck := Pass;
    if !priority.Absent? {
      updateData := updateData[Priority := priority];
    }
    if !reporter.Absent? {
      updateData := updateData[Reporter := reporter];
    }
  }

  /** What `CollectUpdate` reports decides the update as `UpdateCheck` does. */
  lemma CollectedCheck(b: Bug, body: Input, updateData: map<Field, Value>, statusCheck: Check)
    requires statusCheck.Fail? <==> !body.status.Absent? && !FieldOk(Status, body.status)
    requires statusCheck.Fail? ==> statusCheck.message == InvalidStatusMessage
    requires statusCheck.Pass? ==> SameFields(updateData, body)
    ensures statusCheck.Fail? ==> UpdateCheck(b, body) == statusCheck
    ensures statusCheck.Pass? ==> UpdateCheck(b, body) == ValidateBugInput(Overlay(b, updateData), true)
  {
    if statusCheck.Pass? {
      SameFieldsIsSupplied(updateData, body);
    }
  }

  /**
   * A supplied status outside the enum is reported with the status
   * message, whatever else the body holds: the pre-check runs before the
   * merged record is validated.
   */
  lemma StatusCheckedFirst(b: Bug, body: Input)
    requires !body.status.Absent? && !FieldOk(Status, body.status)
    ensures UpdateCheck(b, body) == Fail(InvalidStatusMessage)
  {
  }

  /** Overlaying a stored record with supplied fields leaves no field undefined. */
  lemma OverlayComplete(b: Bug, body: Input)
    ensures forall f :: !Get(Overlay(b, Supplied(body)), f).Absent?
  {
    var merged := Overlay(b, Supplied(body));
    forall f ensures !Get(merged, f).Absent? {
      match f
      case Title =>
      case Description =>
      case Status =>
      case Priority =>
      case Reporter =>
    }
  }

  /**
   * Once the status pre-check passes, the update is decided by validating
   * the merged record in full: partial mode skips nothing on it.
   */
  lemma UpdateCheckIsFullCheck(b: Bug, body: Input)
    requires body.status.Absent? || FieldOk(Status, body.status)
    ensures UpdateCheck(b, body) == ValidateBugInput(Overlay(b, Supplied(body)), false)
  {
    OverlayComplete(b, body);
    PartialIsFullWhenComplete(Overlay(b, Supplied(body)));
  }

  /** An update that supplies no field passes validation and rewrites no field. */
  lemma EmptyUpdatePasses(b: Bug, now: nat)
    requires WellFormed(b) && b.updatedAt <= now
    ensures var body := Input(Absent, Absent, Absent, Absent, Absent);
      && UpdateCheck(b, body) == Pass
      && Patch(b, Supplied(body), now) == Some(b.(updatedAt := now))
  {
    var body := Input(Absent, Absent, Absent, Absent, Absent);
    assert Supplied(body) == map[];
    assert Overlay(b, Supplied(body)) == AsInput(b);
    UpdateCheckIsFullCheck(b, body);
    StoredRecordValid(b);
  }

  /**
   * Create validates in full mode before any default could apply, so a
   * body that gets through supplies both status and priority, and the
   * record stores them as given.
   */
  lemma CreateNeverDefaults(body: Input, id: Id, now: nat)
    requires ValidateBugInput(body, false).Pass?
    ensures body.status.Str? && body.priority.Str?
    ensures Create(body, id, now).Some? ==>
      Create(body, id, now).value.status == body.status.s &&
      Create(body, id, now).value.priority == body.priority.s
  {
    FullPassFieldsOk(body);
    if Create(body, id, now).Some? {
      CreateStoresInput(body, id, now, Status);
      CreateStoresInput(body, id, now, Priority);
    }
  }

  /** A create body without a status is refused; with title and description valid, for its status. */
  lemma CreateWithoutStatusRefused(body: Input)
    requires body.status.Absent?
    ensures ValidateBugInput(body, false).Fail?
    ensures FieldOk(Title, body.title) && FieldOk(Description, body.description) ==>
      ValidateBugInput(body, false) == Fail(StatusMessage)
  {
    ReportsFirstFailure(body, false, Status);
    PassesIffNoFailure(body, false);
    assert Fails(body, Status, false);
  }

  /**
   * A body with a description made only of whitespace gets through the
   * validator, is refused by the schema, and ends as a 500 response.
   */
  lemma WhitespaceDescriptionIsServerError(body: Input, id: Id, now: nat, stack: string, nodeEnv: Option<string>)
    requires ValidateBugInput(body, false).Pass?
    requires AllWhitespace(body.description.s)
    ensures Create(body, id, now).None?
    ensures ErrorHandler.Respond(ErrorHandler.DefaultStatusCode, ErrorHandler.JsError(SchemaErrorMessage, stack), nodeEnv).status == 500
  {
    SchemaAfterValidator(body, id, now);
  }

  /** Marking a bug resolved passes the checks: the status pre-check and the merged record. */
  lemma ResolveAccepted(b: Bug)
    requires WellFormed(b)
    ensures UpdateCheck(b, Input(Absent, Absent, Str("resolved"), Absent, Absent)) == Pass
  {
    var body := Input(Absent, Absent, Str("resolved"), Absent, Absent);
    var resolved := b.(status := "resolved");
    assert Supplied(body) == map[Status := Str("resolved")];
    assert Overlay(b, Supplied(body)) == AsInput(resolved);
    EnumsAgree();
    StoredRecordValid(resolved);
    UpdateCheckIsFullCheck(b, body);
  }

  /** Marking a bug resolved writes the status and the timestamp, and nothing else. */
  lemma ResolveWritesStatus(b: Bug, now: nat)
    requires WellFormed(b) && b.updatedAt <= now
    ensures Patch(b, Supplied(Input(Absent, Absent, Str("resolved"), Absent, Absent)), now)
      == Some(b.(status := "resolved", updatedAt := now))
  {
    var body := Input(Absent, Absent, Str("resolved"), Absent, Absent);
    assert Supplied(body) == map[Status := Str("resolved")];
    EnumsAgree();
    assert SetPath(Status, Str("resolved")) == Some("resolved");
  }

  class BugStore {
    var records: map<Id, Bug>
    var nextId: Id
    var clock: nat

    /** Ids are issued in increasing order, every record obeys the schema, no timestamp is in the future. */
    ghost predicate Valid()
      reads this
    {
      StoreOk(records, nextId, clock)
    }

    constructor ()
      ensures Valid() && records == map[] && nextId == 0 && clock == 0
    {
      records, nextId, clock := map[], 0, 0;
    }

    /** `getBugs`: 200 with every stored record, each once, in ascending id order. */
    method GetBugs() returns (outcome: Outcome)
      requires Valid()
      ensures outcome.Sent? && outcome.status == 200 && outcome.body.BugList?
      ensures outcome.body.bugs == Listing(records, nextId)
      ensures forall id :: id in records ==> records[id] in outcome.body.bugs
      ensures forall b :: b in outcome.body.bugs ==> b.id in records && records[b.id] == b
      ensures forall i, j :: 0 <= i < j < |outcome.body.bugs| ==> outcome.body.bugs[i].id < outcome.body.bugs[j].id
    {
      ListingSound(records, nextId);
      outcome := Sent(200, BugList(Listing(records, nextId)));
    }

    /** `getBugById`: the record, or 404 "Bug not found". */
    method GetBugById(id: Id) returns (outcome: Outcome)
      ensures id in records ==> outcome == Sent(200, OneBug(records[id]))
      ensures id !in records ==> outcome == Thrown(404, NotFoundMessage)
    {
      if id !in records {
        outcome := Thrown(404, NotFoundMessage);
        return;
      }
      outcome := Sent(200, OneBug(records[id]));
    }

    /**
     * `createBug`: full-mode validation first (400 on failure), then
     * `Bug.create`, whose schema may still refuse the body (a thrown
     * validation error with the status unset); otherwise 201 with the new
     * record under a fresh id.
     */
    method CreateBug(body: Input) returns (outcome: Outcome)
      requires Valid()
      modifies this
      ensures Valid()
      ensures ValidateBugInput(body, false).Fail? ==>
        outcome == Thrown(400, ValidateBugInput(body, false).message) && unchanged(this)
      ensures ValidateBugInput(body, false).Pass? && Create(body, old(nextId), old(clock) + 1).None? ==>
        outcome == Thrown(200, SchemaErrorMessage) && unchanged(this)
      ensures ValidateBugInput(body, false).Pass? && Create(body, old(nextId), old(clock) + 1).Some? ==>
        var bug := Create(body, old(nextId), old(clock) + 1).value;
        && outcome == Sent(201, OneBug(bug))
        && old(nextId) !in old(records)
        && records == old(records)[old(nextId) := bug]
        && nextId == old(nextId) + 1 && clock == old(clock) + 1
    {
      var check := ValidateBugInput(body, false);
      if check.Fail? {
        outcome := Thrown(400, check.message);
        return;
      }
      var created := Create(body, nextId, clock + 1);
      if created.None? {
        outcome := Thrown(200, SchemaErrorMessage);
        return;
      }
      var bug := created.value;
      InsertKeepsStoreOk(records, nextId, clock, bug);
      records := records[nextId := bug];
      nextId := nextId + 1;
      clock := clock + 1;
      outcome := Sent(201, OneBug(bug));
    }

    /**
     * `updateBug`: 404 on an unknown id; 400 if a supplied status is not in
     * the enum, or if the merged record fails validation; otherwise only the
     * supplied fields are written (the schema may still refuse them), with
     * `updatedAt` refreshed, and 200 with the updated record.
     */
    method UpdateBug(id: Id, body: Input) returns (outcome: Outcome)
      requires Valid()
      modifies this
      ensures Valid()
      ensures id !in old(records) ==> outcome == Thrown(404, NotFoundMessage) && unchanged(this)
      ensures id in old(records) && UpdateCheck(old(records)[id], body).Fail? ==>
        outcome == Thrown(400, UpdateCheck(old(records)[id], body).message) && unchanged(this)
      ensures (&& id in old(records) && UpdateCheck(old(records)[id], body).Pass?
               && Patch(old(records)[id], Supplied(body), old(clock) + 1).None?) ==>
        outcome == Thrown(200, SchemaErrorMessage) && unchanged(this)
      ensures (&& id in old(records) && UpdateCheck(old(records)[id], body).Pass?
               && Patch(old(records)[id], Supplied(body), old(clock) + 1).Some?) ==>
        var updated := Patch(old(records)[id], Supplied(body), old(clock) + 1).value;
        && outcome == Sent(200, OneBug(updated))
        && records == old(records)[id := updated]
        && nextId == old(nextId) && clock == old(clock) + 1
    {
      if id !in records {
        outcome := Thrown(404, NotFoundMessage);
        return;
      }
      var bug := records[id];
      assert RecordOk(bug, id, nextId, clock);
      outcome := UpdateRecord(bug, body);
    }

    /** The update handler once the record `bug` has been found. */
    method UpdateRecord(bug: Bug, body: Input) returns (outcome: Outcome)
      requires Valid() && bug.id in records && records[bug.id] == bug
      modifies this
      ensures Valid()
      ensures UpdateCheck(bug, body).Fail? ==> outcome == Thrown(400, UpdateCheck(bug, body).message) && unchanged(this)
      ensures UpdateCheck(bug, body).Pass? && Patch(bug, Supplied(body), old(clock) + 1).None? ==>
        outcome == Thrown(200, SchemaErrorMessage) && unchanged(this)
      ensures UpdateCheck(bug, body).Pass? && Patch(bug, Supplied(body), old(clock) + 1).Some? ==>
        var updated := Patch(bug, Supplied(body), old(clock) + 1).value;
        && outcome == Sent(200, OneBug(updated))
        && records == old(records)[bug.id := updated]
        && nextId == old(nextId) && clock == old(clock) + 1
    {
      var updateData, statusCheck := CollectUpdate(body);
      CollectedCheck(bug, body, updateData, statusCheck);
      if statusCheck.Fail? {
        outcome := Thrown(400, statusCheck.message);
        return;
      }
      SameFieldsIsSupplied(updateData, body);
      var check := ValidateBugInput(Overlay(bug, updateData), true);
      if check.Fail? {
        outcome := Thrown(400, check.message);
        return;
      }
      assert RecordOk(bug, bug.id, nextId, clock);
      var patched := Patch(bug, updateData, clock + 1);
      if patched.None? {
        outcome := Thrown(200, SchemaErrorMessage);
        return;
      }
      outcome := Replace(patched.value);
    }

    /** Writing back an updated record: the clock ticks and 200 with the record. */
    method Replace(b: Bug) returns (outcome: Outcome)
      requires Valid() && b.id in records && WellFormed(b) && b.updatedAt <= clock + 1
      modifies this
      ensures Valid()
      ensures outcome == Sent(200, OneBug(b))
      ensures records == old(records)[b.id := b] && nextId == old(nextId) && clock == old(clock) + 1
    {
      ReplaceKeepsStoreOk(records, nextId, clock, b);
      records := records[b.id := b];
      clock := clock + 1;
      outcome := Sent(200, OneBug(b));
    }

    /** `deleteBug`: 404 on an unknown id, otherwise the record is removed and 200 `{ message: 'Bug removed' }`. */
    method DeleteBug(id: Id) returns (outcome: Outcome)
      requires Valid()
      modifies this
      ensures Valid()
      ensures id !in old(records) ==> outcome == Thrown(404, NotFoundMessage) && unchanged(this)
      ensures id in old(records) ==>
        && outcome == Sent(200, Note(RemovedMessage))
        && records == old(records) - {id}
        && nextId == old(nextId) && clock == old(clock)
    {
      if id !in records {
        outcome := Thrown(404, NotFoundMessage);
        return;
      }
      RemoveKeepsStoreOk(records, nextId, clock, id);
      records := records - {id};
      outcome := Sent(200, Note(RemovedMessage));
    }
  }
}
