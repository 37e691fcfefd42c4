/**
 * The client's bug-list state and its reducer
 * (client/debug/src/context/BugContext.jsx, `initialState` and `bugReducer`).
 * The bugs the client holds are the records the server sent, so they reuse
 * the server's `Bug` record; `_id` is its `id`.
 */
module BugContext {
  import opened Wrappers
  import opened BugModel

  /** `{ bugs, loading, error }`; a `null` error is `None`. */
  datatype State = State(bugs: seq<Bug>, loading: bool, error: Option<string>)

  const InitialState := State([], false, None)

  /** The four operations, each with a `_REQUEST`, `_SUCCESS` and `_FAILURE` action. */
  datatype Kind = FetchBugs | CreateBug | UpdateBug | DeleteBug

  /**
   * The dispatched actions with their payloads; `UnknownAction` stands for
   * any other `type`.
   */
  datatype Action =
    | Request(kind: Kind)
    | FetchBugsSuccess(bugs: seq<Bug>)
    | CreateBugSuccess(bug: Bug)
    | UpdateBugSuccess(bug: Bug)
    | DeleteBugSuccess(id: Id)
    | Failure(kind: Kind, message: string)
    | UnknownAction

  /** `bugs.map(bug => bug._id === payload._id ? payload : bug)`. */
  function ReplaceById(bugs: seq<Bug>, payload: Bug): (r: seq<Bug>)
    ensures |r| == |bugs|
    ensures forall i :: 0 <= i < |bugs| && bugs[i].id == payload.id ==> r[i] == payload
    ensures forall i :: 0 <= i < |bugs| && bugs[i].id != payload.id ==> r[i] == bugs[i]
  {
    if bugs == [] then []
    else [if bugs[0].id == payload.id then payload else bugs[0]] + ReplaceById(bugs[1..], payload)
  }

  /** `bugs.filter(bug => bug._id !== id)`. */
  function RemoveById(bugs: seq<Bug>, id: Id): (r: seq<Bug>)
    ensures |r| <= |bugs|
  {
    if bugs == [] then []
    else (if bugs[0].id == id then [] else [bugs[0]]) + RemoveById(bugs[1..], id)
  }

  /** The survivors of a deletion are exactly the entries with another id. */
  lemma {:induction false} RemoveByIdKeeps(bugs: seq<Bug>, id: Id)
    ensures forall b :: b in RemoveById(bugs, id) <==> b in bugs && b.id != id
  {
    if bugs != [] {
      RemoveByIdKeeps(bugs[1..], id);
      assert bugs == [bugs[0]] + bugs[1..];
    }
  }

  /**
   * `bugReducer(state, action)`: any known action leaves the state loading
   * exactly on a request and with an error exactly on a failure; only the
   * success actions touch the list.
   */
  function BugReducer(state: State, action: Action): (r: State)
    ensures action != UnknownAction ==> (r.loading <==> action.Request?)
    ensures action != UnknownAction ==> (r.error.Some? <==> action.Failure?)
    ensures action.Failure? ==> r.error == Some(action.message)
    ensures action.Request? || action.Failure? || action == UnknownAction ==> r.bugs == state.bugs
  {
    match action
    case Request(_) => state.(loading := true, error := None)
    case FetchBugsSuccess(bugs) => state.(loading := false, bugs := bugs, error := None)
    case CreateBugSuccess(bug) => state.(loading := false, bugs := state.bugs + [bug], error := None)
    case UpdateBugSuccess(bug) => state.(loading := false, bugs := ReplaceById(state.bugs, bug), error := None)
    case DeleteBugSuccess(id) => state.(loading := false, bugs := RemoveById(state.bugs, id), error := None)
    case Failure(_, message) => state.(loading := false, error := Some(message))
    case UnknownAction => state
  }

  /** Every request starts loading, clears the error and keeps the list. */
  lemma RequestStartsLoading(state: State, kind: Kind)
    ensures var r := BugReducer(state, Request(kind));
      r.loading && r.error.None? && r.bugs == state.bugs
  {
  }

  /** A fetched list replaces the old one outright. */
  lemma FetchReplacesList(state: State, bugs: seq<Bug>)
    ensures BugReducer(state, FetchBugsSuccess(bugs)) == State(bugs, false, None)
  {
  }

  /** A created bug is appended: one longer, the old list as prefix, the payload last. */
  lemma CreateAppends(state: State, bug: Bug)
    ensures var r := BugReducer(state, CreateBugSuccess(bug));
      && |r.bugs| == |state.bugs| + 1
      && r.bugs[..|state.bugs|] == state.bugs
      && r.bugs[|state.bugs|] == bug
      && !r.loading && r.error.None?
  {
  }

  /** An updated bug replaces, in place, every entry with its id; the others and the order are kept. */
  lemma UpdateReplacesInPlace(state: State, bug: Bug)
    ensures var r := BugReducer(state, UpdateBugSuccess(bug));
      && |r.bugs| == |state.bugs|
      && (forall i :: 0 <= i < |r.bugs| ==>
            r.bugs[i] == if state.bugs[i].id == bug.id then bug else state.bugs[i])
      && !r.loading && r.error.None?
  {
  }

  /** A deletion drops exactly the entries with that id. */
  lemma DeleteFilters(state: State, id: Id)
    ensures var r := BugReducer(state, DeleteBugSuccess(id));
      && (forall b :: b in r.bugs <==> b in state.bugs && b.id != id)
      && !r.loading && r.error.None?
  {
    RemoveByIdKeeps(state.bugs, id);
  }

  /** Filtering works piecewise, so the survivors keep their relative order. */
  lemma {:induction false} RemoveKeepsOrder(a: seq<Bug>, b: seq<Bug>, id: Id)
    ensures RemoveById(a + b, id) == RemoveById(a, id) + RemoveById(b, id)
  {
    if a == [] {
      assert a + b == b;
    } else {
      assert (a + b)[0] == a[0] && (a + b)[1..] == a[1..] + b;
      RemoveKeepsOrder(a[1..], b, id);
    }
  }

  /** Deleting an id no entry carries leaves the list as it was. */
  lemma {:induction false} RemoveAbsentId(bugs: seq<Bug>, id: Id)
    requires forall i :: 0 <= i < |bugs| ==> bugs[i].id != id
    ensures RemoveById(bugs, id) == bugs
  {
    if bugs != [] {
      RemoveAbsentId(bugs[1..], id);
    }
  }

  /** A failure stops loading, records the message and keeps the list. */
  lemma FailureRecordsError(state: State, kind: Kind, message: string)
    ensures var r := BugReducer(state, Failure(kind, message));
      !r.loading && r.error == Some(message) && r.bugs == state.bugs
  {
  }

  /** Any other action type leaves the state as it was. */
  lemma UnknownActionIgnored(state: State)
    ensures BugReducer(state, UnknownAction) == state
  {
  }
}
