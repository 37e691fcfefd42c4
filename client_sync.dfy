/**
 * The client's list kept in step with the server's collection: when the
 * client holds exactly what `getBugs` would send, applying the reducer to a
 * handler's successful reply gives exactly what `getBugs` would send after
 * that handler.  This ties `bugReducer` to the handlers in
 * server/controllers/bugController.js.
 */
module ClientSync {
  import opened BugModel
  import opened BugController
  import opened BugContext

  /**
   * The client starts in step with a new server: `initialState` holds the
   * listing of the empty collection a new store starts with.
   */
  lemma StartsInSync()
    ensures InitialState.bugs == Listing(map[], 0)
    ensures !InitialState.loading && InitialState.error.None?
  {
  }

  /** Two collections that hold the same records below `n` list the same. */
  lemma {:induction false} ListingAgrees(m1: map<Id, Bug>, m2: map<Id, Bug>, n: nat)
    requires Keyed(m1) && Keyed(m2)
    requires forall k :: k < n ==> (k in m1 <==> k in m2)
    requires forall k :: k < n && k in m1 ==> m1[k] == m2[k]
    ensures Listing(m1, n) == Listing(m2, n)
  {
    if n > 0 {
      ListingAgrees(m1, m2, n - 1);
    }
  }

  /** Inserting under the next fresh id lists the new record last. */
  lemma InsertListsLast(m: map<Id, Bug>, n: nat, b: Bug)
    requires Keyed(m) && b.id == n
    ensures Keyed(m[n := b])
    ensures Listing(m[n := b], n + 1) == Listing(m, n) + [b]
  {
    ListingAgrees(m, m[n := b], n);
  }

  /** Replacing a stored record is replacing it, in place, in the listing. */
  lemma {:induction false} ReplaceInListing(m: map<Id, Bug>, n: nat, p: Bug)
    requires Keyed(m) && p.id in m
    ensures Keyed(m[p.id := p])
    ensures ReplaceById(Listing(m, n), p) == Listing(m[p.id := p], n)
  {
    if n > 0 {
      var m2 := m[p.id := p];
      calc {
        ReplaceById(Listing(m, n), p);
        { ListingStep(m, n); }
        ReplaceById(Listing(m, n - 1) + Entry(m, n - 1), p);
        { ReplaceSplits(Listing(m, n - 1), Entry(m, n - 1), p); }
        ReplaceById(Listing(m, n - 1), p) + ReplaceById(Entry(m, n - 1), p);
        { ReplaceInListing(m, n - 1, p); }
        Listing(m2, n - 1) + ReplaceById(Entry(m, n - 1), p);
        { ReplaceEntry(m, n - 1, p); }
        Listing(m2, n - 1) + Entry(m2, n - 1);
        { ListingStep(m2, n); }
        Listing(m2, n);
      }
    }
  }

  /** The listing's entry for id `k`: the record stored there, if any. */
  function Entry(m: map<Id, Bug>, k: Id): seq<Bug>
  {
    if k in m then [m[k]] else []
  }

  /** The listing up to `n` is the listing up to `n - 1` followed by the entry for `n - 1`. */
  lemma ListingStep(m: map<Id, Bug>, n: nat)
    requires n > 0
    ensures Listing(m, n) == Listing(m, n - 1) + Entry(m, n - 1)
  {
  }

  lemma ReplaceEntry(m: map<Id, Bug>, k: Id, p: Bug)
    requires Keyed(m) && p.id in m
    ensures ReplaceById(Entry(m, k), p) == Entry(m[p.id := p], k)
  {
  }

  lemma {:induction false} ReplaceSplits(a: seq<Bug>, b: seq<Bug>, p: Bug)
    ensures ReplaceById(a + b, p) == ReplaceById(a, p) + ReplaceById(b, p)
  {
    if a == [] {
      assert a + b == b;
    } else {
      assert (a + b)[0] == a[0] && (a + b)[1..] == a[1..] + b;
      ReplaceSplits(a[1..], b, p);
    }
  }

  /** Removing a stored record is filtering its id out of the listing. */
  lemma {:induction false} RemoveFromListing(m: map<Id, Bug>, n: nat, id: Id)
    requires Keyed(m)
    ensures Keyed(m - {id})
    ensures RemoveById(Listing(m, n), id) == Listing(m - {id}, n)
  {
    if n > 0 {
      var m2 := m - {id};
      calc {
        RemoveById(Listing(m, n), id);
        { ListingStep(m, n); }
        RemoveById(Listing(m, n - 1) + Entry(m, n - 1), id);
        { RemoveKeepsOrder(Listing(m, n - 1), Entry(m, n - 1), id); }
        RemoveById(Listing(m, n - 1), id) + RemoveById(Entry(m, n - 1), id);
        { RemoveFromListing(m, n - 1, id); }
        Listing(m2, n - 1) + RemoveById(Entry(m, n - 1), id);
        { RemoveEntry(m, n - 1, id); }
        Listing(m2, n - 1) + Entry(m2, n - 1);
        { ListingStep(m2, n); }
        Listing(m2, n);
      }
    }
  }

  lemma RemoveEntry(m: map<Id, Bug>, k: Id, id: Id)
    requires Keyed(m)
    ensures RemoveById(Entry(m, k), id) == Entry(m - {id}, k)
  {
  }
}
