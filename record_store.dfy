/** The `records` object store of data-manager.js and the four operations
    that work on it as a whole: viewing past data, backup, restore and
    clearing everything. The store is an auto-increment key generator over
    a map from key to record; a cursor scan visits the keys in ascending
    order. Dialogs are boolean inputs, the file picker and JSON parsing
    are folded into `BackupFile`, and a failing transaction is an input
    saying that it aborted. */
module RecordStore {
  import opened Common
  import opened Records
  import DataView

  // ---------------------------------------------------------------------
  // Listing the store in key order

  /** The entries with a key below `n`, in ascending key order: what a
      cursor visits. */
  function Listing(m: map<nat, Delivery>, n: nat): seq<Stored> {
    if n == 0 then []
    else Listing(m, n - 1) + (if n - 1 in m then [Stored(n - 1, m[n - 1])] else [])
  }

  /** A listing is strictly ascending in its keys and holds exactly the
      entries of the map below `n`. */
  lemma {:induction false} ListingSound(m: map<nat, Delivery>, n: nat)
    ensures forall i, j :: 0 <= i < j < |Listing(m, n)| ==> Listing(m, n)[i].id < Listing(m, n)[j].id
    ensures forall s :: s in Listing(m, n) <==> s.id < n && s.id in m && m[s.id] == s.rec
  {
    if n > 0 {
      ListingSound(m, n - 1);
    }
  }

  function KeysBelow(m: map<nat, Delivery>, n: nat): set<nat> {
    set k | k in m && k < n
  }

  /** One entry per key below `n`. */
  lemma {:induction false} ListingLength(m: map<nat, Delivery>, n: nat)
    ensures |Listing(m, n)| == |KeysBelow(m, n)|
  {
    if n > 0 {
      ListingLength(m, n - 1);
      if n - 1 in m {
        assert KeysBelow(m, n) == KeysBelow(m, n - 1) + {n - 1};
      } else {
        assert KeysBelow(m, n) == KeysBelow(m, n - 1);
      }
    }
  }

  /** Keys `base`, `base + 1`, ... given to `rs` in order: what adding the
      records one by one to the key generator produces. */
  function Fill(base: nat, rs: seq<Delivery>): map<nat, Delivery> {
    if rs == [] then map[]
    else Fill(base, rs[..|rs| - 1])[base + |rs| - 1 := rs[|rs| - 1]]
  }

  /** The keys given are exactly `base` to `base + |rs| - 1`, and each
      holds the record at its offset. */
  lemma {:induction false} FillEntries(base: nat, rs: seq<Delivery>)
    ensures forall k :: k in Fill(base, rs) <==> base <= k < base + |rs|
    ensures forall k :: k in Fill(base, rs) ==> Fill(base, rs)[k] == rs[k - base]
  {
    if rs != [] {
      FillEntries(base, rs[..|rs| - 1]);
    }
  }

  lemma FillSnoc(base: nat, rs: seq<Delivery>, r: Delivery)
    ensures Fill(base, rs + [r]) == Fill(base, rs)[base + |rs| := r]
  {
    assert (rs + [r])[..|rs|] == rs;
  }

  /** Scanning freshly numbered records gives them back in their order. */
  lemma {:induction false} FillListing(base: nat, rs: seq<Delivery>, j: nat)
    requires j <= |rs|
    ensures Values(Listing(Fill(base, rs), base + j)) == rs[..j]
  {
    FillEntries(base, rs);
    if j == 0 {
      NothingBelow(Fill(base, rs), base);
    } else {
      FillListing(base, rs, j - 1);
      assert Listing(Fill(base, rs), base + j)
          == Listing(Fill(base, rs), base + j - 1) + [Stored(base + j - 1, rs[j - 1])];
      assert rs[..j] == rs[..j - 1] + [rs[j - 1]];
    }
  }

  lemma {:induction false} NothingBelow(m: map<nat, Delivery>, n: nat)
    requires forall k :: k in m ==> k >= n
    ensures Listing(m, n) == []
  {
    if n > 0 {
      NothingBelow(m, n - 1);
    }
  }

  // ---------------------------------------------------------------------
  // Backup files

  /** One element of a backup array: a record and whatever `id` it had. */
  datatype BackupItem = BackupItem(id: Option<int>, rec: Delivery)

  /** What `restoreData` gets from the file picker: no file, a file that
      cannot be read or parsed, parsed JSON that is not an array, or an
      array of records. */
  datatype BackupFile = NoFile | Unreadable | NotArray | Array(items: seq<BackupItem>)

  /** The backup of a listing keeps each record's key as its `id`. */
  function BackupOf(l: seq<Stored>): seq<BackupItem> {
    seq(|l|, i requires 0 <= i < |l| => BackupItem(Some(l[i].id), l[i].rec))
  }

  /** `delete record.id` on every element. */
  function StripIds(items: seq<BackupItem>): seq<Delivery> {
    seq(|items|, i requires 0 <= i < |items| => items[i].rec)
  }

  /** Backing up a store and restoring the file into a key generator at
      any position gives back the same records in the same order, only
      renumbered. */
  lemma BackupRestoreRoundTrip(m: map<nat, Delivery>, n: nat, base: nat)
    ensures var backup := BackupOf(Listing(m, n));
            Values(Listing(Fill(base, StripIds(backup)), base + |backup|)) == Values(Listing(m, n))
  {
    var l := Listing(m, n);
    var backup := BackupOf(l);
    assert StripIds(backup) == Values(l);
    FillListing(base, StripIds(backup), |backup|);
    assert StripIds(backup)[..|backup|] == StripIds(backup);
  }

  // ---------------------------------------------------------------------
  // Outcomes of the four operations

  datatype ViewOutcome = ViewNotInitialised | NothingToView | Shown(view: DataView.View)

  datatype BackupOutcome = BackupNotInitialised | NothingToBackUp | BackedUp(items: seq<BackupItem>)

  /** `ClearStalled`: the clearing transaction aborted; it has no error
      handler, so nothing follows and nothing is reported. */
  datatype RestoreOutcome =
    | NoFileChosen | ReadFailed | BadFormat | RestoreDeclined
    | ClearStalled | RestoreFailed | Restored(count: nat)

  datatype ClearOutcome = ClearNotInitialised | ClearCancelled | ClearFailed | Cleared

  // ---------------------------------------------------------------------
  // The store

  class Store {
    /** The stored records by key. */
    var records: map<nat, Delivery>
    /** The key generator's current number: the key the next `add` gets. */
    var nextId: nat

    ghost predicate Valid()
      reads this
    {
      0 < nextId && forall k :: k in records ==> 0 < k < nextId
    }

    /** A new, empty store; the generator starts at 1. */
    constructor ()
      ensures Valid() && records == map[] && nextId == 1
    {
      records, nextId := map[], 1;
    }

    /** A cursor over the whole store, pushing each value in turn. */
    method Scan() returns (all: seq<Stored>)
      requires Valid()
      ensures all == Listing(records, nextId)
      ensures |all| == |records|
      ensures forall i, j :: 0 <= i < j < |all| ==> all[i].id < all[j].id
      ensures forall s :: s in all <==> s.id in records && records[s.id] == s.rec
    {
      all := [];
      var k := 0;
      while k < nextId
        invariant 0 <= k <= nextId
        invariant all == Listing(records, k)
      {
        if k in records {
          all := all + [Stored(k, records[k])];
        }
        k := k + 1;
      }
      ListingSound(records, nextId);
      ListingLength(records, nextId);
      assert KeysBelow(records, nextId) == records.Keys;
    }

    /** `store.clear()` in a transaction of its own. The key generator is
        not reset. */
    method Clear()
      requires Valid()
      modifies this
      ensures Valid() && records == map[] && nextId == old(nextId)
    {
      records := map[];
    }

    /** `store.add(record)` for a record without `id`: the generator's
        number becomes its key. */
    method Add(r: Delivery) returns (id: nat)
      requires Valid()
      modifies this
      ensures Valid()
      ensures id == old(nextId) && id !in old(records)
      ensures records == old(records)[id := r] && nextId == old(nextId) + 1
    {
      id := nextId;
      records := records[id := r];
      nextId := nextId + 1;
    }

    /** `data.forEach(record => { delete record.id; store.add(record); })`
        in one transaction that commits. */
    method AddAll(items: seq<BackupItem>)
      requires Valid()
      modifies this
      ensures Valid()
      ensures records == old(records) + Fill(old(nextId), StripIds(items))
      ensures nextId == old(nextId) + |items|
    {
      var i := 0;
      while i < |items|
        invariant 0 <= i <= |items|
        invariant Valid()
        invariant records == old(records) + Fill(old(nextId), StripIds(items[..i]))
        invariant nextId == old(nextId) + i
      {
        var rec := items[i].rec;
        var _ := Add(rec);
        assert StripIds(items[..i + 1]) == StripIds(items[..i]) + [rec];
        FillSnoc(old(nextId), StripIds(items[..i]), rec);
        i := i + 1;
      }
      assert items[..i] == items;
    }

    /** `viewPastData()`: scans the store and opens the view unless it is
        empty. `dbReady` says whether the database has been opened;
        `dayOf` is the date parsing the view sorts with. */
    method ViewPastData(dbReady: bool, dayOf: string -> int) returns (out: ViewOutcome)
      requires Valid()
      ensures !dbReady ==> out == ViewNotInitialised
      ensures dbReady && records == map[] ==> out == NothingToView
      ensures dbReady && records != map[] ==>
                out.Shown? && DataView.ViewOf(out.view, Values(Listing(records, nextId)), dayOf)
    {
      if !dbReady {
        return ViewNotInitialised;
      }
      var all := Scan();
      if |all| == 0 {
        return NothingToView;
      }
      var view := DataView.ShowDataViewModal(Values(all), dayOf);
      out := Shown(view);
    }

    /** `backupData()`: scans the store and hands out the array that is
        written to the backup file, ids included, unless it is empty. */
    method BackupData(dbReady: bool) returns (out: BackupOutcome)
      requires Valid()
      ensures !dbReady ==> out == BackupNotInitialised
      ensures dbReady && records == map[] ==> out == NothingToBackUp
      ensures dbReady && records != map[] ==>
                out == BackedUp(BackupOf(Listing(records, nextId))) && |out.items| == |records|
    {
      if !dbReady {
        return BackupNotInitialised;
      }
      var all := Scan();
      if |all| == 0 {
        return NothingToBackUp;
      }
      out := BackedUp(BackupOf(all));
    }

    /** `restoreData()`: after the checks and the confirmation, the store
        is cleared in one transaction and refilled in a second one that
        starts when the first completes. If the second transaction aborts,
        only its own adds are rolled back: the store stays empty. A missing database makes `db.transaction`
        throw inside the `try`, which reports a read failure. */
    method RestoreData(file: BackupFile, confirmed: bool, dbReady: bool, clearAborts: bool, addsAbort: bool)
      returns (out: RestoreOutcome)
      requires Valid()
      modifies this
      ensures Valid()
      ensures file.NoFile? ==> out == NoFileChosen
      ensures file.Unreadable? ==> out == ReadFailed
      ensures file.NotArray? || file == Array([]) ==> out == BadFormat
      ensures file.Array? && file.items != [] && !confirmed ==> out == RestoreDeclined
      ensures file.Array? && file.items != [] && confirmed && !dbReady ==> out == ReadFailed
      ensures file.Array? && file.items != [] && confirmed && dbReady && clearAborts ==> out == ClearStalled
      ensures file.Array? && file.items != [] && confirmed && dbReady && !clearAborts && addsAbort ==>
                out == RestoreFailed && records == map[] && nextId == old(nextId)
      ensures file.Array? && file.items != [] && confirmed && dbReady && !clearAborts && !addsAbort ==>
                && out == Restored(|file.items|)
                && records == Fill(old(nextId), StripIds(file.items))
                && nextId == old(nextId) + |file.items|
                && Values(Listing(records, nextId)) == StripIds(file.items)
      ensures !out.Restored? && !out.RestoreFailed? ==> records == old(records) && nextId == old(nextId)
    {
      if file.NoFile? {
        return NoFileChosen;
      }
      if file.Unreadable? {
        return ReadFailed;
      }
      if file.NotArray? || |file.items| == 0 {
        return BadFormat;
      }
      if !confirmed {
        return RestoreDeclined;
      }
      if !dbReady {
        return ReadFailed;
      }
      if clearAborts {
        return ClearStalled;
      }
      Clear();
      if addsAbort {
        return RestoreFailed;
      }
      AddAll(file.items);
      FillListing(old(nextId), StripIds(file.items), |file.items|);
      assert StripIds(file.items)[..|file.items|] == StripIds(file.items);
      out := Restored(|file.items|);
    }

    /** `clearAllData()`: clears the store only after both confirmations. */
    method ClearAllData(dbReady: bool, confirm1: bool, confirm2: bool, clearAborts: bool) returns (out: ClearOutcome)
      requires Valid()
      modifies this
      ensures Valid() && nextId == old(nextId)
      ensures !dbReady ==> out == ClearNotInitialised
      ensures dbReady && !(confirm1 && confirm2) ==> out == ClearCancelled
      ensures dbReady && confirm1 && confirm2 ==> out == (if clearAborts then ClearFailed else Cleared)
      ensures records == (if out == Cleared then map[] else old(records))
    {
      if !dbReady {
        return ClearNotInitialised;
      }
      if !confirm1 {
        return ClearCancelled;
      }
      if !confirm2 {
        return ClearCancelled;
      }
      if clearAborts {
        return ClearFailed;
      }
      Clear();
      out := Cleared;
    }
  }
}
