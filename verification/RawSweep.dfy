/** The exhaustive sweep of one reconciler run: first a page of the active index, then a page
    of the raw archive, each with its own cursor, and the counters of the run. What a single
    archive comes to, and which calls fail, is up to the environment. */
module RawSweep {
  import opened Wrappers
  import R = InboundReconciler

  type Outcome = R.Outcome

  datatype Disposition = Completed | Retained | Ledgered | Unledgered

  type Key = int

  /** A listed page; `cursor` is where the listing goes on if it is truncated. */
  datatype Page = Page(objects: seq<Key>, truncated: bool, cursor: Option<int>)

  /** What happened to the archives of one run, in order. */
  datatype Entry = Entry(key: Key, disposition: Disposition)

  datatype Status = Succeeded | Partial | Failed

  function DispositionOf(outcome: Outcome): Disposition {
    if R.Completes(outcome) then Completed else Retained
  }

  /** The cursor that a fully handled page leaves behind; the sweep starts over at the end. */
  function NextCursor(page: Page): Option<int> { if page.truncated then page.cursor else None }

  /** Nothing on the page was left without an outcome or a ledger entry by this run. */
  predicate Handled(k: Key, log: seq<Entry>) {
    exists i :: 0 <= i < |log| && log[i].key == k && !log[i].disposition.Unledgered?
  }

  predicate LeftOver(k: Key, log: seq<Entry>) {
    exists i :: 0 <= i < |log| && log[i].key == k && log[i].disposition.Unledgered?
  }

  predicate NoneLeft(log: seq<Entry>) { forall i :: 0 <= i < |log| ==> !log[i].disposition.Unledgered? }

  lemma NoneLeftGrows(log: seq<Entry>, entry: Entry)
    ensures NoneLeft(log + [entry]) <==> NoneLeft(log) && !entry.disposition.Unledgered?
  {
    assert (log + [entry])[|log|] == entry;
    assert forall i :: 0 <= i < |log| ==> (log + [entry])[i] == log[i];
  }

  class Counters {
    var scanned: nat
    var reenqueued: nat
    var skipped: nat
    var invalid: nat
    var projectionMissing: nat
    var pendingReview: nat
    var terminalized: nat
    var failed: nat
    var failureLedgered: nat

    function Count(outcome: Outcome): nat
      reads this
    {
      match outcome
      case Reenqueued => reenqueued
      case Skipped => skipped
      case Invalid => invalid
      case ProjectionMissing => projectionMissing
      case PendingReview => pendingReview
      case Terminalized => terminalized
    }

    /** Every scanned archive is counted exactly once. */
    predicate Conserves()
      reads this
    {
      && scanned == Count(R.Reenqueued) + Count(R.Skipped) + Count(R.Invalid) + Count(R.ProjectionMissing)
                    + Count(R.PendingReview) + Count(R.Terminalized) + failed
      && failureLedgered <= failed
    }

    constructor ()
      ensures Conserves() && scanned == 0
    {
      scanned, failed, failureLedgered := 0, 0, 0;
      reenqueued, skipped, invalid, projectionMissing, pendingReview, terminalized := 0, 0, 0, 0, 0, 0;
    }

    method Add(outcome: Outcome)
      modifies this
      ensures forall o :: Count(o) == old(Count(o)) + if o == outcome then 1 else 0
      ensures scanned == old(scanned) && failed == old(failed) && failureLedgered == old(failureLedgered)
    {
      match outcome {
        case Reenqueued => reenqueued := reenqueued + 1;
        case Skipped => skipped := skipped + 1;
        case Invalid => invalid := invalid + 1;
        case ProjectionMissing => projectionMissing := projectionMissing + 1;
        case PendingReview => pendingReview := pendingReview + 1;
        case Terminalized => terminalized := terminalized + 1;
      }
    }
  }

  class Sweep {
    var rawCursor: Option<int>
    var activeCursor: Option<int>

    constructor ()
      ensures rawCursor.None? && activeCursor.None?
    {
      rawCursor, activeCursor := None, None;
    }

    /** One archive: an outcome, or a failure that is entered in the ledger if that works. */
    method ReconcileOneArchive(rawKey: Key, result: Counters)
        returns (disposition: Disposition, ghost outcome: Option<Outcome>)
      requires result.Conserves()
      modifies result
      ensures result.Conserves() && result.scanned == old(result.scanned) + 1
      ensures forall o :: result.Count(o) == old(result.Count(o)) + if outcome == Some(o) then 1 else 0
      ensures result.failed == old(result.failed) + if outcome.None? then 1 else 0
      ensures result.failureLedgered == old(result.failureLedgered) + if disposition.Ledgered? then 1 else 0
      ensures if outcome.Some? then disposition == DispositionOf(outcome.value)
              else disposition.Ledgered? || disposition.Unledgered?
    {
      result.scanned := result.scanned + 1;
      var came: Outcome := *;
      var throws, ledgerWritten: bool := *, *;
      if !throws {
        result.Add(came);
        return DispositionOf(came), Some(came);
      }
      result.failed := result.failed + 1;
      if !ledgerWritten { return Unledgered, None; }
      result.failureLedgered := result.failureLedgered + 1;
      return Ledgered, None;
    }

    /** Reconciles the keys of a page, except those of `skip`. */
    method ReconcilePage(keys: seq<Key>, skip: set<Key>, result: Counters)
        returns (complete: bool, ghost log: seq<Entry>)
      requires result.Conserves()
      modifies result
      ensures result.Conserves()
      ensures forall k :: k in keys && k !in skip ==> Handled(k, log) || LeftOver(k, log)
      ensures forall i :: 0 <= i < |log| ==> log[i].key in keys && log[i].key !in skip
      ensures complete <==> NoneLeft(log)
      ensures result.scanned == old(result.scanned) + |log|
    {
      complete, log := true, [];
      for i := 0 to |keys|
        invariant result.Conserves() && result.scanned == old(result.scanned) + |log|
        invariant forall j :: 0 <= j < i && keys[j] !in skip ==> Handled(keys[j], log) || LeftOver(keys[j], log)
        invariant forall j :: 0 <= j < |log| ==> log[j].key in keys && log[j].key !in skip
        invariant complete <==> NoneLeft(log)
      {
        if keys[i] in skip { continue; }
        var disposition, outcome := ReconcileOneArchive(keys[i], result);
        if disposition.Unledgered? { complete := false; }
        LogGrows(keys, i, skip, log, Entry(keys[i], disposition));
        NoneLeftGrows(log, Entry(keys[i], disposition));
        log := log + [Entry(keys[i], disposition)];
      }
    }

    /** The page of the active index. It is caught when it fails, so whatever happens here the
        raw page is still looked at; `activeKeys` are the keys this page took on. */
    method SweepActive(result: Counters) returns (activeKeys: set<Key>, degraded: bool, ghost log: seq<Entry>)
      requires result.Conserves()
      modifies this`activeCursor, result
      ensures result.Conserves()
      ensures forall k :: k in activeKeys ==> Handled(k, log) || LeftOver(k, log)
      ensures (exists k :: k in activeKeys && LeftOver(k, log)) ==> activeCursor == old(activeCursor) && degraded
      ensures result.scanned == old(result.scanned) + |log|
    {
      var readFails, listFails: bool := *, *;
      if readFails || listFails { return {}, true, []; }
      var page: Page := *;
      var complete;
      complete, log := ReconcilePage(page.objects, {}, result);
      activeKeys := set k | k in page.objects;
      if page.truncated && page.cursor.None? { return activeKeys, true, log; }
      if !complete { return activeKeys, true, log; }
      var lost, reportedFailed: bool := *, *;
      if lost { return activeKeys, true, log; }
      activeCursor := NextCursor(page);
      return activeKeys, reportedFailed, log;
    }

    /** One run. `activeLog` and `rawLog` tell what became of the archives of the two pages. */
    method ReconcileInboundArchives(result: Counters)
        returns (status: Status, ghost page: Option<Page>, ghost activeKeys: set<Key>,
                 ghost activeLog: seq<Entry>, ghost rawLog: seq<Entry>)
      requires result.Conserves() && result.scanned == 0
      modifies this, result
      ensures result.Conserves() && result.scanned == |activeLog| + |rawLog|
      ensures rawCursor != old(rawCursor) ==>
                && page.Some? && rawCursor == NextCursor(page.value)
                && (page.value.truncated ==> page.value.cursor.Some?)
                && forall k :: k in page.value.objects ==>
                     Handled(k, rawLog) || (k in activeKeys && (Handled(k, activeLog) || LeftOver(k, activeLog)))
      ensures (exists k :: k in activeKeys && LeftOver(k, activeLog)) ==> activeCursor == old(activeCursor)
      ensures status.Succeeded? ==>
                && result.failed == 0
                && page.Some? && forall k :: k in page.value.objects ==> Handled(k, rawLog) || Handled(k, activeLog)
    {
      var degraded, active;
      active, degraded, activeLog := SweepActive(result);
      activeKeys, page, rawLog := active, None, [];
      var readFails, listFails: bool := *, *;
      if readFails || listFails { return Failed, page, activeKeys, activeLog, rawLog; }
      var listed: Page := *;
      page := Some(listed);
      var complete;
      complete, rawLog := ReconcilePage(listed.objects, active, result);
      if listed.truncated && listed.cursor.None? { return Failed, page, activeKeys, activeLog, rawLog; }
      if !complete { return Partial, page, activeKeys, activeLog, rawLog; }
      var lost, reportedFailed: bool := *, *;
      if lost { return Partial, page, activeKeys, activeLog, rawLog; }
      rawCursor := NextCursor(listed);
      if reportedFailed { return Failed, page, activeKeys, activeLog, rawLog; }
      status := if degraded || result.failed > 0 then Partial else Succeeded;
    }
  }

  lemma LogGrows(keys: seq<Key>, i: nat, skip: set<Key>, log: seq<Entry>, entry: Entry)
    requires i < |keys| && entry.key == keys[i]
    requires forall j :: 0 <= j < i && keys[j] !in skip ==> Handled(keys[j], log) || LeftOver(keys[j], log)
    ensures forall j :: 0 <= j <= i && keys[j] !in skip ==>
              Handled(keys[j], log + [entry]) || LeftOver(keys[j], log + [entry])
  {
    var more := log + [entry];
    assert more[|log|] == entry;
    forall j | 0 <= j < i && keys[j] !in skip ensures Handled(keys[j], more) || LeftOver(keys[j], more) {
      var m :| 0 <= m < |log| && log[m].key == keys[j];
      assert more[m] == log[m];
    }
  }
}
