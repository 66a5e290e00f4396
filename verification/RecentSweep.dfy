/** The recent-minute sweep: two lanes walk over closed minutes of the raw archive and give
    every archived message an active marker. Times are whole UTC minutes. Between any two
    binding calls time may pass, new archives may land (also in minutes already closed), and
    other programs may write markers. */
module RecentSweep {
  import opened Wrappers

  const RAW_BATCH_SIZE := 64
  const MAX_LIST_CALLS := 64
  const INITIAL_LOOKBACK := 60
  /** 2026-07-16T00:00Z */
  const BACKSTOP_INTRODUCTION := 29736000

  /** A key under the prefix of its minute; `name` is its place in the listing order. */
  datatype RawKey = RawKey(minute: int, name: nat, parseable: bool)

  datatype Lane = Priority | Backstop

  /** Where a lane will go on: in the listing of `minute`, past `cursor`. */
  datatype Position = Position(minute: int, cursor: Option<int>)

  /** How long a minute stays open to a lane. */
  function Delay(lane: Lane): int { if lane.Priority? then 1 else INITIAL_LOOKBACK + 1 }

  function InitialMinute(lane: Lane, current: int): int {
    if lane.Priority? then current - INITIAL_LOOKBACK
    else if BACKSTOP_INTRODUCTION <= current then BACKSTOP_INTRODUCTION else current
  }

  predicate NotBefore(p: Position, q: Position) {
    || p.minute < q.minute
    || (p.minute == q.minute && (p.cursor.None? || (q.cursor.Some? && p.cursor.value <= q.cursor.value)))
  }

  predicate Passed(k: RawKey, p: Position) {
    k.minute < p.minute || (k.minute == p.minute && p.cursor.Some? && k.name <= p.cursor.value)
  }

  /** What a lane has committed to: the first minute it was responsible for, and the keys
      that were there when its listing of a minute began. */
  datatype Ledger = Ledger(start: int, begun: map<int, set<RawKey>>)

  datatype Page = Page(objects: seq<RawKey>, truncated: bool, cursor: Option<int>)

  /** A page is the next stretch of the listing. */
  predicate IsPage(objects: seq<RawKey>, remaining: set<RawKey>) {
    && (forall i :: 0 <= i < |objects| ==> objects[i] in remaining)
    && (forall i, j :: 0 <= i < j < |objects| ==> objects[i].name < objects[j].name)
    && (objects != [] ==> forall k :: k in remaining && k.name <= objects[|objects| - 1].name ==> k in objects)
  }

  /** The archive as the sweep sees it: the clock, the raw objects with the minute each landed
      in, and the objects that have been given an active marker. */
  datatype Archive = Archive(now: int, landed: map<RawKey, int>, marked: set<RawKey>)

  function KeysOf(a: Archive, minute: int): set<RawKey> { set k | k in a.landed && k.minute == minute }

  predicate IsArchive(a: Archive) {
    && (forall k :: k in a.landed ==> a.landed[k] <= a.now)
    && (forall j, k :: j in a.landed && k in a.landed && j.minute == k.minute && j.name == k.name ==> j == k)
  }

  /** What the others, and the clock, may do. */
  predicate Grows(a: Archive, b: Archive) {
    && a.now <= b.now && a.marked <= b.marked
    && (forall k :: k in a.landed ==> k in b.landed && b.landed[k] == a.landed[k])
    && (forall k :: k in b.landed && k !in a.landed ==> b.landed[k] >= a.now)
  }

  /** Everything a lane has passed has been given a marker. */
  ghost predicate Covers(a: Archive, ledger: Ledger, p: Position, delay: int) {
    && ledger.start <= p.minute
    && (forall m :: ledger.start <= m < p.minute ==> m in ledger.begun)
    && (p.cursor.Some? ==> p.minute in ledger.begun)
    && (forall m :: m in ledger.begun ==> m + delay <= a.now)
    && (forall m, k :: m in ledger.begun && k in ledger.begun[m] ==> k in a.landed && k.minute == m)
    && (forall m, k :: m in ledger.begun && k in ledger.begun[m] && k.parseable && Passed(k, p) ==> k in a.marked)
    && (forall k :: k in a.landed && k.minute in ledger.begun && a.landed[k] < k.minute + delay ==>
          k in ledger.begun[k.minute])
  }

  lemma CoverageIsStable(a: Archive, b: Archive, ledger: Ledger, p: Position, delay: int)
    requires Covers(a, ledger, p, delay) && Grows(a, b)
    ensures Covers(b, ledger, p, delay)
  {
    forall k | k in b.landed && k.minute in ledger.begun && b.landed[k] < k.minute + delay
      ensures k in ledger.begun[k.minute]
    {
      assert k.minute + delay <= a.now;
      assert k in a.landed;
    }
  }

  lemma GrowthIsTransitive(a: Archive, b: Archive, c: Archive)
    requires Grows(a, b) && Grows(b, c)
    ensures Grows(a, c)
  {
  }

  /** A message that landed before its minute was closed to the lane, in a minute the lane is
      responsible for and has passed, has been given an active marker. */
  lemma PassedMeansMarked(a: Archive, ledger: Ledger, p: Position, delay: int, k: RawKey)
    requires Covers(a, ledger, p, delay)
    requires k in a.landed && k.parseable && ledger.start <= k.minute < p.minute && a.landed[k] < k.minute + delay
    ensures k in a.marked
  {
    assert k.minute in ledger.begun && Passed(k, p);
  }

  /** The listing of the lane's minute begins. */
  function Begin(a: Archive, ledger: Ledger, minute: int): Ledger {
    ledger.(begun := ledger.begun[minute := KeysOf(a, minute)])
  }

  lemma BeginningKeepsCoverage(a: Archive, ledger: Ledger, minute: int, delay: int)
    requires Covers(a, ledger, Position(minute, None), delay) && minute + delay <= a.now
    ensures Covers(a, Begin(a, ledger, minute), Position(minute, None), delay)
    ensures minute in Begin(a, ledger, minute).begun
  {
  }

  /** The keys past the cursor. */
  function Remaining(a: Archive, p: Position): set<RawKey> { set k | k in KeysOf(a, p.minute) && !Passed(k, p) }

  lemma PageKeepsCoverage(a: Archive, ledger: Ledger, p: Position, delay: int, page: Page, listed: Archive)
    requires Covers(a, ledger, p, delay) && p.minute in ledger.begun && Grows(listed, a)
    requires IsPage(page.objects, Remaining(listed, p)) && PageCursor(page, p, listed)
    requires forall k :: k in ledger.begun[p.minute] ==> k in listed.landed
    requires forall k :: k in page.objects && k.parseable ==> k in a.marked
    ensures page.truncated && page.cursor.Some? ==> Covers(a, ledger, Position(p.minute, page.cursor), delay)
    ensures !page.truncated && Remaining(listed, p) == Set(page.objects) ==>
              Covers(a, ledger, Position(p.minute + 1, None), delay)
  {
    if page.truncated && page.cursor.Some? {
      var q := Position(p.minute, page.cursor);
      forall m, k | m in ledger.begun && k in ledger.begun[m] && k.parseable && Passed(k, q) ensures k in a.marked {
        if !Passed(k, p) { assert k in Remaining(listed, p); }
      }
    }
    if !page.truncated && Remaining(listed, p) == Set(page.objects) {
      var q := Position(p.minute + 1, None);
      forall m, k | m in ledger.begun && k in ledger.begun[m] && k.parseable && Passed(k, q) ensures k in a.marked {
        if !Passed(k, p) { assert k in Remaining(listed, p); }
      }
    }
  }

  function Set(objects: seq<RawKey>): set<RawKey> { set k | k in objects }

  /** The continuation cursor stands after the last object of the page. */
  predicate PageCursor(page: Page, p: Position, listed: Archive) {
    page.cursor.Some? ==>
      if page.objects != [] then page.cursor.value == page.objects[|page.objects| - 1].name
      else if p.cursor.Some? then page.cursor == p.cursor
      else forall k :: k in Remaining(listed, p) ==> page.cursor.value < k.name
  }

  /** In one run a lane's cursor does not go back, and not beyond the first minute that is
      still open to the lane unless it was there before; a new lane starts at its initial minute. */
  ghost predicate Advanced(lane: Lane, current: int, stored: map<Lane, Position>, ledgers: map<Lane, Ledger>,
                           stored': map<Lane, Position>, ledgers': map<Lane, Ledger>)
  {
    && (lane in stored ==> lane in stored')
    && (lane in stored' && lane in ledgers' ==>
          && (lane in stored && lane in ledgers ==>
                NotBefore(stored[lane], stored'[lane]) && ledgers'[lane].start == ledgers[lane].start)
          && (lane !in stored ==> ledgers'[lane].start == InitialMinute(lane, current))
          && stored'[lane].minute
             <= Later(if lane in stored then stored[lane].minute else InitialMinute(lane, current),
                      current - Delay(lane) + 1))
  }

  ghost predicate SameLane(lane: Lane, stored: map<Lane, Position>, ledgers: map<Lane, Ledger>,
                           stored': map<Lane, Position>, ledgers': map<Lane, Ledger>)
  {
    && (lane in stored' <==> lane in stored) && (lane in ledgers' <==> lane in ledgers)
    && (lane in stored ==> stored'[lane] == stored[lane])
    && (lane in ledgers ==> ledgers'[lane] == ledgers[lane])
  }

  ghost predicate AllCovered(a: Archive, stored: map<Lane, Position>, ledgers: map<Lane, Ledger>) {
    && IsArchive(a) && ledgers.Keys == stored.Keys
    && forall lane :: lane in stored ==>
         stored[lane].minute <= a.now && Covers(a, ledgers[lane], stored[lane], Delay(lane))
  }

  lemma AllCoveredIsStable(a: Archive, b: Archive, stored: map<Lane, Position>, ledgers: map<Lane, Ledger>)
    requires AllCovered(a, stored, ledgers) && Grows(a, b) && IsArchive(b)
    ensures AllCovered(b, stored, ledgers)
  {
    forall lane | lane in stored ensures Covers(b, ledgers[lane], stored[lane], Delay(lane)) {
      CoverageIsStable(a, b, ledgers[lane], stored[lane], Delay(lane));
    }
  }

  lemma FreshLaneCovers(a: Archive, minute: int, delay: int)
    ensures Covers(a, Ledger(minute, map[]), Position(minute, None), delay)
  {
  }

  lemma CommitKeeps(a: Archive, stored: map<Lane, Position>, ledgers: map<Lane, Ledger>, lane: Lane, current: int,
                    next: Position, ledger: Ledger)
    requires AllCovered(a, stored, ledgers) && Covers(a, ledger, next, Delay(lane)) && current <= a.now
    requires if lane in stored then NotBefore(stored[lane], next) && ledger.start == ledgers[lane].start
             else ledger.start == InitialMinute(lane, current)
    requires next.minute
             <= Later(if lane in stored then stored[lane].minute else InitialMinute(lane, current),
                      current - Delay(lane) + 1)
    ensures AllCovered(a, stored[lane := next], ledgers[lane := ledger])
    ensures Advanced(lane, current, stored, ledgers, stored[lane := next], ledgers[lane := ledger])
  {
  }

  /** What all lanes of one run share. */
  class Budget {
    var discovered: nat
    var listCalls: nat
    var scanned: nat

    constructor ()
      ensures discovered == 0 && listCalls == 0 && scanned == 0
    {
      discovered, listCalls, scanned := 0, 0, 0;
    }

    predicate Respected()
      reads this
    {
      discovered <= scanned <= RAW_BATCH_SIZE && listCalls <= MAX_LIST_CALLS
    }
  }

  class Bucket {
    var archive: Archive
    var stored: map<Lane, Position>
    ghost var ledgers: map<Lane, Ledger>

    /** Every stored cursor passes its own reader, and its lane has covered what it passed. */
    ghost predicate Valid()
      reads this
    {
      AllCovered(archive, stored, ledgers)
    }

    constructor (current: int)
      ensures Valid() && stored == map[] && archive == Archive(current, map[], {})
    {
      archive, stored, ledgers := Archive(current, map[], {}), map[], map[];
    }

    /** Between two binding calls. */
    method Meanwhile()
      requires IsArchive(archive)
      modifies this`archive
      ensures IsArchive(archive) && Grows(old(archive), archive)
    {
      var steps: nat := *;
      while steps > 0
        invariant IsArchive(archive) && Grows(old(archive), archive)
      {
        var k: RawKey := *;
        var elapsed: int := *;
        if k !in archive.landed && forall j :: j in archive.landed && j.minute == k.minute ==> j.name != k.name {
          archive := archive.(landed := archive.landed[k := archive.now]);
        }
        if k in archive.landed { archive := archive.(marked := archive.marked + {k}); }
        if elapsed > 0 { archive := archive.(now := archive.now + elapsed); }
        steps := steps - 1;
      }
    }

    /** The next page of the listing of a minute, or a failure. */
    method List(p: Position) returns (page: Option<Page>)
      requires IsArchive(archive)
      ensures page.Some? ==>
                && IsPage(page.value.objects, Remaining(archive, p)) && PageCursor(page.value, p, archive)
                && (page.value.truncated <==> Set(page.value.objects) != Remaining(archive, p))
    {
      var fails, keepsCursor: bool := *, *;
      if fails { return None; }
      var remaining := Remaining(archive, p);
      var objects: seq<RawKey> :| IsPage(objects, remaining);
      var truncated := Set(objects) != remaining;
      var cursor: Option<int> := None;
      if truncated && keepsCursor {
        if objects != [] { cursor := Some(objects[|objects| - 1].name); }
        else { cursor := if p.cursor.Some? then p.cursor else Some(-1); }
      }
      return Some(Page(objects, truncated, cursor));
    }

    /** A create-only marker write; a marker that is already there serves as well. */
    method PersistMarker(k: RawKey) returns (done: bool)
      requires IsArchive(archive)
      modifies this`archive
      ensures IsArchive(archive) && Grows(old(archive), archive)
      ensures done ==> k in archive.marked
    {
      Meanwhile();
      var fails: bool := *;
      if fails { return false; }
      archive := archive.(marked := archive.marked + {k});
      return true;
    }

    /** Every parseable object of a page is given a marker, whatever its receipt says. */
    method MarkPage(objects: seq<RawKey>, budget: Budget) returns (done: bool)
      requires IsArchive(archive) && budget.Respected() && |objects| <= RAW_BATCH_SIZE - budget.scanned
      modifies this`archive, budget
      ensures IsArchive(archive) && Grows(old(archive), archive)
      ensures budget.Respected() && budget.listCalls == old(budget.listCalls)
      ensures old(budget.scanned) <= budget.scanned <= old(budget.scanned) + |objects|
      ensures done ==> forall k :: k in objects && k.parseable ==> k in archive.marked
    {
      for i := 0 to |objects|
        invariant IsArchive(archive) && Grows(old(archive), archive)
        invariant budget.listCalls == old(budget.listCalls) && budget.scanned == old(budget.scanned) + i
        invariant budget.discovered <= budget.scanned
        invariant forall j :: 0 <= j < i && objects[j].parseable ==> objects[j] in archive.marked
      {
        budget.scanned := budget.scanned + 1;
        if !objects[i].parseable { continue; }
        var headFails: bool := *;
        if headFails { return false; }
        var marked := PersistMarker(objects[i]);
        if !marked { return false; }
        budget.discovered := budget.discovered + 1;
      }
      return true;
    }

    /** One listing call and the markers for its page. `more` tells whether the minute was
        listed to its end. */
    method ListAndMark(p: Position, budget: Budget, ghost delay: int, ghost before: Ledger)
        returns (next: Option<Position>, more: bool, ghost ledger: Ledger)
      requires IsArchive(archive) && budget.Respected()
      requires budget.scanned < RAW_BATCH_SIZE && budget.listCalls < MAX_LIST_CALLS
      requires Covers(archive, before, p, delay) && p.minute + delay <= archive.now
      modifies this`archive, budget
      ensures IsArchive(archive) && Grows(old(archive), archive)
      ensures budget.Respected()
      ensures old(budget.scanned) <= budget.scanned && budget.listCalls == old(budget.listCalls) + 1
      ensures next.Some? ==>
                && ledger.start == before.start && Covers(archive, ledger, next.value, delay)
                && NotBefore(p, next.value) && next.value.minute == (if more then p.minute + 1 else p.minute)
                && (more <==> next.value.cursor.None?)
    {
      ledger, more := before, false;
      var remaining := RAW_BATCH_SIZE - budget.scanned;
      budget.listCalls := budget.listCalls + 1;
      Meanwhile();
      CoverageIsStable(old(archive), archive, ledger, p, delay);
      if p.cursor.None? {
        BeginningKeepsCoverage(archive, ledger, p.minute, delay);
        ledger := Begin(archive, ledger, p.minute);
      }
      ghost var listed := archive;
      var page := List(p);
      if page.None? || |page.value.objects| > remaining { return None, false, ledger; }
      var marked := MarkPage(page.value.objects, budget);
      if !marked { return None, false, ledger; }
      CoverageIsStable(listed, archive, ledger, p, delay);
      PageKeepsCoverage(archive, ledger, p, delay, page.value, listed);
      if page.value.truncated {
        if page.value.cursor.None? { return None, false, ledger; }
        CursorMovesOn(page.value, p, listed);
        return Some(Position(p.minute, page.value.cursor)), false, ledger;
      }
      return Some(Position(p.minute + 1, None)), true, ledger;
    }

    /** One lane of one run. On failure the position it came to is forgotten. */
    method ScanLane(previous: Position, lastClosed: int, budget: Budget, ghost delay: int, ghost before: Ledger)
        returns (next: Option<Position>, ghost ledger: Ledger)
      requires IsArchive(archive) && budget.Respected()
      requires Covers(archive, before, previous, delay) && lastClosed + delay <= archive.now
      modifies this`archive, budget
      ensures IsArchive(archive) && Grows(old(archive), archive)
      ensures budget.Respected() && old(budget.scanned) <= budget.scanned && old(budget.listCalls) <= budget.listCalls
      ensures next.Some? ==>
                && NotBefore(previous, next.value) && next.value.minute <= Later(previous.minute, lastClosed + 1)
                && ledger.start == before.start && Covers(archive, ledger, next.value, delay)
                && (next.value.minute > lastClosed || next.value.cursor.Some?
                    || budget.scanned == RAW_BATCH_SIZE || budget.listCalls == MAX_LIST_CALLS)
    {
      var p := previous;
      ledger := before;
      var more := true;
      while more && p.minute <= lastClosed && budget.scanned < RAW_BATCH_SIZE && budget.listCalls < MAX_LIST_CALLS
        invariant IsArchive(archive) && Grows(old(archive), archive)
        invariant budget.Respected()
        invariant old(budget.scanned) <= budget.scanned && old(budget.listCalls) <= budget.listCalls
        invariant NotBefore(previous, p) && p.minute <= Later(previous.minute, lastClosed + 1)
        invariant ledger.start == before.start && Covers(archive, ledger, p, delay)
        invariant !more ==> p.cursor.Some?
        decreases MAX_LIST_CALLS - budget.listCalls
      {
        ghost var earlier := archive;
        var next';
        next', more, ledger := ListAndMark(p, budget, delay, ledger);
        GrowthIsTransitive(old(archive), earlier, archive);
        if next'.None? { return None, ledger; }
        p := next'.value;
      }
      return Some(p), ledger;
    }

    /** Runs both lanes, the priority lane first, on one budget. */
    method DiscoverRecentRawArchives() returns (discovered: nat, scanned: nat, cursorWritten: bool, listCalls: nat)
      requires Valid()
      modifies this
      ensures Valid() && Grows(old(archive), archive)
      ensures discovered <= scanned <= RAW_BATCH_SIZE && listCalls <= MAX_LIST_CALLS
      ensures Advanced(Priority, old(archive.now), old(stored), old(ledgers), stored, ledgers)
      ensures Advanced(Backstop, old(archive.now), old(stored), old(ledgers), stored, ledgers)
      ensures cursorWritten ==> Priority in stored && Backstop in stored
    {
      var currentMinute := archive.now;
      var budget := new Budget();
      var priority := RunLane(Priority, currentMinute, budget);
      ghost var between := archive;
      var backstop := RunLane(Backstop, currentMinute, budget);
      GrowthIsTransitive(old(archive), between, archive);
      return budget.discovered, budget.scanned, priority && backstop, budget.listCalls;
    }

    /** Where the lane stands. A stored cursor never fails the reader's own check that it is
        not in the future. */
    method ReadCursor(lane: Lane, currentMinute: int) returns (previous: Position, ghost before: Ledger)
      requires Valid() && currentMinute <= archive.now
      ensures previous == if lane in stored then stored[lane] else Position(InitialMinute(lane, currentMinute), None)
      ensures previous.minute <= archive.now && Covers(archive, before, previous, Delay(lane))
      ensures before.start == if lane in stored then ledgers[lane].start else InitialMinute(lane, currentMinute)
    {
      if lane in stored { return stored[lane], ledgers[lane]; }
      var minute := InitialMinute(lane, currentMinute);
      FreshLaneCovers(archive, minute, Delay(lane));
      return Position(minute, None), Ledger(minute, map[]);
    }

    /** Reads a lane's cursor, scans, and writes the new cursor if nobody else has. The write
        may take effect and still be reported as failed. */
    method RunLane(lane: Lane, currentMinute: int, budget: Budget) returns (written: bool)
      requires Valid() && budget.Respected() && currentMinute <= archive.now
      modifies this, budget
      ensures Valid() && Grows(old(archive), archive) && budget.Respected()
      ensures SameLane(if lane.Priority? then Backstop else Priority, old(stored), old(ledgers), stored, ledgers)
      ensures Advanced(lane, currentMinute, old(stored), old(ledgers), stored, ledgers)
      ensures written ==> lane in stored
    {
      var readFails, lost, reportedFailed: bool := *, *, *;
      if readFails { return false; }
      var previous, before := ReadCursor(lane, currentMinute);
      var next, ledger := ScanLane(previous, currentMinute - Delay(lane), budget, Delay(lane), before);
      AllCoveredIsStable(old(archive), archive, stored, ledgers);
      if next.None? || lost { return false; }
      CommitKeeps(archive, stored, ledgers, lane, currentMinute, next.value, ledger);
      stored, ledgers := stored[lane := next.value], ledgers[lane := ledger];
      return !reportedFailed;
    }

    /** The coverage theorem over any number of runs: once a lane's stored cursor has passed a
        minute it is responsible for, every parseable object of that minute that landed before
        the minute was closed to the lane has been given an active marker. */
    lemma RecentSweepCovers(lane: Lane, k: RawKey)
      requires Valid() && lane in stored && k in archive.landed && k.parseable
      requires ledgers[lane].start <= k.minute < stored[lane].minute
      requires archive.landed[k] < k.minute + Delay(lane)
      ensures k in archive.marked
    {
      PassedMeansMarked(archive, ledgers[lane], stored[lane], Delay(lane), k);
    }

    /** Any number of runs, with anything happening in between. */
    method Runs(times: nat)
      requires Valid()
      modifies this
      ensures Valid() && Grows(old(archive), archive)
      ensures forall lane, k :: lane in stored && k in archive.landed && k.parseable
                && ledgers[lane].start <= k.minute < stored[lane].minute && archive.landed[k] < k.minute + Delay(lane)
                ==> k in archive.marked
      ensures forall lane :: lane in old(stored) ==>
                lane in stored && NotBefore(old(stored)[lane], stored[lane])
    {
      for run := 0 to times
        invariant Valid() && Grows(old(archive), archive)
        invariant forall lane :: lane in old(stored) ==>
                    lane in stored && NotBefore(old(stored)[lane], stored[lane])
      {
        ghost var before := archive;
        Meanwhile();
        AllCoveredIsStable(before, archive, stored, ledgers);
        GrowthIsTransitive(old(archive), before, archive);
        before := archive;
        ghost var positions := stored;
        var discovered, scanned, cursorWritten, listCalls := DiscoverRecentRawArchives();
        GrowthIsTransitive(old(archive), before, archive);
        forall lane | lane in old(stored) ensures lane in stored && NotBefore(old(stored)[lane], stored[lane]) {
          assert NotBefore(old(stored)[lane], positions[lane]);
          assert lane == Priority || lane == Backstop;
        }
      }
      forall lane, k | lane in stored && k in archive.landed && k.parseable
          && ledgers[lane].start <= k.minute < stored[lane].minute && archive.landed[k] < k.minute + Delay(lane)
        ensures k in archive.marked
      {
        RecentSweepCovers(lane, k);
      }
    }

    /** Whatever was there when the listing of a passed minute began has been given a marker. */
    lemma ListedMeansMarked(lane: Lane, k: RawKey)
      requires Valid() && lane in stored && k.parseable && k.minute < stored[lane].minute
      requires k.minute in ledgers[lane].begun && k in ledgers[lane].begun[k.minute]
      ensures k in archive.landed && k in archive.marked
    {
      assert Passed(k, stored[lane]);
    }
  }

  function Later(a: int, b: int): int { if a < b then b else a }

  lemma CursorMovesOn(page: Page, p: Position, listed: Archive)
    requires IsPage(page.objects, Remaining(listed, p)) && PageCursor(page, p, listed) && page.cursor.Some?
    ensures NotBefore(p, Position(p.minute, page.cursor))
  {
  }
}
