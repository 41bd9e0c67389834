/** The retention sweep: a service that periodically deletes tasks, stored
    recordings, scan results and learned corrections older than the
    retention period, and keeps a short log of its sweeps in browser
    storage. Time is in milliseconds; interval handles are supplied by the
    caller as the browser would hand them out. */
module Retention {
  import opened Common
  import opened OrderedMaps
  import opened Dexie
  import Tasks
  import VocabularyRules
  import Vocabulary

  // ---------------------------------------------------------------------------
  // Browser storage

  /** The `timestamp` of a stored record: absent (or falsy), not a date, or
      that moment. */
  datatype Stamp = Missing | Unreadable | At(ms: int)

  /** One entry of the retention log. */
  datatype LogEntry = LogEntry(timestamp: int, tasksDeleted: nat, audioFilesDeleted: nat, ocrDataDeleted: nat,
                               vocabularyCorrectionsDeleted: nat, retentionPeriodHours: int)

  /** What `JSON.parse` makes of a stored value: it throws, it gives a
      value that is not a list (read for its `timestamp`), or it gives a
      list of log entries. */
  datatype Item = Corrupt | Record(timestamp: Stamp) | List(entries: seq<LogEntry>)

  type Storage = OrderedMap<string, Item>

  const LogKey: string := "data_retention_log"

  predicate IsAudioKey(k: string) {
    StartsWith(k, "audio_") || StartsWith(k, "speech_")
  }

  predicate IsOcrKey(k: string) {
    StartsWith(k, "ocr_") || StartsWith(k, "scan_")
  }

  function AudioKey(): string -> bool {
    (k: string) => IsAudioKey(k)
  }

  function OcrKey(): string -> bool {
    (k: string) => IsOcrKey(k)
  }

  /** No sweep looks at the log, and no key is both a recording and a scan. */
  lemma KeysApart(k: string)
    ensures !IsAudioKey(LogKey) && !IsOcrKey(LogKey)
    ensures !(IsAudioKey(k) && IsOcrKey(k))
  {
    assert LogKey[0] == 'd';
    assert StartsWith(k, "audio_") ==> k[0] == 'a';
    assert StartsWith(k, "speech_") ==> k[0] == 's' && k[1] == 'p';
    assert StartsWith(k, "ocr_") ==> k[0] == 'o';
    assert StartsWith(k, "scan_") ==> k[0] == 's' && k[1] == 'c';
  }

  /** A record a sweep removes: unreadable JSON, or a timestamp before the
      cutoff. A record without a timestamp, or with one that is not a date,
      stays. */
  predicate Expired(it: Item, cutoff: int) {
    it.Corrupt? || (it.Record? && it.timestamp.At? && it.timestamp.ms < cutoff)
  }

  /** The storage a sweep over the keys `sel` leaves. */
  function Swept(entries: map<string, Item>, sel: string -> bool, cutoff: int): map<string, Item> {
    map k | k in entries && !(sel(k) && Expired(entries[k], cutoff)) :: entries[k]
  }

  function SweptBy(entries: map<string, Item>, done: seq<string>, cutoff: int): map<string, Item> {
    map k | k in entries && !(k in done && Expired(entries[k], cutoff)) :: entries[k]
  }

  /** The two loops of `cleanupAudioFiles` and `cleanupOCRData`: collect
      the keys `sel` picks, then remove each whose record is expired,
      counting the removals. */
  method SweepStorage(items: Storage, sel: string -> bool, cutoff: int) returns (r: Storage, deleted: nat)
    requires items.Valid()
    ensures r.Valid()
    ensures r.entries == Swept(items.entries, sel, cutoff)
    ensures deleted + r.Size() == items.Size()
    ensures deleted == |ExpiredKeys(items.entries, sel, cutoff)|
  {
    var keys := CollectKeys(items.keys, sel);
    FilterSpec(items.keys, sel);
    FilterDistinct(items.keys, sel);
    r, deleted := RemoveExpired(items, keys, cutoff);
    SweptByAll(items.entries, keys, sel, cutoff);
    SizeIsCardinality(items);
    SizeIsCardinality(r);
    SweptCount(items.entries, sel, cutoff);
  }

  /** The first loop: the keys `sel` picks, in storage order. */
  method CollectKeys(all: seq<string>, sel: string -> bool) returns (keys: seq<string>)
    ensures keys == Filter(all, sel)
  {
    keys := [];
    for i := 0 to |all|
      invariant keys == Filter(all[..i], sel)
    {
      FilterAppend(all[..i], all[i], sel);
      assert all[..i + 1] == all[..i] + [all[i]];
      if sel(all[i]) {
        keys := keys + [all[i]];
      }
    }
    assert all[..|all|] == all;
  }

  /** The second loop: each listed key whose record is expired is removed
      and counted. */
  method RemoveExpired(items: Storage, keys: seq<string>, cutoff: int) returns (r: Storage, deleted: nat)
    requires items.Valid() && Distinct(keys)
    requires forall i :: 0 <= i < |keys| ==> keys[i] in items.entries
    ensures r.Valid()
    ensures r.entries == SweptBy(items.entries, keys, cutoff)
    ensures deleted + |r.entries.Keys| == |items.entries.Keys|
  {
    r := items;
    deleted := 0;
    for j := 0 to |keys|
      invariant r.Valid()
      invariant r.entries == SweptBy(items.entries, keys[..j], cutoff)
      invariant deleted + |r.entries.Keys| == |items.entries.Keys|
    {
      var k := keys[j];
      SweptByStep(items, keys, j, cutoff, r);
      if Expired(r.Get(k), cutoff) {
        r := Remove(r, k);
        deleted := deleted + 1;
      }
    }
    assert keys[..|keys|] == keys;
  }

  /** One turn of the second loop: key `j` is still there, and removing it
      when expired extends the sweep by that key. */
  lemma SweptByStep(items: Storage, keys: seq<string>, j: nat, cutoff: int, r: Storage)
    requires Distinct(keys) && j < |keys| && keys[j] in items.entries
    requires r.Valid() && r.entries == SweptBy(items.entries, keys[..j], cutoff)
    ensures keys[j] in r.entries && r.Get(keys[j]) == items.entries[keys[j]]
    ensures Expired(items.entries[keys[j]], cutoff) ==>
              Remove(r, keys[j]).entries == SweptBy(items.entries, keys[..j + 1], cutoff) &&
              |Remove(r, keys[j]).entries.Keys| == |r.entries.Keys| - 1
    ensures !Expired(items.entries[keys[j]], cutoff) ==> r.entries == SweptBy(items.entries, keys[..j + 1], cutoff)
  {
    var k := keys[j];
    assert k !in keys[..j];
    assert keys[..j + 1] == keys[..j] + [k];
    assert r.entries.Keys - {k} == (r.entries - {k}).Keys;
  }

  lemma SweptByAll(entries: map<string, Item>, keys: seq<string>, sel: string -> bool, cutoff: int)
    requires forall k :: k in keys <==> k in entries && sel(k)
    ensures SweptBy(entries, keys, cutoff) == Swept(entries, sel, cutoff)
  {
  }

  /** The keys a sweep over `sel` removes: the selected ones whose record
      is expired. */
  function ExpiredKeys(entries: map<string, Item>, sel: string -> bool, cutoff: int): set<string> {
    set k | k in entries && sel(k) && Expired(entries[k], cutoff)
  }

  /** A sweep keeps every key but the expired selected ones. */
  lemma SweptCount(entries: map<string, Item>, sel: string -> bool, cutoff: int)
    ensures |Swept(entries, sel, cutoff).Keys| + |ExpiredKeys(entries, sel, cutoff)| == |entries.Keys|
  {
    var kept := Swept(entries, sel, cutoff).Keys;
    var gone := ExpiredKeys(entries, sel, cutoff);
    assert entries.Keys == kept + gone;
    assert kept * gone == {};
  }

  /** The recording sweep leaves every scan record where it was, so the scan
      sweep after it removes what it would have removed first. */
  lemma AudioSweepKeepsOcr(entries: map<string, Item>, cutoff: int)
    ensures ExpiredKeys(Swept(entries, AudioKey(), cutoff), OcrKey(), cutoff) == ExpiredKeys(entries, OcrKey(), cutoff)
  {
    forall k | k in entries && IsOcrKey(k)
      ensures k in Swept(entries, AudioKey(), cutoff)
    {
      KeysApart(k);
    }
  }

  /** The counts the two `localStorage` sweeps report. */
  predicate StorageCounts(r: CleanupResults, entries: map<string, Item>, cutoff: int) {
    r.audioFiles == |ExpiredKeys(entries, AudioKey(), cutoff)| &&
    r.ocrData == |ExpiredKeys(entries, OcrKey(), cutoff)|
  }

  /** The log after one more entry: a missing or unreadable log starts
      afresh; a stored value that is not a list makes `push` throw, so
      nothing is written. */
  function LogAfter(existing: Option<Item>, entry: LogEntry): (r: Option<seq<LogEntry>>)
    ensures r.None? <==> existing.Some? && existing.value.Record?
    ensures existing.Some? && existing.value.List? ==> r == Some(LastTen(existing.value.entries + [entry]))
    ensures existing.None? || (existing.Some? && existing.value.Corrupt?) ==> r == Some([entry])
  {
    if existing.None? then Some([entry])
    else match existing.value
      case Corrupt => Some([entry])
      case List(entries) => Some(LastTen(entries + [entry]))
      case Record(_) => None
  }

  /** `logs.slice(-10)` once there are more than ten. */
  function LastTen(l: seq<LogEntry>): (r: seq<LogEntry>)
    ensures |r| == Min(|l|, 10)
    ensures r == l[|l| - |r|..]
  {
    if |l| > 10 then l[|l| - 10..] else l
  }

  /** The log keeps the newest entry last and at most ten entries, in the
      order they were written. */
  lemma LogAfterKeepsTen(entries: seq<LogEntry>, entry: LogEntry)
    ensures var r := LogAfter(Some(List(entries)), entry).value;
            1 <= |r| <= 10 && r[|r| - 1] == entry && r == (entries + [entry])[|entries| + 1 - |r|..]
  {
  }

  /** Logging entries one sweep after another from an empty log. */
  function Replay(log: seq<LogEntry>, written: seq<LogEntry>): seq<LogEntry>
    decreases |written|
  {
    if written == [] then log else Replay(LastTen(log + [written[0]]), written[1..])
  }

  /** However many sweeps were logged, the log holds the last ten of them. */
  lemma {:induction false} ReplayKeepsLastTen(log: seq<LogEntry>, written: seq<LogEntry>)
    requires |log| <= 10
    ensures Replay(log, written) == LastTen(log + written)
    decreases |written|
  {
    if written == [] {
      assert log + written == log;
    } else {
      var next := LastTen(log + [written[0]]);
      assert Replay(log, written) == Replay(next, written[1..]);
      ReplayKeepsLastTen(next, written[1..]);
      LastTenAppend(log + [written[0]], written[1..]);
      ConsAppend(log, written);
    }
  }

  lemma ConsAppend<T>(a: seq<T>, b: seq<T>)
    requires b != []
    ensures a + [b[0]] + b[1..] == a + b
  {
    assert b == [b[0]] + b[1..];
  }

  /** Cutting to ten before appending more changes no final cut. */
  lemma LastTenAppend(a: seq<LogEntry>, b: seq<LogEntry>)
    ensures LastTen(LastTen(a) + b) == LastTen(a + b)
  {
    var c := LastTen(a);
    var left := LastTen(c + b);
    var right := LastTen(a + b);
    assert |left| == |right|;
    forall i | 0 <= i < |left| ensures left[i] == right[i] {
      var n := |left|;
      if |c + b| - n + i < |c| {
        assert left[i] == c[|c + b| - n + i];
        assert c[|c + b| - n + i] == a[|a| - |c| + |c + b| - n + i];
      } else {
        assert left[i] == b[|c + b| - n + i - |c|];
      }
    }
  }

  /** The results of one sweep. */
  datatype CleanupResults = CleanupResults(tasks: nat, audioFiles: nat, ocrData: nat, vocabularyCorrections: nat,
                                           timestamp: int)

  predicate AnyDeleted(r: CleanupResults) {
    r.tasks > 0 || r.audioFiles > 0 || r.ocrData > 0 || r.vocabularyCorrections > 0
  }

  function EntryOf(r: CleanupResults, hours: int): LogEntry {
    LogEntry(r.timestamp, r.tasks, r.audioFiles, r.ocrData, r.vocabularyCorrections, hours)
  }

  function StoredLog(entries: map<string, Item>): Option<Item> {
    if LogKey in entries then Some(entries[LogKey]) else None
  }

  /** Storage after `logCleanupActivity`. */
  function Logged(entries: map<string, Item>, entry: LogEntry): map<string, Item> {
    var next := LogAfter(StoredLog(entries), entry);
    if next.Some? then entries[LogKey := List(next.value)] else entries
  }

  /** `getCleanupHistory`: the stored list, or none when there is no
      readable one. */
  function History(entries: map<string, Item>): (h: seq<LogEntry>)
    ensures StoredLog(entries).Some? && StoredLog(entries).value.List? ==> h == StoredLog(entries).value.entries
    ensures !(StoredLog(entries).Some? && StoredLog(entries).value.List?) ==> h == []
  {
    var stored := StoredLog(entries);
    if stored.Some? && stored.value.List? then stored.value.entries else []
  }

  /** After a logged sweep the history's newest entry is that sweep's. */
  lemma LoggedIsLast(entries: map<string, Item>, entry: LogEntry)
    requires !(StoredLog(entries).Some? && StoredLog(entries).value.Record?)
    ensures var h := History(Logged(entries, entry));
            1 <= |h| <= 10 && h[|h| - 1] == entry
  {
  }

  // ---------------------------------------------------------------------------
  // Ages

  const HourMs: int := 3600000

  /** The moment before which data is too old. */
  function Cutoff(now: int, hours: int): (c: int)
    ensures hours >= 1 ==> c < now
  {
    now - hours * HourMs
  }

  function CreatedBelow(cutoff: int): Tasks.Task -> bool {
    (t: Tasks.Task) => t.data.createdAt < cutoff
  }

  function CorrectionBelow(cutoff: int): Row<VocabularyRules.CorrectionData> -> bool {
    (c: Row<VocabularyRules.CorrectionData>) => c.data.createdAt < cutoff
  }

  /** The vocabulary database once `initialize` has run: seeded when it had
      not run before. */
  function Prepared(db: VocabularyRules.Database, initialized: bool, seed: VocabularyRules.Seed, now: int)
    : VocabularyRules.Database
    requires db.Valid()
  {
    if initialized then db else VocabularyRules.Seeded(db, seed, now)
  }

  /** The correction step took `before` to `after`: the corrections created
      before the cutoff are gone and `n` counts them; terms and categories
      stay. */
  predicate CorrectionsSwept(before: VocabularyRules.Database, after: VocabularyRules.Database, cutoff: int, n: nat) {
    after.corrections.rows == Filter(before.corrections.rows, Negate(CorrectionBelow(cutoff))) &&
    n == |Filter(before.corrections.rows, CorrectionBelow(cutoff))| &&
    after.terms == before.terms && after.categories == before.categories
  }

  /** How many records of one kind there are, and how many of them are
      older or younger than the cutoff. */
  datatype AgeCounts = AgeCounts(total: nat, aged: nat, recent: nat)

  datatype DataAgeStatistics = DataAgeStatistics(tasks: AgeCounts, audioFiles: AgeCounts, ocrData: AgeCounts)

  /** A record counted as old: a readable timestamp before the cutoff. */
  predicate OldItem(it: Item, cutoff: int) {
    it.Record? && it.timestamp.At? && it.timestamp.ms < cutoff
  }

  /** A record counted as recent: a timestamp that is not before the
      cutoff, or one that is not a date (the comparison with `NaN` fails). */
  predicate RecentItem(it: Item, cutoff: int) {
    it.Record? && (it.timestamp.Unreadable? || (it.timestamp.At? && it.timestamp.ms >= cutoff))
  }

  function OldKey(entries: map<string, Item>, sel: string -> bool, cutoff: int): string -> bool {
    (k: string) => sel(k) && k in entries && OldItem(entries[k], cutoff)
  }

  function RecentKey(entries: map<string, Item>, sel: string -> bool, cutoff: int): string -> bool {
    (k: string) => sel(k) && k in entries && RecentItem(entries[k], cutoff)
  }

  /** The counts for the keys `sel` picks, over the keys in storage order. */
  function AgesOf(items: Storage, sel: string -> bool, cutoff: int): AgeCounts {
    AgeCounts(|Filter(items.keys, sel)|, |Filter(items.keys, OldKey(items.entries, sel, cutoff))|,
              |Filter(items.keys, RecentKey(items.entries, sel, cutoff))|)
  }

  /** Old and recent records are among those of the kind, and apart, so
      they never add up to more; records with corrupt JSON or no timestamp
      make up the difference. */
  lemma {:induction false} AgesBounded(keys: seq<string>, entries: map<string, Item>, sel: string -> bool, cutoff: int)
    ensures |Filter(keys, OldKey(entries, sel, cutoff))| + |Filter(keys, RecentKey(entries, sel, cutoff))| <=
            |Filter(keys, sel)|
    decreases |keys|
  {
    if keys != [] {
      AgesBounded(keys[1..], entries, sel, cutoff);
    }
  }

  /** The loop of `getDataAgeStatistics` over storage, restricted to one
      kind of key; it changes nothing. */
  method CountAges(items: Storage, sel: string -> bool, cutoff: int) returns (c: AgeCounts)
    ensures c == AgesOf(items, sel, cutoff)
    ensures c.aged + c.recent <= c.total
  {
    c := AgeCounts(0, 0, 0);
    for i := 0 to |items.keys|
      invariant c == AgesUpTo(items, sel, cutoff, i)
    {
      var k := items.keys[i];
      AgesStep(items, sel, cutoff, i);
      if sel(k) {
        c := c.(total := c.total + 1);
        if k in items.entries {
          var it := items.entries[k];
          if it.Record? && it.timestamp != Missing {
            if it.timestamp.At? && it.timestamp.ms < cutoff {
              c := c.(aged := c.aged + 1);
            } else {
              c := c.(recent := c.recent + 1);
            }
          }
        }
      }
    }
    assert items.keys[..|items.keys|] == items.keys;
    AgesBounded(items.keys, items.entries, sel, cutoff);
  }

  /** The counts over the first `i` keys. */
  function AgesUpTo(items: Storage, sel: string -> bool, cutoff: int, i: nat): AgeCounts
    requires i <= |items.keys|
  {
    var ks := items.keys[..i];
    AgeCounts(|Filter(ks, sel)|, |Filter(ks, OldKey(items.entries, sel, cutoff))|,
              |Filter(ks, RecentKey(items.entries, sel, cutoff))|)
  }

  /** One more key counts once in each class it falls in. */
  lemma AgesStep(items: Storage, sel: string -> bool, cutoff: int, i: nat)
    requires i < |items.keys|
    ensures var k := items.keys[i];
            var before := AgesUpTo(items, sel, cutoff, i);
            AgesUpTo(items, sel, cutoff, i + 1) ==
              AgeCounts(before.total + (if sel(k) then 1 else 0),
                        before.aged + (if OldKey(items.entries, sel, cutoff)(k) then 1 else 0),
                        before.recent + (if RecentKey(items.entries, sel, cutoff)(k) then 1 else 0))
  {
    var k := items.keys[i];
    assert items.keys[..i + 1] == items.keys[..i] + [k];
    FilterAppend(items.keys[..i], k, sel);
    FilterAppend(items.keys[..i], k, OldKey(items.entries, sel, cutoff));
    FilterAppend(items.keys[..i], k, RecentKey(items.entries, sel, cutoff));
  }

  /** The task counts: every task is old or recent. */
  method CountTaskAges(rows: seq<Tasks.Task>, cutoff: int) returns (c: AgeCounts)
    ensures c.total == |rows| && c.aged == |Filter(rows, CreatedBelow(cutoff))|
    ensures c.recent == |Filter(rows, Negate(CreatedBelow(cutoff)))|
    ensures c.aged + c.recent == c.total
  {
    c := AgeCounts(|rows|, 0, 0);
    for i := 0 to |rows|
      invariant c == AgeCounts(|rows|, |Filter(rows[..i], CreatedBelow(cutoff))|,
                               |Filter(rows[..i], Negate(CreatedBelow(cutoff)))|)
    {
      assert rows[..i + 1] == rows[..i] + [rows[i]];
      FilterAppend(rows[..i], rows[i], CreatedBelow(cutoff));
      FilterAppend(rows[..i], rows[i], Negate(CreatedBelow(cutoff)));
      if rows[i].data.createdAt < cutoff {
        c := c.(aged := c.aged + 1);
      } else {
        c := c.(recent := c.recent + 1);
      }
    }
    assert rows[..|rows|] == rows;
    FilterSplitCount(rows, CreatedBelow(cutoff));
  }

  // ---------------------------------------------------------------------------
  // The service

  /** Whether the service runs, what it reports, and what it saw. */
  datatype RetentionStatus = RetentionStatus(isRunning: bool, retentionPeriodHours: int, checkIntervalMinutes: int,
                                             nextCleanupTime: Option<int>, lastCleanupResults: Option<LogEntry>)

  class DataRetentionService {
    var retentionPeriodHours: int
    const checkIntervalMinutes: int
    var isRunning: bool
    var intervalId: Option<nat>
    /** The browser's running intervals that call the sweep. */
    var timers: set<nat>
    /** Whether an `onDataDeleted` callback is set, and the results it was
        handed so far. */
    var hasOnDataDeleted: bool
    var delivered: seq<CleanupResults>
    /** `localStorage`. */
    var storage: Storage

    /** The service runs exactly when an interval is set, which is then the
        only one running; the period lies in [1, 168]. */
    ghost predicate Valid()
      reads this
    {
      storage.Valid() && checkIntervalMinutes == 60 && 1 <= retentionPeriodHours <= 168 &&
      (isRunning <==> intervalId.Some?) &&
      timers == (if intervalId.Some? then {intervalId.value} else {})
    }

    /** Everything but storage. */
    function Settings(): (int, bool, Option<nat>, set<nat>, bool, seq<CleanupResults>)
      reads this
    {
      (retentionPeriodHours, isRunning, intervalId, timers, hasOnDataDeleted, delivered)
    }

    constructor(items: Storage)
      requires items.Valid()
      ensures Valid() && retentionPeriodHours == 72 && checkIntervalMinutes == 60
      ensures !isRunning && intervalId == None && timers == {} && !hasOnDataDeleted && delivered == []
      ensures storage == items
    {
      retentionPeriodHours := 72;
      checkIntervalMinutes := 60;
      isRunning := false;
      intervalId := None;
      timers := {};
      hasOnDataDeleted := false;
      delivered := [];
      storage := items;
    }

    /** `setCallbacks`. */
    method SetCallbacks(onDataDeleted: bool)
      requires Valid()
      modifies this
      ensures Valid() && hasOnDataDeleted == onDataDeleted
      ensures retentionPeriodHours == old(retentionPeriodHours) && isRunning == old(isRunning)
      ensures intervalId == old(intervalId) && timers == old(timers) && delivered == old(delivered)
      ensures storage == old(storage)
    {
      hasOnDataDeleted := onDataDeleted;
    }

    /** `startPeriodicCleanup` with the handle the browser returns: the old
        interval, if any, is cleared first. */
    method StartPeriodicCleanup(handle: nat)
      requires storage.Valid() && (isRunning <==> intervalId.Some?)
      requires timers == (if intervalId.Some? then {intervalId.value} else {})
      requires handle !in timers
      modifies this
      ensures intervalId == Some(handle) && timers == {handle}
      ensures retentionPeriodHours == old(retentionPeriodHours) && isRunning == old(isRunning)
      ensures hasOnDataDeleted == old(hasOnDataDeleted) && delivered == old(delivered) && storage == old(storage)
    {
      if intervalId.Some? {
        timers := timers - {intervalId.value};
      }
      intervalId := Some(handle);
      timers := timers + {handle};
    }

    /** `stopPeriodicCleanup`: no interval runs any more. */
    method StopPeriodicCleanup()
      requires Valid()
      modifies this
      ensures Valid() && !isRunning && intervalId == None && timers == {}
      ensures retentionPeriodHours == old(retentionPeriodHours) && hasOnDataDeleted == old(hasOnDataDeleted)
      ensures delivered == old(delivered) && storage == old(storage)
    {
      if intervalId.Some? {
        timers := timers - {intervalId.value};
        intervalId := None;
      }
      isRunning := false;
    }

    /** `shutdown`. */
    method Shutdown()
      requires Valid()
      modifies this
      ensures Valid() && !isRunning && intervalId == None && timers == {}
      ensures retentionPeriodHours == old(retentionPeriodHours) && hasOnDataDeleted == old(hasOnDataDeleted)
      ensures delivered == old(delivered) && storage == old(storage)
    {
      StopPeriodicCleanup();
    }

    /** `cleanupTasks`: the tasks created before the cutoff are deleted and
        counted; the others stay. */
    method CleanupTasks(cutoff: int, store: Tasks.TaskService) returns (deleted: nat)
      requires store.Valid()
      modifies store
      ensures store.Valid() && store.table.nextId == old(store.table.nextId)
      ensures store.table.rows == Filter(old(store.table.rows), Negate(CreatedBelow(cutoff)))
      ensures deleted == |Filter(old(store.table.rows), CreatedBelow(cutoff))|
      ensures deleted + |store.table.rows| == |old(store.table.rows)|
    {
      var res := DeleteWhere(store.table, CreatedBelow(cutoff));
      store.table := res.0;
      deleted := res.1;
    }

    /** `cleanupTasks` as written: `taskDB` is not among the exports of the
        task database module, so `taskDB.tasks` throws inside the `try` and
        the step reports 0 and deletes nothing. */
    method CleanupTasksAsWritten(cutoff: int, store: Tasks.TaskService) returns (deleted: nat)
      ensures deleted == 0
    {
      deleted := 0;
    }

    /** `cleanupAudioFiles`: the sweep over `audio_` and `speech_` keys. */
    method CleanupAudioFiles(cutoff: int) returns (deleted: nat)
      requires Valid()
      modifies this
      ensures Valid() && Settings() == old(Settings())
      ensures storage.entries == Swept(old(storage).entries, AudioKey(), cutoff)
      ensures deleted + storage.Size() == old(storage).Size()
      ensures deleted == |ExpiredKeys(old(storage).entries, AudioKey(), cutoff)|
    {
      storage, deleted := SweepStorage(storage, AudioKey(), cutoff);
    }

    /** `cleanupOCRData`: the same sweep over `ocr_` and `scan_` keys. */
    method CleanupOcrData(cutoff: int) returns (deleted: nat)
      requires Valid()
      modifies this
      ensures Valid() && Settings() == old(Settings())
      ensures storage.entries == Swept(old(storage).entries, OcrKey(), cutoff)
      ensures deleted + storage.Size() == old(storage).Size()
      ensures deleted == |ExpiredKeys(old(storage).entries, OcrKey(), cutoff)|
    {
      storage, deleted := SweepStorage(storage, OcrKey(), cutoff);
    }

    /** `cleanupVocabularyCorrections` as written: after initialising the
        vocabulary it reads `vocabularyService.vocabularyDB`, a field the
        service does not have, so it throws and reports 0. */
    method CleanupVocabularyCorrectionsAsWritten(cutoff: int, vocab: Vocabulary.VocabularyService, now: int)
      returns (deleted: nat)
      requires vocab.Valid()
      modifies vocab
      ensures vocab.Valid() && vocab.initialized && deleted == 0
      ensures old(vocab.initialized) ==> vocab.db == old(vocab.db)
      ensures !old(vocab.initialized) ==> vocab.db == VocabularyRules.Seeded(old(vocab.db), vocab.seed, now)
    {
      vocab.Initialize(now);
      deleted := 0;
    }

    /** `cleanupVocabularyCorrections` on the vocabulary's own correction
        table: after initialising, the corrections created before the
        cutoff are deleted and counted, and the indexes are reloaded when
        any went. Terms and categories stay. */
    method CleanupVocabularyCorrections(cutoff: int, vocab: Vocabulary.VocabularyService, now: int)
      returns (deleted: nat)
      requires vocab.Valid()
      modifies vocab
      ensures vocab.Valid() && vocab.initialized
      ensures CorrectionsSwept(Prepared(old(vocab.db), old(vocab.initialized), vocab.seed, now), vocab.db, cutoff, deleted)
      ensures deleted > 0 ==> vocab.corrections == VocabularyRules.GroupCorrections(vocab.db.corrections.rows)
    {
      vocab.Initialize(now);
      var res := DeleteWhere(vocab.db.corrections, CorrectionBelow(cutoff));
      deleted := res.1;
      if deleted == 0 {
        return;
      }
      vocab.db := vocab.db.(corrections := res.0);
      vocab.LoadData();
    }

    /** `logCleanupActivity`. */
    method LogCleanupActivity(results: CleanupResults)
      requires Valid()
      modifies this
      ensures Valid() && Settings() == old(Settings())
      ensures storage.entries == Logged(old(storage).entries, EntryOf(results, retentionPeriodHours))
    {
      var existing := if storage.Has(LogKey) then Some(storage.Get(LogKey)) else None;
      var next := LogAfter(existing, EntryOf(results, retentionPeriodHours));
      if next.Some? {
        storage := storage.Set(LogKey, List(next.value));
      }
    }

    /** The end of `performCleanup`: the callback when anything went, then
        the log entry. */
    method Report(results: CleanupResults)
      requires Valid()
      modifies this
      ensures Valid() && storage.entries == Logged(old(storage).entries, EntryOf(results, retentionPeriodHours))
      ensures retentionPeriodHours == old(retentionPeriodHours) && isRunning == old(isRunning)
      ensures intervalId == old(intervalId) && timers == old(timers) && hasOnDataDeleted == old(hasOnDataDeleted)
      ensures delivered == old(delivered) + (if hasOnDataDeleted && AnyDeleted(results) then [results] else [])
    {
      if AnyDeleted(results) && hasOnDataDeleted {
        delivered := delivered + [results];
      }
      LogCleanupActivity(results);
    }

    /** `performCleanup` at `now`: the four steps with the cutoff of the
        current period, the callback when anything went, and the log. */
    method PerformCleanup(now: int, store: Tasks.TaskService, vocab: Vocabulary.VocabularyService)
      returns (results: CleanupResults)
      requires Valid() && store.Valid() && vocab.Valid()
      modifies this, store, vocab
      ensures Valid() && store.Valid() && vocab.Valid() && vocab.initialized
      ensures retentionPeriodHours == old(retentionPeriodHours) && isRunning == old(isRunning)
      ensures intervalId == old(intervalId) && timers == old(timers) && hasOnDataDeleted == old(hasOnDataDeleted)
      ensures var cutoff := Cutoff(now, retentionPeriodHours);
              store.table.rows == Filter(old(store.table.rows), Negate(CreatedBelow(cutoff))) &&
              results.tasks == |Filter(old(store.table.rows), CreatedBelow(cutoff))| &&
              storage.entries == Logged(Swept(Swept(old(storage).entries, AudioKey(), cutoff), OcrKey(), cutoff),
                                        EntryOf(results, retentionPeriodHours))
      ensures results.timestamp == now
      ensures var cutoff := Cutoff(now, retentionPeriodHours);
              StorageCounts(results, old(storage).entries, cutoff) &&
              CorrectionsSwept(Prepared(old(vocab.db), old(vocab.initialized), vocab.seed, now), vocab.db, cutoff,
                               results.vocabularyCorrections)
      ensures delivered == old(delivered) + (if hasOnDataDeleted && AnyDeleted(results) then [results] else [])
    {
      var cutoff := Cutoff(now, retentionPeriodHours);
      results := RunCleanupSteps(cutoff, now, store, vocab);
      Report(results);
    }

    /** The four steps of `performCleanup` at one cutoff, with their counts. */
    method RunCleanupSteps(cutoff: int, now: int, store: Tasks.TaskService, vocab: Vocabulary.VocabularyService)
      returns (results: CleanupResults)
      requires Valid() && store.Valid() && vocab.Valid()
      modifies this, store, vocab
      ensures Valid() && store.Valid() && vocab.Valid() && vocab.initialized
      ensures Settings() == old(Settings())
      ensures store.table.rows == Filter(old(store.table.rows), Negate(CreatedBelow(cutoff))) &&
              results.tasks == |Filter(old(store.table.rows), CreatedBelow(cutoff))|
      ensures storage.entries == Swept(Swept(old(storage).entries, AudioKey(), cutoff), OcrKey(), cutoff)
      ensures results.timestamp == now
      ensures StorageCounts(results, old(storage).entries, cutoff)
      ensures CorrectionsSwept(Prepared(old(vocab.db), old(vocab.initialized), vocab.seed, now), vocab.db, cutoff,
                               results.vocabularyCorrections)
      ensures results.vocabularyCorrections > 0 ==> vocab.corrections == VocabularyRules.GroupCorrections(vocab.db.corrections.rows)
    {
      AudioSweepKeepsOcr(storage.entries, cutoff);
      var tasks := CleanupTasks(cutoff, store);
      var audio := CleanupAudioFiles(cutoff);
      var ocr := CleanupOcrData(cutoff);
      var corrections := CleanupVocabularyCorrections(cutoff, vocab, now);
      results := CleanupResults(tasks, audio, ocr, corrections, now);
    }

    /** `performCleanup` as written: the task and correction steps are the
        ones that throw and report 0, so only `localStorage` is swept, and
        the callback fires only when an audio or scan record went. */
    method PerformCleanupAsWritten(now: int, store: Tasks.TaskService, vocab: Vocabulary.VocabularyService)
      returns (results: CleanupResults)
      requires Valid() && vocab.Valid()
      modifies this, vocab
      ensures Valid() && vocab.Valid() && vocab.initialized
      ensures retentionPeriodHours == old(retentionPeriodHours) && isRunning == old(isRunning)
      ensures intervalId == old(intervalId) && timers == old(timers) && hasOnDataDeleted == old(hasOnDataDeleted)
      ensures store.table == old(store.table)
      ensures old(vocab.initialized) ==> vocab.db == old(vocab.db)
      ensures !old(vocab.initialized) ==> vocab.db == VocabularyRules.Seeded(old(vocab.db), vocab.seed, now)
      ensures results.tasks == 0 && results.vocabularyCorrections == 0 && results.timestamp == now
      ensures AnyDeleted(results) <==> results.audioFiles > 0 || results.ocrData > 0
      ensures var cutoff := Cutoff(now, retentionPeriodHours);
              StorageCounts(results, old(storage).entries, cutoff) &&
              (AnyDeleted(results) <==> ExpiredKeys(old(storage).entries, AudioKey(), cutoff) != {} ||
                                        ExpiredKeys(old(storage).entries, OcrKey(), cutoff) != {})
      ensures var cutoff := Cutoff(now, retentionPeriodHours);
              storage.entries == Logged(Swept(Swept(old(storage).entries, AudioKey(), cutoff), OcrKey(), cutoff),
                                        EntryOf(results, retentionPeriodHours))
      ensures delivered == old(delivered) + (if hasOnDataDeleted && AnyDeleted(results) then [results] else [])
    {
      var cutoff := Cutoff(now, retentionPeriodHours);
      results := RunCleanupStepsAsWritten(cutoff, now, store, vocab);
      Report(results);
    }

    /** The four steps of `performCleanup` as written at one cutoff. */
    method RunCleanupStepsAsWritten(cutoff: int, now: int, store: Tasks.TaskService, vocab: Vocabulary.VocabularyService)
      returns (results: CleanupResults)
      requires Valid() && vocab.Valid()
      modifies this, vocab
      ensures Valid() && vocab.Valid() && vocab.initialized
      ensures Settings() == old(Settings())
      ensures store.table == old(store.table)
      ensures old(vocab.initialized) ==> vocab.db == old(vocab.db)
      ensures !old(vocab.initialized) ==> vocab.db == VocabularyRules.Seeded(old(vocab.db), vocab.seed, now)
      ensures results.tasks == 0 && results.vocabularyCorrections == 0 && results.timestamp == now
      ensures storage.entries == Swept(Swept(old(storage).entries, AudioKey(), cutoff), OcrKey(), cutoff)
      ensures StorageCounts(results, old(storage).entries, cutoff)
    {
      AudioSweepKeepsOcr(storage.entries, cutoff);
      var tasks := CleanupTasksAsWritten(cutoff, store);
      var audio := CleanupAudioFiles(cutoff);
      var ocr := CleanupOcrData(cutoff);
      var corrections := CleanupVocabularyCorrectionsAsWritten(cutoff, vocab, now);
      results := CleanupResults(tasks, audio, ocr, corrections, now);
    }

    /** `triggerManualCleanup`. */
    method TriggerManualCleanup(now: int, store: Tasks.TaskService, vocab: Vocabulary.VocabularyService)
      returns (results: CleanupResults)
      requires Valid() && store.Valid() && vocab.Valid()
      modifies this, store, vocab
      ensures Valid() && store.Valid() && vocab.Valid() && vocab.initialized
      ensures retentionPeriodHours == old(retentionPeriodHours) && isRunning == old(isRunning)
      ensures intervalId == old(intervalId) && timers == old(timers) && hasOnDataDeleted == old(hasOnDataDeleted)
      ensures var cutoff := Cutoff(now, retentionPeriodHours);
              store.table.rows == Filter(old(store.table.rows), Negate(CreatedBelow(cutoff))) &&
              results.tasks == |Filter(old(store.table.rows), CreatedBelow(cutoff))| &&
              storage.entries == Logged(Swept(Swept(old(storage).entries, AudioKey(), cutoff), OcrKey(), cutoff),
                                        EntryOf(results, retentionPeriodHours))
      ensures delivered == old(delivered) + (if hasOnDataDeleted && AnyDeleted(results) then [results] else [])
      ensures results.timestamp == now
      ensures var cutoff := Cutoff(now, retentionPeriodHours);
              StorageCounts(results, old(storage).entries, cutoff) &&
              CorrectionsSwept(Prepared(old(vocab.db), old(vocab.initialized), vocab.seed, now), vocab.db, cutoff,
                               results.vocabularyCorrections)
      ensures History(storage.entries) != [] ==> History(storage.entries)[|History(storage.entries)| - 1] ==
                                                  EntryOf(results, retentionPeriodHours)
    {
      results := PerformCleanup(now, store, vocab);
      LoggedNewest(old(storage).entries, now, retentionPeriodHours, EntryOf(results, retentionPeriodHours));
    }

    /** `initialize`: a no-op while running; otherwise the interval is
        started, a first sweep runs, and the service is running. */
    method Initialize(now: int, handle: nat, store: Tasks.TaskService, vocab: Vocabulary.VocabularyService)
      returns (ghost results: Option<CleanupResults>)
      requires Valid() && store.Valid() && vocab.Valid()
      modifies this, store, vocab
      ensures Valid() && store.Valid() && vocab.Valid()
      ensures results.None? <==> old(isRunning)
      ensures old(isRunning) ==> (Settings() == old(Settings()) && storage == old(storage) &&
                                  store.table == old(store.table) && vocab.db == old(vocab.db))
      ensures !old(isRunning) ==> isRunning && intervalId == Some(handle) && timers == {handle}
      ensures retentionPeriodHours == old(retentionPeriodHours) && hasOnDataDeleted == old(hasOnDataDeleted)
      ensures results.Some? ==>
                var cutoff := Cutoff(now, retentionPeriodHours);
                vocab.initialized && results.value.timestamp == now &&
                store.table.rows == Filter(old(store.table.rows), Negate(CreatedBelow(cutoff))) &&
                results.value.tasks == |Filter(old(store.table.rows), CreatedBelow(cutoff))| &&
                storage.entries == Logged(Swept(Swept(old(storage).entries, AudioKey(), cutoff), OcrKey(), cutoff),
                                          EntryOf(results.value, retentionPeriodHours)) &&
                delivered == old(delivered) + (if hasOnDataDeleted && AnyDeleted(results.value) then [results.value] else [])
      ensures results.Some? ==>
                var cutoff := Cutoff(now, retentionPeriodHours);
                StorageCounts(results.value, old(storage).entries, cutoff) &&
                CorrectionsSwept(Prepared(old(vocab.db), old(vocab.initialized), vocab.seed, now), vocab.db, cutoff,
                                 results.value.vocabularyCorrections)
    {
      if isRunning {
        return None;
      }
      StartPeriodicCleanup(handle);
      // The first sweep is started without waiting for it; it does not
      // read `isRunning`, so it makes no difference that it is set first.
      isRunning := true;
      var r := PerformCleanup(now, store, vocab);
      results := Some(r);
    }

    /** `getNextCleanupTime`: none while stopped, else one interval on. */
    function GetNextCleanupTime(now: int): (r: Option<int>)
      reads this
      ensures r.None? <==> !isRunning
      ensures r.Some? ==> r.value == now + checkIntervalMinutes * 60 * 1000
    {
      if !isRunning then None else Some(now + checkIntervalMinutes * 60 * 1000)
    }

    /** `getCleanupHistory`. */
    function GetCleanupHistory(): (h: seq<LogEntry>)
      reads this
      ensures h == History(storage.entries)
    {
      var stored := if storage.Has(LogKey) then Some(storage.Get(LogKey)) else None;
      if stored.Some? && stored.value.List? then stored.value.entries else []
    }

    /** `getRetentionStatus`: the settings, the next sweep and the newest
        log entry. */
    function GetRetentionStatus(now: int): (s: RetentionStatus)
      reads this
      ensures s.isRunning == isRunning && s.retentionPeriodHours == retentionPeriodHours
      ensures s.nextCleanupTime.None? <==> !isRunning
      ensures s.lastCleanupResults.None? <==> GetCleanupHistory() == []
      ensures s.lastCleanupResults.Some? ==> s.lastCleanupResults.value == GetCleanupHistory()[|GetCleanupHistory()| - 1]
    {
      var h := GetCleanupHistory();
      RetentionStatus(isRunning, retentionPeriodHours, checkIntervalMinutes, GetNextCleanupTime(now),
                      if h == [] then None else Some(h[|h| - 1]))
    }

    /** `getDataAgeStatistics` at `now`, against the task store. */
    method GetDataAgeStatistics(now: int, store: Tasks.TaskService) returns (stats: DataAgeStatistics)
      requires Valid()
      ensures var cutoff := Cutoff(now, retentionPeriodHours);
              stats.tasks.total == |store.table.rows| &&
              stats.tasks.aged == |Filter(store.table.rows, CreatedBelow(cutoff))| &&
              stats.audioFiles == AgesOf(storage, AudioKey(), cutoff) &&
              stats.ocrData == AgesOf(storage, OcrKey(), cutoff)
      ensures stats.tasks.aged + stats.tasks.recent == stats.tasks.total
      ensures stats.audioFiles.aged + stats.audioFiles.recent <= stats.audioFiles.total
      ensures stats.ocrData.aged + stats.ocrData.recent <= stats.ocrData.total
    {
      var cutoff := Cutoff(now, retentionPeriodHours);
      var tasks := CountTaskAges(store.table.rows, cutoff);
      var audio := CountAges(storage, AudioKey(), cutoff);
      var ocr := CountAges(storage, OcrKey(), cutoff);
      stats := DataAgeStatistics(tasks, audio, ocr);
    }

    /** `getDataAgeStatistics` as written: reading `taskDB.tasks` throws,
        and the method returns `null`. */
    method GetDataAgeStatisticsAsWritten(now: int, store: Tasks.TaskService) returns (stats: Option<DataAgeStatistics>)
      ensures stats.None?
    {
      stats := None;
    }

    /** `updateRetentionPeriod(hours)`: refused outside [1, 168]; otherwise
        only the period changes. */
    method UpdateRetentionPeriod(hours: int) returns (ok: bool)
      requires Valid()
      modifies this
      ensures Valid()
      ensures ok <==> 1 <= hours <= 168
      ensures retentionPeriodHours == if ok then hours else old(retentionPeriodHours)
      ensures isRunning == old(isRunning) && intervalId == old(intervalId) && timers == old(timers)
      ensures hasOnDataDeleted == old(hasOnDataDeleted) && delivered == old(delivered) && storage == old(storage)
    {
      if hours < 1 || hours > 168 {
        return false;
      }
      retentionPeriodHours := hours;
      return true;
    }
  }

  /** The sweeps leave the log alone, so a logged sweep's entry is the
      newest in the history whenever the log could be written. */
  lemma LoggedNewest(entries: map<string, Item>, now: int, hours: int, entry: LogEntry)
    ensures var c := Cutoff(now, hours);
            var after := Logged(Swept(Swept(entries, AudioKey(), c), OcrKey(), c), entry);
            History(after) != [] ==> History(after)[|History(after)| - 1] == entry
  {
    KeysApart(LogKey);
  }
}
