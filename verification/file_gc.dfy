/** Which files exist when: log switches, flushes and compactions with their manifest
    writes, and DeleteObsoleteFiles (db/db_impl.cc, db/version_set.cc).  Contents are
    sets of write identifiers; a compaction is taken to keep its inputs' contents. */
module FileCollection {
  import opened InternalKeys

  type Contents = set<nat>

  /** What the manifest says: the table files, and the first log still needed. */
  datatype Manifest = Manifest(files: set<nat>, log: nat)

  datatype Edit = Edit(deleted: set<nat>, added: set<nat>, log: nat)

  /** LogAndApply of one edit: not begun, the record being written, or written. */
  datatype Logging = NotYet | WritingRecord(edit: Edit) | RecordWritten(edit: Edit)

  /** CompactMemTable, in the table being built or in LogAndApply. */
  datatype Flush = Flush(number: nat, logging: Logging)

  /** A compaction: the version it holds, its inputs, its open and closed outputs. */
  datatype Compaction = Compaction(base: set<nat>, inputs: set<nat>, outputs: set<nat>, closed: set<nat>,
                                   logging: Logging)

  /** `onDisk` is the part of each log that has been synced; `durable` are the manifests
      recovery might find, apart from a record just being written; `acked` are the writes
      that were acknowledged, `synced` those of them that asked for a sync. */
  datatype State = State(tables: map<nat, Contents>, logs: map<nat, Contents>, onDisk: map<nat, Contents>,
                         nextFile: nat,
                         current: set<nat>, logNumber: nat, durable: set<Manifest>,
                         mem: Contents, imm: Option<Contents>, logfile: nat,
                         readers: seq<set<nat>>, pending: set<nat>,
                         flush: Option<Flush>, compaction: Option<Compaction>, bgError: bool, acked: Contents,
                             synced: Contents)

  function Apply(m: Manifest, e: Edit): Manifest { Manifest(m.files - e.deleted + e.added, e.log) }

  /** Contents of the given files, of those that exist. */
  ghost function Data(tables: map<nat, Contents>, files: set<nat>): Contents {
    set f, w | f in files && f in tables && w in tables[f] :: w
  }

  ghost function LogsFrom(logs: map<nat, Contents>, first: nat): Contents {
    set k, w | k in logs && k >= first && w in logs[k] :: w
  }

  ghost function Imm(s: State): Contents { match s.imm case None => {} case Some(c) => c }

  ghost function Applied(durable: set<Manifest>, e: Edit): set<Manifest> { set m | m in durable :: Apply(m, e) }

  /** The edit whose record may have reached the disk. */
  ghost function InFlight(s: State): Logging {
    if s.flush.Some? && s.flush.value.logging != NotYet then s.flush.value.logging
    else if s.compaction.Some? then s.compaction.value.logging else NotYet
  }

  /** Every manifest that recovery might find after a crash now. */
  ghost function Possible(s: State): set<Manifest> {
    match InFlight(s)
    case NotYet => s.durable
    case WritingRecord(e) => s.durable + Applied(s.durable, e)
    case RecordWritten(e) => Applied(s.durable, e)
  }

  // ---- garbage collection ----

  ghost function Live(s: State): set<nat> {
    s.current + s.pending + (set v, f | v in s.readers && f in v :: f)
    + (if s.compaction.Some? then s.compaction.value.base else {})
  }

  /** DeleteObsoleteFiles */
  ghost function Collected(s: State): State {
    if s.bgError then s
    else s.(tables := map f | f in s.tables && f in Live(s) :: s.tables[f],
            logs := map k | k in s.logs && k >= s.logNumber :: s.logs[k],
            onDisk := map k | k in s.onDisk && k >= s.logNumber :: s.onDisk[k])
  }

  // ---- steps ----

  /** A sync reaches everything in the current log. */
  ghost predicate Write(s: State, w: nat, sync: bool, s': State) {
    && s.logfile in s.logs
    && var log := s.logs[s.logfile] + {w};
      s' == s.(mem := s.mem + {w}, logs := s.logs[s.logfile := log], acked := s.acked + {w},
               onDisk := if sync then s.onDisk[s.logfile := log] else s.onDisk,
               synced := if sync then s.synced + {w} else s.synced)
  }

  /** MakeRoomForWrite switches logs only when the last memtable has been flushed. */
  ghost predicate SwitchLog(s: State, s': State) {
    && s.imm == None
    && s' == s.(imm := Some(s.mem), mem := {}, logfile := s.nextFile, logs := s.logs[s.nextFile := {}],
                onDisk := s.onDisk[s.nextFile := {}], nextFile := s.nextFile + 1)
  }

  ghost predicate Pin(s: State, s': State) { s' == s.(readers := s.readers + [s.current]) }

  ghost predicate Unpin(s: State, i: nat, s': State) {
    i < |s.readers| && s' == s.(readers := s.readers[..i] + s.readers[i + 1..])
  }

  /** The background thread may take imm_ on its own, or in the middle of a compaction
      (where a background error is not looked at). */
  ghost predicate FlushBegins(s: State, s': State) {
    && s.imm.Some? && s.flush == None
    && (if s.compaction.Some? then s.compaction.value.logging == NotYet else !s.bgError)
    && s' == s.(flush := Some(Flush(s.nextFile, NotYet)), pending := s.pending + {s.nextFile},
                nextFile := s.nextFile + 1)
  }

  /** BuildTable has succeeded; an empty memtable leaves no file.  The edit says that
      logs before the current one are no longer needed. */
  ghost predicate FlushLogs(s: State, s': State) {
    && s.imm.Some? && s.flush.Some? && s.flush.value.logging == NotYet
    && var n, kept := s.flush.value.number, s.imm.value != {};
      s' == s.(tables := if kept then s.tables[n := s.imm.value] else s.tables, pending := s.pending - {n},
               flush := Some(Flush(n, WritingRecord(Edit({}, if kept then {n} else {}, s.logfile)))))
  }

  ghost predicate FlushFails(s: State, s': State) {
    && s.flush.Some? && s.flush.value.logging == NotYet
    && s' == s.(flush := None, pending := s.pending - {s.flush.value.number}, bgError := true)
  }

  ghost predicate FlushRecorded(s: State, ok: bool, s': State) {
    && s.flush.Some? && s.flush.value.logging.WritingRecord?
    && var e := s.flush.value.logging.edit;
      s' == if ok then s.(flush := Some(s.flush.value.(logging := RecordWritten(e))))
            else s.(flush := None, durable := s.durable + Applied(s.durable, e), bgError := true)
  }

  ghost predicate FlushInstalls(s: State, s': State) {
    && s.flush.Some? && s.flush.value.logging.RecordWritten?
    && var e := s.flush.value.logging.edit;
      s' == Collected(s.(flush := None, imm := None, durable := Applied(s.durable, e),
                         current := s.current - e.deleted + e.added, logNumber := e.log))
  }

  ghost predicate CompactionBegins(s: State, inputs: set<nat>, s': State) {
    && s.compaction == None && s.flush == None && !s.bgError && inputs <= s.current
    && s' == s.(compaction := Some(Compaction(s.current, inputs, {}, {}, NotYet)))
  }

  ghost predicate OutputOpens(s: State, s': State) {
    && s.compaction.Some? && s.flush == None && s.compaction.value.logging == NotYet
    && s' == s.(compaction := Some(s.compaction.value.(outputs := s.compaction.value.outputs + {s.nextFile})),
                pending := s.pending + {s.nextFile}, nextFile := s.nextFile + 1)
  }

  ghost predicate OutputCloses(s: State, n: nat, contents: Contents, s': State) {
    && s.compaction.Some? && s.flush == None && s.compaction.value.logging == NotYet
    && n in s.compaction.value.outputs && n !in s.compaction.value.closed
    && s' == s.(compaction := Some(s.compaction.value.(closed := s.compaction.value.closed + {n})),
                tables := s.tables[n := contents])
  }

  /** All outputs are closed and hold what the inputs held. */
  ghost predicate CompactionLogs(s: State, s': State) {
    && s.compaction.Some? && s.flush == None && s.compaction.value.logging == NotYet
    && var c := s.compaction.value;
      && c.closed == c.outputs && Data(s.tables, c.outputs) == Data(s.tables, c.inputs)
      && s' == s.(compaction := Some(c.(logging := WritingRecord(Edit(c.inputs, c.outputs, s.logNumber)))))
  }

  ghost predicate CompactionFails(s: State, s': State) {
    && s.compaction.Some? && s.flush == None && s.compaction.value.logging == NotYet
    && s' == s.(compaction := None, pending := s.pending - s.compaction.value.outputs, bgError := true)
  }

  ghost predicate CompactionRecorded(s: State, ok: bool, s': State) {
    && s.compaction.Some? && s.flush == None && s.compaction.value.logging.WritingRecord?
    && var c := s.compaction.value;
      s' == if ok then s.(compaction := Some(c.(logging := RecordWritten(c.logging.edit))))
            else s.(compaction := None, pending := s.pending - c.outputs,
                    durable := s.durable + Applied(s.durable, c.logging.edit), bgError := true)
  }

  ghost predicate CompactionInstalls(s: State, s': State) {
    && s.compaction.Some? && s.flush == None && s.compaction.value.logging.RecordWritten?
    && var c := s.compaction.value;
      s' == Collected(s.(compaction := None, pending := s.pending - c.outputs,
                         durable := Applied(s.durable, c.logging.edit),
                         current := s.current - c.inputs + c.outputs))
  }

  datatype Event =
    | Writes(w: nat, sync: bool) | Switches | Pins | Unpins(i: nat)
    | BeginsFlush | LogsFlush | FailsFlush | RecordsFlush(ok: bool) | InstallsFlush
    | BeginsCompaction(inputs: set<nat>) | OpensOutput | ClosesOutput(n: nat, contents: Contents) | LogsCompaction
    | FailsCompaction | RecordsCompaction(ok: bool) | InstallsCompaction

  ghost predicate Step(s: State, e: Event, s': State) {
    match e
    case Writes(w, sync) => Write(s, w, sync, s')
    case Switches => SwitchLog(s, s')
    case Pins => Pin(s, s')
    case Unpins(i) => Unpin(s, i, s')
    case BeginsFlush => FlushBegins(s, s')
    case LogsFlush => FlushLogs(s, s')
    case FailsFlush => FlushFails(s, s')
    case RecordsFlush(ok) => FlushRecorded(s, ok, s')
    case InstallsFlush => FlushInstalls(s, s')
    case BeginsCompaction(inputs) => CompactionBegins(s, inputs, s')
    case OpensOutput => OutputOpens(s, s')
    case ClosesOutput(n, contents) => OutputCloses(s, n, contents, s')
    case LogsCompaction => CompactionLogs(s, s')
    case FailsCompaction => CompactionFails(s, s')
    case RecordsCompaction(ok) => CompactionRecorded(s, ok, s')
    case InstallsCompaction => CompactionInstalls(s, s')
  }

  /** A new database: one empty log, and a manifest that names it. */
  ghost predicate Init(s: State) {
    s == State(map[], map[s.logfile := {}], map[s.logfile := {}], s.logfile + 1, {}, s.logfile,
               {Manifest({}, s.logfile)},
               {}, None, s.logfile, [], {}, None, None, false, {}, {})
  }

  // ---- invariants ----

  /** The logs from `first` up to the current one hold nothing but what the files or the
      memtable being flushed hold. */
  ghost predicate LogsCovered(s: State, files: set<nat>, first: nat) {
    && first <= s.logfile
    && forall k :: k in s.logs && first <= k < s.logfile ==> s.logs[k] <= Data(s.tables, files) + Imm(s)
  }

  /** A manifest from which every acknowledged write can be recovered, and from what has
      been synced every synced one. */
  ghost predicate Recoverable(s: State, m: Manifest) {
    && m.files <= s.tables.Keys
    && s.acked <= Data(s.tables, m.files) + LogsFrom(s.logs, m.log)
    && s.synced <= Data(s.tables, m.files) + LogsFrom(s.onDisk, m.log)
    && LogsCovered(s, m.files, m.log)
  }

  ghost predicate NumbersOk(s: State) {
    && (forall f :: f in s.tables ==> f < s.nextFile) && (forall f :: f in s.pending ==> f < s.nextFile)
    && (forall k :: k in s.logs ==> k <= s.logfile) && s.logfile < s.nextFile
  }

  ghost predicate DiskOk(s: State) {
    s.onDisk.Keys == s.logs.Keys && forall k :: k in s.logs ==> s.onDisk[k] <= s.logs[k]
  }

  ghost predicate MemoryOk(s: State) {
    && s.logfile in s.logs && s.mem == s.logs[s.logfile] && LogsCovered(s, s.current, s.logNumber) && DiskOk(s)
  }

  /** Files in use exist, and those being written are protected or part of the edit. */
  ghost predicate FilesOk(s: State) {
    && s.current <= s.tables.Keys && (forall i :: 0 <= i < |s.readers| ==> s.readers[i] <= s.tables.Keys)
    && (s.flush.Some? ==> FlushOk(s, s.flush.value))
    && (s.compaction.Some? ==> CompactionOk(s, s.compaction.value))
    && (s.flush.Some? && s.compaction.Some? ==>
          s.compaction.value.logging == NotYet && s.flush.value.number !in s.compaction.value.outputs)
  }

  ghost predicate FlushOk(s: State, f: Flush) {
    && s.imm.Some? && f.number < s.nextFile
    && (f.logging == NotYet ==> f.number in s.pending && f.number !in s.tables)
    && (f.logging != NotYet ==>
          var e := f.logging.edit;
          e.deleted == {} && e.added <= s.tables.Keys && e.log == s.logfile && s.imm.value <= Data(s.tables, e.added))
  }

  ghost predicate CompactionOk(s: State, c: Compaction) {
    && c.base <= s.tables.Keys && c.inputs <= c.base && c.inputs <= s.current
    && c.closed <= c.outputs <= s.pending && c.closed <= s.tables.Keys && (c.outputs - c.closed) !! s.tables.Keys
    && (c.logging != NotYet ==>
          && c.logging.edit == Edit(c.inputs, c.outputs, s.logNumber) && c.closed == c.outputs
          && Data(s.tables, c.outputs) == Data(s.tables, c.inputs))
  }

  ghost predicate DurableOk(s: State) {
    && s.durable != {} && (forall m :: m in s.durable ==> m.log >= s.logNumber && Recoverable(s, m))
    && (!s.bgError ==> s.durable == {Manifest(s.current, s.logNumber)})
    && (s.compaction.Some? || s.flush.Some? || !s.bgError ==> forall m :: m in s.durable ==> s.current <= m.files)
  }

  ghost predicate Inv(s: State) { NumbersOk(s) && MemoryOk(s) && FilesOk(s) && DurableOk(s) }

  /** Protected are exactly the table being built by a flush and the outputs of the
      compaction, and neither outlives its flush or compaction. */
  ghost predicate PendingExact(s: State) {
    forall f :: f in s.pending <==>
                  || (s.flush.Some? && s.flush.value.logging == NotYet && f == s.flush.value.number)
                  || (s.compaction.Some? && f in s.compaction.value.outputs)
  }

  // ---- contents ----

  lemma DataOfMore(tables: map<nat, Contents>, a: set<nat>, b: set<nat>)
    requires a <= b
    ensures Data(tables, a) <= Data(tables, b)
  {
  }

  lemma DataOfUnion(tables: map<nat, Contents>, a: set<nat>, b: set<nat>)
    ensures Data(tables, a + b) == Data(tables, a) + Data(tables, b)
  {
  }

  /** Replacing files by others with the same contents loses nothing. */
  lemma DataReplaced(tables: map<nat, Contents>, files: set<nat>, inputs: set<nat>, outputs: set<nat>)
    requires Data(tables, outputs) == Data(tables, inputs)
    ensures Data(tables, files) <= Data(tables, files - inputs + outputs)
  {
    DataOfUnion(tables, files - inputs, outputs);
    DataOfUnion(tables, files - inputs, files * inputs);
    assert files == (files - inputs) + (files * inputs);
    DataOfMore(tables, files * inputs, inputs);
  }

  lemma DataSame(tables: map<nat, Contents>, tables': map<nat, Contents>, files: set<nat>)
    requires forall f :: f in files ==> (f in tables <==> f in tables') && (f in tables ==> tables'[f] == tables[f])
    ensures Data(tables', files) == Data(tables, files)
  {
    forall w ensures w in Data(tables', files) <==> w in Data(tables, files) {
      if w in Data(tables, files) {
        var f :| f in files && f in tables && w in tables[f];
        assert f in tables' && w in tables'[f];
      }
      if w in Data(tables', files) {
        var f :| f in files && f in tables' && w in tables'[f];
        assert f in tables && w in tables[f];
      }
    }
  }

  lemma DataOfOne(tables: map<nat, Contents>, n: nat)
    requires n in tables
    ensures Data(tables, {n}) == tables[n]
  {
    forall w | w in tables[n] ensures w in Data(tables, {n}) { assert n in {n}; }
  }

  // ---- steps that write ----

  lemma WriteKeeps(s: State, w: nat, sync: bool, s': State)
    requires Inv(s) && Write(s, w, sync, s')
    ensures Inv(s')
  {
    hide Recoverable;
    hide Data;
    forall m | m in s.durable ensures Recoverable(s', m) { WriteRecoverable(s, w, sync, s', m); }
  }

  lemma WriteRecoverable(s: State, w: nat, sync: bool, s': State, m: Manifest)
    requires DiskOk(s) && Recoverable(s, m) && Write(s, w, sync, s')
    ensures Recoverable(s', m)
  {
    assert s.logfile in s'.logs && w in s'.logs[s.logfile];
    LogsMore(s.logs, s'.logs, m.log);
    LogsMore(s.onDisk, s'.onDisk, m.log);
    if sync { assert s.logfile in s'.onDisk && w in s'.onDisk[s.logfile]; }
    hide Data;
  }

  lemma LogsMore(logs: map<nat, Contents>, logs': map<nat, Contents>, first: nat)
    requires forall k :: k in logs ==> k in logs' && logs[k] <= logs'[k]
    ensures LogsFrom(logs, first) <= LogsFrom(logs', first)
  {
    forall v | v in LogsFrom(logs, first) ensures v in LogsFrom(logs', first) {
      var k :| k in logs && k >= first && v in logs[k];
      assert k in logs' && v in logs'[k];
    }
  }

  /** The log that has just been closed is covered by the memtable to be flushed. */
  lemma SwitchCovered(s: State, s': State, files: set<nat>, first: nat)
    requires NumbersOk(s) && s.logfile in s.logs && s.mem == s.logs[s.logfile] && SwitchLog(s, s')
             && LogsCovered(s, files, first)
    ensures LogsCovered(s', files, first)
  {
    forall k | k in s'.logs && first <= k < s'.logfile ensures s'.logs[k] <= Data(s'.tables, files) + Imm(s') {
      assert k in s.logs && k <= s.logfile && s'.logs[k] == s.logs[k];
    }
  }

  lemma SwitchKeeps(s: State, s': State)
    requires Inv(s) && SwitchLog(s, s')
    ensures Inv(s')
  {
    SwitchCovered(s, s', s.current, s.logNumber);
    forall m | m in s.durable ensures Recoverable(s', m) {
      SwitchCovered(s, s', m.files, m.log);
      LogsMore(s.logs, s'.logs, m.log);
      LogsMore(s.onDisk, s'.onDisk, m.log);
    }
  }

  lemma PinKeeps(s: State, s': State)
    requires Inv(s) && Pin(s, s')
    ensures Inv(s')
  {
    SameRecovery(s, s');
  }

  lemma UnpinKeeps(s: State, i: nat, s': State)
    requires Inv(s) && Unpin(s, i, s')
    ensures Inv(s')
  {
    SameRecovery(s, s');
  }

  /** Nothing that recovery depends on has changed. */
  lemma SameRecovery(s: State, s': State)
    requires s'.tables == s.tables && s'.logs == s.logs && s'.onDisk == s.onDisk && s'.acked == s.acked
             && s'.synced == s.synced
    requires s'.imm == s.imm && s'.logfile == s.logfile
    ensures forall m :: Recoverable(s, m) ==> Recoverable(s', m)
    ensures forall files, first :: LogsCovered(s, files, first) ==> LogsCovered(s', files, first)
  {
  }

  // ---- flushing ----

  lemma FlushBeginsKeeps(s: State, s': State)
    requires Inv(s) && FlushBegins(s, s')
    ensures Inv(s')
  {
    SameRecovery(s, s');
    hide Recoverable;
    hide LogsCovered;
  }

  lemma FlushFailsKeeps(s: State, s': State)
    requires Inv(s) && FlushFails(s, s')
    ensures Inv(s')
  {
    SameRecovery(s, s');
    hide Recoverable;
    hide LogsCovered;
  }

  /** One more table, under a new number. */
  lemma TableAdded(s: State, n: nat, c: Contents, s': State)
    requires NumbersOk(s) && n !in s.tables && s'.tables == s.tables[n := c]
    requires s'.logs == s.logs && s'.onDisk == s.onDisk && s'.acked == s.acked && s'.synced == s.synced
    requires s'.imm == s.imm && s'.logfile == s.logfile
    ensures forall files :: files <= s.tables.Keys ==> Data(s'.tables, files) == Data(s.tables, files)
    ensures forall m :: Recoverable(s, m) ==> Recoverable(s', m)
    ensures forall files, first :: files <= s.tables.Keys && LogsCovered(s, files, first) ==>
              LogsCovered(s', files, first)
  {
    forall files | files <= s.tables.Keys ensures Data(s'.tables, files) == Data(s.tables, files) {
      DataSame(s.tables, s'.tables, files);
    }
  }

  lemma FlushLogsKeeps(s: State, s': State)
    requires Inv(s) && FlushLogs(s, s')
    ensures Inv(s')
  {
    var n := s.flush.value.number;
    if s.imm.value != {} {
      TableAdded(s, n, s.imm.value, s');
      DataOfOne(s'.tables, n);
    } else {
      SameRecovery(s, s');
    }
    hide Recoverable;
    hide LogsCovered;
    hide Data;
  }

  /** Nothing in an older log is beyond what the files and the memtable being flushed hold. */
  lemma LogsGivenUp(s: State, logs: map<nat, Contents>, m: Manifest, files: set<nat>)
    requires LogsCovered(s, m.files, m.log) && DiskOk(s) && (logs == s.logs || logs == s.onDisk)
    requires Data(s.tables, m.files) + Imm(s) <= Data(s.tables, files) && forall k :: k in s.logs ==> k <= s.logfile
    ensures LogsFrom(logs, m.log) <= Data(s.tables, files) + LogsFrom(logs, s.logfile)
  {
    forall w | w in LogsFrom(logs, m.log) ensures w in Data(s.tables, files) + LogsFrom(logs, s.logfile) {
      var k :| k in logs && k >= m.log && w in logs[k];
      assert w in s.logs[k];
      assert k < s.logfile ==> s.logs[k] <= Data(s.tables, m.files) + Imm(s);
    }
  }

  /** The table holds all that the logs before the current one still had to keep. */
  lemma FlushEditRecovers(s: State, e: Edit, m: Manifest)
    requires Recoverable(s, m) && e.deleted == {} && e.added <= s.tables.Keys && e.log == s.logfile
    requires Imm(s) <= Data(s.tables, e.added) && DiskOk(s) && forall k :: k in s.logs ==> k <= s.logfile
    ensures Recoverable(s, Apply(m, e))
  {
    DataOfUnion(s.tables, m.files, e.added);
    var files := m.files + e.added;
    assert Apply(m, e).files == files;
    LogsGivenUp(s, s.logs, m, files);
    LogsGivenUp(s, s.onDisk, m, files);
    hide Data;
    hide LogsFrom;
  }

  lemma FlushRecordedKeeps(s: State, ok: bool, s': State)
    requires Inv(s) && FlushRecorded(s, ok, s')
    ensures Inv(s')
  {
    SameRecovery(s, s');
    var e := s.flush.value.logging.edit;
    forall m | m in s.durable ensures Recoverable(s, Apply(m, e)) { FlushEditRecovers(s, e, m); }
    hide Recoverable;
    hide LogsCovered;
    hide Data;
  }

  /** After the record is durable: the new version, before garbage collection. */
  ghost function FlushInstalled(s: State): State
    requires s.flush.Some? && s.flush.value.logging.RecordWritten?
  {
    var e := s.flush.value.logging.edit;
    s.(flush := None, imm := None, durable := Applied(s.durable, e),
       current := s.current - e.deleted + e.added, logNumber := e.log)
  }

  lemma FlushInstalledKeeps(s: State)
    requires Inv(s) && s.flush.Some? && s.flush.value.logging.RecordWritten?
    ensures Inv(FlushInstalled(s))
  {
    hide Recoverable;
    hide LogsCovered;
    hide Data;
    var e, t := s.flush.value.logging.edit, FlushInstalled(s);
    FlushInstalledRecovers(s);
    var m0 :| m0 in s.durable;
    assert Apply(m0, e) in t.durable;
    NothingToCover(t, t.current, t.logNumber);
  }

  lemma FlushInstalledRecovers(s: State)
    requires Inv(s) && s.flush.Some? && s.flush.value.logging.RecordWritten?
    ensures var t := FlushInstalled(s);
            forall m :: m in t.durable ==> Recoverable(t, m) && m.log == t.logNumber && t.current <= m.files
  {
    hide LogsFrom;
    hide Data;
    var e, t := s.flush.value.logging.edit, FlushInstalled(s);
    forall m | m in t.durable ensures Recoverable(t, m) && m.log == t.logNumber && t.current <= m.files {
      var m0 :| m0 in s.durable && m == Apply(m0, e);
      FlushEditRecovers(s, e, m0);
      NothingToCover(t, m.files, m.log);
    }
  }

  lemma NothingToCover(s: State, files: set<nat>, first: nat)
    requires first == s.logfile
    ensures LogsCovered(s, files, first)
  {
  }

  lemma CollectedRecovers(s: State, m: Manifest)
    requires !s.bgError && Recoverable(s, m) && m.files <= Live(s) && m.log == s.logNumber
    ensures Recoverable(Collected(s), m)
  {
    var t := Collected(s);
    DataSame(s.tables, t.tables, m.files);
    SameFrom(s.logs, t.logs, m.log);
    SameFrom(s.onDisk, t.onDisk, m.log);
    hide Data;
    hide LogsFrom;
  }

  lemma SameFrom(logs: map<nat, Contents>, logs': map<nat, Contents>, first: nat)
    requires forall k :: k in logs && k >= first ==> k in logs' && logs'[k] == logs[k]
    ensures LogsFrom(logs, first) <= LogsFrom(logs', first)
  {
    forall w | w in LogsFrom(logs, first) ensures w in LogsFrom(logs', first) {
      var k :| k in logs && k >= first && w in logs[k];
      assert k in logs' && w in logs'[k];
    }
  }

  /** DeleteObsoleteFiles deletes no file of a live version or being written, and no log
      that recovery still needs. */
  lemma CollectedKeeps(s: State)
    requires Inv(s) && s.flush == None && (s.compaction.Some? ==> s.compaction.value.logging == NotYet)
    ensures Inv(Collected(s))
    ensures forall f :: f in s.tables && f in Live(s) ==>
              f in Collected(s).tables && Collected(s).tables[f] == s.tables[f]
    ensures s.logfile in Collected(s).logs
  {
    if !s.bgError {
      var t := Collected(s);
      CollectedRecovers(s, Manifest(s.current, s.logNumber));
      assert LogsCovered(t, t.current, t.logNumber);
      forall i | 0 <= i < |s.readers| ensures s.readers[i] <= t.tables.Keys {
        forall f | f in s.readers[i] ensures f in Live(s) {}
      }
      hide Recoverable;
      hide LogsCovered;
      hide Data;
    }
  }

  lemma FlushInstallsKeeps(s: State, s': State)
    requires Inv(s) && FlushInstalls(s, s')
    ensures Inv(s')
  {
    FlushInstalledKeeps(s);
    CollectedKeeps(FlushInstalled(s));
  }

  // ---- compacting ----

  lemma CompactionBeginsKeeps(s: State, inputs: set<nat>, s': State)
    requires Inv(s) && CompactionBegins(s, inputs, s')
    ensures Inv(s')
  {
    SameRecovery(s, s');
    hide Recoverable;
    hide LogsCovered;
    hide Data;
  }

  lemma OutputOpensKeeps(s: State, s': State)
    requires Inv(s) && OutputOpens(s, s')
    ensures Inv(s')
  {
    SameRecovery(s, s');
    hide Recoverable;
    hide LogsCovered;
    hide Data;
  }

  lemma OutputClosesKeeps(s: State, n: nat, c: Contents, s': State)
    requires Inv(s) && OutputCloses(s, n, c, s')
    ensures Inv(s')
  {
    TableAdded(s, n, c, s');
    hide Recoverable;
    hide LogsCovered;
    hide Data;
  }

  lemma CompactionLogsKeeps(s: State, s': State)
    requires Inv(s) && CompactionLogs(s, s')
    ensures Inv(s')
  {
    SameRecovery(s, s');
    hide Recoverable;
    hide LogsCovered;
    hide Data;
  }

  lemma CompactionFailsKeeps(s: State, s': State)
    requires Inv(s) && CompactionFails(s, s')
    ensures Inv(s')
  {
    SameRecovery(s, s');
    hide Recoverable;
    hide LogsCovered;
    hide Data;
  }

  /** The outputs stand in for the inputs, and no log is given up. */
  lemma CompactionEditRecovers(s: State, e: Edit, m: Manifest)
    requires Recoverable(s, m) && s.current <= m.files && m.log >= s.logNumber && LogsCovered(s, s.current, s.logNumber)
    requires e.log == s.logNumber && e.added <= s.tables.Keys && Data(s.tables, e.added) == Data(s.tables, e.deleted)
    ensures Recoverable(s, Apply(m, e))
  {
    DataReplaced(s.tables, m.files, e.deleted, e.added);
    DataOfMore(s.tables, s.current, m.files);
    MoreLogs(s.logs, m.log, e.log);
    MoreLogs(s.onDisk, m.log, e.log);
    hide LogsFrom;
  }

  lemma MoreLogs(logs: map<nat, Contents>, first: nat, earlier: nat)
    requires earlier <= first
    ensures LogsFrom(logs, first) <= LogsFrom(logs, earlier)
  {
    forall w | w in LogsFrom(logs, first) ensures w in LogsFrom(logs, earlier) {
      var k :| k in logs && k >= first && w in logs[k];
    }
  }

  lemma CompactionRecordedKeeps(s: State, ok: bool, s': State)
    requires Inv(s) && CompactionRecorded(s, ok, s')
    ensures Inv(s')
  {
    SameRecovery(s, s');
    var e := s.compaction.value.logging.edit;
    forall m | m in s.durable ensures Recoverable(s, Apply(m, e)) { CompactionEditRecovers(s, e, m); }
    hide Recoverable;
    hide LogsCovered;
    hide Data;
  }

  ghost function CompactionInstalled(s: State): State
    requires s.compaction.Some? && s.compaction.value.logging.RecordWritten?
  {
    var c := s.compaction.value;
    s.(compaction := None, pending := s.pending - c.outputs, durable := Applied(s.durable, c.logging.edit),
       current := s.current - c.inputs + c.outputs)
  }

  lemma CompactionInstalledKeeps(s: State)
    requires Inv(s) && s.flush == None && s.compaction.Some? && s.compaction.value.logging.RecordWritten?
    ensures Inv(CompactionInstalled(s))
  {
    hide Recoverable;
    hide LogsCovered;
    hide Data;
    hide Possible;
    var c, t := s.compaction.value, CompactionInstalled(s);
    CompactionInstalledRecovers(s);
    CompactionInstalledCovers(s);
    var m0 :| m0 in s.durable;
    assert Apply(m0, c.logging.edit) in t.durable;
  }

  lemma CompactionInstalledRecovers(s: State)
    requires Inv(s) && s.flush == None && s.compaction.Some? && s.compaction.value.logging.RecordWritten?
    ensures var t := CompactionInstalled(s);
            forall m :: m in t.durable ==> Recoverable(t, m) && m.log == t.logNumber && t.current <= m.files
  {
    hide Recoverable;
    hide LogsCovered;
    hide Data;
    var e, t := s.compaction.value.logging.edit, CompactionInstalled(s);
    SameRecovery(s, t);
    forall m | m in t.durable ensures Recoverable(t, m) && m.log == t.logNumber && t.current <= m.files {
      var m0 :| m0 in s.durable && m == Apply(m0, e);
      CompactionEditRecovers(s, e, m0);
    }
  }

  lemma CompactionInstalledCovers(s: State)
    requires LogsCovered(s, s.current, s.logNumber) && s.compaction.Some? && s.compaction.value.logging.RecordWritten?
    requires var c := s.compaction.value; Data(s.tables, c.outputs) == Data(s.tables, c.inputs)
    ensures var t := CompactionInstalled(s); LogsCovered(t, t.current, t.logNumber)
  {
    var c := s.compaction.value;
    DataReplaced(s.tables, s.current, c.inputs, c.outputs);
    hide Data;
  }

  lemma CompactionInstallsKeeps(s: State, s': State)
    requires Inv(s) && CompactionInstalls(s, s')
    ensures Inv(s')
  {
    CompactionInstalledKeeps(s);
    CollectedKeeps(CompactionInstalled(s));
  }

  // ---- every run ----

  lemma InitInv(s: State)
    requires Init(s)
    ensures Inv(s) && PendingExact(s)
  {
  }

  lemma StepKeeps(s: State, e: Event, s': State)
    requires Inv(s) && Step(s, e, s')
    ensures Inv(s')
  {
    hide Inv;
    match e
    case Writes(w, sync) => WriteKeeps(s, w, sync, s');
    case Switches => SwitchKeeps(s, s');
    case Pins => PinKeeps(s, s');
    case Unpins(i) => UnpinKeeps(s, i, s');
    case BeginsFlush => FlushBeginsKeeps(s, s');
    case LogsFlush => FlushLogsKeeps(s, s');
    case FailsFlush => FlushFailsKeeps(s, s');
    case RecordsFlush(ok) => FlushRecordedKeeps(s, ok, s');
    case InstallsFlush => FlushInstallsKeeps(s, s');
    case BeginsCompaction(inputs) => CompactionBeginsKeeps(s, inputs, s');
    case OpensOutput => OutputOpensKeeps(s, s');
    case ClosesOutput(n, contents) => OutputClosesKeeps(s, n, contents, s');
    case LogsCompaction => CompactionLogsKeeps(s, s');
    case FailsCompaction => CompactionFailsKeeps(s, s');
    case RecordsCompaction(ok) => CompactionRecordedKeeps(s, ok, s');
    case InstallsCompaction => CompactionInstallsKeeps(s, s');
  }

  ghost predicate Run(states: seq<State>, events: seq<Event>) {
    && |states| == |events| + 1 && Init(states[0])
    && forall i :: 0 <= i < |events| ==> Step(states[i], events[i], states[i + 1])
  }

  lemma {:induction false} RunKeeps(states: seq<State>, events: seq<Event>, n: nat)
    requires Run(states, events) && n < |states|
    ensures Inv(states[n]) && PendingExact(states[n])
  {
    hide Inv;
    hide PendingExact;
    hide Step;
    if n == 0 {
      InitInv(states[0]);
    } else {
      RunKeeps(states, events, n - 1);
      StepKeeps(states[n - 1], events[n - 1], states[n]);
      StepKeepsPending(states[n - 1], events[n - 1], states[n]);
    }
  }

  lemma StepKeepsPending(s: State, e: Event, s': State)
    requires Inv(s) && PendingExact(s) && Step(s, e, s')
    ensures PendingExact(s')
  {
    hide PendingExact;
    hide Step;
    hide MemoryOk;
    hide DurableOk;
    hide NumbersOk;
    PendingFollows(s, e, s');
  }

  lemma PendingFollows(s: State, e: Event, s': State)
    requires s.flush.Some? && s.compaction.Some? ==> s.flush.value.number !in s.compaction.value.outputs
    requires PendingExact(s) && Step(s, e, s')
    ensures PendingExact(s')
  {
    hide Data;
    hide Applied;
    CollectedPending();
    hide Collected;
  }

  lemma CollectedPending()
    ensures forall s :: Collected(s).pending == s.pending && Collected(s).flush == s.flush
                        && Collected(s).compaction == s.compaction
  {
    hide Live;
  }

  /** A file of the current version, of a version a reader holds, or of the running
      compaction: one of its version or a closed output. */
  ghost predicate InUse(s: State, f: nat) {
    || f in s.current || (exists v :: v in s.readers && f in v)
    || (s.compaction.Some? && (f in s.compaction.value.base || f in s.compaction.value.closed))
  }

  /** Installing a new version without a background error leaves exactly the table files
      of the current version, of versions readers hold and of the running compaction with
      its closed outputs, and exactly the logs from the log number on; after an error all
      files stay. */
  lemma InstallCollects(s: State, e: Event, s': State)
    requires Inv(s) && PendingExact(s) && Step(s, e, s') && (e.InstallsFlush? || e.InstallsCompaction?)
    ensures s'.bgError == s.bgError
    ensures !s.bgError ==> forall f :: f in s'.tables <==> InUse(s', f)
    ensures forall f :: f in s'.tables ==> f in s.tables && s'.tables[f] == s.tables[f]
    ensures !s.bgError ==>
              && (forall k :: k in s'.logs <==> k in s.logs && k >= s'.logNumber)
              && (forall k :: k in s'.onDisk <==> k in s.onDisk && k >= s'.logNumber)
    ensures forall k :: k in s'.logs ==> k in s.logs && s'.logs[k] == s.logs[k]
    ensures forall k :: k in s'.onDisk ==> k in s.onDisk && s'.onDisk[k] == s.onDisk[k]
    ensures s.bgError ==> s'.tables == s.tables && s'.logs == s.logs && s'.onDisk == s.onDisk
  {
    hide Inv;
    hide PendingExact;
    hide Step;
    hide InUse;
    StepKeeps(s, e, s');
    StepKeepsPending(s, e, s');
    LogsLeft(s, e, s');
    if !s.bgError { OnlyUsedLeft(s, e, s'); }
    forall f | InUse(s', f) ensures f in s'.tables { FilesInUseExist(s', f); }
  }

  lemma OnlyUsedLeft(s: State, e: Event, s': State)
    requires Inv(s) && Inv(s') && PendingExact(s') && Step(s, e, s')
    requires (e.InstallsFlush? || e.InstallsCompaction?) && !s.bgError
    ensures forall f :: f in s'.tables ==> InUse(s', f)
  {
    hide MemoryOk;
    hide DurableOk;
    hide Applied;
  }

  lemma LogsLeft(s: State, e: Event, s': State)
    requires Step(s, e, s') && (e.InstallsFlush? || e.InstallsCompaction?)
    ensures s'.bgError == s.bgError
    ensures forall f :: f in s'.tables ==> f in s.tables && s'.tables[f] == s.tables[f]
    ensures !s.bgError ==>
              && (forall k :: k in s'.logs <==> k in s.logs && k >= s'.logNumber)
              && (forall k :: k in s'.onDisk <==> k in s.onDisk && k >= s'.logNumber)
    ensures forall k :: k in s'.logs ==> k in s.logs && s'.logs[k] == s.logs[k]
    ensures forall k :: k in s'.onDisk ==> k in s.onDisk && s'.onDisk[k] == s.onDisk[k]
    ensures s.bgError ==> s'.tables == s.tables && s'.logs == s.logs && s'.onDisk == s.onDisk
  {
  }

  /** What a crash of the machine may leave of the logs: at least what was synced. */
  ghost predicate LeftByCrash(s: State, left: map<nat, Contents>) {
    forall k :: k in s.onDisk ==> k in left && s.onDisk[k] <= left[k]
  }

  /** A crash of the process at any moment, also in the middle of a manifest write, loses
      no acknowledged write: whatever manifest recovery finds, its files exist, and they
      and the logs it still reads hold everything.  A crash of the machine, which may also
      take what was not synced of any log, loses no synced write. */
  lemma NothingIsLost(s: State, m: Manifest)
    requires Inv(s) && m in Possible(s)
    ensures m.files <= s.tables.Keys
    ensures s.acked <= Data(s.tables, m.files) + LogsFrom(s.logs, m.log)
    ensures s.synced <= Data(s.tables, m.files) + LogsFrom(s.onDisk, m.log)
    ensures forall left: map<nat, Contents> :: LeftByCrash(s, left) ==>
              s.synced <= Data(s.tables, m.files) + LogsFrom(left, m.log)
  {
    forall left | LeftByCrash(s, left)
      ensures LogsFrom(s.onDisk, m.log) <= LogsFrom(left, m.log)
    { LogsMore(s.onDisk, left, m.log); }
    if m !in s.durable {
      var e := InFlight(s).edit;
      var m0 :| m0 in s.durable && m == Apply(m0, e);
      if s.flush.Some? && s.flush.value.logging != NotYet {
        FlushEditRecovers(s, e, m0);
      } else {
        CompactionEditRecovers(s, e, m0);
      }
    }
  }

  /** Files in use exist. */
  lemma FilesInUseExist(s: State, f: nat)
    requires Inv(s) && InUse(s, f)
    ensures f in s.tables
  {
    if v :| v in s.readers && f in v {
      var i :| 0 <= i < |s.readers| && s.readers[i] == v;
    }
  }

  /** The log numbers in the edits never go back, as LogAndApply asserts. */
  lemma LogNumbersAscend(s: State)
    requires Inv(s) && InFlight(s) != NotYet
    ensures s.logNumber <= InFlight(s).edit.log < s.nextFile
  {
  }
}
