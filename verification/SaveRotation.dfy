/** World-save loading, rotation and crash recovery (state.rs).

    A save file is seen through the JSON reader: its length, and what parsing gives.
    The disk holds the primary save, its backup, the temporary file and quarantined
    evidence. Every file operation is one step; a process crash or an I/O error may
    fall between any two. */
module SaveRotation {
  import opened Wrappers

  // ----- What a file can hold

  const MAX_SAVE_BYTES := 16 * 1024 * 1024
  const OLDEST_SUPPORTED_SAVE_SCHEMA_VERSION := 1
  const CURRENT_SAVE_SCHEMA_VERSION := 2
  const CURRENT_GENERATOR_VERSION := 1

  /** The world data a save carries, identified by a number. */
  datatype SaveData = SaveData(world: int)

  datatype Field = Missing | NotUnsigned | Unsigned(value: nat)

  /** A parsed JSON value: its two version fields, and the SaveData it converts to, if it does. */
  datatype Json = Json(version: Field, generatorVersion: Field, data: Option<SaveData>)

  datatype Bytes = Bytes(length: nat, json: Option<Json>)

  /** Irregular: a directory, or anything that cannot be opened or inspected. */
  datatype File = Absent | Irregular | Regular(bytes: Bytes)

  datatype Disk = Disk(primary: File, backup: File, temporary: File, quarantined: seq<File>)

  // ----- Reading

  predicate ValidSaveVersion(value: Json) {
    match value.version
    case Unsigned(version) =>
      && OLDEST_SUPPORTED_SAVE_SCHEMA_VERSION <= version <= CURRENT_SAVE_SCHEMA_VERSION
      && (match value.generatorVersion
          case Missing => version == 1
          case NotUnsigned => false
          case Unsigned(generator) => generator <= CURRENT_GENERATOR_VERSION)
    case _ => false
  }

  datatype ReadResult = Read(bytes: Bytes) | NotFound | ReadFailed

  function ReadBoundedSave(file: File): ReadResult {
    match file
    case Absent => NotFound
    case Irregular => ReadFailed
    case Regular(bytes) => if bytes.length > MAX_SAVE_BYTES then ReadFailed else Read(bytes)
  }

  function DecodeSave(bytes: Bytes): Option<SaveData> {
    if bytes.length > MAX_SAVE_BYTES || bytes.json.None? || !ValidSaveVersion(bytes.json.value) then None
    else bytes.json.value.data
  }

  datatype Loaded = Fresh | Save(data: SaveData) | Refused

  function LoadBackup(backup: File, missing: Loaded): Loaded {
    match ReadBoundedSave(backup)
    case Read(bytes) => (match DecodeSave(bytes) case Some(data) => Save(data) case None => Refused)
    case NotFound => missing
    case ReadFailed => Refused
  }

  function LoadSaveFile(primary: File, backup: File): Loaded {
    match ReadBoundedSave(primary)
    case Read(bytes) =>
      if bytes.json.Some? && !ValidSaveVersion(bytes.json.value) then Refused
      else if bytes.json.Some? && bytes.json.value.data.Some? then Save(bytes.json.value.data.value)
      else LoadBackup(backup, Refused)
    case NotFound => LoadBackup(backup, Fresh)
    case ReadFailed => Refused
  }

  function Load(disk: Disk): Loaded {
    LoadSaveFile(disk.primary, disk.backup)
  }

  /** The save a file holds by itself. */
  function Usable(file: File): Option<SaveData> {
    match ReadBoundedSave(file)
    case Read(bytes) => DecodeSave(bytes)
    case _ => None
  }

  // ----- What loading gives, by the class of the files

  /** Schema 1 or 2; generator 0 or 1, which schema 1 may leave out. */
  predicate Supported(value: Json) {
    && value.version in {Unsigned(1), Unsigned(2)}
    && (|| value.generatorVersion in {Unsigned(0), Unsigned(1)}
        || (value.generatorVersion == Missing && value.version == Unsigned(1)))
  }

  // A regular file of at most 16 MiB.
  predicate Readable(file: File) {
    file.Regular? && file.bytes.length <= 0x100_0000
  }

  predicate Incompatible(file: File) {
    Readable(file) && file.bytes.json.Some? && !Supported(file.bytes.json.value)
  }

  // Not JSON, or of a supported version but without a world.
  predicate Corrupt(file: File) {
    && Readable(file)
    && (file.bytes.json.None? || (Supported(file.bytes.json.value) && file.bytes.json.value.data.None?))
  }

  predicate Holds(file: File, data: SaveData) {
    && Readable(file) && file.bytes.json.Some? && Supported(file.bytes.json.value)
    && file.bytes.json.value.data == Some(data)
  }

  /** Loading is refused for a primary that cannot be read, or has an unsupported version, whatever the backup;
      and for a missing or corrupt one without a usable backup, unless neither file was ever written. */
  predicate Refusing(disk: Disk) {
    || (!disk.primary.Absent? && !Readable(disk.primary))
    || Incompatible(disk.primary)
    || ((disk.primary.Absent? || Corrupt(disk.primary))
        && !(disk.primary.Absent? && disk.backup.Absent?)
        && (disk.backup.Absent? || !Readable(disk.backup) || Incompatible(disk.backup) || Corrupt(disk.backup)))
  }

  lemma SupportedVersions(value: Json)
    ensures ValidSaveVersion(value) <==> Supported(value)
  {
  }

  lemma UsableFiles(file: File, data: SaveData)
    ensures Usable(file) == Some(data) <==> Holds(file, data)
    ensures Usable(file).None? <==>
      file.Absent? || (!file.Absent? && !Readable(file)) || Incompatible(file) || Corrupt(file)
  {
    hide ValidSaveVersion, Supported;
    if file.Regular? && file.bytes.json.Some? {
      SupportedVersions(file.bytes.json.value);
    }
  }

  /** What loading gives, for any two files. */
  lemma LoadingByClass(disk: Disk, data: SaveData)
    ensures Load(disk) == Refused <==> Refusing(disk)
    ensures Load(disk) == Fresh <==> disk.primary.Absent? && disk.backup.Absent?
    ensures Load(disk) == Save(data) <==>
      || Holds(disk.primary, data)
      || ((disk.primary.Absent? || Corrupt(disk.primary)) && Holds(disk.backup, data))
  {
    hide ValidSaveVersion, Supported;
    if disk.primary.Regular? && disk.primary.bytes.json.Some? {
      SupportedVersions(disk.primary.bytes.json.value);
    }
    if disk.backup.Regular? && disk.backup.bytes.json.Some? {
      SupportedVersions(disk.backup.bytes.json.value);
    }
  }

  // The same, for every save at once.
  lemma LoadingRefused(disk: Disk)
    ensures Load(disk) == Refused <==> Refusing(disk)
  {
    LoadingByClass(disk, SaveData(0));
  }

  /** The quarantine test of write_world_save agrees with the fallback test of
      load_save_file: an undecodable primary that loading tolerates has a usable backup. */
  lemma QuarantineImpliesUsableBackup(disk: Disk, bytes: Bytes)
    requires Load(disk) != Refused
    requires ReadBoundedSave(disk.primary) == Read(bytes) && DecodeSave(bytes).None?
    ensures Usable(disk.backup).Some? && Load(disk) == Save(Usable(disk.backup).value)
  {
  }

  // ----- Writing, one file operation at a time

  datatype Phase =
    | Begin    // entered, nothing touched
    | Ready    // the primary is loadable or absent
    | Opened   // the temporary file is open and incomplete
    | Synced   // the temporary file is complete
    | Cleared  // the old backup is gone, the primary still in place
    | Rotated  // no primary; the previous save, if any, is the backup
    | Undone   // the final rename failed
    | Done     // committed
    | Failed   // an error was returned

  datatype Point = Point(phase: Phase, disk: Disk)

  predicate FileStep(bytes: Bytes, a: Point, b: Point) {
    var d := a.disk;
    match (a.phase, b.phase)
    case (Begin, Ready) =>
      && bytes.length <= MAX_SAVE_BYTES
      && Load(d) != Refused
      && (match ReadBoundedSave(d.primary)
          case Read(primary) =>
            if DecodeSave(primary).None?
            then b.disk == d.(primary := Absent, quarantined := d.quarantined + [d.primary])
            else b.disk == d
          case NotFound => b.disk == d
          case ReadFailed => false)
    case (Ready, Opened) => b.disk.temporary.Regular? && b.disk == d.(temporary := b.disk.temporary)
    case (Opened, Opened) => b.disk.temporary.Regular? && b.disk == d.(temporary := b.disk.temporary)
    case (Opened, Synced) => b.disk == d.(temporary := Regular(bytes))
    case (Synced, Cleared) => !d.primary.Absent? && b.disk == d.(backup := Absent)
    case (Synced, Rotated) => d.primary.Absent? && b.disk == d
    case (Cleared, Rotated) => b.disk == d.(backup := d.primary, primary := Absent)
    case (Rotated, Done) => b.disk == d.(primary := d.temporary, temporary := Absent)
    case (Rotated, Undone) => b.disk == d
    case (Undone, Failed) =>
      || b.disk == d
      || (!d.backup.Absent? && d.primary.Absent? && b.disk == d.(primary := d.backup, backup := Absent))
    case (Begin, Failed) => b.disk == d
    case (Ready, Failed) => b.disk == d
    case (Opened, Failed) => b.disk == d
    case (Synced, Failed) => b.disk == d
    case (Cleared, Failed) => b.disk == d
    case _ => false
  }

  ghost predicate IsWriteTrace(bytes: Bytes, trace: seq<Point>) {
    && |trace| > 0
    && forall i, j :: 0 <= i && j == i + 1 < |trace| ==> FileStep(bytes, trace[i], trace[j])
  }

  lemma Record(bytes: Bytes, trace: seq<Point>, next: Point) returns (longer: seq<Point>)
    requires IsWriteTrace(bytes, trace) && FileStep(bytes, trace[|trace| - 1], next)
    ensures longer == trace + [next] && IsWriteTrace(bytes, longer)
    ensures trace <= longer && longer[|longer| - 1] == next
  {
    hide FileStep;
    longer := trace + [next];
  }

  // The steps atomic_write can take from a disk.

  lemma FailingIsStep(bytes: Bytes, phase: Phase, d: Disk)
    requires phase in {Begin, Ready, Opened, Synced, Cleared}
    ensures FileStep(bytes, Point(phase, d), Point(Failed, d))
  {
    hide Load;
  }

  lemma WritingIsStep(bytes: Bytes, phase: Phase, d: Disk, written: Bytes)
    requires phase in {Ready, Opened}
    ensures FileStep(bytes, Point(phase, d), Point(Opened, d.(temporary := Regular(written))))
    ensures FileStep(bytes, Point(Opened, d), Point(Synced, d.(temporary := Regular(bytes))))
  {
    hide Load;
  }

  lemma RotatingIsStep(bytes: Bytes, d: Disk)
    ensures d.primary.Absent? ==> FileStep(bytes, Point(Synced, d), Point(Rotated, d))
    ensures !d.primary.Absent? ==> FileStep(bytes, Point(Synced, d), Point(Cleared, d.(backup := Absent)))
    ensures FileStep(bytes, Point(Cleared, d), Point(Rotated, d.(backup := d.primary, primary := Absent)))
  {
    hide Load;
  }

  lemma CommittingIsStep(bytes: Bytes, d: Disk)
    ensures FileStep(bytes, Point(Rotated, d), Point(Done, d.(primary := d.temporary, temporary := Absent)))
    ensures FileStep(bytes, Point(Rotated, d), Point(Undone, d))
    ensures FileStep(bytes, Point(Undone, d), Point(Failed, d))
    ensures !d.backup.Absent? && d.primary.Absent? ==>
      FileStep(bytes, Point(Undone, d), Point(Failed, d.(primary := d.backup, backup := Absent)))
  {
    hide Load;
  }

  /** Which file operations of one save fail, if they are reached, and how far a failing write comes. */
  datatype Faults = Faults(load: bool, quarantine: bool, open: bool, write: bool, partial: Bytes, sync: bool,
                           remove: bool, rotate: bool, commit: bool, restore: bool)
  {
    predicate StopTemporary(temporary: File) {
      temporary.Irregular? || open || write || sync
    }

    predicate StopRotation(primary: File, backup: File) {
      !primary.Absent? && ((!backup.Absent? && remove) || rotate)
    }

    /** Some file operation on the way to a completed save fails. */
    predicate Stop(disk: Disk) {
      || load
      || (Corrupt(disk.primary) && quarantine)
      || StopTemporary(disk.temporary)
      || StopRotation(if Corrupt(disk.primary) then Absent else disk.primary, disk.backup)
      || commit
    }
  }

  /** The directory a save path lives in; each operation may fail with an I/O error. */
  class SaveDirectory {
    var disk: Disk

    constructor (initial: Disk)
      ensures disk == initial
    {
      disk := initial;
    }

    // Opens, fills and syncs the temporary file.
    method WriteTemporary(bytes: Bytes, faults: Faults, ghost before: seq<Point>)
      returns (ok: bool, ghost trace: seq<Point>)
      requires IsWriteTrace(bytes, before) && before[|before| - 1] == Point(Ready, disk)
      modifies this
      ensures IsWriteTrace(bytes, trace) && before <= trace
      ensures trace[|trace| - 1] == Point(if ok then Synced else Failed, disk)
      ensures ok <==> !faults.StopTemporary(old(disk).temporary)
      ensures disk == old(disk).(temporary :=
        if old(disk).temporary.Irregular? || faults.open then old(disk).temporary
        else if faults.write then Regular(faults.partial)
        else Regular(bytes))
    {
      hide FileStep, IsWriteTrace;
      ok, trace := false, before;
      if disk.temporary.Irregular? || faults.open {
        FailingIsStep(bytes, Ready, disk);
        trace := Record(bytes, trace, Point(Failed, disk));
        return;
      }
      WritingIsStep(bytes, Ready, disk, Bytes(0, None));
      disk := disk.(temporary := Regular(Bytes(0, None)));
      trace := Record(bytes, trace, Point(Opened, disk));
      var written := if faults.write then faults.partial else bytes;
      WritingIsStep(bytes, Opened, disk, written);
      disk := disk.(temporary := Regular(written));
      trace := Record(bytes, trace, Point(Opened, disk));
      if faults.write || faults.sync {
        FailingIsStep(bytes, Opened, disk);
        trace := Record(bytes, trace, Point(Failed, disk));
        return;
      }
      WritingIsStep(bytes, Opened, disk, bytes);
      trace := Record(bytes, trace, Point(Synced, disk));
      ok := true;
    }

    // Makes the primary, if there is one, the backup.
    method Rotate(bytes: Bytes, faults: Faults, ghost before: seq<Point>) returns (ok: bool, ghost trace: seq<Point>)
      requires IsWriteTrace(bytes, before) && before[|before| - 1] == Point(Synced, disk)
      modifies this
      ensures IsWriteTrace(bytes, trace) && before <= trace
      ensures trace[|trace| - 1] == Point(if ok then Rotated else Failed, disk)
      ensures ok <==> !faults.StopRotation(old(disk).primary, old(disk).backup)
      ensures var was := old(disk);
        disk == if was.primary.Absent? || (!was.backup.Absent? && faults.remove) then was
                else if faults.rotate then was.(backup := Absent)
                else was.(primary := Absent, backup := was.primary)
    {
      hide FileStep, IsWriteTrace;
      ok, trace := false, before;
      RotatingIsStep(bytes, disk);
      if !disk.primary.Absent? {
        if !disk.backup.Absent? {
          if faults.remove {
            FailingIsStep(bytes, Synced, disk);
            trace := Record(bytes, trace, Point(Failed, disk));
            return;
          }
          disk := disk.(backup := Absent);
        }
        trace := Record(bytes, trace, Point(Cleared, disk));
        if faults.rotate {
          FailingIsStep(bytes, Cleared, disk);
          trace := Record(bytes, trace, Point(Failed, disk));
          return;
        }
        RotatingIsStep(bytes, disk);
        disk := disk.(backup := disk.primary, primary := Absent);
      }
      trace := Record(bytes, trace, Point(Rotated, disk));
      ok := true;
    }

    // Renames the temporary file to the primary, or tries to put the backup back.
    method Commit(bytes: Bytes, faults: Faults, ghost before: seq<Point>) returns (ok: bool, ghost trace: seq<Point>)
      requires IsWriteTrace(bytes, before) && before[|before| - 1] == Point(Rotated, disk)
      modifies this
      ensures IsWriteTrace(bytes, trace) && before <= trace
      ensures trace[|trace| - 1] == Point(if ok then Done else Failed, disk)
      ensures ok <==> !faults.commit
      ensures var was := old(disk);
        disk == if ok then was.(primary := was.temporary, temporary := Absent)
                else if !was.backup.Absent? && was.primary.Absent? && !faults.restore
                then was.(primary := was.backup, backup := Absent)
                else was
    {
      hide FileStep, IsWriteTrace;
      ok, trace := false, before;
      CommittingIsStep(bytes, disk);
      if faults.commit {
        trace := Record(bytes, trace, Point(Undone, disk));
        if !disk.backup.Absent? && disk.primary.Absent? && !faults.restore {
          disk := disk.(primary := disk.backup, backup := Absent);
        }
        trace := Record(bytes, trace, Point(Failed, disk));
        return;
      }
      disk := disk.(primary := disk.temporary, temporary := Absent);
      trace := Record(bytes, trace, Point(Done, disk));
      ok := true;
    }

    method AtomicWrite(bytes: Bytes, faults: Faults, ghost before: seq<Point>)
      returns (ok: bool, ghost trace: seq<Point>)
      requires IsWriteTrace(bytes, before) && before[|before| - 1] == Point(Ready, disk)
      modifies this
      ensures IsWriteTrace(bytes, trace) && before <= trace
      ensures trace[|trace| - 1] == Point(if ok then Done else Failed, disk)
      ensures ok <==>
        && !faults.StopTemporary(old(disk).temporary) && !faults.StopRotation(old(disk).primary, old(disk).backup)
        && !faults.commit
      ensures ok ==>
        var previous := if old(disk).primary.Absent? then old(disk).backup else old(disk).primary;
        disk == old(disk).(primary := Regular(bytes), backup := previous, temporary := Absent)
      // A final rename that fails leaves the new save aside; the previous one is put back where that succeeds.
      ensures (&& faults.commit && !faults.StopTemporary(old(disk).temporary)
               && !faults.StopRotation(old(disk).primary, old(disk).backup)) ==>
        var previous := if old(disk).primary.Absent? then old(disk).backup else old(disk).primary;
        disk == old(disk).(primary := if faults.restore then Absent else previous,
                           backup := if faults.restore then previous else Absent, temporary := Regular(bytes))
    {
      hide FileStep, IsWriteTrace;
      ok, trace := WriteTemporary(bytes, faults, before);
      if ok {
        ok, trace := Rotate(bytes, faults, trace);
        if ok {
          ok, trace := Commit(bytes, faults, trace);
        }
      }
    }

    method WriteWorldSave(bytes: Bytes, faults: Faults) returns (ok: bool, ghost trace: seq<Point>)
      modifies this
      // Every file operation is a step of the protocol.
      ensures IsWriteTrace(bytes, trace) && trace[0] == Point(Begin, old(disk))
      ensures trace[|trace| - 1] == Point(if ok then Done else Failed, disk)
      // It succeeds unless loading is refused, the save is oversized, or an operation on the way fails.
      ensures ok <==> !Refusing(old(disk)) && bytes.length <= 0x100_0000 && !faults.Stop(old(disk))
      ensures Refusing(old(disk)) || bytes.length > 0x100_0000 ==> disk == old(disk)
      // Success leaves the new save in place and the previous loadable one as the backup.
      ensures ok ==> disk.primary == Regular(bytes) && disk.temporary == Absent
      ensures ok ==> var was := old(disk);
        disk.backup == if was.primary.Absent? || Corrupt(was.primary) then was.backup else was.primary
      // A corrupt primary is kept as evidence.
      ensures ok ==> var was := old(disk);
        disk.quarantined == was.quarantined + (if Corrupt(was.primary) then [was.primary] else [])
    {
      LoadingRefused(disk);
      UsableFiles(disk.primary, SaveData(0));
      ok, trace := false, [Point(Begin, disk)];
      if bytes.length > MAX_SAVE_BYTES || faults.load || Load(disk) == Refused {
        trace := Record(bytes, trace, Point(Failed, disk));
        return;
      }
      match ReadBoundedSave(disk.primary) {
        case Read(primary) =>
          if DecodeSave(primary).None? {
            if faults.quarantine {
              trace := Record(bytes, trace, Point(Failed, disk));
              return;
            }
            disk := disk.(primary := Absent, quarantined := disk.quarantined + [disk.primary]);
          }
        case NotFound =>
        case ReadFailed =>
          trace := Record(bytes, trace, Point(Failed, disk));
          return;
      }
      trace := Record(bytes, trace, Point(Ready, disk));
      ok, trace := AtomicWrite(bytes, faults, trace);
    }
  }

  // ----- One write: where a crash leaves the world

  ghost function TraceLog(bytes: Bytes, point: Point, log: seq<SaveData>): seq<SaveData>
    requires DecodeSave(bytes).Some?
  {
    if point.phase.Done? then log + [DecodeSave(bytes).value] else log
  }

  /** A crash after any file operation of a write leaves exactly what loading gave
      before it, or, once the final rename happened, exactly the new save. */
  lemma {:induction false} CrashPointLoads(bytes: Bytes, trace: seq<Point>, k: nat)
    requires IsWriteTrace(bytes, trace) && trace[0].phase.Begin? && DecodeSave(bytes).Some?
    requires k < |trace|
    ensures Load(trace[k].disk) ==
      if trace[k].phase.Done? then Save(DecodeSave(bytes).value) else Load(trace[0].disk)
  {
    TraceKeepsInv(bytes, trace, k);
  }

  lemma InitialPointInv(bytes: Bytes, point: Point)
    requires point.phase.Begin? && DecodeSave(bytes).Some?
    ensures var (log, refused) := (InitialLog(point.disk), Load(point.disk) == Refused);
      MachineInv(Machine(point.disk, Some(point.phase), bytes, TraceLog(bytes, point, log), refused))
  {
  }

  lemma {:induction false} TraceKeepsInv(bytes: Bytes, trace: seq<Point>, k: nat)
    requires IsWriteTrace(bytes, trace) && trace[0].phase.Begin? && DecodeSave(bytes).Some?
    requires k < |trace|
    ensures var (log, refused) := (InitialLog(trace[0].disk), Load(trace[0].disk) == Refused);
      MachineInv(Machine(trace[k].disk, Some(trace[k].phase), bytes, TraceLog(bytes, trace[k], log), refused))
  {
    hide MachineInv;
    if k == 0 {
      InitialPointInv(bytes, trace[0]);
    } else {
      TraceKeepsInv(bytes, trace, k - 1);
      var (log, refused) := (InitialLog(trace[0].disk), Load(trace[0].disk) == Refused);
      StepKeepsInv(
        Machine(trace[k - 1].disk, Some(trace[k - 1].phase), bytes, TraceLog(bytes, trace[k - 1], log), refused),
        Machine(trace[k].disk, Some(trace[k].phase), bytes, TraceLog(bytes, trace[k], log), refused));
    }
  }

  // ----- Runs: saves, crashes, restarts and damage to the primary at rest

  /** log: the committed saves still held to be readable, oldest first;
      refused: whether loading is held to fail. */
  datatype Machine = Machine(disk: Disk, running: Option<Phase>, bytes: Bytes, log: seq<SaveData>, refused: bool)

  function Expected(m: Machine): Loaded {
    if m.refused then Refused
    else if m.log == [] then Fresh
    else Save(m.log[|m.log| - 1])
  }

  function InitialLog(disk: Disk): seq<SaveData> {
    (if Usable(disk.backup).Some? then [Usable(disk.backup).value] else [])
    + (if Usable(disk.primary).Some? then [Usable(disk.primary).value] else [])
  }

  ghost predicate Init(m: Machine) {
    && m.running.None?
    && m.refused == Refusing(m.disk)
    && m.log == InitialLog(m.disk)
  }

  ghost predicate StartsSave(m: Machine, m': Machine) {
    && m.running.None?
    && DecodeSave(m'.bytes).Some?  // encode_save writes loadable saves
    && m' == m.(running := Some(Begin), bytes := m'.bytes)
  }

  ghost predicate WritesFile(m: Machine, m': Machine) {
    && m.running.Some? && m'.running.Some?
    && FileStep(m.bytes, Point(m.running.value, m.disk), Point(m'.running.value, m'.disk))
    && m' == m.(disk := m'.disk, running := m'.running,
                log := if m'.running.value.Done? && DecodeSave(m.bytes).Some?
                       then m.log + [DecodeSave(m.bytes).value] else m.log)
  }

  // A crash at any point, or the return of a finished save; the process then restarts or goes on.
  ghost predicate Stops(m: Machine, m': Machine) {
    m.running.Some? && m' == m.(running := None)
  }

  // The primary is lost or corrupted at rest.
  ghost predicate Damages(m: Machine, m': Machine) {
    && m.running.None?
    && (m'.disk.primary.Absent? || Corrupt(m'.disk.primary))
    && m'.disk == m.disk.(primary := m'.disk.primary)
    && m'.running == m.running && m'.bytes == m.bytes
    && (if Usable(m.disk.backup).None? then
          m'.log == [] && m'.refused == !(m'.disk.primary.Absent? && m.disk.backup.Absent?)
        else
          && !m'.refused
          && m'.log == if Usable(m.disk.primary).Some? && m.log != [] then m.log[..|m.log| - 1] else m.log)
  }

  ghost predicate Next(m: Machine, m': Machine) {
    StartsSave(m, m') || WritesFile(m, m') || Stops(m, m') || Damages(m, m')
  }

  ghost predicate IsRun(run: seq<Machine>) {
    && |run| > 0
    && Init(run[0])
    && forall i, j :: 0 <= i && j == i + 1 < |run| ==> Next(run[i], run[j])
  }

  // Where the saves of the log are on disk: the newest in the primary and the one
  // before it in the backup, or the newest in the backup.
  predicate Placed(disk: Disk, log: seq<SaveData>) {
    match (Usable(disk.primary), Usable(disk.backup))
    case (Some(newest), Some(spare)) => |log| >= 2 && log[|log| - 1] == newest && log[|log| - 2] == spare
    case (Some(newest), None) => |log| >= 1 && log[|log| - 1] == newest
    case (None, Some(spare)) => |log| >= 1 && log[|log| - 1] == spare
    case (None, None) => log == []
  }

  predicate PhaseInv(phase: Phase, bytes: Bytes, disk: Disk, log: seq<SaveData>) {
    match phase
    case Begin => true
    case Failed => true
    case Ready => Usable(disk.primary).Some? || disk.primary.Absent?
    case Opened => Usable(disk.primary).Some? || disk.primary.Absent?
    case Synced => (Usable(disk.primary).Some? || disk.primary.Absent?) && disk.temporary == Regular(bytes)
    case Cleared => Usable(disk.primary).Some? && disk.backup.Absent? && disk.temporary == Regular(bytes)
    case Rotated => disk.primary.Absent? && disk.temporary == Regular(bytes)
    case Undone => disk.primary.Absent?
    case Done => |log| >= 2 ==> Usable(disk.backup) == Some(log[|log| - 2])
  }

  predicate MachineInv(m: Machine) {
    && Load(m.disk) == Expected(m)
    && Placed(m.disk, m.log)
    && (m.running.Some? ==> DecodeSave(m.bytes).Some? && PhaseInv(m.running.value, m.bytes, m.disk, m.log))
    && (m.running.Some? && !m.running.value.Begin? && !m.running.value.Failed? ==> !m.refused)
  }

  lemma InitKeepsInv(m: Machine)
    requires Init(m)
    ensures MachineInv(m)
  {
    LoadingRefused(m.disk);
    hide Refusing;
  }

  lemma StartKeepsInv(m: Machine, m': Machine)
    requires MachineInv(m) && StartsSave(m, m')
    ensures MachineInv(m')
  {
    hide Load, Placed, Usable;
  }

  lemma StopKeepsInv(m: Machine, m': Machine)
    requires MachineInv(m) && Stops(m, m')
    ensures MachineInv(m')
  {
    hide Load, Placed, DecodeSave, Usable;
  }

  lemma WriteKeepsInv(m: Machine, m': Machine)
    requires MachineInv(m) && WritesFile(m, m')
    ensures MachineInv(m')
  {
  }

  lemma DamageKeepsInv(m: Machine, m': Machine)
    requires MachineInv(m) && Damages(m, m')
    ensures MachineInv(m')
  {
  }

  lemma StepKeepsInv(m: Machine, m': Machine)
    requires MachineInv(m) && Next(m, m')
    ensures MachineInv(m')
  {
    hide MachineInv, StartsSave, WritesFile, Stops, Damages;
    if StartsSave(m, m') {
      StartKeepsInv(m, m');
    } else if WritesFile(m, m') {
      WriteKeepsInv(m, m');
    } else if Stops(m, m') {
      StopKeepsInv(m, m');
    } else {
      DamageKeepsInv(m, m');
    }
  }

  lemma {:induction false} RunKeepsInv(run: seq<Machine>, k: nat)
    requires IsRun(run) && k < |run|
    ensures MachineInv(run[k])
  {
    if k == 0 {
      InitKeepsInv(run[0]);
    } else {
      hide MachineInv, Next, Init;
      RunKeepsInv(run, k - 1);
      StepKeepsInv(run[k - 1], run[k]);
    }
  }

  /** Over every run of saves, crashes, restarts and damage to the primary at rest,
      loading gives the last committed save (or nothing, before the first one). */
  lemma CrashSafety(run: seq<Machine>, k: nat)
    requires IsRun(run) && k < |run|
    ensures Load(run[k].disk) == Expected(run[k])
  {
    RunKeepsInv(run, k);
  }

  /** Losing or corrupting the primary at rest never reaches further back than the save
      before the last one, and does so exactly when the backup is usable. */
  lemma DamageLosesAtMostOneSave(run: seq<Machine>, k: nat, after: Machine)
    requires IsRun(run) && k < |run| && Damages(run[k], after)
    ensures Usable(run[k].disk.backup).Some? <==> Load(after.disk).Save?
    ensures Load(after.disk).Save? ==>
      var log := run[k].log;
      || (|log| >= 1 && Load(after.disk).data == log[|log| - 1])
      || (|log| >= 2 && Load(after.disk).data == log[|log| - 2])
  {
    RunKeepsInv(run, k);
  }

  // The machine at a point of a write.
  ghost function MachineAt(m: Machine, bytes: Bytes, point: Point): Machine
    requires DecodeSave(bytes).Some?
  {
    Machine(point.disk, Some(point.phase), bytes, TraceLog(bytes, point, m.log), m.refused)
  }

  /** Every trace of a save, as WriteWorldSave leaves one, is such a run from wherever it began. */
  lemma SaveIsRun(m: Machine, bytes: Bytes, trace: seq<Point>)
    requires m == Machine(m.disk, None, m.bytes, InitialLog(m.disk), Refusing(m.disk)) && DecodeSave(bytes).Some?
    requires IsWriteTrace(bytes, trace) && trace[0] == Point(Begin, m.disk)
    ensures IsRun([m] + seq(|trace|, k requires 0 <= k < |trace| => MachineAt(m, bytes, trace[k])))
  {
    hide Load, Refusing, DecodeSave, InitialLog;
    var run := [m] + seq(|trace|, k requires 0 <= k < |trace| => MachineAt(m, bytes, trace[k]));
    forall i, j | 0 <= i && j == i + 1 < |run| ensures Next(run[i], run[j]) {
      if i == 0 {
        assert StartsSave(run[0], run[1]);
      } else {
        assert FileStep(bytes, trace[i - 1], trace[j - 1]);
        assert WritesFile(run[i], run[j]);
      }
    }
  }

  // ----- How long the replaced save stays recoverable

  // A failed final rename put the backup back in the primary's place.
  ghost predicate RestoresBackup(m: Machine, m': Machine) {
    WritesFile(m, m') && m.running == Some(Undone) && !m.disk.backup.Absent? && m'.disk.backup.Absent?
  }

  // A step that takes the backup away: a later save removes it, or it goes back to being the primary.
  ghost predicate TakesBackup(m: Machine, m': Machine) {
    m'.running == Some(Cleared) || RestoresBackup(m, m')
  }

  // No step from k to n takes the backup away.
  ghost predicate BackupLeft(run: seq<Machine>, k: nat, n: nat)
    requires k <= n < |run|
  {
    forall i, j :: k <= i && j == i + 1 <= n ==> !TakesBackup(run[i], run[j])
  }

  lemma StepLeavesBackup(m: Machine, m': Machine)
    requires Next(m, m') && m.running != Some(Cleared) && !TakesBackup(m, m')
    ensures m'.disk.backup == m.disk.backup && m'.running != Some(Cleared)
  {
    hide Load, DecodeSave, Usable;
  }

  lemma {:induction false} BackupStays(run: seq<Machine>, k: nat, n: nat)
    requires IsRun(run) && k <= n < |run| && run[k].running != Some(Cleared) && BackupLeft(run, k, n)
    ensures run[n].disk.backup == run[k].disk.backup && run[n].running != Some(Cleared)
  {
    hide TakesBackup, Next, Init;
    if k < n {
      BackupStays(run, k, n - 1);
      assert Next(run[n - 1], run[n]) && !TakesBackup(run[n - 1], run[n]);
      StepLeavesBackup(run[n - 1], run[n]);
    }
  }

  lemma CompletedSaveLeavesSpare(run: seq<Machine>, k: nat)
    requires IsRun(run) && k < |run| && run[k].running == Some(Done) && |run[k].log| >= 2
    ensures Usable(run[k].disk.backup) == Some(run[k].log[|run[k].log| - 2])
  {
    hide IsRun, Load, Usable, Placed, DecodeSave;
    RunKeepsInv(run, k);
  }

  lemma DamageFallsBack(m: Machine, after: Machine)
    requires Damages(m, after)
    ensures Usable(m.disk.backup).Some? ==> Load(after.disk) == Save(Usable(m.disk.backup).value)
    ensures Usable(m.disk.backup).None? ==>
      Load(after.disk) == if after.disk.primary.Absent? && m.disk.backup.Absent? then Fresh else Refused
  {
  }

  /** From a completed save over an existing one, whatever runs, crashes and restarts follow, the file of the
      replaced save stays the backup and damage to the primary recovers exactly it, until a later save removes
      the backup or a failed final rename puts it back in the primary's place. */
  lemma CompletedSaveIsBackedUp(run: seq<Machine>, k: nat, n: nat, after: Machine)
    requires IsRun(run) && k <= n < |run| && run[k].running == Some(Done) && |run[k].log| >= 2
    requires BackupLeft(run, k, n)
    ensures run[n].disk.backup == run[k].disk.backup
    ensures Usable(run[n].disk.backup) == Some(run[k].log[|run[k].log| - 2])
    ensures Damages(run[n].(running := None), after) ==> Load(after.disk) == Save(run[k].log[|run[k].log| - 2])
  {
    hide *;
    BackupStays(run, k, n);
    CompletedSaveLeavesSpare(run, k);
    if Damages(run[n].(running := None), after) {
      DamageFallsBack(run[n].(running := None), after);
    }
  }

  /** In the two windows a step that takes the backup away opens, damage to the primary loses every save. */
  lemma WindowLosesEverySave(run: seq<Machine>, k: nat, n: nat, after: Machine)
    requires IsRun(run) && k + 1 == n < |run| && TakesBackup(run[k], run[n])
    requires Damages(run[n].(running := None), after)
    ensures !Load(after.disk).Save?
  {
    RunKeepsInv(run, n);
    hide IsRun;
    DamageFallsBack(run[n].(running := None), after);
    hide Load, Damages;
  }

  /** While loading is refused, no step of a save changes any file. */
  lemma RefusedSaveChangesNothing(run: seq<Machine>, k: nat, next: Machine)
    requires IsRun(run) && k < |run| && Refusing(run[k].disk) && WritesFile(run[k], next)
    ensures next.disk == run[k].disk && next.running == Some(Failed)
  {
    LoadingRefused(run[k].disk);
    hide Refusing;
    RunKeepsInv(run, k);
  }
}
