/** The offline restore as a sequence of file steps that may fail or be the
    last thing the process does (internal/backup/restore.go,
    recovery_state.go, restore_marker.go).

    A data directory carries the fate of the coming steps. Every method returns
    at once when the process dies, so what a method ensures about a crashed
    outcome holds of the disk between any two of its steps. */
module Restore {
  import opened Bytes
  import opened Wrappers
  import opened Payload
  import opened Rows
  import opened Rekey

  const FORMAT_VERSION: int := 1
  const RESTORE_MARKER_KEY: string := "restore_backup_id"

  type Path = string

  /** A file that is being written is torn until the writer is done. */
  datatype DbFile = Torn | Whole(db: Database)

  datatype Stage = Snapshot | Candidate | Rekeyed | SwitchReady | Switched

  /** restore-state.json: the fields that decide anything. */
  datatype RecoveryState = RecoveryState(
    stage: Stage,
    backupId: Text,
    presnapshot: Option<Path>,
    hasCandidatePath: bool,
    emptyTarget: bool)

  /** What extraction yields: whether 7-Zip opens it under the passphrase,
      whether the tree matches the manifest, and the manifest itself. */
  datatype Archive = Archive(
    opens: bool,
    intact: bool,
    formatVersion: int,
    schemaVersion: int,
    backupId: Text,
    snapshot: Database,
    masterKey: Text)

  datatype Attempt = Attempt(
    archive: Archive,
    passphraseUsable: bool,
    targetKey: Text,
    maxKnownSchema: int,
    presnapshotName: Path,
    nonceFor: nat -> Nonce)

  /** What happens when the next step is taken. */
  datatype Fate = Done | Fails | Dies

  datatype Code =
    | DataDirLocked | PassphraseInvalid | ArchiveInvalid | FormatUnsupported | SchemaTooNew
    | InsufficientSpace | TargetKeyInvalid | PresnapshotFailed | RekeyFailed | MigrateFailed
    | VerifyFailed | SwitchFailed | RolledBack | Internal | StateUnreadable

  datatype Outcome =
    | Restored(backupId: Text, report: Option<Report>, resumed: bool, presnapshot: Option<Path>)
    | Failed(stage: string, code: Code)
    | Crashed

  /** `readRestoreMarker`: the empty text when there is no marker row. */
  function Marker(db: Database): Text {
    if RESTORE_MARKER_KEY in db.systemState then db.systemState[RESTORE_MARKER_KEY] else []
  }

  /** `stampRestoreMarker`: an upsert of one system_state row. */
  function Stamp(db: Database, backupId: Text): Database {
    db.(systemState := db.systemState[RESTORE_MARKER_KEY := backupId])
  }

  /** db is the complete candidate built from the archive for this key. */
  ghost predicate BuiltFrom(aead: Aead, archive: Archive, targetKey: Text, db: Database) {
    exists rekeyed ::
      && RekeyOf(aead, archive.masterKey, targetKey, archive.snapshot, rekeyed)
      && db == Stamp(rekeyed, archive.backupId)
  }

  lemma StampKeepsPayloads(aead: Aead, key: Text, db: Database, backupId: Text)
    requires Readable(aead, key, db)
    ensures Readable(aead, key, Stamp(db, backupId))
    ensures Marker(Stamp(db, backupId)) == backupId
  {
    var s := Stamp(db, backupId);
    forall id | id in s.items ensures CurrentPlain(aead, key, s, id).Some? {
      assert CurrentPlain(aead, key, s, id) == CurrentPlain(aead, key, db, id);
    }
    forall v | v in s.versions ensures ArchivedPlain(aead, key, s, v).Some? {
      assert ArchivedPlain(aead, key, s, v) == ArchivedPlain(aead, key, db, v);
    }
  }

  /** A built candidate is readable under its key and carries its archive's id. */
  lemma BuiltIsVerified(aead: Aead, archive: Archive, targetKey: Text, db: Database)
    requires BuiltFrom(aead, archive, targetKey, db)
    ensures Readable(aead, targetKey, db)
    ensures Marker(db) == archive.backupId
    ensures db.users == archive.snapshot.users && db.sessions == {} && db.loginAttempts == {} && db.idempotencyKeys == {}
    ensures db.items.Keys == archive.snapshot.items.Keys && db.versions.Keys == archive.snapshot.versions.Keys
    ensures forall id :: id in db.items ==>
              CurrentPlain(aead, targetKey, db, id) == CurrentPlain(aead, archive.masterKey, archive.snapshot, id)
    ensures db.systemState == archive.snapshot.systemState[RESTORE_MARKER_KEY := archive.backupId]
  {
    var rekeyed :|
      && RekeyOf(aead, archive.masterKey, targetKey, archive.snapshot, rekeyed)
      && db == Stamp(rekeyed, archive.backupId);
    RekeyedIsReadable(aead, archive.masterKey, targetKey, archive.snapshot, rekeyed);
    StampKeepsPayloads(aead, targetKey, rekeyed, archive.backupId);
  }

  class DataDir {
    const aead: Aead
    var live: Option<Database>
    var candidate: Option<DbFile>
    var presnapshots: map<Path, DbFile>
    var state: Option<RecoveryState>
    var fates: seq<Fate>

    /** The live database before anything was restored, the one before the
        attempt that the recovery state belongs to, and every archive that an
        attempt has presented. */
    ghost const origin: Option<Database>
    ghost var baseline: Option<Database>
    ghost var presented: set<Archive>

    constructor (aead: Aead, live: Option<Database>, presnapshots: map<Path, DbFile>)
      requires aead.Correct()
      ensures this.aead == aead && this.live == live && this.presnapshots == presnapshots
      ensures origin == live && presented == {} && state == None && fates == []
      ensures Inv()
    {
      this.aead := aead;
      this.live := live;
      this.candidate := None;
      this.presnapshots := presnapshots;
      this.state := None;
      this.fates := [];
      this.origin := live;
      this.baseline := live;
      this.presented := {};
    }

    // ----- what always holds -----

    /** A complete, rekeyed, verified candidate of a presented archive, stamped
        with this backup id. */
    ghost predicate Good(db: Database, backupId: Text)
      reads this`presented
    {
      exists a, k :: a in presented && a.backupId == backupId && BuiltFrom(aead, a, k, db)
    }

    ghost predicate SomeGood(db: Database)
      reads this`presented
    {
      exists b :: Good(db, b)
    }

    ghost predicate Held(db: Database)
      reads this`presnapshots
    {
      exists p :: p in presnapshots && presnapshots[p] == Whole(db)
    }

    /** The old database, or absent for an empty target, or a complete candidate. */
    ghost predicate OldOrGood(db: Option<Database>)
      reads this`presented
    {
      db == origin || (db.Some? && SomeGood(db.value))
    }

    /** The baseline can be brought back from what the state records. */
    ghost predicate Kept(st: RecoveryState)
      reads this`presnapshots, this`baseline
    {
      if baseline.Some? then
        && !st.emptyTarget
        && st.presnapshot.Some?
        && st.presnapshot.value in presnapshots
        && presnapshots[st.presnapshot.value] == Whole(baseline.value)
      else
        st.emptyTarget && st.presnapshot.None?
    }

    ghost predicate Pending(st: RecoveryState)
      reads this`live, this`candidate, this`presnapshots, this`baseline, this`presented
    {
      && st.stage == SwitchReady
      && st.hasCandidatePath
      && candidate.Some? && candidate.value.Whole?
      && Good(candidate.value.db, st.backupId)
      && live == baseline
      && Kept(st)
    }

    ghost predicate InPlace(st: RecoveryState)
      reads this`live, this`presnapshots, this`baseline, this`presented
    {
      live.Some? && Good(live.value, st.backupId) && Kept(st)
    }

    /** Rolled back, or the candidate was discarded, but the state is still there. */
    ghost predicate Undone(st: RecoveryState)
      reads this`live, this`candidate, this`presnapshots, this`baseline
    {
      && live == baseline
      && (st.stage == SwitchReady ==> st.hasCandidatePath && candidate.None?)
      && if baseline.Some? then
           && !st.emptyTarget
           && st.presnapshot.Some?
           && (st.presnapshot.value in presnapshots ==> presnapshots[st.presnapshot.value] == Whole(baseline.value))
         else
           st.emptyTarget && st.presnapshot.None?
    }

    ghost predicate SwitchedOrUndone(st: RecoveryState)
      reads this`live, this`candidate, this`presnapshots, this`baseline, this`presented
    {
      || (InPlace(st) && (st.stage == SwitchReady ==> st.hasCandidatePath && candidate.None?))
      || Undone(st)
    }

    ghost predicate StateInv(st: RecoveryState)
      reads this`live, this`candidate, this`presnapshots, this`baseline, this`presented
    {
      if st.stage == SwitchReady || st.stage == Switched then
        Pending(st) || SwitchedOrUndone(st)
      else
        live == baseline && Kept(st)
    }

    ghost predicate Inv()
      reads this
    {
      && aead.Correct()
      && match state
         case None =>
           && OldOrGood(live)
           && (origin.Some? ==> live == origin || Held(origin.value))
         case Some(st) =>
           && OldOrGood(baseline)
           && (origin.Some? ==> baseline == origin || Held(origin.value))
           && (exists a :: a in presented && a.backupId == st.backupId)
           && StateInv(st)
    }

    /** The live database is complete, and the old contents are never lost. */
    ghost predicate Safe()
      reads this
    {
      && OldOrGood(live)
      && (origin.Some? ==> live == origin || Held(origin.value))
    }

    lemma InvIsSafe()
      requires Inv()
      ensures Safe()
    {
    }

    /** No presented archive carries an id that the old database already has
        as its marker. */
    ghost predicate FreshIds()
      reads this`presented
    {
      origin.Some? ==> forall a :: a in presented ==> Marker(origin.value) != a.backupId
    }

    // ----- steps -----

    method Tick() returns (f: Fate)
      modifies this`fates
      ensures old(fates) == [] ==> f == Done && fates == []
      ensures old(fates) != [] ==> f == old(fates)[0] && fates == old(fates)[1..]
    {
      if fates == [] {
        return Done;
      }
      f := fates[0];
      fates := fates[1..];
    }

    /** The state file is replaced by renaming a complete temporary over it. */
    method WriteRecoveryState(st: RecoveryState) returns (f: Fate)
      modifies this`fates, this`state
      ensures old(fates) == [] ==> f == Done && fates == []
      ensures state == if f == Done then Some(st) else old(state)
    {
      f := Tick();
      if f == Done {
        state := Some(st);
      }
    }

    /** Best effort: a failed removal is not reported. */
    method RemoveRecoveryState() returns (f: Fate)
      modifies this`fates, this`state
      ensures old(fates) == [] ==> f == Done && fates == []
      ensures old(fates) == [Dies] ==> f == Dies && fates == []
      ensures state == if f == Done then None else old(state)
    {
      f := Tick();
      if f == Done {
        state := None;
      }
    }

    method RemoveCandidate() returns (f: Fate)
      modifies this`fates, this`candidate
      ensures old(fates) == [] ==> f == Done && fates == []
      ensures candidate == if f == Done then None else old(candidate)
    {
      f := Tick();
      if f == Done {
        candidate := None;
      }
    }

    /** Atomic rename of the candidate over the live database. */
    method RenameCandidateToLive() returns (f: Fate)
      requires candidate.Some? && candidate.value.Whole?
      modifies this`fates, this`candidate, this`live
      ensures old(fates) == [] ==> f == Done && fates == []
      ensures f == Done ==> candidate == None && live == Some(old(candidate).value.db)
      ensures f != Done ==> candidate == old(candidate) && live == old(live)
    {
      f := Tick();
      if f == Done {
        live := Some(candidate.value.db);
        candidate := None;
      }
    }

    /** Atomic rename of a pre-snapshot over the live database; it fails when
        the pre-snapshot is gone. */
    method RenamePresnapshotToLive(p: Path) returns (f: Fate)
      requires p in presnapshots ==> presnapshots[p].Whole?
      modifies this`fates, this`presnapshots, this`live
      ensures old(fates) == [] ==> fates == [] && f == (if p in old(presnapshots) then Done else Fails)
      ensures old(fates) == [Done, Dies] && p in old(presnapshots) ==> f == Done && fates == [Dies]
      ensures f == Done ==> p in old(presnapshots) && live == Some(old(presnapshots)[p].db) && presnapshots == old(presnapshots) - {p}
      ensures f != Done ==> presnapshots == old(presnapshots) && live == old(live)
    {
      f := Tick();
      if f == Done {
        if p !in presnapshots {
          return Fails;
        }
        live := Some(presnapshots[p].db);
        presnapshots := presnapshots - {p};
      }
    }

    ghost method Present(archive: Archive)
      requires Inv()
      modifies this`presented
      ensures Inv() && presented == old(presented) + {archive}
      ensures forall db, b :: old(Good(db, b)) ==> Good(db, b)
    {
      ghost var before := presented;
      presented := presented + {archive};
      assert forall db, b :: old(Good(db, b)) ==> Good(db, b);
      assert forall db :: old(SomeGood(db)) ==> SomeGood(db);
    }

    // ----- post-switch check and rollback -----

    /** Opens, migrates and verifies the live database and compares its marker. */
    method PostSwitchCheck(targetKey: Text, backupId: Text) returns (f: Fate)
      requires live.Some?
      modifies this`fates
      ensures f == Done ==> Readable(aead, targetKey, live.value) && Marker(live.value) == backupId
      ensures old(fates) == [] ==>
                && fates == []
                && f == (if Readable(aead, targetKey, live.value) && Marker(live.value) == backupId then Done else Fails)
    {
      f := Tick();
      if f != Done {
        return f;
      }
      var ok := VerifyCandidate(aead, targetKey, live.value);
      if !ok || Marker(live.value) != backupId {
        return Fails;
      }
      return Done;
    }

    /** The pre-snapshot goes back over the switched database; an empty target
        is cleared, and a failure to clear it is ignored. */
    method UndoSwitch(st: RecoveryState) returns (f: Fate)
      requires Inv() && state == Some(st)
      requires (st.stage == SwitchReady || st.stage == Switched) && SwitchedOrUndone(st)
      modifies this`fates, this`live, this`presnapshots
      ensures old(fates) == [Done, Done, Dies] && !st.emptyTarget && st.presnapshot.value in old(presnapshots) ==>
                f == Done && live == baseline && fates == [Dies] && st.presnapshot.value !in presnapshots
      ensures presnapshots.Keys <= old(presnapshots).Keys
      ensures Inv()
      ensures f == Done ==> Safe()
      ensures live == old(live) || live == baseline
      ensures old(fates) == [] && (st.emptyTarget || st.presnapshot.value in old(presnapshots)) ==>
                f == Done && live == baseline && fates == []
      ensures !st.emptyTarget && st.presnapshot.value !in old(presnapshots) ==>
                f != Done && live == old(live) && presnapshots == old(presnapshots)
    {
      hide BuiltFrom, Good, RekeyOf;
      f := Tick();  // the live database's sidecars; failures are ignored
      if f == Dies {
        return f;
      }
      if st.emptyTarget {
        f := Tick();
        if f == Done {
          live := None;
        }
        f := if f == Dies then Dies else Done;
      } else if st.presnapshot.Some? {
        ghost var holder := st.presnapshot.value;
        if origin.Some? && baseline != origin {
          holder :| holder in presnapshots && presnapshots[holder] == Whole(origin.value);
        }
        f := RenamePresnapshotToLive(st.presnapshot.value);
        assert origin.Some? && baseline != origin ==> holder in presnapshots && presnapshots[holder] == Whole(origin.value);
      }
    }

    method RollbackRestore(st: RecoveryState) returns (o: Outcome)
      requires Inv() && state == Some(st)
      requires (st.stage == SwitchReady || st.stage == Switched) && SwitchedOrUndone(st)
      modifies this`fates, this`live, this`presnapshots, this`state
      ensures old(fates) == [Done, Done, Dies] && !st.emptyTarget && st.presnapshot.value in old(presnapshots) ==>
                o == Crashed && live == baseline && state == old(state) && st.presnapshot.value !in presnapshots
      ensures presnapshots.Keys <= old(presnapshots).Keys
      ensures Inv()
      ensures !o.Restored?
      ensures live == old(live) || live == baseline
      ensures old(fates) == [] && (st.emptyTarget || st.presnapshot.value in old(presnapshots)) ==>
                o == Failed("switch", RolledBack) && live == baseline && state == None && fates == []
      ensures !st.emptyTarget && st.presnapshot.value !in old(presnapshots) ==>
                (o == Failed("rollback", SwitchFailed) || o == Crashed)
                && live == old(live) && state == old(state) && presnapshots == old(presnapshots)
    {
      hide BuiltFrom, Good, RekeyOf;
      var f := UndoSwitch(st);
      if f == Dies {
        return Crashed;
      }
      if f == Fails {
        return Failed("rollback", SwitchFailed);
      }
      f := RemoveRecoveryState();
      if f == Dies {
        return Crashed;
      }
      return Failed("switch", RolledBack);
    }

    /** A failed stage hook before the switch discards the candidate and the
        state, best effort. */
    method HookFailure(stage: string, st: RecoveryState) returns (o: Outcome)
      requires Inv() && state == Some(st)
      requires st.stage == Snapshot || st.stage == Rekeyed || Pending(st)
      modifies this`fates, this`candidate, this`state
      ensures Inv()
      ensures o == Failed(stage, SwitchFailed) || o == Crashed
      ensures state == None || state == old(state)
      ensures candidate == None || candidate == old(candidate)
      ensures old(fates) == [] ==>
                o == Failed(stage, SwitchFailed) && state == None && fates == []
                && candidate == if st.hasCandidatePath then None else old(candidate)
    {
      hide BuiltFrom, Good, RekeyOf;
      if st.stage != Switched {
        var f := Done;
        if st.hasCandidatePath {
          f := RemoveCandidate();
        }
        if f != Dies {
          f := RemoveRecoveryState();
        }
        if f == Dies {
          return Crashed;
        }
      }
      return Failed(stage, SwitchFailed);
    }

    // ----- a fresh or restarted attempt -----

    /** The archive and the key that this run would restore from are usable. */
    ghost predicate Usable(a: Attempt) {
      && Extractable(a)
      && Readable(aead, a.archive.masterKey, a.archive.snapshot)
    }

    predicate Extractable(a: Attempt) {
      && a.archive.opens && a.archive.intact
      && a.archive.formatVersion == FORMAT_VERSION
      && a.archive.schemaVersion <= a.maxKnownSchema
      && |a.archive.masterKey| == 32
    }

    /** Steps 1 and 2: extract, check the manifest, check the space. */
    method Extract(a: Attempt) returns (o: Option<Outcome>)
      modifies this`fates
      ensures o.Some? ==> !o.value.Restored?
      ensures o.None? ==> Extractable(a)
      ensures old(fates) == [] ==> fates == [] && (o.None? <==> Extractable(a))
    {
      var f := Tick();  // private session directory
      if f != Done {
        return Some(if f == Dies then Crashed else Failed("start", Internal));
      }
      f := Tick();  // extraction under the instance limits
      if f == Dies {
        return Some(Crashed);
      }
      if f == Fails || !a.archive.opens || !a.archive.intact {
        return Some(Failed("extract", ArchiveInvalid));
      }
      if a.archive.formatVersion != FORMAT_VERSION {
        return Some(Failed("extract", FormatUnsupported));
      }
      if a.archive.schemaVersion > a.maxKnownSchema {
        return Some(Failed("extract", SchemaTooNew));
      }
      if |a.archive.masterKey| != 32 {
        return Some(Failed("extract", ArchiveInvalid));
      }
      f := Tick();  // space for candidate and pre-snapshot
      if f != Done {
        return Some(if f == Dies then Crashed else Failed("space", InsufficientSpace));
      }
      return None;
    }

    predicate BeforeSwitch(existing: Option<RecoveryState>) {
      existing.Some? ==> existing.value.stage != SwitchReady && existing.value.stage != Switched
    }

    /** The snapshot file appears torn and becomes whole; then it is verified. */
    method SnapshotLive(p: Path) returns (f: Fate)
      requires live.Some? && p !in presnapshots
      modifies this`fates, this`presnapshots
      ensures presnapshots.Keys <= old(presnapshots).Keys + {p}
      ensures old(fates) == [] ==> f == Done && fates == []
      ensures forall q :: q in old(presnapshots) ==> q in presnapshots && presnapshots[q] == old(presnapshots)[q]
      ensures f == Done ==> p in presnapshots && presnapshots[p] == Whole(live.value)
    {
      f := Tick();
      if f != Done {
        return f;
      }
      presnapshots := presnapshots[p := Torn];
      f := Tick();
      if f != Done {
        return f;
      }
      presnapshots := presnapshots[p := Whole(live.value)];
      f := Tick();
    }

    /** Step 3: a recoverable pre-snapshot, or the note that there was nothing. */
    method TakePresnapshot(a: Attempt, existing: Option<RecoveryState>) returns (o: Option<Outcome>, st: RecoveryState)
      requires Inv() && state == existing && BeforeSwitch(existing)
      requires a.archive in presented
      requires existing.None? ==> a.presnapshotName !in presnapshots
      modifies this`fates, this`presnapshots, this`state, this`baseline
      ensures presnapshots.Keys <= old(presnapshots).Keys + {a.presnapshotName}
      ensures Inv()
      ensures baseline == if existing.None? then live else old(baseline)
      ensures o.Some? ==> !o.value.Restored?
      ensures o.None? ==>
                && state == Some(st) && st.stage == Snapshot
                && st.backupId == a.archive.backupId && live == baseline && Kept(st)
      ensures old(fates) == [] ==> o.None? && fates == []
      ensures BeforeSwitch(state)
    {
      hide BuiltFrom, Good, RekeyOf;
      if existing.None? {
        baseline := live;
      }
      st := if existing.Some? then existing.value.(backupId := a.archive.backupId)
            else RecoveryState(Snapshot, a.archive.backupId, None, false, false);
      var f := Tick();  // stat of the live path
      if f != Done {
        return Some(if f == Dies then Crashed else Failed("presnapshot", PresnapshotFailed)), st;
      }
      if live.None? {
        st := st.(emptyTarget := true);
      } else if st.presnapshot.None? {
        ghost var before := presnapshots;
        f := SnapshotLive(a.presnapshotName);
        assert forall db :: old(Held(db)) ==> Held(db);
        if f != Done {
          return Some(if f == Dies then Crashed else Failed("presnapshot", PresnapshotFailed)), st;
        }
        st := st.(presnapshot := Some(a.presnapshotName));
      }
      st := st.(stage := Snapshot);
      f := WriteRecoveryState(st);
      if f != Done {
        return Some(if f == Dies then Crashed else Failed("presnapshot", Internal)), st;
      }
      o := None;
    }

    /** In a stage before the switch nothing live has been touched yet. */
    ghost predicate Building(st: RecoveryState, a: Attempt)
      reads this
    {
      && Inv() && state == Some(st)
      && (st.stage == Snapshot || st.stage == Candidate || st.stage == Rekeyed)
      && st.backupId == a.archive.backupId && a.archive in presented
      && live == baseline && Kept(st)
    }

    /** Step 4: the snapshot of the archive becomes the candidate file. */
    method CopyCandidate(a: Attempt, before: RecoveryState) returns (o: Option<Outcome>, st: RecoveryState)
      requires Building(before, a)
      modifies this`fates, this`candidate, this`state
      ensures Inv() && BeforeSwitch(state)
      ensures o.Some? ==> !o.value.Restored?
      ensures o.None? ==>
                && Building(st, a) && st.hasCandidatePath
                && candidate == Some(Whole(a.archive.snapshot))
      ensures old(fates) == [] ==> o.None? && fates == []
    {
      hide BuiltFrom, Good, RekeyOf;
      st := before.(hasCandidatePath := true);
      var f := Tick();
      if f != Done {
        return Some(if f == Dies then Crashed else Failed("candidate", Internal)), st;
      }
      candidate := Some(Torn);
      f := Tick();
      if f != Done {
        return Some(if f == Dies then Crashed else Failed("candidate", Internal)), st;
      }
      candidate := Some(Whole(a.archive.snapshot));
      st := st.(stage := Candidate);
      f := WriteRecoveryState(st);
      if f != Done {
        return Some(if f == Dies then Crashed else Failed("candidate", Internal)), st;
      }
      o := None;
    }

    /** The re-encryption of the candidate file, one transaction. */
    method RekeyFile(a: Attempt) returns (f: Fate, report: Option<Report>)
      requires aead.Correct() && candidate == Some(Whole(a.archive.snapshot))
      modifies this`fates, this`candidate
      ensures f == Done ==>
                && candidate.Some? && candidate.value.Whole?
                && RekeyOf(aead, a.archive.masterKey, a.targetKey, a.archive.snapshot, candidate.value.db)
                && report == Some(Report(|a.archive.snapshot.items|, |a.archive.snapshot.versions|, |a.archive.snapshot.sessions|))
                && Readable(aead, a.archive.masterKey, a.archive.snapshot)
      ensures f != Done ==> candidate == old(candidate)
      ensures old(fates) == [] ==>
                fates == [] && f == if Readable(aead, a.archive.masterKey, a.archive.snapshot) then Done else Fails
    {
      hide RekeyOf, Readable;
      report := None;
      f := Tick();
      if f != Done {
        return;
      }
      var file := new DatabaseFile(candidate.value.db);
      report := file.RekeyCandidate(aead, a.archive.masterKey, a.targetKey, a.nonceFor);
      if report.None? {
        f := Fails;
        return;
      }
      candidate := Some(Whole(file.content));
    }

    /** Step 5: one transaction re-encrypts the candidate. */
    method RekeyStep(a: Attempt, before: RecoveryState)
      returns (o: Option<Outcome>, st: RecoveryState, report: Option<Report>)
      requires Building(before, a) && before.hasCandidatePath
      requires candidate == Some(Whole(a.archive.snapshot))
      modifies this`fates, this`candidate, this`state
      ensures Inv() && BeforeSwitch(state)
      ensures o.Some? ==> !o.value.Restored?
      ensures o.None? ==>
                && Building(st, a) && st.hasCandidatePath && st.stage == Rekeyed
                && candidate.Some? && candidate.value.Whole?
                && RekeyOf(aead, a.archive.masterKey, a.targetKey, a.archive.snapshot, candidate.value.db)
                && report == Some(Report(|a.archive.snapshot.items|, |a.archive.snapshot.versions|, |a.archive.snapshot.sessions|))
      ensures o.None? ==> Readable(aead, a.archive.masterKey, a.archive.snapshot)
      ensures old(fates) == [] ==> fates == [] && (o.None? <==> Readable(aead, a.archive.masterKey, a.archive.snapshot))
    {
      hide BuiltFrom, Good, RekeyOf, Readable;
      st := before;
      var f;
      f, report := RekeyFile(a);
      if f != Done {
        return Some(if f == Dies then Crashed else Failed("rekey", RekeyFailed)), st, report;
      }
      st := st.(stage := Rekeyed);
      f := WriteRecoveryState(st);
      if f != Done {
        return Some(if f == Dies then Crashed else Failed("rekey", Internal)), st, report;
      }
      o := None;
    }

    /** Step 6: migrate and stamp. Migration keeps the contents. */
    method MigrateAndStamp(a: Attempt, before: RecoveryState) returns (o: Option<Outcome>)
      requires Building(before, a)
      requires candidate.Some? && candidate.value.Whole?
      requires RekeyOf(aead, a.archive.masterKey, a.targetKey, a.archive.snapshot, candidate.value.db)
      modifies this`fates, this`candidate
      ensures Building(before, a) && state == old(state)
      ensures o.Some? ==> !o.value.Restored?
      ensures o.None? ==>
                && candidate.Some? && candidate.value.Whole?
                && BuiltFrom(aead, a.archive, a.targetKey, candidate.value.db)
      ensures old(fates) == [] ==> o.None? && fates == []
    {
      hide Good, RekeyOf, Readable, Stamp;
      var f := Tick();  // open and migrate
      if f != Done {
        return Some(if f == Dies then Crashed else Failed("migrate", MigrateFailed));
      }
      f := Tick();
      if f != Done {
        return Some(if f == Dies then Crashed else Failed("migrate", Internal));
      }
      candidate := Some(Whole(Stamp(candidate.value.db, a.archive.backupId)));
      f := Tick();  // checkpoint
      if f != Done {
        return Some(if f == Dies then Crashed else Failed("migrate", MigrateFailed));
      }
      o := None;
    }

    /** Step 6: everything must decrypt before the candidate may become live. */
    method CheckCandidate(a: Attempt, before: RecoveryState) returns (o: Option<Outcome>)
      requires Building(before, a) && before.stage == Rekeyed && before.hasCandidatePath
      requires candidate.Some? && candidate.value.Whole?
      requires BuiltFrom(aead, a.archive, a.targetKey, candidate.value.db)
      modifies this`fates, this`state
      ensures Building(before, a)
      ensures o.Some? ==> !o.value.Restored?
      ensures old(fates) == [] ==> o.None? && fates == []
    {
      hide BuiltFrom, Good, RekeyOf, Readable;
      var ok := VerifyCandidate(aead, a.targetKey, candidate.value.db);
      BuiltIsVerified(aead, a.archive, a.targetKey, candidate.value.db);
      if !ok {
        return Some(Failed("verify", VerifyFailed));
      }
      var f := WriteRecoveryState(before);
      if f != Done {
        return Some(if f == Dies then Crashed else Failed("migrate", Internal));
      }
      o := None;
    }

    /** Step 7, the durable announcement: only the rename is left to do. */
    method AnnounceSwitch(a: Attempt, before: RecoveryState) returns (o: Option<Outcome>, st: RecoveryState)
      requires Building(before, a) && before.hasCandidatePath
      requires candidate.Some? && candidate.value.Whole?
      requires BuiltFrom(aead, a.archive, a.targetKey, candidate.value.db)
      modifies this`fates, this`state
      ensures Inv()
      ensures o.Some? ==> !o.value.Restored?
      ensures st == before.(stage := SwitchReady)
      ensures o.None? ==> state == Some(st) && Pending(st)
      ensures old(fates) == [] ==> o.None? && fates == []
    {
      assert Good(candidate.value.db, before.backupId);
      hide BuiltFrom, Good, RekeyOf;
      st := before.(stage := SwitchReady);
      var f := WriteRecoveryState(st);
      if f != Done {
        return Some(if f == Dies then Crashed else Failed("switch", Internal)), st;
      }
      o := None;
    }

    /** Step 7, the switch itself: sidecars, the atomic rename, the record of it. */
    method Switch(before: RecoveryState) returns (o: Option<Outcome>, st: RecoveryState)
      requires Inv() && state == Some(before) && Pending(before)
      modifies this`fates, this`live, this`candidate, this`state
      ensures Inv()
      ensures o.Some? ==> !o.value.Restored?
      ensures st == before.(stage := Switched)
      ensures o.None? ==>
                && state == Some(st) && InPlace(st)
                && live == Some(old(candidate).value.db)
      ensures old(fates) == [] ==> o.None? && fates == []
    {
      hide BuiltFrom, Good, RekeyOf;
      st := before.(stage := Switched);
      var f := Tick();  // the old database's sidecars; failures are ignored
      if f == Dies {
        return Some(Crashed), st;
      }
      f := RenameCandidateToLive();
      if f != Done {
        return Some(if f == Dies then Crashed else Failed("switch", SwitchFailed)), st;
      }
      f := WriteRecoveryState(st);
      if f != Done {
        return Some(if f == Dies then Crashed else Failed("switch", Internal)), st;
      }
      o := None;
    }

    /** Steps 4 to 6 and the announcement, with the hook after each stage. */
    method BuildCandidate(a: Attempt, before: RecoveryState)
      returns (o: Option<Outcome>, st: RecoveryState, report: Option<Report>)
      requires Building(before, a)
      modifies this`fates, this`candidate, this`state
      ensures Inv()
      ensures o.Some? ==> !o.value.Restored?
      ensures o.None? ==>
                && state == Some(st) && Pending(st)
                && st.backupId == a.archive.backupId
                && BuiltFrom(aead, a.archive, a.targetKey, candidate.value.db)
                && report == Some(Report(|a.archive.snapshot.items|, |a.archive.snapshot.versions|, |a.archive.snapshot.sessions|))
      ensures old(fates) == [] ==> fates == [] && (o.None? <==> Readable(aead, a.archive.masterKey, a.archive.snapshot))
    {
      hide BuiltFrom, Good, RekeyOf, Readable;
      report := None;
      o, st := CopyCandidate(a, before);
      if o.Some? {
        return;
      }
      o, st, report := RekeyStep(a, st);
      if o.Some? {
        return;
      }
      var f := Tick();  // hook after rekeying
      if f != Done {
        var failure := Crashed;
        if f == Fails {
          failure := HookFailure("rekey", st);
        }
        return Some(failure), st, report;
      }
      o := MigrateAndStamp(a, st);
      if o.Some? {
        return;
      }
      o := CheckCandidate(a, st);
      if o.Some? {
        return;
      }
      f := Tick();  // hook after migration
      if f != Done {
        var failure := Crashed;
        if f == Fails {
          failure := HookFailure("migrate", st);
        }
        return Some(failure), st, report;
      }
      o, st := AnnounceSwitch(a, st);
    }

    /** What a reported success means. */
    ghost predicate Honest(o: Outcome, targetKey: Text)
      reads this
    {
      o.Restored? ==>
        && live.Some?
        && Good(live.value, o.backupId)
        && Readable(aead, targetKey, live.value)
    }

    /** Step 8 and the end of the run: check the live database in place, then
        drop the state; any failure rolls back. */
    method FinishSwitched(targetKey: Text, st: RecoveryState, report: Option<Report>, resumed: bool) returns (o: Outcome)
      requires Inv() && state == Some(st) && live.Some?
      requires (st.stage == SwitchReady || st.stage == Switched) && SwitchedOrUndone(st)
      modifies this`fates, this`live, this`presnapshots, this`state
      ensures presnapshots.Keys <= old(presnapshots).Keys
      ensures Inv()
      ensures o.Restored? ==> o == Restored(st.backupId, report, resumed, st.presnapshot)
      ensures o.Restored? ==> live == old(live) && Readable(aead, targetKey, live.value) && Marker(live.value) == st.backupId
      ensures o.Restored? ==> presnapshots == old(presnapshots)
      ensures o.Restored? && old(InPlace(st)) ==> Honest(o, targetKey)
      ensures live == old(live) || live == baseline
      ensures old(fates) == [] && Readable(aead, targetKey, old(live).value) && Marker(old(live).value) == st.backupId ==>
                o.Restored? && state == None && fates == []
      ensures old(fates) == [] && !(Readable(aead, targetKey, old(live).value) && Marker(old(live).value) == st.backupId)
              && (st.emptyTarget || st.presnapshot.value in old(presnapshots)) ==>
                o == Failed("switch", RolledBack) && live == baseline && state == None
      ensures !o.Restored? && !st.emptyTarget && st.presnapshot.value !in old(presnapshots) ==>
                live == old(live) && state == old(state) && presnapshots == old(presnapshots)
    {
      var f := PostSwitchCheck(targetKey, st.backupId);
      hide BuiltFrom, Good, RekeyOf, Readable, Marker;
      if f == Dies {
        return Crashed;
      }
      if f == Fails {
        o := RollbackRestore(st);
        return o;
      }
      o := Restored(st.backupId, report, resumed, st.presnapshot);
      f := RemoveRecoveryState();
      if f == Dies {
        return Crashed;
      }
    }

    /** The contents from before the attempt are still in the reported
        pre-snapshot. */
    ghost predicate ReportsPresnapshot(o: Outcome)
      reads this
    {
      o.Restored? && baseline.Some? ==>
        && o.presnapshot.Some?
        && o.presnapshot.value in presnapshots
        && presnapshots[o.presnapshot.value] == Whole(baseline.value)
    }

    /** The hook after the switch and step 8. */
    method AfterSwitch(targetKey: Text, st: RecoveryState, report: Option<Report>) returns (o: Outcome)
      requires Inv() && state == Some(st) && st.stage == Switched && InPlace(st)
      modifies this`fates, this`live, this`presnapshots, this`state
      ensures presnapshots.Keys <= old(presnapshots).Keys
      ensures Inv() && Honest(o, targetKey) && ReportsPresnapshot(o)
      ensures o.Restored? ==> o == Restored(st.backupId, report, false, st.presnapshot) && live == old(live)
      ensures old(fates) == [] && Readable(aead, targetKey, old(live).value) && Marker(old(live).value) == st.backupId ==>
                o.Restored? && state == None
      ensures old(fates) == [Fails, Done, Done, Dies] && baseline.Some? ==>
                o == Crashed && live == baseline && state == old(state) && st.presnapshot.value !in presnapshots
    {
      hide BuiltFrom, Good, RekeyOf, Readable, Marker;
      var f := Tick();
      if f == Dies {
        return Crashed;
      }
      if f == Fails {
        o := RollbackRestore(st);
        return o;
      }
      o := FinishSwitched(targetKey, st, report, false);
    }

    /** Step 7 of a run that built its candidate itself. */
    method SwitchOver(a: Attempt, ready: RecoveryState) returns (o: Option<Outcome>, st: RecoveryState)
      requires Inv() && state == Some(ready) && Pending(ready)
      requires BuiltFrom(aead, a.archive, a.targetKey, candidate.value.db)
      modifies this`fates, this`live, this`candidate, this`state
      ensures Inv()
      ensures o.Some? ==> !o.value.Restored?
      ensures st == ready.(stage := Switched)
      ensures o.None? ==>
                && state == Some(st) && InPlace(st)
                && live.Some? && BuiltFrom(aead, a.archive, a.targetKey, live.value)
      ensures old(fates) == [] ==> o.None? && fates == []
    {
      hide BuiltFrom, Good, RekeyOf, Readable, Marker;
      st := ready.(stage := Switched);
      var f := Tick();  // hook before the switch
      if f == Dies {
        return Some(Crashed), st;
      }
      if f == Fails {
        var failure := HookFailure("switch", ready);
        return Some(failure), st;
      }
      o, st := Switch(ready);
    }

    /** Steps 1 to 7: the candidate is live and recorded as switched. */
    method RunToSwitch(a: Attempt, existing: Option<RecoveryState>)
      returns (o: Option<Outcome>, st: RecoveryState, report: Option<Report>)
      requires Inv() && state == existing && BeforeSwitch(existing)
      requires a.archive in presented
      requires existing.None? ==> a.presnapshotName !in presnapshots
      modifies this`fates, this`live, this`candidate, this`presnapshots, this`state, this`baseline
      ensures presnapshots.Keys <= old(presnapshots).Keys + {a.presnapshotName}
      ensures Inv()
      ensures o.Some? ==> !o.value.Restored?
      ensures o.None? ==>
                && state == Some(st) && st.stage == Switched && InPlace(st)
                && st.backupId == a.archive.backupId
                && live.Some? && BuiltFrom(aead, a.archive, a.targetKey, live.value)
                && report == Some(Report(|a.archive.snapshot.items|, |a.archive.snapshot.versions|, |a.archive.snapshot.sessions|))
                && baseline == old(live)
      ensures o.None? ==>
                && a.archive.opens && a.archive.intact && a.archive.formatVersion == 1
                && a.archive.schemaVersion <= a.maxKnownSchema && |a.archive.masterKey| == 32
      ensures old(fates) == [] ==> fates == [] && (o.None? <==> Usable(a))
    {
      hide BuiltFrom, Good, RekeyOf, Readable;
      report := None;
      st := RecoveryState(Snapshot, a.archive.backupId, None, false, false);
      o := Extract(a);
      if o.Some? {
        return;
      }
      o, st := TakePresnapshot(a, existing);
      if o.Some? {
        return;
      }
      var f := Tick();  // hook after the pre-snapshot
      if f != Done {
        var failure := Crashed;
        if f == Fails {
          failure := HookFailure("snapshot", st);
        }
        return Some(failure), st, report;
      }
      o, st, report := BuildCandidate(a, st);
      if o.Some? {
        return;
      }
      o, st := SwitchOver(a, st);
    }

    method RunRestore(a: Attempt, existing: Option<RecoveryState>) returns (o: Outcome)
      requires Inv() && state == existing && BeforeSwitch(existing)
      requires a.archive in presented
      requires existing.None? ==> a.presnapshotName !in presnapshots
      modifies this`fates, this`live, this`candidate, this`presnapshots, this`state, this`baseline
      ensures presnapshots.Keys <= old(presnapshots).Keys + {a.presnapshotName}
      ensures Inv() && Honest(o, a.targetKey) && ReportsPresnapshot(o)
      ensures o.Restored? ==>
                && o.backupId == a.archive.backupId && !o.resumed
                && o.report == Some(Report(|a.archive.snapshot.items|, |a.archive.snapshot.versions|, |a.archive.snapshot.sessions|))
                && live.Some? && BuiltFrom(aead, a.archive, a.targetKey, live.value)
                && Marker(live.value) == o.backupId
                && baseline == old(live)
      ensures o.Restored? ==>
                && a.archive.opens && a.archive.intact && a.archive.formatVersion == 1
                && a.archive.schemaVersion <= a.maxKnownSchema && |a.archive.masterKey| == 32
      ensures old(fates) == [] ==> (o.Restored? <==> Usable(a))
      ensures old(fates) == [] && Usable(a) ==> state == None
    {
      hide BuiltFrom, RekeyOf, Readable;
      var stopped, st, report := RunToSwitch(a, existing);
      if stopped.Some? {
        return stopped.value;
      }
      BuiltIsVerified(aead, a.archive, a.targetKey, live.value);
      hide Good, Marker;
      o := AfterSwitch(a.targetKey, st, report);
    }

    /** The rename is done, as far as the state and the files tell. */
    predicate PastSwitch(st: RecoveryState)
      reads this`candidate
    {
      st.stage == Switched || (st.stage == SwitchReady && candidate.None?)
    }

    /** The live database passes the check of the switch. */
    ghost predicate Confirms(targetKey: Text, st: RecoveryState)
      reads this`live
    {
      live.Some? && Readable(aead, targetKey, live.value) && Marker(live.value) == st.backupId
    }

    /** There was an old database, and its pre-snapshot has gone back already. */
    predicate Spent(st: RecoveryState)
      reads this`presnapshots
    {
      !st.emptyTarget && st.presnapshot.Some? && st.presnapshot.value !in presnapshots
    }

    /** Attempts with this key keep failing and change nothing: past the switch
        with a live database that the check refuses, and nothing to roll back to. */
    ghost predicate Stuck(targetKey: Text)
      reads this`state, this`live, this`candidate, this`presnapshots
    {
      state.Some? && PastSwitch(state.value) && Spent(state.value) && !Confirms(targetKey, state.value)
    }

    /** The live database is a candidate, or what was there before the attempt. */
    ghost predicate GoodOrBaseline(backupId: Text)
      reads this
    {
      && (exists a :: a in presented && a.backupId == backupId)
      && live.Some?
      && (Good(live.value, backupId) || (live == baseline && OldOrGood(baseline)))
    }

    /** The candidate is in place and the check is all that is left. */
    ghost predicate InPlaceToCheck(st: RecoveryState)
      reads this`live, this`candidate, this`presnapshots, this`baseline, this`presented
    {
      InPlace(st) && PastSwitch(st)
    }

    lemma GoodIsMarked(db: Database, backupId: Text)
      requires Good(db, backupId)
      ensures Marker(db) == backupId
    {
      var a, k :| a in presented && a.backupId == backupId && BuiltFrom(aead, a, k, db);
      BuiltIsVerified(aead, a, k, db);
    }

    /** With fresh ids the marker tells a candidate from the old database. */
    lemma MarkedIsGood(backupId: Text)
      requires GoodOrBaseline(backupId) && FreshIds() && Marker(live.value) == backupId
      ensures Good(live.value, backupId)
    {
      if live != origin {
        assert SomeGood(live.value);
        var b :| Good(live.value, b);
        var a, k :| a in presented && a.backupId == b && BuiltFrom(aead, a, k, live.value);
        BuiltIsVerified(aead, a, k, live.value);
      }
    }

    /** The pending rename, when the state and the candidate say that it is. */
    method CompleteRename(saved: RecoveryState) returns (o: Option<Outcome>, st: RecoveryState)
      requires Inv() && state == Some(saved)
      requires saved.stage == SwitchReady || saved.stage == Switched
      modifies this`fates, this`live, this`candidate, this`state
      ensures Inv()
      ensures o.Some? ==> !o.value.Restored?
      ensures st == saved || st == saved.(stage := Switched)
      ensures o.None? ==> state == Some(st) && SwitchedOrUndone(st)
      ensures o.None? && old(Pending(saved)) ==> st.stage == Switched && live == Some(old(candidate).value.db)
      ensures !old(Pending(saved)) ==>
                st == saved && live == old(live) && candidate == old(candidate) && state == old(state)
      ensures old(fates) == [] ==> o.None? && fates == []
    {
      hide BuiltFrom, Good, RekeyOf, Readable, Marker;
      st, o := saved, None;
      if saved.stage == SwitchReady && saved.hasCandidatePath {
        var f := Tick();  // stat of the candidate
        if f != Done {
          return Some(if f == Dies then Crashed else Failed("switch", Internal)), st;
        }
        if candidate.Some? {
          o, st := Switch(saved);
        }
      }
    }

    /** Completes a pending rename, or takes it as done when the candidate is
        gone, and re-runs the check. */
    method ResumeSwitch(targetKey: Text, saved: RecoveryState) returns (o: Outcome)
      requires Inv() && state == Some(saved)
      requires saved.stage == SwitchReady || saved.stage == Switched
      modifies this`fates, this`live, this`candidate, this`presnapshots, this`state
      ensures presnapshots.Keys <= old(presnapshots).Keys
      ensures Inv()
      ensures o.Restored? ==> o.resumed && o.backupId == saved.backupId && GoodOrBaseline(o.backupId)
      ensures o.Restored? ==> Readable(aead, targetKey, live.value) && Marker(live.value) == o.backupId
      ensures old(fates) == [] && old(Pending(saved)) && Readable(aead, targetKey, old(candidate).value.db)
              && Marker(old(candidate).value.db) == saved.backupId ==>
                o.Restored? && live == Some(old(candidate).value.db) && state == None
      ensures old(fates) == [] && old(Pending(saved)) && !Readable(aead, targetKey, old(candidate).value.db) ==>
                o == Failed("switch", RolledBack) && live == old(live) && state == None
      ensures old(fates) == [] && old(InPlaceToCheck(saved)) && Readable(aead, targetKey, old(live).value) ==>
                o.Restored? && live == old(live) && state == None
      ensures old(fates) == [] && old(PastSwitch(saved)) ==>
                && (o.Restored? <==> old(Confirms(targetKey, saved)))
                && if o.Restored? then state == None && live == old(live)
                   else if old(Spent(saved)) then state == old(state) && live == old(live)
                   else state == None && live == old(baseline)
      ensures old(Stuck(targetKey)) ==> !o.Restored? && live == old(live) && state == old(state) && Stuck(targetKey)
    {
      if InPlace(saved) {
        GoodIsMarked(live.value, saved.backupId);
      }
      hide BuiltFrom, Good, RekeyOf, Readable, Marker;
      var stopped, st := CompleteRename(saved);
      if stopped.Some? {
        return stopped.value;
      }
      o := CheckLive(targetKey, st);
    }

    /** The check of a resumed switch. */
    method CheckLive(targetKey: Text, st: RecoveryState) returns (o: Outcome)
      requires Inv() && state == Some(st)
      requires (st.stage == SwitchReady || st.stage == Switched) && SwitchedOrUndone(st)
      modifies this`fates, this`live, this`presnapshots, this`state
      ensures presnapshots.Keys <= old(presnapshots).Keys
      ensures Inv()
      ensures o.Restored? ==> o.resumed && o.backupId == st.backupId && GoodOrBaseline(o.backupId)
      ensures o.Restored? ==> live == old(live) && Readable(aead, targetKey, live.value) && Marker(live.value) == st.backupId
      ensures old(fates) == [] ==>
                && (o.Restored? <==> old(Confirms(targetKey, st)))
                && if o.Restored? then state == None && live == old(live)
                   else if old(Spent(st)) then state == old(state) && live == old(live)
                   else o == Failed("switch", RolledBack) && state == None && live == baseline
      ensures o.Restored? ==> old(Confirms(targetKey, st))
      ensures !o.Restored? && old(Spent(st)) ==> live == old(live) && state == old(state) && presnapshots == old(presnapshots)
    {
      hide BuiltFrom, Good, RekeyOf, Readable, Marker;
      var f := Tick();  // stat of the live path
      if f != Done {
        return if f == Dies then Crashed else Failed("switch", Internal);
      }
      if live.None? {
        o := RollbackRestore(st);
        return o;
      }
      o := FinishSwitched(targetKey, st, None, true);
    }

    /** A state file from an earlier attempt: before the switch the candidate is
        dropped and the run starts over; from switch-ready on the pending rename
        is completed and the check is run again. */
    method ResumeRestore(a: Attempt, saved: RecoveryState) returns (o: Outcome)
      requires Inv() && state == Some(saved)
      requires a.archive in presented
      modifies this`fates, this`live, this`candidate, this`presnapshots, this`state, this`baseline
      ensures presnapshots.Keys <= old(presnapshots).Keys + {a.presnapshotName}
      ensures Inv()
      ensures o.Restored? && FreshIds() ==> Honest(o, a.targetKey)
      ensures o.Restored? ==> live.Some? && Readable(aead, a.targetKey, live.value) && Marker(live.value) == o.backupId
      ensures o.Restored? ==> o.backupId == if o.resumed then saved.backupId else a.archive.backupId
      ensures o.Restored? && !o.resumed ==>
                && a.archive.opens && a.archive.intact && a.archive.formatVersion == 1
                && a.archive.schemaVersion <= a.maxKnownSchema && |a.archive.masterKey| == 32
      ensures old(fates) == [] && BeforeSwitch(Some(saved)) ==> (o.Restored? <==> Usable(a)) && (o.Restored? ==> state == None)
      ensures old(fates) == [] && old(Pending(saved)) && Readable(aead, a.targetKey, old(candidate).value.db) ==>
                o.Restored? && live == Some(old(candidate).value.db) && state == None
      ensures old(fates) == [] && old(Pending(saved)) && !Readable(aead, a.targetKey, old(candidate).value.db) ==>
                o == Failed("switch", RolledBack) && live == old(live) && state == None
      ensures old(fates) == [] && old(InPlaceToCheck(saved)) && Readable(aead, a.targetKey, old(live).value) ==>
                o.Restored? && live == old(live) && state == None
      ensures old(fates) == [] && old(PastSwitch(saved)) ==>
                && (o.Restored? <==> old(Confirms(a.targetKey, saved)))
                && if o.Restored? then state == None && live == old(live)
                   else if old(Spent(saved)) then state == old(state) && live == old(live)
                   else state == None && live == old(baseline)
      ensures old(Stuck(a.targetKey)) ==> !o.Restored? && live == old(live) && state == old(state) && Stuck(a.targetKey)
    {
      if saved.stage == SwitchReady || saved.stage == Switched {
        o := ResumeSwitch(a.targetKey, saved);
        if o.Restored? && FreshIds() {
          MarkedIsGood(o.backupId);
        }
        return o;
      }
      hide BuiltFrom, Good, RekeyOf, Readable;
      if saved.hasCandidatePath {
        var f := RemoveCandidate();
        if f == Dies {
          return Crashed;
        }
      }
      o := RunRestore(a, Some(saved));
    }

    /** The arguments, the data-directory lock and the recovery state. */
    method Admit(a: Attempt) returns (o: Option<Outcome>)
      modifies this`fates
      ensures o.Some? ==> !o.value.Restored?
      ensures o.None? ==> |a.targetKey| == 32 && a.passphraseUsable
      ensures old(fates) == [] ==> fates == [] && (o.None? <==> |a.targetKey| == 32 && a.passphraseUsable)
    {
      if |a.targetKey| != 32 {
        return Some(Failed("start", TargetKeyInvalid));
      }
      if !a.passphraseUsable {
        return Some(Failed("start", PassphraseInvalid));
      }
      var f := Tick();  // data-directory lock
      if f != Done {
        return Some(if f == Dies then Crashed else Failed("start", DataDirLocked));
      }
      f := Tick();  // read the recovery state
      if f != Done {
        return Some(if f == Dies then Crashed else Failed("start", StateUnreadable));
      }
      return None;
    }

    /** The entry point: argument checks, the data-directory lock, and the choice
        between a fresh run and a resumed one. */
    method Restore(a: Attempt) returns (o: Outcome)
      requires Inv()
      requires state.None? ==> a.presnapshotName !in presnapshots
      modifies this
      ensures Inv() && presented == old(presented) + {a.archive}
      ensures presnapshots.Keys <= old(presnapshots).Keys + {a.presnapshotName}
      ensures o.Restored? && (old(state).None? || FreshIds()) ==> Honest(o, a.targetKey)
      ensures o.Restored? ==> live.Some? && Readable(aead, a.targetKey, live.value) && Marker(live.value) == o.backupId
      ensures o.Restored? && !o.resumed ==> o.backupId == a.archive.backupId
      ensures o.Restored? ==> |a.targetKey| == 32 && a.passphraseUsable
      ensures o.Restored? && !o.resumed ==>
                && a.archive.opens && a.archive.intact && a.archive.formatVersion == 1
                && a.archive.schemaVersion <= a.maxKnownSchema && |a.archive.masterKey| == 32
      ensures old(fates) == [] && BeforeSwitch(old(state)) ==>
                (o.Restored? <==> Usable(a) && |a.targetKey| == 32 && a.passphraseUsable)
      ensures old(fates) == [] && BeforeSwitch(old(state)) && o.Restored? ==> state == None
      // The retry after a crash at the switch.
      ensures old(fates) == [] && |a.targetKey| == 32 && a.passphraseUsable && old(state).Some? && old(Pending(state.value))
              && Readable(aead, a.targetKey, old(candidate).value.db) ==>
                o.Restored? && live == Some(old(candidate).value.db) && state == None
      ensures old(fates) == [] && |a.targetKey| == 32 && a.passphraseUsable && old(state).Some? && old(InPlaceToCheck(state.value))
              && Readable(aead, a.targetKey, old(live).value) ==>
                o.Restored? && live == old(live) && state == None
      // Past the switch: success exactly when the live database passes the check,
      // whichever database it is; no end exactly when it does not and there is
      // nothing to roll back to.
      ensures old(fates) == [] && |a.targetKey| == 32 && a.passphraseUsable && old(state).Some? && old(PastSwitch(state.value)) ==>
                && (o.Restored? <==> old(Confirms(a.targetKey, state.value)))
                && if o.Restored? then state == None && live == old(live)
                   else if old(Spent(state.value)) then state == old(state) && live == old(live)
                   else state == None && live == old(baseline)
      ensures old(Stuck(a.targetKey)) ==> !o.Restored? && live == old(live) && state == old(state) && Stuck(a.targetKey)
    {
      hide BuiltFrom, RekeyOf, Readable, Marker, Good;
      Present(a.archive);
      assert state.Some? && old(InPlaceToCheck(state.value)) ==> InPlaceToCheck(state.value);
      assert state.Some? && old(Pending(state.value)) ==> Pending(state.value);
      hide Inv, Pending, InPlace, InPlaceToCheck, Confirms, Spent, Stuck, Usable, Honest;
      var refused := Admit(a);
      if refused.Some? {
        return refused.value;
      }
      if state.Some? {
        o := ResumeRestore(a, state.value);
      } else {
        o := RunRestore(a, None);
      }
    }
  }

  /** Any number of attempts, each with its own archive, key and fate: one may
      fail anywhere and the next starts from whatever it left. */
  method Operate(dir: DataDir, attempts: seq<Attempt>, fates: seq<seq<Fate>>)
    returns (outcomes: seq<Outcome>, ghost lives: seq<Option<Database>>)
    requires dir.Inv()
    requires |fates| == |attempts|
    requires forall i :: 0 <= i < |attempts| ==> attempts[i].presnapshotName !in dir.presnapshots
    requires forall i, j :: 0 <= i < j < |attempts| ==> attempts[i].presnapshotName != attempts[j].presnapshotName
    modifies dir
    ensures dir.Inv() && dir.Safe()
    ensures |outcomes| == |lives| == |attempts|
    ensures dir.FreshIds() ==> forall i :: 0 <= i < |attempts| && outcomes[i].Restored? ==>
              && lives[i].Some?
              && dir.Good(lives[i].value, outcomes[i].backupId)
              && Readable(dir.aead, attempts[i].targetKey, lives[i].value)
    ensures attempts != [] ==> lives[|lives| - 1] == dir.live
  {
    hide BuiltFrom, RekeyOf, Readable, Marker, DataDir.StateInv, DataDir.Confirms, DataDir.Spent, DataDir.Stuck, DataDir.Usable;
    outcomes, lives := [], [];
    ghost var before := dir.presnapshots.Keys;
    for n := 0 to |attempts|
      invariant dir.Inv()
      invariant |outcomes| == |lives| == n
      invariant dir.presnapshots.Keys <= before + set i | 0 <= i < n :: attempts[i].presnapshotName
      invariant dir.FreshIds() ==> forall i :: 0 <= i < n && outcomes[i].Restored? ==>
                  && lives[i].Some?
                  && dir.Good(lives[i].value, outcomes[i].backupId)
                  && Readable(dir.aead, attempts[i].targetKey, lives[i].value)
      invariant n > 0 ==> lives[n - 1] == dir.live
    {
      label Start:
      dir.fates := fates[n];
      var o := dir.Restore(attempts[n]);
      assert old@Start(dir.presented) <= dir.presented;
      assert dir.FreshIds() ==> old@Start(dir.FreshIds());
      assert forall db, b :: old@Start(dir.Good(db, b)) ==> dir.Good(db, b);
      outcomes := outcomes + [o];
      lives := lives + [dir.live];
    }
    dir.InvIsSafe();
  }

  /** An archive and key that an attempt can restore from. */
  ghost predicate Fit(aead: Aead, a: Attempt) {
    && aead.Correct() && |a.targetKey| == 32 && a.passphraseUsable
    && a.archive.opens && a.archive.intact && a.archive.formatVersion == FORMAT_VERSION
    && a.archive.schemaVersion <= a.maxKnownSchema && |a.archive.masterKey| == 32
    && Readable(aead, a.archive.masterKey, a.archive.snapshot)
  }

  /** Restoring a backup over a database that carries its id gets as far as the
      switch; the hook after it fails, and the rollback dies before it removes
      the state. The next attempt reports success, over the database from
      before. */
  method RepeatedRestore(aead: Aead, live: Database, a: Attempt, nextName: Path)
    returns (dir: DataDir, first: Outcome, second: Outcome)
    requires Fit(aead, a)
    requires Marker(live) == a.archive.backupId && Readable(aead, a.targetKey, live)
    ensures first == Crashed
    ensures second.Restored? && second.backupId == a.archive.backupId && dir.live == Some(live)
  {
    hide BuiltFrom, RekeyOf, Readable, Marker;
    dir := new DataDir(aead, Some(live), map[]);
    dir.Present(a.archive);
    var stopped, st, report := dir.RunToSwitch(a, None);
    hide DataDir.InPlace;
    dir.fates := [Fails, Done, Done, Dies];
    first := dir.AfterSwitch(a.targetKey, st, report);
    dir.fates := [];
    second := dir.Restore(a.(presnapshotName := nextName));
  }

  /** Why the ids must be fresh: a backup is restored and the service goes on
      (`edit` is what it makes of the database; the marker stays); then the same
      backup is restored again. */
  method MisleadingRun(aead: Aead, start: Option<Database>, a: Attempt, secondName: Path, thirdName: Path,
                       edit: Database -> Database)
    returns (dir: DataDir, first: Outcome, second: Outcome, third: Outcome, ghost restored: Database)
    requires Fit(aead, a)
    requires forall db :: Marker(edit(db)) == Marker(db)
    requires forall db :: Readable(aead, a.targetKey, db) ==> Readable(aead, a.targetKey, edit(db))
    ensures first.Restored? && Readable(aead, a.targetKey, restored) && Marker(restored) == a.archive.backupId
    ensures second == Crashed
    ensures third.Restored? && third.backupId == a.archive.backupId && dir.live == Some(edit(restored))
  {
    hide BuiltFrom, RekeyOf, Readable, Marker;
    var before := new DataDir(aead, start, map[]);
    first := before.Restore(a);
    hide DataDir.Inv;
    restored := before.live.value;
    dir, second, third := RepeatedRestore(aead, edit(before.live.value), a.(presnapshotName := secondName), thirdName);
  }
}
