/** Journaled replacement of the game connection files, with recovery after a crash.
  *
  * Every operating-system call either takes effect as a whole or fails without effect; `Commit`
  * stands for one such call. The field `history` collects the disk after each of them, so a
  * crash leaves exactly one of the recorded states and a statement about all of them is a statement
  * about every crash point. */
module CoreInstall {
  import opened Foundations

  type Bytes = string
  type Token = string

  const NAMES := ["sentinel_core.dll", "msimg32.dll", "sentinel-distribution.json"]
  const MARKER := "sentinel-update-v1\n"

  /** One entry for each of `NAMES`; an absent file is `None`. */
  type Files = f: seq<Option<Bytes>> | |f| == 3 witness [None, None, None]
  type Digests = d: seq<Option<Digest>> | |d| == 3 witness [None, None, None]

  datatype Record = Record(gameRoot: string, original: Digests, incoming: Digests)
  datatype Backup = Backup(original: Files, incoming: Files, record: Option<Record>)
  datatype Disk = Disk(game: Files, marker: Option<Bytes>, active: Option<Token>, previous: Option<Token>,
                       backups: map<Token, Backup>)

  datatype Outcome = Done | Raised
  datatype Refusal = GameRunning | DirectoryExists | CallFailed | NotRecovered | NoPrevious

  function DigestOf(file: Option<Bytes>): Option<Digest> {
    if file.None? then None else Some(Sha256(file.value))
  }

  function DigestsOf(files: Files): Digests {
    [DigestOf(files[0]), DigestOf(files[1]), DigestOf(files[2])]
  }

  predicate IsToken(token: Token) {
    |token| == 32 && forall i | 0 <= i < |token| :: token[i] in "0123456789abcdef"
  }

  predicate AllPresent(files: Files) {
    forall i | 0 <= i < 3 :: files[i].Some?
  }

  function FullBackup(root: string, original: Files, incoming: Files): Backup {
    Backup(original, incoming, Some(Record(root, DigestsOf(original), DigestsOf(incoming))))
  }

  // ---------------------------------------------------------------- what a crash may leave

  /** Every file is its original or its incoming version. */
  ghost predicate Mixed(game: Files, original: Files, incoming: Files) {
    forall i | 0 <= i < 3 :: game[i] == original[i] || game[i] == incoming[i]
  }

  /** Files may only disagree about their version while the journal names a faithful backup of both. */
  ghost predicate Atomic(d: Disk, root: string, original: Files, incoming: Files) {
    && Mixed(d.game, original, incoming)
    && (d.active.Some? ==> IsToken(d.active.value) && d.active.value in d.backups
                           && d.backups[d.active.value] == FullBackup(root, original, incoming))
    && (d.active.None? ==> d.game == original || d.game == incoming)
  }

  /** Every recorded backup is a faithful pair of whole versions. */
  ghost predicate Faithful(d: Disk, root: string, versions: set<Files>) {
    forall t | t in d.backups && d.backups[t].record.Some? ::
      && IsToken(t) && d.backups[t] == FullBackup(root, d.backups[t].original, d.backups[t].incoming)
      && d.backups[t].original in versions && d.backups[t].incoming in versions
  }

  ghost predicate Recorded(d: Disk, token: Option<Token>) {
    token.Some? ==> token.value in d.backups && d.backups[token.value].record.Some?
  }

  /** The state no run may leave: without a journal the files are one whole version; with a journal
    * each file is one of the two versions the journal can restore. */
  ghost predicate Safe(d: Disk, root: string, versions: set<Files>) {
    && Faithful(d, root, versions)
    && Recorded(d, d.active) && Recorded(d, d.previous)
    && (d.active.None? ==> d.game in versions)
    && (d.active.Some? ==> Mixed(d.game, d.backups[d.active.value].original, d.backups[d.active.value].incoming))
  }

  // ---------------------------------------------------------------- the states each operation passes through

  /** Some files already restored, nothing else touched. */
  ghost predicate RestoreStep(before: Disk, d: Disk, original: Files) {
    && d == before.(game := d.game)
    && Mixed(d.game, before.game, original)
  }

  ghost predicate RecoveryStep(before: Disk, d: Disk) {
    if before.active.Some? && before.active.value in before.backups then
      var original := before.backups[before.active.value].original;
      || RestoreStep(before, d, original)
      || d == before.(game := original, active := None)
      || d == before.(game := original, active := None, marker := None)
    else
      d == before || (before.active.None? && d == before.(marker := None))
  }

  /** `restore` accepts a disk only when every file is one of the recorded versions. */
  predicate Identified(d: Disk, root: string, token: Token) {
    && token in d.backups && d.backups[token].record.Some?
    && var record := d.backups[token].record.value;
       && record.gameRoot == root
       && forall i | 0 <= i < 3 ::
            && (DigestOf(d.game[i]) == record.original[i] || DigestOf(d.game[i]) == record.incoming[i])
            && DigestOf(d.backups[token].original[i]) == record.original[i]
  }

  /** The finished update that a leftover marker belongs to. */
  predicate Finished(d: Disk, root: string) {
    && d.marker == Some(MARKER)
    && d.previous.Some? && IsToken(d.previous.value)
    && d.previous.value in d.backups && d.backups[d.previous.value].record.Some?
    && var record := d.backups[d.previous.value].record.value;
       && record.gameRoot == root
       && forall i | 0 <= i < 3 :: d.game[i].Some? && DigestOf(d.game[i]) == record.incoming[i]
  }

  /** Exactly the disks from which recovery can return normally. */
  predicate Recoverable(d: Disk, root: string) {
    if d.active.Some? then IsToken(d.active.value) && Identified(d, root, d.active.value)
    else d.marker.None? || Finished(d, root)
  }

  ghost predicate ReplaceStep(before: Disk, d: Disk, root: string, token: Token, incoming: Files) {
    && token in d.backups && d.backups == before.backups[token := d.backups[token]]
    && (d.backups[token].record.Some? ==> d.backups[token] == FullBackup(root, before.game, incoming))
    && (|| (d.active.None? && d.game == before.game && d.previous == before.previous)
        || (d.active == Some(token) && d.backups[token].record.Some? && Mixed(d.game, before.game, incoming)
            && (d.game == before.game || d.marker == Some("sentinel-update-v1\n")) && d.previous == before.previous)
        || (d.active.None? && d.backups[token].record.Some? && d.game == incoming && d.previous == Some(token)))
  }

  // ---------------------------------------------------------------- consequences for every crash point

  lemma ReplaceIsAtomic(before: Disk, d: Disk, root: string, token: Token, incoming: Files)
    requires IsToken(token) && ReplaceStep(before, d, root, token, incoming)
    ensures Atomic(d, root, before.game, incoming)
  {}

  lemma ReplaceIsSafe(before: Disk, d: Disk, root: string, versions: set<Files>, token: Token, incoming: Files)
    requires Safe(before, root, versions) && before.active.None? && incoming in versions
    requires IsToken(token) && token !in before.backups && ReplaceStep(before, d, root, token, incoming)
    ensures Safe(d, root, versions)
  {}

  lemma RecoveryIsAtomic(before: Disk, d: Disk, root: string, original: Files, incoming: Files)
    requires Atomic(before, root, original, incoming) && RecoveryStep(before, d)
    ensures Atomic(d, root, original, incoming)
  {}

  lemma RecoveryIsSafe(before: Disk, d: Disk, root: string, versions: set<Files>)
    requires Safe(before, root, versions) && RecoveryStep(before, d)
    ensures Safe(d, root, versions)
  {}

  /** A journaled disk that only the replacement has written is always recoverable. */
  lemma JournalCanBeRecovered(d: Disk, root: string, original: Files, incoming: Files)
    requires Atomic(d, root, original, incoming) && d.active.Some?
    ensures Recoverable(d, root)
  {
    var record := d.backups[d.active.value].record.value;
    forall i | 0 <= i < 3
      ensures DigestOf(d.game[i]) == record.original[i] || DigestOf(d.game[i]) == record.incoming[i]
      ensures DigestOf(original[i]) == record.original[i]
    {
      assert record.original[i] == DigestOf(original[i]) && record.incoming[i] == DigestOf(incoming[i]);
    }
  }

  /** Every safe disk with a journal is recoverable, whatever history led to it. */
  lemma SafeJournalRecovers(d: Disk, root: string, versions: set<Files>)
    requires Safe(d, root, versions) && d.active.Some?
    ensures Recoverable(d, root)
  {
    var b := d.backups[d.active.value];
    assert forall i | 0 <= i < 3 ::
        b.record.value.original[i] == DigestOf(b.original[i]) && b.record.value.incoming[i] == DigestOf(b.incoming[i]);
  }

  /** The record of a backup names a folder and the digests of two versions. */
  ghost predicate RecordedAs(d: Disk, token: Token, folder: string, saved: Files, coming: Files) {
    token in d.backups && d.backups[token].record == Some(Record(folder, DigestsOf(saved), DigestsOf(coming)))
  }

  /** A backup may be restored into its own folder, while its saved files are the recorded ones and nobody else has
    * written to the game files. */
  ghost predicate MayRestore(d: Disk, root: string, token: Token, folder: string, saved: Files, coming: Files)
    requires token in d.backups
  {
    && folder == root && d.backups[token].original == saved
    && forall i | 0 <= i < 3 :: d.game[i] in {saved[i], coming[i]}
  }

  lemma SameDigests(a: Files, b: Files, i: nat)
    requires i < 3
    ensures DigestOf(a[i]) == DigestsOf(b)[i] <==> a[i] == b[i]
  {}

  /** What the comparison of digests comes to, in terms of the files themselves. */
  lemma RestoreAccepts(d: Disk, root: string, token: Token, folder: string, saved: Files, coming: Files)
    requires RecordedAs(d, token, folder, saved, coming)
    ensures Identified(d, root, token) <==> MayRestore(d, root, token, folder, saved, coming)
  {
    var original := d.backups[token].original;
    forall i: nat | i < 3
      ensures DigestOf(original[i]) == DigestsOf(saved)[i] <==> original[i] == saved[i]
      ensures DigestOf(d.game[i]) == DigestsOf(saved)[i] <==> d.game[i] == saved[i]
      ensures DigestOf(d.game[i]) == DigestsOf(coming)[i] <==> d.game[i] == coming[i]
    {
      SameDigests(original, saved, i);
      SameDigests(d.game, saved, i);
      SameDigests(d.game, coming, i);
    }
    assert original == saved <==> forall i | 0 <= i < 3 :: original[i] == saved[i];
  }

  lemma RecoveryAccepts(d: Disk, root: string)
    ensures d.active.Some? ==>
              forall folder, saved, coming | RecordedAs(d, d.active.value, folder, saved, coming) ::
                Recoverable(d, root) <==> IsToken(d.active.value) && MayRestore(d, root, d.active.value, folder, saved, coming)
  {
    if d.active.Some? {
      forall folder, saved, coming | RecordedAs(d, d.active.value, folder, saved, coming)
        ensures Recoverable(d, root) <==> IsToken(d.active.value) && MayRestore(d, root, d.active.value, folder, saved, coming)
      {
        RestoreAccepts(d, root, d.active.value, folder, saved, coming);
      }
    }
  }

  /** A marker is retired only for its own text, in the folder of the last update, while its files are in place. */
  lemma RetireAccepts(d: Disk, root: string, folder: string, saved: Files, coming: Files)
    requires d.previous.Some? && RecordedAs(d, d.previous.value, folder, saved, coming)
    ensures Finished(d, root) <==>
              && d.marker == Some("sentinel-update-v1\n") && IsToken(d.previous.value) && folder == root
              && forall i | 0 <= i < 3 :: d.game[i].Some? && d.game[i] == coming[i]
  {
    forall i: nat | i < 3 ensures DigestOf(d.game[i]) == DigestsOf(coming)[i] <==> d.game[i] == coming[i] {
      SameDigests(d.game, coming, i);
    }
  }

  /** A token is thirty-two lower-case hexadecimal digits. */
  lemma TokenText(token: Token)
    ensures IsToken(token) <==> |token| == 32 && forall i | 0 <= i < 32 :: '0' <= token[i] <= '9' || 'a' <= token[i] <= 'f'
  {}

  /** Whatever recovery accepts as finished is the recorded incoming version, file by file. */
  lemma FinishedIsIncoming(d: Disk, root: string, versions: set<Files>)
    requires Safe(d, root, versions) && Finished(d, root)
    ensures d.game == d.backups[d.previous.value].incoming
  {
    var b := d.backups[d.previous.value];
    forall i | 0 <= i < 3 ensures d.game[i] == b.incoming[i] {
      assert b.record.value.incoming[i] == DigestOf(b.incoming[i]);
    }
  }

  /** A marker without a journal, as in the window between removing the journal of an undone update
    * and removing its marker: the files are whole, and recovery accepts them exactly when they are the
    * version the last finished update installed. */
  lemma MarkerWithoutJournal(d: Disk, root: string, versions: set<Files>)
    requires Safe(d, root, versions) && d.active.None? && d.marker == Some(MARKER)
    ensures d.game in versions
    ensures Recoverable(d, root) <==>
              d.previous.Some? && AllPresent(d.game) && d.game == d.backups[d.previous.value].incoming
  {
    if d.previous.Some? {
      var b := d.backups[d.previous.value];
      assert forall i | 0 <= i < 3 :: b.record.value.incoming[i] == DigestOf(b.incoming[i]);
      if Finished(d, root) {
        FinishedIsIncoming(d, root, versions);
      }
    }
  }

  /** The disk between the two removals that end the undoing of an update. */
  function UndoWindow(d: Disk, original: Files): Disk {
    d.(game := original, active := None)
  }

  /** Without a previous record recovery refuses that disk, although the files are those from before the update. */
  lemma UndoneFirstUpdateIsRefused(d: Disk, root: string, original: Files)
    requires d.marker.Some? && d.previous.None?
    ensures UndoWindow(d, original).game == original && !Recoverable(UndoWindow(d, original), root)
  {}

  // ---------------------------------------------------------------- the operations

  /** The first `i` files of a version. */
  function Part(files: Files, i: nat): Files {
    seq(3, j requires 0 <= j < 3 => if j < i then files[j] else None)
  }

  datatype Call = Replace(incoming: Files) | Recover | Rollback

  class Installation {
    const root: string
    /** No operating-system call fails, the game stays closed and the installed files check out. */
    const undisturbed: bool
    var disk: Disk
    var history: seq<Disk>
    /** The lengths of the history at which the game was found closed. */
    ghost var closedAt: set<nat>

    constructor (root: string, undisturbed: bool, disk: Disk)
      ensures this.root == root && this.undisturbed == undisturbed
      ensures this.disk == disk && history == [] && closedAt == {}
    {
      this.root, this.undisturbed, this.disk, history, closedAt := root, undisturbed, disk, [], {};
    }

    /** One atomic file-system call. */
    method Commit(next: Disk) returns (ok: bool)
      modifies this`disk, this`history
      ensures ok ==> disk == next && history == old(history) + [next]
      ensures !ok ==> disk == old(disk) && history == old(history)
      ensures undisturbed ==> ok
    {
      ok := *;
      ok := ok || undisturbed;
      if ok {
        disk := next;
        history := history + [next];
      }
    }

    /** Whether a game process is running, or its absence cannot be established. */
    method GameMayRun() returns (seen: bool)
      modifies this`closedAt
      ensures closedAt == if seen then old(closedAt) else old(closedAt) + {|history|}
      ensures undisturbed ==> !seen
    {
      seen := *;
      seen := seen && !undisturbed;
      if !seen {
        closedAt := closedAt + {|history|};
      }
    }

    ghost predicate Restoring(before: Disk, from: nat, original: Files)
      reads this`history
    {
      from <= |history| && forall k | from <= k < |history| :: RestoreStep(before, history[k], original)
    }

    ghost predicate Recovering(before: Disk, from: nat)
      reads this`history
    {
      from <= |history| && forall k | from <= k < |history| :: RecoveryStep(before, history[k])
    }

    ghost predicate Replacing(before: Disk, from: nat, token: Token, incoming: Files)
      reads this`history
    {
      from <= |history| && forall k | from <= k < |history| :: ReplaceStep(before, history[k], root, token, incoming)
    }

    method Check(token: Token) returns (outcome: Outcome)
      ensures outcome.Done? <==> Identified(disk, root, token)
      ensures outcome.Done? ==> token in disk.backups && disk.backups[token].record.Some?
      ensures forall folder, saved, coming | RecordedAs(disk, token, folder, saved, coming) ::
                outcome.Done? <==> MayRestore(disk, root, token, folder, saved, coming)
    {
      forall folder, saved, coming | RecordedAs(disk, token, folder, saved, coming)
        ensures Identified(disk, root, token) <==> MayRestore(disk, root, token, folder, saved, coming)
      {
        RestoreAccepts(disk, root, token, folder, saved, coming);
      }
      if token !in disk.backups || disk.backups[token].record.None? {
        return Raised;
      }
      var record := disk.backups[token].record.value;
      if record.gameRoot != root {
        return Raised;
      }
      for i := 0 to 3
        invariant forall j | 0 <= j < i ::
                    && (DigestOf(disk.game[j]) == record.original[j] || DigestOf(disk.game[j]) == record.incoming[j])
                    && DigestOf(disk.backups[token].original[j]) == record.original[j]
      {
        var digest := DigestOf(disk.game[i]);
        if digest != record.original[i] && digest != record.incoming[i] {
          return Raised;
        }
        if DigestOf(disk.backups[token].original[i]) != record.original[i] {
          return Raised;
        }
      }
      outcome := Done;
    }

    method Restore(token: Token) returns (outcome: Outcome)
      modifies this`disk, this`history
      ensures !Identified(old(disk), root, token) ==> outcome.Raised? && disk == old(disk) && history == old(history)
      ensures forall folder, saved, coming | RecordedAs(old(disk), token, folder, saved, coming) ::
                && (undisturbed ==> (outcome.Done? <==> MayRestore(old(disk), root, token, folder, saved, coming)))
                && (!MayRestore(old(disk), root, token, folder, saved, coming) ==>
                      outcome.Raised? && disk == old(disk) && history == old(history))
      ensures old(history) <= history
      ensures Identified(old(disk), root, token) ==>
                var original := old(disk).backups[token].original;
                && Restoring(old(disk), |old(history)|, original) && RestoreStep(old(disk), disk, original)
                && (outcome.Done? ==> disk == old(disk).(game := original))
                && (undisturbed ==> outcome.Done?)
    {
      forall folder, saved, coming | RecordedAs(disk, token, folder, saved, coming)
        ensures Identified(disk, root, token) <==> MayRestore(disk, root, token, folder, saved, coming)
      {
        RestoreAccepts(disk, root, token, folder, saved, coming);
      }
      outcome := Check(token);
      if outcome.Raised? {
        return;
      }
      var original := disk.backups[token].original;
      for i := 0 to 3
        invariant old(history) <= history
        invariant Restoring(old(disk), |old(history)|, original) && RestoreStep(old(disk), disk, original)
        invariant forall j | 0 <= j < i :: disk.game[j] == original[j]
      {
        var ok := Commit(disk.(game := disk.game[i := original[i]]));
        if !ok {
          return Raised;
        }
      }
      assert disk.game == original;
    }

    method RecoverJournal() returns (outcome: Outcome)
      requires disk.active.Some?
      modifies this`disk, this`history
      ensures old(history) <= history && Recovering(old(disk), |old(history)|) && RecoveryStep(old(disk), disk)
      ensures outcome.Done? ==> Recoverable(old(disk), root) && disk.active.None? && disk.marker.None?
      ensures outcome.Done? ==> disk.game == old(disk).backups[old(disk).active.value].original
      ensures forall folder, saved, coming | RecordedAs(old(disk), old(disk).active.value, folder, saved, coming) ::
                var may := IsToken(old(disk).active.value) && MayRestore(old(disk), root, old(disk).active.value, folder, saved, coming);
                && (undisturbed ==> (outcome.Done? <==> may))
                && (!may ==> outcome.Raised? && disk == old(disk) && history == old(history))
      ensures !Recoverable(old(disk), root) ==> disk == old(disk) && history == old(history)
      ensures undisturbed ==> (outcome.Done? <==> Recoverable(old(disk), root))
    {
      RecoveryAccepts(disk, root);
      var token := disk.active.value;
      if !IsToken(token) {
        return Raised;
      }
      outcome := Restore(token);
      if outcome.Raised? {
        return;
      }
      var ok := Commit(disk.(active := None));
      if !ok {
        return Raised;
      }
      ok := Commit(disk.(marker := None));
      outcome := if ok then Done else Raised;
    }

    /** Confirms that a marker without a journal belongs to a finished update, then removes it. */
    method RetireMarker() returns (outcome: Outcome)
      requires disk.active.None? && disk.marker.Some?
      modifies this`disk, this`history
      ensures old(history) <= history && Recovering(old(disk), |old(history)|)
      ensures disk == if outcome.Done? then old(disk).(marker := None) else old(disk)
      ensures outcome.Done? ==> Finished(old(disk), root)
      ensures !Finished(old(disk), root) ==> history == old(history)
      ensures undisturbed ==> (outcome.Done? <==> Finished(old(disk), root))
    {
      if disk.previous.None? || !IsToken(disk.previous.value) {
        return Raised;
      }
      var token := disk.previous.value;
      if token !in disk.backups || disk.backups[token].record.None? {
        return Raised;
      }
      var record := disk.backups[token].record.value;
      if record.gameRoot != root || disk.marker != Some(MARKER) {
        return Raised;
      }
      for i := 0 to 3
        invariant forall j | 0 <= j < i :: disk.game[j].Some? && DigestOf(disk.game[j]) == record.incoming[j]
        invariant disk == old(disk) && history == old(history)
      {
        if disk.game[i].None? || DigestOf(disk.game[i]) != record.incoming[i] {
          return Raised;
        }
      }
      var ok := Commit(disk.(marker := None));
      outcome := if ok then Done else Raised;
    }

    method RecoverInterrupted() returns (outcome: Outcome)
      modifies this`disk, this`history
      ensures old(history) <= history && Recovering(old(disk), |old(history)|) && RecoveryStep(old(disk), disk)
      ensures outcome.Done? ==> Recoverable(old(disk), root) && disk.active.None? && disk.marker.None?
      ensures outcome.Done? && old(disk).active.Some? ==> disk.game == old(disk).backups[old(disk).active.value].original
      ensures outcome.Done? && old(disk).active.None? ==> disk == old(disk).(marker := None)
      ensures old(disk).active.Some? ==>
                forall folder, saved, coming | RecordedAs(old(disk), old(disk).active.value, folder, saved, coming) ::
                  var may := IsToken(old(disk).active.value) && MayRestore(old(disk), root, old(disk).active.value, folder, saved, coming);
                  && (undisturbed ==> (outcome.Done? <==> may))
                  && (!may ==> outcome.Raised? && disk == old(disk) && history == old(history))
      ensures !Recoverable(old(disk), root) ==> disk == old(disk) && history == old(history)
      ensures undisturbed ==> (outcome.Done? <==> Recoverable(old(disk), root))
    {
      if disk.active.Some? {
        outcome := RecoverJournal();
      } else if disk.marker.Some? {
        outcome := RetireMarker();
      } else {
        outcome := Done;
      }
    }

    /** Copies one file of either version; the original may be absent. */
    method SavePart(token: Token, original: Files, incoming: Files, i: nat, ghost before: Disk, ghost from: nat) returns (ok: bool)
      requires i < 3 && before.active.None? && Replacing(before, from, token, incoming)
      requires disk == before.(backups := before.backups[token := Backup(Part(original, i), Part(incoming, i), None)])
      modifies this`disk, this`history
      ensures old(history) <= history && Replacing(before, from, token, incoming)
      ensures disk == before || ReplaceStep(before, disk, root, token, incoming)
      ensures ok ==> disk == before.(backups := before.backups[token := Backup(Part(original, i + 1), Part(incoming, i + 1), None)])
      ensures undisturbed ==> ok
    {
      ok := true;
      if original[i].Some? {
        ok := Commit(disk.(backups := disk.backups[token := Backup(Part(original, i + 1), Part(incoming, i), None)]));
        if !ok {
          return;
        }
      } else {
        assert Part(original, i) == Part(original, i + 1);
      }
      ok := Commit(disk.(backups := disk.backups[token := Backup(Part(original, i + 1), Part(incoming, i + 1), None)]));
    }

    /** Copies both versions and their digests into a directory of their own; nothing names it yet. */
    method SaveBackup(token: Token, incoming: Files) returns (ok: bool)
      requires disk.active.None? && token !in disk.backups && AllPresent(incoming)
      modifies this`disk, this`history
      ensures old(history) <= history && Replacing(old(disk), |old(history)|, token, incoming)
      ensures disk == old(disk) || ReplaceStep(old(disk), disk, root, token, incoming)
      ensures ok ==> disk == old(disk).(backups := old(disk).backups[token := FullBackup(root, old(disk).game, incoming)])
      ensures undisturbed ==> ok
    {
      ghost var before := disk;
      var original := disk.game;
      ok := Commit(disk.(backups := disk.backups[token := Backup(Part(original, 0), Part(incoming, 0), None)]));
      if !ok {
        return;
      }
      for i := 0 to 3
        invariant old(history) <= history && Replacing(before, |old(history)|, token, incoming)
        invariant disk == before.(backups := before.backups[token := Backup(Part(original, i), Part(incoming, i), None)])
      {
        ok := SavePart(token, original, incoming, i, before, |old(history)|);
        if !ok {
          return;
        }
      }
      assert Part(original, 3) == original && Part(incoming, 3) == incoming;
      ok := Commit(disk.(backups := disk.backups[token := FullBackup(root, original, incoming)]));
    }

    /** Writes the incoming files one by one; a running game or a failed check raises. */
    method Install(ghost before: Disk, ghost from: nat, ghost token: Token, incoming: Files) returns (outcome: Outcome)
      requires Replacing(before, from, token, incoming) && ReplaceStep(before, disk, root, token, incoming)
      requires disk.active == Some(token) && disk.marker == Some(MARKER)
      modifies this
      ensures old(history) <= history && Replacing(before, from, token, incoming)
      ensures ReplaceStep(before, disk, root, token, incoming) && disk == old(disk).(game := disk.game)
      ensures outcome.Done? ==> disk.game == incoming
      ensures old(closedAt) <= closedAt && forall k | |old(history)| <= k < |history| :: k in closedAt
      ensures undisturbed ==> outcome.Done?
    {
      for i := 0 to 3
        invariant old(closedAt) <= closedAt && forall k | |old(history)| <= k < |history| :: k in closedAt
        invariant old(history) <= history && Replacing(before, from, token, incoming)
        invariant ReplaceStep(before, disk, root, token, incoming) && disk == old(disk).(game := disk.game)
        invariant forall j | 0 <= j < i :: disk.game[j] == incoming[j]
      {
        var running := GameMayRun();
        if running {
          return Raised;
        }
        var ok := Commit(disk.(game := disk.game[i := incoming[i]]));
        if !ok {
          return Raised;
        }
      }
      assert disk.game == incoming;
      var rejected: bool := *;
      outcome := if rejected && !undisturbed then Raised else Done;
    }

    lemma RestoringIsReplacing(before: Disk, from: nat, mixed: Disk, start: nat, token: Token, incoming: Files)
      requires ReplaceStep(before, mixed, root, token, incoming) && mixed.active == Some(token)
      requires from <= start <= |history|
      requires forall k | from <= k < start :: ReplaceStep(before, history[k], root, token, incoming)
      requires Restoring(mixed, start, before.game)
      ensures Replacing(before, from, token, incoming)
    {
      forall k | from <= k < |history| ensures ReplaceStep(before, history[k], root, token, incoming) {
        if start <= k { assert RestoreStep(mixed, history[k], before.game); }
      }
    }

    /** The exception path: restores the original files unless the game may be running. */
    method Undo(ghost before: Disk, ghost from: nat, token: Token, ghost incoming: Files)
      requires Replacing(before, from, token, incoming) && ReplaceStep(before, disk, root, token, incoming)
      requires disk.active == Some(token) && IsToken(token)
      modifies this
      ensures old(history) <= history && Replacing(before, from, token, incoming)
      ensures ReplaceStep(before, disk, root, token, incoming)
      ensures disk.active.None? ==> disk.game == before.game
      ensures disk.active.None? ==> UndoWindow(old(disk), before.game) in history[|old(history)|..]
      ensures old(closedAt) <= closedAt && (|old(history)| < |history| ==> |old(history)| in closedAt)
      ensures undisturbed ==> disk == UndoWindow(old(disk), before.game).(marker := None)
    {
      var running := GameMayRun();
      if running {
        return;
      }
      ReplaceIsAtomic(before, disk, root, token, incoming);
      JournalCanBeRecovered(disk, root, before.game, incoming);
      ghost var mixed := disk;
      ghost var start := |history|;
      var outcome := Restore(token);
      RestoringIsReplacing(before, from, mixed, start, token, incoming);
      if outcome.Raised? {
        return;
      }
      var ok := Commit(disk.(active := None));
      if !ok {
        return;
      }
      ghost var at := |history| - 1;
      assert history[at] == UndoWindow(mixed, before.game);
      ok := Commit(disk.(marker := None));
      assert history[start..][at - start] == history[at];
    }

    /** One run: the first update of a folder has written nothing but its journal and its marker when it is undone. On
      * the way the disk is one that recovery refuses. */
    static method UndoneFirstUpdateExample() returns (i: Installation)
      ensures fresh(i) && i.disk == Disk([None, None, None], None, None, None, i.disk.backups)
      ensures exists d | d in i.history :: d.game == i.disk.game && !Recoverable(d, i.root)
    {
      var token := "00112233445566778899aabbccddeeff";
      var game, incoming: Files := [None, None, None], [Some("core"), Some("loader"), Some("manifest")];
      ghost var before := Disk(game, None, None, None, map[]);
      var backup := FullBackup("game", game, incoming);
      i := new Installation("game", true, Disk(game, Some(MARKER), Some(token), None, map[token := backup]));
      ghost var started := i.disk;
      i.Undo(before, 0, token, incoming);
      UndoneFirstUpdateIsRefused(started, "game", game);
      assert UndoWindow(started, game) in i.history;
    }

    /** Thirty-two random hexadecimal digits. */
    method NewToken() returns (token: Token)
      ensures IsToken(token)
    {
      assert IsToken(seq(32, i => '0'));
      token :| IsToken(token);
    }

    lemma FirstWindowSeen(broken: Disk, start: nat, from: nat, before: Disk)
      requires from <= start <= |history| && UndoWindow(broken, before.game) in history[start..]
      requires broken.marker.Some? && broken.previous == before.previous
      ensures before.previous.None? ==> exists d | d in history[from..] :: d.game == before.game && !Recoverable(d, root)
    {
      if before.previous.None? {
        UndoneFirstUpdateIsRefused(broken, root, before.game);
        assert UndoWindow(broken, before.game) in history[from..];
      }
    }

    /** Names the backup in the journal, then sets the marker. */
    method Announce(ghost before: Disk, ghost from: nat, token: Token, ghost incoming: Files) returns (ok: bool)
      requires Replacing(before, from, token, incoming) && before.active.None? && disk == before.(backups := disk.backups)
      requires ReplaceStep(before, disk, root, token, incoming) && disk.backups[token].record.Some?
      modifies this`disk, this`history
      ensures old(history) <= history && Replacing(before, from, token, incoming)
      ensures ReplaceStep(before, disk, root, token, incoming) && disk.game == before.game
      ensures ok ==> disk == old(disk).(active := Some(token), marker := Some(MARKER))
      ensures undisturbed ==> ok
    {
      ok := Commit(disk.(active := Some(token)));
      if !ok {
        return;
      }
      ok := Commit(disk.(marker := Some(MARKER)));
    }

    /** Writes the files, or takes them back. */
    method InstallOrUndo(ghost before: Disk, ghost from: nat, token: Token, incoming: Files) returns (ok: bool)
      requires Replacing(before, from, token, incoming) && ReplaceStep(before, disk, root, token, incoming) && IsToken(token)
      requires disk.active == Some(token) && disk.marker == Some(MARKER) && disk.previous == before.previous
      modifies this
      ensures old(history) <= history && old(closedAt) <= closedAt && Replacing(before, from, token, incoming)
      ensures ReplaceStep(before, disk, root, token, incoming)
      ensures ok ==> disk == old(disk).(game := incoming)
      ensures !ok && disk.active.None? ==> disk.game == before.game
      ensures !ok && disk.active.None? && before.previous.None? ==>
                exists d | d in history[from..] :: d.game == before.game && !Recoverable(d, root)
      ensures undisturbed ==> ok
    {
      var outcome := Install(before, from, token, incoming);
      ok := outcome.Done?;
      if !ok {
        ghost var broken, start := disk, |history|;
        Undo(before, from, token, incoming);
        if disk.active.None? {
          FirstWindowSeen(broken, start, from, before);
        }
      }
    }

    /** The journal becomes the record of the last update, then the marker goes. */
    method Conclude(ghost before: Disk, ghost from: nat, token: Token, ghost incoming: Files) returns (ok: bool)
      requires Replacing(before, from, token, incoming) && ReplaceStep(before, disk, root, token, incoming)
      requires disk.active == Some(token) && disk.game == incoming
      modifies this`disk, this`history
      ensures old(history) <= history && Replacing(before, from, token, incoming)
      ensures ReplaceStep(before, disk, root, token, incoming)
      ensures disk.active.None? ==> disk.previous == Some(token)
      ensures ok ==> disk == old(disk).(active := None, previous := Some(token), marker := None)
      ensures undisturbed ==> ok
    {
      ok := Commit(disk.(active := None, previous := Some(token)));
      if !ok {
        return;
      }
      ok := Commit(disk.(marker := None));
    }

    /** Replaces the three files. A refused or failed call leaves the journal or the original files. */
    method ReplacePair(incoming: Files) returns (result: Result<Token, Refusal>, ghost token: Token)
      requires disk.active.None? && AllPresent(incoming)
      modifies this
      ensures old(history) <= history && IsToken(token)
      ensures token in old(disk).backups ==> result.Err? && disk == old(disk) && history == old(history)
      ensures Replacing(old(disk), |old(history)|, token, incoming)
      ensures disk == old(disk) || ReplaceStep(old(disk), disk, root, token, incoming)
      ensures result.Ok? ==>
                && result.value == token && disk.game == incoming
                && disk.active.None? && disk.marker.None? && disk.previous == Some(token)
                && disk.backups == old(disk).backups[token := FullBackup(root, old(disk).game, incoming)]
      ensures result.Err? && disk.active.None? ==> disk.game == old(disk).game || disk.previous == Some(token)
      ensures result == Err(NotRecovered) && disk.active.None? && old(disk).previous.None? ==>
                exists d | d in history[|old(history)|..] :: d.game == old(disk).game && !Recoverable(d, root)
      ensures old(closedAt) <= closedAt && (|old(history)| < |history| ==> |old(history)| in closedAt)
      ensures undisturbed && token !in old(disk).backups ==> result.Ok?
      ensures undisturbed && token in old(disk).backups ==> result == Err(DirectoryExists)
    {
      ghost var before := disk;
      ghost var from := |history|;
      var created := NewToken();
      token := created;
      var running := GameMayRun();
      if running {
        return Err(GameRunning), token;
      }
      if created in disk.backups {
        return Err(DirectoryExists), token;
      }
      var ok := SaveBackup(created, incoming);
      if !ok {
        return Err(CallFailed), token;
      }
      ok := Announce(before, from, created, incoming);
      if !ok {
        return Err(CallFailed), token;
      }
      ok := InstallOrUndo(before, from, created, incoming);
      if !ok {
        return Err(NotRecovered), token;
      }
      ok := Conclude(before, from, created, incoming);
      result := if ok then Ok(created) else Err(CallFailed);
    }

    ghost predicate AlwaysSafe(from: nat, versions: set<Files>)
      reads this`history
    {
      from <= |history| && forall k | from <= k < |history| :: Safe(history[k], root, versions)
    }

    lemma RecoveredSafely(before: Disk, from: nat, versions: set<Files>)
      requires Safe(before, root, versions) && Recovering(before, from) && RecoveryStep(before, disk)
      ensures AlwaysSafe(from, versions) && Safe(disk, root, versions)
    {
      forall k | from <= k < |history| ensures Safe(history[k], root, versions) {
        RecoveryIsSafe(before, history[k], root, versions);
      }
      RecoveryIsSafe(before, disk, root, versions);
    }

    lemma ReplacedSafely(before: Disk, from: nat, middle: nat, versions: set<Files>, token: Token, incoming: Files)
      requires Safe(before, root, versions) && before.active.None? && incoming in versions && IsToken(token)
      requires token in before.backups ==> disk == before && |history| == middle
      requires from <= middle <= |history|
      requires forall k | from <= k < middle :: Safe(history[k], root, versions)
      requires Replacing(before, middle, token, incoming)
      requires disk == before || ReplaceStep(before, disk, root, token, incoming)
      ensures AlwaysSafe(from, versions) && Safe(disk, root, versions)
    {
      forall k | middle <= k < |history| ensures Safe(history[k], root, versions) {
        ReplaceIsSafe(before, history[k], root, versions, token, incoming);
      }
      if disk != before {
        ReplaceIsSafe(before, disk, root, versions, token, incoming);
      }
    }

    /** A recovery, every state of which is safe. */
    method RecoverSafely(ghost versions: set<Files>) returns (outcome: Outcome)
      requires Safe(disk, root, versions)
      modifies this`disk, this`history
      ensures old(history) <= history && AlwaysSafe(|old(history)|, versions) && Safe(disk, root, versions)
      ensures outcome.Done? ==> disk.active.None? && disk.previous == old(disk).previous && disk.backups == old(disk).backups
      ensures undisturbed ==> (outcome.Done? <==> Recoverable(old(disk), root))
    {
      ghost var before, from := disk, |history|;
      outcome := RecoverInterrupted();
      RecoveredSafely(before, from, versions);
    }

    /** A replacement on a disk without journal, every state of which is safe. */
    method ReplaceSafely(incoming: Files, ghost from: nat, ghost versions: set<Files>) returns (result: Result<Token, Refusal>)
      requires disk.active.None? && AllPresent(incoming) && incoming in versions
      requires AlwaysSafe(from, versions) && Safe(disk, root, versions)
      modifies this
      ensures old(history) <= history && AlwaysSafe(from, versions) && Safe(disk, root, versions)
      ensures result.Ok? ==> disk.game == incoming && disk.active.None? && disk.marker.None?
      ensures old(closedAt) <= closedAt && (|old(history)| < |history| ==> |old(history)| in closedAt)
      ensures undisturbed ==> result.Ok? || result == Err(DirectoryExists)
    {
      ghost var before, middle := disk, |history|;
      ghost var token;
      result, token := ReplacePair(incoming);
      ReplacedSafely(before, from, middle, versions, token, incoming);
    }

    /** Brings back the files that the last finished replacement had saved. */
    method RollbackCore(ghost versions: set<Files>) returns (result: Result<Token, Refusal>)
      requires Safe(disk, root, versions)
      modifies this
      ensures old(history) <= history && AlwaysSafe(|old(history)|, versions) && Safe(disk, root, versions)
      ensures result.Ok? ==>
                && disk.active.None? && disk.marker.None? && disk.previous.None?
                && old(disk).previous == Some(result.value)
                && disk.game == old(disk).backups[result.value].original
      ensures |old(history)| < |history| ==> |old(history)| in closedAt
      ensures undisturbed && result != Err(DirectoryExists) ==>
                (result.Ok? <==> Recoverable(old(disk), root) && old(disk).previous.Some?
                                 && forall i | 0 <= i < 3 :: old(disk).backups[old(disk).previous.value].original[i].Some?)
    {
      var running := GameMayRun();
      if running {
        return Err(GameRunning);
      }
      var outcome := RecoverSafely(versions);
      if outcome.Raised? {
        return Err(NotRecovered);
      }
      if disk.previous.None? || !IsToken(disk.previous.value) {
        return Err(NoPrevious);
      }
      var target := disk.previous.value;
      if target !in disk.backups || !AllPresent(disk.backups[target].original) {
        return Err(NoPrevious);
      }
      result := ReplaceSafely(disk.backups[target].original, |old(history)|, versions);
      if result.Err? {
        return;
      }
      var ok := Commit(disk.(previous := None));
      result := if ok then Ok(target) else Err(CallFailed);
    }

    // -------------------------------------------------------------- whole runs

    /** A finished rollback undoes a finished replacement. */
    method ReplaceThenRollback(incoming: Files, ghost versions: set<Files>) returns (finished: bool)
      requires Safe(disk, root, versions) && disk.active.None? && AllPresent(incoming) && incoming in versions
      modifies this
      ensures finished ==> disk.game == old(disk).game && disk.active.None? && disk.marker.None?
    {
      ghost var before, from := disk, |history|;
      var replaced, token := ReplacePair(incoming);
      ReplacedSafely(before, from, from, versions, token, incoming);
      if replaced.Err? {
        return false;
      }
      var rolled := RollbackCore(versions);
      finished := rolled.Ok?;
    }

    method RunCall(call: Call, ghost versions: set<Files>)
      requires Safe(disk, root, versions)
      requires call.Replace? ==> AllPresent(call.incoming) && call.incoming in versions
      modifies this
      ensures old(history) <= history && AlwaysSafe(|old(history)|, versions) && Safe(disk, root, versions)
    {
      if call.Rollback? {
        var _ := RollbackCore(versions);
        return;
      }
      var outcome := RecoverSafely(versions);
      if call.Replace? && outcome.Done? {
        var _ := ReplaceSafely(call.incoming, |old(history)|, versions);
      }
    }

    /** Possibly throws the disk back to a state it was in since `from`. */
    method PowerLoss(from: nat, ghost versions: set<Files>)
      requires AlwaysSafe(from, versions) && Safe(disk, root, versions)
      modifies this
      ensures history == old(history)
      ensures Safe(disk, root, versions)
    {
      var k: int := *;
      if from <= k < |history| {
        disk := history[k];
      }
    }

    lemma JournalsRecover(from: nat, versions: set<Files>)
      requires AlwaysSafe(from, versions) && Safe(disk, root, versions)
      ensures disk.active.Some? ==> Recoverable(disk, root)
      ensures forall k | from <= k < |history| && history[k].active.Some? :: Recoverable(history[k], root)
    {
      if disk.active.Some? { SafeJournalRecovers(disk, root, versions); }
      forall k | from <= k < |history| && history[k].active.Some? ensures Recoverable(history[k], root) {
        SafeJournalRecovers(history[k], root, versions);
      }
    }

    /** Any sequence of operations, each of which a crash may cut short after any of its calls. A
      * replacement is preceded by recovery, as its callers arrange. */
    method Lifetime(calls: seq<Call>, ghost versions: set<Files>)
      requires Safe(disk, root, versions)
      requires forall i | 0 <= i < |calls| && calls[i].Replace? :: AllPresent(calls[i].incoming) && calls[i].incoming in versions
      modifies this
      ensures old(history) <= history && AlwaysSafe(|old(history)|, versions) && Safe(disk, root, versions)
      ensures disk.active.Some? ==> Recoverable(disk, root)
      ensures forall k | |old(history)| <= k < |history| && history[k].active.Some? :: Recoverable(history[k], root)
    {
      ghost var start := |history|;
      for i := 0 to |calls|
        invariant old(history) <= history && AlwaysSafe(start, versions) && Safe(disk, root, versions)
      {
        var from := |history|;
        RunCall(calls[i], versions);
        PowerLoss(from, versions);
      }
      JournalsRecover(start, versions);
    }
  }
}
