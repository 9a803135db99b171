/** Publication of several prepared files, all or nothing.
  *
  * Another program may change the folder between any two steps, also between the check of a file and the
  * replacement that the check guards, unless the folder is `quiet`. Each replacement takes effect as a
  * whole or fails without effect. */
module Publication {
  import opened Foundations

  type Bytes = string
  type Folder = map<string, Bytes>

  datatype Update = Update(name: string, payload: Bytes)

  /** What happened to the folder, in order: whatever other programs did between two steps, a check of one
    * file that found the expected bytes, and a replacement of one file. */
  datatype Event =
    | Foreign(before: Folder, after: Folder)
    | Checked(name: string, bytes: Bytes)
    | Replaced(name: string, held: Option<Bytes>, incoming: Bytes)

  datatype Outcome = Published | Refused | RolledBack | Stuck

  predicate DistinctNames(updates: seq<Update>) {
    forall i, j | 0 <= i < j < |updates| :: updates[i].name != updates[j].name
  }

  function UpdatedNames(updates: seq<Update>): set<string> {
    set u | u in updates :: u.name
  }

  function Held(folder: Folder, name: string): Option<Bytes> {
    if name in folder then Some(folder[name]) else None
  }

  /** Every updated file is there and has the reported digest, and no other file has one. */
  predicate Matches(folder: Folder, updates: seq<Update>, hashes: map<string, Digest>) {
    hashes.Keys == UpdatedNames(updates) && forall n | n in hashes :: n in folder && Sha256(folder[n]) == hashes[n]
  }

  /** The folder after the first `count` updates. */
  function After(folder: Folder, updates: seq<Update>, count: nat): Folder
    requires count <= |updates|
  {
    if count == 0 then folder else After(folder, updates, count - 1)[updates[count - 1].name := updates[count - 1].payload]
  }

  lemma {:induction false} AfterAt(folder: Folder, updates: seq<Update>, count: nat, name: string)
    requires count <= |updates| && DistinctNames(updates)
    ensures (forall i | 0 <= i < count :: updates[i].name != name) ==>
              (name in After(folder, updates, count) <==> name in folder) &&
              (name in folder ==> After(folder, updates, count)[name] == folder[name])
    ensures forall i | 0 <= i < count && updates[i].name == name ::
              name in After(folder, updates, count) && After(folder, updates, count)[name] == updates[i].payload
  {
    if count > 0 { AfterAt(folder, updates, count - 1, name); }
  }

  /** Skipping an update that changes nothing leaves the folder as the update would. */
  lemma Unchanged(folder: Folder, updates: seq<Update>, i: nat, originals: map<string, Bytes>)
    requires DistinctNames(updates) && i < |updates| && updates[i].name in originals && updates[i].name in folder
    requires folder[updates[i].name] == originals[updates[i].name] == updates[i].payload
    ensures After(folder, updates, i + 1) == After(folder, updates, i)
  {
    AfterAt(folder, updates, i, updates[i].name);
  }

  lemma TakenBack(folder: Folder, updates: seq<Update>, i: nat, originals: map<string, Bytes>)
    requires DistinctNames(updates) && i < |updates| && updates[i].name in originals && updates[i].name in folder
    requires folder[updates[i].name] == originals[updates[i].name]
    ensures After(folder, updates, i + 1)[updates[i].name := originals[updates[i].name]] == After(folder, updates, i)
  {
    AfterAt(folder, updates, i, updates[i].name);
  }

  /** Every updated file is there with its reported digest, and no digest is reported of any other. */
  ghost predicate AsReported(folder: Folder, updates: seq<Update>, hashes: map<string, Digest>) {
    && (forall i | 0 <= i < |updates| ::
          && updates[i].name in folder && updates[i].name in hashes
          && hashes[updates[i].name] == Sha256(folder[updates[i].name]))
    && (forall n | n in hashes :: exists i | 0 <= i < |updates| :: updates[i].name == n)
  }

  lemma MatchesMeans(folder: Folder, updates: seq<Update>, hashes: map<string, Digest>)
    ensures Matches(folder, updates, hashes) <==> AsReported(folder, updates, hashes)
  {
    forall i | 0 <= i < |updates| ensures updates[i].name in UpdatedNames(updates) {
      assert updates[i] in updates;
    }
    forall n | n in UpdatedNames(updates) ensures exists i | 0 <= i < |updates| :: updates[i].name == n {
      var u :| u in updates && u.name == n;
      var i :| 0 <= i < |updates| && updates[i] == u;
    }
  }

  /** All updates in place, and every other file as it was. */
  ghost predicate UpdatedExactly(before: Folder, after: Folder, updates: seq<Update>) {
    && (forall i | 0 <= i < |updates| :: updates[i].name in after && after[updates[i].name] == updates[i].payload)
    && (forall n | forall i | 0 <= i < |updates| :: updates[i].name != n ::
          (n in after <==> n in before) && (n in before ==> after[n] == before[n]))
  }

  lemma AfterAll(folder: Folder, updates: seq<Update>)
    requires DistinctNames(updates)
    ensures UpdatedExactly(folder, After(folder, updates, |updates|), updates)
  {
    forall n
      ensures (forall i | 0 <= i < |updates| :: updates[i].name != n) ==>
                (n in After(folder, updates, |updates|) <==> n in folder) &&
                (n in folder ==> After(folder, updates, |updates|)[n] == folder[n])
      ensures forall i | 0 <= i < |updates| && updates[i].name == n ::
                n in After(folder, updates, |updates|) && After(folder, updates, |updates|)[n] == updates[i].payload
    {
      AfterAt(folder, updates, |updates|, n);
    }
  }

  // ---------------------------------------------------------------- what a replacement overwrites

  /** From the expected bytes of an update to the incoming ones: publishing it, or taking it back. */
  predicate Direction(u: Update, original: Bytes, expected: Bytes, incoming: Bytes) {
    || (expected == original && incoming == u.payload)
    || (expected == u.payload && incoming == original)
  }

  /** A replacement follows its own check, with nothing but other programs in between. */
  ghost predicate GuardedBy(log: seq<Event>, k: nat, originals: map<string, Bytes>, u: Update) {
    && 2 <= k < |log| && log[k].Replaced? && log[k - 1].Foreign? && log[k - 2].Checked?
    && u.name in originals && u.payload != originals[u.name]
    && log[k].name == log[k - 2].name == u.name
    && Held(log[k - 1].before, u.name) == Some(log[k - 2].bytes) && log[k].held == Held(log[k - 1].after, u.name)
    && Direction(u, originals[u.name], log[k - 2].bytes, log[k].incoming)
  }

  ghost predicate Guarded(log: seq<Event>, k: nat, originals: map<string, Bytes>, updates: seq<Update>) {
    exists i | 0 <= i < |updates| :: GuardedBy(log, k, originals, updates[i])
  }

  ghost predicate AllGuarded(log: seq<Event>, from: nat, originals: map<string, Bytes>, updates: seq<Update>) {
    from <= |log| && forall k: nat | from <= k < |log| && log[k].Replaced? :: Guarded(log, k, originals, updates)
  }

  /** The replacement overwrote an original by its update, or an update by its original. */
  ghost predicate Justified(e: Event, originals: map<string, Bytes>, updates: seq<Update>)
    requires e.Replaced?
  {
    exists i | 0 <= i < |updates| ::
      updates[i].name == e.name && e.name in originals && e.held.Some? && Direction(updates[i], originals[e.name], e.held.value, e.incoming)
  }

  /** Another program changed the file between the two steps around `e`. */
  predicate Touches(e: Event, name: string)
    requires e.Foreign?
  {
    Held(e.before, name) != Held(e.after, name)
  }

  /** Exactly when a replacement overwrites only bytes it may: no other program changed the file between the
    * check and the replacement. */
  lemma JustifiedUnlessTouched(log: seq<Event>, from: nat, k: nat, originals: map<string, Bytes>, updates: seq<Update>)
    requires DistinctNames(updates) && AllGuarded(log, from, originals, updates) && from <= k < |log| && log[k].Replaced?
    ensures 1 <= k && log[k - 1].Foreign?
    ensures Justified(log[k], originals, updates) <==> !Touches(log[k - 1], log[k].name)
  {
    assert Guarded(log, k, originals, updates);
    var i :| 0 <= i < |updates| && GuardedBy(log, k, originals, updates[i]);
    if Justified(log[k], originals, updates) {
      var j :| 0 <= j < |updates| && updates[j].name == log[k].name
               && Direction(updates[j], originals[log[k].name], log[k].held.value, log[k].incoming);
      assert i == j;
    }
  }

  /** One failing interleaving: the file is checked, another program writes it, and the publication overwrites
    * what that program wrote. */
  lemma ForeignBytesLost()
    ensures var originals, updates := map["idRehash.map" := "old"], [Update("idRehash.map", "new")];
            var log := [Checked("idRehash.map", "old"),
                        Foreign(map["idRehash.map" := "old"], map["idRehash.map" := "theirs"]),
                        Replaced("idRehash.map", Some("theirs"), "new")];
            AllGuarded(log, 0, originals, updates) && !Justified(log[2], originals, updates)
  {
    var originals, updates := map["idRehash.map" := "old"], [Update("idRehash.map", "new")];
    var log := [Checked("idRehash.map", "old"),
                Foreign(map["idRehash.map" := "old"], map["idRehash.map" := "theirs"]),
                Replaced("idRehash.map", Some("theirs"), "new")];
    assert originals["idRehash.map"] == "old" && "old" != "new";
    assert GuardedBy(log, 2, originals, updates[0]);
    assert Guarded(log, 2, originals, updates);
    assert "theirs"[0] != "old"[0] && "theirs"[0] != "new"[0];
    assert !Direction(updates[0], "old", "theirs", "new");
  }

  // ---------------------------------------------------------------- the folder

  /** Guarded so far and guarded since is guarded throughout. */
  lemma StillGuarded(before: seq<Event>, after: seq<Event>, from: nat, originals: map<string, Bytes>, updates: seq<Update>)
    requires before <= after && AllGuarded(before, from, originals, updates) && AllGuarded(after, |before|, originals, updates)
    ensures AllGuarded(after, from, originals, updates)
  {
    forall k: nat | from <= k < |after| && after[k].Replaced? ensures Guarded(after, k, originals, updates) {
      if k < |before| {
        assert Guarded(before, k, originals, updates);
        var i :| 0 <= i < |updates| && GuardedBy(before, k, originals, updates[i]);
        assert GuardedBy(after, k, originals, updates[i]);
      }
    }
  }

  lemma AllInPlace(folder: Folder, updates: seq<Update>)
    requires DistinctNames(updates)
    ensures forall u | u in updates ::
              u.name in After(folder, updates, |updates|) && After(folder, updates, |updates|)[u.name] == u.payload
  {
    forall u | u in updates
      ensures u.name in After(folder, updates, |updates|) && After(folder, updates, |updates|)[u.name] == u.payload
    {
      AfterAt(folder, updates, |updates|, u.name);
    }
  }

  class Directory {
    /** No other program writes. */
    const quiet: bool
    /** No other program writes and no call fails. */
    const undisturbed: bool
    var files: Folder
    var log: seq<Event>

    constructor (quiet: bool, undisturbed: bool, files: Folder)
      ensures this.quiet == (quiet || undisturbed) && this.undisturbed == undisturbed && this.files == files && log == []
    {
      this.quiet, this.undisturbed, this.files, log := quiet || undisturbed, undisturbed, files, [];
    }

    ghost predicate Valid() {
      undisturbed ==> quiet
    }

    /** Whatever other programs do between two steps; in a quiet folder, nothing. */
    method Outside()
      modifies this
      ensures log == old(log) + [Foreign(old(files), files)] && (quiet ==> files == old(files))
    {
      var other: Folder := *;
      other := if quiet then files else other;
      log := log + [Foreign(files, other)];
      files := other;
    }

    /** Whether a call succeeds. */
    method Succeeds() returns (ok: bool)
      ensures undisturbed ==> ok
    {
      ok := *;
      ok := ok || undisturbed;
    }

    /** Puts one file in place as a whole, whatever is there, or fails without effect. */
    method PublishFile(name: string, payload: Bytes) returns (ok: bool)
      modifies this
      ensures ok ==> files == old(files)[name := payload] && log == old(log) + [Replaced(name, Held(old(files), name), payload)]
      ensures !ok ==> files == old(files) && log == old(log)
      ensures undisturbed ==> ok
    {
      ok := Succeeds();
      if ok {
        log := log + [Replaced(name, Held(files, name), payload)];
        files := files[name := payload];
      }
    }

    /** Replaces one file if it holds the expected bytes and the incoming ones could be staged; other programs
      * may write after the check. */
    method CheckAndReplace(u: Update, originals: map<string, Bytes>, expected: Bytes, incoming: Bytes, staged: bool, ghost updates: seq<Update>)
      returns (ok: bool)
      requires Valid() && u in updates && u.name in originals && u.payload != originals[u.name]
      requires Direction(u, originals[u.name], expected, incoming)
      modifies this
      ensures old(log) <= log && AllGuarded(log, |old(log)|, originals, updates)
      ensures quiet ==> files == if ok then old(files)[u.name := incoming] else old(files)
      ensures ok && quiet ==> Held(old(files), u.name) == Some(expected)
      ensures undisturbed && staged && Held(old(files), u.name) == Some(expected) ==> ok
    {
      Outside();
      if Held(files, u.name) != Some(expected) {
        return false;
      }
      log := log + [Checked(u.name, expected)];
      Outside();
      if !staged {
        return false;
      }
      ok := PublishFile(u.name, incoming);
      if ok {
        ghost var i :| 0 <= i < |updates| && updates[i] == u;
        assert GuardedBy(log, |log| - 1, originals, updates[i]);
        assert Guarded(log, |log| - 1, originals, updates);
      }
    }

    /** Reads the files to be updated and compares their digests with the reported ones. */
    method ReadOriginals(updates: seq<Update>, hashes: map<string, Digest>) returns (originals: Option<map<string, Bytes>>)
      modifies this
      ensures old(log) <= log && (forall k | |old(log)| <= k < |log| :: log[k].Foreign?) && (quiet ==> files == old(files))
      ensures originals.Some? ==>
                && originals.value.Keys == hashes.Keys == UpdatedNames(updates)
                && forall n | n in hashes :: Sha256(originals.value[n]) == hashes[n]
      ensures quiet ==> (originals.Some? <==> Matches(old(files), updates, hashes))
      ensures originals.Some? && quiet ==> forall n | n in originals.value :: n in files && files[n] == originals.value[n]
    {
      var read: map<string, Bytes> := map[];
      for i := 0 to |updates|
        invariant old(log) <= log && (forall k | |old(log)| <= k < |log| :: log[k].Foreign?) && (quiet ==> files == old(files))
        invariant read.Keys == set j | 0 <= j < i :: updates[j].name
        invariant quiet ==> forall n | n in read :: n in files && files[n] == read[n]
      {
        Outside();
        if updates[i].name !in files {
          assert updates[i] in updates && updates[i].name in UpdatedNames(updates);
          return None;
        }
        read := read[updates[i].name := files[updates[i].name]];
      }
      assert read.Keys == UpdatedNames(updates);
      if hashes.Keys != read.Keys || exists n | n in hashes :: Sha256(read[n]) != hashes[n] {
        return None;
      }
      originals := Some(read);
    }

    /** Publishes every changed file; `published` counts the updates that are in place. */
    method PublishAll(updates: seq<Update>, originals: map<string, Bytes>) returns (ok: bool, published: nat)
      requires Valid() && DistinctNames(updates) && forall u | u in updates :: u.name in originals
      requires quiet ==> forall u | u in updates :: u.name in files && files[u.name] == originals[u.name]
      modifies this
      ensures published <= |updates| && old(log) <= log && AllGuarded(log, |old(log)|, originals, updates)
      ensures ok ==> published == |updates|
      ensures quiet ==> files == After(old(files), updates, published)
      ensures undisturbed ==> ok
    {
      for i := 0 to |updates|
        invariant old(log) <= log && AllGuarded(log, |old(log)|, originals, updates)
        invariant quiet ==> files == After(old(files), updates, i)
      {
        var u := updates[i];
        if quiet { AfterAt(old(files), updates, i, u.name); }
        if u.payload == originals[u.name] {
          if quiet { Unchanged(old(files), updates, i, originals); }
        } else {
          ghost var before := log;
          var done := CheckAndReplace(u, originals, originals[u.name], u.payload, true, updates);
          StillGuarded(before, log, |old(log)|, originals, updates);
          if !done {
            return false, i;
          }
        }
      }
      return true, |updates|;
    }

    /** Takes the first `published` updates back, last first, stopping at any file that changed since. */
    method RollBack(updates: seq<Update>, originals: map<string, Bytes>, published: nat, ghost start: Folder) returns (complete: bool)
      requires Valid() && DistinctNames(updates) && published <= |updates| && forall u | u in updates :: u.name in originals
      requires quiet ==> forall u | u in updates :: u.name in start && start[u.name] == originals[u.name]
      requires quiet ==> files == After(start, updates, published)
      modifies this
      ensures old(log) <= log && AllGuarded(log, |old(log)|, originals, updates)
      ensures complete && quiet ==> files == start
      ensures undisturbed ==> complete
    {
      var i: nat := published;
      while i > 0
        invariant i <= published
        invariant old(log) <= log && AllGuarded(log, |old(log)|, originals, updates)
        invariant quiet ==> files == After(start, updates, i)
      {
        i := i - 1;
        var u := updates[i];
        if quiet { AfterAt(start, updates, i + 1, u.name); }
        if u.payload == originals[u.name] {
          if quiet { Unchanged(start, updates, i, originals); }
        } else {
          if quiet { TakenBack(start, updates, i, originals); }
          var staged := Succeeds();
          ghost var before := log;
          var done := CheckAndReplace(u, originals, u.payload, originals[u.name], staged, updates);
          StillGuarded(before, log, |old(log)|, originals, updates);
          if !done {
            return false;
          }
        }
      }
      complete := true;
    }

    /** Reads every file back and compares it with its update. */
    method ReadBack(updates: seq<Update>) returns (ok: bool)
      modifies this
      ensures old(log) <= log && (forall k | |old(log)| <= k < |log| :: log[k].Foreign?) && (quiet ==> files == old(files))
      ensures quiet ==> (ok <==> forall u | u in updates :: u.name in files && files[u.name] == u.payload)
    {
      for i := 0 to |updates|
        invariant old(log) <= log && (forall k | |old(log)| <= k < |log| :: log[k].Foreign?) && (quiet ==> files == old(files))
        invariant quiet ==> forall j | 0 <= j < i :: updates[j].name in files && files[updates[j].name] == updates[j].payload
      {
        Outside();
        if Held(files, updates[i].name) != Some(updates[i].payload) {
          assert updates[i] in updates;
          return false;
        }
      }
      ok := true;
    }

    /** Publishes the staged files and takes them back if anything goes wrong. */
    method PublishOrRollBack(updates: seq<Update>, originals: map<string, Bytes>) returns (outcome: Outcome)
      requires Valid() && DistinctNames(updates) && forall u | u in updates :: u.name in originals
      requires quiet ==> forall u | u in updates :: u.name in files && files[u.name] == originals[u.name]
      modifies this
      ensures old(log) <= log && AllGuarded(log, |old(log)|, originals, updates) && outcome != Refused
      ensures quiet && outcome == Published ==> files == After(old(files), updates, |updates|)
      ensures quiet && outcome == Published ==> forall u | u in updates :: u.name in files && files[u.name] == u.payload
      ensures quiet && outcome == RolledBack ==> files == old(files)
      ensures undisturbed ==> outcome == Published
    {
      ghost var start := files;
      var ok, published := PublishAll(updates, originals);
      if ok {
        if quiet { AllInPlace(start, updates); }
        ok := ReadBack(updates);
      }
      if ok {
        return Published;
      }
      ghost var before := log;
      var complete := RollBack(updates, originals, published, start);
      StillGuarded(before, log, |old(log)|, originals, updates);
      outcome := if complete then RolledBack else Stuck;
    }

    /** All or nothing without other programs; every replacement guarded by its own check in any case; and in an
      * undisturbed folder, published exactly when names and digests match. */
    method Publish(updates: seq<Update>, hashes: map<string, Digest>) returns (outcome: Outcome, ghost originals: map<string, Bytes>)
      requires Valid() && forall i, j | 0 <= i < j < |updates| :: updates[i].name != updates[j].name
      modifies this
      ensures old(log) <= log && AllGuarded(log, |old(log)|, originals, updates)
      ensures outcome != Refused ==> originals.Keys == hashes.Keys && forall n | n in hashes :: Sha256(originals[n]) == hashes[n]
      ensures outcome == Refused ==> forall k | |old(log)| <= k < |log| :: log[k].Foreign?
      ensures quiet && outcome == Published ==> files == After(old(files), updates, |updates|)
      ensures quiet && outcome == Published ==> forall u | u in updates :: u.name in files && files[u.name] == u.payload
      ensures quiet && (outcome == Refused || outcome == RolledBack) ==> files == old(files)
      ensures quiet && outcome == Published ==> UpdatedExactly(old(files), files, updates)
      ensures quiet && !AsReported(old(files), updates, hashes) ==> outcome == Refused
      ensures undisturbed ==> (outcome == Published <==> AsReported(old(files), updates, hashes))
    {
      MatchesMeans(files, updates, hashes);
      AfterAll(files, updates);
      originals := map[];
      var read := ReadOriginals(updates, hashes);
      if read.None? {
        return Refused, originals;
      }
      originals := read.value;
      var staged := Succeeds();
      if !staged {
        return Refused, originals;
      }
      assert forall u | u in updates :: u.name in UpdatedNames(updates);
      outcome := PublishOrRollBack(updates, read.value);
    }
  }
}
