/** Replacing a state file under the setup lock: what a crash at any point may
    leave, and what success and failure mean. */
module AtomicWrite {
  import opened Wrappers

  type Inode = nat

  /** Names as processes see them and as a crash may leave them (until the
      directory is synced, either); contents as written and as on disk. */
  datatype Disk = Disk(
    entries: map<string, Inode>,
    durable: map<string, Inode>,
    written: map<Inode, string>,
    flushed: map<Inode, string>)

  function Get<K, V>(m: map<K, V>, k: K): Option<V> {
    if k in m then Some(m[k]) else None
  }

  /** An inode whose content survives a crash. */
  predicate Whole(d: Disk, i: Inode, content: string) {
    Get(d.written, i) == Some(content) && Get(d.flushed, i) == Some(content)
  }

  /** What a name is bound to holds all of one of these contents; no content is
      no entry. */
  predicate Holds(d: Disk, binding: Option<Inode>, allowed: set<Option<string>>) {
    match binding
    case None => None in allowed
    case Some(i) => i in d.written && Some(d.written[i]) in allowed && Whole(d, i, d.written[i])
  }

  /** A crash now leaves one of these contents under the name, whole. */
  predicate CrashSafe(d: Disk, name: string, allowed: set<Option<string>>) {
    Holds(d, Get(d.entries, name), allowed) && Holds(d, Get(d.durable, name), allowed)
  }

  ghost predicate AlwaysSafe(history: seq<Disk>, from: nat, name: string, allowed: set<Option<string>>) {
    forall k | from <= k < |history| :: CrashSafe(history[k], name, allowed)
  }

  /** The entry is not the one the tenure of the lock has seen. */
  predicate Strange(d: Disk, seen: map<string, Option<Inode>>, name: string) {
    name in seen && seen[name] != Get(d.entries, name)
  }

  predicate Bound(d: Disk, name: string, i: Inode) {
    Get(d.entries, name) == Some(i) || Get(d.durable, name) == Some(i)
  }

  /** Nothing that leaves the name's own bindings and their contents alone can
      hurt. */
  lemma ElsewhereIsSafe(
      history: seq<Disk>, a: Disk, b: Disk, from: nat, name: string, allowed: set<Option<string>>)
    requires CrashSafe(a, name, allowed) && AlwaysSafe(history, from, name, allowed)
    requires Get(b.entries, name) == Get(a.entries, name)
    requires Get(b.durable, name) == Get(a.durable, name) || Get(b.durable, name) == Get(a.entries, name)
    requires forall i | Bound(a, name, i) :: Get(b.written, i) == Get(a.written, i) && Get(b.flushed, i) == Get(a.flushed, i)
    ensures CrashSafe(b, name, allowed) && AlwaysSafe(history + [b], from, name, allowed)
  {
    assert Get(a.entries, name).Some? ==> Bound(a, name, Get(a.entries, name).value);
    assert Get(a.durable, name).Some? ==> Bound(a, name, Get(a.durable, name).value);
  }

  /** Nor can binding the name to a whole allowed content. */
  lemma RenamedIsSafe(
      history: seq<Disk>, a: Disk, b: Disk, from: nat, name: string, i: Inode, raw: string, allowed: set<Option<string>>)
    requires CrashSafe(a, name, allowed) && AlwaysSafe(history, from, name, allowed)
    requires Whole(a, i, raw) && Some(raw) in allowed
    requires b.written == a.written && b.flushed == a.flushed && b.durable == a.durable
    requires Get(b.entries, name) == Some(i)
    ensures CrashSafe(b, name, allowed) && AlwaysSafe(history + [b], from, name, allowed)
  {
  }

  lemma StartsSafe(history: seq<Disk>, d: Disk, name: string, allowed: set<Option<string>>, more: set<Option<string>>)
    requires CrashSafe(d, name, allowed) && allowed <= more
    ensures CrashSafe(d, name, more) && AlwaysSafe(history, |history|, name, more)
  {
  }

  function Renamed(d: Disk, temp: string, name: string): Disk
    requires temp in d.entries
  {
    d.(entries := d.entries[name := d.entries[temp]] - {temp})
  }

  datatype Problem = NoLock | Changed | Interrupted | Io

  const OPEN_ATTEMPTS := 16

  class StateDir {
    var disk: Disk
    var nextInode: Inode
    var activeToken: Option<nat>
    var activeEntries: map<string, Option<Inode>>
    var nextToken: nat
    // Every state the disk has been in, and whether anyone else changed names.
    ghost var history: seq<Disk>
    ghost var disturbed: bool
    // The entry last looked at, and what it was bound to then.
    ghost var seen: Option<(string, Option<Inode>)>
    // Renames reported done, and names whose removal was asked for.
    ghost var renames: seq<(string, string)>
    ghost var removals: seq<string>

    ghost predicate Valid()
      reads this
    {
      && (activeToken.Some? ==> activeToken.value < nextToken)
      && (forall n <- disk.entries :: disk.entries[n] < nextInode)
      && (forall n <- disk.durable :: disk.durable[n] < nextInode)
      && (forall i <- disk.written :: i < nextInode)
      && (forall i <- disk.flushed :: i < nextInode)
    }

    constructor (disk: Disk, nextInode: Inode)
      requires forall n <- disk.entries :: disk.entries[n] < nextInode
      requires forall n <- disk.durable :: disk.durable[n] < nextInode
      requires (forall i <- disk.written :: i < nextInode) && (forall i <- disk.flushed :: i < nextInode)
      ensures Valid() && this.disk == disk && activeToken.None? && history == [disk] && !disturbed
    {
      this.disk, this.nextInode := disk, nextInode;
      activeToken, activeEntries, nextToken := None, map[], 0;
      history, disturbed, seen, renames, removals := [disk], false, None, [], [];
    }

    // --- The setup lock ------------------------------------------------------------

    predicate Owns(token: Option<nat>)
      reads this
    {
      token.Some? && activeToken == token
    }

    /** The tail of acquireLock, once the lock file is held. A token is new: it
        was never live before. */
    method Activate() returns (token: Option<nat>)
      requires Valid()
      modifies this
      ensures Valid() && disk == old(disk) && history == old(history) && disturbed == old(disturbed)
      ensures old(activeToken.Some?) ==> token.None? && activeToken == old(activeToken)
      ensures old(activeToken.None?) ==>
                token == activeToken == Some(old(nextToken)) && activeEntries == map[] && nextToken == old(nextToken) + 1
    {
      if activeToken.Some? {
        return None;
      }
      token := Some(nextToken);
      activeToken := token;
      activeEntries := map[];
      nextToken := nextToken + 1;
    }

    /** Only the lock that is active ends the tenure. */
    method Deactivate(token: nat) returns (owned: bool)
      requires Valid()
      modifies this
      ensures Valid() && disk == old(disk) && history == old(history) && nextToken == old(nextToken)
      ensures owned <==> old(activeToken) == Some(token)
      ensures if owned then activeToken.None? else activeToken == old(activeToken) && activeEntries == old(activeEntries)
    {
      owned := activeToken == Some(token);
      if owned {
        activeToken := None;
        activeEntries := map[];
      }
    }

    // --- The file system -------------------------------------------------------------

    method Set(next: Disk)
      requires Valid()
      requires forall n <- next.entries :: next.entries[n] < nextInode
      requires forall n <- next.durable :: next.durable[n] < nextInode
      requires (forall i <- next.written :: i < nextInode) && (forall i <- next.flushed :: i < nextInode)
      modifies this`disk, this`history
      ensures Valid() && disk == next && history == old(history) + [next]
    {
      disk := next;
      history := history + [next];
    }

    /** Whoever ignores the lock may rebind names at any time. */
    method Others()
      requires Valid()
      modifies this`disk, this`history, this`disturbed
      ensures Valid()
      ensures disturbed || (disk == old(disk) && history == old(history) && disturbed == old(disturbed))
      ensures old(history) <= history && (old(disturbed) ==> disturbed)
      ensures disk.written == old(disk.written) && disk.flushed == old(disk.flushed)
    {
      var entries: map<string, Inode>, durable: map<string, Inode> := *, *;
      var act: bool := *;
      if act && (forall n <- entries :: entries[n] < nextInode) && (forall n <- durable :: durable[n] < nextInode) {
        disturbed := true;
        Set(disk.(entries := entries, durable := durable));
      }
    }

    method Fails() returns (failed: bool) {
      failed := *;
    }

    /** The opened file is still what the name leads to. */
    method ValidateOpenEntry(i: Inode, name: string) returns (ok: bool)
      ensures ok ==> Get(disk.entries, name) == Some(i)
    {
      var failed := Fails();
      ok := !failed && Get(disk.entries, name) == Some(i);
    }

    method Capture(name: string) returns (identity: Option<Option<Inode>>)
      modifies this`seen
      ensures identity.Some? ==> identity.value == Get(disk.entries, name) && seen == Some((name, identity.value))
    {
      var failed := Fails();
      identity := if failed then None else Some(Get(disk.entries, name));
      if !failed {
        seen := Some((name, Get(disk.entries, name)));
      }
    }

    /** trackActiveEntry: within one tenure of the lock, an entry keeps the
        identity it was first seen with. */
    method Track(name: string, identity: Option<Inode>) returns (ok: bool)
      requires Valid()
      modifies this`activeEntries
      ensures Valid()
      ensures ok <==> activeToken.None? || Get(old(activeEntries), name) in {None, Some(identity)}
      ensures ok && activeToken.Some? ==> activeEntries == old(activeEntries)[name := identity]
      ensures !ok || activeToken.None? ==> activeEntries == old(activeEntries)
    {
      if activeToken.None? {
        return true;
      }
      if name in activeEntries && activeEntries[name] != identity {
        return false;
      }
      activeEntries := activeEntries[name := identity];
      return true;
    }

    method CreateTemp(prefix: string) returns (temp: Option<string>)
      requires Valid()
      modifies this`disk, this`history, this`nextInode
      ensures Valid()
      ensures temp.None? ==> disk == old(disk) && history == old(history) && nextInode == old(nextInode)
      ensures temp.Some? ==>
                && prefix <= temp.value && temp.value !in old(disk.entries) && nextInode == old(nextInode) + 1
                && disk == old(disk).(entries := old(disk.entries)[temp.value := old(nextInode)],
                                      written := old(disk.written)[old(nextInode) := ""])
                && history == old(history) + [disk]
    {
      for attempt := 0 to OPEN_ATTEMPTS
        invariant Valid() && disk == old(disk) && history == old(history) && nextInode == old(nextInode)
      {
        var suffix: string := *;
        var name := prefix + suffix;
        var failed := Fails();
        if failed {
          return None;
        }
        if name !in disk.entries {
          var i := nextInode;
          nextInode := nextInode + 1;
          Set(disk.(entries := disk.entries[name := i], written := disk.written[i := ""]));
          return Some(name);
        }
      }
      return None;
    }

    /** A write that fails may have written a part. */
    method Write(i: Inode, raw: string) returns (ok: bool)
      requires Valid() && i < nextInode
      modifies this`disk, this`history
      ensures Valid() && history == old(history) + [disk]
      ensures i in disk.written && disk == old(disk).(written := old(disk.written)[i := disk.written[i]])
      ensures ok ==> disk.written[i] == raw
    {
      var failed := Fails();
      var part: string := *;
      var text := if failed then part else raw;
      Set(disk.(written := disk.written[i := text]));
      return !failed;
    }

    method SyncFile(i: Inode) returns (ok: bool)
      requires Valid() && i in disk.written
      modifies this`disk, this`history
      ensures Valid() && old(history) <= history
      ensures ok ==> disk == old(disk).(flushed := old(disk.flushed)[i := old(disk.written)[i]]) && history == old(history) + [disk]
      ensures !ok ==> disk == old(disk) && history == old(history)
    {
      var failed := Fails();
      if failed {
        return false;
      }
      Set(disk.(flushed := disk.flushed[i := disk.written[i]]));
      return true;
    }

    /** A sync that fails may still have reached the disk. */
    method SyncDir() returns (ok: bool)
      requires Valid()
      modifies this`disk, this`history
      ensures Valid() && history == old(history) + [disk]
      ensures disk == old(disk) || disk == old(disk).(durable := old(disk.entries))
      ensures ok ==> disk.durable == disk.entries
    {
      ok := Fails();
      var applied: bool := *;
      Set(if ok || applied then disk.(durable := disk.entries) else disk);
    }

    /** The visibility commit. Its precondition is the discipline: the lock is
        held, and when the entry was last looked at it had the identity it is
        tracked with. What the names lead to by now is another matter. A rename
        that reports an error may have been done. */
    method Rename(token: Option<nat>, temp: string, name: string) returns (ok: bool)
      requires Valid() && temp != name && Owns(token)
      requires name in activeEntries && seen == Some((name, activeEntries[name]))
      modifies this`disk, this`history, this`renames
      ensures Valid() && history == old(history) + [disk]
      ensures disk == old(disk) || (temp in old(disk.entries) && disk == Renamed(old(disk), temp, name))
      ensures ok ==> temp in old(disk.entries) && disk == Renamed(old(disk), temp, name)
      ensures renames == if ok then old(renames) + [(temp, name)] else old(renames)
    {
      var failed := Fails();
      var applied: bool := *;
      ok := !failed && temp in disk.entries;
      Set(if ok || (applied && temp in disk.entries) then Renamed(disk, temp, name) else disk);
      if ok {
        renames := renames + [(temp, name)];
      }
    }

    // --- The replace -------------------------------------------------------------------

    /** What one run of the write has kept so far. */
    ghost predicate Kept(from: nat, name: string, allowed: set<Option<string>>, own: Option<Inode>)
      reads this
    {
      && from <= |history|
      && (!disturbed ==>
            && CrashSafe(disk, name, allowed) && AlwaysSafe(history, from, name, allowed)
            && (own.Some? ==> !Bound(disk, name, own.value)))
    }

    /** The entry as found, which must be the one this tenure of the lock knows. */
    method Baseline(name: string, ghost from: nat, ghost allowed: set<Option<string>>)
      returns (r: Result<Option<Inode>, Problem>)
      requires Valid() && Kept(from, name, allowed, None)
      modifies this`disk, this`history, this`disturbed, this`seen, this`activeEntries
      ensures Valid() && old(history) <= history && (old(disturbed) ==> disturbed)
      ensures Kept(from, name, allowed, None)
      ensures r.Success? && activeToken.Some? ==> Get(activeEntries, name) == Some(r.value)
      ensures !disturbed ==> disk == old(disk)
      ensures !disturbed && activeToken.Some? && Strange(old(disk), old(activeEntries), name) ==> r.Failure?
    {
      hide CrashSafe, AlwaysSafe;
      var broken := Fails();
      if broken {
        return Failure(Changed);
      }
      Others();
      var baseline := Capture(name);
      if baseline.None? {
        return Failure(Changed);
      }
      var tracked := Track(name, baseline.value);
      return if tracked then Success(baseline.value) else Failure(Changed);
    }

    /** Up to the creation of the temp file. */
    method Prepare(name: string, prefix: string, ghost from: nat, ghost allowed: set<Option<string>>)
      returns (r: Result<(string, Option<Inode>), Problem>)
      requires Valid() && !(prefix <= name) && Kept(from, name, allowed, None)
      modifies this`disk, this`history, this`disturbed, this`seen, this`activeEntries, this`nextInode
      ensures Valid() && old(history) <= history && (old(disturbed) ==> disturbed)
      ensures nextInode == old(nextInode) + if r.Success? then 1 else 0
      ensures Kept(from, name, allowed, if r.Success? then Some(old(nextInode)) else None)
      ensures r.Success? ==>
                && prefix <= r.value.0 && r.value.0 != name && Get(disk.entries, r.value.0) == Some(old(nextInode)) && old(nextInode) in disk.written
                && (activeToken.Some? ==> Get(activeEntries, name) == Some(r.value.1))
      ensures !disturbed && r.Failure? ==> disk == old(disk)
      ensures !disturbed && activeToken.Some? && Strange(old(disk), old(activeEntries), name) ==> r.Failure?
    {
      hide CrashSafe, AlwaysSafe, Strange;
      var baseline :- Baseline(name, from, allowed);
      Others();
      ghost var before, past := disk, history;
      var temp := CreateTemp(prefix);
      if temp.None? {
        return Failure(Io);
      }
      if !disturbed {
        ElsewhereIsSafe(past, before, disk, from, name, allowed);
      }
      return Success((temp.value, baseline));
    }

    /** Fills the temp file and puts it on disk. */
    method Fill(name: string, temp: string, i: Inode, raw: string, ghost from: nat, ghost allowed: set<Option<string>>)
      returns (r: Result<(), Problem>)
      requires Valid() && i < nextInode && i in disk.written && Kept(from, name, allowed, Some(i))
      modifies this`disk, this`history, this`disturbed
      ensures Valid() && old(history) <= history && (old(disturbed) ==> disturbed)
      ensures Kept(from, name, allowed, Some(i))
      ensures r.Success? ==> Whole(disk, i, raw)
    {
      hide CrashSafe, AlwaysSafe;
      var unfit := Fails();
      if unfit {
        return Failure(Io);
      }
      Others();
      var ok := ValidateOpenEntry(i, temp);
      if !ok {
        return Failure(Changed);
      }
      Others();
      ghost var before, past := disk, history;
      ok := Write(i, raw);
      if !disturbed {
        ElsewhereIsSafe(past, before, disk, from, name, allowed);
      }
      if !ok {
        return Failure(Io);
      }
      r := Flush(name, i, raw, from, allowed);
    }

    method Flush(name: string, i: Inode, raw: string, ghost from: nat, ghost allowed: set<Option<string>>)
      returns (r: Result<(), Problem>)
      requires Valid() && Get(disk.written, i) == Some(raw) && Kept(from, name, allowed, Some(i))
      modifies this`disk, this`history, this`disturbed
      ensures Valid() && old(history) <= history && (old(disturbed) ==> disturbed)
      ensures Kept(from, name, allowed, Some(i))
      ensures r.Success? ==> Whole(disk, i, raw)
    {
      hide CrashSafe, AlwaysSafe;
      Others();
      ghost var before, past := disk, history;
      var ok := SyncFile(i);
      if ok && !disturbed {
        ElsewhereIsSafe(past, before, disk, from, name, allowed);
      }
      return if ok then Success(()) else Failure(Io);
    }

    /** The last look before the commit: the exact temp inode, then the entry it
        is to replace. Others may act in between. */
    method LookAgain(
        name: string, temp: string, i: Inode, raw: string, baseline: Option<Inode>,
        ghost from: nat, ghost allowed: set<Option<string>>)
      returns (r: Result<(), Problem>)
      requires Valid() && activeToken.Some? && Whole(disk, i, raw) && Kept(from, name, allowed, Some(i))
      modifies this`disk, this`history, this`disturbed, this`seen, this`activeEntries
      ensures Valid() && old(history) <= history && (old(disturbed) ==> disturbed)
      ensures Whole(disk, i, raw) && Kept(from, name, allowed, Some(i))
      ensures r.Success? ==>
                && Get(disk.entries, name) == baseline
                && Get(activeEntries, name) == Some(baseline) && seen == Some((name, baseline))
                && (!disturbed ==> Get(disk.entries, temp) == Some(i))
    {
      hide CrashSafe, AlwaysSafe;
      var ended := Fails();
      if ended {
        return Failure(Interrupted);
      }
      Others();
      var ok := ValidateOpenEntry(i, temp);
      if !ok {
        return Failure(Changed);
      }
      Others();
      var current := Capture(name);
      if current.None? || current.value != baseline {
        return Failure(Changed);
      }
      ok := Track(name, current.value);
      return if ok then Success(()) else Failure(Changed);
    }

    /** The commit. Once renamed, the temp name is gone whatever comes after. */
    method Commit(
        token: Option<nat>, name: string, temp: string, i: Inode, raw: string,
        ghost from: nat, ghost allowed: set<Option<string>>)
      returns (r: Result<(), Problem>, committed: bool)
      requires Valid() && temp != name && i < nextInode
      requires Owns(token) && name in activeEntries && seen == Some((name, activeEntries[name]))
      requires Whole(disk, i, raw) && (!disturbed ==> Get(disk.entries, temp) == Some(i))
      requires Kept(from, name, allowed, None) && Some(raw) in allowed
      modifies this`disk, this`history, this`disturbed, this`activeEntries, this`renames
      ensures Valid() && old(history) <= history && (old(disturbed) ==> disturbed)
      ensures Kept(from, name, allowed, None)
      ensures renames == if committed then old(renames) + [(temp, name)] else old(renames)
      ensures r.Success? ==>
                && committed && Get(disk.entries, name) == Some(i) && Whole(disk, i, raw)
                && Get(activeEntries, name) == Some(Some(i))
                && (!disturbed ==> Get(disk.durable, name) == Some(i))
    {
      hide CrashSafe, AlwaysSafe;
      Others();
      ghost var before, past := disk, history;
      var ok := Rename(token, temp, name);
      if !disturbed {
        if disk == before {
          ElsewhereIsSafe(past, before, disk, from, name, allowed);
        } else {
          RenamedIsSafe(past, before, disk, from, name, i, raw, allowed);
        }
      }
      if !ok {
        return Failure(Io), false;
      }
      r := Confirm(name, i, raw, from, allowed);
      committed := true;
    }

    /** Success is reported only once the directory is synced and the visible
        entry is the exact inode just written. */
    method Confirm(name: string, i: Inode, raw: string, ghost from: nat, ghost allowed: set<Option<string>>)
      returns (r: Result<(), Problem>)
      requires Valid() && Whole(disk, i, raw) && Kept(from, name, allowed, None)
      modifies this`disk, this`history, this`disturbed, this`activeEntries
      ensures Valid() && old(history) <= history && (old(disturbed) ==> disturbed)
      ensures Kept(from, name, allowed, None)
      ensures r.Success? ==>
                && Get(disk.entries, name) == Some(i) && Whole(disk, i, raw) && Get(activeEntries, name) == Some(Some(i))
                && (!disturbed ==> Get(disk.durable, name) == Some(i))
    {
      hide CrashSafe, AlwaysSafe;
      Others();
      ghost var before, past := disk, history;
      var ok := SyncDir();
      if !disturbed {
        ElsewhereIsSafe(past, before, disk, from, name, allowed);
      }
      if !ok {
        return Failure(Io);
      }
      Others();
      ok := ValidateOpenEntry(i, name);
      if !ok {
        return Failure(Changed);
      }
      activeEntries := activeEntries[name := Some(i)];
      var broken := Fails();
      return if broken then Failure(Changed) else Success(());
    }

    /** Removing the temp entry, then the sync that makes its absence last. */
    method RemoveTemp(name: string, temp: string, ghost from: nat, ghost allowed: set<Option<string>>)
      requires Valid() && temp != name && Kept(from, name, allowed, None)
      modifies this`disk, this`history, this`disturbed, this`removals
      ensures Valid() && old(history) <= history && Kept(from, name, allowed, None)
      ensures disk.written == old(disk.written) && disk.flushed == old(disk.flushed)
      ensures (old(disturbed) ==> disturbed) && removals == old(removals) + [temp]
    {
      hide CrashSafe, AlwaysSafe;
      Others();
      var applied: bool := *;
      ghost var before, past := disk, history;
      removals := removals + [temp];
      if applied {
        Set(disk.(entries := disk.entries - {temp}));
        if !disturbed {
          ElsewhereIsSafe(past, before, disk, from, name, allowed);
        }
      }
      Others();
      before, past := disk, history;
      var _ := SyncDir();
      if !disturbed {
        ElsewhereIsSafe(past, before, disk, from, name, allowed);
      }
    }

    /** From the new temp file on: fill it, look again, commit; a temp file that
        was not renamed is removed. */
    method Replace(
        token: Option<nat>, name: string, temp: string, i: Inode, baseline: Option<Inode>, raw: string,
        ghost from: nat, ghost allowed: set<Option<string>>)
      returns (r: Result<(), Problem>)
      requires Valid() && Owns(token) && temp != name && i < nextInode && i in disk.written
      requires Kept(from, name, allowed, Some(i)) && Some(raw) in allowed
      modifies this`disk, this`history, this`disturbed, this`seen, this`activeEntries, this`renames, this`removals
      ensures Valid() && old(history) <= history && (old(disturbed) ==> disturbed) && Kept(from, name, allowed, None)
      ensures r.Success? ==>
                && Get(disk.entries, name) == Some(i) && Whole(disk, i, raw) && Get(activeEntries, name) == Some(Some(i))
                && (!disturbed ==> Get(disk.durable, name) == Some(i)) && removals == old(removals)
      ensures if removals == old(removals) then renames == old(renames) + [(temp, name)]
              else renames == old(renames) && removals == old(removals) + [temp]
    {
      hide CrashSafe, AlwaysSafe;
      var committed := false;
      r := Fill(name, temp, i, raw, from, allowed);
      if r.Success? {
        r := LookAgain(name, temp, i, raw, baseline, from, allowed);
      }
      if r.Success? {
        r, committed := Commit(token, name, temp, i, raw, from, allowed);
      }
      if !committed {
        RemoveTemp(name, temp, from, allowed);
      }
    }

    method WriteFileAtomic(
        token: Option<nat>, name: string, prefix: string, raw: string, ghost allowed: set<Option<string>>)
      returns (r: Result<(), Problem>, ghost temp: Option<string>)
      requires Valid() && !(prefix <= name) && CrashSafe(disk, name, allowed)
      modifies this`disk, this`history, this`disturbed, this`seen, this`activeEntries, this`nextInode
      modifies this`renames, this`removals
      ensures Valid() && old(history) <= history && (old(disturbed) ==> disturbed)
      // One of the old contents or the new one, whole, at every point, unless
      // others rebound names.
      ensures !disturbed ==> AlwaysSafe(history, |old(history)|, name, allowed + {Some(raw)})
      ensures !disturbed ==> CrashSafe(disk, name, allowed + {Some(raw)})
      // Success: the visible entry is the inode just written and synced.
      ensures r.Success? ==>
                && Owns(token) && Get(disk.entries, name) == Some(old(nextInode)) && Whole(disk, old(nextInode), raw)
                && Get(activeEntries, name) == Some(Some(old(nextInode)))
                && (!disturbed ==> Get(disk.durable, name) == Some(old(nextInode)))
      // A temp file made is renamed, or its removal is asked for, and not both.
      ensures nextInode == old(nextInode) + if temp.Some? then 1 else 0
      ensures (r.Success? ==> temp.Some? && removals == old(removals)) && (temp.Some? ==> prefix <= temp.value)
      ensures match temp
              case None => renames == old(renames) && removals == old(removals)
              case Some(t) =>
                if removals == old(removals) then renames == old(renames) + [(t, name)]
                else renames == old(renames) && removals == old(removals) + [t]
      // Without the lock nothing happens.
      ensures !Owns(token) ==> r == Failure(NoLock) && history == old(history) && disk == old(disk)
      // Nor when the entry is not the one this tenure of the lock knows.
      ensures !disturbed && Owns(token) && Strange(old(disk), old(activeEntries), name) ==>
                r.Failure? && disk == old(disk)
    {
      temp := None;
      if !Owns(token) {
        return Failure(NoLock), temp;
      }
      hide CrashSafe, AlwaysSafe;
      ghost var from, all := |history|, allowed + {Some(raw)};
      StartsSafe(history, disk, name, allowed, all);
      var prepared := Prepare(name, prefix, from, all);
      if prepared.Failure? {
        return Failure(prepared.error), temp;
      }
      temp := Some(prepared.value.0);
      r := Replace(token, name, prepared.value.0, nextInode - 1, prepared.value.1, raw, from, all);
    }
  }
}
