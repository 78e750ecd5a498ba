/** Opening a state directory: no part of its path is trusted unlooked at, and
    no handle is lost or closed twice on any way out. */
module PathWalk {
  import opened Wrappers

  datatype Kind = Directory | Symlink | OtherKind

  datatype Stat = Stat(kind: Kind, uid: nat, permissions: bv12) {
    predicate Sticky() {
      permissions & 0x200 != 0
    }

    predicate WritableByOthers() {
      permissions & 0x12 != 0
    }
  }

  datatype Errno = Enoent | Eexist | Denied | OtherErrno

  datatype Problem = Config | Continuity | Untrusted | Unreachable

  /** A shared root is trusted only when sticky and owned by root. */
  predicate TrustedAncestor(s: Stat, euid: nat) {
    && s.kind.Directory? && (s.uid == 0 || s.uid == euid)
    && (!s.WritableByOthers() || (s.uid == 0 && s.Sticky()))
  }

  predicate PrivateDirectory(s: Stat, euid: nat) {
    s.kind.Directory? && s.permissions & 0x1FF == 0x1C0 && s.uid == euid
  }

  /** Bit by bit: of an ancestor's nine permission bits the two that let others
      write are clear, unless it is root's and sticky. */
  lemma TrustedAncestorBits(s: Stat, euid: nat)
    ensures TrustedAncestor(s, euid) <==>
            && s.kind == Directory && s.uid in {0, euid}
            && ((s.permissions & 0x10 == 0 && s.permissions & 0x02 == 0) || (s.uid == 0 && s.permissions & 0x200 != 0))
  {
  }

  /** Bit by bit: the owner's three permission bits are set, nobody else's are,
      and a directory like that is a trusted ancestor too. */
  lemma PrivateDirectoryBits(s: Stat, euid: nat)
    ensures PrivateDirectory(s, euid) <==>
            && s.kind == Directory && s.uid == euid
            && s.permissions & 0x100 != 0 && s.permissions & 0x80 != 0 && s.permissions & 0x40 != 0
            && s.permissions & 0x38 == 0 && s.permissions & 0x07 == 0
    ensures PrivateDirectory(s, euid) ==> TrustedAncestor(s, euid)
  {
  }

  /** What the kernel did of what it was asked to, by prefix of the path. */
  datatype Done = Made(prefix: nat) | Chmodded(prefix: nat) | Synced(prefix: nat)

  /** The kernel's side: open handles, the prefix of the path each stands for,
      what the last look at each prefix showed, through a handle or by name, and
      what has been done and refused. Answers are arbitrary. */
  class Kernel {
    const euid: nat
    var handles: set<nat>
    ghost var prefixOf: map<nat, nat>
    ghost var byHandle: map<nat, Stat>
    ghost var byName: map<nat, Stat>
    ghost var done: seq<Done>
    ghost var mkdirFaults: nat
    // The answer to the last open, the prefixes an open was denied, and those
    // opened by absolute path.
    ghost var refusal: Option<Errno>
    ghost var denials: set<nat>
    ghost var reached: set<nat>

    constructor (euid: nat)
      ensures this.euid == euid && handles == {} && prefixOf == map[] && byHandle == map[] && byName == map[]
      ensures done == [] && mkdirFaults == 0 && refusal == None && denials == {} && reached == {}
    {
      this.euid := euid;
      handles, prefixOf, byHandle, byName := {}, map[], map[], map[];
      done, mkdirFaults, refusal, denials, reached := [], 0, None, {}, {};
    }

    method Grant(ghost prefix: nat) returns (r: Result<nat, Errno>)
      modifies this`handles, this`prefixOf, this`refusal, this`denials
      ensures r.Success? ==>
                && r.value !in old(handles) && handles == old(handles) + {r.value}
                && prefixOf == old(prefixOf)[r.value := prefix] && refusal == None && denials == old(denials)
      ensures r.Failure? ==>
                && handles == old(handles) && prefixOf == old(prefixOf) && refusal == Some(r.error)
                && denials == if r.error.Denied? then old(denials) + {prefix} else old(denials)
    {
      var fd: nat, errno: Errno, refused: bool := *, *, *;
      if refused || fd in handles {
        refusal := Some(errno);
        if errno.Denied? {
          denials := denials + {prefix};
        }
        return Failure(errno);
      }
      refusal := None;
      handles := handles + {fd};
      prefixOf := prefixOf[fd := prefix];
      return Success(fd);
    }

    /** By absolute path. */
    method Open(prefix: nat) returns (r: Result<nat, Errno>)
      modifies this`handles, this`prefixOf, this`refusal, this`denials, this`reached
      ensures r.Success? ==>
                && r.value !in old(handles) && handles == old(handles) + {r.value}
                && prefixOf == old(prefixOf)[r.value := prefix] && denials == old(denials)
      ensures r.Failure? ==>
                && handles == old(handles) && prefixOf == old(prefixOf)
                && denials == if r.error.Denied? then old(denials) + {prefix} else old(denials)
      ensures reached == if r.Success? then old(reached) + {prefix} else old(reached)
    {
      r := Grant(prefix);
      if r.Success? {
        reached := reached + {prefix};
      }
    }

    /** The next component below an open handle. */
    method OpenAt(parent: nat) returns (r: Result<nat, Errno>)
      requires parent in handles && parent in prefixOf
      modifies this`handles, this`prefixOf, this`refusal, this`denials
      ensures r.Success? ==>
                && r.value !in old(handles) && handles == old(handles) + {r.value}
                && prefixOf == old(prefixOf)[r.value := old(prefixOf)[parent] + 1]
                && refusal == None && denials == old(denials)
      ensures r.Failure? ==>
                && handles == old(handles) && prefixOf == old(prefixOf) && refusal == Some(r.error)
                && denials == if r.error.Denied? then old(denials) + {prefixOf[parent] + 1} else old(denials)
    {
      r := Grant(prefixOf[parent] + 1);
    }

    /** Closing what is not open is what must never happen. */
    method Close(fd: nat)
      requires fd in handles
      modifies this`handles
      ensures handles == old(handles) - {fd}
    {
      handles := handles - {fd};
    }

    method Fstat(fd: nat) returns (s: Option<Stat>)
      requires fd in handles && fd in prefixOf
      modifies this`byHandle
      ensures byHandle == if s.Some? then old(byHandle)[prefixOf[fd] := s.value] else old(byHandle)
    {
      s := *;
      if s.Some? {
        byHandle := byHandle[prefixOf[fd] := s.value];
      }
    }

    method Lstat(prefix: nat) returns (s: Option<Stat>)
      modifies this`byName
      ensures byName == if s.Some? then old(byName)[prefix := s.value] else old(byName)
    {
      s := *;
      if s.Some? {
        byName := byName[prefix := s.value];
      }
    }

    method Mkdir(parent: nat) returns (r: Result<(), Errno>)
      requires parent in handles && parent in prefixOf
      modifies this`done, this`mkdirFaults
      ensures done == if r.Success? then old(done) + [Made(prefixOf[parent] + 1)] else old(done)
      ensures mkdirFaults == old(mkdirFaults) + if r.Failure? && r.error != Eexist then 1 else 0
    {
      r := *;
      if r.Success? {
        done := done + [Made(prefixOf[parent] + 1)];
      } else if r.Failure? && r.error != Eexist {
        mkdirFaults := mkdirFaults + 1;
      }
    }

    method Chmod(fd: nat) returns (ok: bool)
      requires fd in handles && fd in prefixOf
      modifies this`done
      ensures done == if ok then old(done) + [Chmodded(prefixOf[fd])] else old(done)
    {
      ok := *;
      if ok {
        done := done + [Chmodded(prefixOf[fd])];
      }
    }

    method Sync(fd: nat) returns (ok: bool)
      requires fd in handles && fd in prefixOf
      modifies this`done
      ensures done == if ok then old(done) + [Synced(prefixOf[fd])] else old(done)
    {
      ok := *;
      if ok {
        done := done + [Synced(prefixOf[fd])];
      }
    }
  }

  /** The last look at this prefix found it trusted. */
  predicate FoundTrusted(seen: map<nat, Stat>, n: nat, euid: nat) {
    n in seen && TrustedAncestor(seen[n], euid)
  }

  /** So for every prefix from one to another. */
  ghost predicate Walked(seen: map<nat, Stat>, from: nat, to: int, euid: nat) {
    forall n: nat | from <= n <= to :: FoundTrusted(seen, n, euid)
  }

  /** A look at one prefix leaves what was seen of the others. */
  lemma OtherPrefixes(before: map<nat, Stat>, after: map<nat, Stat>, n: nat, from: nat, to: int, euid: nat)
    requires after - {n} == before - {n} && Walked(before, from, to, euid) && to < n
    ensures Walked(after, from, to, euid)
  {
    hide TrustedAncestor;
    forall m: nat | from <= m <= to
      ensures FoundTrusted(after, m, euid)
    {
      assert FoundTrusted(before, m, euid);
      assert m in before - {n};
      assert m in after && (before - {n})[m] == (after - {n})[m];
    }
  }

  lemma OneMore(seen: map<nat, Stat>, from: nat, to: nat, euid: nat)
    requires Walked(seen, from, to, euid) && FoundTrusted(seen, to + 1, euid)
    ensures Walked(seen, from, to + 1, euid)
  {
    hide TrustedAncestor;
  }

  /** The last look at the directory itself: private to this user. */
  ghost predicate FoundPrivate(k: Kernel, fd: nat, n: nat)
    reads k
  {
    fd in k.prefixOf && k.prefixOf[fd] == n && n in k.byHandle && PrivateDirectory(k.byHandle[n], k.euid)
  }

  /** What a writable walk leaves behind for one component: made with its mode
      set, if it was missing, and then on disk before the edge that leads to it. */
  predicate Settled(did: seq<Done>, prefix: nat, writable: bool) {
    var syncs := if writable then [Synced(prefix + 1), Synced(prefix)] else [];
    did == syncs || (writable && did == [Made(prefix + 1), Chmodded(prefix + 1)] + syncs)
  }

  /** One component: opened without following links, created when missing,
      checked, and synced with its parent. On failure nothing stays open. */
  method OpenComponent(k: Kernel, parent: nat, prefix: nat, writable: bool)
    returns (r: Result<nat, Problem>, denied: bool, ghost did: seq<Done>)
    requires parent in k.handles && parent in k.prefixOf && k.prefixOf[parent] == prefix
    modifies k
    ensures r.Success? ==>
              && r.value !in old(k.handles) && k.handles == old(k.handles) + {r.value}
              && k.prefixOf == old(k.prefixOf)[r.value := prefix + 1] && FoundTrusted(k.byHandle, prefix + 1, k.euid)
    ensures k.done == old(k.done) + did && (r.Success? ==> Settled(did, prefix, writable))
    ensures r.Success? ==> k.mkdirFaults == old(k.mkdirFaults)
    ensures r.Failure? ==> k.handles == old(k.handles) && r.error in {Continuity, Untrusted}
    ensures denied <==> r.Failure? && k.refusal == Some(Denied)
    ensures denied ==> prefix + 1 in k.denials && k.byHandle == old(k.byHandle)
    ensures k.byHandle - {prefix + 1} == old(k.byHandle) - {prefix + 1} && k.byName == old(k.byName)
  {
    denied, did := false, [];
    var next := k.OpenAt(parent);
    var created := false;
    if next == Failure(Enoent) && writable {
      var made := k.Mkdir(parent);
      if made.Failure? && made.error != Eexist {
        return Failure(Continuity), false, did;
      }
      created := made.Success?;
      did := if created then [Made(prefix + 1)] else [];
      next := k.OpenAt(parent);
    }
    if next.Failure? {
      return Failure(Continuity), next.error == Denied, did;
    }
    ghost var after;
    r, after := Settle(k, parent, next.value, prefix, created, writable);
    did := did + after;
  }

  /** The rest of a component, once it is open. */
  method Settle(k: Kernel, parent: nat, fd: nat, prefix: nat, created: bool, writable: bool)
    returns (r: Result<nat, Problem>, ghost did: seq<Done>)
    requires parent in k.handles && fd in k.handles && parent != fd && parent in k.prefixOf && fd in k.prefixOf
    requires k.prefixOf[parent] == prefix && k.prefixOf[fd] == prefix + 1 && (created ==> writable)
    modifies k`handles, k`byHandle, k`done
    ensures r.Success? ==> r.value == fd && k.handles == old(k.handles) && FoundTrusted(k.byHandle, prefix + 1, k.euid)
    ensures r.Failure? ==> k.handles == old(k.handles) - {fd} && r.error in {Continuity, Untrusted}
    ensures k.done == old(k.done) + did
    ensures r.Success? ==>
              did == (if created then [Chmodded(prefix + 1)] else []) +
                     (if writable then [Synced(prefix + 1), Synced(prefix)] else [])
    ensures k.byHandle - {prefix + 1} == old(k.byHandle) - {prefix + 1}
  {
    did := [];
    if created {
      var ok := k.Chmod(fd);
      if !ok {
        k.Close(fd);
        return Failure(Continuity), did;
      }
      did := [Chmodded(prefix + 1)];
    }
    var stat := k.Fstat(fd);
    if stat.None? {
      k.Close(fd);
      return Failure(Continuity), did;
    }
    LookedAt(old(k.byHandle), stat.value, prefix + 1);
    if !TrustedAncestor(stat.value, k.euid) {
      k.Close(fd);
      return Failure(Untrusted), did;
    }
    if writable {
      var synced := k.Sync(fd);
      if !synced {
        k.Close(fd);
        return Failure(Continuity), did;
      }
      did := did + [Synced(prefix + 1)];
      synced := k.Sync(parent);
      if !synced {
        k.Close(fd);
        return Failure(Continuity), did;
      }
      did := did + [Synced(prefix)];
    }
    return Success(fd), did;
  }

  /** What was seen above the anchor is untouched. */
  ghost predicate SameAbove(before: map<nat, Stat>, after: map<nat, Stat>, anchor: nat) {
    forall n: nat | n < anchor && n in before :: n in after && before[n] == after[n]
  }

  lemma StillAbove(before: map<nat, Stat>, between: map<nat, Stat>, after: map<nat, Stat>, anchor: nat, n: nat)
    requires SameAbove(before, between, anchor) && after - {n} == between - {n} && anchor <= n
    ensures SameAbove(before, after, anchor)
  {
    forall m: nat | m < anchor && m in before
      ensures m in after && before[m] == after[m]
    {
      assert m in between - {n};
      assert (between - {n})[m] == (after - {n})[m];
    }
  }

  lemma LookAgain(seen: map<nat, Stat>, s: Stat, n: nat, from: nat, euid: nat)
    requires Walked(seen, from, n, euid) && PrivateDirectory(s, euid)
    ensures Walked(seen[n := s], from, n, euid)
  {
    PrivateDirectoryBits(s, euid);
    hide TrustedAncestor;
    var after := seen[n := s];
    forall m: nat | from <= m <= n
      ensures FoundTrusted(after, m, euid)
    {
      assert FoundTrusted(seen, m, euid);
    }
  }

  /** The last look, at the directory itself. */
  method LooksPrivate(k: Kernel, fd: nat, n: nat, ghost anchor: nat) 
    returns (fit: bool, ghost seen: Option<Stat>)
    requires fd in k.handles && fd in k.prefixOf && k.prefixOf[fd] == n && Walked(k.byHandle, anchor, n, k.euid)
    modifies k`byHandle
    ensures k.byHandle - {n} == old(k.byHandle) - {n}
    ensures fit <==> seen.Some? && PrivateDirectory(seen.value, k.euid)
    ensures k.byHandle == if seen.Some? then old(k.byHandle)[n := seen.value] else old(k.byHandle)
    ensures fit ==> FoundPrivate(k, fd, n) && Walked(k.byHandle, anchor, n, k.euid)
  {
    hide Walked;
    var stat := k.Fstat(fd);
    seen := stat;
    if stat.None? {
      return false, seen;
    }
    LookedAt(old(k.byHandle), stat.value, n);
    if !PrivateDirectory(stat.value, k.euid) {
      return false, seen;
    }
    LookAgain(old(k.byHandle), stat.value, n, anchor, k.euid);
    return true, seen;
  }

  lemma LookedAt(seen: map<nat, Stat>, s: Stat, n: nat)
    ensures seen[n := s] - {n} == seen - {n}
  {
  }

  predicate AllSettled(steps: seq<seq<Done>>, anchor: nat, wellFormed: seq<bool>, writable: bool) {
    && anchor + |steps| <= |wellFormed|
    && (forall i | anchor <= i < anchor + |steps| :: wellFormed[i])
    && forall j | 0 <= j < |steps| :: Settled(steps[j], anchor + j, writable)
  }

  lemma NoneSettled(anchor: nat, wellFormed: seq<bool>, writable: bool)
    requires anchor <= |wellFormed|
    ensures AllSettled([], anchor, wellFormed, writable)
  {
  }

  lemma OneSettled(steps: seq<seq<Done>>, did: seq<Done>, anchor: nat, wellFormed: seq<bool>, writable: bool)
    requires AllSettled(steps, anchor, wellFormed, writable) && anchor + |steps| < |wellFormed|
    requires wellFormed[anchor + |steps|] && Settled(did, anchor + |steps|, writable)
    ensures AllSettled(steps + [did], anchor, wellFormed, writable)
  {
    hide Settled;
  }

  function Flat(steps: seq<seq<Done>>): seq<Done> {
    if steps == [] then [] else Flat(steps[..|steps| - 1]) + steps[|steps| - 1]
  }

  lemma FlatGrows(steps: seq<seq<Done>>, more: seq<Done>)
    ensures Flat(steps + [more]) == Flat(steps) + more
  {
    assert (steps + [more])[..|steps|] == steps;
  }

  /** The components below the anchor, whose handle stays open whatever happens.
      What is open in between is closed again. */
  method WalkDown(k: Kernel, rootFD: nat, anchor: nat, length: nat, wellFormed: seq<bool>, writable: bool)
    returns (r: Result<nat, Problem>, deniedAt: Option<nat>, ghost steps: seq<seq<Done>>)
    requires anchor <= length == |wellFormed|
    requires rootFD in k.handles && rootFD in k.prefixOf && k.prefixOf[rootFD] == anchor
    requires Walked(k.byHandle, anchor, anchor, k.euid)
    modifies k
    // Every component on the way was well formed, and settled in its turn.
    ensures r.Success? ==>
              && |steps| == length - anchor && k.mkdirFaults == old(k.mkdirFaults)
              && AllSettled(steps, anchor, wellFormed, writable)
    ensures k.done == old(k.done) + Flat(steps)
    ensures r == Failure(Config) ==> exists i :: anchor <= i < length && !wellFormed[i]
    ensures r.Success? ==>
              && (r.value == rootFD || r.value !in old(k.handles)) && k.handles == old(k.handles) + {r.value}
              && r.value in k.prefixOf && k.prefixOf[r.value] == length && deniedAt.None?
              && Walked(k.byHandle, anchor, length, k.euid)
    ensures r.Failure? ==> k.handles == old(k.handles)
    ensures deniedAt.Some? ==>
              && anchor < deniedAt.value <= length && deniedAt.value in k.denials
              && Walked(k.byHandle, anchor, deniedAt.value - 1, k.euid)
    ensures SameAbove(old(k.byHandle), k.byHandle, anchor) && k.byName == old(k.byName)
  {
    hide TrustedAncestor, Walked, SameAbove, Settled, Flat, AllSettled;
    assert SameAbove(k.byHandle, k.byHandle, anchor) by { NothingSeen(k.byHandle, anchor); }
    assert Flat([]) == [] by { NoSteps(); }
    NoneSettled(anchor, wellFormed, writable);
    deniedAt, steps := None, [];
    var currentFD, closeCurrent := rootFD, false;
    for i := anchor to length
      invariant rootFD in old(k.handles) && (currentFD == rootFD || currentFD !in old(k.handles))
      invariant k.handles == old(k.handles) + {currentFD}
      invariant currentFD in k.prefixOf && k.prefixOf[currentFD] == i
      invariant closeCurrent <==> currentFD != rootFD
      invariant Walked(k.byHandle, anchor, i, k.euid) && deniedAt.None?
      invariant SameAbove(old(k.byHandle), k.byHandle, anchor) && k.byName == old(k.byName)
      invariant |steps| == i - anchor && k.done == old(k.done) + Flat(steps) && k.mkdirFaults == old(k.mkdirFaults)
      invariant AllSettled(steps, anchor, wellFormed, writable)
    {
      if !wellFormed[i] {
        if closeCurrent {
          k.Close(currentFD);
        }
        return Failure(Config), None, steps;
      }
      ghost var seen, earlier := k.byHandle, steps;
      var next, denied, did := OpenComponent(k, currentFD, i, writable);
      FlatGrows(steps, did);
      steps := steps + [did];
      OtherPrefixes(seen, k.byHandle, i + 1, anchor, i, k.euid);
      StillAbove(old(k.byHandle), seen, k.byHandle, anchor, i + 1);
      if closeCurrent {
        k.Close(currentFD);
      }
      if next.Failure? {
        return Failure(next.error), if denied then Some(i + 1) else None, steps;
      }
      OneMore(k.byHandle, anchor, i, k.euid);
      OneSettled(earlier, did, anchor, wellFormed, writable);
      currentFD := next.value;
      closeCurrent := true;
    }
    r := Success(currentFD);
  }

  /** The walk over handles from an anchor, which is a prefix of the path. */
  method OpenFrom(k: Kernel, anchor: nat, length: nat, wellFormed: seq<bool>, writable: bool)
    returns (r: Result<nat, Problem>, deniedAt: Option<nat>, ghost steps: seq<seq<Done>>)
    requires anchor <= length == |wellFormed|
    modifies k
    ensures r.Success? ==>
              && |steps| == length - anchor && k.mkdirFaults == old(k.mkdirFaults)
              && AllSettled(steps, anchor, wellFormed, writable)
    ensures k.done == old(k.done) + Flat(steps)
    ensures r == Failure(Config) ==> exists i :: anchor <= i < length && !wellFormed[i]
    ensures r.Success? ==> r.value !in old(k.handles) && k.handles == old(k.handles) + {r.value} && deniedAt.None?
    ensures r.Failure? ==> k.handles == old(k.handles)
    ensures r.Success? ==> FoundPrivate(k, r.value, length) && Walked(k.byHandle, anchor, length, k.euid)
    ensures deniedAt.Some? ==>
              && anchor < deniedAt.value <= length && deniedAt.value in k.denials
              && Walked(k.byHandle, anchor, deniedAt.value - 1, k.euid)
    ensures SameAbove(old(k.byHandle), k.byHandle, anchor) && k.byName == old(k.byName)
  {
    hide TrustedAncestor, PrivateDirectory, Walked, SameAbove, Settled, Flat, AllSettled, FoundPrivate;
    assert SameAbove(k.byHandle, k.byHandle, anchor) by { NothingSeen(k.byHandle, anchor); }
    assert Flat([]) == [] by { NoSteps(); }
    steps := [];
    var root := k.Open(anchor);
    if root.Failure? {
      return Failure(Continuity), None, steps;
    }
    var rootFD := root.value;
    var rootStat := k.Fstat(rootFD);
    if rootStat.None? {
      k.Close(rootFD);
      return Failure(Continuity), None, steps;
    }
    ghost var first := k.byHandle;
    LookedAt(old(k.byHandle), rootStat.value, anchor);
    StillAbove(old(k.byHandle), old(k.byHandle), first, anchor, anchor);
    if !TrustedAncestor(rootStat.value, k.euid) {
      k.Close(rootFD);
      return Failure(Untrusted), None, steps;
    }
    assert Walked(k.byHandle, anchor, anchor, k.euid) by { FirstLook(k.byHandle, anchor, k.euid); }
    r, deniedAt, steps := WalkDown(k, rootFD, anchor, length, wellFormed, writable);
    StillSame(old(k.byHandle), first, k.byHandle, anchor);
    if r.Failure? {
      k.Close(rootFD);
      return;
    }
    var currentFD := r.value;
    if currentFD != rootFD {
      k.Close(rootFD);
    }
    ghost var walked := k.byHandle;
    var fit, _ := LooksPrivate(k, currentFD, length, anchor);
    StillAbove(old(k.byHandle), walked, k.byHandle, anchor, length);
    if !fit {
      k.Close(currentFD);
      r := Failure(Continuity);
    }
  }

  lemma StillSame(a: map<nat, Stat>, b: map<nat, Stat>, c: map<nat, Stat>, anchor: nat)
    requires SameAbove(a, b, anchor) && SameAbove(b, c, anchor)
    ensures SameAbove(a, c, anchor)
  {
  }

  lemma NoSteps()
    ensures Flat([]) == []
  {
  }

  lemma NothingSeen(seen: map<nat, Stat>, anchor: nat)
    ensures SameAbove(seen, seen, anchor)
  {
  }

  lemma FirstLook(seen: map<nat, Stat>, n: nat, euid: nat)
    requires FoundTrusted(seen, n, euid)
    ensures Walked(seen, n, n, euid)
  {
  }

  /** One component of the unreachable band, by name: unreachable is not a
      finding, unsafe is. */
  method BandComponent(k: Kernel, prefix: nat) returns (r: Result<(), Problem>, ghost seen: Option<Stat>)
    modifies k`byName
    ensures k.byName == if seen.Some? then old(k.byName)[prefix := seen.value] else old(k.byName)
    ensures k.byName - {prefix} == old(k.byName) - {prefix}
    ensures r == match seen
                 case None => Failure(Unreachable)
                 case Some(s) =>
                   if s.kind != Directory then Failure(Continuity)
                   else if !TrustedAncestor(s, k.euid) then Failure(Untrusted) else Success(())
    ensures r.Success? ==> FoundTrusted(k.byName, prefix, k.euid)
  {
    var stat := k.Lstat(prefix);
    seen := stat;
    if stat.None? {
      return Failure(Unreachable), seen;
    }
    LookedAt(old(k.byName), stat.value, prefix);
    if !stat.value.kind.Directory? {
      return Failure(Continuity), seen;
    }
    if !TrustedAncestor(stat.value, k.euid) {
      return Failure(Untrusted), seen;
    }
    return Success(()), seen;
  }

  /** The shallowest prefix below the denied one that can be opened, with all of
      the band down to it checked by name. */
  method FindAnchor(k: Kernel, denied: nat, length: nat)
    returns (r: Result<nat, Problem>, ghost blind: bool)
    requires denied <= length
    modifies k
    ensures k.handles == old(k.handles) && k.byHandle == old(k.byHandle)
    ensures r.Success? ==>
              && denied < r.value <= length && Walked(k.byName, denied, r.value, k.euid)
              && r.value in k.reached && forall n | denied < n < r.value :: n in k.denials
    ensures r == Failure(Unreachable) ==> denied == length || blind || forall n | denied < n <= length :: n in k.denials
    ensures k.done == old(k.done)
  {
    hide TrustedAncestor, Walked;
    blind := false;
    if denied == length {
      return Failure(Unreachable), blind;
    }
    var checked, looked := BandComponent(k, denied);
    if checked.Failure? {
      return Failure(checked.error), looked.None?;
    }
    FirstLook(k.byName, denied, k.euid);
    for current := denied to length
      invariant k.handles == old(k.handles) && k.byHandle == old(k.byHandle)
      invariant Walked(k.byName, denied, current, k.euid) && k.done == old(k.done)
      invariant forall n | denied < n <= current :: n in k.denials
    {
      ghost var seen := k.byName;
      ghost var found;
      checked, found := BandComponent(k, current + 1);
      OtherPrefixes(seen, k.byName, current + 1, denied, current, k.euid);
      if checked.Failure? {
        return Failure(checked.error), found.None?;
      }
      OneMore(k.byName, denied, current, k.euid);
      var fd := k.Open(current + 1);
      if fd.Success? {
        k.Close(fd.value);
        return Success(current + 1), blind;
      }
      if fd.error != Denied {
        return Failure(Continuity), blind;
      }
    }
    return Failure(Unreachable), blind;
  }

  /** Prefixes outside the band were walked, those inside it checked by name;
      an empty band means the whole walk went through handles. */
  ghost predicate InBand(k: Kernel, denied: nat, anchor: nat, length: nat)
    reads k
  {
    && denied <= anchor
    && (forall n: nat | n <= length && !(denied <= n < anchor) :: FoundTrusted(k.byHandle, n, k.euid))
    && (forall n: nat | denied <= n < anchor :: FoundTrusted(k.byName, n, k.euid))
  }

  /** On success exactly one handle is left open, that of the directory, which is
      private to this user, and every prefix of the path from the root down was
      found trusted: through a handle, or by name inside one contiguous band. On
      failure nothing is left open. */
  method OpenStateDir(k: Kernel, wellFormed: seq<bool>, writable: bool) returns (r: Result<nat, Problem>)
    requires k.byHandle == map[] && k.byName == map[]
    modifies k
    ensures r.Success? ==> r.value !in old(k.handles) && k.handles == old(k.handles) + {r.value}
    ensures r.Failure? ==> k.handles == old(k.handles)
    ensures r.Success? ==> FoundPrivate(k, r.value, |wellFormed|)
    ensures r.Success? ==> exists denied, anchor :: InBand(k, denied, anchor, |wellFormed|)
  {
    hide TrustedAncestor, PrivateDirectory;
    var length := |wellFormed|;
    var deniedAt: Option<nat>;
    ghost var steps;
    r, deniedAt, steps := OpenFrom(k, 0, length, wellFormed, writable);
    if r.Success? {
      assert InBand(k, length + 1, length + 1, length);
      return;
    }
    if deniedAt.None? {
      return;
    }
    ghost var walked := k.byHandle;
    var anchor, _ := FindAnchor(k, deniedAt.value, length);
    if anchor.Failure? {
      return if anchor.error.Unreachable? then r else Failure(anchor.error);
    }
    var band := deniedAt.value;
    r, deniedAt, steps := OpenFrom(k, anchor.value, length, wellFormed, writable);
    if r.Success? {
      forall n: nat | n < band
        ensures FoundTrusted(k.byHandle, n, k.euid)
      {
        assert FoundTrusted(walked, n, k.euid);
      }
      assert InBand(k, band, anchor.value, length);
    }
  }
}
