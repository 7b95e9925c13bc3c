/**
 Laying a tree down as files: Restore into a host directory (internal/snap/restore.go) and WriteTree into a
 guest through its agent (internal/fcvm/guest.go, internal/agent/agent.go).
 */
module Restores {
  import opened Content
  import opened Blobs
  import opened Trees

  datatype Node = Dir | File(data: Bytes) | Link(target: Bytes)

  /** What lies under the target directory, by relative path. */
  type Files = map<Bytes, Node>

  const SLASH: byte := 47

  predicate IsAncestor(a: Bytes, p: Bytes) {
    0 < |a| < |p| && p[..|a|] == a && p[|a|] == SLASH
  }

  function Parents(p: Bytes): set<Bytes> {
    set i | 0 < i < |p| && p[i] == SLASH :: p[..i]
  }

  lemma ParentsAreAncestors(p: Bytes, a: Bytes)
    ensures a in Parents(p) <==> IsAncestor(a, p)
  {
  }

  lemma AncestorTransitive(a: Bytes, b: Bytes, p: Bytes)
    requires IsAncestor(a, b) && IsAncestor(b, p)
    ensures IsAncestor(a, p)
  {
    assert p[..|b|][..|a|] == p[..|a|] && p[..|b|][|a|] == p[|a|];
  }

  /** Directories contain what lies below them. */
  ghost predicate Nested(fs: Files) {
    forall p, a :: p in fs && IsAncestor(a, p) ==> a in fs && fs[a].Dir?
  }

  /** A tree as Snapshot makes it: sorted, each path once, every directory on the way to an entry listed. */
  ghost predicate WellFormed(t: Tree) {
    && (forall i, j :: 0 <= i < j < |t| ==> Before(t[i].path, t[j].path))
    && (forall i, a :: 0 <= i < |t| && IsAncestor(a, t[i].path) ==> Lookup(t, a).Some? && Lookup(t, a).value.dir)
  }

  function NodeOf(e: Entry, store: Store): Node {
    if e.dir then Dir
    else if e.link != [] then Link(e.link)
    else File(if e.hash in store then store[e.hash] else [])
  }

  predicate IsFile(e: Entry) { !e.dir && e.link == [] }

  ghost predicate BlobsPresent(t: Tree, store: Store) {
    forall i :: 0 <= i < |t| && IsFile(t[i]) ==> t[i].hash in store
  }

  /** Exactly the tree's paths, kinds, contents and links. */
  ghost predicate Matches(fs: Files, t: Tree, store: Store) {
    forall p :: (p in fs <==> Lookup(t, p).Some?) && (p in fs ==> fs[p] == NodeOf(Lookup(t, p).value, store))
  }

  lemma WellFormedUnique(t: Tree)
    requires WellFormed(t)
    ensures UniquePaths(t)
  {
    forall i, j | 0 <= i < j < |t|
      ensures t[i].path != t[j].path
    {
      BeforeIrreflexive(t[i].path);
    }
  }

  /** Sorting puts every directory before its contents. */
  lemma DirectoriesFirst(t: Tree, i: nat, a: Bytes)
    requires WellFormed(t) && i < |t| && IsAncestor(a, t[i].path)
    ensures exists j :: 0 <= j < i && t[j].path == a && t[j].dir
  {
    WellFormedUnique(t);
    LookupIn(t, a);
    var j :| 0 <= j < |t| && t[j] == Lookup(t, a).value;
    PrefixBefore(a, t[i].path);
    if j >= i {
      NotBoth(a, t[i].path);
      BeforeIrreflexive(a);
    }
  }

  // ---------- the calls on the file system ----------

  predicate Faulted(r: Result<()>) { r.Err? && r.error.Fault? }

  predicate LinkAmong(fs: Files, dirs: set<Bytes>) {
    exists a :: a in dirs && a in fs && fs[a].Link?
  }

  /** The path leads through a symbolic link, so a call on it acts on whatever lies behind the link. */
  predicate LinkAbove(fs: Files, p: Bytes) { LinkAmong(fs, Parents(p)) }

  /**
   A directory.  Symbolic links in it lead elsewhere: `reachable` says whether making or writing a path that
   leads through one works there.  Any call may also fail for reasons of its own, with `Fault`.
   */
  class WorkDir {
    const reachable: Bytes -> bool
    var fs: Files

    /** Makes the directories on the way to p, and p too if it is among them. */
    method MkdirAll(dirs: set<Bytes>, p: Bytes) returns (r: Result<()>)
      modifies this
      ensures LinkAmong(old(fs), dirs) ==> fs == old(fs) && (Faulted(r) || (r.Ok? <==> reachable(p)))
      ensures !LinkAmong(old(fs), dirs) && r.Ok? ==>
                (forall q :: q in dirs && q in old(fs) ==> old(fs)[q].Dir?) && fs == old(fs) + (map q | q in dirs :: Dir)
      ensures !LinkAmong(old(fs), dirs) && (forall q :: q in dirs && q in old(fs) ==> old(fs)[q].Dir?) ==> r.Ok? || r.error.Fault?
    {
      var failed := Fails();
      if failed {
        return Err(Fault);
      }
      if LinkAmong(fs, dirs) {
        return if reachable(p) then Ok(()) else Err(Invalid);
      }
      if q :| q in dirs && q in fs && !fs[q].Dir? {
        return Err(Invalid);
      }
      fs := fs + (map q | q in dirs :: Dir);
      return Ok(());
    }

    /** Removes a file, a link or an empty directory; anything else is left alone. */
    method Remove(p: Bytes) returns (r: Result<()>)
      modifies this
      ensures fs == old(fs) || fs == old(fs) - {p}
      ensures LinkAbove(old(fs), p) ==> fs == old(fs)
      ensures !LinkAbove(old(fs), p) && (forall q :: q in old(fs) ==> !IsAncestor(p, q)) ==> fs == old(fs) - {p} || Faulted(r)
    {
      var failed := Fails();
      if failed {
        return Err(Fault);
      }
      if !LinkAbove(fs, p) && forall q :: q in fs ==> !IsAncestor(p, q) {
        fs := fs - {p};
      }
      return Ok(());
    }

    /** Removes a path with all below it; what cannot be removed stays, and then so does the path. */
    method RemoveAll(p: Bytes) returns (r: Result<()>)
      modifies this
      ensures forall q :: q in fs ==> q in old(fs) && fs[q] == old(fs)[q]
      ensures forall q :: q in old(fs) && q != p && !IsAncestor(p, q) ==> q in fs
      ensures r.Ok? ==> forall q :: q in fs ==> q != p && !IsAncestor(p, q)
      ensures r.Err? ==> r.error.Fault?
    {
      var failed := Fails();
      if failed {
        return Err(Fault);
      }
      fs := map q | q in fs && q != p && !IsAncestor(p, q) :: fs[q];
      return Ok(());
    }

    method Symlink(target: Bytes, p: Bytes) returns (r: Result<()>)
      modifies this
      ensures LinkAbove(old(fs), p) ==> fs == old(fs) && (Faulted(r) || (r.Ok? <==> reachable(p)))
      ensures !LinkAbove(old(fs), p) ==> (r.Ok? ==> p !in old(fs) && fs == old(fs)[p := Link(target)])
      ensures !LinkAbove(old(fs), p) && p !in old(fs) ==> r.Ok? || r.error.Fault?
    {
      var failed := Fails();
      if failed {
        return Err(Fault);
      }
      if LinkAbove(fs, p) {
        return if reachable(p) then Ok(()) else Err(Invalid);
      }
      if p in fs {
        return Err(Invalid);
      }
      fs := fs[p := Link(target)];
      return Ok(());
    }

    /** Creates or truncates a file; an existing directory refuses, an existing link is followed. */
    method WriteFile(p: Bytes, data: Bytes) returns (r: Result<()>)
      modifies this
      ensures LinkAbove(old(fs), p) || (p in old(fs) && old(fs)[p].Link?) ==>
                fs == old(fs) && (Faulted(r) || (r.Ok? <==> reachable(p)))
      ensures !LinkAbove(old(fs), p) && (p in old(fs) ==> !old(fs)[p].Link?) && r.Ok? ==>
                (p in old(fs) ==> old(fs)[p].File?) && fs == old(fs)[p := File(data)]
      ensures !LinkAbove(old(fs), p) && (p in old(fs) ==> old(fs)[p].File?) ==> r.Ok? || r.error.Fault?
    {
      var failed := Fails();
      if failed {
        return Err(Fault);
      }
      if LinkAbove(fs, p) || (p in fs && fs[p].Link?) {
        return if reachable(p) then Ok(()) else Err(Invalid);
      }
      if p in fs && fs[p].Dir? {
        return Err(Invalid);
      }
      fs := fs[p := File(data)];
      return Ok(());
    }
  }

  // ---------- progress of a restore ----------

  predicate WantsLink(e: Entry) { !e.dir && e.link != [] }

  /** Restoring the entry acts behind a link: one on its way, or one at its place that it does not replace. */
  predicate Astray(fs0: Files, e: Entry) {
    LinkAbove(fs0, e.path) || (!WantsLink(e) && e.path in fs0 && fs0[e.path].Link?)
  }

  /**
   Of the wanted paths, those in `done` are as the tree says, unless astray, and the others as they were in
   `fs0`; of the unwanted ones, those in `left` are there.
   */
  ghost predicate Restored(fs: Files, fs0: Files, t: Tree, store: Store, done: set<Bytes>, left: set<Bytes>) {
    && (forall p :: p in left ==> Lookup(t, p).None? && p in fs)
    && (forall p :: Lookup(t, p).None? && p in fs ==> p in left)
    && (forall p :: Lookup(t, p).Some? ==>
          (p in fs <==> p in fs0 || (p in done && !Astray(fs0, Lookup(t, p).value))))
    && (forall p :: Lookup(t, p).Some? && p in fs ==>
          fs[p] == if p in done && !Astray(fs0, Lookup(t, p).value) then NodeOf(Lookup(t, p).value, store) else fs0[p])
  }

  /** A directory on the way to an entry is an entry before it. */
  lemma ParentListed(t: Tree, i: nat, q: Bytes)
    requires WellFormed(t) && i < |t| && q in Parents(t[i].path)
    ensures exists j :: 0 <= j < i && t[j].path == q && t[j].dir && Lookup(t, q) == Some(t[j])
  {
    ParentsAreAncestors(t[i].path, q);
    DirectoriesFirst(t, i, q);
    WellFormedUnique(t);
    var j :| 0 <= j < i && t[j].path == q && t[j].dir;
    LookupEntry(t, j);
  }

  /** Links on the way to an entry stay as they are throughout. */
  lemma SameLinksAbove(fs: Files, fs0: Files, t: Tree, store: Store, done: set<Bytes>, left: set<Bytes>, i: nat)
    requires WellFormed(t) && Restored(fs, fs0, t, store, done, left) && i < |t|
    ensures LinkAbove(fs, t[i].path) <==> LinkAbove(fs0, t[i].path)
  {
    forall a | a in Parents(t[i].path)
      ensures a in fs && fs[a].Link? <==> a in fs0 && fs0[a].Link?
    {
      ParentListed(t, i, a);
    }
  }

  /** The directories above an entry not astray, already restored, need nothing more. */
  lemma ParentsInPlace(fs: Files, fs0: Files, t: Tree, store: Store, done: set<Bytes>, left: set<Bytes>, i: nat)
    requires WellFormed(t) && Restored(fs, fs0, t, store, done, left) && i < |t| && !LinkAbove(fs0, t[i].path)
    requires forall j :: 0 <= j < i && t[j].dir ==> t[j].path in done
    ensures forall q :: q in Parents(t[i].path) ==> q in fs && fs[q].Dir?
    ensures fs + (map q | q in Parents(t[i].path) :: Dir) == fs
  {
    forall q | q in Parents(t[i].path)
      ensures q in fs && fs[q].Dir?
    {
      ParentListed(t, i, q);
      AboveParent(fs0, t[i].path, q);
    }
  }

  lemma AboveParent(fs0: Files, p: Bytes, q: Bytes)
    requires q in Parents(p) && !LinkAbove(fs0, p)
    ensures !LinkAbove(fs0, q) && (q in fs0 ==> !fs0[q].Link?)
  {
    forall a | a in Parents(q)
      ensures a in Parents(p)
    {
      ParentsAreAncestors(p, q);
      ParentsAreAncestors(q, a);
      AncestorTransitive(a, q, p);
      ParentsAreAncestors(p, a);
    }
  }

  lemma OneMore(fs: Files, fs': Files, fs0: Files, t: Tree, store: Store, done: set<Bytes>, left: set<Bytes>, i: nat)
    requires WellFormed(t) && Restored(fs, fs0, t, store, done, left) && i < |t|
    requires fs' == if Astray(fs0, t[i]) then fs else fs[t[i].path := NodeOf(t[i], store)]
    ensures Restored(fs', fs0, t, store, done + {t[i].path}, left)
  {
    WellFormedUnique(t);
    LookupEntry(t, i);
  }

  /** Nothing below a path that is not a directory is in the tree. */
  lemma NothingBelow(fs: Files, fs0: Files, t: Tree, store: Store, done: set<Bytes>, i: nat)
    requires WellFormed(t) && Restored(fs, fs0, t, store, done, {}) && i < |t| && !t[i].dir
    ensures forall q :: q in fs ==> !IsAncestor(t[i].path, q)
  {
    WellFormedUnique(t);
    LookupEntry(t, i);
    forall q | q in fs
      ensures !IsAncestor(t[i].path, q)
    {
      LookupIn(t, q);
    }
  }

  /** A path can be restored over what is there: its kind is unchanged, or it becomes a link. */
  predicate Replaceable(fs0: Files, e: Entry) {
    e.path in fs0 ==>
      if e.dir then fs0[e.path].Dir? else e.link != [] || fs0[e.path].File?
  }

  /** What it takes to put an entry in place, or to be sent elsewhere in vain without noticing. */
  predicate Passable(fs0: Files, e: Entry, store: Store, reachable: Bytes -> bool) {
    && (IsFile(e) ==> e.hash in store)
    && if Astray(fs0, e) then reachable(e.path) else Replaceable(fs0, e)
  }

  /**
   Replaces whatever is at a link's place.  The result of the removal is ignored; a link refused because the
   removal went wrong counts as that fault.
   */
  method PutLink(d: WorkDir, e: Entry) returns (r: Result<()>)
    requires WantsLink(e)
    requires LinkAbove(d.fs, e.path) || forall q :: q in Parents(e.path) ==> q in d.fs && d.fs[q].Dir?
    modifies d
    ensures r.Ok? ==> d.fs == if LinkAbove(old(d.fs), e.path) then old(d.fs) else old(d.fs)[e.path := Link(e.link)]
    ensures r.Ok? && LinkAbove(old(d.fs), e.path) ==> d.reachable(e.path)
    ensures LinkAbove(old(d.fs), e.path) && d.reachable(e.path) ==> r.Ok? || r.error.Fault?
    ensures !LinkAbove(old(d.fs), e.path) && (forall q :: q in old(d.fs) ==> !IsAncestor(e.path, q)) ==> r.Ok? || r.error.Fault?
  {
    r := d.MkdirAll(Parents(e.path), e.path);
    if r.Err? {
      return;
    }
    assert d.fs == old(d.fs);
    var gone := d.Remove(e.path);
    assert LinkAbove(d.fs, e.path) <==> LinkAbove(old(d.fs), e.path);
    r := d.Symlink(e.link, e.path);
    if r.Err? && Faulted(gone) {
      r := gone;
    }
  }

  method PutDir(d: WorkDir, p: Bytes) returns (r: Result<()>)
    requires LinkAbove(d.fs, p) || forall q :: q in Parents(p) ==> q in d.fs && d.fs[q].Dir?
    modifies d
    ensures var out := LinkAbove(old(d.fs), p) || (p in old(d.fs) && old(d.fs)[p].Link?);
            && (r.Ok? ==> d.fs == if out then old(d.fs) else old(d.fs)[p := Dir])
            && (r.Ok? ==> if out then d.reachable(p) else p in old(d.fs) ==> old(d.fs)[p].Dir?)
            && ((if out then d.reachable(p) else p in old(d.fs) ==> old(d.fs)[p].Dir?) ==> r.Ok? || r.error.Fault?)
  {
    r := d.MkdirAll(Parents(p) + {p}, p);
  }

  method PutFile(d: WorkDir, p: Bytes, hash: Hash, store: Store) returns (r: Result<()>)
    requires LinkAbove(d.fs, p) || forall q :: q in Parents(p) ==> q in d.fs && d.fs[q].Dir?
    modifies d
    ensures r.Ok? ==> hash in store
    ensures var out := LinkAbove(old(d.fs), p) || (p in old(d.fs) && old(d.fs)[p].Link?);
            && (r.Ok? ==> d.fs == if out then old(d.fs) else old(d.fs)[p := File(store[hash])])
            && (r.Ok? ==> if out then d.reachable(p) else p in old(d.fs) ==> old(d.fs)[p].File?)
            && (hash in store && (if out then d.reachable(p) else p in old(d.fs) ==> old(d.fs)[p].File?) ==> r.Ok? || r.error.Fault?)
  {
    r := d.MkdirAll(Parents(p), p);
    if r.Err? {
      return;
    }
    assert d.fs == old(d.fs);
    if hash !in store {
      return Err(NotFound);
    }
    var failed := Fails();
    if failed {
      return Err(Fault);
    }
    r := d.WriteFile(p, store[hash]);
  }

  /** The agent's "write" and Restore's loop body: puts one entry in place. */
  method PutEntry(d: WorkDir, t: Tree, i: nat, store: Store,
                  ghost fs0: Files, ghost done: set<Bytes>, ghost left: set<Bytes>) returns (r: Result<()>)
    requires WellFormed(t) && i < |t| && Restored(d.fs, fs0, t, store, done, left) && t[i].path !in done
    requires forall j :: 0 <= j < i && t[j].dir ==> t[j].path in done
    modifies d
    ensures r.Ok? ==> Restored(d.fs, fs0, t, store, done + {t[i].path}, left)
    ensures r.Ok? ==> Passable(fs0, t[i], store, d.reachable)
    ensures left == {} && Passable(fs0, t[i], store, d.reachable) ==> r.Ok? || r.error.Fault?
  {
    var e := t[i];
    ghost var before := d.fs;
    SameLinksAbove(before, fs0, t, store, done, left, i);
    if !LinkAbove(fs0, e.path) {
      ParentsInPlace(before, fs0, t, store, done, left, i);
    }
    OneMore(before, if Astray(fs0, e) then before else before[e.path := NodeOf(e, store)], fs0, t, store, done, left, i);
    assert (e.path in before <==> e.path in fs0) && (e.path in before ==> before[e.path] == fs0[e.path]) by {
      WellFormedUnique(t);
      LookupEntry(t, i);
    }
    if e.dir {
      r := PutDir(d, e.path);
    } else if e.link != [] {
      if left == {} {
        NothingBelow(before, fs0, t, store, done, i);
      }
      r := PutLink(d, e);
    } else {
      r := PutFile(d, e.path, e.hash, store);
    }
  }

  /** Once every entry is dealt with, the files are the tree exactly when none went astray and nothing extra is left. */
  lemma AllDone(fs: Files, fs0: Files, t: Tree, store: Store, done: set<Bytes>, left: set<Bytes>)
    requires WellFormed(t) && Restored(fs, fs0, t, store, done, left) && forall j :: 0 <= j < |t| ==> t[j].path in done
    requires forall j :: 0 <= j < |t| && !Astray(fs0, t[j]) ==> Replaceable(fs0, t[j])
    ensures Matches(fs, t, store) <==> AllReplaceable(fs0, t) && left == {}
  {
    WellFormedUnique(t);
    if j :| 0 <= j < |t| && Astray(fs0, t[j]) {
      AstrayShows(fs, fs0, t, store, done, left, j);
    } else {
      forall p
        ensures Lookup(t, p).Some? ==> p in fs && fs[p] == NodeOf(Lookup(t, p).value, store)
      {
        LookupIn(t, p);
      }
      if p :| p in left {
        assert !Matches(fs, t, store);
      }
    }
  }

  /** A followed link is still there, where the tree wants something else. */
  lemma AstrayShows(fs: Files, fs0: Files, t: Tree, store: Store, done: set<Bytes>, left: set<Bytes>, j: nat)
    requires WellFormed(t) && Restored(fs, fs0, t, store, done, left) && j < |t| && Astray(fs0, t[j])
    ensures !Matches(fs, t, store) && !AllReplaceable(fs0, t)
  {
    WellFormedUnique(t);
    var k: nat := j;
    if LinkAbove(fs0, t[j].path) {
      var a :| a in Parents(t[j].path) && a in fs0 && fs0[a].Link?;
      ParentListed(t, j, a);
      k :| k < j && t[k].path == a && t[k].dir && Lookup(t, a) == Some(t[k]);
    }
    LookupEntry(t, k);
    assert !Replaceable(fs0, t[k]);
    assert t[k].path in fs && fs[t[k].path].Link?;
  }

  // ---------- the guest path ----------

  /** Empties the work tree; what cannot be removed stays, and the agent reports success all the same. */
  method Clear(d: WorkDir) returns (ghost cleared: bool)
    modifies d
    ensures forall q :: q in d.fs ==> q in old(d.fs) && d.fs[q] == old(d.fs)[q]
    ensures cleared ==> d.fs == map[]
    ensures cleared || FAULTY
  {
    var failed := Fails();
    if !failed {
      d.fs := map[];
    }
    cleared := !failed;
  }

  ghost function Unlisted(fs: Files, t: Tree): set<Bytes> {
    set p | p in fs && Lookup(t, p).None?
  }

  /**
   Clears the guest's work tree and writes every entry in order.  Once the clearing worked it succeeds exactly
   when all blobs are present, faults aside, and then leaves exactly the tree.
   */
  method WriteTree(d: WorkDir, t: Tree, store: Store) returns (r: Result<()>, ghost cleared: bool)
    requires WellFormed(t)
    modifies d
    ensures r.Ok? ==> BlobsPresent(t, store)
    ensures cleared && BlobsPresent(t, store) ==> r.Ok? || r.error.Fault?
    ensures cleared && r.Ok? ==> Matches(d.fs, t, store)
    ensures cleared || FAULTY
  {
    WellFormedUnique(t);
    cleared := Clear(d);
    ghost var fs0, left, done := d.fs, Unlisted(d.fs, t), {};
    for i := 0 to |t|
      invariant Restored(d.fs, fs0, t, store, done, left)
      invariant forall j :: 0 <= j < |t| ==> (t[j].path in done <==> j < i)
      invariant forall j :: 0 <= j < i ==> Passable(fs0, t[j], store, d.reachable)
    {
      r := PutEntry(d, t, i, store, fs0, done, left);
      if r.Err? {
        return;
      }
      done := done + {t[i].path};
    }
    AllDone(d.fs, fs0, t, store, done, left);
    r := Ok(());
  }

  // ---------- the host path ----------

  /** The walk's finds: unwanted paths not below another unwanted one. */
  ghost predicate TopExtra(fs: Files, t: Tree, q: Bytes) {
    && q in fs && Lookup(t, q).None?
    && forall a :: IsAncestor(a, q) ==> Lookup(t, a).Some?
  }

  lemma {:induction false} CoveredByTop(fs: Files, t: Tree, p: Bytes)
    requires Nested(fs) && p in fs && Lookup(t, p).None?
    ensures exists q :: TopExtra(fs, t, q) && (q == p || IsAncestor(q, p))
    decreases |p|
  {
    if !TopExtra(fs, t, p) {
      var a :| IsAncestor(a, p) && Lookup(t, a).None?;
      CoveredByTop(fs, t, a);
      var q :| TopExtra(fs, t, q) && (q == a || IsAncestor(q, a));
      if q != a {
        AncestorTransitive(q, a, p);
      }
    }
  }

  /**
   A walk lists what is there, each directory before what lies in it.  Its errors are ignored: what lies in a
   directory that cannot be read is missing from it.
   */
  ghost predicate WalkOrder(walk: seq<Bytes>, fs: Files) {
    && (forall p :: p in walk ==> p in fs)
    && (forall i, a :: 0 <= i < |walk| && IsAncestor(a, walk[i]) ==> a in walk[..i])
  }

  /** No unlisted path is missing from the walk, unless below another. */
  ghost predicate WalkFinds(walk: seq<Bytes>, fs: Files, t: Tree) {
    forall q :: TopExtra(fs, t, q) ==> q in walk
  }

  /** The walk of clearExtra: unlisted paths are collected and not descended into. */
  method FindExtra(fs: Files, t: Tree, walk: seq<Bytes>) returns (extra: seq<Bytes>)
    requires WalkOrder(walk, fs)
    ensures forall q :: q in extra <==> q in walk && TopExtra(fs, t, q)
  {
    extra := [];
    for i := 0 to |walk|
      invariant forall q :: q in extra ==> q in walk && TopExtra(fs, t, q)
      invariant forall q :: q in walk[..i] && TopExtra(fs, t, q) ==> q in extra
      invariant forall q :: q in walk[..i] && Lookup(t, q).None? ==> q in extra || exists a :: a in extra && IsAncestor(a, q)
    {
      var p := walk[i];
      assert p in walk && walk[..i + 1] == walk[..i] + [p];
      var skipped := exists a :: a in extra && IsAncestor(a, p);
      ghost var before := extra;
      if !skipped && Lookup(t, p).None? {
        forall a | IsAncestor(a, p)
          ensures Lookup(t, a).Some?
        {
          NotBelowExtra(walk, i, t, extra, a);
        }
        extra := extra + [p];
      }
      assert forall q :: q in before ==> q in extra;
    }
    assert walk[..|walk|] == walk;
  }

  /** An unlisted directory above a path that is not skipped would itself have been skipped or collected. */
  lemma NotBelowExtra(walk: seq<Bytes>, i: nat, t: Tree, extra: seq<Bytes>, a: Bytes)
    requires i < |walk| && IsAncestor(a, walk[i]) && a in walk[..i]
    requires forall b :: b in extra ==> !IsAncestor(b, walk[i])
    requires forall q :: q in walk[..i] && Lookup(t, q).None? ==> q in extra || exists b :: b in extra && IsAncestor(b, q)
    ensures Lookup(t, a).Some?
  {
    forall b | IsAncestor(b, a) ensures IsAncestor(b, walk[i]) { AncestorTransitive(b, a, walk[i]); }
  }

  /**
   Removes what the tree does not list, matching by path only.  Walks cut short and removals that fail are
   ignored; `cleared` says that the walk missed nothing and no removal failed.
   */
  method ClearExtra(d: WorkDir, t: Tree, walk: seq<Bytes>) returns (ghost cleared: bool, ghost left: set<Bytes>)
    requires WellFormed(t) && Nested(d.fs) && WalkOrder(walk, d.fs)
    modifies d
    ensures Restored(d.fs, old(d.fs), t, map[], {}, left) && (cleared ==> left == {})
    ensures Unlisted(old(d.fs), t) == {} ==> cleared
    ensures WalkFinds(walk, old(d.fs), t) && !FAULTY ==> cleared
  {
    ghost var fs0 := d.fs;
    cleared := WalkFinds(walk, fs0, t);
    assert forall q :: TopExtra(fs0, t, q) ==> q in Unlisted(fs0, t);
    var extra := FindExtra(d.fs, t, walk);
    if |extra| > 0 {
      assert extra[0] in extra && extra[0] in Unlisted(fs0, t);
    }
    for i := 0 to |extra|
      invariant |extra| == 0 && WalkFinds(walk, fs0, t) ==> cleared
      invariant cleared ==> WalkFinds(walk, fs0, t)
      invariant WalkFinds(walk, fs0, t) && !FAULTY ==> cleared
      invariant forall p :: p in d.fs ==> p in fs0 && d.fs[p] == fs0[p]
      invariant forall p :: p in fs0 && Lookup(t, p).Some? ==> p in d.fs
      invariant cleared ==> forall j, p :: 0 <= j < i && p in d.fs ==> p != extra[j] && !IsAncestor(extra[j], p)
    {
      var q := extra[i];
      assert q in extra;
      forall p | p in fs0 && Lookup(t, p).Some?
        ensures p != q && !IsAncestor(q, p)
      {
        LookupIn(t, p);
      }
      var gone := d.RemoveAll(q);
      cleared := cleared && gone.Ok?;
    }
    left := Unlisted(d.fs, t);
    forall p | cleared && p in d.fs
      ensures Lookup(t, p).Some?
    {
      if Lookup(t, p).None? {
        CoveredByTop(fs0, t, p);
      }
    }
  }

  ghost predicate AllReplaceable(fs0: Files, t: Tree) {
    forall j :: 0 <= j < |t| ==> Replaceable(fs0, t[j])
  }

  ghost predicate PassableTo(fs0: Files, t: Tree, store: Store, reachable: Bytes -> bool, n: nat)
    requires n <= |t|
  {
    forall j :: 0 <= j < n ==> Passable(fs0, t[j], store, reachable)
  }

  ghost predicate AllPassable(fs0: Files, t: Tree, store: Store, reachable: Bytes -> bool) {
    PassableTo(fs0, t, store, reachable, |t|)
  }

  lemma PassableNext(fs0: Files, t: Tree, store: Store, reachable: Bytes -> bool, i: nat)
    requires i < |t|
    ensures PassableTo(fs0, t, store, reachable, i + 1)
       <==> PassableTo(fs0, t, store, reachable, i) && Passable(fs0, t[i], store, reachable)
    ensures AllPassable(fs0, t, store, reachable) ==> Passable(fs0, t[i], store, reachable)
  {
  }

  /** The first pass: directories only. */
  method MakeDirs(d: WorkDir, t: Tree, store: Store, ghost fs0: Files, ghost left: set<Bytes>)
      returns (r: Result<()>, ghost done: set<Bytes>)
    requires WellFormed(t) && Restored(d.fs, fs0, t, store, {}, left)
    modifies d
    ensures r.Ok? ==> forall j :: 0 <= j < |t| && t[j].dir ==> Passable(fs0, t[j], store, d.reachable)
    ensures left == {} && AllPassable(fs0, t, store, d.reachable) ==> r.Ok? || r.error.Fault?
    ensures r.Ok? ==> Restored(d.fs, fs0, t, store, done, left)
    ensures r.Ok? ==> forall j :: 0 <= j < |t| ==> (t[j].path in done <==> t[j].dir)
  {
    WellFormedUnique(t);
    done := {};
    for i := 0 to |t|
      invariant Restored(d.fs, fs0, t, store, done, left)
      invariant forall j :: 0 <= j < |t| ==> (t[j].path in done <==> j < i && t[j].dir)
      invariant forall j :: 0 <= j < i && t[j].dir ==> Passable(fs0, t[j], store, d.reachable)
    {
      if t[i].dir {
        r := PutEntry(d, t, i, store, fs0, done, left);
        if r.Err? {
          return;
        }
        done := done + {t[i].path};
      }
    }
    r := Ok(());
  }

  /** The directories and the first i entries. */
  ghost predicate DoneUpTo(t: Tree, done: set<Bytes>, i: nat) {
    forall j :: 0 <= j < |t| ==> (t[j].path in done <==> j < i || t[j].dir)
  }

  lemma DoneNext(t: Tree, done: set<Bytes>, i: nat)
    requires WellFormed(t) && i < |t| && DoneUpTo(t, done, i)
    ensures DoneUpTo(t, if t[i].dir then done else done + {t[i].path}, i + 1)
  {
    WellFormedUnique(t);
  }

  /** The body of the second pass, which skips directories. */
  method PutUnlessDir(d: WorkDir, t: Tree, i: nat, store: Store, ghost fs0: Files, ghost done: set<Bytes>, ghost left: set<Bytes>)
      returns (r: Result<()>, ghost done': set<Bytes>)
    requires WellFormed(t) && i < |t| && Restored(d.fs, fs0, t, store, done, left) && DoneUpTo(t, done, i)
    requires t[i].dir ==> Passable(fs0, t[i], store, d.reachable)
    modifies d
    ensures r.Ok? ==> Restored(d.fs, fs0, t, store, done', left) && DoneUpTo(t, done', i + 1)
    ensures r.Ok? ==> Passable(fs0, t[i], store, d.reachable)
    ensures left == {} && Passable(fs0, t[i], store, d.reachable) ==> r.Ok? || r.error.Fault?
  {
    DoneNext(t, done, i);
    done' := if t[i].dir then done else done + {t[i].path};
    if t[i].dir {
      return Ok(()), done';
    }
    assert forall j :: 0 <= j < i && t[j].dir ==> t[j].path in done;
    r := PutEntry(d, t, i, store, fs0, done, left);
  }

  /** The second pass: files and links. */
  method WriteRest(d: WorkDir, t: Tree, store: Store, ghost fs0: Files, ghost dirs: set<Bytes>, ghost left: set<Bytes>)
      returns (r: Result<()>, ghost done: set<Bytes>)
    requires WellFormed(t) && Restored(d.fs, fs0, t, store, dirs, left) && DoneUpTo(t, dirs, 0)
    requires forall j :: 0 <= j < |t| && t[j].dir ==> Passable(fs0, t[j], store, d.reachable)
    modifies d
    ensures r.Ok? ==> AllPassable(fs0, t, store, d.reachable)
    ensures left == {} && AllPassable(fs0, t, store, d.reachable) ==> r.Ok? || r.error.Fault?
    ensures r.Ok? ==> Restored(d.fs, fs0, t, store, done, left) && DoneUpTo(t, done, |t|)
  {
    done := dirs;
    for i := 0 to |t|
      invariant Restored(d.fs, fs0, t, store, done, left) && DoneUpTo(t, done, i)
      invariant PassableTo(fs0, t, store, d.reachable, i)
    {
      PassableNext(fs0, t, store, d.reachable, i);
      r, done := PutUnlessDir(d, t, i, store, fs0, done, left);
      if r.Err? {
        return;
      }
    }
    r := Ok(());
  }

  /** A link that was followed is where it was. */
  lemma AstrayStays(fs: Files, fs0: Files, t: Tree, store: Store, done: set<Bytes>, left: set<Bytes>, j: nat)
    requires WellFormed(t) && Restored(fs, fs0, t, store, done, left) && j < |t| && Astray(fs0, t[j]) && t[j].path in fs0
    ensures t[j].path in fs && fs[t[j].path] == fs0[t[j].path]
  {
    WellFormedUnique(t);
    LookupEntry(t, j);
  }

  /**
   Clears what is extra, makes the directories, then writes files and links.  Faults aside, it returns nil
   exactly when every file's blob is present and each path either need not change kind (except into a link) or
   is sent behind a link where the call works.  A nil return means the directory is exactly the tree if and
   only if no path had to change kind and every removal worked; the links that were followed are still there.
   */
  method Restore(d: WorkDir, t: Tree, store: Store, walk: seq<Bytes>) returns (r: Result<()>, ghost cleared: bool)
    requires WellFormed(t) && Nested(d.fs) && WalkOrder(walk, d.fs)
    modifies d
    ensures r.Ok? ==> AllPassable(old(d.fs), t, store, d.reachable)
    ensures cleared && AllPassable(old(d.fs), t, store, d.reachable) ==> r.Ok? || r.error.Fault?
    ensures r.Ok? ==> (Matches(d.fs, t, store) <==> AllReplaceable(old(d.fs), t) && Unlisted(d.fs, t) == {})
    ensures r.Ok? && cleared ==> Unlisted(d.fs, t) == {}
    ensures Unlisted(old(d.fs), t) == {} ==> cleared
    ensures WalkFinds(walk, old(d.fs), t) && !FAULTY ==> cleared
    ensures r.Ok? ==> forall j :: 0 <= j < |t| && Astray(old(d.fs), t[j]) && t[j].path in old(d.fs) ==>
                        t[j].path in d.fs && d.fs[t[j].path] == old(d.fs)[t[j].path]
  {
    ghost var fs0 := d.fs;
    ghost var left: set<Bytes>;
    cleared, left := ClearExtra(d, t, walk);
    ghost var done: set<Bytes>;
    r, done := MakeDirs(d, t, store, fs0, left);
    if r.Err? {
      return;
    }
    r, done := WriteRest(d, t, store, fs0, done, left);
    if r.Ok? {
      AllDone(d.fs, fs0, t, store, done, left);
      assert Unlisted(d.fs, t) == left;
      forall j | 0 <= j < |t| && Astray(fs0, t[j]) && t[j].path in fs0
        ensures t[j].path in d.fs && d.fs[t[j].path] == fs0[t[j].path]
      {
        AstrayStays(d.fs, fs0, t, store, done, left, j);
      }
    }
  }

  /** Without kind changes, all blobs at hand is all it takes. */
  lemma ReplaceablePassable(fs0: Files, t: Tree, store: Store, reachable: Bytes -> bool)
    requires WellFormed(t) && AllReplaceable(fs0, t)
    ensures AllPassable(fs0, t, store, reachable) <==> BlobsPresent(t, store)
  {
    forall j | 0 <= j < |t|
      ensures !Astray(fs0, t[j])
    {
      if LinkAbove(fs0, t[j].path) {
        var a :| a in Parents(t[j].path) && a in fs0 && fs0[a].Link?;
        ParentListed(t, j, a);
      }
    }
  }

  /**
   The same tree laid down both ways.  Where both return nil and every removal worked, the two directories hold
   the same files if and only if the host's had no path of another kind in the way.
   */
  method RestoreBothWays(host: WorkDir, guest: WorkDir, t: Tree, store: Store, walk: seq<Bytes>)
      returns (onHost: Result<()>, inGuest: Result<()>, ghost cleared: bool)
    requires WellFormed(t) && Nested(host.fs) && WalkOrder(walk, host.fs) && host != guest
    modifies host, guest
    ensures onHost.Ok? && inGuest.Ok? && cleared ==> (host.fs == guest.fs <==> AllReplaceable(old(host.fs), t))
    ensures AllReplaceable(old(host.fs), t) && BlobsPresent(t, store) && cleared ==>
              (onHost.Ok? || onHost.error.Fault?) && (inGuest.Ok? || inGuest.error.Fault?)
    ensures WalkFinds(walk, old(host.fs), t) && !FAULTY ==> cleared
  {
    ghost var guestCleared: bool;
    if AllReplaceable(host.fs, t) {
      ReplaceablePassable(host.fs, t, store, host.reachable);
    }
    onHost, cleared := Restore(host, t, store, walk);
    inGuest, guestCleared := WriteTree(guest, t, store);
    cleared := cleared && guestCleared;
  }

  // ---------- two kind changes ----------

  const A: Bytes := [97]

  function FileA(data: Bytes): Entry { Entry(A, 0, |data|, HashOf(data), [], false) }

  lemma JustA(data: Bytes, node: Node)
    ensures WellFormed([FileA(data)]) && Nested(map[A := node]) && WalkOrder([A], map[A := node])
    ensures Lookup([FileA(data)], A) == Some(FileA(data)) && !LinkAbove(map[A := node], A)
  {
    assert Parents(A) == {};
    forall a ensures !IsAncestor(a, A) { ParentsAreAncestors(A, a); }
  }

  /** Where a directory now stands, a restore that wants a file there is refused. */
  method FileOverDirectory(d: WorkDir, data: Bytes) returns (r: Result<()>)
    requires d.fs == map[A := Dir]
    modifies d
    ensures r.Err?
  {
    JustA(data, Dir);
    ghost var cleared: bool;
    assert !Passable(map[A := Dir], [FileA(data)][0], map[HashOf(data) := data], d.reachable);
    r, cleared := Restore(d, [FileA(data)], map[HashOf(data) := data], [A]);
  }

  /**
   Where a link now stands whose target can be written, a restore that wants a file there returns nil, faults
   aside; but it wrote behind the link, which is still there instead of the file.
   */
  method FileOverLink(d: WorkDir, data: Bytes, target: Bytes) returns (r: Result<()>)
    requires d.fs == map[A := Link(target)] && d.reachable(A)
    modifies d
    ensures r.Ok? ==> A in d.fs && d.fs[A] == Link(target) && !Matches(d.fs, [FileA(data)], map[HashOf(data) := data])
    ensures r.Err? ==> r.error.Fault?
  {
    JustA(data, Link(target));
    ghost var cleared: bool;
    var t := [FileA(data)];
    assert Astray(d.fs, t[0]) && !Replaceable(d.fs, t[0]) && Unlisted(d.fs, t) == {};
    r, cleared := Restore(d, t, map[HashOf(data) := data], [A]);
  }

  // ---------- snapshots ----------

  function EntryPath(e: Entry): Bytes { e.path }

  /** What an entry says of the node at its path. */
  predicate Describes(e: Entry, node: Node, mode: int) {
    && e.mode == mode && (e.dir <==> node.Dir?) && e.link == (if node.Link? then node.target else [])
    && e.hash == (if node.File? then HashOf(node.data) else []) && e.size == (if node.File? then |node.data| else 0)
  }

  function EntryFor(p: Bytes, node: Node, mode: int): Entry {
    match node
    case Dir => Entry(p, mode, 0, [], [], true)
    case Link(target) => Entry(p, mode, 0, [], target, false)
    case File(data) => Entry(p, mode, |data|, HashOf(data), [], false)
  }

  /**
   Records a directory as a tree, storing every file.  `walk` lists the paths the walk visits, in any order;
   `mode` gives their permission bits.  The tree is well formed and stands for exactly those files.
   */
  method Snapshot(fs: Files, walk: seq<Bytes>, mode: Bytes -> int, cas: BlobStore) returns (r: Result<Tree>)
    requires Nested(fs) && Sound(cas.blobs)
    requires forall p :: p in fs && fs[p].Link? ==> fs[p].target != []
    requires forall p :: p in walk <==> p in fs
    requires forall i, j :: 0 <= i < j < |walk| ==> walk[i] != walk[j]
    modifies cas
    ensures Sound(cas.blobs) && Grows(old(cas.blobs), cas.blobs)
    ensures r.Ok? ==> WellFormed(r.value) && BlobsPresent(r.value, cas.blobs) && Matches(fs, r.value, cas.blobs)
    ensures r.Ok? ==> forall e :: e in r.value && e.hash != [] ==> e.hash in cas.blobs
    ensures r.Ok? ==> forall e :: e in r.value ==> e.path in fs && Describes(e, fs[e.path], mode(e.path))
    ensures r.Err? ==> r.error.Fault?
  {
    var entries := WalkEntries(fs, walk, mode, cas);
    if entries.Err? {
      return Err(entries.error);
    }
    SnapshotSorted(fs, entries.value, mode, cas.blobs);
    return Ok(SortBy(entries.value, EntryPath));
  }

  /** One path of the walk. */
  method TakeEntry(p: Bytes, node: Node, mode: int, cas: BlobStore) returns (r: Result<Entry>)
    requires Sound(cas.blobs) && (node.Link? ==> node.target != [])
    modifies cas
    ensures Sound(cas.blobs) && Grows(old(cas.blobs), cas.blobs)
    ensures r.Ok? ==> r.value == EntryFor(p, node, mode) && (IsFile(r.value) ==> r.value.hash in cas.blobs)
    ensures r.Err? ==> r.error.Fault?
  {
    if node.File? {
      var h := cas.PutFile(node.data, node.data);
      if h.Err? {
        return Err(h.error);
      }
    }
    return Ok(EntryFor(p, node, mode));
  }

  /** The walk: an entry for each path, and each file's contents stored. */
  method WalkEntries(fs: Files, walk: seq<Bytes>, mode: Bytes -> int, cas: BlobStore) returns (r: Result<seq<Entry>>)
    requires Sound(cas.blobs) && (forall p :: p in walk <==> p in fs)
    requires forall p :: p in fs && fs[p].Link? ==> fs[p].target != []
    requires forall i, j :: 0 <= i < j < |walk| ==> walk[i] != walk[j]
    modifies cas
    ensures Sound(cas.blobs) && Grows(old(cas.blobs), cas.blobs)
    ensures r.Ok? ==> Lists(r.value, fs, mode) && DistinctBy(r.value, EntryPath)
    ensures r.Ok? ==> forall e :: e in r.value && IsFile(e) ==> e.hash in cas.blobs
    ensures r.Err? ==> r.error.Fault?
  {
    var entries: seq<Entry> := [];
    for i := 0 to |walk|
      invariant Sound(cas.blobs) && Grows(old(cas.blobs), cas.blobs)
      invariant |entries| == i
      invariant forall j :: 0 <= j < i ==> walk[j] in fs && entries[j] == EntryFor(walk[j], fs[walk[j]], mode(walk[j]))
      invariant forall j :: 0 <= j < i && IsFile(entries[j]) ==> entries[j].hash in cas.blobs
    {
      assert walk[i] in walk;
      var e := TakeEntry(walk[i], fs[walk[i]], mode(walk[i]), cas);
      if e.Err? {
        return Err(e.error);
      }
      entries := entries + [e.value];
    }
    WalkDistinct(walk, entries);
    WalkLists(fs, walk, mode, entries);
    return Ok(entries);
  }

  /** The entries are those of the files, in some order. */
  ghost predicate Lists(t: Tree, fs: Files, mode: Bytes -> int) {
    && (forall e :: e in t ==> e.path in fs && e == EntryFor(e.path, fs[e.path], mode(e.path)))
    && (forall p :: p in fs ==> EntryFor(p, fs[p], mode(p)) in t)
  }

  lemma WalkDistinct(walk: seq<Bytes>, entries: seq<Entry>)
    requires |entries| == |walk| && forall i, j :: 0 <= i < j < |walk| ==> walk[i] != walk[j]
    requires forall j :: 0 <= j < |walk| ==> entries[j].path == walk[j]
    ensures DistinctBy(entries, EntryPath)
  {
  }

  lemma WalkLists(fs: Files, walk: seq<Bytes>, mode: Bytes -> int, entries: seq<Entry>)
    requires |entries| == |walk|
    requires forall p :: p in fs ==> p in walk
    requires forall j :: 0 <= j < |walk| ==> walk[j] in fs && entries[j] == EntryFor(walk[j], fs[walk[j]], mode(walk[j]))
    ensures Lists(entries, fs, mode)
  {
  }

  lemma SortedLists(entries: seq<Entry>, t: Tree, fs: Files, mode: Bytes -> int)
    requires Lists(entries, fs, mode) && forall e :: e in t <==> e in entries
    ensures Lists(t, fs, mode)
  {
  }

  lemma SortedSnapshot(fs: Files, entries: seq<Entry>, t: Tree, mode: Bytes -> int, store: Store)
    requires Nested(fs) && Sound(store) && Lists(entries, fs, mode)
    requires StrictBy(t, EntryPath) && forall e :: e in t <==> e in entries
    requires forall p :: p in fs && fs[p].Link? ==> fs[p].target != []
    requires forall e :: e in entries && IsFile(e) ==> e.hash in store
    ensures WellFormed(t) && BlobsPresent(t, store) && Matches(fs, t, store)
    ensures forall e :: e in t && e.hash != [] ==> e.hash in store
    ensures Lists(t, fs, mode)
  {
    SortedLists(entries, t, fs, mode);
    ListedMatches(t, fs, mode, store);
  }

  lemma SnapshotSorted(fs: Files, entries: seq<Entry>, mode: Bytes -> int, store: Store)
    requires Nested(fs) && Sound(store) && Lists(entries, fs, mode) && DistinctBy(entries, EntryPath)
    requires forall p :: p in fs && fs[p].Link? ==> fs[p].target != []
    requires forall e :: e in entries && IsFile(e) ==> e.hash in store
    ensures var t := SortBy(entries, EntryPath); WellFormed(t) && BlobsPresent(t, store) && Matches(fs, t, store)
    ensures forall e :: e in SortBy(entries, EntryPath) && e.hash != [] ==> e.hash in store
    ensures forall e :: e in SortBy(entries, EntryPath) ==> e.path in fs && Describes(e, fs[e.path], mode(e.path))
  {
    var t := SortBy(entries, EntryPath);
    SortDistinct(entries, EntryPath);
    SortedSnapshot(fs, entries, t, mode, store);
    ListsDescribe(t, fs, mode);
  }

  lemma ListsDescribe(t: Tree, fs: Files, mode: Bytes -> int)
    requires Lists(t, fs, mode)
    ensures forall e :: e in t ==> e.path in fs && Describes(e, fs[e.path], mode(e.path))
  {
  }

  /** A tree whose blobs are all there stands for the same files in any larger store. */
  lemma MatchesGrows(fs: Files, t: Tree, store: Store, store': Store)
    requires Matches(fs, t, store) && BlobsPresent(t, store) && Grows(store, store')
    ensures Matches(fs, t, store') && BlobsPresent(t, store')
  {
    forall p | Lookup(t, p).Some?
      ensures NodeOf(Lookup(t, p).value, store') == NodeOf(Lookup(t, p).value, store)
    {
      LookupIn(t, p);
    }
  }

  lemma ListedLookup(t: Tree, fs: Files, mode: Bytes -> int, p: Bytes)
    requires Lists(t, fs, mode) && UniquePaths(t)
    ensures p in fs <==> Lookup(t, p).Some?
    ensures p in fs ==> Lookup(t, p) == Some(EntryFor(p, fs[p], mode(p)))
  {
    LookupIn(t, p);
    if p in fs {
      var e := EntryFor(p, fs[p], mode(p));
      var j :| 0 <= j < |t| && t[j] == e;
      LookupEntry(t, j);
    }
  }

  lemma ListedMatches(t: Tree, fs: Files, mode: Bytes -> int, store: Store)
    requires Lists(t, fs, mode) && Nested(fs) && Sound(store)
    requires forall p :: p in fs && fs[p].Link? ==> fs[p].target != []
    requires StrictBy(t, EntryPath)
    requires forall e :: e in t && IsFile(e) ==> e.hash in store
    ensures WellFormed(t) && BlobsPresent(t, store) && Matches(fs, t, store)
  {
    forall i, j | 0 <= i < j < |t|
      ensures Before(t[i].path, t[j].path) && t[i].path != t[j].path
    {
      assert Before(EntryPath(t[i]), EntryPath(t[j]));
      BeforeIrreflexive(t[i].path);
    }
    forall p
      ensures p in fs <==> Lookup(t, p).Some?
      ensures p in fs ==> fs[p] == NodeOf(Lookup(t, p).value, store)
    {
      ListedLookup(t, fs, mode, p);
      LookupIn(t, p);
    }
    forall i, a | 0 <= i < |t| && IsAncestor(a, t[i].path)
      ensures Lookup(t, a).Some? && Lookup(t, a).value.dir
    {
      assert t[i] in t;
      ListedLookup(t, fs, mode, a);
    }
  }
}
