/** The cache of reassembled images (internal/engine/cache.go) and its use by bringUp (internal/engine/memory.go). */
module Caches {
  import opened Content
  import opened Blobs
  import opened Images
  import Chunker

  datatype Ext = MemExt | StateExt | DiskExt | BaseExt
  datatype Name = Name(hash: Hash, ext: Ext)

  /** A cached file: its contents and when it was last used. */
  datatype CacheFile = CacheFile(data: Bytes, mtime: int)

  type Files = map<Name, CacheFile>

  // ---------- space taken ----------

  /** The space a set of files takes, where `space` gives the bytes on disk of each. */
  ghost function Sum(space: Name -> nat, names: set<Name>): nat {
    if names == {} then 0 else
    var n :| n in names;
    space(n) + Sum(space, names - {n})
  }

  lemma {:induction false} SumRemove(space: Name -> nat, names: set<Name>, n: Name)
    requires n in names
    ensures Sum(space, names) == space(n) + Sum(space, names - {n})
    decreases |names|
  {
    var m :| m in names && Sum(space, names) == space(m) + Sum(space, names - {m});
    if m != n {
      SumRemove(space, names - {m}, n);
      assert names - {m} - {n} == names - {n} - {m};
      SumRemove(space, names - {n}, m);
    }
  }

  lemma {:induction false} SumMonotone(space: Name -> nat, a: set<Name>, b: set<Name>)
    requires a <= b
    ensures Sum(space, a) <= Sum(space, b)
    decreases |b|
  {
    if a != b {
      var n :| n in b && n !in a;
      SumRemove(space, b, n);
      SumMonotone(space, a, b - {n});
    }
  }

  // ---------- order of use ----------

  ghost predicate DistinctTimes(files: Files) {
    forall a, b :: a in files && b in files && a != b ==> files[a].mtime != files[b].mtime
  }

  method Oldest(files: Files, names: set<Name>) returns (n: Name)
    requires names <= files.Keys && names != {} && DistinctTimes(files)
    ensures n in names && forall m :: m in names && m != n ==> files[n].mtime < files[m].mtime
  {
    n :| n in names;
    var rest := names - {n};
    while rest != {}
      invariant n in names && rest <= names
      invariant forall m :: m in names && m !in rest && m != n ==> files[n].mtime < files[m].mtime
      decreases rest
    {
      var m :| m in rest;
      if files[m].mtime < files[n].mtime {
        n := m;
      }
      rest := rest - {m};
    }
  }

  ghost predicate InOrder(files: Files, order: seq<Name>) {
    && (forall n :: n in order <==> n in files)
    && (forall i, j :: 0 <= i < j < |order| ==> order[i] in files && order[j] in files && files[order[i]].mtime < files[order[j]].mtime)
  }

  /** The directory listing, least recently used first. */
  method ByTime(files: Files) returns (order: seq<Name>)
    requires DistinctTimes(files)
    ensures InOrder(files, order)
  {
    order := [];
    var rest := files.Keys;
    while rest != {}
      invariant rest <= files.Keys
      invariant forall n :: n in order <==> n in files && n !in rest
      invariant forall i :: 0 <= i < |order| ==> order[i] in files
      invariant forall i, m :: 0 <= i < |order| && m in rest ==> files[order[i]].mtime < files[m].mtime
      invariant forall i, j :: 0 <= i < j < |order| ==> files[order[i]].mtime < files[order[j]].mtime
      decreases rest
    {
      var n := Oldest(files, rest);
      order, rest := order + [n], rest - {n};
    }
  }

  // ---------- eviction ----------

  /** What is left once everything used before time t is gone, except the kept file. */
  ghost function Since(files: Files, t: int, keep: Name): set<Name> {
    set n | n in files && (files[n].mtime >= t || n == keep)
  }

  /** The cache after an eviction: never without the kept file, oldest first, no further than needed. */
  ghost predicate Evicted(space: Name -> nat, before: Files, after: Files, limit: int, keep: Name) {
    && (forall n :: n in after ==> n in before && after[n] == before[n])
    && (keep in before ==> keep in after)
    && (Sum(space, after.Keys) <= limit || after.Keys <= {keep})
    && (forall n, m :: n in before && n !in after && m in before && m != keep && before[m].mtime < before[n].mtime ==> m !in after)
    && (forall n :: n in before && n !in after ==> Sum(space, Since(before, before[n].mtime, keep)) > limit)
  }

  /** Files recent enough to fit together all survive, if the kept one is among them. */
  lemma RecentSurvive(space: Name -> nat, before: Files, after: Files, limit: int, keep: Name, t: int, n: Name)
    requires Evicted(space, before, after, limit, keep)
    requires keep in before && before[keep].mtime >= t
    requires Sum(space, Since(before, t, keep)) <= limit
    requires n in before && before[n].mtime >= t
    ensures n in after && after[n] == before[n]
  {
    SumMonotone(space, Since(before, before[n].mtime, keep), Since(before, t, keep));
  }

  /** And when a cache does not fit, something other than the kept file has to go. */
  lemma OversizeEvicts(space: Name -> nat, before: Files, after: Files, limit: int, keep: Name)
    requires Evicted(space, before, after, limit, keep)
    requires Sum(space, before.Keys) > limit && exists n :: n in before && n != keep
    ensures exists n :: n in before && n != keep && n !in after
  {
    if after.Keys <= {keep} {
      var n :| n in before && n != keep;
      assert n !in after.Keys;
    } else {
      assert after.Keys <= before.Keys && after.Keys != before.Keys;
      var n :| n in before.Keys && n !in after.Keys;
      assert n != keep;
    }
  }

  /** The loop's state after the first i files of the listing. */
  ghost predicate Evicting(before: Files, now: Files, order: seq<Name>, i: nat, keep: Name) {
    && i <= |order|
    && (forall n :: n in now ==> n in before && now[n] == before[n])
    && (forall j :: 0 <= j < |order| ==> (order[j] in now <==> j >= i || order[j] == keep))
  }

  lemma StillIn(before: Files, now: Files, order: seq<Name>, i: nat, keep: Name)
    requires InOrder(before, order) && Evicting(before, now, order, i, keep) && i < |order|
    ensures now.Keys == Since(before, before[order[i]].mtime, keep)
    ensures order[i] in before
  {
  }

  lemma EvictOne(before: Files, now: Files, order: seq<Name>, i: nat, keep: Name)
    requires InOrder(before, order) && Evicting(before, now, order, i, keep) && i < |order|
    ensures order[i] == keep ==> Evicting(before, now, order, i + 1, keep)
    ensures order[i] != keep ==> order[i] in now && Evicting(before, now - {order[i]}, order, i + 1, keep)
  {
  }

  /** Where the loop stops, the cache is as it should be. */
  lemma EvictionDone(space: Name -> nat, before: Files, now: Files, order: seq<Name>, i: nat, keep: Name, limit: int)
    requires InOrder(before, order) && Evicting(before, now, order, i, keep)
    requires Sum(space, now.Keys) <= limit || i == |order|
    requires forall j :: 0 <= j < i && order[j] in before && order[j] != keep ==>
               Sum(space, Since(before, before[order[j]].mtime, keep)) > limit
    ensures Evicted(space, before, now, limit, keep)
  {
  }

  /** The loop's state, with its running total, when each file before i was found too much to keep. */
  ghost predicate Looped(space: Name -> nat, before: Files, now: Files, order: seq<Name>, i: nat, keep: Name, limit: int, total: int) {
    && InOrder(before, order) && Evicting(before, now, order, i, keep) && total == Sum(space, now.Keys)
    && forall j :: 0 <= j < i && order[j] in before && order[j] != keep ==>
         Sum(space, Since(before, before[order[j]].mtime, keep)) > limit
  }

  lemma LoopNext(space: Name -> nat, before: Files, now: Files, order: seq<Name>, i: nat, keep: Name, limit: int, total: int)
    requires Looped(space, before, now, order, i, keep, limit, total) && i < |order| && total > limit
    ensures order[i] == keep ==> Looped(space, before, now, order, i + 1, keep, limit, total)
    ensures order[i] != keep ==> order[i] in now
    ensures order[i] != keep ==>
              Looped(space, before, now - {order[i]}, order, i + 1, keep, limit, total - space(order[i]))
  {
    StillIn(before, now, order, i, keep);
    EvictOne(before, now, order, i, keep);
    if order[i] != keep {
      SumRemove(space, now.Keys, order[i]);
      assert (now - {order[i]}).Keys == now.Keys - {order[i]};
    }
  }

  lemma LoopStart(space: Name -> nat, before: Files, order: seq<Name>, keep: Name, limit: int, total: int)
    requires InOrder(before, order) && total == Sum(space, before.Keys)
    ensures Looped(space, before, before, order, 0, keep, limit, total)
  {
  }

  lemma LoopDone(space: Name -> nat, before: Files, now: Files, order: seq<Name>, i: nat, keep: Name, limit: int, total: int)
    requires Looped(space, before, now, order, i, keep, limit, total) && (total <= limit || i == |order|)
    ensures Evicted(space, before, now, limit, keep)
  {
    EvictionDone(space, before, now, order, i, keep, limit);
  }

  ghost predicate Within(a: Files, b: Files) {
    forall n :: n in a ==> n in b && b[n] == a[n]
  }

  lemma WithinNext(left: Files, files: Files, before: Files, n: Name)
    requires Within(left, files) && Within(files, before)
    ensures Within(left - {n}, files) && Within(left - {n}, files - {n}) && Within(files - {n}, before)
  {
  }

  method TotalUsed(files: Files, order: seq<Name>, space: Name -> nat) returns (total: int)
    requires InOrder(files, order)
    ensures total == Sum(space, files.Keys)
  {
    total := 0;
    ghost var seen: set<Name> := {};
    for i := 0 to |order|
      invariant seen <= files.Keys && total == Sum(space, seen)
      invariant forall j :: 0 <= j < |order| ==> (order[j] in seen <==> j < i)
    {
      assert order[i] in order;
      total := total + space(order[i]);
      SumRemove(space, seen + {order[i]}, order[i]);
      assert seen + {order[i]} - {order[i]} == seen;
      seen := seen + {order[i]};
    }
    assert seen == files.Keys;
  }

  /** What a cached file must hold: the image a manifest names, or a plain blob. */
  ghost predicate Agrees(store: Store, h: Hash, data: Bytes) {
    && h in store
    && if DecodeManifest(store[h]).Some? then h == ImageHash(data) && Holds(store, data) else data == store[h]
  }

  /** A request for a materialised object: the image it should be if chunked, and the pool's finishing order. */
  datatype Request = Request(name: Name, image: Bytes, order: seq<nat>) {
    ghost predicate Valid() {
      DecodeManifest(Unhash(name.hash)).Some? ==>
        name.hash == ImageHash(image) && forall i: nat :: i in order <==> i < ChunkCount(|image|)
    }

    /** The store has the blob, and every chunk if it is an image. */
    ghost predicate Present(store: Store) {
      name.hash in store && (DecodeManifest(store[name.hash]).Some? ==> Holds(store, image))
    }
  }

  class ImageCache {
    const space: Name -> nat
    const limit: int
    var files: Files
    var clock: int

    constructor (space: Name -> nat, limit: int)
      ensures this.space == space && this.limit == limit && files == map[] && Valid(map[])
    {
      this.space, this.limit, files, clock := space, limit, map[], 0;
    }

    /** Use times are distinct and past. */
    ghost predicate Timed()
      reads this
    {
      DistinctTimes(files) && forall n :: n in files ==> files[n].mtime < clock
    }

    /** Besides, every cached file is what the store would reassemble. */
    ghost predicate Valid(store: Store)
      reads this
    {
      Timed() && forall n :: n in files ==> Agrees(store, n.hash, files[n].data)
    }

    /**
     Removes the least recently used images until the cache fits, never the one just made.  A removal that fails
     is ignored, and its space counted as freed all the same; `left` is what should be there then, and is what is
     there unless a file got `stuck`.
     */
    method EvictCache(keep: Name) returns (ghost left: Files, ghost stuck: bool)
      requires DistinctTimes(files)
      modifies this`files
      ensures Evicted(space, old(files), left, limit, keep)
      ensures Within(left, files) && Within(files, old(files)) && (!stuck ==> files == left) && (stuck ==> FAULTY)
    {
      var order := ByTime(files);
      ghost var before := files;
      var total := TotalUsed(files, order, space);
      LoopStart(space, files, order, keep, limit, total);
      left, stuck := files, false;
      var i := 0;
      while i < |order| && total > limit
        invariant i <= |order| && Looped(space, before, left, order, i, keep, limit, total)
        invariant Within(left, files) && Within(files, before) && (!stuck ==> files == left) && (stuck ==> FAULTY)
      {
        LoopNext(space, before, left, order, i, keep, limit, total);
        if order[i] != keep {
          total := total - space(order[i]);
          WithinNext(left, files, before, order[i]);
          left := left - {order[i]};
          var failed := Fails();
          if failed {
            stuck := true;
          } else {
            files := files - {order[i]};
          }
        }
        i := i + 1;
      }
      LoopDone(space, before, left, order, i, keep, limit, total);
    }

    /**
     Writes a plain blob straight to its place in the cache.  A write that fails may leave a first part of it
     there, `torn` unless that is all of it.
     */
    method WriteInPlace(name: Name, data: Bytes) returns (ok: bool, ghost torn: bool)
      requires Timed() && name !in files
      modifies this
      ensures Timed()
      ensures ok ==> !torn && clock == old(clock) + 1 && files == old(files)[name := CacheFile(data, old(clock))]
      ensures !ok ==> files == old(files) || LeftAt(old(files), files, name, old(clock), data)
      ensures torn ==> !ok && name in files && files[name].data < data
      ensures !torn && name in files ==> files[name].data == data
      ensures old(clock) <= clock && (ok || FAULTY)
    {
      var failed := Fails();
      var k: int := *;
      if !failed {
        k := |data|;
      }
      if k < 0 || k > |data| {
        return false, false;
      }
      files := files[name := CacheFile(data[..k], clock)];
      clock := clock + 1;
      assert data[..|data|] == data;
      return !failed, k < |data|;
    }

    /**
     Reassembles a chunked object and moves it into place, or copies a plain blob there.  Any failure to read a
     manifest is taken for a plain blob; `misread` says that this one was a read gone wrong, of an object that is
     chunked.  Then, if copying works, the manifest itself is what ends up in the cache.  A torn copy stays,
     although the call fails.  Otherwise what is in the cache agrees with the store.
     */
    method Materialise(cas: BlobStore, q: Request) returns (ok: bool, ghost misread: bool, ghost torn: bool)
      requires Sound(cas.blobs) && Timed() && q.Valid() && q.name !in files
      modifies this, cas
      ensures Sound(cas.blobs) && Grows(old(cas.blobs), cas.blobs) && Timed() && old(clock) <= clock
      ensures ok ==> !torn && q.name in files && files[q.name].mtime == old(clock) && clock == old(clock) + 1
      ensures files == old(files) || (q.name in files && files[q.name].mtime == old(clock) && files == old(files)[q.name := files[q.name]])
      ensures q.name in files && !misread && !torn ==> Agrees(cas.blobs, q.name.hash, files[q.name].data)
      ensures q.name in files && misread && !torn ==> q.name.hash in cas.blobs && files[q.name].data == cas.blobs[q.name.hash]
      ensures q.name in files && misread && !torn ==>
                (Agrees(cas.blobs, q.name.hash, files[q.name].data) <==> files[q.name].data == q.image && Holds(cas.blobs, q.image))
      ensures torn ==> !ok && q.name in files && q.name.hash in cas.blobs && files[q.name].data < cas.blobs[q.name.hash]
      ensures torn && !misread ==> !Agrees(cas.blobs, q.name.hash, files[q.name].data)
      ensures (misread || torn ==> FAULTY) && (!ok && q.Present(old(cas.blobs)) ==> FAULTY)
    {
      torn := false;
      var m := Chunker.ReadManifest(cas, q.name.hash);
      assert q.name.hash in cas.blobs ==> cas.blobs[q.name.hash] == Unhash(q.name.hash) by {
        assert q.name.hash in cas.blobs ==> HashOf(cas.blobs[q.name.hash]) == q.name.hash;
      }
      misread := m.Err? && q.name.hash in cas.blobs && DecodeManifest(cas.blobs[q.name.hash]).Some?;
      if m.Ok? {
        var img := Chunker.GetChunkedTo(cas, q.name.hash, q.order, q.image);
        if img.Err? {
          return false, misread, false;
        }
        files := files[q.name := CacheFile(img.value, clock)];
        clock := clock + 1;
        return true, misread, false;
      }
      var blob := cas.Get(q.name.hash);
      if blob.Err? {
        return false, misread, false;
      }
      ok, torn := WriteInPlace(q.name, blob.value);
      if misread && ImageHash(blob.value) == q.name.hash {
        ImageHashInjective(blob.value, q.image);
      }
    }

    /** A miss: materialises the file and evicts what no longer fits. */
    method Fetch(cas: BlobStore, q: Request) returns (ok: bool, ghost misread: bool, ghost torn: bool, ghost left: Files)
      requires Sound(cas.blobs) && Timed() && q.Valid() && q.name !in files
      modifies this, cas
      ensures Sound(cas.blobs) && Grows(old(cas.blobs), cas.blobs) && Timed() && old(clock) <= clock
      ensures Within(files - {q.name}, old(files)) && (!ok ==> Within(old(files), files))
      ensures q.name in files && !misread && !torn ==> Agrees(cas.blobs, q.name.hash, files[q.name].data)
      ensures ok ==> !torn && q.name in files && files[q.name].mtime == old(clock) && clock == old(clock) + 1
      ensures ok && misread ==> q.name.hash in cas.blobs && files[q.name].data == cas.blobs[q.name.hash]
      ensures ok ==> Evicted(space, old(files)[q.name := files[q.name]], left, limit, q.name) && Within(left, files)
      ensures torn ==> !ok && q.name in files && q.name.hash in cas.blobs && files[q.name].data < cas.blobs[q.name.hash]
      ensures torn && !misread ==> !Agrees(cas.blobs, q.name.hash, files[q.name].data)
      ensures (misread || torn ==> FAULTY) && (!ok && q.Present(old(cas.blobs)) ==> FAULTY)
    {
      ghost var had := files;
      ok, misread, torn := Materialise(cas, q);
      left := files;
      if ok {
        ghost var made, stuck := files, false;
        left, stuck := EvictCache(q.name);
        assert q.name in left && made == had[q.name := files[q.name]];
      }
    }

    /**
     A hit marks the file used; a miss fetches it.  The cache keeps agreeing with the store unless a manifest was
     misread or a copy torn; after a miss it is `left` by an eviction, but for files that could not be removed.
     */
    method CachedImage(cas: BlobStore, q: Request) returns (ok: bool, ghost misread: bool, ghost torn: bool, ghost left: Files)
      requires Sound(cas.blobs) && Timed() && q.Valid()
      modifies this, cas
      ensures Sound(cas.blobs) && Grows(old(cas.blobs), cas.blobs) && Timed() && old(clock) <= clock
      ensures old(Valid(cas.blobs)) && !misread && !torn ==> Valid(cas.blobs)
      ensures Within(files - {q.name}, old(files)) && (!ok ==> Within(old(files), files))
      ensures ok ==> !torn && q.name in files && files[q.name].mtime == old(clock) && clock == old(clock) + 1
      ensures ok && misread ==> q.name.hash in cas.blobs && files[q.name].data == cas.blobs[q.name.hash]
      ensures q.name in old(files) ==> ok && !misread && cas.blobs == old(cas.blobs)
      ensures q.name in old(files) ==> files == old(files)[q.name := old(files)[q.name].(mtime := old(clock))]
      ensures ok && q.name !in old(files) ==>
                Evicted(space, old(files)[q.name := files[q.name]], left, limit, q.name) && Within(left, files)
      ensures torn ==> !ok && q.name in files && q.name.hash in cas.blobs && files[q.name].data < cas.blobs[q.name.hash]
      ensures torn && !misread ==> !Agrees(cas.blobs, q.name.hash, files[q.name].data)
      ensures (misread || torn ==> FAULTY) && (!ok && q.Present(old(cas.blobs)) ==> FAULTY)
    {
      if q.name in files {
        files := files[q.name := files[q.name].(mtime := clock)];
        clock := clock + 1;
        return true, false, false, files;
      }
      ghost var before, had := cas.blobs, files;
      ok, misread, torn, left := Fetch(cas, q);
      if (forall n :: n in had ==> Agrees(before, n.hash, had[n].data)) && !misread && !torn {
        StillAgree(before, cas.blobs, had, files, q.name);
      }
    }

    /**
     Collects the images of one checkpoint in turn.  If they fit the limit together, none of them has been
     evicted by the time the last is there, however full the cache was; and unless a manifest was misread or a
     copy torn, each is what the store holds.
     */
    method BringUpImages(cas: BlobStore, qs: seq<Request>) returns (ok: bool, ghost misread: bool, ghost torn: bool)
      requires Sound(cas.blobs) && Timed() && forall i :: 0 <= i < |qs| ==> qs[i].Valid()
      modifies this, cas
      ensures Sound(cas.blobs) && Grows(old(cas.blobs), cas.blobs) && Timed()
      ensures old(Valid(cas.blobs)) && !misread && !torn ==> Valid(cas.blobs)
      ensures ok ==> !torn
      ensures (misread || torn ==> FAULTY) && (!ok && (forall i :: 0 <= i < |qs| ==> qs[i].Present(old(cas.blobs))) ==> FAULTY)
      ensures ok && Sum(space, Wanted(qs)) <= limit ==> forall i :: 0 <= i < |qs| ==> qs[i].name in files
    {
      ghost var start := clock;
      misread, torn := false, false;
      for k := 0 to |qs|
        invariant Sound(cas.blobs) && Grows(old(cas.blobs), cas.blobs) && Timed() && start <= clock
        invariant old(Valid(cas.blobs)) && !misread ==> Valid(cas.blobs)
        invariant misread ==> FAULTY
        invariant !torn && forall n :: n in files && files[n].mtime >= start ==> n in Wanted(qs)
        invariant Sum(space, Wanted(qs)) <= limit ==>
                    forall i :: 0 <= i < k ==> qs[i].name in files && files[qs[i].name].mtime >= start
      {
        ghost var before := files;
        ghost var wrong: bool;
        ghost var left: Files;
        ghost var store := cas.blobs;
        ok, wrong, torn, left := CachedImage(cas, qs[k]);
        assert qs[k].Present(old(cas.blobs)) ==> qs[k].Present(store);
        misread := misread || wrong;
        if !ok {
          return;
        }
        assert qs[k].name in Wanted(qs);
        if Sum(space, Wanted(qs)) <= limit {
          RecentKept(space, before, files, left, limit, qs, k, start);
        }
      }
      return true, misread, false;
    }

    /**
     A fetch of a plain blob that tears, then the same fetch again: the second is a hit, and hands out the part
     that was left as if it were the blob.
     */
    method TornIsServed(cas: BlobStore, q: Request) returns (first: bool, second: bool, ghost torn: bool)
      requires Sound(cas.blobs) && Timed() && q.Valid() && q.name !in files
      requires q.name.hash in cas.blobs && DecodeManifest(Unhash(q.name.hash)).None?
      modifies this, cas
      ensures torn ==> !first && second && q.name in files && q.name.hash in cas.blobs
      ensures torn ==> files[q.name].data < cas.blobs[q.name.hash] && !Agrees(cas.blobs, q.name.hash, files[q.name].data)
    {
      ghost var misread, again: bool;
      ghost var left: Files;
      first, misread, torn, left := CachedImage(cas, q);
      assert cas.blobs[q.name.hash] == Unhash(q.name.hash) by {
        assert HashOf(cas.blobs[q.name.hash]) == q.name.hash;
      }
      second, misread, again, left := CachedImage(cas, q);
    }
  }

  /** A file has been left under the name, holding the first bytes of the data. */
  ghost predicate LeftAt(before: Files, after: Files, name: Name, time: int, data: Bytes) {
    name in after && after[name].mtime == time && after[name].data <= data && after == before[name := after[name]]
  }

  ghost function Wanted(qs: seq<Request>): set<Name> {
    set i | 0 <= i < |qs| :: qs[i].name
  }

  lemma StillAgree(store: Store, store': Store, had: Files, files: Files, name: Name)
    requires Grows(store, store') && forall n :: n in had ==> Agrees(store, n.hash, had[n].data)
    requires Within(files - {name}, had) && (name in files ==> Agrees(store', name.hash, files[name].data))
    ensures forall n :: n in files ==> Agrees(store', n.hash, files[n].data)
  {
    forall n | n in files
      ensures Agrees(store', n.hash, files[n].data)
    {
      if n != name {
        assert n in files - {name} && had[n] == files[n];
      }
    }
  }

  /** What this round has collected stays when the next image comes in. */
  lemma RecentKept(space: Name -> nat, before: Files, after: Files, left: Files, limit: int, qs: seq<Request>, k: nat, start: int)
    requires k < |qs| && Sum(space, Wanted(qs)) <= limit
    requires forall n :: n in before && before[n].mtime >= start ==> n in Wanted(qs)
    requires forall i :: 0 <= i < k ==> qs[i].name in before && before[qs[i].name].mtime >= start
    requires qs[k].name in after && after[qs[k].name].mtime >= start
    requires if qs[k].name in before then after == before[qs[k].name := after[qs[k].name]]
             else Evicted(space, before[qs[k].name := after[qs[k].name]], left, limit, qs[k].name) && Within(left, after)
    ensures forall i :: 0 <= i <= k ==> qs[i].name in after && after[qs[i].name].mtime >= start
  {
    var keep := qs[k].name;
    if keep !in before {
      var made := before[keep := after[keep]];
      WantedFit(space, made, limit, qs, keep, start);
      forall i | 0 <= i < k
        ensures qs[i].name in after && after[qs[i].name].mtime >= start
      {
        RecentSurvive(space, made, left, limit, keep, start, qs[i].name);
      }
    }
  }

  lemma WantedFit(space: Name -> nat, made: Files, limit: int, qs: seq<Request>, keep: Name, start: int)
    requires Sum(space, Wanted(qs)) <= limit && keep in Wanted(qs)
    requires forall n :: n in made && made[n].mtime >= start ==> n in Wanted(qs)
    ensures Sum(space, Since(made, start, keep)) <= limit
  {
    assert Since(made, start, keep) <= Wanted(qs);
    SumMonotone(space, Since(made, start, keep), Wanted(qs));
  }

  // ---------- base disks ----------

  /** What identifies a file's contents without reading it: device, inode, size and modification time. */
  type FileId = Bytes

  /** Where a base disk lies: already a cached image, or a file of its own. */
  datatype BaseDisk = Cached(hash: Hash) | Elsewhere(id: FileId)

  /** The index of base disks already stored (bases.json); `content` is what each identity stands for. */
  class BaseIndex {
    const content: FileId -> Bytes
    var known: map<FileId, Hash>

    constructor (content: FileId -> Bytes)
      ensures this.content == content && known == map[] && Valid(map[])
    {
      this.content, known := content, map[];
    }

    ghost predicate Valid(store: Store)
      reads this
    {
      forall id :: id in known ==> known[id] == ImageHash(content(id)) && Holds(store, content(id))
    }

    /**
     Stores a base disk the first time it is seen, and names it from the index after that; one that is a cached
     image already is named by its file.  When the index cannot be written, the call fails and the index is as
     it was or unreadable, which counts as empty.
     */
    method BaseHash(cas: BlobStore, cache: ImageCache, disk: BaseDisk) returns (r: Result<Hash>)
      requires Sound(cas.blobs) && Valid(cas.blobs)
      modifies this, cas
      ensures Sound(cas.blobs) && Grows(old(cas.blobs), cas.blobs) && Valid(cas.blobs)
      ensures r.Ok? && disk.Cached? ==> cas.blobs == old(cas.blobs) && r.value == disk.hash
      ensures r.Ok? && disk.Cached? ==> Name(r.value, BaseExt) in cache.files
      ensures r.Ok? && disk.Cached? && cache.Valid(cas.blobs) ==> Agrees(cas.blobs, r.value, cache.files[Name(r.value, BaseExt)].data)
      ensures r.Ok? && disk.Elsewhere? ==> r.value == ImageHash(content(disk.id)) && Holds(cas.blobs, content(disk.id))
      ensures r.Ok? && disk.Elsewhere? ==> disk.id in known && known[disk.id] == r.value
      ensures disk.Elsewhere? && disk.id in old(known) && r.Ok? ==> cas.blobs == old(cas.blobs) && known == old(known)
      ensures r.Err? ==> known == old(known) || known == map[]
      ensures r.Err? ==> r.error.Fault? || (disk.Cached? && Name(disk.hash, BaseExt) !in cache.files)
    {
      var failed := Fails();
      if failed {
        return Err(Fault);
      }
      if disk.Cached? {
        return if Name(disk.hash, BaseExt) in cache.files then Ok(disk.hash) else Err(NotFound);
      }
      if disk.id in known && known[disk.id] in cas.blobs {
        return Ok(known[disk.id]);
      }
      var file := content(disk.id);
      var spans := [Span(0, |file|)];
      assert forall k :: 0 <= k < |file| ==> spans[0].start <= k < spans[0].end && Covered(spans, k);
      r := Chunker.PutWhole(cas, file, spans);
      if r.Err? {
        return;
      }
      failed := Fails();
      if failed {
        var torn := Fails();
        known := if torn then map[] else known;
        return Err(Fault);
      }
      known := known[disk.id := r.value];
    }
  }
}
