/**
 The loops of internal/cas/chunked.go: the hole scan, the job that stores one chunk, the reference loop
 over all chunks, and reassembly.  `WorkerPool` shows that the concurrent form computes the same.
 */
module Chunker {
  import opened Content
  import opened Blobs
  import opened Images

  // ---------- the hole scan ----------

  /** The outcome of a SEEK_DATA or SEEK_HOLE call; `NoData` is ENXIO. */
  datatype Seek = At(offset: int) | NoData | Failed

  /** What the kernel promises about seeks in a file of `size` bytes whose data bytes are `data`. */
  ghost predicate SeekContract(size: nat, data: nat -> bool, seekData: nat -> Seek, seekHole: nat -> Seek) {
    && (forall off: nat :: off < size ==>
          match seekData(off)
          case At(s) => off <= s < size && data(s) && forall k: nat :: off <= k < s ==> !data(k)
          case NoData => forall k: nat :: off <= k < size ==> !data(k)
          case Failed => true)
    && (forall s: nat :: s < size && data(s) ==>
          match seekHole(s)
          case At(e) => s < e && forall k: nat :: s <= k < e && k < size ==> data(k)
          case _ => true)
  }

  ghost predicate Reliable(seek: nat -> Seek) { forall k: nat :: !seek(k).Failed? }
  ghost predicate FindsHoles(seek: nat -> Seek) { forall k: nat :: seek(k).At? }

  /** Sorted, disjoint, non-empty and inside the file. */
  ghost predicate Ordered(spans: seq<Span>, size: nat) {
    && (forall i :: 0 <= i < |spans| ==> 0 <= spans[i].start < spans[i].end <= size)
    && (forall i, j :: 0 <= i < j < |spans| ==> spans[i].end <= spans[j].start)
  }

  lemma CoveredAppend(spans: seq<Span>, sp: Span, k: int)
    ensures Covered(spans + [sp], k) <==> Covered(spans, k) || sp.start <= k < sp.end
  {
    var more := spans + [sp];
    if Covered(spans, k) {
      var j :| 0 <= j < |spans| && spans[j].start <= k < spans[j].end;
      assert more[j].start <= k < more[j].end;
    }
    if sp.start <= k < sp.end {
      assert more[|spans|].start <= k < more[|spans|].end;
    }
  }

  lemma CoveredMore(spans: seq<Span>, sp: Span)
    ensures forall k: int :: Covered(spans + [sp], k) <==> Covered(spans, k) || sp.start <= k < sp.end
  {
    forall k: int
      ensures Covered(spans + [sp], k) <==> Covered(spans, k) || sp.start <= k < sp.end
    {
      CoveredAppend(spans, sp, k);
    }
  }

  lemma WholeCovered(size: nat)
    ensures forall k: nat :: k < size ==> Covered([Span(0, size)], k)
  {
    var all := [Span(0, size)];
    forall k: nat | k < size
      ensures Covered(all, k)
    {
      assert all[0].start <= k < all[0].end;
    }
  }

  /** What the scan reports, from an offset on and given what it has found so far. */
  function Scan(size: nat, seekData: nat -> Seek, seekHole: nat -> Seek, off: nat, found: seq<Span>): seq<Span>
    decreases size - off
  {
    if off >= size || seekData(off).NoData? then found
    else if seekData(off).Failed? then [Span(0, size)]
    else
      var start := seekData(off).offset;
      if start < off then found else
      var hole := seekHole(start);
      var end := if !hole.At? || hole.offset > size then size else hole.offset;
      if end <= off then found else Scan(size, seekData, seekHole, end, found + [Span(start, end)])
  }

  /** The scan ends, never misses a data byte, and reports no other byte unless a seek failed. */
  method DataSpans(size: nat, ghost data: nat -> bool, seekData: nat -> Seek, seekHole: nat -> Seek)
      returns (spans: seq<Span>)
    requires SeekContract(size, data, seekData, seekHole)
    ensures spans == Scan(size, seekData, seekHole, 0, []) && Ordered(spans, size)
    ensures forall k: nat :: k < size && data(k) ==> Covered(spans, k)
    ensures Reliable(seekData) && FindsHoles(seekHole) ==>
              forall k: nat :: k < size && Covered(spans, k) ==> data(k)
  {
    spans := [];
    var off: nat := 0;
    while off < size
      invariant off <= size && Ordered(spans, off)
      invariant Scan(size, seekData, seekHole, off, spans) == Scan(size, seekData, seekHole, 0, [])
      invariant forall k: nat :: k < off && data(k) ==> Covered(spans, k)
      invariant FindsHoles(seekHole) ==> forall k: nat :: Covered(spans, k) ==> data(k)
    {
      var found := seekData(off);
      if found.NoData? {
        return;
      }
      if found.Failed? {
        WholeCovered(size);
        return [Span(0, size)];
      }
      var start: nat := found.offset;
      var hole := seekHole(start);
      var end: nat := if !hole.At? || hole.offset > size then size else hole.offset;
      CoveredMore(spans, Span(start, end));
      spans := spans + [Span(start, end)];
      off := end;
    }
  }

  /** Whether any span meets [a, b). */
  method Overlaps(spans: seq<Span>, a: int, b: int) returns (touched: bool)
    ensures touched <==> Touches(spans, a, b)
  {
    for j := 0 to |spans|
      invariant forall i :: 0 <= i < j ==> !(spans[i].start < b && spans[i].end > a)
    {
      if spans[j].start < b && spans[j].end > a {
        return true;
      }
    }
    return false;
  }

  // ---------- storing one chunk ----------

  lemma PatchStep(file: Bytes, spans: seq<Span>, j: nat, off: nat, chunk: Bytes, k: nat)
    requires j < |spans| && off + |chunk| <= |file| && k < |chunk|
    ensures Patch(file, spans[..j + 1], off, chunk)[k]
         == if spans[j].start <= off + k < spans[j].end then file[off + k]
            else Patch(file, spans[..j], off, chunk)[k]
  {
    assert spans[..j + 1] == spans[..j] + [spans[j]];
    CoveredAppend(spans[..j], spans[j], off + k);
  }

  /** Reads the dirty regions of a chunk over the base chunk already in the buffer. */
  method PatchInPlace(b: array<byte>, file: Bytes, spans: seq<Span>, off: nat)
    requires off + b.Length <= |file|
    modifies b
    ensures b[..] == Patch(file, spans, off, old(b[..]))
  {
    ghost var chunk := b[..];
    assert Patch(file, spans[..0], off, chunk) == chunk by {
      assert forall k :: !Covered(spans[..0], k);
    }
    for j := 0 to |spans|
      invariant b[..] == Patch(file, spans[..j], off, chunk)
    {
      var a := if spans[j].start > off then spans[j].start else off;
      var e := if spans[j].end < off + b.Length then spans[j].end else off + b.Length;
      ghost var before := b[..];
      if a < e {
        forall k | a - off <= k < e - off {
          b[k] := file[off + k];
        }
      }
      forall k: nat | k < b.Length
        ensures b[k] == Patch(file, spans[..j + 1], off, chunk)[k]
      {
        PatchStep(file, spans, j, off, chunk, k);
        assert before[k] == Patch(file, spans[..j], off, chunk)[k];
      }
    }
    assert spans[..|spans|] == spans;
  }

  /** Stores a chunk if absent; `isNew` says whether it looked absent. */
  method StoreChunk(cas: BlobStore, b: Bytes) returns (r: Result<Hash>, isNew: bool)
    requires Sound(cas.blobs)
    modifies cas
    ensures Sound(cas.blobs) && Grows(old(cas.blobs), cas.blobs)
    ensures cas.blobs == if r.Ok? then Add(old(cas.blobs), b) else old(cas.blobs)
    ensures r.Ok? ==> r.value == HashOf(b)
    ensures r.Err? ==> r.error.Fault?
    ensures isNew <==> HashOf(b) !in old(cas.blobs)
  {
    var h := HashOf(b);
    var present := cas.Has(h);
    if present {
      AddGrows(cas.blobs, b);
      return Ok(h), false;
    }
    r := cas.Put(b);
    isNew := true;
  }

  ghost function Manifested(img: Option<Bytes>): Option<Manifest> {
    if img.Some? then Some(ManifestOf(img.value)) else None
  }

  /** Chunk i is taken over from the base by name, without being read. */
  predicate Reused(file: Bytes, spans: seq<Span>, img: Option<Bytes>, i: nat) {
    Usable(|file|, img, i) && !Touches(spans, i * CHUNK_SIZE, i * CHUNK_SIZE + ChunkLen(|file|, i))
  }

  /**
   The job for chunk i.  On success it returns the hash of what `JobBytes` says, and that blob is in the
   store unless the chunk was reused.  Only a base chunk that is read can be found missing.
   */
  method PutChunk(cas: BlobStore, file: Bytes, spans: seq<Span>, base: Option<Manifest>, i: nat,
                  ghost img: Option<Bytes>) returns (r: Result<Hash>, isNew: bool)
    requires Sound(cas.blobs) && i < ChunkCount(|file|)
    requires base == Manifested(img)
    modifies cas
    ensures Sound(cas.blobs) && Grows(old(cas.blobs), cas.blobs)
    ensures r.Ok? ==> r.value == HashOf(JobBytes(file, spans, img, i))
    ensures r.Ok? ==> cas.blobs == old(cas.blobs) || cas.blobs == Add(old(cas.blobs), JobBytes(file, spans, img, i))
    ensures r.Ok? ==> r.value in cas.blobs || Reused(file, spans, img, i)
    ensures r.Ok? ==> (isNew <==>
                        && Touches(spans, i * CHUNK_SIZE, i * CHUNK_SIZE + ChunkLen(|file|, i))
                        && HashOf(JobBytes(file, spans, img, i)) !in old(cas.blobs))
    ensures r.Err? ==> r.error.Fault? || (r.error.NotFound? && img.Some? && !ChunksIn(old(cas.blobs), img.value))
  {
    ChunkBounds(|file|, i);
    var off := i * CHUNK_SIZE;
    var ln := ChunkLen(|file|, i);
    isNew := false;
    var touched := Overlaps(spans, off, off + ln);
    if base.Some? && i < |base.value.chunks| && ChunkLen(base.value.size, i) == ln {
      if !touched {
        return Ok(base.value.chunks[i]), false;
      }
      var parent := cas.Get(base.value.chunks[i]);
      if parent.Err? {
        return parent, false;
      }
      assert parent.value == Slice(img.value, i) by {
        assert Unhash(HashOf(parent.value)) == parent.value;
      }
      var b := new byte[ln](k requires 0 <= k < |parent.value| => parent.value[k]);
      assert b[..] == parent.value;
      var failed := Fails();
      if failed {
        return Err(Fault), false;
      }
      PatchInPlace(b, file, spans, off);
      r, isNew := StoreChunk(cas, b[..]);
      return;
    }
    if !touched {
      r := cas.Put(Zeros(ln));
      return;
    }
    var failed := Fails();
    if failed {
      return Err(Fault), false;
    }
    r, isNew := StoreChunk(cas, file[off..off + ln]);
  }

  lemma SameKeys(s: Store, s': Store)
    requires Sound(s) && Sound(s') && s.Keys == s'.Keys
    ensures s == s'
  {
  }

  /**
   After i chunks: their hashes are listed, and the store has gained exactly their blobs; those in `reused` may
   be missing.
   */
  ghost predicate Progress(before: Store, now: Store, image: Bytes, chunks: seq<Hash>, i: nat, reused: set<nat>) {
    && i <= ChunkCount(|image|) && |chunks| == i
    && Sound(before) && Sound(now) && Grows(before, now)
    && (forall j: nat :: j < i ==> chunks[j] == HashOf(Slice(image, j)) && (chunks[j] in now || j in reused))
    && (forall h :: h in now ==> h in before || h in chunks)
  }

  lemma ProgressStep(before: Store, now: Store, next: Store, image: Bytes, chunks: seq<Hash>, i: nat, reused: set<nat>)
    requires Progress(before, now, image, chunks, i, reused) && i < ChunkCount(|image|)
    requires next == now || next == Add(now, Slice(image, i))
    requires HashOf(Slice(image, i)) in next || i in reused
    ensures Progress(before, next, image, chunks + [HashOf(Slice(image, i))], i + 1, reused)
  {
  }

  lemma ProgressDone(before: Store, now: Store, image: Bytes, chunks: seq<Hash>)
    requires Progress(before, now, image, chunks, ChunkCount(|image|), {})
    ensures Manifest(|image|, chunks) == ManifestOf(image)
    ensures Add(now, EncodeManifest(ManifestOf(image))) == AddImage(before, image)
  {
    AddImageHolds(before, image);
    AddGrows(now, EncodeManifest(ManifestOf(image)));
    var after := Add(now, EncodeManifest(ManifestOf(image)));
    forall h
      ensures h in after <==> h in AddImage(before, image)
    {
      if h in chunks {
        var j :| 0 <= j < |chunks| && chunks[j] == h;
        assert HashOf(Slice(image, j)) in AddImage(before, image);
      }
      if h in ChunkNames(image) {
        var j: nat :| j < ChunkCount(|image|) && h == HashOf(Slice(image, j));
        assert chunks[j] in now;
      }
    }
    assert after.Keys == AddImage(before, image).Keys;
    SameKeys(after, AddImage(before, image));
  }

  /** With reused chunks: the image is whole exactly when the store has those. */
  lemma ProgressReused(before: Store, now: Store, image: Bytes, chunks: seq<Hash>, reused: set<nat>)
    requires Progress(before, now, image, chunks, ChunkCount(|image|), reused)
    ensures Manifest(|image|, chunks) == ManifestOf(image)
    ensures var after := Add(now, EncodeManifest(ManifestOf(image)));
            Holds(after, image) <==> forall i :: i in reused && i < ChunkCount(|image|) ==> HashOf(Slice(image, i)) in after
  {
    AddGrows(now, EncodeManifest(ManifestOf(image)));
  }

  /** Every chunk reused from the base is in the store. */
  ghost predicate ReusedIn(s: Store, file: Bytes, spans: seq<Span>, img: Option<Bytes>) {
    forall i: nat :: i < ChunkCount(|file|) && Reused(file, spans, img, i) ==> HashOf(Slice(Overlay(file, spans, img), i)) in s
  }

  /**
   Stores a file, or with a base the file laid over it, one chunk after another.  The returned name is the
   name of the overlay image.  Over a base that is all there the store gains exactly that image; over one with
   chunks missing it is whole exactly when those reused without being read are there.
   */
  method PutChunked(cas: BlobStore, file: Bytes, spans: seq<Span>, base: Option<Manifest>,
                    ghost img: Option<Bytes>) returns (r: Result<Hash>)
    requires Sound(cas.blobs) && HolesZero(file, spans) && base == Manifested(img)
    modifies cas
    ensures Sound(cas.blobs) && Grows(old(cas.blobs), cas.blobs)
    ensures r.Ok? ==> r.value == ImageHash(Overlay(file, spans, img)) && r.value in cas.blobs
    ensures r.Ok? ==> (Holds(cas.blobs, Overlay(file, spans, img)) <==> ReusedIn(cas.blobs, file, spans, img))
    ensures r.Ok? && (img.Some? ==> ChunksIn(old(cas.blobs), img.value)) ==>
              cas.blobs == AddImage(old(cas.blobs), Overlay(file, spans, img)) && Holds(cas.blobs, Overlay(file, spans, img))
    ensures r.Err? ==> r.error.Fault? || (r.error.NotFound? && img.Some? && !ChunksIn(old(cas.blobs), img.value))
  {
    ghost var image := Overlay(file, spans, img);
    ghost var before := cas.blobs;
    ghost var reused := ReusedIndices(file, spans, img);
    var chunks: seq<Hash> := [];
    for i := 0 to ChunkCount(|file|)
      invariant Progress(before, cas.blobs, image, chunks, i, reused)
    {
      JobIsSlice(file, spans, img, i);
      ghost var now := cas.blobs;
      var h, isNew := PutChunk(cas, file, spans, base, i, img);
      if h.Err? {
        return h;
      }
      ProgressStep(before, now, cas.blobs, image, chunks, i, reused);
      chunks := chunks + [h.value];
    }
    ProgressReused(before, cas.blobs, image, chunks, reused);
    if img.Some? ==> ChunksIn(before, img.value) {
      NoneMissing(before, cas.blobs, file, spans, img, chunks);
      ProgressDone(before, cas.blobs, image, chunks);
      AddImageHolds(before, image);
    }
    r := cas.Put(EncodeManifest(Manifest(|file|, chunks)));
  }

  ghost function ReusedIndices(file: Bytes, spans: seq<Span>, img: Option<Bytes>): set<nat> {
    set i: nat | i < ChunkCount(|file|) && Reused(file, spans, img, i)
  }

  lemma NoneMissing(before: Store, now: Store, file: Bytes, spans: seq<Span>, img: Option<Bytes>, chunks: seq<Hash>)
    requires HolesZero(file, spans) && (img.Some? ==> ChunksIn(before, img.value))
    requires Progress(before, now, Overlay(file, spans, img), chunks, ChunkCount(|file|), ReusedIndices(file, spans, img))
    ensures Progress(before, now, Overlay(file, spans, img), chunks, ChunkCount(|file|), {})
  {
    forall i: nat | i < ChunkCount(|file|)
      ensures chunks[i] in now
    {
      if Reused(file, spans, img, i) {
        JobIsSlice(file, spans, img, i);
      }
    }
  }

  /** Without a base the image stored is the file itself. */
  method PutWhole(cas: BlobStore, file: Bytes, spans: seq<Span>) returns (r: Result<Hash>)
    requires Sound(cas.blobs) && HolesZero(file, spans)
    modifies cas
    ensures Sound(cas.blobs) && Grows(old(cas.blobs), cas.blobs)
    ensures r.Ok? ==> r.value == ImageHash(file) && Holds(cas.blobs, file)
    ensures r.Ok? ==> cas.blobs == AddImage(old(cas.blobs), file)
    ensures r.Err? ==> r.error.Fault?
  {
    WholeIsFile(file, spans);
    r := PutChunked(cas, file, spans, None, None);
  }

  /** With the name of a stored base, the image is the base with the file's data laid over it. */
  method PutChunkedOverlay(cas: BlobStore, file: Bytes, spans: seq<Span>, baseHash: Hash, ghost img: Bytes)
      returns (r: Result<Hash>)
    requires Sound(cas.blobs) && HolesZero(file, spans)
    requires baseHash == ImageHash(img)
    modifies cas
    ensures Sound(cas.blobs) && Grows(old(cas.blobs), cas.blobs)
    ensures r.Ok? ==> r.value == ImageHash(Overlay(file, spans, Some(img)))
    ensures r.Ok? ==> (Holds(cas.blobs, Overlay(file, spans, Some(img))) <==> ReusedIn(cas.blobs, file, spans, Some(img)))
    ensures r.Ok? && ChunksIn(old(cas.blobs), img) ==>
              cas.blobs == AddImage(old(cas.blobs), Overlay(file, spans, Some(img))) && Holds(cas.blobs, Overlay(file, spans, Some(img)))
    ensures r.Err? ==> r.error.Fault? || (r.error.NotFound? && !Holds(old(cas.blobs), img))
  {
    var base := ReadManifest(cas, baseHash);
    assert baseHash in cas.blobs ==> DecodeManifest(cas.blobs[baseHash]) == Some(ManifestOf(img)) by {
      assert baseHash in cas.blobs ==> HashOf(cas.blobs[baseHash]) == baseHash;
    }
    if base.Err? {
      return Err(base.error);
    }
    r := PutChunked(cas, file, spans, Some(base.value), Some(img));
  }

  // ---------- whole puts ----------

  /** A sparse file: the kernel's view of its data, and holes that read as zero. */
  ghost predicate SparseFile(file: Bytes, data: nat -> bool, seekData: nat -> Seek, seekHole: nat -> Seek) {
    && SeekContract(|file|, data, seekData, seekHole)
    && forall k: nat :: k < |file| && !data(k) ==> file[k] == 0
  }

  /** The name a file is stored under depends on its bytes alone, not on its holes or how seeks report them. */
  method PutSparse(cas: BlobStore, file: Bytes, ghost data: nat -> bool, seekData: nat -> Seek, seekHole: nat -> Seek)
      returns (r: Result<Hash>)
    requires Sound(cas.blobs) && SparseFile(file, data, seekData, seekHole)
    modifies cas
    ensures Sound(cas.blobs) && Grows(old(cas.blobs), cas.blobs)
    ensures r.Ok? ==> r.value == ImageHash(file) && cas.blobs == AddImage(old(cas.blobs), file) && Holds(cas.blobs, file)
    ensures r.Err? ==> r.error.Fault?
  {
    var spans := DataSpans(|file|, data, seekData, seekHole);
    r := PutWhole(cas, file, spans);
  }

  /** Every byte the scan reports beyond the file's data is zero in the base. */
  ghost predicate ScanHarmless(size: nat, data: nat -> bool, seekData: nat -> Seek, seekHole: nat -> Seek, base: Bytes)
    requires size == |base|
  {
    forall k: nat :: k < size && Covered(Scan(size, seekData, seekHole, 0, []), k) && !data(k) ==> base[k] == 0
  }

  /**
   A diff of `next` against the stored `base`: the file's data bytes are next's, and elsewhere base already
   agrees.  The diff is stored under the very name, and leaves the very blobs, that storing `next` whole would,
   exactly when what the scan reports beyond the data is zero in the base, as it is whenever no seek fails.
   */
  method PutDiff(cas: BlobStore, file: Bytes, ghost data: nat -> bool, seekData: nat -> Seek, seekHole: nat -> Seek,
                 baseHash: Hash, ghost base: Bytes, ghost next: Bytes) returns (r: Result<Hash>)
    requires Sound(cas.blobs) && SparseFile(file, data, seekData, seekHole)
    requires baseHash == ImageHash(base) && Holds(cas.blobs, base) && |file| == |base| == |next|
    requires forall k: nat :: k < |file| ==> next[k] == if data(k) then file[k] else base[k]
    modifies cas
    ensures Sound(cas.blobs) && Grows(old(cas.blobs), cas.blobs)
    ensures r.Ok? ==> (r.value == ImageHash(next) <==> ScanHarmless(|file|, data, seekData, seekHole, base))
    ensures r.Ok? && r.value == ImageHash(next) ==> cas.blobs == AddImage(old(cas.blobs), next) && Holds(cas.blobs, next)
    ensures r.Err? ==> r.error.Fault?
    ensures Reliable(seekData) && FindsHoles(seekHole) ==> ScanHarmless(|file|, data, seekData, seekHole, base)
  {
    var spans := DataSpans(|file|, data, seekData, seekHole);
    OverlayExactIff(file, spans, base, next);
    r := PutChunkedOverlay(cas, file, spans, baseHash, base);
    if r.Ok? && r.value == ImageHash(next) {
      ImageHashInjective(Overlay(file, spans, Some(base)), next);
    }
  }

  // ---------- reassembly ----------

  method ZeroHash(cas: BlobStore, n: nat) returns (r: Result<Hash>)
    requires Sound(cas.blobs)
    modifies cas
    ensures Sound(cas.blobs) && Grows(old(cas.blobs), cas.blobs)
    ensures r.Ok? ==> r.value == HashOf(Zeros(n)) && r.value in cas.blobs
    ensures r.Err? ==> r.error.Fault?
  {
    r := cas.Put(Zeros(n));
  }

  /** Tells an absent blob, one that is no manifest and a failed read apart. */
  method ReadManifest(cas: BlobStore, h: Hash) returns (r: Result<Manifest>)
    requires Sound(cas.blobs)
    ensures r.Ok? ==> h in cas.blobs && DecodeManifest(cas.blobs[h]) == Some(r.value)
    ensures r.Err? && r.error.NotFound? ==> h !in cas.blobs
    ensures r.Err? && r.error.Invalid? ==> h in cas.blobs && DecodeManifest(cas.blobs[h]).None?
  {
    var b := cas.Get(h);
    if b.Err? {
      return Err(b.error);
    }
    var m := DecodeManifest(b.value);
    return if m.Some? then Ok(m.value) else Err(Invalid);
  }

  /** Where chunk i has been written, the output holds the image's bytes; elsewhere it is still zero. */
  ghost predicate Written(out: Bytes, img: Bytes, done: set<nat>) {
    && |out| == |img|
    && forall k: nat :: k < |img| ==> out[k] == if k / CHUNK_SIZE in done then img[k] else 0
  }

  function Spliced(out: Bytes, b: Bytes, at: nat): Bytes
    requires at + |b| <= |out|
  {
    out[..at] + b + out[at + |b|..]
  }

  /** Writing chunk i at its place completes it and disturbs no other chunk. */
  lemma ChunkWritten(out: Bytes, img: Bytes, done: set<nat>, i: nat)
    requires Written(out, img, done) && i < ChunkCount(|img|)
    ensures i * CHUNK_SIZE + |Slice(img, i)| <= |out|
    ensures Written(Spliced(out, Slice(img, i), i * CHUNK_SIZE), img, done + {i})
  {
  }

  /** Leaving the hole of an all-zero chunk completes it too. */
  lemma ZeroSkipped(out: Bytes, img: Bytes, done: set<nat>, i: nat, n: nat)
    requires Written(out, img, done) && i < ChunkCount(|img|)
    requires HashOf(Slice(img, i)) == HashOf(Zeros(n))
    ensures Written(out, img, done + {i})
  {
  }

  method WriteAt(out: array<byte>, b: Bytes, at: nat)
    requires at + |b| <= out.Length
    modifies out
    ensures out[..] == Spliced(old(out[..]), b, at)
  {
    forall k | at <= k < at + |b| {
      out[k] := b[k - at];
    }
  }

  lemma WrittenAll(out: Bytes, img: Bytes, done: set<nat>)
    requires Written(out, img, done) && forall i: nat :: i < ChunkCount(|img|) ==> i in done
    ensures out == img
  {
  }

  /** The names of the all-zero chunks of the image's two chunk lengths. */
  method ZeroNames(cas: BlobStore, m: Manifest, ghost img: Bytes) returns (zero: set<Hash>)
    requires Sound(cas.blobs) && m == ManifestOf(img)
    modifies cas
    ensures Sound(cas.blobs) && Grows(old(cas.blobs), cas.blobs)
    ensures forall z :: z in zero ==> z == HashOf(Zeros(|Unhash(z)|)) && z in cas.blobs
  {
    var n := |m.chunks|;
    zero := {};
    if n > 0 {
      ChunkBounds(|img|, 0);
      ChunkBounds(|img|, n - 1);
      var z := ZeroHash(cas, ChunkLen(m.size, 0));
      var zl := ZeroHash(cas, ChunkLen(m.size, n - 1));
      zero := (if z.Ok? then {z.value} else {}) + (if zl.Ok? then {zl.value} else {});
    }
  }

  /** The job that fills in chunk i of the output. */
  method FillChunk(cas: BlobStore, out: array<byte>, c: Hash, zero: set<Hash>, i: nat,
                   ghost img: Bytes, ghost done: set<nat>) returns (r: Result<()>)
    requires Sound(cas.blobs) && i < ChunkCount(|img|) && c == HashOf(Slice(img, i))
    requires forall z :: z in zero ==> z == HashOf(Zeros(|Unhash(z)|)) && z in cas.blobs
    requires Written(out[..], img, done)
    modifies out
    ensures r.Ok? ==> Written(out[..], img, done + {i}) && c in cas.blobs
    ensures r.Err? ==> r.error.Fault? || (r.error.NotFound? && c !in cas.blobs)
  {
    if c in zero {
      ZeroSkipped(out[..], img, done, i, |Unhash(c)|);
      return Ok(());
    }
    var b := cas.Get(c);
    if b.Err? {
      return Err(b.error);
    }
    assert b.value == Slice(img, i) by {
      assert Unhash(HashOf(b.value)) == b.value;
    }
    var failed := Fails();
    if failed {
      return Err(Fault);
    }
    ChunkWritten(out[..], img, done, i);
    WriteAt(out, b.value, i * CHUNK_SIZE);
    return Ok(());
  }

  /** The pool's work: every chunk in the order in which it happens to be finished. */
  method FillChunks(cas: BlobStore, out: array<byte>, chunks: seq<Hash>, zero: set<Hash>, order: seq<nat>, ghost img: Bytes)
      returns (r: Result<()>)
    requires Sound(cas.blobs) && chunks == ManifestOf(img).chunks && Written(out[..], img, {})
    requires forall z :: z in zero ==> z == HashOf(Zeros(|Unhash(z)|)) && z in cas.blobs
    requires forall i: nat :: i in order <==> i < ChunkCount(|img|)
    modifies out
    ensures r.Ok? ==> out[..] == img && ChunksIn(cas.blobs, img)
    ensures r.Err? ==> r.error.Fault? || (r.error.NotFound? && !ChunksIn(cas.blobs, img))
  {
    ghost var done: set<nat> := {};
    for t := 0 to |order|
      modifies out
      invariant forall u :: 0 <= u < t ==> order[u] in done
      invariant Written(out[..], img, done)
      invariant forall i: nat :: i in done ==> i < ChunkCount(|img|) && HashOf(Slice(img, i)) in cas.blobs
    {
      var i := order[t];
      assert i in order;
      r := FillChunk(cas, out, chunks[i], zero, i, img, done);
      if r.Err? {
        return;
      }
      done := done + {i};
    }
    forall i: nat | i < ChunkCount(|img|)
      ensures i in done
    {
      assert i in order;
    }
    WrittenAll(out[..], img, done);
    return Ok(());
  }

  /**
   Reassembles the image named h.  `order` is the order in which the pool happens to finish the chunks:
   whatever it is, success yields the image and means the store holds all of it, and an image the store holds
   fails only when a file operation does.
   */
  method GetChunkedTo(cas: BlobStore, h: Hash, order: seq<nat>, ghost img: Bytes) returns (r: Result<Bytes>)
    requires Sound(cas.blobs) && h == ImageHash(img)
    requires forall i: nat :: i in order <==> i < ChunkCount(|img|)
    modifies cas
    ensures Sound(cas.blobs) && Grows(old(cas.blobs), cas.blobs)
    ensures r.Ok? ==> r.value == img && Holds(cas.blobs, img)
    ensures r.Err? ==> r.error.Fault? || (r.error.NotFound? && !Holds(old(cas.blobs), img))
  {
    ghost var before := cas.blobs;
    var m := ReadManifest(cas, h);
    assert h in cas.blobs ==> DecodeManifest(cas.blobs[h]) == Some(ManifestOf(img)) by {
      assert h in cas.blobs ==> HashOf(cas.blobs[h]) == h;
    }
    if m.Err? {
      return Err(m.error);
    }
    var zero := ZeroNames(cas, m.value, img);
    var failed := Fails();
    if failed {
      return Err(Fault);
    }
    var out := new byte[m.value.size](_ => 0);
    var filled := FillChunks(cas, out, m.value.chunks, zero, order, img);
    if filled.Err? {
      assert filled.error.NotFound? ==> !ChunksIn(before, img);
      return Err(filled.error);
    }
    failed := Fails();
    return if failed then Err(Fault) else Ok(out[..]);
  }

  /**
   Byte for byte, what is put is what comes back: span bytes from the file, the others from the base where its
   chunk lines up, and zero elsewhere, in whatever order the chunks are written out.  Only a missing base chunk
   or a failing file operation can prevent it.
   */
  method PutThenGet(cas: BlobStore, file: Bytes, spans: seq<Span>, base: Option<Manifest>, order: seq<nat>,
                    ghost img: Option<Bytes>) returns (r: Result<Bytes>)
    requires Sound(cas.blobs) && HolesZero(file, spans) && base == Manifested(img)
    requires forall i: nat :: i in order <==> i < ChunkCount(|file|)
    modifies cas
    ensures Sound(cas.blobs) && Grows(old(cas.blobs), cas.blobs)
    ensures r.Ok? ==> |r.value| == |file|
    ensures r.Ok? ==> forall k: nat :: k < |file| ==> r.value[k] == OverlayByte(file, spans, img, k)
    ensures r.Err? ==> r.error.Fault? || (r.error.NotFound? && img.Some? && !ChunksIn(old(cas.blobs), img.value))
  {
    var h := PutChunked(cas, file, spans, base, img);
    if h.Err? {
      return Err(h.error);
    }
    r := GetChunkedTo(cas, h.value, order, Overlay(file, spans, img));
  }
}
