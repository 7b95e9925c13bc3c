/**
 Chunked images (internal/cas/chunked.go): what a manifest denotes, what laying a sparse file over a
 base image means byte by byte, and that the per-chunk shortcuts of the chunker compute exactly that.
 */
module Images {
  import opened Content
  import opened Blobs

  const CHUNK_SIZE: nat := 0x10_0000

  /** A page of memory, and a block of a sparse file. */
  const PAGE_SIZE: nat := 4096

  function ChunkCount(size: nat): nat { (size + CHUNK_SIZE - 1) / CHUNK_SIZE }

  function ChunkLen(size: int, i: nat): int {
    var rem := size - i * CHUNK_SIZE;
    if rem < CHUNK_SIZE then rem else CHUNK_SIZE
  }

  lemma ChunkBounds(size: nat, i: nat)
    requires i < ChunkCount(size)
    ensures 0 < ChunkLen(size, i) <= CHUNK_SIZE
    ensures i * CHUNK_SIZE + ChunkLen(size, i) <= size
  {
  }

  /** Each byte lies in exactly one chunk. */
  lemma ChunkOf(size: nat, k: nat)
    requires k < size
    ensures k / CHUNK_SIZE < ChunkCount(size)
    ensures k / CHUNK_SIZE * CHUNK_SIZE <= k < k / CHUNK_SIZE * CHUNK_SIZE + ChunkLen(size, k / CHUNK_SIZE)
    ensures forall i: nat :: i * CHUNK_SIZE <= k < (i + 1) * CHUNK_SIZE ==> i == k / CHUNK_SIZE
  {
  }

  function Slice(img: Bytes, i: nat): (b: Bytes)
    requires i < ChunkCount(|img|)
    ensures |b| == ChunkLen(|img|, i)
  {
    ChunkBounds(|img|, i);
    img[i * CHUNK_SIZE..i * CHUNK_SIZE + ChunkLen(|img|, i)]
  }

  function ManifestOf(img: Bytes): Manifest {
    Manifest(|img|, seq(ChunkCount(|img|), i requires 0 <= i < ChunkCount(|img|) => HashOf(Slice(img, i))))
  }

  /** The name under which an image is stored. */
  function ImageHash(img: Bytes): Hash { HashOf(EncodeManifest(ManifestOf(img))) }

  ghost predicate ChunksIn(s: Store, img: Bytes) {
    forall i: nat :: i < ChunkCount(|img|) ==> HashOf(Slice(img, i)) in s
  }

  /** The store can reassemble the image. */
  ghost predicate Holds(s: Store, img: Bytes) {
    ImageHash(img) in s && ChunksIn(s, img)
  }

  ghost function ChunkNames(img: Bytes): set<Hash> {
    set i: nat | i < ChunkCount(|img|) :: HashOf(Slice(img, i))
  }

  /** The store after an image has been put into it. */
  ghost function AddImage(s: Store, img: Bytes): Store {
    Add(s + (map h | h in ChunkNames(img) :: Unhash(h)), EncodeManifest(ManifestOf(img)))
  }

  lemma AddImageHolds(s: Store, img: Bytes)
    requires Sound(s)
    ensures Sound(AddImage(s, img)) && Grows(s, AddImage(s, img)) && Holds(AddImage(s, img), img)
  {
  }

  /** An image's name determines every byte of it. */
  lemma ImageHashInjective(a: Bytes, b: Bytes)
    requires ImageHash(a) == ImageHash(b)
    ensures a == b
  {
    assert ManifestOf(a) == ManifestOf(b) by {
      assert EncodeManifest(ManifestOf(a)) == EncodeManifest(ManifestOf(b));
    }
    forall k | 0 <= k < |a|
      ensures a[k] == b[k]
    {
      ChunkOf(|a|, k);
      var i := k / CHUNK_SIZE;
      assert ManifestOf(a).chunks[i] == ManifestOf(b).chunks[i];
      assert Slice(a, i) == Slice(b, i);
      assert a[k] == Slice(a, i)[k - i * CHUNK_SIZE];
    }
  }

  // ---------- overlays ----------

  datatype Span = Span(start: int, end: int)

  predicate Covered(spans: seq<Span>, k: int) {
    exists j :: 0 <= j < |spans| && spans[j].start <= k < spans[j].end
  }

  predicate Touches(spans: seq<Span>, a: int, b: int) {
    exists j :: 0 <= j < |spans| && spans[j].start < b && spans[j].end > a
  }

  /** Chunk i of base can stand in for chunk i of a file of the given size. */
  predicate Usable(size: nat, base: Option<Bytes>, i: nat) {
    base.Some? && i < ChunkCount(|base.value|) && ChunkLen(|base.value|, i) == ChunkLen(size, i)
  }

  /** Bytes outside every span read as zero, as the holes of a sparse file do. */
  ghost predicate HolesZero(file: Bytes, spans: seq<Span>) {
    forall k :: 0 <= k < |file| && !Covered(spans, k) ==> file[k] == 0
  }

  function OverlayByte(file: Bytes, spans: seq<Span>, base: Option<Bytes>, k: nat): byte
    requires k < |file|
  {
    if Covered(spans, k) then file[k]
    else if Usable(|file|, base, k / CHUNK_SIZE) && k < |base.value| then base.value[k]
    else 0
  }

  /** The image a put stores: span bytes from the file, the rest from base where it lines up, else zero. */
  function Overlay(file: Bytes, spans: seq<Span>, base: Option<Bytes>): (img: Bytes)
    ensures |img| == |file|
  {
    seq(|file|, k requires 0 <= k < |file| => OverlayByte(file, spans, base, k))
  }

  function Patch(file: Bytes, spans: seq<Span>, off: nat, chunk: Bytes): (b: Bytes)
    requires off + |chunk| <= |file|
    ensures |b| == |chunk|
  {
    seq(|chunk|, j requires 0 <= j < |chunk| => if Covered(spans, off + j) then file[off + j] else chunk[j])
  }

  /** What the chunker stores for chunk i, following its four branches. */
  function JobBytes(file: Bytes, spans: seq<Span>, base: Option<Bytes>, i: nat): (b: Bytes)
    requires i < ChunkCount(|file|)
    ensures |b| == ChunkLen(|file|, i)
  {
    ChunkBounds(|file|, i);
    var off, ln := i * CHUNK_SIZE, ChunkLen(|file|, i);
    var touched := Touches(spans, off, off + ln);
    if Usable(|file|, base, i) then
      if !touched then Slice(base.value, i) else Patch(file, spans, off, Slice(base.value, i))
    else if !touched then Zeros(ln)
    else Slice(file, i)
  }

  lemma SliceByte(img: Bytes, i: nat, j: nat)
    requires i < ChunkCount(|img|) && j < ChunkLen(|img|, i)
    ensures i * CHUNK_SIZE + j < |img| && (i * CHUNK_SIZE + j) / CHUNK_SIZE == i
    ensures Slice(img, i)[j] == img[i * CHUNK_SIZE + j]
  {
  }

  /** Every branch of the chunker stores the matching slice of the overlay. */
  lemma JobIsSlice(file: Bytes, spans: seq<Span>, base: Option<Bytes>, i: nat)
    requires i < ChunkCount(|file|) && HolesZero(file, spans)
    ensures JobBytes(file, spans, base, i) == Slice(Overlay(file, spans, base), i)
  {
    var job, img := JobBytes(file, spans, base, i), Overlay(file, spans, base);
    forall j: nat | j < |job|
      ensures job[j] == Slice(img, i)[j]
    {
      SliceByte(img, i, j);
      JobByte(file, spans, base, i, j);
    }
  }

  lemma JobByte(file: Bytes, spans: seq<Span>, base: Option<Bytes>, i: nat, j: nat)
    requires i < ChunkCount(|file|) && HolesZero(file, spans) && j < ChunkLen(|file|, i)
    requires i * CHUNK_SIZE + j < |file|
    ensures JobBytes(file, spans, base, i)[j] == OverlayByte(file, spans, base, i * CHUNK_SIZE + j)
  {
    var k, off, ln := i * CHUNK_SIZE + j, i * CHUNK_SIZE, ChunkLen(|file|, i);
    SliceByte(file, i, j);
    if Covered(spans, k) {
      TouchedIfCovered(spans, off, ln, k);
    }
    if Usable(|file|, base, i) {
      SliceByte(base.value, i, j);
      assert OverlayByte(file, spans, base, k) == if Covered(spans, k) then file[k] else base.value[k];
    } else {
      assert OverlayByte(file, spans, base, k) == if Covered(spans, k) then file[k] else 0;
    }
  }

  lemma TouchedIfCovered(spans: seq<Span>, off: int, ln: int, k: int)
    requires off <= k < off + ln && Covered(spans, k)
    ensures Touches(spans, off, off + ln)
  {
  }

  /** Storing a file whole keeps its bytes, whatever its hole layout was reported to be. */
  lemma WholeIsFile(file: Bytes, spans: seq<Span>)
    requires HolesZero(file, spans)
    ensures Overlay(file, spans, None) == file
  {
  }

  /** Laying a diff over a base of the same size gives `next` exactly when each side is right where it rules. */
  lemma OverlayExactIff(file: Bytes, spans: seq<Span>, base: Bytes, next: Bytes)
    requires |file| == |base| == |next|
    ensures Overlay(file, spans, Some(base)) == next
       <==> forall k :: 0 <= k < |next| ==> next[k] == if Covered(spans, k) then file[k] else base[k]
  {
  }

  /**
   A hole scan that cannot tell reports more than the data: `seen` covers `spans` and perhaps holes besides.
   For an overlay that is right exactly when the base is already zero in every hole it reports.
   */
  lemma FallbackExactIff(file: Bytes, spans: seq<Span>, seen: seq<Span>, base: Bytes)
    requires |file| == |base| && HolesZero(file, spans)
    requires forall k :: 0 <= k < |file| && Covered(spans, k) ==> Covered(seen, k)
    ensures Overlay(file, seen, Some(base)) == Overlay(file, spans, Some(base))
       <==> forall k :: 0 <= k < |file| && Covered(seen, k) && !Covered(spans, k) ==> base[k] == 0
  {
    var exact := Overlay(file, spans, Some(base));
    forall k | 0 <= k < |file|
      ensures exact[k] == if Covered(spans, k) then file[k] else base[k]
    {
      ChunkOf(|file|, k);
    }
    OverlayExactIff(file, seen, base, exact);
  }

  /** A diff of one dirty page over a page that had data loses the other page under the fallback. */
  lemma FallbackLosesBase()
    ensures var file: Bytes, base: Bytes := [0, 7], [5, 5];
            var spans := [Span(1, 2)];
            && HolesZero(file, spans)
            && Overlay(file, spans, Some(base)) == [5, 7]
            && Overlay(file, [Span(0, 2)], Some(base)) != [5, 7]
  {
    var file: Bytes, base: Bytes, spans := [0, 7], [5, 5], [Span(1, 2)];
    assert spans[0].start <= 1 < spans[0].end;
    var seen := [Span(0, 2)];
    assert forall k :: 0 <= k < 2 ==> seen[0].start <= k < seen[0].end && Covered(seen, k);
    OverlayExactIff(file, spans, base, [5, 7]);
    FallbackExactIff(file, spans, seen, base);
    assert !Covered(spans, 0) && base[0] != 0;
  }
}
