/**
 The in-memory machine backend (internal/engine/fake_machine.go) and the engine's capture over it
 (internal/engine/memory.go): a second implementation of the snapshot contract, which compares against a
 saved copy of the base image instead of tracking dirty pages.
 */
module FakeMachines {
  import opened Content
  import opened Blobs
  import opened Images
  import Chunker

  const PAGES: nat := 16
  const MEM_SIZE: nat := 65536

  // ---------- the memory image ----------

  /** The k low bytes of n, least significant first. */
  function LittleEndian(n: nat, k: nat): (b: Bytes)
    ensures |b| == k
  {
    if k == 0 then [] else [n % 256] + LittleEndian(n / 256, k - 1)
  }

  function FromLittleEndian(b: Bytes): nat {
    if b == [] then 0 else b[0] + 256 * FromLittleEndian(b[1..])
  }

  function Power256(k: nat): nat { if k == 0 then 1 else 256 * Power256(k - 1) }

  lemma {:induction false} LittleEndianInverse(n: nat, k: nat)
    requires n < Power256(k)
    ensures FromLittleEndian(LittleEndian(n, k)) == n
  {
    if k > 0 {
      assert LittleEndian(n, k)[1..] == LittleEndian(n / 256, k - 1);
      LittleEndianInverse(n / 256, k - 1);
    }
  }

  /** An 8-byte length, the memory as far as it fits, then zeros. */
  function MemImage(ram: Bytes): (img: Bytes)
    ensures |img| == MEM_SIZE
  {
    var room := MEM_SIZE - 8;
    LittleEndian(|ram|, 8) + (if |ram| <= room then ram + Zeros(room - |ram|) else ram[..room])
  }

  /** `Err` is the slice out of range the length field can ask for. */
  function MemFromImage(img: Bytes): Result<Bytes>
    requires |img| >= 8
  {
    var n := FromLittleEndian(img[..8]);
    if 8 + n <= |img| then Ok(img[8..8 + n]) else Err(Invalid)
  }

  /** The image gives memory back exactly when it fits. */
  lemma MemRoundTripIff(ram: Bytes)
    ensures MemFromImage(MemImage(ram)) == Ok(ram) <==> |ram| <= MEM_SIZE - 8
  {
    var img := MemImage(ram);
    assert img[..8] == LittleEndian(|ram|, 8);
    if |ram| <= MEM_SIZE - 8 {
      assert Power256(8) > MEM_SIZE by {
        assert Power256(3) == 256 * 256 * 256 && Power256(5) >= 1 && Power256(8) >= Power256(3);
      }
      LittleEndianInverse(|ram|, 8);
      assert img[8..8 + |ram|] == ram;
    }
  }

  // ---------- the machine ----------

  datatype Snap = Snap(file: Bytes, spans: seq<Span>, diff: bool, base: Hash, state: Bytes, disk: Bytes)

  /** "boot;" */
  const BOOT: Bytes := [98, 111, 111, 116, 59]

  /** "fake-vcpu-state" */
  const DEVICE_STATE: Bytes := [102, 97, 107, 101, 45, 118, 99, 112, 117, 45, 115, 116, 97, 116, 101]

  predicate SamePage(a: Bytes, b: Bytes, p: nat)
    requires |a| == |b| == MEM_SIZE && p < PAGES
  {
    a[p * PAGE_SIZE..(p + 1) * PAGE_SIZE] == b[p * PAGE_SIZE..(p + 1) * PAGE_SIZE]
  }

  /** Every page that differs reached the file, and the file has its full size. */
  ghost predicate Landed(img: Bytes, prev: Bytes, landed: set<nat>, size: nat)
    requires |img| == |prev| == MEM_SIZE
  {
    size == MEM_SIZE && LandedTo(img, prev, landed, PAGES)
  }

  ghost predicate LandedTo(img: Bytes, prev: Bytes, landed: set<nat>, n: nat)
    requires |img| == |prev| == MEM_SIZE && n <= PAGES
  {
    forall p: nat :: p < n && !SamePage(img, prev, p) ==> p in landed
  }

  lemma LandedNext(img: Bytes, prev: Bytes, landed: set<nat>, n: nat)
    requires |img| == |prev| == MEM_SIZE && n < PAGES && LandedTo(img, prev, landed, n)
    ensures LandedTo(img, prev, landed + {n}, n + 1)
    ensures SamePage(img, prev, n) ==> LandedTo(img, prev, landed, n + 1)
  {
  }

  /** The sparse file after the first n pages: it holds the pages that landed, and holes elsewhere. */
  ghost predicate Filled(out: Bytes, spans: seq<Span>, img: Bytes, prev: Bytes, landed: set<nat>, n: nat)
    requires |out| == |img| == |prev| == MEM_SIZE && n <= PAGES
  {
    && (forall p :: p in landed ==> p < n && !SamePage(img, prev, p))
    && (forall k :: 0 <= k < MEM_SIZE ==> (Covered(spans, k) <==> k / PAGE_SIZE in landed))
    && (forall k :: 0 <= k < MEM_SIZE ==> out[k] == if k / PAGE_SIZE in landed then img[k] else 0)
  }

  lemma PageOf(k: nat, p: nat)
    ensures k / PAGE_SIZE == p <==> p * PAGE_SIZE <= k < (p + 1) * PAGE_SIZE
  {
  }

  lemma FilledNext(out: Bytes, spans: seq<Span>, img: Bytes, prev: Bytes, landed: set<nat>, n: nat)
    requires |out| == |img| == |prev| == MEM_SIZE && n < PAGES && Filled(out, spans, img, prev, landed, n)
    ensures Filled(out, spans, img, prev, landed, n + 1)
  {
  }

  /** One page reaches the file. */
  method WritePage(out: array<byte>, img: Bytes, ghost spans: seq<Span>, ghost prev: Bytes, ghost landed: set<nat>, p: nat)
    requires out.Length == |img| == |prev| == MEM_SIZE && p < PAGES && Filled(out[..], spans, img, prev, landed, p)
    requires !SamePage(img, prev, p)
    modifies out
    ensures Filled(out[..], spans + [Span(p * PAGE_SIZE, (p + 1) * PAGE_SIZE)], img, prev, landed + {p}, p + 1)
  {
    var a, e := p * PAGE_SIZE, (p + 1) * PAGE_SIZE;
    forall k | a <= k < e {
      out[k] := img[k];
    }
    Chunker.CoveredMore(spans, Span(a, e));
    forall k: nat | k < MEM_SIZE ensures k / PAGE_SIZE == p <==> a <= k < e { PageOf(k, p); }
  }

  /**
   Writes the pages of img that differ from prev into a sparse file.  The errors of setting its size, of each
   page's write and of closing it are all dropped, so any of the pages may be missing from it (`landed` are those
   that are not) and the file may end with the last of them.  Laid over prev it gives img exactly when every
   differing page landed and the size is right.
   */
  method DiffPages(img: Bytes, prev: Bytes) returns (file: Bytes, spans: seq<Span>, ghost landed: set<nat>)
    requires |img| == |prev| == MEM_SIZE
    ensures |file| <= MEM_SIZE && HolesZero(file, spans)
    ensures Overlay(file, spans, Some(prev)) == img <==> Landed(img, prev, landed, |file|)
    ensures Landed(img, prev, landed, |file|) || FAULTY
  {
    var out := new byte[MEM_SIZE](_ => 0);
    var unsized := Fails();
    var size: nat := if unsized then 0 else MEM_SIZE;
    spans, landed := [], {};
    for p := 0 to PAGES
      invariant size <= MEM_SIZE && Filled(out[..], spans, img, prev, landed, p)
      invariant forall q :: q in landed ==> (q + 1) * PAGE_SIZE <= size
      invariant !FAULTY ==> size == MEM_SIZE && LandedTo(img, prev, landed, p)
    {
      var dropped := Fails();
      if !FAULTY {
        LandedNext(img, prev, landed, p);
      }
      var a, e := p * PAGE_SIZE, (p + 1) * PAGE_SIZE;
      if img[a..e] != prev[a..e] && !dropped {
        assert !SamePage(img, prev, p);
        WritePage(out, img, spans, prev, landed, p);
        spans := spans + [Span(a, e)];
        landed := landed + {p};
        size := if size < e then e else size;
      } else {
        FilledNext(out[..], spans, img, prev, landed, p);
      }
    }
    file := out[..size];
    DiffStands(out[..], file, spans, img, prev, landed);
  }

  /** A differing page that is missing shows. */
  lemma DiffStands(out: Bytes, file: Bytes, spans: seq<Span>, img: Bytes, prev: Bytes, landed: set<nat>)
    requires |out| == |img| == |prev| == MEM_SIZE && |file| <= MEM_SIZE && file == out[..|file|]
    requires Filled(out, spans, img, prev, landed, PAGES)
    ensures HolesZero(file, spans)
    ensures Overlay(file, spans, Some(prev)) == img <==> Landed(img, prev, landed, |file|)
  {
    if |file| == MEM_SIZE {
      OverlayExactIff(file, spans, prev, img);
      forall p: nat | p < PAGES
        ensures SamePage(img, prev, p) <==> forall k: nat :: p * PAGE_SIZE <= k < (p + 1) * PAGE_SIZE ==> img[k] == prev[k]
      {
        SamePageIff(img, prev, p);
      }
      if Landed(img, prev, landed, |file|) {
        forall k: nat | k < MEM_SIZE && !Covered(spans, k)
          ensures img[k] == prev[k]
        {
          PageOf(k, k / PAGE_SIZE);
        }
      } else {
        var p: nat :| p < PAGES && !SamePage(img, prev, p) && p !in landed;
        var k: nat :| p * PAGE_SIZE <= k < (p + 1) * PAGE_SIZE && img[k] != prev[k];
        PageOf(k, p);
      }
    }
  }

  lemma SamePageIff(a: Bytes, b: Bytes, p: nat)
    requires |a| == |b| == MEM_SIZE && p < PAGES
    ensures SamePage(a, b, p) <==> forall k: nat :: p * PAGE_SIZE <= k < (p + 1) * PAGE_SIZE ==> a[k] == b[k]
  {
    var s, e := p * PAGE_SIZE, (p + 1) * PAGE_SIZE;
    if SamePage(a, b, p) {
      forall k: nat | s <= k < e
        ensures a[k] == b[k]
      {
        assert a[s..e][k - s] == b[s..e][k - s];
      }
    }
  }

  class FakeMachine {
    var ram: map<Id, Bytes>
    var base: map<Id, Hash>
    var baseImg: map<Id, Bytes>
    var lastSnap: map<Id, Bytes>
    var disks: map<Id, Bytes>

    constructor ()
      ensures ram == map[] && base == map[] && baseImg == map[] && lastSnap == map[] && Valid(map[])
    {
      ram, base, baseImg, lastSnap, disks := map[], map[], map[], map[], map[];
    }

    /** A recorded base names the image saved with it, and the store holds that image. */
    ghost predicate Valid(store: Store)
      reads this
    {
      && (forall id :: id in lastSnap ==> |lastSnap[id]| == MEM_SIZE)
      && (forall id :: id in base && base[id] != [] && id in baseImg ==>
            |baseImg[id]| == MEM_SIZE && base[id] == ImageHash(baseImg[id]) && Holds(store, baseImg[id]))
    }

    /** A machine that is not up reads as one without memory. */
    function Ram(id: Id): (b: Bytes)
      reads this
      ensures id in ram ==> ram[id] == b
      ensures id !in ram ==> b == []
    {
      if id in ram then ram[id] else []
    }

    /** A machine that is not up starts with an empty guest directory, fresh memory and no base. */
    method Boot(id: Id, ghost store: Store) returns (r: Result<()>)
      requires Valid(store)
      modifies this`ram, this`base, this`disks
      ensures Valid(store)
      ensures id in old(ram) ==> r.Ok? && ram == old(ram) && base == old(base) && disks == old(disks)
      ensures r.Ok? && id !in old(ram) ==> ram == old(ram)[id := BOOT] && base == old(base) - {id} && disks == old(disks) - {id}
      ensures r.Err? ==> r.error.Fault? && ram == old(ram) && base == old(base)
    {
      if id in ram {
        return Ok(());
      }
      disks := disks - {id};
      var failed := Fails();
      if failed {
        return Err(Fault);
      }
      ram, base := ram[id := BOOT], base - {id};
      return Ok(());
    }

    /**
     The snapshot is of the whole image, or, when the engine's base is the recorded one, of the pages that
     differ from the saved copy.  It stands for current memory if it is whole, or exactly when every differing
     page landed.  It may fail after remembering the image, and nothing else has changed then.
     */
    method Snapshot(id: Id, wanted: Hash, ghost store: Store) returns (r: Result<Snap>, ghost landed: set<nat>)
      requires Valid(store)
      modifies this`lastSnap
      ensures Valid(store)
      ensures lastSnap == old(lastSnap)[id := MemImage(Ram(id))]
      ensures r.Ok? ==> HolesZero(r.value.file, r.value.spans)
      ensures r.Ok? ==> r.value.state == DEVICE_STATE && r.value.disk == (if id in disks then disks[id] else [])
      ensures r.Ok? && !r.value.diff ==> r.value.file == MemImage(Ram(id))
      ensures r.Ok? && r.value.diff ==>
                && id in baseImg && wanted == r.value.base == ImageHash(baseImg[id]) && Holds(store, baseImg[id])
                && |baseImg[id]| == MEM_SIZE
                && (Overlay(r.value.file, r.value.spans, Some(baseImg[id])) == MemImage(Ram(id))
                    <==> Landed(MemImage(Ram(id)), baseImg[id], landed, |r.value.file|))
                && (Landed(MemImage(Ram(id)), baseImg[id], landed, |r.value.file|) || FAULTY)
      ensures r.Err? ==> r.error.Fault?
    {
      var img := MemImage(Ram(id));
      lastSnap := lastSnap[id := img];
      landed := {};
      var diff := wanted != [] && id in base && base[id] == wanted && id in baseImg;
      var failed := Fails();
      if failed {
        return Err(Fault), landed;
      }
      var disk := if id in disks then disks[id] else [];
      if diff {
        var file, spans;
        file, spans, landed := DiffPages(img, baseImg[id]);
        return Ok(Snap(file, spans, true, wanted, DEVICE_STATE, disk)), landed;
      }
      var spans := [Span(0, MEM_SIZE)];
      assert forall k :: 0 <= k < MEM_SIZE ==> spans[0].start <= k < spans[0].end && Covered(spans, k);
      return Ok(Snap(img, spans, false, [], DEVICE_STATE, disk)), landed;
    }

    /** Stays valid if the name given is the one under which the last snapshot's image is stored. */
    method Rebase(id: Id, name: Hash, ghost store: Store)
      requires Valid(store) && id in lastSnap
      modifies this`base, this`baseImg
      ensures base == old(base)[id := name] && baseImg == old(baseImg)[id := lastSnap[id]]
      ensures name == ImageHash(lastSnap[id]) && Holds(store, lastSnap[id]) ==> Valid(store)
      ensures name != [] && name != ImageHash(lastSnap[id]) ==> !Valid(store)
    {
      base, baseImg := base[id := name], baseImg[id := lastSnap[id]];
      assert id in base && base[id] == name && baseImg[id] == lastSnap[id];
    }

    /** Replaces the machine by the stored image `mem`, whose name the engine passes along, and its disk. */
    method Resume(id: Id, mem: Bytes, disk: Bytes, name: Hash, ghost store: Store) returns (r: Result<()>)
      requires Valid(store) && |mem| == MEM_SIZE && name == ImageHash(mem) && Holds(store, mem)
      modifies this`ram, this`base, this`baseImg, this`disks
      ensures Valid(store)
      ensures r.Ok? ==> MemFromImage(mem).Ok? && ram == old(ram)[id := MemFromImage(mem).value]
      ensures r.Ok? ==> disks == old(disks)[id := disk] && base == old(base)[id := name] && baseImg == old(baseImg)[id := mem]
      ensures r.Err? ==> ram == old(ram) && base == old(base) && baseImg == old(baseImg)
      ensures r.Err? ==> r.error.Fault? || MemFromImage(mem).Err?
    {
      var failed := Fails();
      if failed {
        return Err(Fault);
      }
      disks := disks[id := disk];
      var loaded := MemFromImage(mem);
      if loaded.Err? {
        return Err(Invalid);
      }
      ram := ram[id := loaded.value];
      base, baseImg := base[id := name], baseImg[id := mem];
      return Ok(());
    }

    /** A command changes the guest directory, here as it would be packed into a disk. */
    method Exec(id: Id, disk: Bytes, ghost store: Store) returns (ok: bool)
      requires Valid(store)
      modifies this`disks
      ensures Valid(store) && ok == (id in ram)
      ensures disks == if ok then old(disks)[id := disk] else old(disks)
    {
      if id !in ram {
        return false;
      }
      disks := disks[id := disk];
      return true;
    }

    method Shutdown(id: Id, ghost store: Store)
      requires Valid(store)
      modifies this`ram
      ensures Valid(store) && ram == old(ram) - {id}
    {
      ram := ram - {id};
    }

    /** The guest appends to its memory at any time. */
    method Touch(id: Id, b: Bytes, ghost store: Store)
      requires Valid(store)
      modifies this`ram
      ensures Valid(store) && ram == old(ram)[id := old(Ram(id)) + b]
    {
      ram := ram[id := Ram(id) + b];
    }
  }

  /** Stores a snapshot's memory, over the saved base image when it is a diff. */
  method PutMemory(cas: BlobStore, snap: Snap, ghost base: Bytes) returns (r: Result<Hash>)
    requires Sound(cas.blobs) && HolesZero(snap.file, snap.spans)
    requires snap.diff ==> snap.base == ImageHash(base) && Holds(cas.blobs, base)
    modifies cas
    ensures Sound(cas.blobs) && Grows(old(cas.blobs), cas.blobs)
    ensures r.Ok? ==> r.value == ImageHash(Stood(snap, base)) && Holds(cas.blobs, Stood(snap, base))
    ensures r.Err? ==> r.error.Fault?
  {
    if snap.diff {
      r := Chunker.PutChunkedOverlay(cas, snap.file, snap.spans, snap.base, base);
    } else {
      r := Chunker.PutWhole(cas, snap.file, snap.spans);
    }
  }

  /** Stores the device state and the disk. */
  method PutRest(cas: BlobStore, snap: Snap) returns (r: Result<(Hash, Hash)>)
    requires Sound(cas.blobs)
    modifies cas
    ensures Sound(cas.blobs) && Grows(old(cas.blobs), cas.blobs)
    ensures r.Ok? ==> r.value.0 == HashOf(snap.state) && r.value.0 in cas.blobs
    ensures r.Ok? ==> r.value.1 == ImageHash(snap.disk) && Holds(cas.blobs, snap.disk)
    ensures r.Err? ==> r.error.Fault?
  {
    var state := cas.PutFile(snap.state, snap.state);
    if state.Err? {
      return Err(state.error);
    }
    var whole := [Span(0, |snap.disk|)];
    assert forall k :: 0 <= k < |snap.disk| ==> whole[0].start <= k < whole[0].end && Covered(whole, k);
    var disk := Chunker.PutWhole(cas, snap.disk, whole);
    return if disk.Err? then Err(disk.error) else Ok((state.value, disk.value));
  }

  /** The image a snapshot stands for once it is stored. */
  ghost function Stood(snap: Snap, base: Bytes): Bytes {
    if snap.diff then Overlay(snap.file, snap.spans, Some(base)) else snap.file
  }

  /** Stores all of a snapshot. */
  method PutSnap(cas: BlobStore, snap: Snap, ghost base: Bytes) returns (r: Result<(Hash, Hash, Hash)>)
    requires Sound(cas.blobs) && HolesZero(snap.file, snap.spans)
    requires snap.diff ==> snap.base == ImageHash(base) && Holds(cas.blobs, base)
    modifies cas
    ensures Sound(cas.blobs) && Grows(old(cas.blobs), cas.blobs)
    ensures r.Ok? ==> r.value.0 == ImageHash(Stood(snap, base)) && Holds(cas.blobs, Stood(snap, base))
    ensures r.Ok? ==> r.value.1 == HashOf(snap.state) && r.value.1 in cas.blobs && r.value.2 == ImageHash(snap.disk)
    ensures r.Err? ==> r.error.Fault?
  {
    var mem := PutMemory(cas, snap, base);
    if mem.Err? {
      return Err(mem.error);
    }
    var rest := PutRest(cas, snap);
    return if rest.Err? then Err(rest.error) else Ok((mem.value, rest.value.0, rest.value.1));
  }

  /**
   The engine's capture.  Wherever it fails, the machine stays valid, so any number of failed captures leaves the
   next one exact.  When it succeeds, the name returned is that of the memory image at the snapshot, and the
   machine stays valid, exactly if no differing page was `dropped` on its way into a diff.
   */
  method CaptureMachine(mb: FakeMachine, cas: BlobStore, id: Id, head: Hash) returns (r: Result<(Hash, Hash, Hash)>, ghost dropped: bool)
    requires Sound(cas.blobs) && mb.Valid(cas.blobs)
    modifies cas, mb`lastSnap, mb`base, mb`baseImg
    ensures Sound(cas.blobs) && Grows(old(cas.blobs), cas.blobs)
    ensures r.Ok? ==> (r.value.0 == ImageHash(MemImage(mb.Ram(id))) <==> !dropped)
    ensures (dropped ==> FAULTY) && (r.Err? ==> r.error.Fault?)
    ensures r.Ok? && !dropped ==> Holds(cas.blobs, MemImage(mb.Ram(id)))
    ensures mb.Valid(cas.blobs) <==> r.Err? || !dropped
    ensures r.Ok? ==> r.value.1 == HashOf(DEVICE_STATE) && r.value.1 in cas.blobs
    ensures r.Ok? ==> r.value.2 == ImageHash(if id in mb.disks then mb.disks[id] else [])
    ensures r.Ok? ==> id in mb.base && mb.base[id] == r.value.0
    ensures r.Err? ==> mb.base == old(mb.base) && mb.baseImg == old(mb.baseImg)
  {
    var snap;
    ghost var landed;
    snap, landed := mb.Snapshot(id, head, cas.blobs);
    dropped := false;
    if snap.Err? {
      return Err(snap.error), false;
    }
    ghost var img := MemImage(mb.Ram(id));
    ghost var base := if snap.value.diff then mb.baseImg[id] else [];
    dropped := snap.value.diff && !Landed(img, base, landed, |snap.value.file|);
    r := PutSnap(cas, snap.value, base);
    if r.Err? {
      return;
    }
    assert r.value.0 == ImageHash(img) <==> !dropped by {
      if r.value.0 == ImageHash(img) {
        ImageHashInjective(Stood(snap.value, base), img);
      }
    }
    mb.Rebase(id, r.value.0, cas.blobs);
  }

  /** One page of memory changed, and its write was dropped: the image stored is the one before. */
  lemma DroppedPage()
    ensures var before, now := MemImage([]), MemImage([7]);
            && Filled(Zeros(MEM_SIZE), [], now, before, {}, PAGES)
            && Overlay(Zeros(MEM_SIZE), [], Some(before)) == before != now
  {
    var before, now := MemImage([]), MemImage([7]);
    assert forall k :: !Covered([], k);
    OverlayExactIff(Zeros(MEM_SIZE), [], before, before);
    assert before[0] == LittleEndian(0, 8)[0] == 0 && now[0] == LittleEndian(1, 8)[0] == 1;
  }

  /**
   After a drop the stored image `wrong` goes by the name recorded for the copy saved beside it.  The next diff
   is taken against the copy and laid over the stored image: even if all of it lands, it gives memory exactly
   when every page on which the two differ has changed again.
   */
  lemma DiffAfterDrop(wrong: Bytes, saved: Bytes, img: Bytes, file: Bytes, spans: seq<Span>, landed: set<nat>)
    requires |wrong| == |saved| == |img| == |file| == MEM_SIZE
    requires Filled(file, spans, img, saved, landed, PAGES) && Landed(img, saved, landed, MEM_SIZE)
    ensures Overlay(file, spans, Some(wrong)) == img <==>
              forall p: nat :: p < PAGES && !SamePage(wrong, saved, p) ==> !SamePage(img, saved, p)
  {
    OverlayExactIff(file, spans, wrong, img);
    forall p: nat | p < PAGES
      ensures SamePage(img, saved, p) <==> p !in landed
    {
    }
    if forall p: nat :: p < PAGES && !SamePage(wrong, saved, p) ==> !SamePage(img, saved, p) {
      forall k: nat | k < MEM_SIZE && !Covered(spans, k)
        ensures img[k] == wrong[k]
      {
        var p := k / PAGE_SIZE;
        PageOf(k, p);
        SamePageIff(img, saved, p);
        SamePageIff(wrong, saved, p);
      }
    } else {
      var p: nat :| p < PAGES && !SamePage(wrong, saved, p) && SamePage(img, saved, p);
      SamePageIff(img, saved, p);
      SamePageIff(wrong, saved, p);
      var k: nat :| p * PAGE_SIZE <= k < (p + 1) * PAGE_SIZE && wrong[k] != saved[k];
      PageOf(k, p);
      assert !Covered(spans, k);
    }
  }
}
