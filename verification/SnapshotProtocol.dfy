/**
 The diff-snapshot protocol between the engine and the machines (internal/engine/memory.go,
 internal/fcvm/firecracker.go), as a state machine over any number of sandboxes.

 Events are the steps at which a run can be interrupted: the guest works whenever its machine is not
 paused, a capture goes through pause, snapshot, disk copy, unpause, store, rebase and save, and it may
 fail after any of them.  Dirty-page tracking is reset by the snapshot itself, long before the engine has
 stored the image and recorded its name.  A pause that could not `read` the record or the head goes on as if
 there were none; recording a name may fail and tear the record, which then matches no image.
 */
module SnapshotProtocol {
  import opened Content
  import opened Blobs
  import opened Images

  /** A machine's memory, device state, writable disk and read-only base disk at one instant. */
  datatype Instant = Instant(mem: Bytes, state: Bytes, disk: Bytes, lower: Option<Bytes>)

  /**
   `baseline` is the memory at the last reset of dirty-page tracking and `dirty` the pages written since.
   `token` is the image whose name is recorded in the machine's directory, if any.
   */
  datatype Machine = Machine(now: Instant, baseline: Bytes, dirty: set<nat>, token: Option<Bytes>, paused: bool)

  /**
   How far a capture has got: `base` is the image the engine believes memory derives from, `at` the machine
   when it was snapshotted, `sound` whether the snapshot taken can stand for it, `stored` what the store now
   holds for it.  `EveryRun` ties `at` and `sound` to the moment of the snapshot.
   */
  datatype Stage =
    | Quiet
    | Pausing(diff: bool, base: Option<Bytes>)
    | Created(diff: bool, base: Option<Bytes>, file: Bytes, spans: seq<Span>, at: Instant, sound: bool)
    | Copied(diff: bool, base: Option<Bytes>, file: Bytes, spans: seq<Span>, at: Instant, sound: bool, disk: Bytes)
    | Kept(at: Instant, stored: Instant, sound: bool)
    | Named(at: Instant, stored: Instant, sound: bool)
    | Saved(id: Id)
  {
    /** Tracking has been reset, but the recorded name is still the old one. */
    predicate InWindow() { Created? || Copied? || Kept? }

    /** A snapshot has been taken and is not yet a checkpoint. */
    predicate Held() { InWindow() || Named? }
  }

  /**
   A checkpoint with a machine image: what it stands for and what the store reassembles for it.  `forked` marks
   the root of a fork.
   */
  datatype Ckpt = Ckpt(at: Instant, stored: Instant, sound: bool, forked: bool)

  datatype Box = Box(machine: Option<Machine>, stage: Stage, head: Id)
  datatype World = World(boxes: map<Id, Box>, ckpts: map<Id, Ckpt>, store: Store)

  datatype Event =
    | PutBlob(b: Bytes)
    | Boot(s: Id, now: Instant)
    | Guest(s: Id, now: Instant, dirty: set<nat>)
    | Pause(s: Id, read: bool)
    | Create(s: Id, spans: seq<Span>)
    | CopyDisk(s: Id)
    | Unpause(s: Id)
    | Keep(s: Id)
    | Rebase(s: Id)
    | TearRecord(s: Id)
    | SaveCheckpoint(s: Id, id: Id)
    | SaveSandbox(s: Id)
    | Fail(s: Id, unpaused: bool)
    | Resume(s: Id, id: Id, named: bool)
    | SetHead(s: Id, id: Id)
    | ForkRoot(s: Id, from: Id, id: Id)
    | Shutdown(s: Id)

  // ---------- snapshots ----------

  /** Memory can differ from `base` only on the given pages. */
  ghost predicate AgreeOff(base: Bytes, mem: Bytes, dirty: set<nat>) {
    |base| == |mem| && forall k :: 0 <= k < |mem| && k / PAGE_SIZE !in dirty ==> base[k] == mem[k]
  }

  /** The sparse file of a diff: dirty pages hold memory, the rest is a hole. */
  function DiffFile(mem: Bytes, dirty: set<nat>): (file: Bytes)
    ensures |file| == |mem|
  {
    seq(|mem|, k requires 0 <= k < |mem| => if k / PAGE_SIZE in dirty then mem[k] else 0)
  }

  ghost predicate SpansAre(spans: seq<Span>, size: nat, dirty: set<nat>) {
    forall k :: 0 <= k < size ==> (Covered(spans, k) <==> k / PAGE_SIZE in dirty)
  }

  /** The hole scan never misses a dirty page, but may report more when a seek fails. */
  ghost predicate SpansCover(spans: seq<Span>, size: nat, dirty: set<nat>) {
    forall k :: 0 <= k < size && k / PAGE_SIZE in dirty ==> Covered(spans, k)
  }

  /** Off the dirty pages memory is as in the base, or zero where the scan reported a hole as data. */
  ghost predicate DiffStands(base: Bytes, mem: Bytes, dirty: set<nat>, spans: seq<Span>) {
    && |base| == |mem|
    && forall k :: 0 <= k < |mem| && k / PAGE_SIZE !in dirty ==> mem[k] == if Covered(spans, k) then 0 else base[k]
  }

  /**
   A diff laid over an image of the same size gives memory exactly when it can stand for it; when the scan
   reports just the dirty pages, that is when the image agrees with memory off them.
   */
  lemma DiffExactIff(mem: Bytes, dirty: set<nat>, spans: seq<Span>, base: Bytes)
    requires SpansCover(spans, |mem|, dirty) && |base| == |mem|
    ensures Overlay(DiffFile(mem, dirty), spans, Some(base)) == mem <==> DiffStands(base, mem, dirty, spans)
    ensures SpansAre(spans, |mem|, dirty) ==> (DiffStands(base, mem, dirty, spans) <==> AgreeOff(base, mem, dirty))
  {
    OverlayExactIff(DiffFile(mem, dirty), spans, base, mem);
  }

  ghost predicate HoldsInstant(store: Store, i: Instant) {
    && Holds(store, i.mem) && HashOf(i.state) in store && Holds(store, i.disk)
    && (i.lower.Some? ==> Holds(store, i.lower.value))
  }

  ghost function AddInstant(store: Store, i: Instant): Store {
    var images := AddImage(AddImage(store, i.mem), i.disk);
    Add(if i.lower.Some? then AddImage(images, i.lower.value) else images, i.state)
  }

  lemma AddInstantHolds(store: Store, i: Instant)
    requires Sound(store)
    ensures Sound(AddInstant(store, i)) && Grows(store, AddInstant(store, i))
    ensures HoldsInstant(AddInstant(store, i), i)
  {
    AddImageHolds(store, i.mem);
    var s1 := AddImage(store, i.mem);
    AddImageHolds(s1, i.disk);
    var s2 := AddImage(s1, i.disk);
    if i.lower.Some? {
      AddImageHolds(s2, i.lower.value);
      AddGrows(AddImage(s2, i.lower.value), i.state);
    } else {
      AddGrows(s2, i.state);
    }
  }

  // ---------- the invariant ----------

  /** What holds of one sandbox whatever has failed. */
  ghost predicate BoxOK(store: Store, b: Box) {
    match b.machine
    case None => b.stage.Quiet?
    case Some(m) =>
      && AgreeOff(m.baseline, m.now.mem, m.dirty)
      && (m.token.Some? ==> Holds(store, m.token.value) && |m.token.value| == |m.now.mem|)
      && match b.stage
         case Pausing(diff, base) => m.paused && (diff ==> base.Some? && m.token == base)
         case Created(diff, base, file, spans, at, sound) =>
           && m.paused && m.now == at && m.baseline == at.mem && m.dirty == {}
           && FileOK(store, diff, base, file, spans, at, sound)
         case Copied(diff, base, file, spans, at, sound, disk) =>
           && m.baseline == at.mem && |m.now.mem| == |at.mem| && disk == at.disk
           && FileOK(store, diff, base, file, spans, at, sound)
         case Kept(at, stored, sound) =>
           m.baseline == at.mem && |m.now.mem| == |at.mem| && StoredOK(store, at, stored, sound)
         case Named(at, stored, sound) =>
           m.baseline == at.mem && StoredOK(store, at, stored, sound) && m.token == Some(stored.mem)
         case _ => true
  }

  ghost predicate FileOK(store: Store, diff: bool, base: Option<Bytes>, file: Bytes, spans: seq<Span>,
                         at: Instant, sound: bool) {
    && |file| == |at.mem|
    && (diff ==> base.Some? && Holds(store, base.value) && |base.value| == |at.mem|)
    && (sound <==> Overlay(file, spans, if diff then base else None) == at.mem)
  }

  /** Everything but memory is always exact; memory is exactly when the snapshot was sound. */
  ghost predicate StoredOK(store: Store, at: Instant, stored: Instant, sound: bool) {
    && HoldsInstant(store, stored)
    && stored.(mem := at.mem) == at && |stored.mem| == |at.mem|
    && (sound <==> stored.mem == at.mem)
  }

  /** A fork's root stands for its source's instant but has lost the base disk. */
  ghost predicate CkptOK(store: Store, c: Ckpt) {
    && HoldsInstant(store, c.stored) && |c.stored.mem| == |c.at.mem|
    && c.stored.(mem := c.at.mem) == (if c.forked then c.at.(lower := None) else c.at)
    && (c.sound <==> c.stored.mem == c.at.mem)
  }

  ghost predicate Inv(w: World) {
    && Sound(w.store)
    && (forall s :: s in w.boxes ==> BoxOK(w.store, w.boxes[s]))
    && (forall s :: s in w.boxes && w.boxes[s].stage.Saved? ==> w.boxes[s].stage.id in w.ckpts)
    && (forall id :: id in w.ckpts ==> CkptOK(w.store, w.ckpts[id]))
  }

  // ---------- steps ----------

  function BoxOf(w: World, s: Id): Box {
    if s in w.boxes then w.boxes[s] else Box(None, Quiet, [])
  }

  /** The image named by the sandbox's head, when it has one. */
  function HeadImage(w: World, b: Box): Option<Bytes> {
    if b.head in w.ckpts then Some(w.ckpts[b.head].stored.mem) else None
  }

  /** Whether a snapshot of a machine about to be captured can stand for it: it is full, or a diff that does. */
  ghost predicate Stands(b: Box, spans: seq<Span>)
    requires b.machine.Some? && b.stage.Pausing?
  {
    b.stage.diff ==>
      b.stage.base.Some? && DiffStands(b.stage.base.value, b.machine.value.now.mem, b.machine.value.dirty, spans)
  }

  ghost predicate Enabled(w: World, ev: Event) {
    if ev.PutBlob? then true else
    var b := BoxOf(w, ev.s);
    match ev
    case Boot(_, now) => b.machine.None?
    case Guest(_, now, dirty) =>
      && b.machine.Some? && !b.machine.value.paused
      && now.lower == b.machine.value.now.lower
      && b.machine.value.dirty <= dirty && AgreeOff(b.machine.value.now.mem, now.mem, dirty)
    case Pause(_, _) => b.machine.Some? && b.stage.Quiet?
    case Create(_, spans) =>
      && b.machine.Some? && b.stage.Pausing?
      && var m := b.machine.value;
         if b.stage.diff then SpansCover(spans, |m.now.mem|, m.dirty) else HolesZero(m.now.mem, spans)
    case CopyDisk(_) => b.machine.Some? && b.stage.Created?
    case Unpause(_) => b.machine.Some? && b.stage.Copied? && b.machine.value.paused
    case Keep(_) => b.machine.Some? && b.stage.Copied? && !b.machine.value.paused
    case Rebase(_) => b.machine.Some? && b.stage.Kept?
    case TearRecord(_) => b.machine.Some? && b.stage.Kept?
    case SaveCheckpoint(_, id) => b.machine.Some? && b.stage.Named? && id !in w.ckpts
    case SaveSandbox(_) => b.stage.Saved?
    case Fail(_, _) => true
    case Resume(_, id, _) => id in w.ckpts
    case SetHead(_, id) => id in w.ckpts
    case ForkRoot(_, from, id) => from in w.ckpts && id !in w.ckpts
    case Shutdown(_) => true
  }

  ghost function Apply(w: World, ev: Event): World
    requires Enabled(w, ev)
  {
    if ev.PutBlob? then w.(store := Add(w.store, ev.b)) else
    var b := BoxOf(w, ev.s);
    match ev
    case Boot(s, now) =>
      w.(boxes := w.boxes[s := b.(machine := Some(Machine(now, now.mem, {}, None, false)), stage := Quiet)])
    case Guest(s, now, dirty) =>
      w.(boxes := w.boxes[s := b.(machine := Some(b.machine.value.(now := now, dirty := dirty)))])
    case Pause(s, read) =>
      var m, base := b.machine.value, HeadImage(w, b);
      var diff := read && base.Some? && m.token.Some? && ImageHash(m.token.value) == ImageHash(base.value);
      w.(boxes := w.boxes[s := b.(machine := Some(m.(paused := true)), stage := Pausing(diff, base))])
    case Create(s, spans) =>
      var m, diff, base := b.machine.value, b.stage.diff, b.stage.base;
      var file := if diff then DiffFile(m.now.mem, m.dirty) else m.now.mem;
      w.(boxes := w.boxes[s := b.(machine := Some(m.(baseline := m.now.mem, dirty := {})),
                                  stage := Created(diff, base, file, spans, m.now, Stands(b, spans)))])
    case CopyDisk(s) =>
      var Created(diff, base, file, spans, at, sound) := b.stage;
      w.(boxes := w.boxes[s := b.(stage := Copied(diff, base, file, spans, at, sound, b.machine.value.now.disk))])
    case Unpause(s) =>
      w.(boxes := w.boxes[s := b.(machine := Some(b.machine.value.(paused := false)))])
    case Keep(s) =>
      var Copied(diff, base, file, spans, at, sound, disk) := b.stage;
      var stored := at.(mem := Overlay(file, spans, if diff then base else None), disk := disk);
      w.(boxes := w.boxes[s := b.(stage := Kept(at, stored, sound))], store := AddInstant(w.store, stored))
    case Rebase(s) =>
      var Kept(at, stored, sound) := b.stage;
      w.(boxes := w.boxes[s := b.(machine := Some(b.machine.value.(token := Some(stored.mem))),
                                  stage := Named(at, stored, sound))])
    case TearRecord(s) =>
      w.(boxes := w.boxes[s := b.(machine := Some(b.machine.value.(token := None)), stage := Quiet)])
    case SaveCheckpoint(s, id) =>
      var Named(at, stored, sound) := b.stage;
      w.(boxes := w.boxes[s := b.(stage := Saved(id))], ckpts := w.ckpts[id := Ckpt(at, stored, sound, false)])
    case SaveSandbox(s) =>
      w.(boxes := w.boxes[s := b.(head := b.stage.id, stage := Quiet)])
    case Fail(s, unpaused) =>
      var machine := if b.machine.Some? && unpaused then Some(b.machine.value.(paused := false)) else b.machine;
      w.(boxes := w.boxes[s := b.(machine := machine, stage := Quiet)])
    case Resume(s, id, named) =>
      var now := w.ckpts[id].stored;
      var token := if named then Some(now.mem) else None;
      w.(boxes := w.boxes[s := b.(machine := Some(Machine(now, now.mem, {}, token, false)), stage := Quiet)])
    case SetHead(s, id) =>
      w.(boxes := w.boxes[s := b.(head := id)])
    case ForkRoot(s, from, id) =>
      var src := w.ckpts[from];
      w.(boxes := w.boxes[s := b.(head := id)], ckpts := w.ckpts[id := src.(stored := src.stored.(lower := None), forked := true)])
    case Shutdown(s) =>
      w.(boxes := w.boxes[s := b.(machine := None, stage := Quiet)])
  }

  lemma BoxGrowth(store: Store, store': Store, b: Box)
    requires BoxOK(store, b) && Grows(store, store')
    ensures BoxOK(store', b)
  {
  }

  lemma CkptGrowth(store: Store, store': Store, c: Ckpt)
    requires CkptOK(store, c) && Grows(store, store')
    ensures CkptOK(store', c)
  {
  }

  lemma StoreGrowth(w: World, store': Store)
    requires Inv(w) && Sound(store') && Grows(w.store, store')
    ensures Inv(w.(store := store'))
  {
    forall s | s in w.boxes ensures BoxOK(store', w.boxes[s]) { BoxGrowth(w.store, store', w.boxes[s]); }
    forall id | id in w.ckpts ensures CkptOK(store', w.ckpts[id]) { CkptGrowth(w.store, store', w.ckpts[id]); }
  }

  /** Replacing one sandbox by one that is in order keeps the invariant. */
  lemma BoxStep(w: World, s: Id, b: Box)
    requires Inv(w) && BoxOK(w.store, b) && (b.stage.Saved? ==> b.stage.id in w.ckpts)
    ensures Inv(w.(boxes := w.boxes[s := b]))
  {
  }

  lemma CreateKeeps(w: World, s: Id, spans: seq<Span>)
    requires Inv(w) && Enabled(w, Create(s, spans))
    ensures Inv(Apply(w, Create(s, spans)))
  {
    var b := BoxOf(w, s);
    var m, diff, base := b.machine.value, b.stage.diff, b.stage.base;
    if diff {
      DiffExactIff(m.now.mem, m.dirty, spans, base.value);
    } else {
      WholeIsFile(m.now.mem, spans);
    }
    BoxStep(w, s, Apply(w, Create(s, spans)).boxes[s]);
  }

  lemma KeepKeeps(w: World, s: Id)
    requires Inv(w) && Enabled(w, Keep(s))
    ensures Inv(Apply(w, Keep(s)))
  {
    var w' := Apply(w, Keep(s));
    var stored := w'.boxes[s].stage.stored;
    AddInstantHolds(w.store, stored);
    StoreGrowth(w, w'.store);
    BoxStep(w.(store := w'.store), s, w'.boxes[s]);
  }

  lemma PauseKeeps(w: World, s: Id, read: bool)
    requires Inv(w) && Enabled(w, Pause(s, read))
    ensures Inv(Apply(w, Pause(s, read)))
  {
    var b := BoxOf(w, s);
    var m, base := b.machine.value, HeadImage(w, b);
    if base.Some? && m.token.Some? && ImageHash(m.token.value) == ImageHash(base.value) {
      ImageHashInjective(m.token.value, base.value);
    }
    BoxStep(w, s, Apply(w, Pause(s, read)).boxes[s]);
  }

  lemma CkptStep(w: World, s: Id, b: Box, id: Id, c: Ckpt)
    requires Inv(w) && id !in w.ckpts && CkptOK(w.store, c) && BoxOK(w.store, b)
    requires b.stage.Saved? ==> b.stage.id in w.ckpts || b.stage.id == id
    ensures Inv(w.(boxes := w.boxes[s := b], ckpts := w.ckpts[id := c]))
  {
  }

  lemma SaveKeeps(w: World, s: Id, id: Id)
    requires Inv(w) && Enabled(w, SaveCheckpoint(s, id))
    ensures Inv(Apply(w, SaveCheckpoint(s, id)))
  {
    var w' := Apply(w, SaveCheckpoint(s, id));
    CkptStep(w, s, w'.boxes[s], id, w'.ckpts[id]);
  }

  lemma ForkKeeps(w: World, s: Id, from: Id, id: Id)
    requires Inv(w) && Enabled(w, ForkRoot(s, from, id))
    ensures Inv(Apply(w, ForkRoot(s, from, id)))
  {
    var w' := Apply(w, ForkRoot(s, from, id));
    CkptStep(w, s, w'.boxes[s], id, w'.ckpts[id]);
  }

  lemma MachineKeeps(w: World, ev: Event)
    requires Inv(w) && Enabled(w, ev) && (ev.Guest? || ev.CopyDisk? || ev.Unpause? || ev.Rebase?)
    ensures Inv(Apply(w, ev))
  {
    BoxStep(w, ev.s, Apply(w, ev).boxes[ev.s]);
  }

  lemma FreshKeeps(w: World, ev: Event)
    requires Inv(w) && Enabled(w, ev) && (ev.Boot? || ev.TearRecord? || ev.Resume? || ev.Shutdown?)
    ensures Inv(Apply(w, ev))
  {
    BoxStep(w, ev.s, Apply(w, ev).boxes[ev.s]);
  }

  lemma HeadKeeps(w: World, ev: Event)
    requires Inv(w) && Enabled(w, ev) && (ev.SaveSandbox? || ev.SetHead? || ev.Fail?)
    ensures Inv(Apply(w, ev))
  {
    BoxStep(w, ev.s, Apply(w, ev).boxes[ev.s]);
  }

  /** Every event keeps the invariant, failures included. */
  lemma StepKeeps(w: World, ev: Event)
    requires Inv(w) && Enabled(w, ev)
    ensures Inv(Apply(w, ev))
  {
    match ev
    case PutBlob(b) =>
      AddGrows(w.store, b);
      StoreGrowth(w, Add(w.store, b));
    case Pause(s, read) => PauseKeeps(w, s, read);
    case Create(s, spans) => CreateKeeps(w, s, spans);
    case Keep(s) => KeepKeeps(w, s);
    case SaveCheckpoint(s, id) => SaveKeeps(w, s, id);
    case ForkRoot(s, from, id) => ForkKeeps(w, s, from, id);
    case SaveSandbox(_) => HeadKeeps(w, ev);
    case SetHead(_, _) => HeadKeeps(w, ev);
    case Fail(_, _) => HeadKeeps(w, ev);
    case Boot(_, _) => FreshKeeps(w, ev);
    case TearRecord(_) => FreshKeeps(w, ev);
    case Resume(_, _, _) => FreshKeeps(w, ev);
    case Shutdown(_) => FreshKeeps(w, ev);
    case _ => MachineKeeps(w, ev);
  }

  // ---------- runs ----------

  /** The worlds a sequence of events leads through. */
  ghost predicate Run(ws: seq<World>, evs: seq<Event>) {
    && |ws| == |evs| + 1
    && forall i :: 0 <= i < |evs| ==> Enabled(ws[i], evs[i]) && ws[i + 1] == Apply(ws[i], evs[i])
  }

  const EMPTY: World := World(map[], map[], map[])

  lemma {:induction false} InvAlways(ws: seq<World>, evs: seq<Event>, i: nat)
    requires Run(ws, evs) && Inv(ws[0]) && i < |ws|
    ensures Inv(ws[i])
  {
    if i > 0 {
      InvAlways(ws, evs, i - 1);
      StepKeeps(ws[i - 1], evs[i - 1]);
    }
  }

  // ---------- where checkpoints come from ----------

  /** The event snapshots a paused machine at `at`, and `sound` is whether that snapshot can stand for it. */
  ghost predicate Taken(w: World, ev: Event, at: Instant, sound: bool) {
    && ev.Create?
    && var b := BoxOf(w, ev.s);
       && b.machine.Some? && b.stage.Pausing? && b.machine.value.paused && b.machine.value.now == at
       && (sound <==> Stands(b, ev.spans))
  }

  ghost predicate TakenBefore(ws: seq<World>, evs: seq<Event>, i: nat, at: Instant, sound: bool)
    requires |ws| == |evs| + 1 && i < |ws|
  {
    exists j :: 0 <= j < i && Taken(ws[j], evs[j], at, sound)
  }

  ghost predicate ForkedBefore(evs: seq<Event>, i: nat, id: Id)
    requires i <= |evs|
  {
    exists j :: 0 <= j < i && evs[j].ForkRoot? && evs[j].id == id
  }

  /** Every snapshot in hand goes back to one taken earlier in the run. */
  ghost predicate BoxesTraced(ws: seq<World>, evs: seq<Event>, i: nat)
    requires |ws| == |evs| + 1 && i < |ws|
  {
    forall s :: s in ws[i].boxes && ws[i].boxes[s].stage.Held() ==>
      TakenBefore(ws, evs, i, ws[i].boxes[s].stage.at, ws[i].boxes[s].stage.sound)
  }

  /** And so does every checkpoint. */
  ghost predicate CkptsTraced(ws: seq<World>, evs: seq<Event>, i: nat)
    requires |ws| == |evs| + 1 && i < |ws|
  {
    forall id :: id in ws[i].ckpts ==> TakenBefore(ws, evs, i, ws[i].ckpts[id].at, ws[i].ckpts[id].sound)
  }

  /** The roots of forks are those the run made by forking. */
  ghost predicate ForksTraced(ws: seq<World>, evs: seq<Event>, i: nat)
    requires |ws| == |evs| + 1 && i < |ws|
  {
    && (forall id :: id in ws[i].ckpts ==> (ws[i].ckpts[id].forked <==> ForkedBefore(evs, i, id)))
    && (forall id :: ForkedBefore(evs, i, id) ==> id in ws[i].ckpts)
  }

  /** A snapshot in hand was there before the event, or the event took it. */
  lemma HeldFrom(w: World, ev: Event, s: Id)
    requires Inv(w) && Enabled(w, ev) && s in Apply(w, ev).boxes && Apply(w, ev).boxes[s].stage.Held()
    ensures var stage := Apply(w, ev).boxes[s].stage;
            || (s in w.boxes && w.boxes[s].stage.Held() && w.boxes[s].stage.at == stage.at && w.boxes[s].stage.sound == stage.sound)
            || Taken(w, ev, stage.at, stage.sound)
  {
    if ev.PutBlob? || s != ev.s {
      OthersStay(w, ev, s);
    } else if ev.Create? {
      HeldCreated(w, ev);
    } else {
      HeldOn(w, ev);
    }
  }

  lemma OthersStay(w: World, ev: Event, s: Id)
    requires Enabled(w, ev) && (ev.PutBlob? || s != ev.s) && s in Apply(w, ev).boxes
    ensures s in w.boxes && Apply(w, ev).boxes[s] == w.boxes[s]
  {
  }

  lemma HeldCreated(w: World, ev: Event)
    requires Inv(w) && Enabled(w, ev) && ev.Create?
    ensures var stage := Apply(w, ev).boxes[ev.s].stage; stage.Held() && Taken(w, ev, stage.at, stage.sound)
  {
    assert BoxOK(w.store, BoxOf(w, ev.s));
  }

  lemma HeldOn(w: World, ev: Event)
    requires Enabled(w, ev) && !ev.PutBlob? && !ev.Create? && Apply(w, ev).boxes[ev.s].stage.Held()
    ensures ev.s in w.boxes && w.boxes[ev.s].stage.Held()
    ensures w.boxes[ev.s].stage.at == Apply(w, ev).boxes[ev.s].stage.at
    ensures w.boxes[ev.s].stage.sound == Apply(w, ev).boxes[ev.s].stage.sound
  {
  }

  /** A checkpoint was there before the event, or comes from a snapshot in hand or from the checkpoint forked. */
  lemma CkptFrom(w: World, ev: Event, id: Id)
    requires Enabled(w, ev) && id in Apply(w, ev).ckpts
    ensures var c := Apply(w, ev).ckpts[id];
            || (id in w.ckpts && w.ckpts[id] == c)
            || (id !in w.ckpts && ev.SaveCheckpoint? && ev.s in w.boxes && !c.forked
                && w.boxes[ev.s].stage.Held() && w.boxes[ev.s].stage.at == c.at && w.boxes[ev.s].stage.sound == c.sound)
            || (id !in w.ckpts && ev.ForkRoot? && ev.id == id && ev.from in w.ckpts && c.forked
                && w.ckpts[ev.from].at == c.at && w.ckpts[ev.from].sound == c.sound)
  {
  }

  lemma TakenStays(ws: seq<World>, evs: seq<Event>, i: nat, at: Instant, sound: bool)
    requires |ws| == |evs| + 1 && i < |evs|
    requires TakenBefore(ws, evs, i, at, sound) || Taken(ws[i], evs[i], at, sound)
    ensures TakenBefore(ws, evs, i + 1, at, sound)
  {
  }

  lemma ForkedNext(evs: seq<Event>, i: nat, id: Id)
    requires i < |evs|
    ensures ForkedBefore(evs, i + 1, id) <==> ForkedBefore(evs, i, id) || (evs[i].ForkRoot? && evs[i].id == id)
  {
  }

  lemma BoxesTracedNext(ws: seq<World>, evs: seq<Event>, i: nat)
    requires Run(ws, evs) && i < |evs| && Inv(ws[i]) && BoxesTraced(ws, evs, i)
    ensures BoxesTraced(ws, evs, i + 1)
  {
    var w' := ws[i + 1];
    forall s | s in w'.boxes && w'.boxes[s].stage.Held()
      ensures TakenBefore(ws, evs, i + 1, w'.boxes[s].stage.at, w'.boxes[s].stage.sound)
    {
      HeldFrom(ws[i], evs[i], s);
      TakenStays(ws, evs, i, w'.boxes[s].stage.at, w'.boxes[s].stage.sound);
    }
  }

  lemma CkptsTracedNext(ws: seq<World>, evs: seq<Event>, i: nat)
    requires Run(ws, evs) && i < |evs| && BoxesTraced(ws, evs, i) && CkptsTraced(ws, evs, i)
    ensures CkptsTraced(ws, evs, i + 1)
  {
    var w' := ws[i + 1];
    forall id | id in w'.ckpts
      ensures TakenBefore(ws, evs, i + 1, w'.ckpts[id].at, w'.ckpts[id].sound)
    {
      CkptFrom(ws[i], evs[i], id);
      TakenStays(ws, evs, i, w'.ckpts[id].at, w'.ckpts[id].sound);
    }
  }

  lemma CkptsStay(w: World, ev: Event, id: Id)
    requires Enabled(w, ev)
    ensures id in w.ckpts ==> id in Apply(w, ev).ckpts && Apply(w, ev).ckpts[id] == w.ckpts[id] && !(ev.ForkRoot? && ev.id == id)
    ensures ev.ForkRoot? && ev.id == id ==> id in Apply(w, ev).ckpts
  {
  }

  lemma ForksTracedNext(ws: seq<World>, evs: seq<Event>, i: nat)
    requires Run(ws, evs) && i < |evs| && ForksTraced(ws, evs, i)
    ensures ForksTraced(ws, evs, i + 1)
  {
    var w, ev, w' := ws[i], evs[i], ws[i + 1];
    forall id
      ensures id in w'.ckpts ==> (w'.ckpts[id].forked <==> ForkedBefore(evs, i + 1, id))
      ensures ForkedBefore(evs, i + 1, id) ==> id in w'.ckpts
    {
      ForkedNext(evs, i, id);
      CkptsStay(w, ev, id);
      if id in w'.ckpts && id !in w.ckpts {
        CkptFrom(w, ev, id);
      }
    }
  }

  lemma {:induction false} TracedAlways(ws: seq<World>, evs: seq<Event>, i: nat)
    requires Run(ws, evs) && ws[0] == EMPTY && i < |ws|
    ensures Inv(ws[i]) && BoxesTraced(ws, evs, i) && CkptsTraced(ws, evs, i) && ForksTraced(ws, evs, i)
  {
    if i > 0 {
      TracedAlways(ws, evs, i - 1);
      StepKeeps(ws[i - 1], evs[i - 1]);
      BoxesTracedNext(ws, evs, i - 1);
      CkptsTracedNext(ws, evs, i - 1);
      ForksTracedNext(ws, evs, i - 1);
    }
  }

  /**
   In every run, whatever fails and however sandboxes interleave, each saved checkpoint was snapshotted from a
   machine of the run while it was paused, and it can be reassembled.  Its disk and state are exactly that
   machine's; so is its base disk unless it is the root of a fork; and its memory is exactly when the snapshot,
   at the moment it was taken, could stand for memory: it was full, or a diff for which `DiffStands`.
   */
  lemma EveryRun(ws: seq<World>, evs: seq<Event>, i: nat, id: Id)
    requires Run(ws, evs) && ws[0] == EMPTY && i < |ws| && id in ws[i].ckpts
    ensures var c := ws[i].ckpts[id];
            && HoldsInstant(ws[i].store, c.stored)
            && c.stored.(mem := c.at.mem) == (if ForkedBefore(evs, i, id) then c.at.(lower := None) else c.at)
            && exists j :: 0 <= j < i && Taken(ws[j], evs[j], c.at, c.stored.mem == c.at.mem)
  {
    TracedAlways(ws, evs, i);
    var c := ws[i].ckpts[id];
    var j :| 0 <= j < i && Taken(ws[j], evs[j], c.at, c.sound);
    assert Taken(ws[j], evs[j], c.at, c.stored.mem == c.at.mem);
  }

  /** The recorded name is the name of the memory at the last reset of tracking. */
  predicate TokenTrue(m: Machine) {
    m.token.Some? ==> m.token.value == m.baseline
  }

  /** Outside the window the recorded name is true, and the snapshot being captured is sound. */
  predicate BoxTrue(b: Box) {
    StageSound(b.stage) && (b.machine.Some? && !b.stage.InWindow() ==> TokenTrue(b.machine.value))
  }

  ghost predicate AllTrue(w: World) {
    && (forall s :: s in w.boxes ==> BoxTrue(w.boxes[s]))
    && (forall id :: id in w.ckpts ==> w.ckpts[id].sound)
  }

  predicate StageSound(stage: Stage) {
    match stage
    case Created(_, _, _, _, _, sound) => sound
    case Copied(_, _, _, _, _, sound, _) => sound
    case Kept(_, _, sound) => sound
    case Named(_, _, sound) => sound
    case _ => true
  }

  /** What the scan of a diff reports beyond the dirty pages is zero in the base. */
  ghost predicate Harmless(b: Box, spans: seq<Span>) {
    b.machine.Some? && b.stage.Pausing? && b.stage.diff && b.stage.base.Some? ==>
      forall k :: 0 <= k < |b.stage.base.value| && k / PAGE_SIZE !in b.machine.value.dirty && Covered(spans, k) ==>
        b.stage.base.value[k] == 0
  }

  /**
   A capture does not fail between its snapshot and its rebase, unless nothing is recorded or what is recorded is
   still true; and its hole scan does no harm.
   */
  ghost predicate Clean(w: World, ev: Event) {
    && (ev.Fail? && BoxOf(w, ev.s).stage.InWindow() && BoxOf(w, ev.s).machine.Some? ==> TokenTrue(BoxOf(w, ev.s).machine.value))
    && (ev.Create? ==> Harmless(BoxOf(w, ev.s), ev.spans))
  }

  /** While the recorded name is true, a snapshot can stand for memory exactly when its hole scan does no harm. */
  lemma StandsIffHarmless(w: World, s: Id, spans: seq<Span>)
    requires Inv(w) && BoxTrue(BoxOf(w, s)) && Enabled(w, Create(s, spans))
    ensures Stands(BoxOf(w, s), spans) <==> Harmless(BoxOf(w, s), spans)
  {
    var b := BoxOf(w, s);
    assert BoxOK(w.store, b);
    if b.stage.diff {
      var m, base := b.machine.value, b.stage.base.value;
      assert AgreeOff(base, m.now.mem, m.dirty);
    }
  }

  lemma TrueCreate(w: World, s: Id, spans: seq<Span>)
    requires Inv(w) && AllTrue(w) && Enabled(w, Create(s, spans)) && Clean(w, Create(s, spans))
    ensures BoxTrue(Apply(w, Create(s, spans)).boxes[s])
  {
    StandsIffHarmless(w, s, spans);
  }

  lemma TrueRebase(w: World, s: Id)
    requires Inv(w) && AllTrue(w) && Enabled(w, Rebase(s))
    ensures BoxTrue(Apply(w, Rebase(s)).boxes[s])
  {
  }

  lemma TrueCapture(w: World, ev: Event)
    requires Inv(w) && AllTrue(w) && Enabled(w, ev)
    requires ev.Pause? || ev.CopyDisk? || ev.Unpause? || ev.Keep? || ev.SaveCheckpoint? || ev.SaveSandbox?
    ensures BoxTrue(Apply(w, ev).boxes[ev.s])
  {
    var b, b' := BoxOf(w, ev.s), Apply(w, ev).boxes[ev.s];
    assert BoxTrue(b);
    assert b.machine.Some? ==> b'.machine.value.token == b.machine.value.token;
    assert b.machine.Some? ==> b'.machine.value.baseline == b.machine.value.baseline;
  }

  lemma TrueBox(w: World, ev: Event)
    requires Inv(w) && AllTrue(w) && Enabled(w, ev) && Clean(w, ev) && !ev.PutBlob?
    ensures BoxTrue(Apply(w, ev).boxes[ev.s])
  {
    match ev
    case Create(s, spans) => TrueCreate(w, s, spans);
    case Rebase(s) => TrueRebase(w, s);
    case Guest(_, _, _) => TrueIdle(w, ev);
    case Fail(_, _) => TrueIdle(w, ev);
    case SetHead(_, _) => TrueIdle(w, ev);
    case ForkRoot(_, _, _) => TrueIdle(w, ev);
    case Boot(_, _) =>
    case TearRecord(_) =>
    case Resume(_, _, _) =>
    case Shutdown(_) =>
    case _ => TrueCapture(w, ev);
  }

  lemma TrueIdle(w: World, ev: Event)
    requires AllTrue(w) && Enabled(w, ev) && Clean(w, ev) && (ev.Guest? || ev.Fail? || ev.SetHead? || ev.ForkRoot?)
    ensures BoxTrue(Apply(w, ev).boxes[ev.s])
  {
    assert BoxTrue(BoxOf(w, ev.s));
  }

  lemma TrueSaved(w: World, ev: Event, id: Id)
    requires AllTrue(w) && Enabled(w, ev) && id in Apply(w, ev).ckpts
    ensures Apply(w, ev).ckpts[id].sound
  {
    if !ev.PutBlob? {
      assert BoxTrue(BoxOf(w, ev.s));
    }
  }

  lemma TrueKept(w: World, ev: Event)
    requires Inv(w) && AllTrue(w) && Enabled(w, ev) && Clean(w, ev)
    ensures AllTrue(Apply(w, ev))
  {
    var w' := Apply(w, ev);
    forall s | s in w'.boxes
      ensures BoxTrue(w'.boxes[s])
    {
      if !ev.PutBlob? && s == ev.s {
        TrueBox(w, ev);
      } else {
        assert w'.boxes[s] == w.boxes[s];
      }
    }
    forall id | id in w'.ckpts ensures w'.ckpts[id].sound { TrueSaved(w, ev, id); }
  }

  ghost predicate CleanRun(ws: seq<World>, evs: seq<Event>) {
    Run(ws, evs) && forall i :: 0 <= i < |evs| ==> Clean(ws[i], evs[i])
  }

  lemma {:induction false} TrueAlways(ws: seq<World>, evs: seq<Event>, i: nat)
    requires CleanRun(ws, evs) && ws[0] == EMPTY && i < |ws|
    ensures Inv(ws[i]) && AllTrue(ws[i])
  {
    if i > 0 {
      TrueAlways(ws, evs, i - 1);
      StepKeeps(ws[i - 1], evs[i - 1]);
      TrueKept(ws[i - 1], evs[i - 1]);
    }
  }

  /**
   Over every run in which each snapshot taken reaches its rebase, or fails before it without leaving a false
   record, and no hole scan does harm, every saved checkpoint reassembles to exactly the memory, state and disks of one of the run's machines while it was
   paused, through diff chains of any length, except that a fork's root has no base disk; and outside the
   window every recorded name is that of a stored image memory differs from only on dirty pages.
   */
  lemma CleanRunsAreExact(ws: seq<World>, evs: seq<Event>, i: nat)
    requires CleanRun(ws, evs) && ws[0] == EMPTY && i < |ws|
    ensures forall id :: id in ws[i].ckpts ==>
              && HoldsInstant(ws[i].store, ws[i].ckpts[id].stored)
              && ws[i].ckpts[id].stored
                 == (if ForkedBefore(evs, i, id) then ws[i].ckpts[id].at.(lower := None) else ws[i].ckpts[id].at)
              && TakenBefore(ws, evs, i, ws[i].ckpts[id].at, true)
    ensures forall s :: s in ws[i].boxes && ws[i].boxes[s].machine.Some? && !ws[i].boxes[s].stage.InWindow() ==>
              var m := ws[i].boxes[s].machine.value;
              m.token.Some? ==> Holds(ws[i].store, m.token.value) && AgreeOff(m.token.value, m.now.mem, m.dirty)
  {
    TrueAlways(ws, evs, i);
    TracedAlways(ws, evs, i);
  }

  /**
   The store cannot tell diff steps from full ones: in every such run, each capture that stores its snapshot,
   diff or full, leaves exactly the store that putting the whole paused machine there would.
   */
  lemma DiffsLeaveNoTrace(ws: seq<World>, evs: seq<Event>, i: nat, s: Id)
    requires CleanRun(ws, evs) && ws[0] == EMPTY && i < |evs| && evs[i] == Keep(s)
    ensures ws[i + 1].store == AddInstant(ws[i].store, BoxOf(ws[i], s).stage.at)
    ensures TakenBefore(ws, evs, i, BoxOf(ws[i], s).stage.at, true)
  {
    TrueAlways(ws, evs, i);
    TracedAlways(ws, evs, i);
    var b := BoxOf(ws[i], s);
    assert BoxOK(ws[i].store, b) && BoxTrue(b);
  }

  // ---------- where the broad claim fails ----------

  /** The recorded name matches the head, so the next snapshot will be a diff. */
  predicate WillDiff(w: World, s: Id) {
    var b := BoxOf(w, s);
    b.machine.Some? && b.stage.Quiet? && b.machine.value.token.Some? && HeadImage(w, b) == b.machine.value.token
  }

  lemma RunAppend(ws: seq<World>, evs: seq<Event>, ws': seq<World>, evs': seq<Event>)
    requires Run(ws, evs) && Run(ws', evs') && ws'[0] == ws[|evs|]
    ensures Run(ws + ws'[1..], evs + evs')
  {
    var all, n := ws + ws'[1..], |evs|;
    forall i | 0 <= i < |evs + evs'|
      ensures Enabled(all[i], (evs + evs')[i]) && all[i + 1] == Apply(all[i], (evs + evs')[i])
    {
      if i < n {
        assert all[i] == ws[i] && all[i + 1] == ws[i + 1];
      } else {
        assert all[i] == ws'[i - n] && all[i + 1] == ws'[i - n + 1];
      }
    }
  }

  /** A failed capture leaves the recorded name alone but forgets which pages were dirty. */
  lemma WindowFailure(w: World, s: Id, spans: seq<Span>) returns (ws: seq<World>)
    requires WillDiff(w, s)
    requires SpansCover(spans, |BoxOf(w, s).machine.value.now.mem|, BoxOf(w, s).machine.value.dirty)
    ensures Run(ws, [Pause(s, true), Create(s, spans), Fail(s, true)]) && ws[0] == w
    ensures WillDiff(ws[3], s) && ws[3].ckpts == w.ckpts
    ensures BoxOf(ws[3], s).machine.value
         == BoxOf(w, s).machine.value.(baseline := BoxOf(w, s).machine.value.now.mem, dirty := {}, paused := false)
  {
    var w1 := Apply(w, Pause(s, true));
    var w2 := Apply(w1, Create(s, spans));
    var w3 := Apply(w2, Fail(s, true));
    ws := [w, w1, w2, w3];
  }

  lemma DiffOfNothing(w: World, s: Id) returns (ws: seq<World>)
    requires WillDiff(w, s) && BoxOf(w, s).machine.value.dirty == {}
    requires |BoxOf(w, s).machine.value.token.value| == |BoxOf(w, s).machine.value.now.mem|
    ensures Run(ws, [Pause(s, true), Create(s, [])]) && ws[0] == w && ws[2].ckpts == w.ckpts
    ensures BoxOf(ws[2], s).machine.Some? && BoxOf(ws[2], s).machine.value.paused
    ensures var m, stage := BoxOf(w, s).machine.value, BoxOf(ws[2], s).stage;
            && stage.Created? && stage.diff && stage.at == m.now && stage.base == m.token
            && stage.file == DiffFile(m.now.mem, {}) && stage.spans == []
            && (stage.sound <==> m.now.mem == m.token.value)
  {
    var m := BoxOf(w, s).machine.value;
    var w1 := Apply(w, Pause(s, true));
    assert forall k :: !Covered([], k);
    var w2 := Apply(w1, Create(s, []));
    ws := [w, w1, w2];
    assert AgreeOff(m.token.value, m.now.mem, {}) <==> m.token.value == m.now.mem;
  }

  /** The event does not reset the machine's tracking, record a name for it, or replace it. */
  predicate LeavesRecord(ev: Event, s: Id) {
    ev.PutBlob? || ev.s != s || !(ev.Create? || ev.Rebase? || ev.TearRecord? || ev.Resume? || ev.Shutdown?)
  }

  lemma RecordStays(w: World, ev: Event, s: Id)
    requires Enabled(w, ev) && LeavesRecord(ev, s) && BoxOf(w, s).machine.Some?
    ensures var m, b' := BoxOf(w, s).machine.value, BoxOf(Apply(w, ev), s);
            b'.machine.Some? && b'.machine.value.token == m.token && b'.machine.value.baseline == m.baseline
  {
  }

  lemma {:induction false} RecordSince(ws: seq<World>, evs: seq<Event>, a: nat, i: nat, s: Id)
    requires Run(ws, evs) && a < i < |ws| && evs[a].Create? && evs[a].s == s
    requires forall j :: a < j < i ==> LeavesRecord(evs[j], s)
    ensures BoxOf(ws[a], s).machine.Some? && BoxOf(ws[i], s).machine.Some?
    ensures var m0, m := BoxOf(ws[a], s).machine.value, BoxOf(ws[i], s).machine.value;
            m.token == m0.token && m.baseline == m0.now.mem
  {
    if a + 1 < i {
      RecordSince(ws, evs, a, i - 1, s);
      RecordStays(ws[i - 1], evs[i - 1], s);
    }
  }

  /** If the second of two snapshots is a diff and nothing was recorded in between, when it can stand for memory. */
  lemma RetrySnapshot(ws: seq<World>, evs: seq<Event>, a: nat, b: nat, s: Id)
    requires Run(ws, evs) && Inv(ws[0]) && a < b < |evs|
    requires evs[a].Create? && evs[a].s == s && evs[b].Create? && evs[b].s == s
    requires forall j :: a < j < b ==> LeavesRecord(evs[j], s)
    requires BoxOf(ws[b], s).stage.diff
    ensures BoxOf(ws[a], s).machine.Some? && BoxOf(ws[a], s).machine.value.token.Some?
    ensures var failed, dirty := BoxOf(ws[a], s).machine.value, BoxOf(ws[b], s).machine.value.dirty;
            && (Stands(BoxOf(ws[b], s), evs[b].spans) <==> DiffStands(failed.token.value, failed.now.mem, dirty, evs[b].spans))
            && (SpansAre(evs[b].spans, |failed.now.mem|, dirty) ==>
                  (Stands(BoxOf(ws[b], s), evs[b].spans) <==> AgreeOff(failed.token.value, failed.now.mem, dirty)))
  {
    RecordSince(ws, evs, a, b, s);
    InvAlways(ws, evs, b);
    var box := BoxOf(ws[b], s);
    var m := box.machine.value;
    assert BoxOK(ws[b].store, box);
    DiffExactIff(m.now.mem, m.dirty, evs[b].spans, m.token.value);
    assert DiffStands(m.token.value, m.now.mem, m.dirty, evs[b].spans)
      <==> DiffStands(m.token.value, m.baseline, m.dirty, evs[b].spans);
  }

  /** The snapshot in hand, if the capture is still under way, is the one taken at `at`. */
  predicate Carried(b: Box, at: Instant, sound: bool) {
    !b.stage.Pausing? && (b.stage.Held() ==> b.stage.at == at && b.stage.sound == sound)
  }

  lemma CarriedOn(w: World, ev: Event, s: Id, at: Instant, sound: bool)
    requires Enabled(w, ev) && LeavesCapture(ev, s) && Carried(BoxOf(w, s), at, sound)
    ensures Carried(BoxOf(Apply(w, ev), s), at, sound)
  {
  }

  lemma {:induction false} CarriedSince(ws: seq<World>, evs: seq<Event>, b: nat, i: nat, s: Id)
    requires Run(ws, evs) && b < i < |ws| && evs[b].Create? && evs[b].s == s
    requires forall j :: b < j < i ==> LeavesCapture(evs[j], s)
    ensures Carried(BoxOf(ws[i], s), BoxOf(ws[b], s).machine.value.now, Stands(BoxOf(ws[b], s), evs[b].spans))
  {
    if b + 1 < i {
      CarriedSince(ws, evs, b, i - 1, s);
      CarriedOn(ws[i - 1], evs[i - 1], s, BoxOf(ws[b], s).machine.value.now, Stands(BoxOf(ws[b], s), evs[b].spans));
    }
  }

  /** What a snapshot carried through to its checkpoint saves: the machine as it was, memory iff it could stand for it. */
  lemma CarriedThrough(ws: seq<World>, evs: seq<Event>, b: nat, c: nat, s: Id, id: Id)
    requires Run(ws, evs) && Inv(ws[0]) && b < c < |evs|
    requires evs[b].Create? && evs[b].s == s && evs[c] == SaveCheckpoint(s, id)
    requires forall j :: b < j < c ==> LeavesCapture(evs[j], s)
    ensures id in ws[c + 1].ckpts && ws[c + 1].ckpts[id].at == BoxOf(ws[b], s).machine.value.now
    ensures ws[c + 1].ckpts[id].stored.(mem := ws[c + 1].ckpts[id].at.mem) == ws[c + 1].ckpts[id].at
    ensures ws[c + 1].ckpts[id].stored.mem == ws[c + 1].ckpts[id].at.mem <==> Stands(BoxOf(ws[b], s), evs[b].spans)
  {
    CarriedSince(ws, evs, b, c, s);
    InvAlways(ws, evs, c);
    assert BoxOK(ws[c].store, BoxOf(ws[c], s));
  }

  // ---------- coming back ----------

  /** Once saved, a checkpoint never changes. */
  lemma {:induction false} CkptFixed(ws: seq<World>, evs: seq<Event>, i: nat, j: nat, id: Id)
    requires Run(ws, evs) && i <= j < |ws| && id in ws[i].ckpts
    ensures id in ws[j].ckpts && ws[j].ckpts[id] == ws[i].ckpts[id]
    decreases j
  {
    if i < j {
      CkptFixed(ws, evs, i, j - 1, id);
      CkptsStay(ws[j - 1], evs[j - 1], id);
    }
  }

  /** A machine just brought up from `now`: running, tracked from there, with its image's name recorded or none. */
  predicate Fresh(b: Box, now: Instant, named: bool) {
    b.stage.Quiet? && b.machine == Some(Machine(now, now.mem, {}, if named then Some(now.mem) else None, false))
  }

  /** The machine that a checkpoint stands for, with the memory that was stored. */
  ghost predicate BroughtBack(b: Box, named: bool, at: Instant, exact: bool) {
    && b.machine.Some? && Fresh(b, b.machine.value.now, named)
    && b.machine.value.now.(mem := at.mem) == at
    && (b.machine.value.now.mem == at.mem <==> exact)
  }

  /**
   In every run, a machine snapshotted while paused and carried through to checkpoint `id` is what resuming `id`
   brings back: at any later time, in any sandbox, whatever that sandbox's head or machine was.  State and disks
   are exactly those of the paused machine, and memory is exactly when the snapshot stood for it.
   */
  lemma ResumeBringsBack(ws: seq<World>, evs: seq<Event>, b: nat, c: nat, d: nat, s: Id, id: Id, s2: Id, named: bool)
    requires Run(ws, evs) && Inv(ws[0]) && b < c < d < |evs|
    requires evs[b].Create? && evs[b].s == s && evs[c] == SaveCheckpoint(s, id) && evs[d] == Resume(s2, id, named)
    requires forall j :: b < j < c ==> LeavesCapture(evs[j], s)
    ensures BroughtBack(BoxOf(ws[d + 1], s2), named, BoxOf(ws[b], s).machine.value.now, Stands(BoxOf(ws[b], s), evs[b].spans))
    ensures BoxOf(ws[d + 1], s2).head == BoxOf(ws[d], s2).head
  {
    CarriedThrough(ws, evs, b, c, s, id);
    CkptFixed(ws, evs, c + 1, d, id);
  }

  /** A fork's root brings back the same machine, less its base disk. */
  lemma ForkBringsBack(ws: seq<World>, evs: seq<Event>, b: nat, c: nat, f: nat, d: nat, s: Id, id: Id, s3: Id, root: Id,
                       s2: Id, named: bool)
    requires Run(ws, evs) && Inv(ws[0]) && b < c < f < d < |evs|
    requires evs[b].Create? && evs[b].s == s && evs[c] == SaveCheckpoint(s, id)
    requires evs[f] == ForkRoot(s3, id, root) && evs[d] == Resume(s2, root, named)
    requires forall j :: b < j < c ==> LeavesCapture(evs[j], s)
    ensures BroughtBack(BoxOf(ws[d + 1], s2), named, BoxOf(ws[b], s).machine.value.now.(lower := None),
                        Stands(BoxOf(ws[b], s), evs[b].spans))
    ensures BoxOf(ws[f + 1], s3).head == root
  {
    CarriedThrough(ws, evs, b, c, s, id);
    CkptFixed(ws, evs, c + 1, f, id);
    CkptFixed(ws, evs, f + 1, d, root);
  }

  /** So in clean runs capturing a machine and resuming the checkpoint is the identity, memory and all. */
  lemma CaptureThenResume(ws: seq<World>, evs: seq<Event>, b: nat, c: nat, d: nat, s: Id, id: Id, s2: Id, named: bool)
    requires CleanRun(ws, evs) && ws[0] == EMPTY && b < c < d < |evs|
    requires evs[b].Create? && evs[b].s == s && evs[c] == SaveCheckpoint(s, id) && evs[d] == Resume(s2, id, named)
    requires forall j :: b < j < c ==> LeavesCapture(evs[j], s)
    ensures Fresh(BoxOf(ws[d + 1], s2), BoxOf(ws[b], s).machine.value.now, named)
  {
    TrueAlways(ws, evs, b);
    assert Clean(ws[b], evs[b]) && BoxTrue(BoxOf(ws[b], s));
    StandsIffHarmless(ws[b], s, evs[b].spans);
    ResumeBringsBack(ws, evs, b, c, d, s, id, s2, named);
  }

  /** A stopped machine is gone; its sandbox comes back at its head, and the next snapshot can be a diff again. */
  lemma StopAndComeBack(w: World, s: Id) returns (ws: seq<World>)
    requires BoxOf(w, s).head in w.ckpts
    ensures Run(ws, [Shutdown(s), Resume(s, BoxOf(w, s).head, true)]) && ws[0] == w
    ensures BoxOf(ws[1], s) == Box(None, Quiet, BoxOf(w, s).head) && ws[1].ckpts == w.ckpts && ws[1].store == w.store
    ensures Fresh(BoxOf(ws[2], s), w.ckpts[BoxOf(w, s).head].stored, true) && WillDiff(ws[2], s)
  {
    var w1 := Apply(w, Shutdown(s));
    ws := [w, w1, Apply(w1, Resume(s, BoxOf(w, s).head, true))];
  }

  /** A checkout brings the checkpoint's machine up and then moves the head there, so that the two agree. */
  lemma CheckoutAgrees(w: World, s: Id, id: Id) returns (ws: seq<World>)
    requires id in w.ckpts
    ensures Run(ws, [Resume(s, id, true), SetHead(s, id)]) && ws[0] == w
    ensures Fresh(BoxOf(ws[2], s), w.ckpts[id].stored, true) && BoxOf(ws[2], s).head == id && WillDiff(ws[2], s)
  {
    var w1 := Apply(w, Resume(s, id, true));
    ws := [w, w1, Apply(w1, SetHead(s, id))];
  }

  /** Blobs put for other reasons, at any time, stay for good. */
  lemma BlobsStay(w: World, b: Bytes, ev: Event)
    requires Inv(w) && Enabled(Apply(w, PutBlob(b)), ev)
    ensures HashOf(b) in Apply(Apply(w, PutBlob(b)), ev).store && Grows(w.store, Apply(Apply(w, PutBlob(b)), ev).store)
  {
    var w1 := Apply(w, PutBlob(b));
    StepKeeps(w, PutBlob(b));
    AddGrows(w.store, b);
    if ev.PutBlob? {
      AddGrows(w1.store, ev.b);
    } else if ev.Keep? {
      AddInstantHolds(w1.store, Apply(w1, ev).boxes[ev.s].stage.stored);
    }
  }

  /**
   A snapshot is taken and, before its image is recorded, another one, which is carried through to a checkpoint:
   the capture in between failed.  Whatever the guest wrote meanwhile, whatever other sandboxes did and however
   often captures failed, the second, if it is a diff, is laid over the image recorded before the first but holds
   only the pages dirtied since the first.  So the checkpoint saved has the machine's memory exactly when the
   recorded image could stand for the memory of the failed snapshot off those pages: where the two differ, the
   guest must have written again.
   */
  lemma RetryAfterWindowFailure(ws: seq<World>, evs: seq<Event>, a: nat, b: nat, c: nat, s: Id, id: Id)
    requires Run(ws, evs) && Inv(ws[0]) && a < b < c < |evs|
    requires evs[a].Create? && evs[a].s == s && evs[b].Create? && evs[b].s == s && evs[c] == SaveCheckpoint(s, id)
    requires forall j :: a < j < b ==> LeavesRecord(evs[j], s)
    requires forall j :: b < j < c ==> LeavesCapture(evs[j], s)
    requires BoxOf(ws[b], s).stage.diff
    ensures BoxOf(ws[a], s).machine.Some? && BoxOf(ws[a], s).machine.value.token.Some?
    ensures id in ws[c + 1].ckpts && ws[c + 1].ckpts[id].at == BoxOf(ws[b], s).machine.value.now
    ensures var failed, dirty := BoxOf(ws[a], s).machine.value, BoxOf(ws[b], s).machine.value.dirty;
            var saved := ws[c + 1].ckpts[id];
            && (saved.stored.mem == saved.at.mem <==> DiffStands(failed.token.value, failed.now.mem, dirty, evs[b].spans))
            && (SpansAre(evs[b].spans, |failed.now.mem|, dirty) ==>
                  (saved.stored.mem == saved.at.mem <==> AgreeOff(failed.token.value, failed.now.mem, dirty)))
  {
    RetrySnapshot(ws, evs, a, b, s);
    CarriedThrough(ws, evs, b, c, s, id);
  }

  /**
   Forking keeps the machine image but not the base disk: resuming the fork from its own root gives back the
   source's instant exactly when the source had none.
   */
  lemma ForkRootExactIff(w: World, s: Id, from: Id, id: Id) returns (ws: seq<World>)
    requires from in w.ckpts && id !in w.ckpts && w.ckpts[from].stored == w.ckpts[from].at
    ensures Run(ws, [ForkRoot(s, from, id), Shutdown(s), Resume(s, id, true)]) && ws[0] == w
    ensures BoxOf(ws[3], s).machine.Some? && BoxOf(ws[3], s).head == id && WillDiff(ws[3], s)
    ensures BoxOf(ws[3], s).machine.value.now.(lower := w.ckpts[from].at.lower) == w.ckpts[from].at
    ensures BoxOf(ws[3], s).machine.value.now == w.ckpts[from].at <==> w.ckpts[from].at.lower.None?
  {
    var w1 := Apply(w, ForkRoot(s, from, id));
    var w2 := Apply(w1, Shutdown(s));
    var w3 := Apply(w2, Resume(s, id, true));
    ws := [w, w1, w2, w3];
  }

  // ---------- a run that saves a wrong checkpoint ----------

  lemma CopyAndKeep(w: World, s: Id) returns (ws: seq<World>)
    requires BoxOf(w, s).stage.Created? && BoxOf(w, s).machine.Some? && BoxOf(w, s).machine.value.paused
    ensures Run(ws, [CopyDisk(s), Unpause(s), Keep(s)]) && ws[0] == w && ws[3].ckpts == w.ckpts
    ensures var b := BoxOf(w, s);
            var m, Created(diff, base, file, spans, at, sound) := b.machine.value, b.stage;
            BoxOf(ws[3], s) == b.(machine := Some(m.(paused := false)), stage := Kept(at,
              at.(mem := Overlay(file, spans, if diff then base else None), disk := m.now.disk), sound))
  {
    var w1 := Apply(w, CopyDisk(s));
    var w2 := Apply(w1, Unpause(s));
    var w3 := Apply(w2, Keep(s));
    ws := [w, w1, w2, w3];
  }

  lemma RebaseAndSave(w: World, s: Id, id: Id) returns (ws: seq<World>)
    requires BoxOf(w, s).stage.Kept? && BoxOf(w, s).machine.Some? && id !in w.ckpts
    ensures Run(ws, [Rebase(s), SaveCheckpoint(s, id), SaveSandbox(s)]) && ws[0] == w
    ensures var b := BoxOf(w, s);
            var m, Kept(at, stored, sound) := b.machine.value, b.stage;
            && ws[3].ckpts == w.ckpts[id := Ckpt(at, stored, sound, false)]
            && BoxOf(ws[3], s) == Box(Some(m.(token := Some(stored.mem))), Quiet, id)
    ensures WillDiff(ws[3], s)
  {
    var w1 := Apply(w, Rebase(s));
    var w2 := Apply(w1, SaveCheckpoint(s, id));
    var w3 := Apply(w2, SaveSandbox(s));
    ws := [w, w1, w2, w3];
  }

  /** The rest of a capture once its snapshot is taken, with nothing going wrong. */
  lemma FinishCapture(w: World, s: Id, id: Id) returns (ws: seq<World>, evs: seq<Event>)
    requires BoxOf(w, s).stage.Created? && BoxOf(w, s).machine.Some? && BoxOf(w, s).machine.value.paused
    requires id !in w.ckpts
    ensures Run(ws, evs) && ws[0] == w && (forall i :: 0 <= i < |evs| ==> !evs[i].Fail?)
    ensures var Created(diff, base, file, spans, at, sound) := BoxOf(w, s).stage;
            var image, last := Overlay(file, spans, if diff then base else None), ws[|evs|];
            && last.ckpts.Keys == w.ckpts.Keys + {id}
            && last.ckpts[id].at == at && last.ckpts[id].stored.mem == image
            && BoxOf(last, s) == Box(Some(BoxOf(w, s).machine.value.(paused := false, token := Some(image))), Quiet, id)
  {
    ws := CopyAndKeep(w, s);
    var rest := RebaseAndSave(ws[3], s, id);
    RunAppend(ws, [CopyDisk(s), Unpause(s), Keep(s)], rest, [Rebase(s), SaveCheckpoint(s, id), SaveSandbox(s)]);
    evs := [CopyDisk(s), Unpause(s), Keep(s)] + [Rebase(s), SaveCheckpoint(s, id), SaveSandbox(s)];
    ws := ws + rest[1..];
  }

  // ---------- a mismatch ----------

  /** The sandbox's head does not name the recorded image. */
  predicate Mismatch(w: World, s: Id) {
    var b := BoxOf(w, s);
    b.machine.Some? && (HeadImage(w, b).None? || b.machine.value.token.None? || HeadImage(w, b) != b.machine.value.token)
  }

  /** A capture begins on a mismatch, or without being able to read the record or the head. */
  predicate GoesFull(w: World, ev: Event, s: Id) {
    ev.Pause? && ev.s == s && BoxOf(w, s).machine.Some? && (!ev.read || Mismatch(w, s))
  }

  /** The capture that began when the machine was at `at` is still under way or over, and its snapshot is full. */
  predicate FullSince(b: Box, at: Instant) {
    match b.stage
    case Pausing(diff, _) => !diff && b.machine.Some? && b.machine.value.paused && b.machine.value.now == at
    case Created(diff, _, _, _, at', sound) => !diff && at' == at && sound
    case Copied(diff, _, _, _, at', sound, _) => !diff && at' == at && sound
    case Kept(at', _, sound) => at' == at && sound
    case Named(at', _, sound) => at' == at && sound
    case _ => true
  }

  /** The event neither starts a capture of the sandbox, nor gives one up, nor replaces the machine. */
  predicate LeavesCapture(ev: Event, s: Id) {
    ev.PutBlob? || ev.s != s || !(ev.Pause? || ev.Fail? || ev.TearRecord? || ev.Resume? || ev.Shutdown?)
  }

  lemma FullStays(w: World, ev: Event, s: Id, at: Instant)
    requires Enabled(w, ev) && LeavesCapture(ev, s) && FullSince(BoxOf(w, s), at)
    ensures FullSince(BoxOf(Apply(w, ev), s), at)
  {
  }

  lemma {:induction false} FullAlways(ws: seq<World>, evs: seq<Event>, a: nat, i: nat, s: Id)
    requires Run(ws, evs) && a < i < |ws| && GoesFull(ws[a], evs[a], s)
    requires forall j :: a < j < i ==> LeavesCapture(evs[j], s)
    ensures FullSince(BoxOf(ws[i], s), BoxOf(ws[a], s).machine.value.now)
  {
    var m, head := BoxOf(ws[a], s).machine.value, HeadImage(ws[a], BoxOf(ws[a], s));
    if a + 1 < i {
      FullAlways(ws, evs, a, i - 1, s);
      FullStays(ws[i - 1], evs[i - 1], s, m.now);
    } else if head.Some? && m.token.Some? && ImageHash(m.token.value) == ImageHash(head.value) {
      ImageHashInjective(m.token.value, head.value);
    }
  }

  /**
   A head that is not the recorded image, or a record that cannot be read, costs a full snapshot and nothing
   else.  In every run, whatever the
   guest and other sandboxes do and whatever failed before, a capture begun on a mismatch and carried through
   saves exactly the machine as it was when paused, base disk included, and leaves the record true.
   */
  lemma MismatchCostsOnlyTime(ws: seq<World>, evs: seq<Event>, a: nat, b: nat, s: Id, id: Id)
    requires Run(ws, evs) && Inv(ws[0]) && a < b < |evs|
    requires GoesFull(ws[a], evs[a], s) && evs[b] == SaveCheckpoint(s, id)
    requires forall j :: a < j < b ==> LeavesCapture(evs[j], s)
    ensures id in ws[b + 1].ckpts && BoxOf(ws[b + 1], s).machine.Some?
    ensures ws[b + 1].ckpts[id].at == BoxOf(ws[a], s).machine.value.now
    ensures ws[b + 1].ckpts[id].stored == ws[b + 1].ckpts[id].at
    ensures HoldsInstant(ws[b + 1].store, ws[b + 1].ckpts[id].stored)
    ensures BoxOf(ws[b + 1], s).machine.value.token.Some? && TokenTrue(BoxOf(ws[b + 1], s).machine.value)
  {
    FullAlways(ws, evs, a, b, s);
    InvAlways(ws, evs, b);
    assert BoxOK(ws[b].store, BoxOf(ws[b], s));
  }

  const VM: Id := [1]

  function OneByte(x: byte): Instant { Instant([x], [], [], None) }

  /** A machine of one byte of memory is booted and captured. */
  lemma FirstCapture() returns (ws: seq<World>, evs: seq<Event>)
    ensures Run(ws, evs) && ws[0] == EMPTY
    ensures ws[|evs|].ckpts.Keys == {[1]} && ws[|evs|].ckpts[[1]].stored.mem == [0]
    ensures BoxOf(ws[|evs|], VM) == Box(Some(Machine(OneByte(0), [0], {}, Some([0]), false)), Quiet, [1])
  {
    var w1 := Apply(EMPTY, Boot(VM, OneByte(0)));
    var w2 := Apply(w1, Pause(VM, true));
    var w3 := Apply(w2, Create(VM, []));
    WholeIsFile([0], []);
    ws, evs := FinishCapture(w3, VM, [1]);
    RunAppend([EMPTY, w1, w2, w3], [Boot(VM, OneByte(0)), Pause(VM, true), Create(VM, [])], ws, evs);
    ws, evs := [EMPTY, w1, w2, w3] + ws[1..], [Boot(VM, OneByte(0)), Pause(VM, true), Create(VM, [])] + evs;
  }

  /** The guest then writes its byte, and the next capture fails in the window. */
  lemma SecondCaptureFails() returns (ws: seq<World>, evs: seq<Event>)
    ensures Run(ws, evs) && ws[0] == EMPTY
    ensures ws[|evs|].ckpts.Keys == {[1]} && WillDiff(ws[|evs|], VM)
    ensures BoxOf(ws[|evs|], VM).machine == Some(Machine(OneByte(1), [1], {}, Some([0]), false))
  {
    ws, evs := FirstCapture();
    var w := ws[|evs|];
    var write := Guest(VM, OneByte(1), {0});
    var w1 := Apply(w, write);
    RunAppend(ws, evs, [w, w1], [write]);
    ws, evs := ws + [w, w1][1..], evs + [write];
    var spans := [Span(0, 1)];
    assert spans[0].start <= 0 < spans[0].end;
    var failed := WindowFailure(w1, VM, spans);
    RunAppend(ws, evs, failed, [Pause(VM, true), Create(VM, spans), Fail(VM, true)]);
    ws, evs := ws + failed[1..], evs + [Pause(VM, true), Create(VM, spans), Fail(VM, true)];
  }

  /** The capture after that saves the old byte for a machine holding the new one. */
  lemma WindowFailureSavesWrongMemory() returns (ws: seq<World>, evs: seq<Event>)
    ensures Run(ws, evs) && ws[0] == EMPTY
    ensures [2] in ws[|evs|].ckpts
    ensures ws[|evs|].ckpts[[2]].at.mem == [1] && ws[|evs|].ckpts[[2]].stored.mem == [0]
  {
    ws, evs := SecondCaptureFails();
    var retry := DiffOfNothing(ws[|evs|], VM);
    RunAppend(ws, evs, retry, [Pause(VM, true), Create(VM, [])]);
    ws, evs := ws + retry[1..], evs + [Pause(VM, true), Create(VM, [])];
    var rest, evs' := FinishCapture(retry[2], VM, [2]);
    RunAppend(ws, evs, rest, evs');
    ws, evs := ws + rest[1..], evs + evs';
    OverlayExactIff(DiffFile([1], {}), [], [0], [0]);
  }
}
