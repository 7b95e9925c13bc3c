/**
 The repository of sandboxes and checkpoints and the operations over it (internal/engine/engine.go,
 internal/engine/repo.go, internal/engine/memory.go).

 Any file operation, guest call or backend call may fail at any point, which the methods model by
 nondeterministic choices.  A repository carries, as ghost state, the run of `RepoStates` that led to it; `Valid`
 says that it is one.  So whatever is proved of every run holds of every repository the methods can produce, at
 each point in between as well as at the end.
 */
module Repos {
  import opened Content
  import opened Blobs
  import opened Images
  import opened Trees
  import opened Closure
  import opened RepoStates
  import Chunker
  import Restores

  // ---------- what an operation meets ----------

  /** A guest's listing of its work tree, and what reading a file from it returns. */
  datatype Guest = Guest(entries: seq<Entry>, read: Bytes -> Result<Bytes>) {
    /** Reading the file gives what the listing says. */
    predicate Serves(e: Entry) { read(e.path).Ok? && HashOf(read(e.path).value) == e.hash }
  }

  /** Where the working tree is read from: inside a machine, or the host directory with its walk and modes. */
  datatype Source = FromGuest(guest: Guest) | FromHost(fs: Restores.Files, walk: seq<Bytes>, mode: Bytes -> int) {
    ghost predicate Valid() {
      FromHost? ==>
        && Restores.Nested(fs)
        && (forall p :: p in fs && fs[p].Link? ==> fs[p].target != [])
        && (forall p :: p in walk <==> p in fs)
        && (forall i, j :: 0 <= i < j < |walk| ==> walk[i] != walk[j])
    }

    /** The host's files, or a guest that serves what it lists. */
    ghost predicate Steady() {
      FromGuest? ==> forall e :: e in guest.entries && e.hash != [] ==> guest.Serves(e)
    }
  }

  /** A machine snapshot as the backend hands it over. */
  datatype Picture = Picture(diff: bool, file: Bytes, spans: seq<Span>, state: Bytes,
                             disk: Option<Bytes>, lower: Option<Bytes>)

  function Whole(b: Bytes): seq<Span> { [Span(0, |b|)] }

  lemma WholeCovers(b: Bytes)
    ensures HolesZero(b, Whole(b))
  {
    var spans := Whole(b);
    assert forall k :: 0 <= k < |b| ==> spans[0].start <= k < spans[0].end && Covered(spans, k);
  }

  /** A diff is only ever handed over for a head whose image the chunker stored. */
  ghost predicate PictureOK(store: Store, cks: Records, head: Id, pic: Option<Picture>, base: Bytes) {
    pic.Some? ==>
      && HolesZero(pic.value.file, pic.value.spans)
      && (pic.value.diff ==> head in cks && cks[head].mem == ImageHash(base) && Holds(store, base))
  }

  /** The tree of that name is the one read: the guest's entries sorted, or exactly the host's files with their modes. */
  ghost predicate TreeTaken(store: Store, h: Hash, source: Source) {
    && h in store && DecodeTree(store[h]).Some?
    && var t := DecodeTree(store[h]).value;
       match source
       case FromGuest(g) => multiset(t) == multiset(g.entries) && SortedBy(t, Restores.EntryPath)
       case FromHost(fs, _, mode) =>
         && Restores.WellFormed(t) && Restores.BlobsPresent(t, store) && Restores.Matches(fs, t, store)
         && forall e :: e in t ==> e.path in fs && Restores.Describes(e, fs[e.path], mode(e.path))
  }

  /** The images of that checkpoint are those of the snapshot, or there are none. */
  ghost predicate PictureTaken(c: Checkpoint, pic: Option<Picture>, base: Bytes) {
    match pic
    case None => c.mem == [] && c.state == [] && c.disk == [] && c.base == []
    case Some(p) =>
      && c.mem == ImageHash(if p.diff then Overlay(p.file, p.spans, Some(base)) else p.file)
      && c.state == HashOf(p.state)
      && c.disk == (if p.disk.Some? then ImageHash(p.disk.value) else [])
      && c.base == (if p.lower.Some? then ImageHash(p.lower.value) else [])
  }

  /** The counts of that checkpoint are those of its tree against `prior`. */
  ghost predicate ChangesTaken(store: Store, c: Checkpoint, prior: Option<Tree>) {
    && c.tree in store && DecodeTree(store[c.tree]).Some?
    && var t := DecodeTree(store[c.tree]).value;
       BothUnique(OrNone(prior), t) ==> Counts(c.added, c.modified, c.deleted, OrNone(prior), t)
  }

  /** All of a step: its tree, its images and its counts. */
  ghost predicate StepTaken(store: Store, c: Checkpoint, source: Source, pic: Option<Picture>, base: Bytes, prior: Option<Tree>) {
    TreeTaken(store, c.tree, source) && PictureTaken(c, pic, base) && ChangesTaken(store, c, prior)
  }

  lemma TreeTakenGrows(store: Store, store': Store, h: Hash, source: Source)
    requires TreeTaken(store, h, source) && Grows(store, store')
    ensures TreeTaken(store', h, source)
  {
    if source.FromHost? {
      Restores.MatchesGrows(source.fs, DecodeTree(store[h]).value, store, store');
    }
  }

  /** The tree of the head, if one was read; a head that cannot be read counts as none. */
  ghost predicate PriorOf(store: Store, cks: Records, head: Id, prior: Option<Tree>) {
    prior.Some? ==> head != [] && head in cks && cks[head].tree in store && DecodeTree(store[cks[head].tree]) == prior
  }

  /** The head is recorded with its tree. */
  ghost predicate HeadReadable(store: Store, cks: Records, head: Id) {
    head != [] && head in cks && TreeClosed(store, cks[head].tree)
  }

  /**
   Reading a path of a step taken from the host gives what was there: a file's bytes, a link's target as text,
   and errors for a directory or for anything else.
   */
  lemma StepReadsBack(store: Store, c: Checkpoint, source: Source, p: Bytes)
    requires Sound(store) && Closed(store, c) && source.FromHost? && source.Valid() && TreeTaken(store, c.tree, source)
    requires !StartsHere(p)
    ensures p in source.fs ==>
              match source.fs[p]
              case File(data) => ReadFile(store, c, p) == Ok(data)
              case Link(target) => ReadFile(store, c, p) == Ok([45, 62, 32] + target + [10])
              case Dir => ReadFile(store, c, p) == Err(Invalid)
    ensures p !in source.fs ==> ReadFile(store, c, p) == Err(NotFound)
  {
    var t, fs := DecodeTree(store[c.tree]).value, source.fs;
    Restores.WellFormedUnique(t);
    LookupIn(t, p);
    if p in fs {
      var i :| 0 <= i < |t| && t[i] == Lookup(t, p).value;
      assert t[i] in t && Restores.Describes(t[i], fs[p], source.mode(p));
      ReadsWhatIsListed(store, c, i);
      if fs[p].File? {
        assert Unhash(HashOf(ReadFile(store, c, p).value)) == fs[p].data;
      }
    } else {
      ReadsNothingElse(store, c, p);
    }
  }

  /** Nothing recorded, or one step of the sandbox. */
  ghost predicate Advanced(cks: Records, cks': Records, s: Sandbox, id: Id, now: int) {
    cks' == cks || (id in cks' && cks' == cks[id := cks'[id]] && Step(cks'[id], s, id, now))
  }

  class Repo {
    const cas: BlobStore
    var checkpoints: Records
    var sandboxes: map<Id, Sandbox>
    ghost var states: seq<State>
    ghost var events: seq<Event>

    constructor ()
      ensures Valid() && Now() == EMPTY && events == [] && fresh(cas)
    {
      cas := new BlobStore();
      checkpoints, sandboxes := map[], map[];
      states, events := [EMPTY], [];
    }

    ghost function Now(): State
      reads this, cas
    {
      State(cas.blobs, checkpoints, sandboxes)
    }

    /** The present state is where the run kept here ends, and so the store is sound and closes every checkpoint. */
    ghost predicate Valid()
      reads this, cas
    {
      && Sound(cas.blobs) && AllClosed(cas.blobs, checkpoints)
      && Legal(states, events) && states[|events|] == Now()
    }

    /** Every record pulled so far was honest. */
    ghost predicate HonestSoFar()
      reads this
    {
      |states| == |events| + 1 && AllHonest(states, events)
    }

    /** Notes what has been put into the store since it was `before`. */
    ghost method LogPuts(before: Store)
      requires Legal(states, events) && states[|events|] == State(before, checkpoints, sandboxes)
      requires Sound(before) && AllClosed(before, checkpoints) && Sound(cas.blobs) && Grows(before, cas.blobs)
      modifies this`states, this`events
      ensures Valid() && Extended(old(states), old(events), states, events)
    {
      var sts, evs := PutsBetween(states[|events|], cas.blobs);
      StepsAppend(states, events, sts, evs);
      AllClosedGrows(before, cas.blobs, checkpoints);
      states, events := states + sts[1..], events + evs;
    }

    ghost method LogEvent(ev: Event, before: State)
      requires Legal(states, events) && states[|events|] == before && Enabled(before, ev) && Apply(before, ev) == Now()
      modifies this`states, this`events
      ensures Legal(states, events) && states[|events|] == Now()
      ensures states == old(states) + [Now()] && events == old(events) + [ev]
    {
      OneStep(states, events, ev);
      states, events := states + [Now()], events + [ev];
    }

    /**
     Writes a checkpoint record, for a step or at the end of a pull.  The write is in place: one that fails leaves
     what was there, or nothing that can be read.
     */
    method SaveCheckpoint(c: Checkpoint, ghost ev: Event) returns (ok: bool)
      requires Valid() && Enabled(Now(), ev) && (ev == Receive(c) || (ev.SaveCheckpoint? && ev.c == c))
      modifies this`checkpoints, this`states, this`events
      ensures Valid()
      ensures ok ==> checkpoints == old(checkpoints)[c.id := c] && states == old(states) + [Now()] && events == old(events) + [ev]
      ensures !ok ==>
                || (checkpoints == old(checkpoints) && states == old(states) && events == old(events))
                || (ev.Receive? && checkpoints == old(checkpoints) - {c.id}
                    && states == old(states) + [Now()] && events == old(events) + [TearCheckpoint(c.id)])
      ensures ok || FAULTY
    {
      ghost var before := Now();
      var failed := Fails();
      if failed {
        var torn := Fails();
        if torn {
          checkpoints := checkpoints - {c.id};
          if ev.Receive? {
            LogEvent(TearCheckpoint(c.id), before);
          } else {
            assert checkpoints == old(checkpoints);
          }
        }
        return false;
      }
      checkpoints := checkpoints[c.id := c];
      LogEvent(ev, before);
      return true;
    }

    /** Writes the record of a step. */
    method SaveStep(s: Sandbox, c: Checkpoint) returns (ok: bool)
      requires Valid() && Enabled(Now(), RepoStates.SaveCheckpoint(s, c))
      modifies this`checkpoints, this`states, this`events
      ensures Valid() && Extended(old(states), old(events), states, events)
      ensures checkpoints == if ok then old(checkpoints)[c.id := c] else old(checkpoints)
      ensures ok || FAULTY
    {
      ok := SaveCheckpoint(c, RepoStates.SaveCheckpoint(s, c));
    }

    /** Writes a sandbox record, in place too. */
    method SaveSandbox(s: Sandbox) returns (ok: bool)
      requires Valid() && Enabled(Now(), RepoStates.SaveSandbox(s))
      modifies this`sandboxes, this`states, this`events
      ensures Valid() && Extended(old(states), old(events), states, events)
      ensures ok ==> sandboxes == old(sandboxes)[s.id := s]
      ensures !ok ==> sandboxes == old(sandboxes) || sandboxes == old(sandboxes) - {s.id}
      ensures ok || FAULTY
    {
      ghost var before := Now();
      var failed := Fails();
      if failed {
        var torn := Fails();
        if torn {
          sandboxes := sandboxes - {s.id};
          LogEvent(TearSandbox(s.id), before);
        }
        return false;
      }
      sandboxes := sandboxes[s.id := s];
      LogEvent(RepoStates.SaveSandbox(s), before);
      return true;
    }

    /** Fetches the files the store lacks, each checked against the hash the guest reported. */
    method GuestTree(g: Guest) returns (r: Result<Tree>)
      requires Sound(cas.blobs)
      modifies cas
      ensures Sound(cas.blobs) && Grows(old(cas.blobs), cas.blobs)
      ensures r.Ok? ==> forall e :: e in r.value && e.hash != [] ==> e.hash in cas.blobs
      ensures r.Ok? ==> multiset(r.value) == multiset(g.entries) && SortedBy(r.value, Restores.EntryPath)
      ensures r.Err? ==> r.error.Fault? || exists e :: e in g.entries && e.hash != [] && !g.Serves(e)
    {
      for i := 0 to |g.entries|
        invariant Sound(cas.blobs) && Grows(old(cas.blobs), cas.blobs)
        invariant forall j :: 0 <= j < i && g.entries[j].hash != [] ==> g.entries[j].hash in cas.blobs
      {
        var e := g.entries[i];
        if e.hash != [] && e.hash !in cas.blobs {
          var data := g.read(e.path);
          assert e in g.entries;
          if data.Err? {
            return Err(data.error);
          }
          var got := cas.Put(data.value);
          if got.Err? || got.value != e.hash {
            return Err(if got.Err? then got.error else Invalid);
          }
        }
      }
      var t := SortBy(g.entries, Restores.EntryPath);
      SortBySorts(g.entries, Restores.EntryPath);
      forall e | e in t && e.hash != []
        ensures e.hash in cas.blobs
      {
        assert e in multiset(t) && e in multiset(g.entries);
      }
      return Ok(t);
    }

    /** Stores an optional disk. */
    method PutDisk(disk: Option<Bytes>) returns (r: Result<Hash>)
      requires Sound(cas.blobs)
      modifies cas
      ensures Sound(cas.blobs) && Grows(old(cas.blobs), cas.blobs)
      ensures r.Ok? && disk.None? ==> r.value == []
      ensures r.Ok? && disk.Some? ==> r.value == ImageHash(disk.value) && ImageClosed(cas.blobs, r.value)
      ensures r.Err? ==> r.error.Fault?
    {
      if disk.None? {
        return Ok([]);
      }
      WholeCovers(disk.value);
      r := Chunker.PutWhole(cas, disk.value, Whole(disk.value));
      if r.Ok? {
        HoldsClosed(cas.blobs, disk.value);
      }
    }

    /** Stores the memory of a snapshot, over the head's image when it is a diff. */
    method PutMemory(pic: Picture, head: Hash, ghost base: Bytes) returns (r: Result<Hash>)
      requires Sound(cas.blobs) && HolesZero(pic.file, pic.spans)
      requires pic.diff ==> head == ImageHash(base) && Holds(cas.blobs, base)
      modifies cas
      ensures Sound(cas.blobs) && Grows(old(cas.blobs), cas.blobs)
      ensures r.Ok? ==> r.value == ImageHash(if pic.diff then Overlay(pic.file, pic.spans, Some(base)) else pic.file)
      ensures r.Ok? ==> ImageClosed(cas.blobs, r.value)
      ensures r.Err? ==> r.error.Fault?
    {
      if pic.diff {
        r := Chunker.PutChunkedOverlay(cas, pic.file, pic.spans, head, base);
        if r.Ok? {
          HoldsClosed(cas.blobs, Overlay(pic.file, pic.spans, Some(base)));
        }
      } else {
        r := Chunker.PutWhole(cas, pic.file, pic.spans);
        if r.Ok? {
          HoldsClosed(cas.blobs, pic.file);
        }
      }
    }

    /** Fills in the machine image of a checkpoint; what it names is in the store before it is named. */
    method CaptureMachine(c: Checkpoint, pic: Picture, head: Hash, ghost base: Bytes) returns (r: Result<Checkpoint>)
      requires Sound(cas.blobs) && HolesZero(pic.file, pic.spans) && TreeClosed(cas.blobs, c.tree)
      requires pic.diff ==> head == ImageHash(base) && Holds(cas.blobs, base)
      modifies cas
      ensures Sound(cas.blobs) && Grows(old(cas.blobs), cas.blobs)
      ensures r.Ok? ==> Closed(cas.blobs, r.value) && r.value.HasMemory()
      ensures r.Ok? ==> r.value.(mem := c.mem, state := c.state, disk := c.disk, base := c.base) == c
      ensures r.Ok? ==> r.value.mem == ImageHash(if pic.diff then Overlay(pic.file, pic.spans, Some(base)) else pic.file)
      ensures r.Ok? ==> r.value.state == HashOf(pic.state)
      ensures r.Ok? ==> r.value.disk == if pic.disk.Some? then ImageHash(pic.disk.value) else []
      ensures r.Ok? ==> r.value.base == if pic.lower.Some? then ImageHash(pic.lower.value) else []
      ensures r.Err? ==> r.error.Fault?
    {
      var mem := PutMemory(pic, head, base);
      if mem.Err? {
        return Err(mem.error);
      }
      ghost var s1 := cas.blobs;
      var state := cas.PutFile(pic.state, pic.state);
      if state.Err? {
        return Err(state.error);
      }
      ghost var s2 := cas.blobs;
      var disk := PutDisk(pic.disk);
      if disk.Err? {
        return Err(disk.error);
      }
      ghost var s3 := cas.blobs;
      var lower := PutDisk(pic.lower);
      if lower.Err? {
        return Err(lower.error);
      }
      var filled := c.(mem := mem.value, state := state.value, disk := disk.value, base := lower.value);
      CapturedClosed(old(cas.blobs), s1, s2, s3, cas.blobs, filled);
      return Ok(filled);
    }

    /** Reads the working tree and stores it with every file. */
    method TakeTree(source: Source) returns (r: Result<Hash>)
      requires Sound(cas.blobs) && source.Valid()
      modifies cas
      ensures Sound(cas.blobs) && Grows(old(cas.blobs), cas.blobs)
      ensures r.Ok? ==> TreeClosed(cas.blobs, r.value) && TreeTaken(cas.blobs, r.value, source)
      ensures r.Err? ==> r.error.Fault? || !source.Steady()
    {
      var t: Result<Tree>;
      match source {
        case FromGuest(g) => t := GuestTree(g);
        case FromHost(fs, walk, mode) => t := Restores.Snapshot(fs, walk, mode, cas);
      }
      if t.Err? {
        return Err(t.error);
      }
      ghost var before := cas.blobs;
      r := cas.Put(EncodeTree(t.value));
      if r.Ok? {
        assert cas.blobs[r.value] == EncodeTree(t.value);
        if source.FromHost? {
          Restores.MatchesGrows(source.fs, t.value, before, cas.blobs);
        }
      }
    }

    /** The tree of the head, or none if it cannot be read. */
    method PriorTree(head: Id) returns (prior: Option<Tree>)
      requires Sound(cas.blobs)
      ensures PriorOf(cas.blobs, checkpoints, head, prior)
      ensures head != [] && head in checkpoints && TreeClosed(cas.blobs, checkpoints[head].tree) ==> prior.Some? || FAULTY
    {
      if head == [] || head !in checkpoints {
        return None;
      }
      var b := cas.Get(checkpoints[head].tree);
      return if b.Ok? then DecodeTree(b.value) else None;
    }

    /** Compares the tree just taken with the head's. */
    method CountStep(c: Checkpoint, prior: Option<Tree>) returns (c': Checkpoint)
      requires TreeClosed(cas.blobs, c.tree)
      ensures c' == c.(added := c'.added, modified := c'.modified, deleted := c'.deleted)
      ensures ChangesTaken(cas.blobs, c', prior)
    {
      var added, modified, deleted := CountChanges(prior, DecodeTree(cas.blobs[c.tree]).value);
      c' := c.(added := added, modified := modified, deleted := deleted);
    }

    /** The blobs of a checkpoint on top of the sandbox's head; a step without a snapshot is files only. */
    method Gather(s: Sandbox, id: Id, now: int, source: Source,
                  pic: Option<Picture>, head: Hash, ghost base: Bytes) returns (r: Result<Checkpoint>, prior: Option<Tree>)
      requires Sound(cas.blobs) && source.Valid()
      requires pic.Some? ==> HolesZero(pic.value.file, pic.value.spans)
      requires pic.Some? && pic.value.diff ==> head == ImageHash(base) && Holds(cas.blobs, base)
      modifies cas
      ensures Sound(cas.blobs) && Grows(old(cas.blobs), cas.blobs) && PriorOf(cas.blobs, checkpoints, s.head, prior)
      ensures r.Ok? ==> Closed(cas.blobs, r.value) && Step(r.value, s, id, now)
      ensures r.Ok? ==> StepTaken(cas.blobs, r.value, source, pic, base, prior)
      ensures r.Err? ==> r.error.Fault? || !source.Steady()
      ensures r.Ok? && HeadReadable(old(cas.blobs), checkpoints, s.head) ==> prior.Some? || FAULTY
    {
      prior := None;
      var tree := TakeTree(source);
      if tree.Err? {
        return Err(tree.error), None;
      }
      prior := PriorTree(s.head);
      var c := CountStep(Checkpoint(id, s.id, s.steps, s.head, tree.value, now, 0, 0, 0, [], [], [], []), prior);
      if pic.None? {
        return Ok(c), prior;
      }
      ghost var before := cas.blobs;
      r := CaptureMachine(c, pic.value, head, base);
      if r.Ok? {
        TreeTakenGrows(before, cas.blobs, c.tree, source);
      }
    }

    /** The same, with the head's image as the base of a diff. */
    method GatherNow(s: Sandbox, id: Id, now: int, source: Source, pic: Option<Picture>, ghost base: Bytes)
        returns (r: Result<Checkpoint>, prior: Option<Tree>)
      requires Valid() && source.Valid() && PictureOK(cas.blobs, checkpoints, s.head, pic, base)
      modifies this`states, this`events, cas
      ensures Valid() && Grows(old(cas.blobs), cas.blobs) && Extended(old(states), old(events), states, events)
      ensures PriorOf(cas.blobs, checkpoints, s.head, prior)
      ensures r.Ok? ==> Closed(cas.blobs, r.value) && Step(r.value, s, id, now)
      ensures r.Ok? ==> StepTaken(cas.blobs, r.value, source, pic, base, prior)
      ensures r.Err? ==> r.error.Fault? || !source.Steady()
      ensures r.Ok? && HeadReadable(old(cas.blobs), checkpoints, s.head) ==> prior.Some? || FAULTY
    {
      ghost var before := cas.blobs;
      var head := if s.head in checkpoints then checkpoints[s.head].mem else [];
      r, prior := Gather(s, id, now, source, pic, head, base);
      LogPuts(before);
    }

    /**
     Records the sandbox's state on top of its head.  `s` is the sandbox in memory with the step counted, or a
     new one; `prior` is the head's tree as far as it could be read.
     */
    method TakeCheckpoint(s: Sandbox, id: Id, now: int, source: Source,
                          pic: Option<Picture>, ghost base: Bytes) returns (r: Result<Checkpoint>, prior: Option<Tree>)
      requires Valid() && source.Valid() && Ready(Now(), s, id, now)
      requires PictureOK(cas.blobs, checkpoints, s.head, pic, base)
      modifies this`checkpoints, this`states, this`events, cas
      ensures Valid() && Grows(old(cas.blobs), cas.blobs) && Extended(old(states), old(events), states, events)
      ensures PriorOf(cas.blobs, old(checkpoints), s.head, prior)
      ensures r.Err? ==> checkpoints == old(checkpoints)
      ensures r.Ok? ==> checkpoints == old(checkpoints)[id := r.value] && Step(r.value, s, id, now)
      ensures r.Ok? ==> Closed(cas.blobs, r.value) && StepTaken(cas.blobs, r.value, source, pic, base, prior)
      ensures r.Err? ==> r.error.Fault? || !source.Steady()
      ensures r.Ok? && s.head != [] && s.head in old(checkpoints) ==> prior.Some? || FAULTY
    {
      r, prior := GatherNow(s, id, now, source, pic, base);
      if r.Err? {
        return;
      }
      var ok := SaveStep(s, r.value);
      if !ok {
        r := Err(Fault);
      }
    }

    /** Makes a sandbox with an initial checkpoint, so that it always has a root. */
    method Create(sid: Id, id: Id, now: int, source: Source) returns (r: Result<Sandbox>)
      requires Valid() && source.Valid() && Unused(Now(), id) && NewSandbox(Now(), Sandbox(sid, [], [], 0))
      modifies this, cas
      ensures Valid() && Grows(old(cas.blobs), cas.blobs) && Extended(old(states), old(events), states, events)
      ensures Advanced(old(checkpoints), checkpoints, Sandbox(sid, [], [], 0), id, now)
      ensures id in checkpoints ==> StepTaken(cas.blobs, checkpoints[id], source, None, [], None)
      ensures r.Ok? ==> id in checkpoints && r.value == Sandbox(sid, id, [], 0) && Loaded(Now(), r.value)
      ensures sandboxes == if r.Ok? then old(sandboxes)[sid := r.value] else old(sandboxes)
      ensures r.Err? ==> r.error.Fault? || !source.Steady()
    {
      var c, saved, prior := RecordStep(Sandbox(sid, [], [], 0), id, now, source, None, []);
      assert old(sandboxes) - {sid} == old(sandboxes);
      return if c.Err? then Err(c.error) else if saved then Ok(Sandbox(sid, id, [], 0)) else Err(Fault);
    }

    /** Takes a checkpoint of a sandbox whose step is counted, or of a new one, then moves its head there and saves it. */
    method RecordStep(s: Sandbox, id: Id, now: int, source: Source,
                      pic: Option<Picture>, ghost base: Bytes) returns (c: Result<Checkpoint>, saved: bool, prior: Option<Tree>)
      requires Valid() && source.Valid() && Ready(Now(), s, id, now)
      requires PictureOK(cas.blobs, checkpoints, s.head, pic, base)
      modifies this, cas
      ensures Valid() && Grows(old(cas.blobs), cas.blobs) && Extended(old(states), old(events), states, events)
      ensures PriorOf(cas.blobs, old(checkpoints), s.head, prior)
      ensures c.Err? ==> checkpoints == old(checkpoints) && sandboxes == old(sandboxes) && !saved
      ensures c.Ok? ==> checkpoints == old(checkpoints)[id := c.value] && Step(c.value, s, id, now)
      ensures c.Ok? ==> StepTaken(cas.blobs, c.value, source, pic, base, prior)
      ensures saved ==> sandboxes == old(sandboxes)[s.id := s.(head := id)]
      ensures !saved ==> sandboxes == old(sandboxes) || sandboxes == old(sandboxes) - {s.id}
      ensures (c.Err? ==> c.error.Fault? || !source.Steady()) && (c.Ok? ==> saved || FAULTY)
      ensures c.Ok? && s.head != [] && s.head in old(checkpoints) ==> prior.Some? || FAULTY
    {
      ghost var before := Now();
      c, prior := TakeCheckpoint(s, id, now, source, pic, base);
      saved := false;
      if c.Ok? {
        MayMove(before, Now(), s, c.value);
        saved := SaveSandbox(s.(head := id));
      }
    }

    /**
     Runs a command in a loaded sandbox and records the result: the tree found, the snapshot's images and the
     changes since the head.  Whatever fails, at most one checkpoint on top of
     the head has been added, and the record on disk moves on only when everything is saved; a save that fails
     may tear it.  The sandbox in memory may be ahead of it then: its step is counted once the command has run,
     and its head moves once the checkpoint is there.
     */
    method Run(s: Sandbox, id: Id, now: int, source: Source,
               pic: Option<Picture>, ghost base: Bytes) returns (r: Result<Checkpoint>, s': Sandbox, prior: Option<Tree>)
      requires Valid() && source.Valid() && Loaded(Now(), s) && Unused(Now(), id) && ClockMoved(checkpoints, s.head, now)
      requires PictureOK(cas.blobs, checkpoints, s.head, pic, base)
      modifies this, cas
      ensures Valid() && Grows(old(cas.blobs), cas.blobs) && Extended(old(states), old(events), states, events)
      ensures Advanced(old(checkpoints), checkpoints, Stepped(s), id, now)
      ensures PriorOf(cas.blobs, old(checkpoints), s.head, prior)
      ensures id in checkpoints ==> StepTaken(cas.blobs, checkpoints[id], source, pic, base, prior)
      ensures r.Ok? ==> id in checkpoints && r.value == checkpoints[id] && s' == Stepped(s).(head := id)
      ensures r.Err? ==> s' == s || s' == Stepped(s) || (s' == Stepped(s).(head := id) && id in checkpoints)
      ensures r.Ok? ==> sandboxes == old(sandboxes)[s.id := s']
      ensures r.Err? ==> sandboxes == old(sandboxes) || sandboxes == old(sandboxes) - {s.id}
      ensures Loaded(Now(), s')
      ensures r.Err? ==> r.error.Fault? || !source.Steady()
      ensures r.Ok? && s.head != [] ==> prior.Some? || FAULTY
    {
      var failed := Fails();
      if failed {
        return Err(Fault), s, None;
      }
      var saved;
      r, saved, prior := RecordStep(Stepped(s), id, now, source, pic, base);
      s' := if r.Ok? then Stepped(s).(head := id) else Stepped(s);
      if r.Ok? && !saved {
        r := Err(Fault);
      }
    }

    /** Reassembling an image stores the all-zero chunks of its two chunk lengths, as far as that works. */
    method PutZeros(m: Manifest) returns (ok: bool)
      requires Sound(cas.blobs)
      modifies cas
      ensures Sound(cas.blobs) && Grows(old(cas.blobs), cas.blobs)
      ensures ok <==> Sane(m)
      ensures ok && !FAULTY ==> ZerosIn(cas.blobs, m)
    {
      if m.chunks == [] {
        return true;
      }
      var first, last := ChunkLen(m.size, 0), ChunkLen(m.size, |m.chunks| - 1);
      if first < 0 || last < 0 {
        return false;
      }
      var z := Chunker.ZeroHash(cas, first);
      var zl := Chunker.ZeroHash(cas, last);
      return true;
    }

    /** Reassembles images in turn. */
    method PutImages(images: seq<Hash>) returns (ok: bool)
      requires Sound(cas.blobs)
      modifies cas
      ensures Sound(cas.blobs) && Grows(old(cas.blobs), cas.blobs)
      ensures (forall h :: h in images ==> ImageSane(old(cas.blobs), h)) ==> ok || FAULTY
      ensures ok && !FAULTY ==>
                forall h :: h in images ==> ImageSane(cas.blobs, h) && ZerosIn(cas.blobs, DecodeManifest(cas.blobs[h]).value)
    {
      for i := 0 to |images|
        invariant Sound(cas.blobs) && Grows(old(cas.blobs), cas.blobs)
        invariant !FAULTY ==>
                    forall j :: 0 <= j < i ==> ImageSane(cas.blobs, images[j]) && ZerosIn(cas.blobs, DecodeManifest(cas.blobs[images[j]]).value)
      {
        assert images[i] in images;
        var m := Chunker.ReadManifest(cas, images[i]);
        if m.Err? {
          return false;
        }
        ok := PutZeros(m.value);
        if !ok {
          return false;
        }
      }
      return true;
    }

    /**
     Brings a machine up: warm, reassembling its images, when the checkpoint has memory and state; otherwise cold,
     which leaves the store alone.  `false` is any failure on the way.
     */
    method BringUp(c: Checkpoint) returns (ok: bool)
      requires Sound(cas.blobs)
      modifies cas
      ensures Sound(cas.blobs) && Grows(old(cas.blobs), cas.blobs)
      ensures AllSane(old(cas.blobs), c) ==> ok || FAULTY
      ensures ok && !FAULTY ==> BroughtUp(cas.blobs, c)
      ensures c.mem == [] || c.state == [] ==> cas.blobs == old(cas.blobs)
    {
      if c.HasMemory() {
        ok := PutImages(c.Images());
        if !ok {
          return false;
        }
      }
      var failed := Fails();
      ok := !failed;
    }

    /** The same, noted in the run. */
    method BringUpNow(c: Checkpoint) returns (ok: bool)
      requires Valid()
      modifies this`states, this`events, cas
      ensures Valid() && Grows(old(cas.blobs), cas.blobs) && Extended(old(states), old(events), states, events)
      ensures AllSane(old(cas.blobs), c) ==> ok || FAULTY
      ensures ok && !FAULTY ==> BroughtUp(cas.blobs, c)
    {
      ghost var before := cas.blobs;
      ok := BringUp(c);
      LogPuts(before);
    }

    /** Lays a checkpoint's files down in a working directory. */
    method RestoreFiles(c: Checkpoint, d: Restores.WorkDir, walk: seq<Bytes>) returns (ok: bool, ghost cleared: bool)
      requires Sound(cas.blobs) && TreeClosed(cas.blobs, c.tree) && Restores.WellFormed(TreeAt(cas.blobs, c))
      requires Restores.Nested(d.fs) && Restores.WalkOrder(walk, d.fs)
      modifies d
      ensures ok ==> LaidDown(old(d.fs), d.fs, TreeAt(cas.blobs, c), cas.blobs)
      ensures Restores.WalkFinds(walk, old(d.fs), TreeAt(cas.blobs, c)) && !FAULTY ==> cleared
      ensures ok && cleared ==> Restores.Unlisted(d.fs, TreeAt(cas.blobs, c)) == {}
      ensures cleared && Restores.AllPassable(old(d.fs), TreeAt(cas.blobs, c), cas.blobs, d.reachable) ==> ok || FAULTY
    {
      cleared := Restores.WalkFinds(walk, d.fs, TreeAt(cas.blobs, c)) && !FAULTY;
      var b := cas.Get(c.tree);
      if b.Err? {
        return false, cleared;
      }
      var r;
      r, cleared := Restores.Restore(d, DecodeTree(b.value).value, cas.blobs, walk);
      ok := r.Ok?;
    }

    /** Restores a checkpoint's files, then brings its machine up. */
    method Prepare(c: Checkpoint, d: Restores.WorkDir, walk: seq<Bytes>) returns (ok: bool)
      requires Valid() && TreeClosed(cas.blobs, c.tree) && Restores.WellFormed(TreeAt(cas.blobs, c))
      requires Restores.Nested(d.fs) && Restores.WalkOrder(walk, d.fs)
      modifies this`states, this`events, cas, d
      ensures Valid() && Grows(old(cas.blobs), cas.blobs) && Extended(old(states), old(events), states, events)
      ensures ok ==> LaidDown(old(d.fs), d.fs, TreeAt(old(cas.blobs), c), old(cas.blobs))
      ensures ok && !FAULTY ==> BroughtUp(cas.blobs, c)
      ensures Restorable(old(cas.blobs), c, old(d.fs), walk, d.reachable) ==> ok || FAULTY
    {
      ghost var cleared;
      ok, cleared := RestoreFiles(c, d, walk);
      if ok {
        ok := BringUpNow(c);
      }
    }

    /**
     Moves a loaded sandbox back to one of its own checkpoints, by id: its files are laid down, its machine is
     brought up, then the head moves; in memory it may move without being saved.
     */
    method Checkout(s: Sandbox, id: Id, d: Restores.WorkDir, walk: seq<Bytes>) returns (ok: bool, s': Sandbox)
      requires Valid() && Loaded(Now(), s) && Restores.Nested(d.fs) && Restores.WalkOrder(walk, d.fs)
      requires id in checkpoints ==> Restores.WellFormed(TreeAt(cas.blobs, checkpoints[id]))
      modifies this`sandboxes, this`states, this`events, cas, d
      ensures Valid() && Grows(old(cas.blobs), cas.blobs) && Extended(old(states), old(events), states, events)
      ensures id !in checkpoints || checkpoints[id].sandbox != s.id ==>
                !ok && s' == s && cas.blobs == old(cas.blobs) && d.fs == old(d.fs)
      ensures s' == s || s' == s.(head := id)
      ensures s' != s ==> LaidDown(old(d.fs), d.fs, TreeAt(old(cas.blobs), checkpoints[id]), old(cas.blobs))
      ensures s' != s && !FAULTY ==> BroughtUp(cas.blobs, checkpoints[id])
      ensures ok ==> s' == s.(head := id) && id in checkpoints && LaidDown(old(d.fs), d.fs, TreeAt(old(cas.blobs), checkpoints[id]), old(cas.blobs))
      ensures id in checkpoints && checkpoints[id].sandbox == s.id && Restorable(old(cas.blobs), checkpoints[id], old(d.fs), walk, d.reachable) ==>
                ok || FAULTY
      ensures ok ==> sandboxes == old(sandboxes)[s.id := s']
      ensures !ok ==> sandboxes == old(sandboxes) || (s' == s.(head := id) && sandboxes == old(sandboxes) - {s.id})
      ensures Loaded(Now(), s')
    {
      if id !in checkpoints || checkpoints[id].sandbox != s.id {
        return false, s;
      }
      ok := Prepare(checkpoints[id], d, walk);
      if !ok {
        return false, s;
      }
      s' := s.(head := id);
      ok := SaveSandbox(s');
    }

    /** Saves the root of a new sandbox, then the sandbox. */
    method SaveRoot(s: Sandbox, root: Checkpoint) returns (r: Result<Sandbox>)
      requires Valid() && NewSandbox(Now(), s) && Enabled(Now(), RepoStates.SaveCheckpoint(s, root))
      modifies this`sandboxes, this`checkpoints, this`states, this`events
      ensures Valid() && Extended(old(states), old(events), states, events)
      ensures checkpoints == old(checkpoints) || checkpoints == old(checkpoints)[root.id := root]
      ensures r.Ok? ==> checkpoints == old(checkpoints)[root.id := root] && r.value == s.(head := root.id)
      ensures sandboxes == if r.Ok? then old(sandboxes)[s.id := r.value] else old(sandboxes)
      ensures r.Err? ==> r.error.Fault?
    {
      ghost var before := Now();
      var ok := SaveStep(s, root);
      if !ok {
        return Err(Fault);
      }
      MayMove(before, Now(), s, root);
      ok := SaveSandbox(s.(head := root.id));
      return if ok then Ok(s.(head := root.id)) else Err(Fault);
    }

    /**
     A new sandbox whose root carries the source's tree and image, but not its base disk; its files are laid down
     in its own working directory.
     */
    method Fork(from: Id, sid: Id, id: Id, now: int, d: Restores.WorkDir, walk: seq<Bytes>) returns (r: Result<Sandbox>)
      requires Valid() && Unused(Now(), id) && NewSandbox(Now(), Sandbox(sid, [], from, 0))
      requires Restores.Nested(d.fs) && Restores.WalkOrder(walk, d.fs)
      requires from in checkpoints ==> Restores.WellFormed(TreeAt(cas.blobs, checkpoints[from]))
      modifies this`sandboxes, this`checkpoints, this`states, this`events, cas, d
      ensures Valid() && Grows(old(cas.blobs), cas.blobs) && Extended(old(states), old(events), states, events)
      ensures Advanced(old(checkpoints), checkpoints, Sandbox(sid, [], from, 0), id, now)
      ensures from !in old(checkpoints) ==> r.Err?
      ensures r.Err? && from in old(checkpoints) && !FAULTY ==> !Restorable(old(cas.blobs), old(checkpoints)[from], old(d.fs), walk, d.reachable)
      ensures sandboxes == if r.Ok? then old(sandboxes)[sid := r.value] else old(sandboxes)
      ensures r.Ok? ==> id in checkpoints && r.value == Sandbox(sid, id, from, 0) && Loaded(Now(), r.value)
      ensures r.Ok? ==> LaidDown(old(d.fs), d.fs, TreeAt(old(cas.blobs), old(checkpoints)[from]), old(cas.blobs))
      ensures r.Ok? && !FAULTY ==> BroughtUp(cas.blobs, old(checkpoints)[from])
      ensures id in checkpoints ==> from in old(checkpoints) && checkpoints[id] == old(checkpoints)[from].(
                id := id, sandbox := sid, number := 0, parent := [], created := now,
                added := 0, modified := 0, deleted := 0, base := [])
    {
      if from !in checkpoints {
        return Err(NotFound);
      }
      var ok := Prepare(checkpoints[from], d, walk);
      if !ok {
        return Err(Invalid);
      }
      r := SaveFork(from, sid, id, now);
    }

    /** The records of a fork. */
    method SaveFork(from: Id, sid: Id, id: Id, now: int) returns (r: Result<Sandbox>)
      requires Valid() && Unused(Now(), id) && NewSandbox(Now(), Sandbox(sid, [], from, 0)) && from in checkpoints
      modifies this`sandboxes, this`checkpoints, this`states, this`events
      ensures Valid() && Extended(old(states), old(events), states, events)
      ensures var root := old(checkpoints)[from].(id := id, sandbox := sid, number := 0, parent := [], created := now,
                            added := 0, modified := 0, deleted := 0, base := []);
              checkpoints == old(checkpoints)[id := root] || (r.Err? && checkpoints == old(checkpoints))
      ensures r.Ok? ==> r.value == Sandbox(sid, id, from, 0)
      ensures sandboxes == if r.Ok? then old(sandboxes)[sid := r.value] else old(sandboxes)
      ensures r.Err? ==> r.error.Fault?
    {
      var src := checkpoints[from];
      var root := Checkpoint(id, sid, 0, [], src.tree, now, 0, 0, 0, src.mem, src.state, src.disk, []);
      ForkClosed(cas.blobs, src, root);
      r := SaveRoot(Sandbox(sid, [], from, 0), root);
    }

    /** Follows parents from a checkpoint of the sandbox. */
    method Walk(head: Id, sid: Id) returns (r: Result<seq<Checkpoint>>)
      requires Lineage(checkpoints) && head in checkpoints && checkpoints[head].sandbox == sid
      ensures r.Err? ==> r.error.Fault? || (r.error.NotFound? && !NoneMissing(Now()))
      ensures r.Ok? ==> r.value != [] && Walked(r.value, checkpoints, head, sid, [])
    {
      var chain: seq<Checkpoint> := [];
      var id := head;
      while id != []
        invariant Walked(chain, checkpoints, head, sid, id)
        decreases if id in checkpoints then Older(checkpoints, id) else {}
      {
        var failed := Fails();
        if failed {
          return Err(Fault);
        }
        if id !in checkpoints {
          return Err(NotFound);
        }
        WalkOn(chain, checkpoints, head, sid, id);
        chain := chain + [checkpoints[id]];
        id := checkpoints[id].parent;
      }
      return Ok(chain);
    }

    /**
     The checkpoints from head back to root.  In every repository whose pulled records were honest the walk ends;
     it fails only at a record that is missing or a read that goes wrong, and creation times fall all along it.
     */
    method History(sid: Id) returns (r: Result<seq<Checkpoint>>)
      requires Valid() && HonestSoFar()
      ensures r.Err? ==> r.error.Fault? || (r.error.NotFound? && (sid !in sandboxes || !NoneMissing(Now())))
      ensures r.Ok? ==> sid in sandboxes && Chain(r.value, checkpoints) && r.value[0].id == sandboxes[sid].head
      ensures r.Ok? ==> r.value[|r.value| - 1].parent == []
      ensures r.Ok? ==> forall i :: 0 <= i < |r.value| ==> r.value[i].sandbox == sid
      ensures r.Ok? ==> Descending(r.value)
    {
      if sid !in sandboxes {
        return Err(NotFound);
      }
      ReachableInOrder(states, events, |events|);
      if sandboxes[sid].head !in checkpoints {
        return Err(NotFound);
      }
      r := Walk(sandboxes[sid].head, sid);
      if r.Ok? {
        AllDescends(r.value, checkpoints);
      }
    }
  }

  /** Creation times strictly fall, and so no checkpoint comes twice. */
  ghost predicate Descending(chain: seq<Checkpoint>) {
    forall i, j :: 0 <= i < j < |chain| ==> chain[j].created < chain[i].created && chain[j].id != chain[i].id
  }

  lemma AllDescends(chain: seq<Checkpoint>, cks: Records)
    requires Chain(chain, cks) && Lineage(cks)
    ensures Descending(chain)
  {
    forall i, j | 0 <= i < j < |chain|
      ensures chain[j].created < chain[i].created && chain[j].id != chain[i].id
    {
      ChainDescends(chain, cks, i, j);
    }
  }

  ghost function Older(cks: Records, id: Id): set<Id>
    requires id in cks
  {
    set x | x in cks && cks[x].created <= cks[id].created
  }

  /** The chain from `head` down to, but not including, `id`. */
  ghost predicate Walked(chain: seq<Checkpoint>, cks: Records, head: Id, sid: Id, id: Id) {
    && (chain == [] ==> id == head && id in cks && cks[id].sandbox == sid)
    && (chain != [] ==> Chain(chain, cks) && chain[0].id == head && chain[|chain| - 1].parent == id)
    && (forall i :: 0 <= i < |chain| ==> chain[i].sandbox == sid)
  }

  lemma WalkOn(chain: seq<Checkpoint>, cks: Records, head: Id, sid: Id, id: Id)
    requires Lineage(cks) && Walked(chain, cks, head, sid, id) && id in cks
    ensures Walked(chain + [cks[id]], cks, head, sid, cks[id].parent)
    ensures cks[id].parent in cks ==> Older(cks, cks[id].parent) < Older(cks, id)
  {
    if chain != [] {
      var last := chain[|chain| - 1];
      assert cks[last.id] == last && last.parent == id;
    }
    if cks[id].parent in cks {
      assert id in Older(cks, id) && id !in Older(cks, cks[id].parent);
    }
  }

  /** The tree a checkpoint names. */
  function TreeAt(s: Store, c: Checkpoint): Tree {
    if c.tree in s && DecodeTree(s[c.tree]).Some? then DecodeTree(s[c.tree]).value else []
  }

  /** A directory after a restore reported success: exactly the tree iff no kind had to change and nothing extra is left. */
  ghost predicate LaidDown(before: Restores.Files, after: Restores.Files, t: Tree, store: Store) {
    && Restores.BlobsPresent(t, store)
    && (Restores.Matches(after, t, store) <==> Restores.AllReplaceable(before, t) && Restores.Unlisted(after, t) == {})
  }

  /** Nothing but a fault stands in the way of restoring a checkpoint's files and bringing its machine up. */
  ghost predicate Restorable(store: Store, c: Checkpoint, fs: Restores.Files, walk: seq<Bytes>, reachable: Bytes -> bool) {
    && AllSane(store, c) && Restores.WalkFinds(walk, fs, TreeAt(store, c))
    && Restores.AllPassable(fs, TreeAt(store, c), store, reachable)
  }

  /** Every image was reassembled, zero chunks and all. */
  ghost predicate BroughtUp(s: Store, c: Checkpoint) {
    c.mem != [] && c.state != [] ==>
      forall h :: h in c.Images() ==> ImageSane(s, h) && ZerosIn(s, DecodeManifest(s[h]).value)
  }

  /** A step taken from the host and laid down again, over no change of kind, gives the files it was taken from. */
  lemma StepComesBack(store: Store, c: Checkpoint, source: Source, before: Restores.Files, after: Restores.Files)
    requires source.FromHost? && TreeTaken(store, c.tree, source)
    requires LaidDown(before, after, TreeAt(store, c), store) && Restores.Unlisted(after, TreeAt(store, c)) == {}
    ensures after == source.fs <==> Restores.AllReplaceable(before, TreeAt(store, c))
  {
  }

  /** The lengths a manifest gives make sense. */
  predicate Sane(m: Manifest) {
    m.chunks != [] ==> ChunkLen(m.size, 0) >= 0 && ChunkLen(m.size, |m.chunks| - 1) >= 0
  }

  predicate ZerosIn(s: Store, m: Manifest) {
    m.chunks != [] && Sane(m) ==> HashOf(Zeros(ChunkLen(m.size, 0))) in s && HashOf(Zeros(ChunkLen(m.size, |m.chunks| - 1))) in s
  }

  predicate ImageSane(s: Store, h: Hash) {
    h in s && DecodeManifest(s[h]).Some? && Sane(DecodeManifest(s[h]).value)
  }

  ghost predicate AllSane(s: Store, c: Checkpoint) {
    forall h :: h in c.Images() ==> ImageSane(s, h)
  }

  lemma ImageClosedGrows(s: Store, s': Store, h: Hash)
    requires ImageClosed(s, h) && Grows(s, s')
    ensures ImageClosed(s', h)
  {
  }

  /** The pieces of a capture, each in the store when it was named, are all there at the end. */
  lemma CapturedClosed(s0: Store, s1: Store, s2: Store, s3: Store, s4: Store, c: Checkpoint)
    requires Grows(s0, s1) && Grows(s1, s2) && Grows(s2, s3) && Grows(s3, s4)
    requires TreeClosed(s0, c.tree) && ImageClosed(s1, c.mem) && c.state in s2
    requires c.disk != [] ==> ImageClosed(s3, c.disk)
    requires c.base != [] ==> ImageClosed(s4, c.base)
    ensures Closed(s4, c)
  {
  }

  lemma ForkClosed(store: Store, src: Checkpoint, root: Checkpoint)
    requires Closed(store, src) && root.tree == src.tree
    requires root.mem == src.mem && root.state == src.state && root.disk == src.disk && root.base == []
    ensures Closed(store, root)
  {
  }
}
