/** Pushing histories to a remote object store and pulling checkpoints from it (internal/engine/sync.go). */
module Syncs {
  import opened Content
  import opened Blobs
  import opened Images
  import opened Closure
  import opened Repos
  import RepoStates
  import Chunker

  /** The objects under the key prefixes blobs/, checkpoints/ and sandboxes/. */
  datatype Remote = Remote(blobs: Store, checkpoints: map<Id, Bytes>, sandboxes: map<Id, Bytes>)

  /** Blobs sit under their own hashes, and every checkpoint object has all it refers to. */
  ghost predicate Safe(remote: Remote) {
    && Sound(remote.blobs)
    && forall id :: id in remote.checkpoints ==>
         && DecodeCheckpoint(remote.checkpoints[id]).Some?
         && Closed(remote.blobs, DecodeCheckpoint(remote.checkpoints[id]).value)
  }

  // ---------- several pushers at once ----------

  /** Where a push stands: `Walking(k)` has dealt with the first k references of its next checkpoint. */
  datatype Phase = Between | Walking(k: nat) | Uploading(k: nat) | Gone

  /** A push of `todo` from a local store. */
  datatype Pusher = Pusher(local: Store, todo: seq<Checkpoint>, phase: Phase)

  datatype World = World(remote: Remote, pushers: seq<Pusher>)

  datatype Event = Start(w: nat) | Check(w: nat) | Upload(w: nat) | Publish(w: nat) | Finish(w: nat, s: Id, b: Bytes) | Abort(w: nat)

  ghost predicate PusherOK(remote: Remote, p: Pusher) {
    && Sound(p.local) && (forall c :: c in p.todo ==> Closed(p.local, c))
    && (p.phase.Walking? || p.phase.Uploading? ==>
          && |p.todo| > 0 && Closed(p.local, p.todo[0])
          && var refs := Refs(p.local, p.todo[0]);
             && p.phase.k <= |refs| && (p.phase.Uploading? ==> p.phase.k < |refs|)
             && forall j :: 0 <= j < p.phase.k ==> refs[j] in remote.blobs)
  }

  ghost predicate Inv(w: World) {
    Safe(w.remote) && forall i :: 0 <= i < |w.pushers| ==> PusherOK(w.remote, w.pushers[i])
  }

  /** What a pusher checks before it walks a checkpoint: the tree and the manifests can be read. */
  ghost predicate Readable(local: Store, c: Checkpoint) {
    && c.tree in local && DecodeTree(local[c.tree]).Some?
    && forall h :: h in c.Images() ==> h in local && DecodeManifest(local[h]).Some?
  }

  /** The references of a checkpoint that can be read. */
  function RefsOf(s: Store, c: Checkpoint): seq<Hash> {
    if c.tree in s && DecodeTree(s[c.tree]).Some? then Refs(s, c) else []
  }

  ghost predicate Enabled(w: World, ev: Event) {
    && ev.w < |w.pushers|
    && var p := w.pushers[ev.w];
       match ev
       case Start(_) => p.phase.Between? && p.todo != [] && Readable(p.local, p.todo[0])
       case Check(_) => p.phase.Walking? && p.todo != [] && p.phase.k < |RefsOf(p.local, p.todo[0])|
       case Upload(_) =>
         && p.phase.Uploading? && p.todo != [] && p.phase.k < |RefsOf(p.local, p.todo[0])|
         && RefsOf(p.local, p.todo[0])[p.phase.k] in p.local
       case Publish(_) => p.phase.Walking? && p.todo != [] && p.phase.k == |RefsOf(p.local, p.todo[0])|
       case Finish(_, _, _) => p.phase.Between? && p.todo == []
       case Abort(_) => true
  }

  ghost function Apply(w: World, ev: Event): World
    requires Enabled(w, ev)
  {
    var i, p := ev.w, w.pushers[ev.w];
    match ev
    case Start(_) => w.(pushers := w.pushers[i := p.(phase := Walking(0))])
    case Check(_) =>
      var present := RefsOf(p.local, p.todo[0])[p.phase.k] in w.remote.blobs;
      w.(pushers := w.pushers[i := p.(phase := if present then Walking(p.phase.k + 1) else Uploading(p.phase.k))])
    case Upload(_) =>
      var h := RefsOf(p.local, p.todo[0])[p.phase.k];
      World(w.remote.(blobs := w.remote.blobs[h := p.local[h]]), w.pushers[i := p.(phase := Walking(p.phase.k + 1))])
    case Publish(_) =>
      World(w.remote.(checkpoints := w.remote.checkpoints[p.todo[0].id := EncodeCheckpoint(p.todo[0])]),
            w.pushers[i := p.(todo := p.todo[1..], phase := Between)])
    case Finish(_, s, b) => World(w.remote.(sandboxes := w.remote.sandboxes[s := b]), w.pushers[i := p.(phase := Gone)])
    case Abort(_) => w.(pushers := w.pushers[i := p.(phase := Gone)])
  }

  /** What the others wait for stays there while the remote's blobs only grow. */
  lemma OthersKept(remote: Remote, remote': Remote, p: Pusher)
    requires PusherOK(remote, p) && Grows(remote.blobs, remote'.blobs)
    ensures PusherOK(remote', p)
  {
  }

  /** Putting a blob under its own hash keeps the remote safe. */
  lemma SafePut(remote: Remote, b: Bytes)
    requires Safe(remote)
    ensures Safe(remote.(blobs := Add(remote.blobs, b))) && Grows(remote.blobs, Add(remote.blobs, b))
  {
  }

  lemma UploadKeeps(w: World, ev: Event)
    requires Inv(w) && Enabled(w, ev) && ev.Upload?
    ensures Safe(Apply(w, ev).remote) && Grows(w.remote.blobs, Apply(w, ev).remote.blobs)
    ensures PusherOK(Apply(w, ev).remote, Apply(w, ev).pushers[ev.w])
  {
    var p := w.pushers[ev.w];
    var h := Refs(p.local, p.todo[0])[p.phase.k];
    ClosedHasRefs(p.local, p.todo[0], h);
    assert HashOf(p.local[h]) == h;
    SafePut(w.remote, p.local[h]);
    var w' := Apply(w, ev);
    OthersKept(w.remote, w'.remote, p);
  }

  lemma PublishKeeps(w: World, ev: Event)
    requires Inv(w) && Enabled(w, ev) && ev.Publish?
    ensures Safe(Apply(w, ev).remote) && w.remote.blobs == Apply(w, ev).remote.blobs
    ensures PusherOK(Apply(w, ev).remote, Apply(w, ev).pushers[ev.w])
  {
    var p := w.pushers[ev.w];
    RefsClose(p.local, w.remote.blobs, p.todo[0]);
  }

  lemma FinishKeeps(w: World, ev: Event)
    requires Inv(w) && Enabled(w, ev) && ev.Finish?
    ensures Safe(Apply(w, ev).remote) && w.remote.blobs == Apply(w, ev).remote.blobs
    ensures PusherOK(Apply(w, ev).remote, Apply(w, ev).pushers[ev.w])
  {
  }

  lemma LocalKeeps(w: World, ev: Event)
    requires Inv(w) && Enabled(w, ev) && (ev.Start? || ev.Check? || ev.Abort?)
    ensures Apply(w, ev).remote == w.remote && PusherOK(w.remote, Apply(w, ev).pushers[ev.w])
  {
  }

  lemma StepKeeps(w: World, ev: Event)
    requires Inv(w) && Enabled(w, ev)
    ensures Inv(Apply(w, ev))
  {
    var w' := Apply(w, ev);
    match ev {
      case Upload(_) => UploadKeeps(w, ev);
      case Publish(_) => PublishKeeps(w, ev);
      case Finish(_, _, _) => FinishKeeps(w, ev);
      case _ => LocalKeeps(w, ev);
    }
    forall i | 0 <= i < |w'.pushers|
      ensures PusherOK(w'.remote, w'.pushers[i])
    {
      if i != ev.w {
        OthersKept(w.remote, w'.remote, w.pushers[i]);
      }
    }
  }

  ghost predicate Run(ws: seq<World>, evs: seq<Event>) {
    && |ws| == |evs| + 1
    && forall i :: 0 <= i < |evs| ==> Enabled(ws[i], evs[i]) && ws[i + 1] == Apply(ws[i], evs[i])
  }

  lemma {:induction false} InvAlways(ws: seq<World>, evs: seq<Event>, i: nat)
    requires Run(ws, evs) && Inv(ws[0]) && i < |ws|
    ensures Inv(ws[i])
  {
    if i > 0 {
      InvAlways(ws, evs, i - 1);
      StepKeeps(ws[i - 1], evs[i - 1]);
    }
  }

  /** A push about to begin, from a sound store that closes every checkpoint it will send. */
  ghost predicate Ready(p: Pusher) {
    p.phase.Between? && Sound(p.local) && forall c :: c in p.todo ==> Closed(p.local, c)
  }

  /**
   At every point of every interleaving of any number of pushes to a safe remote, aborted ones included, each
   checkpoint object in the remote has everything it refers to.
   */
  lemma PrefixSafety(ws: seq<World>, evs: seq<Event>, i: nat, id: Id)
    requires Run(ws, evs) && Safe(ws[0].remote) && i < |ws|
    requires forall j :: 0 <= j < |ws[0].pushers| ==> Ready(ws[0].pushers[j])
    ensures Sound(ws[i].remote.blobs)
    ensures id in ws[i].remote.checkpoints ==>
              && DecodeCheckpoint(ws[i].remote.checkpoints[id]).Some?
              && Closed(ws[i].remote.blobs, DecodeCheckpoint(ws[i].remote.checkpoints[id]).value)
  {
    InvAlways(ws, evs, i);
  }

  /** What a pusher has dealt with is in the remote, and the rest is still to do. */
  ghost predicate SentBy(p0: Pusher, p: Pusher, remote: Remote) {
    && |p.todo| <= |p0.todo| && p.todo == p0.todo[|p0.todo| - |p.todo|..]
    && forall j :: 0 <= j < |p0.todo| - |p.todo| ==> p0.todo[j].id in remote.checkpoints
  }

  /** A record is one the remote had at the start, or that of a checkpoint some pusher set out with. */
  ghost predicate Sent(w0: World, id: Id, record: Bytes) {
    || (id in w0.remote.checkpoints && w0.remote.checkpoints[id] == record)
    || exists k, j :: 0 <= k < |w0.pushers| && 0 <= j < |w0.pushers[k].todo| && w0.pushers[k].todo[j].id == id
                      && record == EncodeCheckpoint(w0.pushers[k].todo[j])
  }

  ghost predicate AllSent(w0: World, w: World) {
    && |w.pushers| == |w0.pushers|
    && (forall k :: 0 <= k < |w.pushers| ==> SentBy(w0.pushers[k], w.pushers[k], w.remote))
    && (forall id :: id in w.remote.checkpoints ==> Sent(w0, id, w.remote.checkpoints[id]))
  }

  lemma PublishSends(w0: World, w: World, ev: Event)
    requires AllSent(w0, w) && Enabled(w, ev) && ev.Publish?
    ensures SentBy(w0.pushers[ev.w], Apply(w, ev).pushers[ev.w], Apply(w, ev).remote)
    ensures Sent(w0, w.pushers[ev.w].todo[0].id, EncodeCheckpoint(w.pushers[ev.w].todo[0]))
  {
    var p0, p := w0.pushers[ev.w], w.pushers[ev.w];
    var n := |p0.todo| - |p.todo|;
    assert p.todo[0] == p0.todo[n] && p.todo[1..] == p0.todo[n + 1..];
  }

  lemma StepSends(w0: World, w: World, ev: Event)
    requires AllSent(w0, w) && Enabled(w, ev)
    ensures AllSent(w0, Apply(w, ev))
  {
    var w' := Apply(w, ev);
    if ev.Publish? {
      PublishSends(w0, w, ev);
    }
    forall k | 0 <= k < |w'.pushers|
      ensures SentBy(w0.pushers[k], w'.pushers[k], w'.remote)
    {
      assert SentBy(w0.pushers[k], w.pushers[k], w.remote);
    }
  }

  lemma {:induction false} SentAlways(ws: seq<World>, evs: seq<Event>, i: nat)
    requires Run(ws, evs) && i < |ws|
    ensures AllSent(ws[0], ws[i])
  {
    if i > 0 {
      SentAlways(ws, evs, i - 1);
      StepSends(ws[0], ws[i - 1], evs[i - 1]);
    }
  }

  /**
   However pushes interleave, one that finishes has all its checkpoints and its sandbox in the remote, and no
   record there is anything but what was there before or what some push set out to send.
   */
  lemma FinishedIsThere(ws: seq<World>, evs: seq<Event>, i: nat, w: nat, s: Id, b: Bytes)
    requires Run(ws, evs) && i < |evs| && evs[i] == Finish(w, s, b)
    ensures s in ws[i + 1].remote.sandboxes && ws[i + 1].remote.sandboxes[s] == b
    ensures w < |ws[0].pushers| && forall j :: 0 <= j < |ws[0].pushers[w].todo| ==> ws[0].pushers[w].todo[j].id in ws[i + 1].remote.checkpoints
    ensures var records := ws[i + 1].remote.checkpoints; forall id :: id in records ==> Sent(ws[0], id, records[id])
  {
    SentAlways(ws, evs, i);
    SentAlways(ws, evs, i + 1);
    assert Enabled(ws[i], evs[i]) && SentBy(ws[0].pushers[w], ws[i].pushers[w], ws[i].remote);
  }

  // ---------- one push, with its counts ----------

  datatype Stats = Stats(checkpoints: nat, blobs: nat, skipped: nat)

  class ObjectStore {
    var objects: Remote
  }

  ghost function Names(hs: seq<Hash>): set<Hash> {
    if hs == [] then {} else Names(hs[..|hs| - 1]) + {hs[|hs| - 1]}
  }

  lemma {:induction false} NamesIn(hs: seq<Hash>, h: Hash)
    ensures h in hs <==> h in Names(hs)
  {
    if hs != [] {
      NamesIn(hs[..|hs| - 1], h);
      assert hs == hs[..|hs| - 1] + [hs[|hs| - 1]];
    }
  }

  lemma {:induction false} NamesConcat(a: seq<Hash>, b: seq<Hash>)
    ensures Names(a + b) == Names(a) + Names(b)
    decreases |b|
  {
    if b == [] {
      assert a + b == a;
    } else {
      var rest := b[..|b| - 1];
      assert (a + b)[..|a + b| - 1] == a + rest;
      NamesConcat(a, rest);
    }
  }

  /** The references of a history, in the order they are walked. */
  function AllRefs(s: Store, hist: seq<Checkpoint>): seq<Hash> {
    if hist == [] then [] else AllRefs(s, hist[..|hist| - 1]) + RefsOf(s, hist[|hist| - 1])
  }

  lemma AllRefsNext(s: Store, hist: seq<Checkpoint>, i: nat)
    requires i < |hist|
    ensures AllRefs(s, hist[..i + 1]) == AllRefs(s, hist[..i]) + RefsOf(s, hist[i])
  {
    assert hist[..i + 1][..i] == hist[..i];
  }

  /** All that a push has changed: blobs of the local store are added, and records under the given ids written. */
  ghost predicate OnlyAdds(local: Store, before: Remote, after: Remote, ids: set<Id>) {
    && Grows(before.blobs, after.blobs)
    && (forall h :: h in after.blobs && h !in before.blobs ==> h in local && after.blobs[h] == local[h])
    && after.checkpoints - ids == before.checkpoints - ids && after.sandboxes == before.sandboxes
  }

  lemma AddsMore(local: Store, r0: Remote, r1: Remote, r2: Remote, ids: set<Id>, more: set<Id>)
    requires OnlyAdds(local, r0, r1, ids) && OnlyAdds(local, r1, r2, more)
    ensures OnlyAdds(local, r0, r2, ids + more)
  {
    forall id | id !in ids + more
      ensures id in r2.checkpoints <==> id in r0.checkpoints
      ensures id in r0.checkpoints && id in r2.checkpoints ==> r2.checkpoints[id] == r0.checkpoints[id]
    {
      SameOutside(r0.checkpoints, r1.checkpoints, ids, id);
      SameOutside(r1.checkpoints, r2.checkpoints, more, id);
    }
  }

  lemma SameOutside(a: map<Id, Bytes>, b: map<Id, Bytes>, ids: set<Id>, id: Id)
    requires a - ids == b - ids && id !in ids
    ensures (id in a <==> id in b) && (id in a && id in b ==> a[id] == b[id])
  {
    assert id in a <==> id in a - ids;
    assert id in b <==> id in b - ids;
    if id in a {
      assert (a - ids)[id] == a[id] && (b - ids)[id] == b[id];
    }
  }

  /** Uploads a blob unless the remote has it. */
  method PushBlob(local: Store, sha: Hash, store: ObjectStore, st: Stats) returns (r: Result<Stats>)
    requires Sound(local)
    modifies store
    ensures old(Safe(store.objects)) ==> Safe(store.objects)
    ensures r.Err? ==> store.objects == old(store.objects)
    ensures r.Err? ==> r.error.Fault? || (r.error.NotFound? && sha !in local)
    ensures store.objects.checkpoints == old(store.objects).checkpoints
    ensures OnlyAdds(local, old(store.objects), store.objects, {})
    ensures r.Ok? ==> store.objects.blobs.Keys == old(store.objects).blobs.Keys + {sha}
    ensures r.Ok? && sha in old(store.objects).blobs ==> r.value == st.(skipped := st.skipped + 1)
    ensures r.Ok? && sha !in old(store.objects).blobs ==> r.value == st.(blobs := st.blobs + 1)
  {
    var failed := Fails();
    if failed {
      return Err(Fault);
    }
    if sha in store.objects.blobs {
      return Ok(st.(skipped := st.skipped + 1));
    }
    if sha !in local {
      return Err(NotFound);
    }
    failed := Fails();
    if failed {
      return Err(Fault);
    }
    if Safe(store.objects) {
      assert HashOf(local[sha]) == sha;
      SafePut(store.objects, local[sha]);
    }
    store.objects := store.objects.(blobs := store.objects.blobs[sha := local[sha]]);
    return Ok(st.(blobs := st.blobs + 1));
  }

  /** How many of the references, walked in order, the remote lacks when it comes to them. */
  ghost function Lacking(walked: seq<Hash>, had: set<Hash>): nat {
    if walked == [] then 0 else
    var before, h := walked[..|walked| - 1], walked[|walked| - 1];
    Lacking(before, had) + if h in had + Names(before) then 0 else 1
  }

  /** They are the distinct names among them it did not have at the start. */
  lemma {:induction false} LackingIsDistinct(walked: seq<Hash>, had: set<Hash>)
    ensures Lacking(walked, had) == |Names(walked) - had|
  {
    if walked != [] {
      var before, h := walked[..|walked| - 1], walked[|walked| - 1];
      LackingIsDistinct(before, had);
      if h in had + Names(before) {
        assert Names(walked) - had == Names(before) - had;
      } else {
        assert Names(walked) - had == (Names(before) - had) + {h};
      }
    } else {
      assert Names(walked) - had == {};
    }
  }

  lemma {:induction false} LackingConcat(a: seq<Hash>, b: seq<Hash>, had: set<Hash>)
    ensures Lacking(a + b, had) == Lacking(a, had) + Lacking(b, had + Names(a))
    decreases |b|
  {
    if b == [] {
      assert a + b == a;
    } else {
      var rest := b[..|b| - 1];
      assert (a + b)[..|a + b| - 1] == a + rest;
      LackingConcat(a, rest, had);
      NamesConcat(a, rest);
      assert had + Names(a + rest) == had + Names(a) + Names(rest);
    }
  }

  /** The counts after walking some references, when the remote had the blobs `had` before. */
  ghost predicate Counted(st0: Stats, st: Stats, walked: seq<Hash>, had: set<Hash>) {
    && st.blobs + st.skipped == st0.blobs + st0.skipped + |walked|
    && st.blobs == st0.blobs + Lacking(walked, had)
  }

  lemma CountOne(st0: Stats, st: Stats, refs: seq<Hash>, i: nat, had: set<Hash>, st': Stats)
    requires i < |refs| && Counted(st0, st, refs[..i], had)
    requires st' == if refs[i] in had + Names(refs[..i]) then st.(skipped := st.skipped + 1) else st.(blobs := st.blobs + 1)
    ensures Names(refs[..i + 1]) == Names(refs[..i]) + {refs[i]} && Counted(st0, st', refs[..i + 1], had)
  {
    assert refs[..i + 1][..i] == refs[..i];
  }

  lemma CountMore(st0: Stats, st: Stats, walked: seq<Hash>, had: set<Hash>, refs: seq<Hash>, st': Stats)
    requires Counted(st0, st, walked, had) && Counted(st, st', refs, had + Names(walked))
    ensures Names(walked + refs) == Names(walked) + Names(refs) && Counted(st0, st', walked + refs, had)
  {
    NamesConcat(walked, refs);
    LackingConcat(walked, refs, had);
  }

  /** Walks a list of references. */
  method PushBlobs(local: Store, refs: seq<Hash>, store: ObjectStore, st: Stats) returns (r: Result<Stats>)
    requires Sound(local)
    modifies store
    ensures old(Safe(store.objects)) ==> Safe(store.objects)
    ensures store.objects.checkpoints == old(store.objects).checkpoints
    ensures OnlyAdds(local, old(store.objects), store.objects, {})
    ensures r.Err? ==> r.error.Fault? || (r.error.NotFound? && exists h :: h in refs && h !in local)
    ensures r.Ok? ==> store.objects.blobs.Keys == old(store.objects).blobs.Keys + Names(refs)
    ensures r.Ok? ==> r.value.checkpoints == st.checkpoints
    ensures r.Ok? ==> Counted(st, r.value, refs, old(store.objects).blobs.Keys)
  {
    ghost var had := store.objects.blobs.Keys;
    var now := st;
    for i := 0 to |refs|
      invariant old(Safe(store.objects)) ==> Safe(store.objects)
      invariant store.objects.checkpoints == old(store.objects).checkpoints
      invariant OnlyAdds(local, old(store.objects), store.objects, {})
      invariant store.objects.blobs.Keys == had + Names(refs[..i])
      invariant now.checkpoints == st.checkpoints && Counted(st, now, refs[..i], had)
    {
      ghost var before := store.objects;
      var one := PushBlob(local, refs[i], store, now);
      AddsMore(local, old(store.objects), before, store.objects, {}, {});
      if one.Err? {
        assert refs[i] in refs;
        return one;
      }
      CountOne(st, now, refs, i, had, one.value);
      now := one.value;
    }
    assert refs[..|refs|] == refs;
    return Ok(now);
  }

  /** Whether every image's manifest can be read. */
  method ImagesReadable(local: Store, images: seq<Hash>) returns (ok: bool)
    ensures ok <==> forall h :: h in images ==> h in local && DecodeManifest(local[h]).Some?
  {
    for i := 0 to |images|
      invariant forall j :: 0 <= j < i ==> images[j] in local && DecodeManifest(local[images[j]]).Some?
    {
      if images[i] !in local || DecodeManifest(local[images[i]]).None? {
        assert images[i] in images;
        return false;
      }
    }
    return true;
  }

  lemma PublishAdds(local: Store, before: Remote, now: Remote, c: Checkpoint)
    requires OnlyAdds(local, before, now, {})
    ensures OnlyAdds(local, before, now, {c.id})
    ensures OnlyAdds(local, before, now.(checkpoints := now.checkpoints[c.id := EncodeCheckpoint(c)]), {c.id})
  {
    assert now.checkpoints == now.checkpoints - {} == before.checkpoints - {} == before.checkpoints;
  }

  lemma PublishSafe(local: Store, remote: Remote, c: Checkpoint)
    requires Sound(local) && Safe(remote) && Closed(local, c) && Names(Refs(local, c)) <= remote.blobs.Keys
    ensures Safe(remote.(checkpoints := remote.checkpoints[c.id := EncodeCheckpoint(c)]))
  {
    forall h | h in Refs(local, c) ensures h in remote.blobs { NamesIn(Refs(local, c), h); }
    RefsClose(local, remote.blobs, c);
  }

  /** The blobs of a checkpoint first, the checkpoint last. */
  method PushCheckpoint(local: Store, c: Checkpoint, store: ObjectStore, st: Stats) returns (r: Result<Stats>)
    requires Sound(local)
    modifies store
    ensures old(Safe(store.objects)) && Closed(local, c) ==> Safe(store.objects)
    ensures r.Ok? ==> store.objects.blobs.Keys == old(store.objects).blobs.Keys + Names(RefsOf(local, c))
    ensures store.objects.checkpoints
         == if r.Ok? then old(store.objects).checkpoints[c.id := EncodeCheckpoint(c)] else old(store.objects).checkpoints
    ensures OnlyAdds(local, old(store.objects), store.objects, {c.id})
    ensures r.Err? && Closed(local, c) ==> r.error.Fault?
    ensures r.Ok? ==> r.value.checkpoints == st.checkpoints + 1
    ensures r.Ok? ==> Counted(st, r.value, RefsOf(local, c), old(store.objects).blobs.Keys)
  {
    if c.tree !in local || DecodeTree(local[c.tree]).None? {
      return Err(if c.tree !in local then NotFound else Invalid);
    }
    var readable := ImagesReadable(local, c.Images());
    if !readable {
      return Err(Invalid);
    }
    ghost var before := store.objects;
    var now := PushBlobs(local, Refs(local, c), store, st);
    PublishAdds(local, before, store.objects, c);
    if now.Err? {
      if Closed(local, c) {
        forall h | h in Refs(local, c) ensures h in local { ClosedHasRefs(local, c, h); }
      }
      return now;
    }
    var failed := Fails();
    if failed {
      return Err(Fault);
    }
    if Safe(store.objects) && Closed(local, c) {
      PublishSafe(local, store.objects, c);
    }
    store.objects := store.objects.(checkpoints := store.objects.checkpoints[c.id := EncodeCheckpoint(c)]);
    return Ok(now.value.(checkpoints := now.value.checkpoints + 1));
  }

  ghost predicate HistoryClosed(local: Store, hist: seq<Checkpoint>) {
    forall i :: 0 <= i < |hist| ==> Closed(local, hist[i])
  }

  ghost function Ids(hist: seq<Checkpoint>): set<Id> {
    set k | 0 <= k < |hist| :: hist[k].id
  }

  ghost predicate DistinctIds(hist: seq<Checkpoint>) {
    forall i, j :: 0 <= i < j < |hist| ==> hist[i].id != hist[j].id
  }

  /** The remote has the record of every checkpoint of the history. */
  ghost predicate Published(remote: Remote, hist: seq<Checkpoint>) {
    forall k :: 0 <= k < |hist| ==>
      hist[k].id in remote.checkpoints && remote.checkpoints[hist[k].id] == EncodeCheckpoint(hist[k])
  }

  lemma PublishedNext(remote: Remote, remote': Remote, hist: seq<Checkpoint>, i: nat)
    requires i < |hist| && DistinctIds(hist) && Published(remote, hist[..i])
    requires remote'.checkpoints == remote.checkpoints[hist[i].id := EncodeCheckpoint(hist[i])]
    ensures Published(remote', hist[..i + 1])
  {
    forall k | 0 <= k < i + 1
      ensures hist[k].id in remote'.checkpoints && remote'.checkpoints[hist[k].id] == EncodeCheckpoint(hist[k])
    {
      if k < i {
        assert hist[..i][k] == hist[k];
      }
    }
  }

  /** Where a push stands once the first i checkpoints are there; `had` are the blobs the remote had before. */
  ghost predicate PushedUpTo(local: Store, hist: seq<Checkpoint>, i: nat, had: set<Hash>, remote: Remote, st: Stats)
    requires i <= |hist|
  {
    && st.checkpoints == i && Counted(Stats(0, 0, 0), st, AllRefs(local, hist[..i]), had)
    && remote.blobs.Keys == had + Names(AllRefs(local, hist[..i]))
    && (DistinctIds(hist) ==> Published(remote, hist[..i]))
  }

  method PushNext(local: Store, hist: seq<Checkpoint>, i: nat, store: ObjectStore, st: Stats, ghost had: set<Hash>)
      returns (r: Result<Stats>)
    requires Sound(local) && i < |hist| && PushedUpTo(local, hist, i, had, store.objects, st)
    modifies store
    ensures old(Safe(store.objects)) && Closed(local, hist[i]) ==> Safe(store.objects)
    ensures OnlyAdds(local, old(store.objects), store.objects, {hist[i].id})
    ensures r.Err? && Closed(local, hist[i]) ==> r.error.Fault?
    ensures r.Ok? ==> PushedUpTo(local, hist, i + 1, had, store.objects, r.value)
  {
    ghost var before := store.objects;
    r := PushCheckpoint(local, hist[i], store, st);
    if r.Ok? {
      CountMore(Stats(0, 0, 0), st, AllRefs(local, hist[..i]), had, RefsOf(local, hist[i]), r.value);
      AllRefsNext(local, hist, i);
      if DistinctIds(hist) {
        PublishedNext(before, store.objects, hist, i);
      }
    }
  }

  method PushHistory(local: Store, hist: seq<Checkpoint>, store: ObjectStore) returns (r: Result<Stats>)
    requires Sound(local)
    modifies store
    ensures old(Safe(store.objects)) && HistoryClosed(local, hist) ==> Safe(store.objects)
    ensures OnlyAdds(local, old(store.objects), store.objects, Ids(hist))
    ensures r.Err? && HistoryClosed(local, hist) ==> r.error.Fault?
    ensures r.Ok? ==> PushedUpTo(local, hist, |hist|, old(store.objects).blobs.Keys, store.objects, r.value)
  {
    ghost var had := store.objects.blobs.Keys;
    r := Ok(Stats(0, 0, 0));
    for i := 0 to |hist|
      invariant old(Safe(store.objects)) && HistoryClosed(local, hist) ==> Safe(store.objects)
      invariant r.Ok? && PushedUpTo(local, hist, i, had, store.objects, r.value)
      invariant OnlyAdds(local, old(store.objects), store.objects, Ids(hist))
    {
      ghost var before := store.objects;
      r := PushNext(local, hist, i, store, r.value, had);
      assert Ids(hist) + {hist[i].id} == Ids(hist);
      AddsMore(local, old(store.objects), before, store.objects, Ids(hist), {hist[i].id});
      if r.Err? {
        return;
      }
    }
  }

  /**
   Pushes a history, then the sandbox record, and changes nothing else.  A closed history fails only by a fault;
   once pushed, the remote has all its records.  What was uploaded and what was skipped add up to the references walked, and what was
   uploaded is exactly the distinct ones the remote lacked.
   */
  method Push(local: Store, hist: seq<Checkpoint>, sid: Id, record: Bytes, store: ObjectStore) returns (r: Result<Stats>)
    requires Sound(local)
    modifies store
    ensures old(Safe(store.objects)) && HistoryClosed(local, hist) ==> Safe(store.objects)
    ensures r.Err? && HistoryClosed(local, hist) ==> r.error.Fault?
    ensures r.Ok? && DistinctIds(hist) ==> Published(store.objects, hist)
    ensures OnlyAdds(local, old(store.objects), store.objects.(sandboxes := old(store.objects).sandboxes), Ids(hist))
    ensures store.objects.sandboxes
         == if r.Ok? then old(store.objects).sandboxes[sid := record] else old(store.objects).sandboxes
    ensures r.Ok? ==> r.value.checkpoints == |hist|
    ensures r.Ok? ==> r.value.blobs + r.value.skipped == |AllRefs(local, hist)|
    ensures r.Ok? ==> r.value.blobs == |Names(AllRefs(local, hist)) - old(store.objects).blobs.Keys|
    ensures r.Ok? ==> store.objects.blobs.Keys == old(store.objects).blobs.Keys + Names(AllRefs(local, hist))
  {
    LackingIsDistinct(AllRefs(local, hist), store.objects.blobs.Keys);
    assert hist[..|hist|] == hist;
    r := PushHistory(local, hist, store);
    if r.Err? {
      return;
    }
    var failed := Fails();
    if failed {
      return Err(Fault);
    }
    store.objects := store.objects.(sandboxes := store.objects.sandboxes[sid := record]);
  }

  /** Pushing the same history again uploads nothing. */
  method PushAgain(local: Store, hist: seq<Checkpoint>, sid: Id, record: Bytes, store: ObjectStore)
      returns (first: Result<Stats>, second: Result<Stats>)
    requires Sound(local)
    modifies store
    ensures first.Ok? && second.Ok? ==> second.value.blobs == 0 && second.value.skipped == |AllRefs(local, hist)|
  {
    first := Push(local, hist, sid, record, store);
    ghost var had := store.objects.blobs.Keys;
    second := Push(local, hist, sid, record, store);
    if first.Ok? {
      assert Names(AllRefs(local, hist)) - had == {};
    }
  }

  // ---------- pulling ----------

  /** The remote has a blob under its own hash. */
  predicate Offers(remote: Remote, h: Hash) { h in remote.blobs && HashOf(remote.blobs[h]) == h }

  /** Fetches a blob the store lacks and checks it; a blob that does not match is kept under its own hash. */
  method PullBlob(cas: BlobStore, remote: Remote, sha: Hash) returns (r: Result<Bytes>)
    requires Sound(cas.blobs)
    modifies cas
    ensures Sound(cas.blobs) && Grows(old(cas.blobs), cas.blobs)
    ensures r.Ok? ==> sha in cas.blobs && cas.blobs[sha] == r.value && HashOf(r.value) == sha
    ensures r.Err? ==> r.error.Fault? || (sha !in old(cas.blobs) && !Offers(remote, sha))
  {
    if sha in cas.blobs {
      r := cas.Get(sha);
      return;
    }
    var failed := Fails();
    if failed || sha !in remote.blobs {
      return Err(if failed then Fault else NotFound);
    }
    var data := remote.blobs[sha];
    var got := cas.Put(data);
    if got.Err? || got.value != sha {
      return Err(if got.Err? then got.error else Invalid);
    }
    return Ok(data);
  }

  method PullBlobs(cas: BlobStore, remote: Remote, shas: seq<Hash>) returns (r: Result<()>)
    requires Sound(cas.blobs)
    modifies cas
    ensures Sound(cas.blobs) && Grows(old(cas.blobs), cas.blobs)
    ensures r.Ok? ==> forall h :: h in shas ==> h in cas.blobs
    ensures r.Err? ==> r.error.Fault? || exists h :: h in shas && !Offers(remote, h)
  {
    for i := 0 to |shas|
      invariant Sound(cas.blobs) && Grows(old(cas.blobs), cas.blobs)
      invariant forall j :: 0 <= j < i ==> shas[j] in cas.blobs
    {
      var b := PullBlob(cas, remote, shas[i]);
      if b.Err? {
        assert shas[i] in shas;
        return Err(b.error);
      }
    }
    return Ok(());
  }

  /** What the remote holds soundly under a name is what any blob of that hash is. */
  lemma SameBlob(remote: Remote, h: Hash, b: Bytes)
    requires Sound(remote.blobs) && h in remote.blobs && HashOf(b) == h
    ensures remote.blobs[h] == b && Offers(remote, h)
  {
    assert Unhash(HashOf(remote.blobs[h])) == remote.blobs[h];
  }

  method PullTree(cas: BlobStore, remote: Remote, h: Hash) returns (r: Result<()>)
    requires Sound(cas.blobs)
    modifies cas
    ensures Sound(cas.blobs) && Grows(old(cas.blobs), cas.blobs)
    ensures r.Ok? ==> TreeClosed(cas.blobs, h)
    ensures r.Err? && Sound(remote.blobs) && TreeClosed(remote.blobs, h) ==> r.error.Fault?
  {
    var tb := PullBlob(cas, remote, h);
    if tb.Err? {
      return Err(tb.error);
    }
    if Sound(remote.blobs) && h in remote.blobs {
      SameBlob(remote, h, tb.value);
    }
    var t := DecodeTree(tb.value);
    if t.None? {
      return Err(Invalid);
    }
    forall k
      ensures k in FileRefs(t.value) <==> k != [] && exists i :: 0 <= i < |t.value| && t.value[i].hash == k
    {
      FileRefsIn(t.value, k);
    }
    r := PullBlobs(cas, remote, FileRefs(t.value));
    if r.Ok? {
      forall e | e in t.value && e.hash != []
        ensures e.hash in cas.blobs
      {
        var i :| 0 <= i < |t.value| && t.value[i] == e;
      }
    }
  }

  method PullImage(cas: BlobStore, remote: Remote, h: Hash) returns (r: Result<()>)
    requires Sound(cas.blobs)
    modifies cas
    ensures Sound(cas.blobs) && Grows(old(cas.blobs), cas.blobs)
    ensures r.Ok? ==> ImageClosed(cas.blobs, h)
    ensures r.Err? && Sound(remote.blobs) && ImageClosed(remote.blobs, h) ==> r.error.Fault?
  {
    var mb := PullBlob(cas, remote, h);
    if mb.Err? {
      return Err(mb.error);
    }
    if Sound(remote.blobs) && h in remote.blobs {
      SameBlob(remote, h, mb.value);
    }
    var m := Chunker.ReadManifest(cas, h);
    if m.Err? {
      return Err(m.error);
    }
    r := PullBlobs(cas, remote, m.value.chunks);
  }

  method PullImages(cas: BlobStore, remote: Remote, images: seq<Hash>) returns (r: Result<()>)
    requires Sound(cas.blobs)
    modifies cas
    ensures Sound(cas.blobs) && Grows(old(cas.blobs), cas.blobs)
    ensures r.Ok? ==> forall h :: h in images ==> ImageClosed(cas.blobs, h)
    ensures r.Err? && Sound(remote.blobs) && (forall h :: h in images ==> ImageClosed(remote.blobs, h)) ==> r.error.Fault?
  {
    for i := 0 to |images|
      invariant Sound(cas.blobs) && Grows(old(cas.blobs), cas.blobs)
      invariant forall j :: 0 <= j < i ==> ImageClosed(cas.blobs, images[j])
    {
      ghost var before := cas.blobs;
      r := PullImage(cas, remote, images[i]);
      if r.Err? {
        assert images[i] in images;
        return;
      }
      forall j | 0 <= j < i
        ensures ImageClosed(cas.blobs, images[j])
      {
        ImageClosedGrows(before, cas.blobs, images[j]);
      }
    }
    return Ok(());
  }

  /** Everything a checkpoint refers to. */
  method PullClosure(cas: BlobStore, remote: Remote, c: Checkpoint) returns (r: Result<()>)
    requires Sound(cas.blobs)
    modifies cas
    ensures Sound(cas.blobs) && Grows(old(cas.blobs), cas.blobs)
    ensures r.Ok? ==> Closed(cas.blobs, c)
    ensures r.Err? && Sound(remote.blobs) && Closed(remote.blobs, c) ==> r.error.Fault?
  {
    r := PullTree(cas, remote, c.tree);
    if r.Err? {
      return;
    }
    ghost var s1 := cas.blobs;
    var state := if c.state != [] then [c.state] else [];
    r := PullBlobs(cas, remote, state);
    if r.Err? {
      return;
    }
    ghost var s2 := cas.blobs;
    assert c.state != [] ==> c.state in state;
    r := PullImages(cas, remote, c.Images());
    if r.Ok? {
      PiecesClose(s1, s2, cas.blobs, c);
    }
  }

  lemma PiecesClose(s1: Store, s2: Store, s3: Store, c: Checkpoint)
    requires Grows(s1, s2) && Grows(s2, s3) && TreeClosed(s1, c.tree) && (c.state != [] ==> c.state in s2)
    requires forall h :: h in c.Images() ==> ImageClosed(s3, h)
    ensures Closed(s3, c)
  {
  }

  /** The record a remote has under an id, if it is one. */
  function RecordAt(remote: Remote, id: Id): Option<Checkpoint> {
    if id in remote.checkpoints then DecodeCheckpoint(remote.checkpoints[id]) else None
  }

  /**
   Pulls a checkpoint from a remote that may hold anything.  Whatever happens, the repository stays a legal one;
   on success the store closes the pulled checkpoint, which is recorded under its own id as the remote had it,
   over any record already there; a failed save may tear that record.  A pull of a checkpoint that a safe remote has fails only by a fault.
   */
  method Pull(repo: Repo, remote: Remote, id: Id) returns (r: Result<Checkpoint>)
    requires repo.Valid()
    modifies repo`checkpoints, repo`states, repo`events, repo.cas
    ensures repo.Valid() && Grows(old(repo.cas.blobs), repo.cas.blobs)
    ensures old(repo.states) <= repo.states && old(repo.events) <= repo.events
    ensures r.Err? ==>
              || repo.checkpoints == old(repo.checkpoints)
              || (RecordAt(remote, id).Some? && repo.checkpoints == old(repo.checkpoints) - {RecordAt(remote, id).value.id})
    ensures r.Ok? ==> RecordAt(remote, id) == Some(r.value)
    ensures r.Ok? ==> Closed(repo.cas.blobs, r.value) && repo.checkpoints == old(repo.checkpoints)[r.value.id := r.value]
    ensures old(repo.HonestSoFar()) && (r.Ok? ==> RepoStates.Honest(old(repo.Now()), r.value)) ==> repo.HonestSoFar()
    ensures Safe(remote) && id in remote.checkpoints ==> r.Ok? || r.error.Fault?
  {
    var failed := Fails();
    if failed {
      return Err(Fault);
    }
    if id !in remote.checkpoints {
      return Err(NotFound);
    }
    var dc := DecodeCheckpoint(remote.checkpoints[id]);
    if dc.None? {
      return Err(Invalid);
    }
    var c := dc.value;
    ghost var before := repo.cas.blobs;
    var fetched := PullClosure(repo.cas, remote, c);
    repo.LogPuts(before);
    ghost var sts, evs := repo.states, repo.events;
    if old(repo.HonestSoFar()) {
      RepoStates.HonestExtended(old(repo.states), old(repo.events), sts, evs);
    }
    if fetched.Err? {
      return Err(fetched.error);
    }
    var ok := repo.SaveCheckpoint(c, RepoStates.Receive(c));
    if !ok {
      if old(repo.HonestSoFar()) {
        HonestNext(sts, evs, RepoStates.TearCheckpoint(c.id), repo.states, repo.events);
      }
      return Err(Fault);
    }
    if old(repo.HonestSoFar()) && RepoStates.Honest(old(repo.Now()), c) {
      HonestNext(sts, evs, RepoStates.Receive(c), repo.states, repo.events);
    }
    return Ok(c);
  }

  lemma HonestNext(sts: seq<RepoStates.State>, evs: seq<RepoStates.Event>, ev: RepoStates.Event,
                   sts': seq<RepoStates.State>, evs': seq<RepoStates.Event>)
    requires |sts| == |evs| + 1 && RepoStates.AllHonest(sts, evs)
    requires ev.Receive? ==> RepoStates.Honest(sts[|evs|], ev.c)
    requires |sts'| == |evs'| + 1 && sts <= sts' && (evs' == evs || evs' == evs + [ev])
    ensures RepoStates.AllHonest(sts', evs')
  {
    forall i | 0 <= i < |evs'| && evs'[i].Receive?
      ensures RepoStates.Honest(sts'[i], evs'[i].c)
    {
      assert sts'[i] == sts[i];
    }
  }

  // ---------- the round trip ----------

  /** The checkpoint means the same in both stores: tree, contents of every path and state; and both hold its images. */
  ghost predicate SameThere(a: Store, b: Store, c: Checkpoint) {
    && Closed(a, c) && Closed(b, c) && a[c.tree] == b[c.tree]
    && (forall path :: ReadFile(a, c, path) == ReadFile(b, c, path))
    && (c.state != [] ==> a[c.state] == b[c.state])
    && (forall img :: ImageHash(img) == c.mem || ImageHash(img) == c.disk || ImageHash(img) == c.base ==> Holds(a, img) && Holds(b, img))
  }

  lemma ImageThere(s: Store, img: Bytes)
    requires Sound(s) && ImageClosed(s, ImageHash(img))
    ensures Holds(s, img)
  {
    assert HashOf(s[ImageHash(img)]) == ImageHash(img);
    assert DecodeManifest(s[ImageHash(img)]) == Some(ManifestOf(img));
    forall i: nat | i < ChunkCount(|img|)
      ensures HashOf(Slice(img, i)) in s
    {
      assert ManifestOf(img).chunks[i] == HashOf(Slice(img, i));
    }
  }

  /** A checkpoint closed in two sound stores means the same in both. */
  lemma ClosedInBoth(a: Store, b: Store, c: Checkpoint)
    requires Sound(a) && Sound(b) && Closed(a, c) && Closed(b, c)
    ensures SameThere(a, b, c)
  {
    SameMeaning(a, b, c, []);
    forall path
      ensures ReadFile(a, c, path) == ReadFile(b, c, path)
    {
      SameMeaning(a, b, c, path);
    }
    ClosedMeans(a, c);
    ClosedMeans(b, c);
    forall img | ImageHash(img) == c.mem || ImageHash(img) == c.disk || ImageHash(img) == c.base
      ensures Holds(a, img) && Holds(b, img)
    {
      ImageThere(a, img);
      ImageThere(b, img);
    }
  }

  /** A checkpoint that a safe remote has as some repository holds it arrives as it is there. */
  method PullPushed(to: Repo, remote: Remote, c: Checkpoint, ghost local: Store) returns (r: Result<Checkpoint>)
    requires to.Valid() && Safe(remote) && Sound(local) && Closed(local, c) && RecordAt(remote, c.id) == Some(c)
    modifies to`checkpoints, to`states, to`events, to.cas
    ensures to.Valid() && (r.Ok? || r.error.Fault?)
    ensures r.Ok? ==> r.value == c && c.id in to.checkpoints && to.checkpoints[c.id] == c && SameThere(local, to.cas.blobs, c)
  {
    r := Pull(to, remote, c.id);
    if r.Ok? {
      ClosedInBoth(local, to.cas.blobs, c);
    }
  }

  lemma ChainClosed(store: Store, cks: RepoStates.Records, chain: seq<Checkpoint>)
    requires RepoStates.AllClosed(store, cks) && RepoStates.Chain(chain, cks)
    ensures HistoryClosed(store, chain)
  {
  }

  /** Pushes a sandbox with its whole history; only a fault or a missing record can stop it. */
  method PushSandbox(from: Repo, store: ObjectStore, sid: Id, record: Bytes)
      returns (hist: Result<seq<Checkpoint>>, pushed: Result<Stats>)
    requires from.Valid() && from.HonestSoFar() && Safe(store.objects)
    modifies store
    ensures Safe(store.objects)
    ensures hist.Err? ==> pushed.Err?
    ensures hist.Ok? ==> RepoStates.Chain(hist.value, from.checkpoints) && HistoryClosed(from.cas.blobs, hist.value)
    ensures hist.Ok? && pushed.Err? ==> pushed.error.Fault?
    ensures pushed.Ok? ==> Published(store.objects, hist.value)
  {
    hist := from.History(sid);
    if hist.Err? {
      return hist, Err(hist.error);
    }
    ChainClosed(from.cas.blobs, from.checkpoints, hist.value);
    pushed := Push(from.cas.blobs, hist.value, sid, record, store);
  }

  /**
   Pushes a sandbox and pulls any checkpoint of its history into another repository.  Once pushed, only a fault
   can stop the pull; and what is pulled is the record pushed, with the same tree, the same bytes at every path,
   the same state and the same images.
   */
  method PushThenPull(from: Repo, to: Repo, store: ObjectStore, sid: Id, record: Bytes, pick: nat)
      returns (hist: Result<seq<Checkpoint>>, pushed: Result<Stats>, pulled: Result<Checkpoint>)
    requires from.Valid() && from.HonestSoFar() && to.Valid() && from != to && from.cas != to.cas && Safe(store.objects)
    modifies store, to`checkpoints, to`states, to`events, to.cas
    ensures from.Valid() && to.Valid() && Safe(store.objects)
    ensures pushed.Ok? ==> hist.Ok? && RepoStates.Chain(hist.value, from.checkpoints) && Published(store.objects, hist.value)
    ensures hist.Ok? && pushed.Err? ==> pushed.error.Fault?
    ensures pushed.Ok? ==> pulled.Ok? || pulled.error.Fault?
    ensures pushed.Ok? && pulled.Ok? ==>
              var c := hist.value[pick % |hist.value|];
              pulled.value == c && c.id in to.checkpoints && to.checkpoints[c.id] == c && SameThere(from.cas.blobs, to.cas.blobs, c)
  {
    hist, pushed := PushSandbox(from, store, sid, record);
    if pushed.Err? {
      return hist, pushed, Err(pushed.error);
    }
    var c := hist.value[pick % |hist.value|];
    pulled := PullPushed(to, store.objects, c, from.cas.blobs);
  }
}
