/**
 The repository as a state machine (internal/engine/engine.go, internal/engine/repo.go, internal/engine/sync.go).

 An event is a single write to disk: a blob, a checkpoint record or a sandbox record.  A failure is an operation
 that stops between two of them, so every index of a run is a point at which something may have gone wrong.
 `Repos.Repo` keeps the run that led to its present state, and shows with it that its methods take only the
 steps below.
 */
module RepoStates {
  import opened Content
  import opened Blobs
  import opened Trees
  import opened Closure

  datatype Sandbox = Sandbox(id: Id, head: Id, forkedFrom: Id, steps: int)

  type Records = map<Id, Checkpoint>

  datatype State = State(store: Store, cks: Records, sandboxes: map<Id, Sandbox>)

  const EMPTY: State := State(map[], map[], map[])

  /**
   `SaveCheckpoint` carries the sandbox as the engine has it in memory, its step already counted; `Receive` is
   the save at the end of a pull.  Records are written over in place, so one whose write fails part way can no
   longer be read: a pull then tears the checkpoint record it writes over, and a step or checkout its sandbox's.
   (A step's own checkpoint is under a fresh id, where an unreadable record is as good as none.)
   */
  datatype Event =
    | Put(b: Bytes)
    | SaveCheckpoint(s: Sandbox, c: Checkpoint)
    | SaveSandbox(s: Sandbox)
    | Receive(c: Checkpoint)
    | TearCheckpoint(id: Id)
    | TearSandbox(sid: Id)
  {
    /** The event is the end of a pull. */
    predicate Pulls() { Receive? || TearCheckpoint? }
  }

  // ---------- what an event meets ----------

  /** An id no record has used, not even as a missing parent or head. */
  ghost predicate Unused(st: State, id: Id) {
    && id != [] && id !in st.cks && (forall x :: x in st.cks ==> st.cks[x].parent != id)
    && (forall x :: x in st.sandboxes ==> st.sandboxes[x].head != id)
  }

  /** A sandbox about to be made, under a fresh id. */
  ghost predicate NewSandbox(st: State, s: Sandbox) {
    s.id !in st.sandboxes && s.head == [] && s.steps == 0 && forall x :: x in st.cks ==> st.cks[x].sandbox != s.id
  }

  /**
   A sandbox in memory: it is never behind its record on disk, though failures to save may have left it ahead,
   or torn the record.
   */
  ghost predicate Loaded(st: State, s: Sandbox) {
    && (s.id in st.sandboxes ==> st.sandboxes[s.id].steps <= s.steps)
    && s.head in st.cks && st.cks[s.head].sandbox == s.id
  }

  function Stepped(s: Sandbox): Sandbox { s.(steps := s.steps + 1) }

  /** A new checkpoint of a sandbox, on top of its head. */
  predicate Step(c: Checkpoint, s: Sandbox, id: Id, now: int) {
    c.id == id && c.sandbox == s.id && c.parent == s.head && c.number == s.steps && c.created == now
  }

  /** The clock has moved on since the head was made. */
  predicate ClockMoved(cks: Records, head: Id, now: int) {
    head in cks ==> cks[head].created < now
  }

  /** A step may be recorded under the id: of a new sandbox, or of one in memory with the step counted. */
  ghost predicate Ready(st: State, s: Sandbox, id: Id, now: int) {
    && Unused(st, id)
    && (NewSandbox(st, s) || (Loaded(st, s.(steps := s.steps - 1)) && ClockMoved(st.cks, s.head, now)))
  }

  ghost predicate Enabled(st: State, ev: Event) {
    match ev
    case Put(_) => true
    case SaveCheckpoint(s, c) =>
      Closed(st.store, c) && Step(c, s, c.id, c.created) && Ready(st, s, c.id, c.created)
    case SaveSandbox(s) =>
      && s.head in st.cks && st.cks[s.head].sandbox == s.id
      && (s.id in st.sandboxes ==> st.sandboxes[s.id].steps <= s.steps)
    case Receive(c) => Closed(st.store, c)
    case TearCheckpoint(_) => true
    case TearSandbox(_) => true
  }

  /** Once the step is recorded, its sandbox may move there. */
  lemma MayMove(st: State, st': State, s: Sandbox, c: Checkpoint)
    requires Ready(st, s, c.id, c.created) && Step(c, s, c.id, c.created)
    requires st'.cks == st.cks[c.id := c] && st'.sandboxes == st.sandboxes
    ensures Enabled(st', SaveSandbox(s.(head := c.id)))
  {
  }

  function Apply(st: State, ev: Event): State {
    match ev
    case Put(b) => st.(store := Add(st.store, b))
    case SaveCheckpoint(_, c) => st.(cks := st.cks[c.id := c])
    case SaveSandbox(s) => st.(sandboxes := st.sandboxes[s.id := s])
    case Receive(c) => st.(cks := st.cks[c.id := c])
    case TearCheckpoint(id) => st.(cks := st.cks - {id})
    case TearSandbox(sid) => st.(sandboxes := st.sandboxes - {sid})
  }

  ghost predicate Steps(sts: seq<State>, evs: seq<Event>) {
    && |sts| == |evs| + 1
    && forall i :: 0 <= i < |evs| ==> Enabled(sts[i], evs[i]) && sts[i + 1] == Apply(sts[i], evs[i])
  }

  /** The states a sequence of events leads through from an empty repository. */
  ghost predicate Legal(sts: seq<State>, evs: seq<Event>) {
    Steps(sts, evs) && sts[0] == EMPTY
  }

  lemma StepsAppend(sts: seq<State>, evs: seq<Event>, sts': seq<State>, evs': seq<Event>)
    requires Steps(sts, evs) && Steps(sts', evs') && sts'[0] == sts[|evs|]
    ensures Steps(sts + sts'[1..], evs + evs') && (sts + sts'[1..])[|evs + evs'|] == sts'[|evs'|]
  {
    var all, n := sts + sts'[1..], |evs|;
    forall i | 0 <= i < |evs + evs'|
      ensures Enabled(all[i], (evs + evs')[i]) && all[i + 1] == Apply(all[i], (evs + evs')[i])
    {
      if i < n {
        assert all[i] == sts[i] && all[i + 1] == sts[i + 1];
      } else {
        assert all[i] == sts'[i - n] && all[i + 1] == sts'[i - n + 1];
      }
    }
  }

  lemma OneStep(sts: seq<State>, evs: seq<Event>, ev: Event)
    requires Steps(sts, evs) && Enabled(sts[|evs|], ev)
    ensures Steps(sts + [Apply(sts[|evs|], ev)], evs + [ev])
  {
    var st := sts[|evs|];
    StepsAppend(sts, evs, [st, Apply(st, ev)], [ev]);
    assert [st, Apply(st, ev)][1..] == [Apply(st, ev)];
  }

  lemma PutToward(s: Store, store: Store, h: Hash)
    requires Sound(s) && Sound(store) && Grows(s, store) && h in store && h !in s
    ensures var s' := Add(s, store[h]);
            Sound(s') && Grows(s', store) && |store.Keys - s'.Keys| < |store.Keys - s.Keys|
  {
    assert HashOf(store[h]) == h;
    assert store.Keys - Add(s, store[h]).Keys == (store.Keys - s.Keys) - {h};
  }

  /** A sound store grows to a larger one by single puts. */
  lemma {:induction false} PutsBetween(st: State, store: Store) returns (sts: seq<State>, evs: seq<Event>)
    requires Sound(st.store) && Sound(store) && Grows(st.store, store)
    ensures Steps(sts, evs) && sts[0] == st && sts[|evs|] == st.(store := store)
    ensures forall i :: 0 <= i < |evs| ==> evs[i].Put?
    decreases |store.Keys - st.store.Keys|
  {
    if h :| h in store && h !in st.store {
      PutToward(st.store, store, h);
      var next := st.(store := Add(st.store, store[h]));
      var rest, evs' := PutsBetween(next, store);
      sts, evs := PutFirst(st, store[h], rest, evs');
    } else {
      SameStore(st.store, store);
      sts, evs := [st], [];
    }
  }

  lemma SameStore(s: Store, store: Store)
    requires Grows(s, store) && forall h :: h in store ==> h in s
    ensures s == store
  {
  }

  lemma PutFirst(st: State, b: Bytes, rest: seq<State>, evs': seq<Event>) returns (sts: seq<State>, evs: seq<Event>)
    requires Steps(rest, evs') && rest[0] == Apply(st, Put(b)) && forall i :: 0 <= i < |evs'| ==> evs'[i].Put?
    ensures Steps(sts, evs) && sts[0] == st && sts[|evs|] == rest[|evs'|]
    ensures forall i :: 0 <= i < |evs| ==> evs[i].Put?
  {
    var first := [st, Apply(st, Put(b))];
    StepsAppend(first, [Put(b)], rest, evs');
    sts, evs := first + rest[1..], [Put(b)] + evs';
  }

  /** A run carried on without a pull. */
  ghost predicate Extended(sts: seq<State>, evs: seq<Event>, sts': seq<State>, evs': seq<Event>) {
    sts <= sts' && evs <= evs' && forall k :: |evs| <= k < |evs'| ==> !evs'[k].Pulls()
  }

  // ---------- closure ----------

  ghost predicate AllClosed(store: Store, cks: Records) {
    forall id :: id in cks ==> Closed(store, cks[id])
  }

  /** Growing the store keeps every checkpoint closed. */
  lemma AllClosedGrows(store: Store, store': Store, cks: Records)
    requires AllClosed(store, cks) && Grows(store, store')
    ensures AllClosed(store', cks)
  {
    forall id | id in cks ensures Closed(store', cks[id]) { ClosedGrows(store, store', cks[id]); }
  }

  /**
   At every point of every run, whatever failed and whatever was received, the store is sound and holds all
   that any recorded checkpoint refers to.  That a record is closed when it is saved is what the methods of
   `Repos.Repo` and `Syncs.Pull` show of the code before they save one.
   */
  lemma {:induction false} ClosedAlways(sts: seq<State>, evs: seq<Event>, i: nat)
    requires Legal(sts, evs) && i < |sts|
    ensures Sound(sts[i].store) && AllClosed(sts[i].store, sts[i].cks)
  {
    if i > 0 {
      ClosedAlways(sts, evs, i - 1);
      var st, ev := sts[i - 1], evs[i - 1];
      assert Enabled(st, ev);
      if ev.Put? {
        AddGrows(st.store, ev.b);
        AllClosedGrows(st.store, sts[i].store, st.cks);
      }
    }
  }

  lemma {:induction false} StoreGrows(sts: seq<State>, evs: seq<Event>, i: nat, j: nat)
    requires Legal(sts, evs) && i <= j < |sts|
    ensures Grows(sts[i].store, sts[j].store)
    decreases j
  {
    if i < j {
      StoreGrows(sts, evs, i, j - 1);
      ClosedAlways(sts, evs, j - 1);
      if evs[j - 1].Put? {
        AddGrows(sts[j - 1].store, evs[j - 1].b);
      }
    }
  }

  /** No pull between the two points brings another record under the id, or tears the one there. */
  predicate NotOverwritten(evs: seq<Event>, i: nat, j: nat, id: Id, c: Checkpoint)
    requires i <= j <= |evs|
  {
    forall k :: i <= k < j ==> evs[k] != TearCheckpoint(id) && (evs[k].Receive? && evs[k].c.id == id ==> evs[k].c == c)
  }

  lemma {:induction false} RecordFixed(sts: seq<State>, evs: seq<Event>, i: nat, j: nat, id: Id)
    requires Legal(sts, evs) && i <= j < |sts| && id in sts[i].cks
    ensures NotOverwritten(evs, i, j, id, sts[i].cks[id]) ==> id in sts[j].cks && sts[j].cks[id] == sts[i].cks[id]
    decreases j
  {
    if i < j {
      RecordFixed(sts, evs, i, j - 1, id);
      assert Enabled(sts[j - 1], evs[j - 1]);
      assert NotOverwritten(evs, i, j, id, sts[i].cks[id]) ==> NotOverwritten(evs, i, j - 1, id, sts[i].cks[id]);
    }
  }

  /**
   What a checkpoint refers to outlives every later operation.  Under its id, reading any path later gives what
   it gave before, unless a pull has put another record there or torn the one that was.
   */
  lemma PastIsFixed(sts: seq<State>, evs: seq<Event>, i: nat, j: nat, id: Id, path: Bytes)
    requires Legal(sts, evs) && i <= j < |sts| && id in sts[i].cks
    ensures Closed(sts[j].store, sts[i].cks[id])
    ensures ReadFile(sts[j].store, sts[i].cks[id], path) == ReadFile(sts[i].store, sts[i].cks[id], path)
    ensures NotOverwritten(evs, i, j, id, sts[i].cks[id]) ==>
              id in sts[j].cks && Closed(sts[j].store, sts[j].cks[id]) &&
              ReadFile(sts[j].store, sts[j].cks[id], path) == ReadFile(sts[i].store, sts[i].cks[id], path)
  {
    ClosedAlways(sts, evs, i);
    ClosedAlways(sts, evs, j);
    StoreGrows(sts, evs, i, j);
    RecordFixed(sts, evs, i, j, id);
    ClosedGrows(sts[i].store, sts[j].store, sts[i].cks[id]);
    SameMeaning(sts[i].store, sts[j].store, sts[i].cks[id], path);
  }

  /** A pulled record leaves the snapshot found under an id as it was exactly when it is under another id or has the same tree. */
  lemma ReceiveKeepsIff(st: State, c: Checkpoint, id: Id)
    requires Sound(st.store) && AllClosed(st.store, st.cks) && Enabled(st, Receive(c)) && id in st.cks
    ensures var st' := Apply(st, Receive(c));
            && Closed(st'.store, st'.cks[id])
            && (st'.store[st'.cks[id].tree] == st.store[st.cks[id].tree] <==> (c.id == id ==> c.tree == st.cks[id].tree))
  {
    assert Closed(st.store, st.cks[id]);
    assert HashOf(st.store[c.tree]) == c.tree && HashOf(st.store[st.cks[id].tree]) == st.cks[id].tree;
  }

  function OneFile(b: Bytes): Tree { [Entry([97], 0, |b|, HashOf(b), [], false)] }

  function Plain(id: Id, sandbox: Id, number: int, parent: Id, t: Tree, now: int): Checkpoint {
    Checkpoint(id, sandbox, number, parent, HashOf(EncodeTree(t)), now, 0, 0, 0, [], [], [], [])
  }

  lemma PlainReads(store: Store, b: Bytes, id: Id, sandbox: Id, number: int, parent: Id, now: int)
    requires Sound(store) && HashOf(EncodeTree(OneFile(b))) in store && HashOf(b) in store
    ensures var c := Plain(id, sandbox, number, parent, OneFile(b), now);
            Closed(store, c) && ReadFile(store, c, [97]) == Ok(b)
  {
    var c := Plain(id, sandbox, number, parent, OneFile(b), now);
    assert HashOf(store[c.tree]) == c.tree;
    assert store[c.tree] == EncodeTree(OneFile(b)) by {
      assert Unhash(HashOf(store[c.tree])) == store[c.tree];
    }
    assert store[HashOf(b)] == b by {
      assert Unhash(HashOf(store[HashOf(b)])) == store[HashOf(b)];
    }
    assert Lookup(OneFile(b), [97]) == Some(OneFile(b)[0]);
  }

  function TwoFiles(): Store { Add(Add(Add(Add(map[], [5]), EncodeTree(OneFile([5]))), [6]), EncodeTree(OneFile([6]))) }

  lemma TwoFilesSound()
    ensures var store := TwoFiles();
            && Sound(store) && HashOf([5]) in store && HashOf(EncodeTree(OneFile([5]))) in store
            && HashOf([6]) in store && HashOf(EncodeTree(OneFile([6]))) in store
  {
  }

  /** A pull that brings another record under a known id changes what a past checkpoint says. */
  lemma OverwritingPull() returns (sts: seq<State>, evs: seq<Event>, n: nat)
    ensures Legal(sts, evs) && |evs| == n + 1 && evs[n].Receive?
    ensures [1] in sts[n].cks && ReadFile(sts[n].store, sts[n].cks[[1]], [97]) == Ok([5])
    ensures [1] in sts[n + 1].cks && ReadFile(sts[n + 1].store, sts[n + 1].cks[[1]], [97]) == Ok([6])
  {
    var ours, theirs := Plain([1], [9], 0, [], OneFile([5]), 0), Plain([1], [8], 0, [], OneFile([6]), 0);
    TwoFilesSound();
    PlainReads(TwoFiles(), [5], [1], [9], 0, [], 0);
    PlainReads(TwoFiles(), [6], [1], [8], 0, [], 0);
    sts, evs := PutsBetween(EMPTY, TwoFiles());
    var save := SaveCheckpoint(Sandbox([9], [], [], 0), ours);
    OneStep(sts, evs, save);
    sts, evs := sts + [Apply(sts[|evs|], save)], evs + [save];
    n := |evs|;
    OneStep(sts, evs, Receive(theirs));
    sts, evs := sts + [Apply(sts[n], Receive(theirs))], evs + [Receive(theirs)];
  }

  // ---------- lineage ----------

  /** Records sit under their own ids, and a parent is an earlier checkpoint of the same sandbox. */
  ghost predicate Lineage(cks: Records) {
    forall id :: id in cks ==>
      && cks[id].id == id && id != []
      && (cks[id].parent in cks ==>
            && cks[cks[id].parent].created < cks[id].created
            && cks[cks[id].parent].sandbox == cks[id].sandbox)
  }

  /** Heads, where they can be read, are checkpoints of their sandbox. */
  ghost predicate HeadsKept(cks: Records, sandboxes: map<Id, Sandbox>) {
    forall s :: s in sandboxes ==>
      sandboxes[s].id == s && (sandboxes[s].head in cks ==> cks[sandboxes[s].head].sandbox == s)
  }

  ghost predicate InOrder(st: State) {
    Lineage(st.cks) && HeadsKept(st.cks, st.sandboxes)
  }

  /** No checkpoint's parent and no sandbox's head is missing. */
  ghost predicate NoneMissing(st: State) {
    && (forall id :: id in st.cks ==> st.cks[id].parent == [] || st.cks[id].parent in st.cks)
    && (forall s :: s in st.sandboxes ==> st.sandboxes[s].head in st.cks)
  }

  /**
   A record that fits the ones it joins, as every record made by some repository does: its parent comes first,
   its children later, all in one sandbox, and a head it replaces stays in its sandbox.
   */
  ghost predicate Honest(st: State, c: Checkpoint) {
    && c.id != [] && c.parent != c.id
    && (c.parent in st.cks ==> st.cks[c.parent].created < c.created && st.cks[c.parent].sandbox == c.sandbox)
    && (forall x :: x in st.cks && x != c.id && st.cks[x].parent == c.id ==>
          c.created < st.cks[x].created && c.sandbox == st.cks[x].sandbox)
    && (forall s :: s in st.sandboxes && st.sandboxes[s].head == c.id ==> c.sandbox == s)
  }

  /** A step, saved or orphaned, keeps the order and leaves none missing. */
  lemma StepInOrder(st: State, s: Sandbox, c: Checkpoint)
    requires InOrder(st) && Enabled(st, SaveCheckpoint(s, c))
    ensures InOrder(Apply(st, SaveCheckpoint(s, c)))
    ensures NoneMissing(st) ==> NoneMissing(Apply(st, SaveCheckpoint(s, c)))
  {
  }

  /** A pulled record keeps the order exactly when it is honest. */
  lemma ReceiveInOrderIff(st: State, c: Checkpoint)
    requires InOrder(st)
    ensures InOrder(Apply(st, Receive(c))) <==> Honest(st, c)
  {
    var st' := Apply(st, Receive(c));
    if InOrder(st') {
      assert st'.cks[c.id] == c;
      forall x | x in st.cks && x != c.id && st.cks[x].parent == c.id
        ensures c.created < st.cks[x].created && c.sandbox == st.cks[x].sandbox
      {
        assert st'.cks[x] == st.cks[x];
      }
    }
  }

  ghost predicate AllHonest(sts: seq<State>, evs: seq<Event>)
    requires |sts| == |evs| + 1
  {
    forall i :: 0 <= i < |evs| && evs[i].Receive? ==> Honest(sts[i], evs[i].c)
  }

  lemma HonestExtended(sts: seq<State>, evs: seq<Event>, sts': seq<State>, evs': seq<Event>)
    requires |sts| == |evs| + 1 && |sts'| == |evs'| + 1 && AllHonest(sts, evs) && Extended(sts, evs, sts', evs')
    ensures AllHonest(sts', evs')
  {
    forall i | 0 <= i < |evs'| && evs'[i].Receive?
      ensures Honest(sts'[i], evs'[i].c)
    {
      assert i < |evs| && evs'[i] == evs[i] && sts'[i] == sts[i];
    }
  }

  /**
   In every reachable repository, failures, torn records and honest pulls included, parents come before their
   children in creation order and share their sandbox; without pulls, no parent or head is ever missing.
   */
  lemma {:induction false} ReachableInOrder(sts: seq<State>, evs: seq<Event>, i: nat)
    requires Legal(sts, evs) && AllHonest(sts, evs) && i < |sts|
    ensures InOrder(sts[i])
    ensures (forall j :: 0 <= j < |evs| ==> !evs[j].Pulls()) ==> NoneMissing(sts[i])
  {
    if i > 0 {
      ReachableInOrder(sts, evs, i - 1);
      var st, ev := sts[i - 1], evs[i - 1];
      assert Enabled(st, ev);
      match ev
      case SaveCheckpoint(s, c) => StepInOrder(st, s, c);
      case Receive(c) => ReceiveInOrderIff(st, c);
      case _ =>
    }
  }

  function Follow(cks: Records, id: Id, n: nat): Id
    decreases n
  {
    if n == 0 || id !in cks then id else Follow(cks, cks[id].parent, n - 1)
  }

  /** A record that is its own parent, which only a dishonest remote can supply, would keep a walk going for ever. */
  lemma {:induction false} OwnParentNeverEnds(st: State, c: Checkpoint, n: nat)
    requires c.parent == c.id
    ensures Follow(Apply(st, Receive(c)).cks, c.id, n) == c.id && !Honest(st, c)
  {
    if n > 0 {
      OwnParentNeverEnds(st, c, n - 1);
    }
  }

  // ---------- step numbers ----------

  /** Step numbers strictly fall from every checkpoint to its parent. */
  ghost predicate Falling(cks: Records) {
    forall id :: id in cks && cks[id].parent in cks ==> cks[cks[id].parent].number < cks[id].number
  }

  /** The step is numbered above its head. */
  predicate AboveHead(st: State, ev: Event) {
    ev.SaveCheckpoint? && ev.s.head in st.cks ==> st.cks[ev.s.head].number < ev.s.steps
  }

  /** A step keeps the numbers falling exactly when its sandbox's count has reached the head's number. */
  lemma StepFallsIff(st: State, s: Sandbox, c: Checkpoint)
    requires Falling(st.cks) && Enabled(st, SaveCheckpoint(Stepped(s), c))
    ensures Falling(Apply(st, SaveCheckpoint(Stepped(s), c)).cks) <==> (s.head in st.cks ==> st.cks[s.head].number <= s.steps)
  {
    assert Apply(st, SaveCheckpoint(Stepped(s), c)).cks[c.id] == c;
  }

  lemma FallingOnly(cks: Records, c: Checkpoint)
    requires c.id !in cks && (forall x :: x in cks ==> cks[x].parent != c.id) && c.parent != c.id
    ensures Falling(cks[c.id := c]) <==> Falling(cks) && (c.parent in cks ==> cks[c.parent].number < c.number)
  {
    var cks' := cks[c.id := c];
    if Falling(cks') {
      forall id | id in cks && cks[id].parent in cks
        ensures cks[cks[id].parent].number < cks[id].number
      {
        assert cks'[id] == cks[id];
      }
      assert cks'[c.id] == c;
    }
  }

  lemma {:induction false} FallingSteps(sts: seq<State>, evs: seq<Event>, i: nat)
    requires Legal(sts, evs) && i < |sts| && forall k :: 0 <= k < |evs| ==> !evs[k].Pulls()
    ensures Falling(sts[i].cks) <==> forall k :: 0 <= k < i ==> AboveHead(sts[k], evs[k])
  {
    if i > 0 {
      var st, ev := sts[i - 1], evs[i - 1];
      FallingSteps(sts, evs, i - 1);
      assert Enabled(st, ev);
      if ev.SaveCheckpoint? {
        FallingOnly(st.cks, ev.c);
      }
      assert (forall k :: 0 <= k < i ==> AboveHead(sts[k], evs[k]))
        <==> (forall k :: 0 <= k < i - 1 ==> AboveHead(sts[k], evs[k])) && AboveHead(st, ev);
    }
  }

  /** Each step starts from its sandbox as saved, as it does when every command loads its own. */
  ghost predicate FromDisk(st: State, ev: Event) {
    ev.SaveCheckpoint? ==> NewSandbox(st, ev.s) || (ev.s.id in st.sandboxes && ev.s == Stepped(st.sandboxes[ev.s.id]))
  }

  /** The sandbox as saved has counted as far as its head's number. */
  predicate HeadCounted(st: State, sid: Id) {
    sid in st.sandboxes && st.sandboxes[sid].head in st.cks ==>
      st.cks[st.sandboxes[sid].head].number <= st.sandboxes[sid].steps
  }

  /**
   Over a whole run without pulls in which each step starts from its saved sandbox, step numbers fall along every
   chain exactly when no step was taken in a sandbox whose record had not counted as far as its head.
   */
  lemma FallingIff(sts: seq<State>, evs: seq<Event>, i: nat)
    requires Legal(sts, evs) && i < |sts| && forall k :: 0 <= k < |evs| ==> !evs[k].Pulls() && FromDisk(sts[k], evs[k])
    ensures Falling(sts[i].cks) <==> forall k :: 0 <= k < i && evs[k].SaveCheckpoint? ==> HeadCounted(sts[k], evs[k].s.id)
  {
    FallingSteps(sts, evs, i);
    forall k | 0 <= k < i && evs[k].SaveCheckpoint?
      ensures AboveHead(sts[k], evs[k]) <==> HeadCounted(sts[k], evs[k].s.id)
    {
      ReachableInOrder(sts, evs, k);
      assert FromDisk(sts[k], evs[k]) && [] !in sts[k].cks;
    }
  }

  /** Every step belongs to a recorded sandbox and is numbered within its count. */
  ghost predicate Counted(cks: Records, sandboxes: map<Id, Sandbox>) {
    forall id :: id in cks ==> cks[id].sandbox in sandboxes && cks[id].number <= sandboxes[cks[id].sandbox].steps
  }

  /** Each checkpoint saved is followed by its sandbox, so no step is orphaned; nothing is torn and nothing pulled. */
  ghost predicate NoOrphans(evs: seq<Event>) {
    forall i :: 0 <= i < |evs| ==>
      && !evs[i].Pulls() && !evs[i].TearSandbox?
      && (evs[i].SaveCheckpoint? && i + 1 < |evs| ==> evs[i + 1] == SaveSandbox(evs[i].s.(head := evs[i].c.id)))
  }

  /** The sandboxes as they will be once a step just saved has been followed by its sandbox. */
  function Settled(sts: seq<State>, evs: seq<Event>, i: nat): map<Id, Sandbox>
    requires |sts| == |evs| + 1 && i < |sts|
  {
    if i > 0 && evs[i - 1].SaveCheckpoint? then sts[i].sandboxes[evs[i - 1].s.id := evs[i - 1].s] else sts[i].sandboxes
  }

  lemma CountedStep(st: State, s: Sandbox, c: Checkpoint)
    requires InOrder(st) && Counted(st.cks, st.sandboxes) && Enabled(st, SaveCheckpoint(s, c))
    ensures Counted(st.cks[c.id := c], st.sandboxes[s.id := s]) && AboveHead(st, SaveCheckpoint(s, c))
  {
    assert [] !in st.cks;
    var cks, sandboxes := st.cks[c.id := c], st.sandboxes[s.id := s];
    forall id | id in cks
      ensures cks[id].sandbox in sandboxes && cks[id].number <= sandboxes[cks[id].sandbox].steps
    {
      if id != c.id {
        assert cks[id] == st.cks[id];
      }
    }
  }

  lemma CountedNext(sts: seq<State>, evs: seq<Event>, i: nat)
    requires Legal(sts, evs) && NoOrphans(evs) && i < |evs| && InOrder(sts[i]) && Counted(sts[i].cks, Settled(sts, evs, i))
    ensures Counted(sts[i + 1].cks, Settled(sts, evs, i + 1)) && AboveHead(sts[i], evs[i])
  {
    var st, ev := sts[i], evs[i];
    assert Enabled(st, ev);
    if i > 0 && evs[i - 1].SaveCheckpoint? {
      var j := i - 1;
      assert j + 1 < |evs| && evs[j + 1] == SaveSandbox(evs[j].s.(head := evs[j].c.id));
    } else if ev.SaveCheckpoint? {
      CountedStep(st, ev.s, ev.c);
    }
  }

  lemma {:induction false} CountedAlways(sts: seq<State>, evs: seq<Event>, i: nat)
    requires Legal(sts, evs) && NoOrphans(evs) && i < |sts|
    ensures Counted(sts[i].cks, Settled(sts, evs, i)) && forall k :: 0 <= k < i ==> AboveHead(sts[k], evs[k])
  {
    if i > 0 {
      CountedAlways(sts, evs, i - 1);
      ReachableInOrder(sts, evs, i - 1);
      CountedNext(sts, evs, i - 1);
    }
  }

  /** Without orphans the step numbers fall along every chain, whatever checkouts happen in between. */
  lemma ReachableNumbered(sts: seq<State>, evs: seq<Event>, i: nat)
    requires Legal(sts, evs) && NoOrphans(evs) && i < |sts|
    ensures Falling(sts[i].cks)
  {
    CountedAlways(sts, evs, i);
    FallingSteps(sts, evs, i);
  }

  /** A sandbox with its root, and a step of it whose sandbox could not be saved. */
  lemma OrphanLeft() returns (sts: seq<State>, evs: seq<Event>)
    ensures Legal(sts, evs) && |evs| == 4 && (forall k :: 0 <= k < 4 ==> !evs[k].Pulls())
    ensures sts[4] == State(Add(map[], EncodeTree([])),
                            map[[1] := Plain([1], [9], 0, [], [], 0), [2] := Plain([2], [9], 1, [1], [], 1)],
                            map[[9] := Sandbox([9], [1], [], 0)])
  {
    var root, orphan := Plain([1], [9], 0, [], [], 0), Plain([2], [9], 1, [1], [], 1);
    evs := [Put(EncodeTree([])),
            SaveCheckpoint(Sandbox([9], [], [], 0), root), SaveSandbox(Sandbox([9], [1], [], 0)),
            SaveCheckpoint(Sandbox([9], [1], [], 1), orphan)];
    var s1 := Apply(EMPTY, evs[0]);
    BlankClosed(s1.store, root);
    BlankClosed(s1.store, orphan);
    var s2 := Apply(s1, evs[1]);
    var s3 := Apply(s2, evs[2]);
    sts := [EMPTY, s1, s2, s3, Apply(s3, evs[3])];
  }

  /**
   An orphan does no harm by itself.  But once it is checked out and run from, its child gets its own number: the
   sandbox on disk never counted it.
   */
  lemma OrphanCheckedOut() returns (sts: seq<State>, evs: seq<Event>)
    ensures Legal(sts, evs) && |evs| == 6 && (forall k :: 0 <= k < 6 ==> !evs[k].Pulls())
    ensures Falling(sts[5].cks) && [2] in sts[5].cks && [9] in sts[5].sandboxes && sts[5].sandboxes[[9]] == Sandbox([9], [2], [], 0)
    ensures [2] in sts[6].cks && [3] in sts[6].cks && sts[6].cks[[3]].parent == [2] && sts[6].cks[[3]].number == sts[6].cks[[2]].number
  {
    sts, evs := OrphanLeft();
    var checkout := SaveSandbox(Sandbox([9], [2], [], 0));
    var step := SaveCheckpoint(Sandbox([9], [2], [], 1), Plain([3], [9], 1, [2], [], 2));
    OneStep(sts, evs, checkout);
    sts, evs := sts + [Apply(sts[4], checkout)], evs + [checkout];
    BlankClosed(sts[5].store, step.c);
    OneStep(sts, evs, step);
    sts, evs := sts + [Apply(sts[5], step)], evs + [step];
  }

  lemma BlankClosed(store: Store, c: Checkpoint)
    requires HashOf(EncodeTree([])) in store && store[HashOf(EncodeTree([]))] == EncodeTree([])
    requires c.tree == HashOf(EncodeTree([])) && c.state == [] && c.Images() == []
    ensures Closed(store, c)
  {
  }

  // ---------- chains ----------

  /** Recorded checkpoints, each the parent of the one before. */
  ghost predicate Chain(chain: seq<Checkpoint>, cks: Records) {
    && |chain| > 0
    && (forall i :: 0 <= i < |chain| ==> chain[i].id in cks && cks[chain[i].id] == chain[i])
    && (forall i :: 0 <= i < |chain| - 1 ==> chain[i].parent == chain[i + 1].id)
  }

  /** From any checkpoint of a chain to any before it creation times fall, and step numbers where they fall to parents. */
  lemma {:induction false} ChainDescends(chain: seq<Checkpoint>, cks: Records, i: nat, j: nat)
    requires Chain(chain, cks) && Lineage(cks) && i < j < |chain|
    ensures chain[j].created < chain[i].created && chain[j].id != chain[i].id
    ensures Falling(cks) ==> chain[j].number < chain[i].number
    decreases j
  {
    assert chain[j - 1].parent == chain[j].id && cks[chain[j - 1].id] == chain[j - 1];
    if i < j - 1 {
      ChainDescends(chain, cks, i, j - 1);
    }
  }
}
