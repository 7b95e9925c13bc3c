/**
 The worker pool of internal/cas/chunked.go running the chunk jobs of one put.

 The pool is a state machine whose events are the steps the goroutines take between two points where
 they can be interrupted: claiming an index under the lock, looking a blob up, writing it, recording the
 result, failing, exiting.  A schedule is any legal sequence of events.  Every theorem is about all
 schedules, all worker counts and all placements of failures.
 */
module WorkerPool {
  import opened Content
  import opened Blobs
  import opened Images
  import Chunker

  type Error = nat

  /** How a job gets its hash: from the base, through storeChunk, or through zeroHash. */
  datatype Kind = Reuse | Touch | Zero

  /** The jobs of one put, and the store they start from. */
  datatype Plan = Plan(content: seq<Bytes>, kinds: seq<Kind>, start: Store) {
    ghost predicate Valid() {
      && Sound(start) && |kinds| == |content|
      && forall i :: 0 <= i < |content| && kinds[i].Reuse? ==> HashOf(content[i]) in start
    }

    function Name(i: nat): Hash
      requires i < |content|
    {
      HashOf(content[i])
    }
  }

  function KindOf(file: Bytes, spans: seq<Span>, base: Option<Bytes>, i: nat): Kind {
    if Touches(spans, i * CHUNK_SIZE, i * CHUNK_SIZE + ChunkLen(|file|, i)) then Touch
    else if Usable(|file|, base, i) then Reuse
    else Zero
  }

  /** The jobs of putChunked on a sparse file, with an optional base image. */
  function PlanOf(file: Bytes, spans: seq<Span>, base: Option<Bytes>, start: Store): Plan {
    var n := ChunkCount(|file|);
    Plan(seq(n, i requires 0 <= i < n => JobBytes(file, spans, base, i)),
         seq(n, i requires 0 <= i < n => KindOf(file, spans, base, i)), start)
  }

  /** Where an index stands.  Goroutines are alike, so a running index stands for the one that claimed it. */
  datatype Job = Unclaimed | Claimed | Absent | Stored(isNew: bool) | Finished | Failed {
    predicate Running() { Claimed? || Absent? || Stored? }

    /** The events the index has still to go through. */
    function Left(): nat {
      match this
      case Unclaimed => 4
      case Claimed => 3
      case Absent => 2
      case Stored(_) => 1
      case _ => 0
    }
  }

  /**
   `live` goroutines of `workers` have not returned.  `putter` (who first wrote a blob) and `failures` (all
   errors in the order recorded) are history variables.
   */
  datatype Pool = Pool(
    workers: nat, live: nat, next: nat, ferr: Option<Error>, jobs: seq<Job>,
    chunks: seq<Hash>, store: Store, added: set<Hash>,
    putter: map<Hash, nat>, failures: seq<Error>)

  datatype Event = Claim | Exit | Look(i: nat) | Write(i: nat) | Record(i: nat) | Fail(i: nat, e: Error)

  function Init(p: Plan, procs: nat): Pool {
    var n := |p.content|;
    var workers := if procs > n then n else procs;
    Pool(workers, workers, 0, None, seq(n, _ => Unclaimed), seq(n, _ => []), p.start, {}, map[], [])
  }

  function RunningCount(jobs: seq<Job>): nat {
    if jobs == [] then 0 else (if jobs[0].Running() then 1 else 0) + RunningCount(jobs[1..])
  }

  function WorkLeft(jobs: seq<Job>): nat {
    if jobs == [] then 0 else jobs[0].Left() + WorkLeft(jobs[1..])
  }

  lemma {:induction false} Update(jobs: seq<Job>, i: nat, job: Job)
    requires i < |jobs|
    ensures WorkLeft(jobs[i := job]) == WorkLeft(jobs) - jobs[i].Left() + job.Left()
    ensures RunningCount(jobs[i := job])
         == RunningCount(jobs) - (if jobs[i].Running() then 1 else 0) + (if job.Running() then 1 else 0)
    ensures jobs[i].Running() ==> RunningCount(jobs) > 0
  {
    if i == 0 {
      assert jobs[i := job][1..] == jobs[1..];
    } else {
      assert jobs[i := job][1..] == jobs[1..][i - 1 := job];
      Update(jobs[1..], i - 1, job);
    }
  }

  predicate Enabled(p: Plan, s: Pool, ev: Event) {
    var n := |p.content|;
    match ev
    case Claim => RunningCount(s.jobs) < s.live && s.next < n && s.ferr.None?
    case Exit => RunningCount(s.jobs) < s.live && (s.next >= n || s.ferr.Some?)
    case Look(i) => i < |s.jobs| && s.jobs[i].Claimed?
    case Write(i) => i < |s.jobs| && s.jobs[i].Absent?
    case Record(i) => i < |s.jobs| && s.jobs[i].Stored?
    case Fail(i, _) => i < |s.jobs| && (s.jobs[i].Claimed? || s.jobs[i].Absent?)
  }

  /** Which indices are claimed, and the first error recorded. */
  ghost predicate Claims(p: Plan, s: Pool) {
    && s.next <= |p.content| == |p.kinds| == |s.chunks| == |s.jobs|
    && (forall i: nat :: i < |s.jobs| ==> (s.jobs[i].Unclaimed? <==> i >= s.next))
    && s.ferr == (if s.failures == [] then None else Some(s.failures[0]))
    && (forall i: nat :: i < |s.jobs| && s.jobs[i].Failed? ==> s.ferr.Some?)
  }

  /** Running indices are in the hands of live goroutines, and one returns only when there is nothing to claim. */
  ghost predicate Crew(p: Plan, s: Pool) {
    && RunningCount(s.jobs) <= s.live <= s.workers
    && (s.live < s.workers ==> s.next == |p.content| || s.ferr.Some?)
  }

  function Apply(p: Plan, s: Pool, ev: Event): Pool
    requires Claims(p, s) && Enabled(p, s, ev)
  {
    match ev
    case Claim => s.(jobs := s.jobs[s.next := Claimed], next := s.next + 1)
    case Exit => s.(live := s.live - 1)
    case Look(i) =>
      s.(jobs := s.jobs[i := if p.kinds[i].Reuse? || p.Name(i) in s.store then Stored(false) else Absent])
    case Write(i) =>
      s.(jobs := s.jobs[i := Stored(true)], store := Add(s.store, p.content[i]),
         putter := if p.Name(i) in s.putter then s.putter else s.putter[p.Name(i) := i])
    case Record(i) =>
      s.(jobs := s.jobs[i := Finished], chunks := s.chunks[i := p.Name(i)],
         added := if s.jobs[i].isNew && p.kinds[i].Touch? then s.added + {p.Name(i)} else s.added)
    case Fail(i, e) =>
      s.(jobs := s.jobs[i := Failed], ferr := if s.ferr.None? then Some(e) else s.ferr,
         failures := s.failures + [e])
  }

  lemma ClaimsKept(p: Plan, s: Pool, ev: Event)
    requires Claims(p, s) && Enabled(p, s, ev)
    ensures Claims(p, Apply(p, s, ev))
  {
  }

  lemma CrewKept(p: Plan, s: Pool, ev: Event)
    requires Claims(p, s) && Crew(p, s) && Enabled(p, s, ev)
    ensures Crew(p, Apply(p, s, ev))
  {
    var s' := Apply(p, s, ev);
    if !ev.Exit? {
      var i := if ev.Claim? then s.next else ev.i;
      Update(s.jobs, i, s'.jobs[i]);
    }
  }

  /** What is in the store: what was there, and what jobs have put; finished chunks are recorded and present. */
  ghost predicate Contents(p: Plan, s: Pool)
    requires Claims(p, s)
  {
    && Sound(s.store) && Grows(p.start, s.store)
    && (forall h :: h in s.store && h !in p.start ==> h in s.putter)
    && (forall h :: h in s.putter ==> s.putter[h] < |p.content| && p.Name(s.putter[h]) == h)
    && (forall i: nat :: i < |s.jobs| && s.jobs[i].Finished? ==> s.chunks[i] == p.Name(i))
    && (forall i: nat :: i < |s.jobs| && (s.jobs[i].Finished? || s.jobs[i].Stored?) ==> p.Name(i) in s.store)
  }

  lemma WriteKeepsContents(p: Plan, s: Pool, i: nat)
    requires Claims(p, s) && Contents(p, s) && Enabled(p, s, Write(i))
    requires Claims(p, Apply(p, s, Write(i)))
    ensures Contents(p, Apply(p, s, Write(i)))
  {
    AddGrows(s.store, p.content[i]);
    var s' := Apply(p, s, Write(i));
    assert s'.store == Add(s.store, p.content[i]) && s'.chunks == s.chunks;
  }

  lemma LookKeepsContents(p: Plan, s: Pool, i: nat)
    requires p.Valid() && Claims(p, s) && Contents(p, s) && Enabled(p, s, Look(i))
    requires Claims(p, Apply(p, s, Look(i)))
    ensures Contents(p, Apply(p, s, Look(i)))
  {
    var s' := Apply(p, s, Look(i));
    assert s'.store == s.store && s'.putter == s.putter && s'.chunks == s.chunks;
  }

  lemma RecordKeepsContents(p: Plan, s: Pool, i: nat)
    requires Claims(p, s) && Contents(p, s) && Enabled(p, s, Record(i))
    requires Claims(p, Apply(p, s, Record(i)))
    ensures Contents(p, Apply(p, s, Record(i)))
  {
    var s' := Apply(p, s, Record(i));
    assert s'.store == s.store && s'.putter == s.putter;
  }

  lemma OthersKeepContents(p: Plan, s: Pool, ev: Event)
    requires Claims(p, s) && Contents(p, s) && Enabled(p, s, ev) && (ev.Claim? || ev.Exit? || ev.Fail?)
    requires Claims(p, Apply(p, s, ev))
    ensures Contents(p, Apply(p, s, ev))
  {
    var s' := Apply(p, s, ev);
    assert s'.store == s.store && s'.putter == s.putter && s'.chunks == s.chunks;
    assert forall i: nat :: i < |s.jobs| && (s'.jobs[i].Finished? || s'.jobs[i].Stored?) ==> s'.jobs[i] == s.jobs[i];
  }

  lemma ContentsKept(p: Plan, s: Pool, ev: Event)
    requires p.Valid() && Claims(p, s) && Contents(p, s) && Enabled(p, s, ev)
    ensures Claims(p, Apply(p, s, ev)) && Contents(p, Apply(p, s, ev))
  {
    ClaimsKept(p, s, ev);
    match ev
    case Write(i) => WriteKeepsContents(p, s, i);
    case Look(i) => LookKeepsContents(p, s, i);
    case Record(i) => RecordKeepsContents(p, s, i);
    case _ => OthersKeepContents(p, s, ev);
  }

  /** Names of touched chunks the store lacked at the start. */
  ghost function NewTouched(p: Plan): set<Hash>
    requires |p.kinds| == |p.content|
  {
    set i: nat | i < |p.content| && p.kinds[i].Touch? && p.Name(i) !in p.start :: p.Name(i)
  }

  /** Names the zero-chunk path can store. */
  ghost function ZeroNames(p: Plan): set<Hash>
    requires |p.kinds| == |p.content|
  {
    set i: nat | i < |p.content| && p.kinds[i].Zero? :: p.Name(i)
  }

  /** What the counted set holds: only new touched names, and every touched name some job was first to put. */
  ghost predicate Counts(p: Plan, s: Pool)
    requires Claims(p, s) && Contents(p, s)
  {
    s.added <= NewTouched(p) && JobsNew(p, s) && PuttersCounted(p, s)
  }

  ghost predicate JobsNew(p: Plan, s: Pool)
    requires Claims(p, s)
  {
    forall i: nat :: i < |s.jobs| && (s.jobs[i].Absent? || s.jobs[i] == Stored(true)) ==>
      !p.kinds[i].Reuse? && p.Name(i) !in p.start
  }

  ghost predicate PuttersCounted(p: Plan, s: Pool)
    requires Claims(p, s) && Contents(p, s)
  {
    forall h :: h in s.putter ==>
      var i := s.putter[h];
      !p.kinds[i].Reuse? && (p.kinds[i].Touch? ==> h in s.added || s.jobs[i] == Stored(true))
  }

  ghost predicate Inv(p: Plan, s: Pool) {
    Claims(p, s) && Crew(p, s) && Contents(p, s) && Counts(p, s)
  }

  lemma WriteKeepsPutters(p: Plan, s: Pool, i: nat)
    requires Claims(p, s) && Contents(p, s) && Counts(p, s) && Enabled(p, s, Write(i))
    requires Claims(p, Apply(p, s, Write(i))) && Contents(p, Apply(p, s, Write(i)))
    ensures PuttersCounted(p, Apply(p, s, Write(i)))
  {
    var s' := Apply(p, s, Write(i));
    assert s'.jobs == s.jobs[i := Stored(true)] && s'.added == s.added;
  }

  lemma WriteKeepsCounts(p: Plan, s: Pool, i: nat)
    requires Claims(p, s) && Contents(p, s) && Counts(p, s) && Enabled(p, s, Write(i))
    requires Claims(p, Apply(p, s, Write(i))) && Contents(p, Apply(p, s, Write(i)))
    ensures Counts(p, Apply(p, s, Write(i)))
  {
    WriteKeepsPutters(p, s, i);
    assert Apply(p, s, Write(i)).jobs == s.jobs[i := Stored(true)];
  }

  lemma RecordKeepsCounts(p: Plan, s: Pool, i: nat)
    requires Claims(p, s) && Contents(p, s) && Counts(p, s) && Enabled(p, s, Record(i))
    requires Claims(p, Apply(p, s, Record(i))) && Contents(p, Apply(p, s, Record(i)))
    ensures Counts(p, Apply(p, s, Record(i)))
  {
    if s.jobs[i].isNew && p.kinds[i].Touch? {
      assert p.Name(i) in NewTouched(p);
    }
  }

  lemma LookKeepsCounts(p: Plan, s: Pool, i: nat)
    requires Claims(p, s) && Contents(p, s) && Counts(p, s) && Enabled(p, s, Look(i))
    requires Claims(p, Apply(p, s, Look(i))) && Contents(p, Apply(p, s, Look(i)))
    ensures Counts(p, Apply(p, s, Look(i)))
  {
    var s' := Apply(p, s, Look(i));
    assert s'.putter == s.putter && s'.added == s.added;
    assert forall j: nat :: j < |s.jobs| && j != i ==> s'.jobs[j] == s.jobs[j];
    assert s'.jobs[i].Absent? ==> p.Name(i) !in s.store;
  }

  lemma OthersKeepCounts(p: Plan, s: Pool, ev: Event)
    requires Claims(p, s) && Contents(p, s) && Counts(p, s) && Enabled(p, s, ev) && (ev.Claim? || ev.Exit? || ev.Fail?)
    requires Claims(p, Apply(p, s, ev)) && Contents(p, Apply(p, s, ev))
    ensures Counts(p, Apply(p, s, ev))
  {
    var s' := Apply(p, s, ev);
    assert s'.putter == s.putter && s'.added == s.added;
    assert forall i: nat :: i < |s.jobs| && (s'.jobs[i].Absent? || s'.jobs[i].Stored?) ==> s'.jobs[i] == s.jobs[i];
    assert forall i: nat :: i < |s.jobs| && s.jobs[i].Stored? ==> s'.jobs[i] == s.jobs[i];
  }

  lemma StepKeeps(p: Plan, s: Pool, ev: Event)
    requires p.Valid() && Inv(p, s) && Enabled(p, s, ev)
    ensures Inv(p, Apply(p, s, ev))
  {
    CrewKept(p, s, ev);
    ContentsKept(p, s, ev);
    match ev
    case Write(i) => WriteKeepsCounts(p, s, i);
    case Record(i) => RecordKeepsCounts(p, s, i);
    case Look(i) => LookKeepsCounts(p, s, i);
    case _ => OthersKeepCounts(p, s, ev);
  }

  // ---------- schedules ----------

  /** A schedule: each event is possible where it happens.  (`Claims` holds at every such point.) */
  ghost predicate Legal(p: Plan, s: Pool, evs: seq<Event>)
    decreases |evs|
  {
    evs == [] || (Claims(p, s) && Enabled(p, s, evs[0]) && Legal(p, Apply(p, s, evs[0]), evs[1..]))
  }

  ghost function After(p: Plan, s: Pool, evs: seq<Event>): Pool
    requires Legal(p, s, evs)
    decreases |evs|
  {
    if evs == [] then s else After(p, Apply(p, s, evs[0]), evs[1..])
  }

  lemma {:induction false} InvAlways(p: Plan, s: Pool, evs: seq<Event>)
    requires p.Valid() && Inv(p, s) && Legal(p, s, evs)
    ensures Inv(p, After(p, s, evs)) && After(p, s, evs).workers == s.workers
    decreases |evs|
  {
    if evs != [] {
      StepKeeps(p, s, evs[0]);
      InvAlways(p, Apply(p, s, evs[0]), evs[1..]);
    }
  }

  lemma {:induction false} ScheduleBounded(p: Plan, s: Pool, evs: seq<Event>)
    requires Legal(p, s, evs)
    ensures |evs| + WorkLeft(After(p, s, evs).jobs) + After(p, s, evs).live <= WorkLeft(s.jobs) + s.live
    decreases |evs|
  {
    if evs != [] {
      var s' := Apply(p, s, evs[0]);
      if !evs[0].Exit? {
        var i := if evs[0].Claim? then s.next else evs[0].i;
        Update(s.jobs, i, s'.jobs[i]);
      }
      ScheduleBounded(p, s', evs[1..]);
    }
  }

  lemma {:induction false} Unstarted(n: nat)
    ensures WorkLeft(seq(n, _ => Unclaimed)) == 4 * n && RunningCount(seq(n, _ => Unclaimed)) == 0
  {
    if n > 0 {
      assert seq(n, _ => Unclaimed)[1..] == seq(n - 1, _ => Unclaimed);
      Unstarted(n - 1);
    }
  }

  lemma InitInv(p: Plan, procs: nat)
    requires p.Valid()
    ensures Inv(p, Init(p, procs))
  {
    Unstarted(|p.content|);
  }

  lemma {:induction false} SomeRunning(jobs: seq<Job>) returns (i: nat)
    requires RunningCount(jobs) > 0
    ensures i < |jobs| && jobs[i].Running()
  {
    if jobs[0].Running() {
      i := 0;
    } else {
      i := SomeRunning(jobs[1..]);
      i := i + 1;
    }
  }

  /** No schedule runs for ever, and none gets stuck before every goroutine has returned. */
  lemma PoolTerminates(p: Plan, procs: nat, evs: seq<Event>)
    requires p.Valid() && Legal(p, Init(p, procs), evs)
    ensures |evs| <= 5 * |p.content|
    ensures After(p, Init(p, procs), evs).live > 0 ==>
              exists ev :: Enabled(p, After(p, Init(p, procs), evs), ev)
  {
    var s0 := Init(p, procs);
    Unstarted(|p.content|);
    ScheduleBounded(p, s0, evs);
    var s := After(p, s0, evs);
    if s.live > 0 {
      if RunningCount(s.jobs) < s.live {
        assert Enabled(p, s, Claim) || Enabled(p, s, Exit);
      } else {
        var i := SomeRunning(s.jobs);
        assert Enabled(p, s, Look(i)) || Enabled(p, s, Write(i)) || Enabled(p, s, Record(i));
      }
    }
  }

  /** A pool whose goroutines have all returned without an error has run every index. */
  lemma AllFinished(p: Plan, s: Pool)
    requires Claims(p, s) && Crew(p, s) && s.live == 0 && s.ferr.None?
    requires |p.content| > 0 ==> s.workers > 0
    ensures forall i: nat :: i < |s.jobs| ==> s.jobs[i].Finished?
  {
    forall i: nat | i < |s.jobs|
      ensures s.jobs[i].Finished?
    {
      Update(s.jobs, i, s.jobs[i]);
    }
  }

  /**
   The result of every complete schedule.  Without an error, every index ran and recorded its own name,
   the store has gained exactly the recorded blobs, and the counted chunks are the touched ones the store
   lacked, up to those the zero-chunk path may have stored first.  With an error, it is the first recorded.
   */
  lemma PoolResult(p: Plan, procs: nat, evs: seq<Event>)
    requires p.Valid() && procs > 0
    requires Legal(p, Init(p, procs), evs) && After(p, Init(p, procs), evs).live == 0
    ensures var s := After(p, Init(p, procs), evs);
            && s.ferr == (if s.failures == [] then None else Some(s.failures[0]))
            && s.workers <= procs && s.workers <= |p.content| && (s.workers == procs || s.workers == |p.content|)
            && Sound(s.store) && Grows(p.start, s.store)
            && (s.ferr.None? ==>
                  && |s.chunks| == |p.content|
                  && (forall i: nat :: i < |p.content| ==> s.chunks[i] == p.Name(i) && s.chunks[i] in s.store)
                  && (forall h :: h in s.store ==> h in p.start || h in s.chunks)
                  && NewTouched(p) - ZeroNames(p) <= s.added <= NewTouched(p))
  {
    InitInv(p, procs);
    InvAlways(p, Init(p, procs), evs);
    var s := After(p, Init(p, procs), evs);
    if s.ferr.None? {
      AllFinished(p, s);
      forall h | h in s.store && h !in p.start
        ensures h in s.chunks
      {
        assert s.chunks[s.putter[h]] == h;
      }
      forall h | h in NewTouched(p) && h !in ZeroNames(p)
        ensures h in s.added
      {
        NewTouchedCounted(p, s, h);
      }
    }
  }

  lemma NewTouchedCounted(p: Plan, s: Pool, h: Hash)
    requires Claims(p, s) && Contents(p, s) && Counts(p, s) && (forall i: nat :: i < |s.jobs| ==> s.jobs[i].Finished?)
    requires h in NewTouched(p) && h !in ZeroNames(p)
    ensures h in s.added
  {
  }

  /** Once an error is recorded no further index is claimed. */
  lemma {:induction false} NoneAfterError(p: Plan, s: Pool, evs: seq<Event>)
    requires Legal(p, s, evs) && Claims(p, s) && s.ferr.Some?
    ensures After(p, s, evs).next == s.next && After(p, s, evs).ferr == s.ferr
    decreases |evs|
  {
    if evs != [] {
      ClaimsKept(p, s, evs[0]);
      NoneAfterError(p, Apply(p, s, evs[0]), evs[1..]);
    }
  }

  /** How often an index's job is run. */
  function Runs(evs: seq<Event>, i: nat): nat {
    if evs == [] then 0 else (if evs[0] == Look(i) then 1 else 0) + Runs(evs[1..], i)
  }

  /** Every schedule runs each index at most once, and exactly once if it finishes it. */
  lemma {:induction false} RunsOnce(p: Plan, s: Pool, evs: seq<Event>, i: nat)
    requires Legal(p, s, evs) && Claims(p, s) && i < |s.jobs|
    ensures Runs(evs, i) <= if s.jobs[i].Unclaimed? || s.jobs[i].Claimed? then 1 else 0
    ensures |After(p, s, evs).jobs| == |s.jobs| && (s.jobs[i].Failed? ==> After(p, s, evs).jobs[i].Failed?)
    ensures After(p, s, evs).jobs[i].Finished? ==> Runs(evs, i) == if s.jobs[i].Unclaimed? || s.jobs[i].Claimed? then 1 else 0
    decreases |evs|
  {
    if evs != [] {
      ClaimsKept(p, s, evs[0]);
      RunsOnce(p, Apply(p, s, evs[0]), evs[1..], i);
    }
  }

  lemma PlanValid(file: Bytes, spans: seq<Span>, base: Option<Bytes>, start: Store)
    requires Sound(start) && (base.Some? ==> ChunksIn(start, base.value))
    ensures PlanOf(file, spans, base, start).Valid()
  {
  }

  /** Some of chunk i is data of the file. */
  predicate HasData(size: nat, spans: seq<Span>, i: nat) {
    Touches(spans, i * CHUNK_SIZE, i * CHUNK_SIZE + ChunkLen(size, i))
  }

  /** The names of the image's chunks that hold data of the file and that the store lacks. */
  ghost function DataNames(image: Bytes, spans: seq<Span>, start: Store): set<Hash> {
    set i: nat | i < ChunkCount(|image|) && HasData(|image|, spans, i) && HashOf(Slice(image, i)) !in start ::
      HashOf(Slice(image, i))
  }

  ghost function ZeroChunk(size: nat, i: nat): Bytes
    requires i < ChunkCount(size)
  {
    ChunkBounds(size, i);
    Zeros(ChunkLen(size, i))
  }

  /** The names of the zero chunks put for parts without data and without a base chunk to reuse. */
  ghost function FillNames(size: nat, spans: seq<Span>, base: Option<Bytes>): set<Hash> {
    set i: nat | i < ChunkCount(size) && !HasData(size, spans, i) && !Usable(size, base, i) :: HashOf(ZeroChunk(size, i))
  }

  lemma PlanCounts(file: Bytes, spans: seq<Span>, base: Option<Bytes>, start: Store)
    requires HolesZero(file, spans)
    ensures NewTouched(PlanOf(file, spans, base, start)) == DataNames(Overlay(file, spans, base), spans, start)
    ensures ZeroNames(PlanOf(file, spans, base, start)) == FillNames(|file|, spans, base)
  {
    var p, image := PlanOf(file, spans, base, start), Overlay(file, spans, base);
    forall i: nat | i < |p.content|
      ensures p.Name(i) == HashOf(Slice(image, i))
      ensures p.kinds[i].Touch? <==> HasData(|file|, spans, i)
      ensures p.kinds[i].Zero? ==> p.Name(i) == HashOf(ZeroChunk(|file|, i))
      ensures p.kinds[i].Zero? <==> !HasData(|file|, spans, i) && !Usable(|file|, base, i)
    {
      JobIsSlice(file, spans, base, i);
    }
    forall h
      ensures h in NewTouched(p) ==> h in DataNames(image, spans, start)
      ensures h in DataNames(image, spans, start) ==> h in NewTouched(p)
    {
      if h in DataNames(image, spans, start) {
        var i: nat :| i < ChunkCount(|image|) && HasData(|image|, spans, i) && HashOf(Slice(image, i)) !in start && h == HashOf(Slice(image, i));
        assert p.Name(i) == h;
      }
    }
    forall h
      ensures h in ZeroNames(p) ==> h in FillNames(|file|, spans, base)
      ensures h in FillNames(|file|, spans, base) ==> h in ZeroNames(p)
    {
      if h in FillNames(|file|, spans, base) {
        var i: nat :| i < ChunkCount(|file|) && !HasData(|file|, spans, i) && !Usable(|file|, base, i) && h == HashOf(ZeroChunk(|file|, i));
        assert p.kinds[i].Zero?;
      }
    }
  }

  /**
   Whatever the schedule, a put that meets no error builds the manifest of the overlay image, as the
   sequential loop does, and with its manifest the store gains exactly that image.  The new chunks it reports
   are the names of the chunks with data that the store lacked, less perhaps some that are also put as zeros.
   */
  lemma ConcurrentPut(file: Bytes, spans: seq<Span>, base: Option<Bytes>, start: Store, procs: nat, evs: seq<Event>)
    requires Sound(start) && HolesZero(file, spans) && (base.Some? ==> ChunksIn(start, base.value)) && procs > 0
    requires var p := PlanOf(file, spans, base, start);
             Legal(p, Init(p, procs), evs) && After(p, Init(p, procs), evs).live == 0
    requires After(PlanOf(file, spans, base, start), Init(PlanOf(file, spans, base, start), procs), evs).ferr.None?
    ensures var p := PlanOf(file, spans, base, start);
            var s := After(p, Init(p, procs), evs);
            var image := Overlay(file, spans, base);
            && Manifest(|file|, s.chunks) == ManifestOf(image)
            && Add(s.store, EncodeManifest(ManifestOf(image))) == AddImage(start, image)
            && DataNames(image, spans, start) - FillNames(|file|, spans, base) <= s.added <= DataNames(image, spans, start)
  {
    var p, image := PlanOf(file, spans, base, start), Overlay(file, spans, base);
    PlanValid(file, spans, base, start);
    PlanCounts(file, spans, base, start);
    PoolResult(p, procs, evs);
    var s := After(p, Init(p, procs), evs);
    forall i: nat | i < |p.content|
      ensures p.Name(i) == HashOf(Slice(image, i))
    {
      JobIsSlice(file, spans, base, i);
    }
    Chunker.ProgressDone(start, s.store, image, s.chunks);
  }
}
