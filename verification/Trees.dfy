/** Snapshots of a directory as sorted entries, and their difference (internal/tree/tree.go). */
module Trees {
  import opened Content

  // ---------- the order of paths ----------

  /** Strict byte-wise lexicographic order. */
  predicate Before(a: Bytes, b: Bytes)
    decreases |a|
  {
    b != [] && (a == [] || a[0] < b[0] || (a[0] == b[0] && Before(a[1..], b[1..])))
  }

  lemma {:induction false} BeforeIrreflexive(a: Bytes)
    ensures !Before(a, a)
    decreases |a|
  {
    if a != [] {
      BeforeIrreflexive(a[1..]);
    }
  }

  /** At the first difference the smaller byte comes first. */
  lemma {:induction false} BeforeAtDifference(a: Bytes, b: Bytes, k: nat)
    requires k < |a| && k < |b| && a[..k] == b[..k] && a[k] != b[k]
    ensures Before(a, b) <==> a[k] < b[k]
    decreases k
  {
    if k > 0 {
      assert a[0] == a[..k][0] == b[..k][0] == b[0];
      assert a[1..][..k - 1] == a[..k][1..] && b[1..][..k - 1] == b[..k][1..];
      BeforeAtDifference(a[1..], b[1..], k - 1);
    }
  }

  lemma {:induction false} BeforeTransitive(a: Bytes, b: Bytes, c: Bytes)
    requires Before(a, b) && Before(b, c)
    ensures Before(a, c)
    decreases |a|
  {
    if a != [] && a[0] == b[0] == c[0] {
      BeforeTransitive(a[1..], b[1..], c[1..]);
    }
  }

  lemma {:induction false} BeforeTotal(a: Bytes, b: Bytes)
    ensures Before(a, b) || a == b || Before(b, a)
    decreases |a|
  {
    if a != [] && b != [] && a[0] == b[0] {
      BeforeTotal(a[1..], b[1..]);
      assert a == [a[0]] + a[1..] && b == [b[0]] + b[1..];
    }
  }

  /** What makes directories come before their contents. */
  lemma {:induction false} PrefixBefore(a: Bytes, b: Bytes)
    requires |a| < |b| && b[..|a|] == a
    ensures Before(a, b)
    decreases |a|
  {
    if a != [] {
      assert b[0] == b[..|a|][0] == a[0];
      assert b[1..][..|a[1..]|] == b[..|a|][1..] == a[1..];
      PrefixBefore(a[1..], b[1..]);
    }
  }

  ghost predicate SortedBy<T>(xs: seq<T>, key: T -> Bytes) {
    forall i, j :: 0 <= i < j < |xs| ==> !Before(key(xs[j]), key(xs[i]))
  }

  function InsertBy<T>(x: T, xs: seq<T>, key: T -> Bytes): (r: seq<T>)
    ensures multiset(r) == multiset(xs) + multiset{x}
  {
    if xs == [] then [x]
    else if Before(key(xs[0]), key(x)) then
      assert xs == [xs[0]] + xs[1..];
      [xs[0]] + InsertBy(x, xs[1..], key)
    else [x] + xs
  }

  function SortBy<T>(xs: seq<T>, key: T -> Bytes): (r: seq<T>)
    ensures multiset(r) == multiset(xs)
  {
    if xs == [] then [] else
    assert xs == [xs[0]] + xs[1..];
    InsertBy(xs[0], SortBy(xs[1..], key), key)
  }

  lemma {:induction false} InsertKeepsOrder<T>(x: T, xs: seq<T>, key: T -> Bytes)
    requires SortedBy(xs, key)
    ensures SortedBy(InsertBy(x, xs, key), key)
  {
    var r := InsertBy(x, xs, key);
    if xs != [] && Before(key(xs[0]), key(x)) {
      var rest := InsertBy(x, xs[1..], key);
      InsertKeepsOrder(x, xs[1..], key);
      forall j | 0 <= j < |rest|
        ensures !Before(key(rest[j]), key(xs[0]))
      {
        assert rest[j] in multiset(xs[1..]) + multiset{x};
        if rest[j] == x {
          NotBoth(key(xs[0]), key(x));
        }
      }
    } else if xs != [] {
      forall j | 0 <= j < |xs|
        ensures !Before(key(xs[j]), key(x))
      {
        if Before(key(xs[j]), key(x)) {
          BeforeTotal(key(xs[0]), key(xs[j]));
          if Before(key(xs[0]), key(xs[j])) {
            BeforeTransitive(key(xs[0]), key(xs[j]), key(x));
          }
        }
      }
    }
  }

  lemma NotBoth(a: Bytes, b: Bytes)
    requires Before(a, b)
    ensures !Before(b, a)
  {
  }

  lemma {:induction false} SortBySorts<T>(xs: seq<T>, key: T -> Bytes)
    ensures SortedBy(SortBy(xs, key), key)
  {
    if xs != [] {
      SortBySorts(xs[1..], key);
      InsertKeepsOrder(xs[0], SortBy(xs[1..], key), key);
    }
  }

  ghost predicate DistinctBy<T>(xs: seq<T>, key: T -> Bytes) {
    forall i, j :: 0 <= i < j < |xs| ==> key(xs[i]) != key(xs[j])
  }

  ghost predicate StrictBy<T>(xs: seq<T>, key: T -> Bytes) {
    forall i, j :: 0 <= i < j < |xs| ==> Before(key(xs[i]), key(xs[j]))
  }

  /** Sorting distinct keys orders them strictly and keeps the elements. */
  lemma SortDistinct<T>(xs: seq<T>, key: T -> Bytes)
    requires DistinctBy(xs, key)
    ensures forall x :: x in SortBy(xs, key) <==> x in xs
    ensures StrictBy(SortBy(xs, key), key)
  {
    var r := SortBy(xs, key);
    SortBySorts(xs, key);
    forall x
      ensures x in r <==> x in xs
    {
      assert x in multiset(r) <==> x in multiset(xs);
    }
    forall i, j | 0 <= i < j < |r|
      ensures Before(key(r[i]), key(r[j]))
    {
      TwoOfOneKey(xs, r, key, i, j);
      BeforeTotal(key(r[i]), key(r[j]));
    }
  }

  lemma TwoOfOneKey<T>(xs: seq<T>, r: seq<T>, key: T -> Bytes, i: nat, j: nat)
    requires DistinctBy(xs, key) && multiset(r) == multiset(xs) && i < j < |r|
    ensures key(r[i]) != key(r[j])
  {
    if key(r[i]) == key(r[j]) {
      assert r[i] in multiset(xs) && r[j] in multiset(xs);
      assert r[i] == r[j];
      var x := r[i];
      assert r == r[..j] + [r[j]] + r[j + 1..];
      assert x in r[..j];
      assert multiset(r)[x] >= 2;
      OnceOnly(xs, key, x);
    }
  }

  lemma {:induction false} OnceOnly<T>(xs: seq<T>, key: T -> Bytes, x: T)
    requires DistinctBy(xs, key)
    ensures multiset(xs)[x] <= 1
  {
    if xs != [] {
      assert xs == [xs[0]] + xs[1..];
      OnceOnly(xs[1..], key, x);
      if xs[0] == x {
        assert x !in xs[1..];
      }
    }
  }

  // ---------- trees ----------

  ghost predicate UniquePaths(t: Tree) {
    forall i, j :: 0 <= i < j < |t| ==> t[i].path != t[j].path
  }

  function Lookup(t: Tree, path: Bytes): Option<Entry> {
    if t == [] then None else if t[0].path == path then Some(t[0]) else Lookup(t[1..], path)
  }

  lemma {:induction false} LookupIn(t: Tree, path: Bytes)
    ensures Lookup(t, path).Some? ==> Lookup(t, path).value in t && Lookup(t, path).value.path == path
    ensures Lookup(t, path).None? ==> forall e :: e in t ==> e.path != path
  {
    if t != [] {
      LookupIn(t[1..], path);
    }
  }

  lemma LookupEntry(t: Tree, i: nat)
    requires UniquePaths(t) && i < |t|
    ensures Lookup(t, t[i].path) == Some(t[i])
  {
    LookupIn(t, t[i].path);
    if Lookup(t, t[i].path).Some? {
      var j :| 0 <= j < |t| && t[j] == Lookup(t, t[i].path).value;
    }
  }

  /** Leaves off a leading "./". */
  function Trim(path: Bytes): Bytes {
    if |path| >= 2 && path[..2] == [46, 47] then path[2..] else path
  }

  /** The first entry for a path. */
  method Find(t: Tree, path: Bytes) returns (r: Option<Entry>)
    ensures r.Some? ==> r.value in t && r.value.path == Trim(path)
    ensures r.None? ==> forall e :: e in t ==> e.path != Trim(path)
    ensures r == Lookup(t, Trim(path))
  {
    var p := Trim(path);
    LookupIn(t, p);
    for i := 0 to |t|
      invariant Lookup(t, p) == Lookup(t[i..], p)
    {
      if t[i].path == p {
        return Some(t[i]);
      }
    }
    return None;
  }

  predicate SameEntry(a: Entry, b: Entry) {
    a.mode == b.mode && a.size == b.size && a.hash == b.hash && a.link == b.link && a.dir == b.dir
  }

  datatype Kind = Added | Modified | Deleted
  datatype Change = Change(path: Bytes, kind: Kind)

  /** What happened to a path, from what each tree has there. */
  function KindOf(before: Option<Entry>, after: Option<Entry>): Option<Kind> {
    match (before, after)
    case (None, Some(_)) => Some(Added)
    case (Some(_), None) => Some(Deleted)
    case (Some(a), Some(b)) => if SameEntry(a, b) then None else Some(Modified)
    case (None, None) => None
  }

  ghost function Paths(t: Tree): set<Bytes> {
    if t == [] then {} else {t[0].path} + Paths(t[1..])
  }

  lemma {:induction false} PathsLookup(t: Tree, path: Bytes)
    ensures path in Paths(t) <==> Lookup(t, path).Some?
  {
    if t != [] {
      PathsLookup(t[1..], path);
    }
  }

  lemma {:induction false} PathsSize(t: Tree)
    requires UniquePaths(t)
    ensures |Paths(t)| == |t|
  {
    if t != [] {
      PathsSize(t[1..]);
      PathsLookup(t[1..], t[0].path);
      LookupIn(t[1..], t[0].path);
    }
  }

  /** The entries by path; the last one counts where a path comes twice. */
  method ByPath(t: Tree) returns (m: map<Bytes, Entry>)
    ensures UniquePaths(t) ==> forall p :: p in m <==> Lookup(t, p).Some?
    ensures UniquePaths(t) ==> forall p :: p in m ==> Lookup(t, p) == Some(m[p])
  {
    m := map[];
    for i := 0 to |t|
      invariant UniquePaths(t) ==> forall j :: 0 <= j < i ==> t[j].path in m && m[t[j].path] == t[j]
      invariant UniquePaths(t) ==> forall p :: p in m ==> Lookup(t, p) == Some(m[p])
    {
      if UniquePaths(t) {
        LookupEntry(t, i);
      }
      m := m[t[i].path := t[i]];
    }
    forall p | Lookup(t, p).Some?
      ensures UniquePaths(t) ==> p in m
    {
      LookupIn(t, p);
    }
  }

  function ChangePath(c: Change): Bytes { c.path }

  ghost function PathsOfKind(changes: seq<Change>, kind: Kind): set<Bytes> {
    set c | c in changes && c.kind == kind :: c.path
  }

  /** Lists exactly the differing paths. */
  ghost predicate ListsChanges(changes: seq<Change>, before: Tree, after: Tree) {
    forall c :: c in changes <==> KindOf(Lookup(before, c.path), Lookup(after, c.path)) == Some(c.kind)
  }

  lemma PathOfKind(changes: seq<Change>, before: Tree, after: Tree, kind: Kind, path: Bytes)
    requires ListsChanges(changes, before, after)
    ensures path in PathsOfKind(changes, kind) <==> KindOf(Lookup(before, path), Lookup(after, path)) == Some(kind)
  {
    if KindOf(Lookup(before, path), Lookup(after, path)) == Some(kind) {
      assert Change(path, kind) in changes;
    }
  }

  /** Added less deleted is the growth of the tree. */
  lemma ChangeCounts(changes: seq<Change>, before: Tree, after: Tree)
    requires UniquePaths(before) && UniquePaths(after) && ListsChanges(changes, before, after)
    ensures |PathsOfKind(changes, Added)| - |PathsOfKind(changes, Deleted)| == |after| - |before|
  {
    var a, b, added, deleted := Paths(after), Paths(before), PathsOfKind(changes, Added), PathsOfKind(changes, Deleted);
    PathsSize(before);
    PathsSize(after);
    forall p
      ensures p in added <==> p in a - b
      ensures p in deleted <==> p in b - a
    {
      PathsLookup(after, p);
      PathsLookup(before, p);
      PathOfKind(changes, before, after, Added, p);
      PathOfKind(changes, before, after, Deleted, p);
    }
    SetDifferences(a, b, added, deleted);
  }

  lemma SetDifferences(a: set<Bytes>, b: set<Bytes>, added: set<Bytes>, deleted: set<Bytes>)
    requires added == a - b && deleted == b - a
    ensures |added| - |deleted| == |a| - |b|
  {
  }

  ghost predicate TrueChanges(found: seq<Change>, before: Tree, after: Tree) {
    && DistinctBy(found, ChangePath)
    && forall c :: c in found ==> KindOf(Lookup(before, c.path), Lookup(after, c.path)) == Some(c.kind)
  }

  /** What the entry at a path of the new tree amounts to. */
  function NewKind(before: Tree, e: Entry): Option<Kind> { KindOf(Lookup(before, e.path), Some(e)) }

  /** Both trees list each path once, as trees made by a walk do. */
  ghost predicate BothUnique(before: Tree, after: Tree) { UniquePaths(before) && UniquePaths(after) }

  /** The changes are true, and none is missing among the first n paths of the new tree. */
  ghost predicate FoundNew(found: seq<Change>, before: Tree, after: Tree, n: nat)
    requires n <= |after|
  {
    && TrueChanges(found, before, after)
    && (forall c :: c in found ==> Lookup(after, c.path).Some?)
    && (forall j :: 0 <= j < n && NewKind(before, after[j]).Some? ==>
          Change(after[j].path, NewKind(before, after[j]).value) in found)
  }

  /** The added and modified paths, in the order of the new tree. */
  method AddedOrModified(before: Tree, after: Tree, oldByPath: map<Bytes, Entry>) returns (found: seq<Change>)
    requires BothUnique(before, after) ==> forall p :: p in oldByPath <==> Lookup(before, p).Some?
    requires BothUnique(before, after) ==> forall p :: p in oldByPath ==> Lookup(before, p) == Some(oldByPath[p])
    ensures BothUnique(before, after) ==> FoundNew(found, before, after, |after|)
  {
    found := [];
    for i := 0 to |after|
      invariant BothUnique(before, after) ==> FoundNew(found, before, after, i)
      invariant BothUnique(before, after) ==> forall c, j :: c in found && i <= j < |after| ==> c.path != after[j].path
    {
      var e := after[i];
      if BothUnique(before, after) {
        LookupEntry(after, i);
      }
      if e.path !in oldByPath {
        found := found + [Change(e.path, Added)];
      } else if !SameEntry(oldByPath[e.path], e) {
        found := found + [Change(e.path, Modified)];
      }
    }
  }

  /** Of the first n paths of the old tree, those that are gone have been found. */
  ghost predicate FoundOld(found: seq<Change>, before: Tree, after: Tree, n: nat)
    requires n <= |before|
  {
    && TrueChanges(found, before, after)
    && forall j :: 0 <= j < n && Lookup(after, before[j].path).None? ==> Change(before[j].path, Deleted) in found
  }

  /** The deleted paths after those found already. */
  method WithDeleted(before: Tree, after: Tree, newByPath: map<Bytes, Entry>, first: seq<Change>) returns (found: seq<Change>)
    requires BothUnique(before, after) ==> FoundNew(first, before, after, |after|)
    requires BothUnique(before, after) ==> forall p :: p in newByPath <==> Lookup(after, p).Some?
    ensures BothUnique(before, after) ==> FoundOld(found, before, after, |before|) && first <= found
  {
    found := first;
    for i := 0 to |before|
      invariant BothUnique(before, after) ==> FoundOld(found, before, after, i) && first <= found
      invariant BothUnique(before, after) ==>
                  forall c, j :: c in found && i <= j < |before| && Lookup(after, before[j].path).None? ==> c.path != before[j].path
    {
      if BothUnique(before, after) {
        LookupEntry(before, i);
      }
      if before[i].path !in newByPath {
        found := found + [Change(before[i].path, Deleted)];
      }
    }
  }

  lemma Complete(found: seq<Change>, first: seq<Change>, before: Tree, after: Tree)
    requires BothUnique(before, after) && FoundNew(first, before, after, |after|) && FoundOld(found, before, after, |before|)
    requires first <= found
    ensures ListsChanges(found, before, after)
  {
    forall c: Change | KindOf(Lookup(before, c.path), Lookup(after, c.path)) == Some(c.kind)
      ensures c in found
    {
      LookupIn(before, c.path);
      LookupIn(after, c.path);
      if Lookup(after, c.path).Some? {
        var j :| 0 <= j < |after| && after[j] == Lookup(after, c.path).value;
        assert Change(after[j].path, c.kind) == c;
      } else {
        var j :| 0 <= j < |before| && before[j] == Lookup(before, c.path).value;
        assert Change(before[j].path, Deleted) == c;
      }
    }
  }

  /** Strictly by path, so each path once. */
  ghost predicate InPathOrder(changes: seq<Change>) {
    forall i, j :: 0 <= i < j < |changes| ==> Before(changes[i].path, changes[j].path)
  }

  /** A missing tree is an empty one. */
  function OrNone(prior: Option<Tree>): (t: Tree)
    ensures prior == Some(t) || (prior == None && t == [])
  {
    if prior.Some? then prior.value else []
  }

  /** Each differing path once, in order; a missing old tree is an empty one. */
  method Diff(prior: Option<Tree>, after: Tree) returns (changes: seq<Change>)
    ensures BothUnique(OrNone(prior), after) ==> ListsChanges(changes, OrNone(prior), after) && InPathOrder(changes)
  {
    var before := OrNone(prior);
    var oldByPath := ByPath(before);
    var newByPath := ByPath(after);
    var first := AddedOrModified(before, after, oldByPath);
    var found := WithDeleted(before, after, newByPath, first);
    changes := SortBy(found, ChangePath);
    if BothUnique(before, after) {
      Complete(found, first, before, after);
      SortDistinct(found, ChangePath);
      assert forall i, j :: 0 <= i < j < |changes| ==> Before(ChangePath(changes[i]), ChangePath(changes[j]));
    }
  }

  /**
   What the changes say of the entries themselves: a path in both trees is modified exactly when its entries
   differ, one in the new tree only is added, one in the old tree only deleted, and no other is listed.
   */
  lemma ChangesMean(changes: seq<Change>, before: Tree, after: Tree)
    requires BothUnique(before, after) && ListsChanges(changes, before, after)
    ensures forall i, j :: 0 <= i < |before| && 0 <= j < |after| && before[i].path == after[j].path ==>
              (Change(after[j].path, Modified) in changes <==> before[i] != after[j])
    ensures forall p :: Change(p, Added) in changes <==> Has(after, p) && !Has(before, p)
    ensures forall p :: Change(p, Deleted) in changes <==> Has(before, p) && !Has(after, p)
    ensures forall p :: Change(p, Modified) in changes ==> Has(before, p) && Has(after, p)
  {
    forall i, j | 0 <= i < |before| && 0 <= j < |after| && before[i].path == after[j].path
      ensures Change(after[j].path, Modified) in changes <==> before[i] != after[j]
    {
      LookupEntry(before, i);
      LookupEntry(after, j);
    }
    forall p
      ensures Lookup(before, p).Some? <==> Has(before, p)
      ensures Lookup(after, p).Some? <==> Has(after, p)
    {
      HasLookup(before, p);
      HasLookup(after, p);
    }
  }

  /** Some entry has the path. */
  ghost predicate Has(t: Tree, p: Bytes) {
    exists i :: 0 <= i < |t| && t[i].path == p
  }

  lemma HasLookup(t: Tree, p: Bytes)
    ensures Lookup(t, p).Some? <==> Has(t, p)
  {
    LookupIn(t, p);
  }

  // ---------- counts ----------

  /** How many changes of a kind there are. */
  method CountKind(changes: seq<Change>, kind: Kind) returns (n: int)
    ensures n == KindCount(changes, kind)
  {
    n := 0;
    for i := 0 to |changes|
      invariant n == KindCount(changes[..i], kind)
    {
      assert changes[..i + 1][..i] == changes[..i];
      if changes[i].kind == kind {
        n := n + 1;
      }
    }
    assert changes[..|changes|] == changes;
  }

  ghost function KindCount(changes: seq<Change>, kind: Kind): nat {
    if changes == [] then 0
    else KindCount(changes[..|changes| - 1], kind) + if changes[|changes| - 1].kind == kind then 1 else 0
  }

  /** In a list with each path once, it is the number of paths. */
  lemma {:induction false} KindCountIsPaths(changes: seq<Change>, kind: Kind)
    requires DistinctBy(changes, ChangePath)
    ensures KindCount(changes, kind) == |PathsOfKind(changes, kind)|
  {
    if changes == [] {
      assert PathsOfKind(changes, kind) == {};
    } else {
      var n := |changes| - 1;
      var rest, last := changes[..n], changes[n];
      KindCountIsPaths(rest, kind);
      assert changes == rest + [last];
      OneMoreOfKind(rest, last, kind);
      assert forall c :: c in rest ==> c.path != last.path by {
        assert forall i :: 0 <= i < n ==> ChangePath(changes[i]) != ChangePath(changes[n]);
      }
    }
  }

  lemma OneMoreOfKind(rest: seq<Change>, last: Change, kind: Kind)
    ensures PathsOfKind(rest + [last], kind) == PathsOfKind(rest, kind) + if last.kind == kind then {last.path} else {}
  {
    var all := rest + [last];
    assert last in all && forall c :: c in rest ==> c in all;
  }

  /** The paths of both trees whose entries differ. */
  ghost function Differing(before: Tree, after: Tree): set<Bytes> {
    set i, j | 0 <= i < |before| && 0 <= j < |after| && before[i].path == after[j].path && before[i] != after[j] :: after[j].path
  }

  /** The counts of a step: paths only in the new tree, in both with differing entries, and only in the old one. */
  ghost predicate Counts(added: int, modified: int, deleted: int, before: Tree, after: Tree) {
    && added == |Paths(after) - Paths(before)|
    && modified == |Differing(before, after)|
    && deleted == |Paths(before) - Paths(after)|
  }

  lemma PathsHas(t: Tree, p: Bytes)
    ensures p in Paths(t) <==> Has(t, p)
  {
    PathsLookup(t, p);
    HasLookup(t, p);
  }

  lemma KindSets(changes: seq<Change>, before: Tree, after: Tree)
    requires BothUnique(before, after) && ListsChanges(changes, before, after)
    ensures PathsOfKind(changes, Added) == Paths(after) - Paths(before)
    ensures PathsOfKind(changes, Modified) == Differing(before, after)
    ensures PathsOfKind(changes, Deleted) == Paths(before) - Paths(after)
  {
    ChangesMean(changes, before, after);
    forall p
      ensures p in PathsOfKind(changes, Added) <==> p in Paths(after) - Paths(before)
      ensures p in PathsOfKind(changes, Deleted) <==> p in Paths(before) - Paths(after)
      ensures p in PathsOfKind(changes, Modified) <==> p in Differing(before, after)
    {
      PathsHas(before, p);
      PathsHas(after, p);
      assert p in PathsOfKind(changes, Added) <==> Change(p, Added) in changes;
      assert p in PathsOfKind(changes, Deleted) <==> Change(p, Deleted) in changes;
      assert p in PathsOfKind(changes, Modified) <==> Change(p, Modified) in changes;
      if Change(p, Modified) in changes {
        var i :| 0 <= i < |before| && before[i].path == p;
        var j :| 0 <= j < |after| && after[j].path == p;
        assert before[i] != after[j];
      }
    }
  }

  /** Diffs two trees and counts what changed. */
  method CountChanges(prior: Option<Tree>, after: Tree) returns (added: int, modified: int, deleted: int)
    ensures BothUnique(OrNone(prior), after) ==> Counts(added, modified, deleted, OrNone(prior), after)
  {
    var changes := Diff(prior, after);
    added := CountKind(changes, Added);
    modified := CountKind(changes, Modified);
    deleted := CountKind(changes, Deleted);
    if BothUnique(OrNone(prior), after) {
      OrderDistinct(changes);
      KindCountIsPaths(changes, Added);
      KindCountIsPaths(changes, Modified);
      KindCountIsPaths(changes, Deleted);
      KindSets(changes, OrNone(prior), after);
    }
  }

  lemma OrderDistinct(changes: seq<Change>)
    requires InPathOrder(changes)
    ensures DistinctBy(changes, ChangePath)
  {
    forall i, j | 0 <= i < j < |changes|
      ensures ChangePath(changes[i]) != ChangePath(changes[j])
    {
      BeforeIrreflexive(changes[i].path);
    }
  }
}
