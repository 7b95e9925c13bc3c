/** What a checkpoint refers to, and what it means for a store to hold all of it. */
module Closure {
  import opened Content
  import opened Blobs
  import opened Images
  import opened Trees

  /** A chunked object with its manifest and every chunk. */
  ghost predicate ImageClosed(s: Store, h: Hash) {
    && h in s && DecodeManifest(s[h]).Some?
    && forall c :: c in DecodeManifest(s[h]).value.chunks ==> c in s
  }

  ghost predicate TreeClosed(s: Store, h: Hash) {
    && h in s && DecodeTree(s[h]).Some?
    && forall e :: e in DecodeTree(s[h]).value && e.hash != [] ==> e.hash in s
  }

  /** The tree, every file, the device state and the machine images are all there. */
  ghost predicate Closed(s: Store, c: Checkpoint) {
    && TreeClosed(s, c.tree)
    && (c.state != [] ==> c.state in s)
    && (forall h :: h in c.Images() ==> ImageClosed(s, h))
  }

  /** Field by field: every entry's file, the state, and the memory, disk and base disk images. */
  lemma ClosedMeans(s: Store, c: Checkpoint)
    ensures Closed(s, c) <==>
              && c.tree in s && DecodeTree(s[c.tree]).Some?
              && (forall i :: 0 <= i < |DecodeTree(s[c.tree]).value| && DecodeTree(s[c.tree]).value[i].hash != [] ==>
                    DecodeTree(s[c.tree]).value[i].hash in s)
              && (c.state == [] || c.state in s) && (c.mem == [] || ImageClosed(s, c.mem))
              && (c.disk == [] || ImageClosed(s, c.disk)) && (c.base == [] || ImageClosed(s, c.base))
  {
    assert forall h :: h in c.Images() <==> h != [] && (h == c.mem || h == c.disk || h == c.base);
  }

  lemma ClosedGrows(s: Store, s': Store, c: Checkpoint)
    requires Closed(s, c) && Grows(s, s')
    ensures Closed(s', c)
  {
  }

  lemma HoldsClosed(s: Store, img: Bytes)
    requires Sound(s) && Holds(s, img)
    ensures ImageClosed(s, ImageHash(img))
  {
  }

  /** "-> " and a newline around a link's target. */
  function ShowLink(target: Bytes): Bytes { [45, 62, 32] + target + [10] }

  /** The contents of a path as captured at a checkpoint, read from the store alone. */
  function ReadFile(s: Store, c: Checkpoint, path: Bytes): Result<Bytes> {
    if c.tree !in s then Err(NotFound) else if DecodeTree(s[c.tree]).None? then Err(Invalid) else
    match Lookup(DecodeTree(s[c.tree]).value, Trim(path))
    case None => Err(NotFound)
    case Some(e) =>
      if e.link != [] then Ok(ShowLink(e.link))
      else if e.dir then Err(Invalid)
      else if e.hash !in s then Err(NotFound)
      else Ok(s[e.hash])
  }

  /**
   What reading a path of a closed checkpoint gives, by the entries of its tree: a file's bytes, a link's target
   as text, and errors for a directory or a path not listed; a leading "./" makes no difference.
   */
  lemma ReadsWhatIsListed(s: Store, c: Checkpoint, i: nat)
    requires Sound(s) && Closed(s, c) && UniquePaths(DecodeTree(s[c.tree]).value) && i < |DecodeTree(s[c.tree]).value|
    ensures var e := DecodeTree(s[c.tree]).value[i];
            !StartsHere(e.path) ==>
              && ReadFile(s, c, [46, 47] + e.path) == ReadFile(s, c, e.path)
              && (e.link != [] ==> ReadFile(s, c, e.path) == Ok([45, 62, 32] + e.link + [10]))
              && (e.link == [] && e.dir ==> ReadFile(s, c, e.path) == Err(Invalid))
              && (e.link == [] && !e.dir && e.hash != [] ==>
                    ReadFile(s, c, e.path).Ok? && HashOf(ReadFile(s, c, e.path).value) == e.hash)
  {
    var t := DecodeTree(s[c.tree]).value;
    LookupEntry(t, i);
    TrimHere(t[i].path);
    assert t[i] in t;
  }

  /** The path begins with "./". */
  predicate StartsHere(path: Bytes) { |path| >= 2 && path[0] == 46 && path[1] == 47 }

  lemma TrimHere(path: Bytes)
    ensures !StartsHere(path) ==> Trim(path) == path
    ensures Trim([46, 47] + path) == path
  {
    assert ([46, 47] + path)[..2] == [46, 47] && ([46, 47] + path)[2..] == path;
    if |path| >= 2 {
      assert path[..2] == [path[0], path[1]];
    }
  }

  lemma ReadsNothingElse(s: Store, c: Checkpoint, path: Bytes)
    requires Closed(s, c) && !StartsHere(path) && forall i :: 0 <= i < |DecodeTree(s[c.tree]).value| ==> DecodeTree(s[c.tree]).value[i].path != path
    ensures ReadFile(s, c, path) == Err(NotFound) && ReadFile(s, c, [46, 47] + path) == Err(NotFound)
  {
    TrimHere(path);
    LookupIn(DecodeTree(s[c.tree]).value, path);
  }

  /**
   A checkpoint means the same in every sound store that holds all of it: the same tree, the same contents
   at every path, the same state and the same images.
   */
  lemma SameMeaning(s: Store, s': Store, c: Checkpoint, path: Bytes)
    requires Sound(s) && Sound(s') && Closed(s, c) && Closed(s', c)
    ensures s[c.tree] == s'[c.tree]
    ensures ReadFile(s, c, path) == ReadFile(s', c, path)
    ensures c.state != [] ==> s[c.state] == s'[c.state]
    ensures forall h :: h in c.Images() ==> s[h] == s'[h]
    ensures forall h, k :: h in c.Images() && k in DecodeManifest(s[h]).value.chunks ==> k in s' && s[k] == s'[k]
  {
    SameNames(s, s');
    var t := DecodeTree(s[c.tree]).value;
    LookupIn(t, Trim(path));
    forall h, k | h in c.Images() && k in DecodeManifest(s[h]).value.chunks
      ensures k in s && k in s'
    {
      assert ImageClosed(s, h) && ImageClosed(s', h);
    }
  }

  // ---------- references ----------

  function FileRefs(t: Tree): seq<Hash> {
    if t == [] then [] else (if t[0].hash != [] then [t[0].hash] else []) + FileRefs(t[1..])
  }

  lemma {:induction false} FileRefsIn(t: Tree, h: Hash)
    ensures h in FileRefs(t) <==> h != [] && exists i :: 0 <= i < |t| && t[i].hash == h
  {
    if t != [] {
      FileRefsIn(t[1..], h);
      if h != [] && exists i :: 0 <= i < |t| && t[i].hash == h {
        var i :| 0 <= i < |t| && t[i].hash == h;
        if i > 0 {
          assert t[1..][i - 1].hash == h;
        }
      }
    }
  }

  /** A manifest with its chunks, for each image in turn. */
  function ImageRefs(s: Store, images: seq<Hash>): seq<Hash> {
    if images == [] then []
    else (if images[0] in s && DecodeManifest(s[images[0]]).Some?
          then [images[0]] + DecodeManifest(s[images[0]]).value.chunks else []) + ImageRefs(s, images[1..])
  }

  lemma {:induction false} ImageRefsIn(s: Store, images: seq<Hash>, i: nat)
    requires i < |images| && images[i] in s && DecodeManifest(s[images[i]]).Some?
    ensures images[i] in ImageRefs(s, images)
    ensures forall k :: k in DecodeManifest(s[images[i]]).value.chunks ==> k in ImageRefs(s, images)
  {
    if i > 0 {
      ImageRefsIn(s, images[1..], i - 1);
    }
  }

  /** Every blob push walks for a checkpoint, in its order. */
  function Refs(s: Store, c: Checkpoint): seq<Hash>
    requires c.tree in s && DecodeTree(s[c.tree]).Some?
  {
    [c.tree] + FileRefs(DecodeTree(s[c.tree]).value) + (if c.state != [] then [c.state] else []) + ImageRefs(s, c.Images())
  }

  /** The entries that are files with contents. */
  ghost function Files(t: Tree): set<nat> {
    set i: nat | i < |t| && t[i].hash != []
  }

  lemma {:induction false} FileRefsLength(t: Tree)
    ensures |FileRefs(t)| == |Files(t)|
  {
    if t == [] {
      assert Files(t) == {};
    } else {
      FileRefsLength(t[1..]);
      var up := set i | i in Files(t[1..]) :: i + 1;
      SameSize(Files(t[1..]), up);
      forall i: nat
        ensures i in Files(t) <==> i in up || (i == 0 && t[0].hash != [])
      {
        if i > 0 && i < |t| {
          assert t[1..][i - 1] == t[i];
          assert i in Files(t) ==> i - 1 in Files(t[1..]);
        }
      }
      assert Files(t) == up + if t[0].hash != [] then {0} else {};
    }
  }

  lemma {:induction false} SameSize(a: set<nat>, up: set<nat>)
    requires up == set i | i in a :: i + 1
    ensures |up| == |a|
    decreases |a|
  {
    if a != {} {
      var x :| x in a;
      var rest := a - {x};
      var restUp := set i | i in rest :: i + 1;
      SameSize(rest, restUp);
      forall y
        ensures y in up <==> y in restUp || y == x + 1
      {
        if y in up {
          var i :| i in a && y == i + 1;
          assert i == x || i in rest;
        }
      }
      assert up == restUp + {x + 1};
    }
  }

  /** How many blobs an image has: its manifest and each of its chunks. */
  function BlobCount(s: Store, h: Hash): nat {
    if h == [] || h !in s || DecodeManifest(s[h]).None? then 0 else 1 + |DecodeManifest(s[h]).value.chunks|
  }

  /** Each reference is walked once: the tree, every file, the state, and every image's manifest and chunks. */
  lemma RefsLength(s: Store, c: Checkpoint)
    requires Closed(s, c)
    ensures |Refs(s, c)| == 1 + |Files(DecodeTree(s[c.tree]).value)|
                              + (if c.state == [] then 0 else 1)
                              + BlobCount(s, c.mem) + BlobCount(s, c.disk) + BlobCount(s, c.base)
  {
    ClosedMeans(s, c);
    FileRefsLength(DecodeTree(s[c.tree]).value);
    var m, d, b := if c.mem == [] then [] else [c.mem], if c.disk == [] then [] else [c.disk], if c.base == [] then [] else [c.base];
    ImageRefsConcat(s, m + d, b);
    ImageRefsConcat(s, m, d);
    OneImage(s, c.mem);
    OneImage(s, c.disk);
    OneImage(s, c.base);
  }

  lemma OneImage(s: Store, h: Hash)
    requires h == [] || ImageClosed(s, h)
    ensures |ImageRefs(s, if h == [] then [] else [h])| == BlobCount(s, h)
  {
    if h != [] {
      assert [h][1..] == [];
    }
  }

  lemma {:induction false} ImageRefsConcat(s: Store, a: seq<Hash>, b: seq<Hash>)
    ensures ImageRefs(s, a + b) == ImageRefs(s, a) + ImageRefs(s, b)
  {
    if a == [] {
      assert a + b == b;
    } else {
      assert (a + b)[1..] == a[1..] + b;
      ImageRefsConcat(s, a[1..], b);
    }
  }

  /** A sound store that has every reference of a checkpoint closed elsewhere closes it too. */
  lemma RefsClose(s: Store, s': Store, c: Checkpoint)
    requires Sound(s) && Sound(s') && Closed(s, c)
    requires forall h :: h in Refs(s, c) ==> h in s'
    ensures Closed(s', c)
  {
    SameNames(s, s');
    var t := DecodeTree(s[c.tree]).value;
    assert c.tree in Refs(s, c);
    forall e | e in t && e.hash != []
      ensures e.hash in s'
    {
      var i :| 0 <= i < |t| && t[i] == e;
      FileRefsIn(t, e.hash);
      assert e.hash in Refs(s, c);
    }
    forall h | h in c.Images()
      ensures ImageClosed(s', h)
    {
      assert ImageClosed(s, h);
      var i :| 0 <= i < |c.Images()| && c.Images()[i] == h;
      ImageRefsIn(s, c.Images(), i);
      assert h in Refs(s, c);
      forall k | k in DecodeManifest(s[h]).value.chunks
        ensures k in s'
      {
        assert k in Refs(s, c);
      }
    }
  }

  /** A store closing a checkpoint has each of its references. */
  lemma ClosedHasRefs(s: Store, c: Checkpoint, h: Hash)
    requires Closed(s, c) && h in Refs(s, c)
    ensures h in s
  {
    var t := DecodeTree(s[c.tree]).value;
    FileRefsIn(t, h);
    if h in FileRefs(t) {
      var i :| 0 <= i < |t| && t[i].hash == h;
      assert t[i] in t;
    }
    if h in ImageRefs(s, c.Images()) {
      ImageRefsFrom(s, c.Images(), h);
    }
  }

  lemma {:induction false} ImageRefsFrom(s: Store, images: seq<Hash>, h: Hash)
    requires (forall k :: k in images ==> ImageClosed(s, k)) && h in ImageRefs(s, images)
    ensures h in s
  {
    assert ImageClosed(s, images[0]);
    if h in ImageRefs(s, images[1..]) {
      ImageRefsFrom(s, images[1..], h);
    }
  }
}
