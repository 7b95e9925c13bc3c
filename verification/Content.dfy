/**
 Bytes, hashes and the serialised records of the repository.

 SHA-256 and the JSON encodings enter the model only through the laws `RawCodec.Valid` lists: hashing
 is injective and never yields the empty name, and decoding undoes encoding.  `CODEC` is an arbitrary
 value obeying them, so every theorem holds for each such hash and encoding.  `SampleCodec` shows that
 the laws can be met.
 */
module Content {

  datatype Option<+T> = None | Some(value: T)

  /**
   Whether file operations, guest calls, backend calls and network calls can go wrong.  Nothing is assumed of it:
   where it is true any of them may fail at any time, where it is false none does.
   */
  const FAULTY: bool

  /** A call that may go wrong. */
  method Fails() returns (failed: bool)
    ensures failed ==> FAULTY
  {
    failed := *;
    failed := failed && FAULTY;
  }

  /** Why an operation failed: what it asked for is absent, what it found is not what it should be, or a call went wrong. */
  datatype Cause = NotFound | Invalid | Fault

  type Error = e: Cause | e.Fault? ==> FAULTY witness NotFound

  datatype Result<+T> = Ok(value: T) | Err(error: Error)

  type byte = x: int | 0 <= x < 256
  type Bytes = seq<byte>

  /** The name of a blob; the empty name stands for "no blob". */
  type Hash = Bytes
  type Id = Bytes

  function Zeros(n: nat): (z: Bytes)
    ensures |z| == n
  {
    seq(n, _ => 0)
  }

  /** A chunked object.  The constant fields of the JSON form carry no information and are left out. */
  datatype Manifest = Manifest(size: int, chunks: seq<Hash>)

  /** One path of a snapshot. */
  datatype Entry = Entry(path: Bytes, mode: int, size: int, hash: Hash, link: Bytes, dir: bool)
  type Tree = seq<Entry>

  /** One step of a sandbox's history. */
  datatype Checkpoint = Checkpoint(
    id: Id, sandbox: Id, number: int, parent: Id, tree: Hash, created: int,
    added: int, modified: int, deleted: int,
    mem: Hash, state: Hash, disk: Hash, base: Hash)
  {
    predicate HasMemory() { mem != [] && state != [] }

    /** The chunked objects of the machine image, in the order push and pull walk them. */
    function Images(): seq<Hash> {
      (if mem == [] then [] else [mem]) + (if disk == [] then [] else [disk]) + (if base == [] then [] else [base])
    }
  }

  datatype RawCodec = RawCodec(
    sha: Bytes -> Hash, unsha: Hash -> Bytes,
    encodeManifest: Manifest -> Bytes, decodeManifest: Bytes -> Option<Manifest>,
    encodeTree: Tree -> Bytes, decodeTree: Bytes -> Option<Tree>,
    encodeCheckpoint: Checkpoint -> Bytes, decodeCheckpoint: Bytes -> Option<Checkpoint>)
  {
    ghost predicate Valid() {
      && (forall b: Bytes :: sha(b) != [] && unsha(sha(b)) == b)
      && (forall m: Manifest :: decodeManifest(encodeManifest(m)) == Some(m))
      && (forall t: Tree :: decodeTree(encodeTree(t)) == Some(t))
      && (forall c: Checkpoint :: decodeCheckpoint(encodeCheckpoint(c)) == Some(c))
    }
  }

  type Codec = c: RawCodec | c.Valid() witness SampleCodec()

  /** Any injective hash with any faithful encodings. */
  const CODEC: Codec

  function HashOf(b: Bytes): (h: Hash)
    ensures h != [] && Unhash(h) == b
  {
    CODEC.sha(b)
  }

  function Unhash(h: Hash): Bytes { CODEC.unsha(h) }

  function EncodeManifest(m: Manifest): (b: Bytes)
    ensures DecodeManifest(b) == Some(m)
  {
    CODEC.encodeManifest(m)
  }

  function DecodeManifest(b: Bytes): Option<Manifest> { CODEC.decodeManifest(b) }

  function EncodeTree(t: Tree): (b: Bytes)
    ensures DecodeTree(b) == Some(t)
  {
    CODEC.encodeTree(t)
  }

  function DecodeTree(b: Bytes): Option<Tree> { CODEC.decodeTree(b) }

  function EncodeCheckpoint(c: Checkpoint): (b: Bytes)
    ensures DecodeCheckpoint(b) == Some(c)
  {
    CODEC.encodeCheckpoint(c)
  }

  function DecodeCheckpoint(b: Bytes): Option<Checkpoint> { CODEC.decodeCheckpoint(b) }

  // ---------- a codec that meets the laws ----------

  function Quote(b: Bytes): Bytes {
    if b == [] then [0] else [1, b[0]] + Quote(b[1..])
  }

  function Pack(fields: seq<Bytes>): Bytes {
    if fields == [] then [] else Quote(fields[0]) + Pack(fields[1..])
  }

  function Unpack(b: Bytes, field: Bytes): seq<Bytes> {
    if b == [] then []
    else if b[0] == 0 then [field] + Unpack(b[1..], [])
    else if |b| == 1 then []
    else Unpack(b[2..], field + [b[1]])
  }

  lemma {:induction false} UnpackQuote(b: Bytes, rest: Bytes, field: Bytes)
    ensures Unpack(Quote(b) + rest, field) == [field + b] + Unpack(rest, [])
    decreases |b|
  {
    var packed := Quote(b) + rest;
    if b == [] {
      assert packed[1..] == rest && field + b == field;
    } else {
      assert packed[2..] == Quote(b[1..]) + rest;
      UnpackQuote(b[1..], rest, field + [b[0]]);
      assert field + [b[0]] + b[1..] == field + b;
    }
  }

  lemma {:induction false} UnpackPack(fields: seq<Bytes>)
    ensures Unpack(Pack(fields), []) == fields
  {
    if fields != [] {
      UnpackQuote(fields[0], Pack(fields[1..]), []);
      UnpackPack(fields[1..]);
      assert [] + fields[0] == fields[0];
    }
  }

  function Number(n: int): Bytes {
    if n < 0 then [1] + Zeros(-n) else [0] + Zeros(n)
  }

  function ToInt(b: Bytes): int {
    if b == [] then 0 else if b[0] == 1 then 1 - |b| else |b| - 1
  }

  function PackManifest(m: Manifest): Bytes { Pack([Number(m.size)] + m.chunks) }

  function UnpackManifest(b: Bytes): Option<Manifest> {
    var f := Unpack(b, []);
    if f == [] then None else Some(Manifest(ToInt(f[0]), f[1..]))
  }

  function PackEntry(e: Entry): Bytes {
    Pack([e.path, Number(e.mode), Number(e.size), e.hash, e.link, if e.dir then [1] else []])
  }

  function UnpackEntry(b: Bytes): Entry {
    var f := Unpack(b, []);
    if |f| != 6 then Entry([], 0, 0, [], [], false)
    else Entry(f[0], ToInt(f[1]), ToInt(f[2]), f[3], f[4], f[5] == [1])
  }

  function PackTree(t: Tree): Bytes { Pack(seq(|t|, i requires 0 <= i < |t| => PackEntry(t[i]))) }

  function UnpackTree(b: Bytes): Option<Tree> {
    var f := Unpack(b, []);
    Some(seq(|f|, i requires 0 <= i < |f| => UnpackEntry(f[i])))
  }

  function PackCheckpoint(c: Checkpoint): Bytes {
    Pack([c.id, c.sandbox, Number(c.number), c.parent, c.tree, Number(c.created),
          Number(c.added), Number(c.modified), Number(c.deleted), c.mem, c.state, c.disk, c.base])
  }

  function UnpackCheckpoint(b: Bytes): Option<Checkpoint> {
    var f := Unpack(b, []);
    if |f| != 13 then None
    else Some(Checkpoint(f[0], f[1], ToInt(f[2]), f[3], f[4], ToInt(f[5]),
                         ToInt(f[6]), ToInt(f[7]), ToInt(f[8]), f[9], f[10], f[11], f[12]))
  }

  lemma UnpackPackManifest(m: Manifest)
    ensures UnpackManifest(PackManifest(m)) == Some(m)
  {
    UnpackPack([Number(m.size)] + m.chunks);
  }

  lemma UnpackPackTree(t: Tree)
    ensures UnpackTree(PackTree(t)) == Some(t)
  {
    var fields := seq(|t|, i requires 0 <= i < |t| => PackEntry(t[i]));
    UnpackPack(fields);
    forall i | 0 <= i < |t|
      ensures UnpackEntry(fields[i]) == t[i]
    {
      var e := t[i];
      UnpackPack([e.path, Number(e.mode), Number(e.size), e.hash, e.link, if e.dir then [1] else []]);
    }
    assert UnpackTree(PackTree(t)).value == t;
  }

  lemma UnpackPackCheckpoint(c: Checkpoint)
    ensures UnpackCheckpoint(PackCheckpoint(c)) == Some(c)
  {
    UnpackPack([c.id, c.sandbox, Number(c.number), c.parent, c.tree, Number(c.created),
                Number(c.added), Number(c.modified), Number(c.deleted), c.mem, c.state, c.disk, c.base]);
  }

  function Tag(b: Bytes): Hash { [1] + b }

  function Untag(h: Hash): Bytes { if h == [] then [] else h[1..] }

  function SampleCodec(): (c: RawCodec)
    ensures c.Valid()
  {
    var c := RawCodec(Tag, Untag, PackManifest, UnpackManifest, PackTree, UnpackTree,
                      PackCheckpoint, UnpackCheckpoint);
    assert c.Valid() by {
      forall b: Bytes ensures c.sha(b) != [] && c.unsha(c.sha(b)) == b {
        assert Tag(b)[1..] == b;
      }
      forall m: Manifest ensures c.decodeManifest(c.encodeManifest(m)) == Some(m) { UnpackPackManifest(m); }
      forall t: Tree ensures c.decodeTree(c.encodeTree(t)) == Some(t) { UnpackPackTree(t); }
      forall k: Checkpoint ensures c.decodeCheckpoint(c.encodeCheckpoint(k)) == Some(k) { UnpackPackCheckpoint(k); }
    }
    c
  }
}
