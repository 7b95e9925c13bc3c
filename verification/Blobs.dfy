/** The content-addressed blob store (internal/cas/cas.go). */
module Blobs {
  import opened Content

  type Store = map<Hash, Bytes>

  /** Every blob sits under its own hash. */
  ghost predicate Sound(s: Store) {
    forall h :: h in s ==> HashOf(s[h]) == h
  }

  ghost predicate Grows(s: Store, s': Store) {
    forall h :: h in s ==> h in s' && s'[h] == s[h]
  }

  function Add(s: Store, b: Bytes): Store { s[HashOf(b) := b] }

  /** Adding a blob can only extend a sound store. */
  lemma AddGrows(s: Store, b: Bytes)
    requires Sound(s)
    ensures Sound(Add(s, b)) && Grows(s, Add(s, b))
    ensures HashOf(b) in s ==> Add(s, b) == s
  {
  }

  /** A name means the same bytes in every sound store. */
  lemma SameNames(s: Store, s': Store)
    requires Sound(s) && Sound(s')
    ensures forall h :: h in s && h in s' ==> s[h] == s'[h]
  {
  }

  class BlobStore {
    var blobs: Store

    constructor ()
      ensures blobs == map[] && Sound(blobs)
    {
      blobs := map[];
    }

    method Has(h: Hash) returns (present: bool)
      ensures present <==> h in blobs
    {
      present := h in blobs;
    }

    /** A read can fail although the blob is there; only an absent one is reported as not found. */
    method Get(h: Hash) returns (r: Result<Bytes>)
      requires Sound(blobs)
      ensures r.Ok? ==> h in blobs && r.value == blobs[h] && HashOf(r.value) == h
      ensures r.Err? ==> r.error.Fault? || (r.error.NotFound? && h !in blobs)
    {
      if h !in blobs {
        return Err(NotFound);
      }
      var failed := Fails();
      return if failed then Err(Fault) else Ok(blobs[h]);
    }

    /** Any of the file operations may fail, and then nothing has been stored. */
    method Put(b: Bytes) returns (r: Result<Hash>)
      requires Sound(blobs)
      modifies this
      ensures Sound(blobs) && Grows(old(blobs), blobs)
      ensures blobs == if r.Ok? then Add(old(blobs), b) else old(blobs)
      ensures r.Ok? ==> r.value == HashOf(b)
      ensures r.Err? ==> r.error.Fault? && HashOf(b) !in old(blobs)
    {
      AddGrows(blobs, b);
      var h := HashOf(b);
      if h in blobs {
        return Ok(h);
      }
      var failed := Fails();
      if failed {
        return Err(Fault);
      }
      blobs := blobs[h := b];
      return Ok(h);
    }

    /**
     The file is read once to hash it and once more to copy it.  The store stays sound exactly when both
     reads saw the same bytes or the hashed ones were already stored.
     */
    method PutFile(hashed: Bytes, copied: Bytes) returns (r: Result<Hash>)
      requires Sound(blobs)
      modifies this
      ensures Grows(old(blobs), blobs)
      ensures r.Err? ==> r.error.Fault? && blobs == old(blobs)
      ensures r.Ok? ==> r.value == HashOf(hashed) && r.value in blobs
      ensures r.Ok? ==> (Sound(blobs) <==> hashed == copied || HashOf(hashed) in old(blobs))
      ensures r.Ok? && hashed == copied ==> blobs == Add(old(blobs), hashed)
    {
      AddGrows(blobs, hashed);
      var h := HashOf(hashed);
      if h in blobs {
        return Ok(h);
      }
      var failed := Fails();
      if failed {
        return Err(Fault);
      }
      blobs := blobs[h := copied];
      if hashed != copied {
        assert HashOf(blobs[h]) != h by {
          assert Unhash(HashOf(copied)) == copied && Unhash(h) == hashed;
        }
      }
      return Ok(h);
    }
  }
}
