/** The delete loop: what it removes, what it leaves, and when a strict file removal lets it
    reach the end. */
module Purging {
  import opened Wrappers
  import opened Keys
  import opened Store

  /** Some version of the file up to `v` keeps its bytes in blob `u`. */
  ghost predicate NamedUpTo(ver: Versions, id: U64, v: U64, u: Ulid)
  {
    exists w: U64 :: w <= v && (id, w) in ver && ver[(id, w)].blob == Some(u)
  }

  /** Whether the loop finishes or not, it only ever removes the file's own blobs. */
  ghost predicate KeepsOthers(ver: Versions, blobs: Files, id: U64, v: U64, blobs': Files)
  {
    && (forall u :: u in blobs' ==> u in blobs && blobs'[u] == blobs[u])
    && (forall u :: u in blobs && !NamedUpTo(ver, id, v, u) ==> u in blobs')
  }

  lemma {:induction false} PurgeKeepsOthers(skip: bool, ver: Versions, blobs: Files, id: U64, v: U64)
    ensures KeepsOthers(ver, blobs, id, v, Purge(skip, ver, blobs, id, v).blobs)
    decreases v
  {
    var blob := BlobOf(ver, id, v);
    if !(blob.Some? && blob.value !in blobs && !skip) && v > 0 {
      PurgeKeepsOthers(skip, ver - {(id, v)}, Unlink(blobs, blob), id, v - 1);
      forall u: Ulid | NamedUpTo(ver - {(id, v)}, id, v - 1, u)
        ensures NamedUpTo(ver, id, v, u)
      {
        var w: U64 :| w <= v - 1 && (id, w) in ver - {(id, v)} && ver[(id, w)].blob == Some(u);
      }
    }
  }

  /** A finished loop has removed every version of the file up to `v`, and no other version. */
  lemma {:induction false} PurgeRemovesVersions(skip: bool, ver: Versions, blobs: Files, id: U64, v: U64)
    requires Purge(skip, ver, blobs, id, v).finished
    ensures var ver' := Purge(skip, ver, blobs, id, v).ver;
            && (forall iv :: iv in ver' <==> iv in ver && !(iv.0 == id && iv.1 <= v))
            && (forall iv :: iv in ver' ==> ver'[iv] == ver[iv])
    decreases v
  {
    if v > 0 {
      PurgeRemovesVersions(skip, ver - {(id, v)}, Unlink(blobs, BlobOf(ver, id, v)), id, v - 1);
    }
  }

  /** A finished loop has removed every blob of the file. */
  lemma {:induction false} PurgeRemovesBlobs(skip: bool, ver: Versions, blobs: Files, id: U64, v: U64, u: Ulid)
    requires Purge(skip, ver, blobs, id, v).finished && NamedUpTo(ver, id, v, u)
    ensures u !in Purge(skip, ver, blobs, id, v).blobs
    decreases v
  {
    var blob := BlobOf(ver, id, v);
    if v > 0 {
      PurgeKeepsOthers(skip, ver - {(id, v)}, Unlink(blobs, blob), id, v - 1);
      if blob != Some(u) {
        var w: U64 :| w <= v && (id, w) in ver && ver[(id, w)].blob == Some(u);
        assert (id, w) in ver - {(id, v)};
        PurgeRemovesBlobs(skip, ver - {(id, v)}, Unlink(blobs, blob), id, v - 1, u);
      }
    }
  }

  lemma {:induction false} SkippingFinishes(ver: Versions, blobs: Files, id: U64, v: U64)
    ensures Purge(true, ver, blobs, id, v).finished
    decreases v
  {
    if v > 0 {
      SkippingFinishes(ver - {(id, v)}, Unlink(blobs, BlobOf(ver, id, v)), id, v - 1);
    }
  }

  /** Every blob named up to `v` is there to be removed, once. */
  ghost predicate Removable(ver: Versions, blobs: Files, id: U64, v: U64)
  {
    && (forall w: U64 :: w <= v && (id, w) in ver && ver[(id, w)].blob.Some? ==> ver[(id, w)].blob.value in blobs)
    && (forall w: U64, x: U64 :: w < x <= v && (id, w) in ver && (id, x) in ver && ver[(id, w)].blob.Some? ==>
          ver[(id, w)].blob != ver[(id, x)].blob)
  }

  lemma RemovableStep(ver: Versions, blobs: Files, id: U64, v: U64)
    requires v > 0
    ensures Removable(ver, blobs, id, v) <==>
            && (BlobOf(ver, id, v).Some? ==> BlobOf(ver, id, v).value in blobs)
            && Removable(ver - {(id, v)}, Unlink(blobs, BlobOf(ver, id, v)), id, v - 1)
  {
    var blob, ver1 := BlobOf(ver, id, v), ver - {(id, v)};
    assert forall w: U64 :: w < v ==> ((id, w) in ver1 <==> (id, w) in ver);
    if (blob.Some? ==> blob.value in blobs) && Removable(ver1, Unlink(blobs, blob), id, v - 1) {
      forall w: U64, x: U64 | w < x <= v && (id, w) in ver && (id, x) in ver && ver[(id, w)].blob.Some?
        ensures ver[(id, w)].blob != ver[(id, x)].blob
      {
        assert (id, w) in ver1;
        assert x < v ==> (id, x) in ver1;
      }
    }
  }

  /** The loop as written finishes exactly when no two versions of the file share a blob and no
      blob is missing. */
  lemma {:induction false} StrictFinishesIff(ver: Versions, blobs: Files, id: U64, v: U64)
    ensures Purge(false, ver, blobs, id, v).finished <==> Removable(ver, blobs, id, v)
    decreases v
  {
    if v > 0 {
      RemovableStep(ver, blobs, id, v);
      var blob := BlobOf(ver, id, v);
      if !(blob.Some? && blob.value !in blobs) {
        StrictFinishesIff(ver - {(id, v)}, Unlink(blobs, blob), id, v - 1);
      }
    }
  }
}
