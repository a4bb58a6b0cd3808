/** Stored objects of different uploads: each has its own place, and keeps it (local_storage.v,
    chunk_manager.v). */
module UploadObjects {
  import opened Options
  import opened VInt
  import opened UploadArith
  import opened UploadModel
  import opened UploadProof
  import opened Splitting

  // ----- places -----

  /** Buckets without a slash give every bucket and key a place of their own. */
  lemma PlainPaths(b: string, k: string, c: string, l: string)
    requires '/' !in b && '/' !in c
    ensures Path(b, k) == Path(c, l) <==> b == c && k == l
  {
    assert Path(b, k) == Pair(b, '/', k) && Path(c, l) == Pair(c, '/', l);
    hide Pair;
    PairFree(b, c, '/', k, l);
  }

  /** In general a set of buckets does if and only if none of them is another one followed by a slash and more. */
  lemma PathsInjective(buckets: set<string>)
    ensures (forall b, c, k, l :: b in buckets && c in buckets && Path(b, k) == Path(c, l) ==> b == c && k == l)
            <==> (forall b, c, x :: b in buckets && c in buckets ==> b != Path(c, x))
  {
    assert forall b, k :: Path(b, k) == Pair(b, '/', k);
    PairsInjective(buckets, '/');
    hide Path, Pair;
  }

  // ----- what a call stores -----

  /** What the call stores: the part files, when it is a completion that gets so far. */
  ghost function StoredBy(s: State, c: Call): Option<Bytes> {
    if && c.Complete? && c.queryOk && c.id in s.uploads && s.uploads[c.id].status == Uploading
       && c.listOk && |Numbers(s, c.id)| == s.uploads[c.id].totalChunks && c.id in s.sessions && c.storeOk
    then Joined(s.files, c.id, Sorted(Numbers(s, c.id)))
    else None
  }

  lemma StoreEffect(cfg: Config, s: State, c: Call)
    requires ValidConfig(cfg)
    ensures StoredBy(s, c).Some? ==> c.Complete? && c.id in s.uploads
    ensures Next(cfg, s, c).objects ==
            if StoredBy(s, c).Some?
            then s.objects[s.uploads[c.id].bucket + "/" + s.uploads[c.id].key := StoredBy(s, c).value]
            else s.objects
  {
    hide Sorted, Numbers, Joined, TotalChunks, ChunkSize;
  }

  /** A call leaves every object alone that has not the bucket and key of its upload. */
  lemma OthersStay(cfg: Config, s: State, c: Call, bucket: string, key: string)
    requires ValidConfig(cfg)
    requires c.Complete? && c.id in s.uploads ==> s.uploads[c.id].bucket + "/" + s.uploads[c.id].key != bucket + "/" + key
    ensures var (o, t) := (s.objects, Next(cfg, s, c).objects);
            (bucket + "/" + key in t <==> bucket + "/" + key in o)
            && (bucket + "/" + key in o ==> t[bucket + "/" + key] == o[bucket + "/" + key])
  {
    hide Next, StoredBy;
    StoreEffect(cfg, s, c);
  }

  /** Buckets without a slash, in all uploads of the run. */
  ghost predicate PlainBuckets(calls: seq<Call>) {
    forall i :: 0 <= i < |calls| && calls[i].Init? ==> '/' !in calls[i].params.bucket
  }

  lemma NextBucket(cfg: Config, s: State, c: Call, id: Id)
    requires ValidConfig(cfg) && id in Next(cfg, s, c).uploads
    ensures if id in s.uploads then Next(cfg, s, c).uploads[id].bucket == s.uploads[id].bucket
            else c.Init? && Next(cfg, s, c).uploads[id].bucket == c.params.bucket
  {
    if id in s.uploads {
      UploadFixed(cfg, s, c, id);
    } else {
      hide Sorted, Numbers, Joined, TotalChunks, ChunkSize;
    }
  }

  lemma {:induction false} RunPlain(cfg: Config, calls: seq<Call>)
    requires ValidConfig(cfg) && PlainBuckets(calls)
    ensures forall id :: id in Run(cfg, calls).uploads ==> '/' !in Run(cfg, calls).uploads[id].bucket
  {
    if calls != [] {
      var (before, c) := (calls[..|calls| - 1], calls[|calls| - 1]);
      RunPlain(cfg, before);
      forall id | id in Run(cfg, calls).uploads ensures '/' !in Run(cfg, calls).uploads[id].bucket {
        NextBucket(cfg, Run(cfg, before), c, id);
      }
    }
  }

  /** What was stored last under the bucket and the key. */
  ghost function LastObject(cfg: Config, calls: seq<Call>, bucket: string, key: string): Option<Bytes>
    requires ValidConfig(cfg)
  {
    if calls == [] then None
    else
      var (before, c) := (calls[..|calls| - 1], calls[|calls| - 1]);
      var s := Run(cfg, before);
      if StoredBy(s, c).Some? && s.uploads[c.id].bucket == bucket && s.uploads[c.id].key == key then StoredBy(s, c)
      else LastObject(cfg, before, bucket, key)
  }

  /** In every run, what is found under a bucket and a key is what the last completion of an upload to just this
      bucket and key stored. */
  lemma {:induction false} ObjectsAreLast(cfg: Config, calls: seq<Call>, bucket: string, key: string)
    requires ValidConfig(cfg) && PlainBuckets(calls) && '/' !in bucket
    ensures var (o, path) := (Run(cfg, calls).objects, bucket + "/" + key);
            LastObject(cfg, calls, bucket, key) == if path in o then Some(o[path]) else None
  {
    if calls != [] {
      hide Next, StoredBy, Path;
      var (before, c) := (calls[..|calls| - 1], calls[|calls| - 1]);
      var s := Run(cfg, before);
      ObjectsAreLast(cfg, before, bucket, key);
      StoreEffect(cfg, s, c);
      if StoredBy(s, c).Some? {
        RunPlain(cfg, before);
        var u := s.uploads[c.id];
        PlainPaths(u.bucket, u.key, bucket, key);
        PathIs(u.bucket, u.key);
        PathIs(bucket, key);
      }
    }
  }

  lemma PathIs(bucket: string, key: string)
    ensures Path(bucket, key) == bucket + "/" + key
  {
  }

  // ----- two uploads -----

  /** Call `i` stores for this bucket and key. */
  ghost predicate StoresAt(cfg: Config, calls: seq<Call>, i: nat, bucket: string, key: string)
    requires ValidConfig(cfg) && i < |calls|
  {
    var (s, c) := (Run(cfg, calls[..i]), calls[i]);
    StoredBy(s, c).Some? && s.uploads[c.id].bucket == bucket && s.uploads[c.id].key == key
  }

  lemma {:induction false} LastObjectAt(cfg: Config, calls: seq<Call>, i: nat, bucket: string, key: string)
    requires ValidConfig(cfg) && i < |calls| && StoresAt(cfg, calls, i, bucket, key)
    requires forall h :: i < h < |calls| ==> !StoresAt(cfg, calls, h, bucket, key)
    ensures LastObject(cfg, calls, bucket, key) == StoredBy(Run(cfg, calls[..i]), calls[i])
  {
    hide StoredBy;
    var n := |calls| - 1;
    if i < n {
      var before := calls[..n];
      assert before[..i] == calls[..i];
      forall h | i < h < n ensures !StoresAt(cfg, before, h, bucket, key) {
        assert before[..h] == calls[..h];
        assert !StoresAt(cfg, calls, h, bucket, key);
      }
      LastObjectAt(cfg, before, i, bucket, key);
      assert !StoresAt(cfg, calls, n, bucket, key);
    }
  }

  /** Call `i` successfully completes the upload of `f`, all parts of which carried the right bytes. */
  ghost predicate Completes(cfg: Config, calls: seq<Call>, i: nat, f: Bytes)
    requires ValidConfig(cfg) && i < |calls|
  {
    var (s, c) := (Run(cfg, calls[..i]), calls[i]);
    && c.Complete? && c.queryOk && c.id in s.uploads && |f| == s.uploads[c.id].fileSize
    && CompleteStep(cfg, s, c.id, true, c.listOk, c.storeOk, c.statusOk).1.Ok?
    && Honest(cfg, calls[..i], c.id, f)
    && 0 < |f| && 0 < s.uploads[c.id].chunkSize && Ceiling(|f|, s.uploads[c.id].chunkSize) <= MAX_INT
  }

  lemma {:induction false} FreshPart(calls: seq<Call>, i: nat)
    requires Fresh(calls) && i <= |calls|
    ensures Fresh(calls[..i])
  {
    if i < |calls| {
      FreshPart(calls[..|calls| - 1], i);
      assert calls[..|calls| - 1][..i] == calls[..i];
    } else {
      assert calls[..i] == calls;
    }
  }

  lemma CompletesStores(cfg: Config, calls: seq<Call>, i: nat, f: Bytes)
    requires ValidConfig(cfg) && Fresh(calls) && i < |calls| && Completes(cfg, calls, i, f)
    ensures var (s, c) := (Run(cfg, calls[..i]), calls[i]);
            c.id in s.uploads && StoresAt(cfg, calls, i, s.uploads[c.id].bucket, s.uploads[c.id].key) && StoredBy(s, c) == Some(f)
  {
    hide Run, Honest, Ceiling, Joined, Sorted, Numbers;
    var (s, c) := (Run(cfg, calls[..i]), calls[i]);
    FreshPart(calls, i);
    EndToEnd(cfg, calls[..i], c.id, f, c.listOk, c.storeOk, c.statusOk);
  }

  /** Two uploads to different places, both completed: at the end of any run in which nothing else is stored at
      the two places, both files are there, byte for byte. */
  lemma TwoFiles(cfg: Config, calls: seq<Call>, i: nat, j: nat, f: Bytes, g: Bytes)
    requires ValidConfig(cfg) && Fresh(calls) && PlainBuckets(calls) && i < j < |calls|
    requires Completes(cfg, calls, i, f) && Completes(cfg, calls, j, g)
    requires var (u, v) := (Run(cfg, calls[..i]).uploads[calls[i].id], Run(cfg, calls[..j]).uploads[calls[j].id]);
             && (u.bucket != v.bucket || u.key != v.key)
             && (forall h :: i < h < |calls| && h != j ==> !StoresAt(cfg, calls, h, u.bucket, u.key))
             && (forall h :: j < h < |calls| ==> !StoresAt(cfg, calls, h, v.bucket, v.key))
    ensures var (u, v) := (Run(cfg, calls[..i]).uploads[calls[i].id], Run(cfg, calls[..j]).uploads[calls[j].id]);
            var o := Run(cfg, calls).objects;
            && u.bucket + "/" + u.key in o && o[u.bucket + "/" + u.key] == f
            && v.bucket + "/" + v.key in o && o[v.bucket + "/" + v.key] == g
  {
    var (u, v) := (Run(cfg, calls[..i]).uploads[calls[i].id], Run(cfg, calls[..j]).uploads[calls[j].id]);
    CompletesStores(cfg, calls, i, f);
    CompletesStores(cfg, calls, j, g);
    hide Completes, Run, StoredBy, Fresh, PlainBuckets;
    assert !StoresAt(cfg, calls, j, u.bucket, u.key);
    assert forall h :: i < h < |calls| ==> !StoresAt(cfg, calls, h, u.bucket, u.key);
    LastObjectAt(cfg, calls, i, u.bucket, u.key);
    LastObjectAt(cfg, calls, j, v.bucket, v.key);
    PlainAt(cfg, calls, i);
    PlainAt(cfg, calls, j);
    ObjectsAreLast(cfg, calls, u.bucket, u.key);
    ObjectsAreLast(cfg, calls, v.bucket, v.key);
  }

  lemma PlainAt(cfg: Config, calls: seq<Call>, i: nat)
    requires ValidConfig(cfg) && PlainBuckets(calls) && i < |calls|
    ensures forall id :: id in Run(cfg, calls[..i]).uploads ==> '/' !in Run(cfg, calls[..i]).uploads[id].bucket
  {
    RunPlain(cfg, calls[..i]);
  }
}
