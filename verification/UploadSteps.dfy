/** What each call on the chunk manager answers, and what it changes and leaves, condition by condition
    (chunk_manager.v, database.v, local_storage.v). */
module UploadSteps {
  import opened UploadArith
  import opened UploadModel
  import opened UploadManager

  /** Within the limits the chunk size is the one nearest to what was asked for; nothing asked for means the
      default. */
  lemma ChunkNearest(cfg: Config, size: int)
    ensures size <= 0 ==> ChunkSize(cfg, size) == cfg.defaultChunk
    ensures size > 0 && cfg.minChunk <= cfg.maxChunk ==>
              var c := ChunkSize(cfg, size);
              && cfg.minChunk <= c <= cfg.maxChunk
              && forall x :: cfg.minChunk <= x <= cfg.maxChunk ==> Distance(c, size) <= Distance(x, size)
  {
  }

  function Distance(a: int, b: int): int {
    if a < b then b - a else a - b
  }

  lemma InitExact(cfg: Config, s: State, p: Params, id: Id, dirOk: bool, insertOk: bool)
    requires ValidConfig(cfg)
    ensures var ((t, r), chunk) := (InitStep(cfg, s, p, id, dirOk, insertOk), ChunkSize(cfg, p.chunkSize));
            && (r == Err(BucketRequired) <==> p.bucket == "")
            && (r == Err(KeyRequired) <==> p.bucket != "" && p.key == "")
            && (r == Err(SizeNotPositive) <==> p.bucket != "" && p.key != "" && p.fileSize <= 0)
            && (r == Err(FileTooLarge) <==>
                  p.bucket != "" && p.key != "" && p.fileSize > 0 && TotalChunks(p.fileSize, chunk) > cfg.maxParts)
            && (r.Ok? <==> p.bucket != "" && p.key != "" && p.fileSize > 0 && TotalChunks(p.fileSize, chunk) <= cfg.maxParts
                           && dirOk && insertOk && id !in s.uploads)
            && t.parts == s.parts && t.files == s.files && t.objects == s.objects
            && (r.Ok? ==> r.value == id)
            && t.uploads == (if r.Ok? then s.uploads[id := Upload(p.fileSize, chunk, TotalChunks(p.fileSize, chunk), p.bucket, p.key,
                                                                  Uploading)]
                             else s.uploads)
            && t.sessions == if r.Ok? || r == Err(DatabaseFailed) then s.sessions[id := Session(p.bucket, p.key, map[])] else s.sessions
  {
    hide TotalChunks, ChunkSize;
  }

  lemma PutExact(cfg: Config, s: State, id: Id, n: int, data: Bytes, queryOk: bool, writeOk: bool, recordOk: bool)
    ensures var (t, r) := PutStep(cfg, s, id, n, data, queryOk, writeOk, recordOk);
            var known := queryOk && id in s.uploads;
            var open := known && s.uploads[id].status == Uploading;
            var inRange := open && 1 <= n <= s.uploads[id].totalChunks;
            var stored := inRange && id in s.sessions && writeOk;
            && (r == Err(UploadNotFound) <==> !known)
            && (r.Err? && r.error.NotUploading? <==> known && s.uploads[id].status != Uploading)
            && (r == Err(InvalidPart) <==> open && (n < 1 || n > s.uploads[id].totalChunks))
            && (r == Err(ProviderFailed) <==> inRange && (id !in s.sessions || !writeOk))
            && (r == Err(DatabaseFailed) <==> stored && !recordOk)
            && (r.Ok? <==> stored && recordOk)
            && (r.Ok? ==> r.value == Part(cfg.etag(data), |data|))
            && t.uploads == s.uploads && t.objects == s.objects
            && t.files == (if stored then s.files[(id, n) := data] else s.files)
            && t.parts == (if r.Ok? then s.parts[(id, n) := Part(cfg.etag(data), |data|)] else s.parts)
            && t.sessions.Keys == s.sessions.Keys
            && forall i :: i in s.sessions ==> t.sessions[i].bucket == s.sessions[i].bucket && t.sessions[i].key == s.sessions[i].key
  {
  }

  /** The recorded numbers, and the files they need. */
  lemma {:induction false} JoinedSome(files: map<(Id, int), Bytes>, id: Id, nums: seq<int>)
    ensures Joined(files, id, nums).Some? <==> forall i :: 0 <= i < |nums| ==> (id, nums[i]) in files
  {
    if nums != [] {
      JoinedSome(files, id, nums[..|nums| - 1]);
    }
  }

  lemma CompleteExact(cfg: Config, s: State, id: Id, queryOk: bool, listOk: bool, storeOk: bool, statusOk: bool)
    ensures var (t, r) := CompleteStep(cfg, s, id, queryOk, listOk, storeOk, statusOk);
            var known := queryOk && id in s.uploads;
            var open := known && s.uploads[id].status == Uploading;
            var full := open && listOk && |Numbers(s, id)| == s.uploads[id].totalChunks;
            var stored := full && id in s.sessions && storeOk && forall n :: n in Numbers(s, id) ==> (id, n) in s.files;
            && (forall n :: n in Numbers(s, id) <==> (id, n) in s.parts)
            && (r == Err(UploadNotFound) <==> !known)
            && (r.Err? && r.error.NotUploading? <==> known && s.uploads[id].status != Uploading)
            && (r.Err? && r.error.Incomplete? <==> open && listOk && |Numbers(s, id)| != s.uploads[id].totalChunks)
            && (r == Err(ProviderFailed) <==> full && !stored)
            && (r.Ok? <==> stored && statusOk)
            && t.parts == s.parts
            && (if stored then
                  var (u, data) := (s.uploads[id], Joined(s.files, id, Sorted(Numbers(s, id))).value);
                  && t.objects == s.objects[u.bucket + "/" + u.key := data]
                  && t.sessions == s.sessions - {id}
                  && (forall p :: p in t.files <==> p in s.files && p.0 != id)
                  && (forall p :: p in t.files ==> t.files[p] == s.files[p])
                  && t.uploads == (if statusOk then s.uploads[id := u.(status := Completed)] else s.uploads)
                  && (r.Ok? ==> r.value == Stored(u.key, cfg.etag(data), |data|))
                else t == s)
  {
    hide Sorted, Joined;
    JoinedSome(s.files, id, Sorted(Numbers(s, id)));
    assert forall k :: k in Sorted(Numbers(s, id)) <==> k in Numbers(s, id);
  }

  /** A successful abort leaves no record, no parts and no session of the id; a failed one stops on the way. No
      other upload and no stored object is touched. */
  lemma AbortExact(s: State, id: Id, queryOk: bool, statusOk: bool, partsOk: bool, uploadOk: bool)
    ensures var (t, r) := AbortStep(s, id, queryOk, statusOk, partsOk, uploadOk);
            var known := queryOk && id in s.uploads;
            && (r == Err(UploadNotFound) <==> !known)
            && (r.Ok? <==> known && statusOk && partsOk && uploadOk)
            && (!known ==> t == s)
            && t.objects == s.objects
            && (known ==>
                  && t.sessions == s.sessions - {id}
                  && (forall p :: p in t.files <==> p in s.files && (p.0 != id || id !in s.sessions))
                  && (forall p :: p in t.files ==> t.files[p] == s.files[p])
                  && (forall p :: p in t.parts <==> p in s.parts && (p.0 != id || !statusOk || !partsOk))
                  && (forall p :: p in t.parts ==> t.parts[p] == s.parts[p])
                  && t.uploads == if r.Ok? then s.uploads - {id}
                                  else if statusOk then s.uploads[id := s.uploads[id].(status := Aborted)] else s.uploads)
  {
    var t := AbortStep(s, id, queryOk, statusOk, partsOk, uploadOk).0;
    if queryOk && id in s.uploads {
      assert t.sessions == s.sessions - {id};
      assert s.uploads[id := s.uploads[id].(status := Aborted)] - {id} == s.uploads - {id};
    }
  }

  // ----- progress -----

  lemma {:induction false} SizesOfRight(parts: map<(Id, int), Part>, id: Id, fileSize: int, chunkSize: int, q: seq<int>)
    requires forall i :: 0 <= i < |q| ==>
               q[i] == i + 1 && (id, q[i]) in parts && parts[(id, q[i])].size == PartSize(fileSize, chunkSize, i + 1)
    ensures SizesOf(parts, id, q) == SizesUpTo(fileSize, chunkSize, |q|)
  {
    if q != [] {
      SizesOfRight(parts, id, fileSize, chunkSize, q[..|q| - 1]);
    }
  }

  /** When the parts of a whole file are recorded with the sizes of their ranges, the bytes reported are the size
      of the file. */
  lemma ProgressBytes(parts: map<(Id, int), Part>, id: Id, fileSize: int, chunkSize: int, q: seq<int>)
    requires 0 < fileSize && 0 < chunkSize && |q| == Ceiling(fileSize, chunkSize)
    requires forall i :: 0 <= i < |q| ==>
               q[i] == i + 1 && (id, q[i]) in parts && parts[(id, q[i])].size == PartSize(fileSize, chunkSize, i + 1)
    ensures SizesOf(parts, id, q) == fileSize
  {
    hide SizesOf, PartSize, Ceiling;
    SizesOfRight(parts, id, fileSize, chunkSize, q);
    SizesSum(fileSize, chunkSize, |q|);
  }
}
