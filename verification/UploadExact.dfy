/** Which part uploads decide what is stored: for each part, the last one that reached the part file, whether
    it was reported as successful or not. */
module UploadExact {
  import opened Options
  import opened UploadModel
  import opened UploadArith
  import opened UploadProof
  import opened VInt

  /** The data of the last call that stored part `n` of upload `id`. */
  ghost function LastStored(cfg: Config, calls: seq<Call>, id: Id, n: int): Option<Bytes>
    requires ValidConfig(cfg)
  {
    if calls == [] then None
    else
      var before, c := calls[..|calls| - 1], calls[|calls| - 1];
      if Accepted(Run(cfg, before), c) && c.id == id && c.n == n then Some(c.data) else LastStored(cfg, before, id, n)
  }

  lemma {:induction false} StoredIsIssued(cfg: Config, calls: seq<Call>, id: Id, n: int)
    requires ValidConfig(cfg) && Fresh(calls)
    ensures LastStored(cfg, calls, id, n).Some? ==> id in Issued(calls)
  {
    if calls != [] {
      var before := calls[..|calls| - 1];
      StoredIsIssued(cfg, before, id, n);
      RunInv(cfg, before);
      hide Run;
      assert id in Run(cfg, before).uploads ==> id in Run(cfg, before).uploads.Keys;
    }
  }

  ghost function FileAt(s: State, id: Id, n: int): Option<Bytes> {
    if (id, n) in s.files then Some(s.files[(id, n)]) else None
  }

  // ----- one call -----

  lemma InitSession(cfg: Config, s: State, p: Params, newId: Id, dirOk: bool, insertOk: bool, id: Id)
    requires ValidConfig(cfg)
    ensures var t := InitStep(cfg, s, p, newId, dirOk, insertOk).0; t.files == s.files && (id in t.sessions ==> id in s.sessions || id == newId)
  {
    hide TotalChunks, ChunkSize;
  }

  lemma PutSession(cfg: Config, s: State, c: Call, id: Id, n: int)
    requires ValidConfig(cfg) && c.Put?
    ensures var t := PutStep(cfg, s, c.id, c.n, c.data, c.queryOk, c.writeOk, c.recordOk).0;
            && (id in t.sessions <==> id in s.sessions)
            && FileAt(t, id, n) == if Accepted(s, c) && c.id == id && c.n == n then Some(c.data) else FileAt(s, id, n)
  {
  }

  lemma CompleteSession(cfg: Config, s: State, cid: Id, queryOk: bool, listOk: bool, storeOk: bool, statusOk: bool, id: Id, n: int)
    ensures var t := CompleteStep(cfg, s, cid, queryOk, listOk, storeOk, statusOk).0;
            id in t.sessions ==> id in s.sessions && FileAt(t, id, n) == FileAt(s, id, n)
  {
    hide Sorted, Numbers, Joined;
  }

  lemma AbortSession(s: State, cid: Id, queryOk: bool, statusOk: bool, partsOk: bool, uploadOk: bool, id: Id, n: int)
    ensures var t := AbortStep(s, cid, queryOk, statusOk, partsOk, uploadOk).0;
            id in t.sessions ==> id in s.sessions && FileAt(t, id, n) == FileAt(s, id, n)
  {
  }

  /** While its session lasts, a part file changes only when it is stored. */
  lemma NextFile(cfg: Config, s: State, c: Call, id: Id, n: int)
    requires ValidConfig(cfg) && id in Next(cfg, s, c).sessions
    ensures id in s.sessions || id in IssuedBy(c)
    ensures FileAt(Next(cfg, s, c), id, n) == if Accepted(s, c) && c.id == id && c.n == n then Some(c.data) else FileAt(s, id, n)
  {
    hide InitStep, PutStep, CompleteStep, AbortStep;
    match c {
      case Init(p, newId, dirOk, insertOk) => InitSession(cfg, s, p, newId, dirOk, insertOk, id);
      case Put(_, _, _, _, _, _) => PutSession(cfg, s, c, id, n);
      case Complete(cid, queryOk, listOk, storeOk, statusOk) => CompleteSession(cfg, s, cid, queryOk, listOk, storeOk, statusOk, id, n);
      case Abort(cid, queryOk, statusOk, partsOk, uploadOk) => AbortSession(s, cid, queryOk, statusOk, partsOk, uploadOk, id, n);
    }
  }

  // ----- whole runs -----

  /** While the session of an upload lasts, each part file holds what was stored last. */
  lemma {:induction false} FilesAreLast(cfg: Config, calls: seq<Call>, id: Id, n: int)
    requires ValidConfig(cfg) && Fresh(calls) && id in Run(cfg, calls).sessions
    ensures FileAt(Run(cfg, calls), id, n) == LastStored(cfg, calls, id, n)
  {
    if calls != [] {
      var before, c := calls[..|calls| - 1], calls[|calls| - 1];
      var s := Run(cfg, before);
      hide Next, Accepted;
      NextFile(cfg, s, c, id, n);
      if id in s.sessions {
        FilesAreLast(cfg, before, id, n);
      } else {
        StoredIsIssued(cfg, before, id, n);
        RunInv(cfg, before);
        NoFileYet(cfg, s, Issued(before), id, n);
      }
    }
  }

  lemma NoFileYet(cfg: Config, s: State, issued: set<Id>, id: Id, n: int)
    requires Inv(cfg, s, issued) && id !in issued
    ensures FileAt(s, id, n) == None
  {
    assert id !in s.uploads.Keys;
  }

  // ----- what is stored in the end -----

  /** What was stored last of parts 1 to `k`, one after the other. */
  ghost function LastJoined(cfg: Config, calls: seq<Call>, id: Id, k: nat): Bytes
    requires ValidConfig(cfg)
  {
    if k == 0 then []
    else LastJoined(cfg, calls, id, k - 1) + match LastStored(cfg, calls, id, k) case None => [] case Some(d) => d
  }

  lemma {:induction false} JoinedIsLast(cfg: Config, calls: seq<Call>, id: Id, q: seq<int>)
    requires ValidConfig(cfg) && Fresh(calls) && id in Run(cfg, calls).sessions
    requires forall i :: 0 <= i < |q| ==> q[i] == i + 1 && (id, q[i]) in Run(cfg, calls).files
    ensures Joined(Run(cfg, calls).files, id, q) == Some(LastJoined(cfg, calls, id, |q|))
  {
    hide Run, LastStored;
    if q != [] {
      var k := |q| - 1;
      JoinedIsLast(cfg, calls, id, q[..k]);
      assert q[k] == k + 1;
      FilesAreLast(cfg, calls, id, k + 1);
    }
  }

  /** In every run, a successful completion stores, part after part, what was stored last of each. */
  lemma StoresLast(cfg: Config, calls: seq<Call>, id: Id, listOk: bool, storeOk: bool, statusOk: bool)
    requires ValidConfig(cfg) && Fresh(calls)
    requires CompleteStep(cfg, Run(cfg, calls), id, true, listOk, storeOk, statusOk).1.Ok?
    ensures id in Run(cfg, calls).uploads && Run(cfg, calls).uploads[id].totalChunks >= 0
    ensures var u := Run(cfg, calls).uploads[id];
            var (t, r) := CompleteStep(cfg, Run(cfg, calls), id, true, listOk, storeOk, statusOk);
            && Path(u.bucket, u.key) in t.objects
            && t.objects[Path(u.bucket, u.key)] == LastJoined(cfg, calls, id, u.totalChunks)
  {
    hide Run, CompleteStep, Joined, Sorted, Numbers, LastStored, Inv, LastJoined;
    var s := Run(cfg, calls);
    RunInv(cfg, calls);
    CompletedIs(cfg, s, id, listOk, storeOk, statusOk);
    CompletedParts(cfg, s, Issued(calls), id);
    JoinedIsLast(cfg, calls, id, Sorted(Numbers(s, id)));
  }

  lemma ConcatEqual(a: Bytes, b: Bytes, c: Bytes, d: Bytes)
    requires |a| == |c|
    ensures a + b == c + d <==> a == c && b == d
  {
    if a + b == c + d {
      assert a == (a + b)[..|a|] && c == (c + d)[..|a|];
      assert b == (a + b)[|a|..] && d == (c + d)[|a|..];
    }
  }

  /** Part `n` is next in the list, and its file has the length of its range. */
  ghost predicate PartAt(files: map<(Id, int), Bytes>, id: Id, size: int, chunk: int, q: seq<int>, n: int)
    requires 1 <= n <= |q|
  {
    q[n - 1] == n && (id, n) in files && |files[(id, n)]| == PartSize(size, chunk, n)
  }

  ghost predicate Is(files: map<(Id, int), Bytes>, id: Id, n: int, data: Bytes) {
    (id, n) in files && files[(id, n)] == data
  }

  /** Part files of the right lengths, joined, are the first parts of the file if and only if each of them is. */
  lemma {:induction false} JoinedExact(files: map<(Id, int), Bytes>, id: Id, f: Bytes, chunk: int, q: seq<int>)
    requires 0 < |f| && 0 < chunk && |q| <= Ceiling(|f|, chunk)
    requires forall n :: 1 <= n <= |q| ==> PartAt(files, id, |f|, chunk, q, n)
    ensures var j := Joined(files, id, q);
            && j.Some? && |j.value| == |Slices(f, chunk, |q|)|
            && (j.value == Slices(f, chunk, |q|) <==> forall n :: 1 <= n <= |q| ==> Is(files, id, n, Slice(f, chunk, n)))
  {
    hide PartSize, Slice;
    if q != [] {
      var k := |q| - 1;
      forall n | 1 <= n <= k ensures PartAt(files, id, |f|, chunk, q[..k], n) {
        assert PartAt(files, id, |f|, chunk, q, n);
      }
      JoinedExact(files, id, f, chunk, q[..k]);
      SliceLength(f, chunk, k + 1);
      assert PartAt(files, id, |f|, chunk, q, k + 1);
      ConcatEqual(Joined(files, id, q[..k]).value, files[(id, k + 1)], Slices(f, chunk, k), Slice(f, chunk, k + 1));
    }
  }

  lemma SliceLength(f: Bytes, chunk: int, n: int)
    requires 0 < |f| && 0 < chunk && 1 <= n <= Ceiling(|f|, chunk)
    ensures |Slice(f, chunk, n)| == PartSize(|f|, chunk, n)
  {
    PartRangeCovers(|f|, chunk, n);
  }

  /** The chunk count of the upload fits in an `int`, and what was stored last of each part is as long as the
      range of that part. */
  ghost predicate RightLengths(cfg: Config, calls: seq<Call>, id: Id, u: Upload)
    requires ValidConfig(cfg)
  {
    && 0 < u.fileSize && 0 < u.chunkSize && Ceiling(u.fileSize, u.chunkSize) <= MAX_INT
    && forall n :: 1 <= n <= Ceiling(u.fileSize, u.chunkSize) && LastStored(cfg, calls, id, n).Some? ==>
         |LastStored(cfg, calls, id, n).value| == PartSize(u.fileSize, u.chunkSize, n)
  }

  /** What was stored last of each part is that part of `f`. */
  ghost predicate LastRight(cfg: Config, calls: seq<Call>, id: Id, f: Bytes, chunk: int)
    requires ValidConfig(cfg) && 0 < |f| && 0 < chunk
  {
    forall n :: 1 <= n <= Ceiling(|f|, chunk) ==> LastStored(cfg, calls, id, n) == Some(Slice(f, chunk, n))
  }

  lemma FullCount(cfg: Config, s: State, issued: set<Id>, id: Id)
    requires Inv(cfg, s, issued) && id in s.uploads && |Numbers(s, id)| == s.uploads[id].totalChunks
    requires var u := s.uploads[id]; 0 < u.fileSize && 0 < u.chunkSize && Ceiling(u.fileSize, u.chunkSize) <= MAX_INT
    ensures |Sorted(Numbers(s, id))| == Ceiling(s.uploads[id].fileSize, s.uploads[id].chunkSize)
  {
    var u := s.uploads[id];
    assert UploadOk(cfg, u);
    TotalChunksExact(u.fileSize, u.chunkSize);
  }

  ghost predicate FilesHold(s: State, id: Id, f: Bytes, chunk: int)
    requires 0 < |f| && 0 < chunk
  {
    forall n :: 1 <= n <= Ceiling(|f|, chunk) ==> FileAt(s, id, n) == Some(Slice(f, chunk, n))
  }

  /** The same, of the part files at the time of the completion. */
  lemma FilesDecide(cfg: Config, s: State, issued: set<Id>, id: Id, f: Bytes)
    requires Inv(cfg, s, issued) && id in s.uploads && id in s.sessions && |Numbers(s, id)| == s.uploads[id].totalChunks
    requires var u := s.uploads[id];
             0 < |f| == u.fileSize && 0 < u.chunkSize && Ceiling(|f|, u.chunkSize) <= MAX_INT
             && forall n :: 1 <= n <= Ceiling(|f|, u.chunkSize) && FileAt(s, id, n).Some? ==>
                  |FileAt(s, id, n).value| == PartSize(|f|, u.chunkSize, n)
    ensures var j := Joined(s.files, id, Sorted(Numbers(s, id)));
            j.Some? ==> (j.value == f <==> FilesHold(s, id, f, s.uploads[id].chunkSize))
  {
    hide Joined, Sorted, Numbers, Slice, Slices, PartSize, Inv;
    var (u, q) := (s.uploads[id], Sorted(Numbers(s, id)));
    CompletedParts(cfg, s, issued, id);
    FullCount(cfg, s, issued, id);
    forall n | 1 <= n <= |q| ensures PartAt(s.files, id, |f|, u.chunkSize, q, n) {
      assert q[n - 1] == n;
      assert FileAt(s, id, n).Some?;
    }
    JoinedExact(s.files, id, f, u.chunkSize, q);
    SlicesWhole(f, u.chunkSize, |q|);
    forall n | 1 <= n <= |q|
      ensures Is(s.files, id, n, Slice(f, u.chunkSize, n)) <==> FileAt(s, id, n) == Some(Slice(f, u.chunkSize, n))
    {
    }
  }

  /** A successful completion stores the file if and only if, for every part, the last call that reached the
      part file carried the right bytes. */
  lemma LastStoreDecides(cfg: Config, calls: seq<Call>, id: Id, f: Bytes, listOk: bool, storeOk: bool, statusOk: bool)
    requires ValidConfig(cfg) && Fresh(calls) && id in Run(cfg, calls).uploads && |f| == Run(cfg, calls).uploads[id].fileSize
    requires CompleteStep(cfg, Run(cfg, calls), id, true, listOk, storeOk, statusOk).1.Ok?
    requires RightLengths(cfg, calls, id, Run(cfg, calls).uploads[id])
    ensures var u := Run(cfg, calls).uploads[id];
            var t := CompleteStep(cfg, Run(cfg, calls), id, true, listOk, storeOk, statusOk).0;
            && 0 < u.chunkSize && 0 < |f| && Path(u.bucket, u.key) in t.objects
            && (t.objects[Path(u.bucket, u.key)] == f <==> LastRight(cfg, calls, id, f, u.chunkSize))
  {
    hide Run, CompleteStep, Joined, Sorted, Numbers, LastStored, Slice, PartSize, Inv, FileAt, Ceiling;
    var s := Run(cfg, calls);
    RunInv(cfg, calls);
    CompletedIs(cfg, s, id, listOk, storeOk, statusOk);
    forall n ensures FileAt(s, id, n) == LastStored(cfg, calls, id, n) {
      FilesAreLast(cfg, calls, id, n);
    }
    FilesDecide(cfg, s, Issued(calls), id, f);
  }
}
