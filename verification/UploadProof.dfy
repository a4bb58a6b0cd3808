/** Theorems about every run of the multipart upload protocol: any interleaving of calls, with
    repeats and failures anywhere.  Upload ids handed out by the provider are never repeated. */
module UploadProof {
  import opened VInt
  import opened UploadArith
  import opened Options
  import opened UploadModel

  // ----- runs -----

  ghost function IssuedBy(c: Call): set<Id> {
    if c.Init? then {c.newId} else {}
  }

  ghost function Issued(calls: seq<Call>): set<Id> {
    if calls == [] then {} else Issued(calls[..|calls| - 1]) + IssuedBy(calls[|calls| - 1])
  }

  /** No id is handed out twice. */
  ghost predicate Fresh(calls: seq<Call>) {
    calls != [] ==>
      var before, c := calls[..|calls| - 1], calls[|calls| - 1];
      Fresh(before) && IssuedBy(c) !! Issued(before)
  }

  // ----- what every reachable state satisfies -----

  ghost predicate UploadOk(cfg: Config, u: Upload) {
    && 0 < u.fileSize && 0 < u.chunkSize
    && u.totalChunks == TotalChunks(u.fileSize, u.chunkSize) && u.totalChunks <= cfg.maxParts
  }

  ghost predicate PartOk(s: State, p: (Id, int)) {
    p.0 in s.uploads && 1 <= p.1 <= s.uploads[p.0].totalChunks
  }

  ghost predicate Inv(cfg: Config, s: State, issued: set<Id>) {
    && s.uploads.Keys <= issued && s.sessions.Keys <= issued
    && (forall id :: id in s.uploads ==> UploadOk(cfg, s.uploads[id]))
    && (forall id :: id in s.uploads && s.uploads[id].status != Uploading ==> id !in s.sessions)
    && (forall id :: id in s.uploads && id in s.sessions ==>
          s.uploads[id].bucket == s.sessions[id].bucket && s.uploads[id].key == s.sessions[id].key)
    && (forall p :: p in s.parts ==> PartOk(s, p))
    && (forall p :: p in s.files ==> PartOk(s, p) && p.0 in s.sessions)
    && (forall p :: p in s.parts && p.0 in s.sessions ==>
          p in s.files)
  }

  lemma DropSessionKeeps(cfg: Config, s: State, issued: set<Id>, id: Id)
    requires Inv(cfg, s, issued)
    ensures Inv(cfg, DropSession(s, id), issued)
  {
  }

  lemma StatusOnly(cfg: Config, s: State, id: Id, status: Status)
    requires id in s.uploads
    ensures var t := SetStatus(s, id, status);
            && t == s.(uploads := t.uploads) && t.uploads.Keys == s.uploads.Keys
            && (forall j :: j in s.uploads ==> t.uploads[j].bucket == s.uploads[j].bucket && t.uploads[j].key == s.uploads[j].key)
            && (forall j :: j in s.uploads && j != id ==> t.uploads[j] == s.uploads[j])
            && (forall j :: j in s.uploads ==> (UploadOk(cfg, t.uploads[j]) <==> UploadOk(cfg, s.uploads[j])))
            && (forall p :: PartOk(s, p) <==> PartOk(t, p))
  {
  }

  lemma SetStatusKeeps(cfg: Config, s: State, issued: set<Id>, id: Id, status: Status)
    requires Inv(cfg, s, issued) && id in s.uploads && id !in s.sessions
    ensures Inv(cfg, SetStatus(s, id, status), issued)
  {
    var t := SetStatus(s, id, status);
    StatusOnly(cfg, s, id, status);
    hide UploadOk, PartOk, SetStatus;
    assert t.uploads.Keys <= issued;
  }

  lemma DropPartsKeeps(cfg: Config, s: State, issued: set<Id>, id: Id)
    requires Inv(cfg, s, issued)
    ensures Inv(cfg, DropParts(s, id), issued)
  {
  }

  lemma DropUploadKeeps(cfg: Config, s: State, issued: set<Id>, id: Id)
    requires Inv(cfg, s, issued) && id !in s.sessions && forall p :: p in s.parts ==> p.0 != id
    ensures Inv(cfg, DropUpload(s, id), issued)
  {
    var t := DropUpload(s, id);
    assert forall p :: PartOk(s, p) && p.0 != id ==> PartOk(t, p);
    assert forall j :: j in t.uploads ==> j in s.uploads && t.uploads[j] == s.uploads[j];
    hide UploadOk, PartOk;
    assert t.uploads.Keys <= issued;
  }

  lemma AddSessionKeeps(cfg: Config, s: State, issued: set<Id>, id: Id, bucket: string, key: string)
    requires Inv(cfg, s, issued) && id !in issued
    ensures Inv(cfg, AddSession(s, id, bucket, key), issued + {id})
  {
  }

  lemma AddUploadKeeps(cfg: Config, s: State, issued: set<Id>, id: Id, u: Upload)
    requires Inv(cfg, s, issued) && id in issued && id !in s.uploads && UploadOk(cfg, u) && u.status == Uploading
    requires id in s.sessions && u.bucket == s.sessions[id].bucket && u.key == s.sessions[id].key
    ensures Inv(cfg, AddUpload(s, id, u), issued)
  {
    assert forall p :: PartOk(s, p) ==> PartOk(AddUpload(s, id, u), p);
  }

  lemma WriteFileKeeps(cfg: Config, s: State, issued: set<Id>, id: Id, n: int, data: Bytes, part: Part)
    requires Inv(cfg, s, issued) && id in s.sessions && PartOk(s, (id, n))
    ensures Inv(cfg, WriteFile(s, id, n, data, part), issued)
  {
    assert forall p :: PartOk(s, p) ==> PartOk(WriteFile(s, id, n, data, part), p);
  }

  lemma AddPartKeeps(cfg: Config, s: State, issued: set<Id>, id: Id, n: int, part: Part)
    requires Inv(cfg, s, issued) && (id, n) in s.files
    ensures Inv(cfg, AddPart(s, id, n, part), issued)
  {
    assert forall p :: PartOk(s, p) ==> PartOk(AddPart(s, id, n, part), p);
  }

  lemma WriteObjectKeeps(cfg: Config, s: State, issued: set<Id>, path: string, data: Bytes)
    requires Inv(cfg, s, issued)
    ensures Inv(cfg, WriteObject(s, path, data), issued)
  {
    assert forall p :: PartOk(s, p) ==> PartOk(WriteObject(s, path, data), p);
  }

  lemma InitKeeps(cfg: Config, s: State, issued: set<Id>, c: Call)
    requires ValidConfig(cfg) && Inv(cfg, s, issued) && c.Init? && c.newId !in issued
    ensures Inv(cfg, Next(cfg, s, c), issued + {c.newId})
  {
    assert c.newId !in s.uploads && (Next(cfg, s, c) == s ==> Inv(cfg, s, issued + {c.newId}));
    hide Inv;
    AddSessionKeeps(cfg, s, issued, c.newId, c.params.bucket, c.params.key);
    var t := Next(cfg, s, c);
    if c.newId in t.uploads {
      AddUploadKeeps(cfg, AddSession(s, c.newId, c.params.bucket, c.params.key), issued + {c.newId}, c.newId, t.uploads[c.newId]);
    }
  }

  lemma PutKeeps(cfg: Config, s: State, issued: set<Id>, c: Call)
    requires ValidConfig(cfg) && Inv(cfg, s, issued) && c.Put?
    ensures Inv(cfg, Next(cfg, s, c), issued)
  {
    hide Inv;
    if Accepted(s, c) {
      var part := Part(cfg.etag(c.data), |c.data|);
      WriteFileKeeps(cfg, s, issued, c.id, c.n, c.data, part);
      AddPartKeeps(cfg, WriteFile(s, c.id, c.n, c.data, part), issued, c.id, c.n, part);
    }
  }

  lemma CompleteKeeps(cfg: Config, s: State, issued: set<Id>, c: Call)
    requires ValidConfig(cfg) && Inv(cfg, s, issued) && c.Complete?
    ensures Inv(cfg, Next(cfg, s, c), issued)
  {
    hide Inv;
    if Next(cfg, s, c) != s {
      var u := s.uploads[c.id];
      var data := Joined(s.files, c.id, Sorted(Numbers(s, c.id))).value;
      var w := WriteObject(s, Path(u.bucket, u.key), data);
      WriteObjectKeeps(cfg, s, issued, Path(u.bucket, u.key), data);
      DropSessionKeeps(cfg, w, issued, c.id);
      SetStatusKeeps(cfg, DropSession(w, c.id), issued, c.id, Completed);
    }
  }

  lemma AbortKeeps(cfg: Config, s: State, issued: set<Id>, c: Call)
    requires ValidConfig(cfg) && Inv(cfg, s, issued) && c.Abort?
    ensures Inv(cfg, Next(cfg, s, c), issued)
  {
    if c.queryOk && c.id in s.uploads {
      hide Inv;
      var t := if c.id in s.sessions then DropSession(s, c.id) else s;
      DropSessionKeeps(cfg, s, issued, c.id);
      SetStatusKeeps(cfg, t, issued, c.id, Aborted);
      var v := SetStatus(t, c.id, Aborted);
      DropPartsKeeps(cfg, v, issued, c.id);
      DropUploadKeeps(cfg, DropParts(v, c.id), issued, c.id);
    }
  }

  /** One call, whatever it is, keeps the invariant. */
  lemma NextKeeps(cfg: Config, s: State, issued: set<Id>, c: Call)
    requires ValidConfig(cfg) && Inv(cfg, s, issued) && IssuedBy(c) !! issued
    ensures Inv(cfg, Next(cfg, s, c), issued + IssuedBy(c))
  {
    hide Inv;
    assert !c.Init? ==> issued + IssuedBy(c) == issued;
    match c
    case Init(_, id, _, _) =>
      assert id in IssuedBy(c);
      InitKeeps(cfg, s, issued, c);
    case Put(_, _, _, _, _, _) => PutKeeps(cfg, s, issued, c);
    case Complete(_, _, _, _, _) => CompleteKeeps(cfg, s, issued, c);
    case Abort(_, _, _, _, _) => AbortKeeps(cfg, s, issued, c);
  }

  lemma {:induction false} RunInv(cfg: Config, calls: seq<Call>)
    requires ValidConfig(cfg) && Fresh(calls)
    ensures Inv(cfg, Run(cfg, calls), Issued(calls))
  {
    if calls != [] {
      var before, c := calls[..|calls| - 1], calls[|calls| - 1];
      RunInv(cfg, before);
      NextKeeps(cfg, Run(cfg, before), Issued(before), c);
    }
  }

  // ----- end to end -----

  /** `data` is what get_part_range selects from file `f` for part `n`. */
  ghost predicate RightBytes(u: Upload, f: Bytes, n: int, data: Bytes) {
    && 0 < u.chunkSize && 0 < |f| == u.fileSize && 1 <= n <= Ceiling(|f|, u.chunkSize)
    && data == Slice(f, u.chunkSize, n)
  }

  /** Every part of upload `id` that the provider stored, in this run, carried the right bytes of `f`. */
  ghost predicate Honest(cfg: Config, calls: seq<Call>, id: Id, f: Bytes)
    requires ValidConfig(cfg)
  {
    calls != [] ==>
      var before, c := calls[..|calls| - 1], calls[|calls| - 1];
      var s := Run(cfg, before);
      && Honest(cfg, before, id, f)
      && (Accepted(s, c) && c.id == id ==> RightBytes(s.uploads[id], f, c.n, c.data))
  }

  ghost predicate FilesRight(s: State, id: Id, f: Bytes) {
    forall n :: (id, n) in s.files ==> id in s.uploads && RightBytes(s.uploads[id], f, n, s.files[(id, n)])
  }

  lemma FilesStayRight(cfg: Config, s: State, issued: set<Id>, c: Call, id: Id, f: Bytes)
    requires ValidConfig(cfg) && Inv(cfg, s, issued) && FilesRight(s, id, f) && IssuedBy(c) !! issued
    requires Accepted(s, c) && c.id == id ==> RightBytes(s.uploads[id], f, c.n, c.data)
    ensures FilesRight(Next(cfg, s, c), id, f)
  {
    var t := Next(cfg, s, c);
    NextKeeps(cfg, s, issued, c);
    forall n | (id, n) in t.files ensures id in t.uploads && RightBytes(t.uploads[id], f, n, t.files[(id, n)]) {
      assert PartOk(t, (id, n));
      FileFrom(cfg, s, c, (id, n));
      assert (id, n) in s.files ==> PartOk(s, (id, n));
      UploadFixed(cfg, s, c, id);
    }
  }

  /** A part file is either an old one or the one just stored. */
  lemma FileFrom(cfg: Config, s: State, c: Call, p: (Id, int))
    requires ValidConfig(cfg) && p in Next(cfg, s, c).files
    ensures || (p in s.files && Next(cfg, s, c).files[p] == s.files[p])
            || (Accepted(s, c) && p == (c.id, c.n) && Next(cfg, s, c).files[p] == c.data)
  {
    hide InitStep, PutStep, CompleteStep, AbortStep;
    match c {
      case Init(q, id, dirOk, insertOk) => InitFiles(cfg, s, q, id, dirOk, insertOk);
      case Put(_, _, _, _, _, _) => PutFiles(cfg, s, c);
      case Complete(id, queryOk, listOk, storeOk, statusOk) => CompleteFiles(cfg, s, id, queryOk, listOk, storeOk, statusOk);
      case Abort(id, queryOk, statusOk, partsOk, uploadOk) => AbortFiles(s, id, queryOk, statusOk, partsOk, uploadOk);
    }
  }

  ghost predicate FilesShrink(s: State, t: State) {
    forall p :: p in t.files ==> p in s.files && t.files[p] == s.files[p]
  }

  ghost predicate SameUploads(s: State, t: State) {
    forall id :: id in s.uploads && id in t.uploads ==> t.uploads[id] == s.uploads[id].(status := t.uploads[id].status)
  }

  lemma InitFiles(cfg: Config, s: State, p: Params, id: Id, dirOk: bool, insertOk: bool)
    requires ValidConfig(cfg)
    ensures var t := InitStep(cfg, s, p, id, dirOk, insertOk).0; FilesShrink(s, t) && SameUploads(s, t)
  {
    hide TotalChunks, ChunkSize;
  }

  lemma PutFiles(cfg: Config, s: State, c: Call)
    requires ValidConfig(cfg) && c.Put?
    ensures var t := PutStep(cfg, s, c.id, c.n, c.data, c.queryOk, c.writeOk, c.recordOk).0;
            SameUploads(s, t) && if Accepted(s, c) then t.files == s.files[(c.id, c.n) := c.data] else FilesShrink(s, t)
  {
  }

  lemma CompleteFiles(cfg: Config, s: State, id: Id, queryOk: bool, listOk: bool, storeOk: bool, statusOk: bool)
    ensures var t := CompleteStep(cfg, s, id, queryOk, listOk, storeOk, statusOk).0; FilesShrink(s, t) && SameUploads(s, t)
  {
    hide Sorted, Numbers, Joined;
  }

  lemma AbortFiles(s: State, id: Id, queryOk: bool, statusOk: bool, partsOk: bool, uploadOk: bool)
    ensures var t := AbortStep(s, id, queryOk, statusOk, partsOk, uploadOk).0; FilesShrink(s, t) && SameUploads(s, t)
  {
  }

  /** Nothing but the status of an upload record ever changes. */
  lemma UploadFixed(cfg: Config, s: State, c: Call, id: Id)
    requires ValidConfig(cfg) && id in s.uploads && id in Next(cfg, s, c).uploads
    ensures var v := Next(cfg, s, c).uploads[id]; v == s.uploads[id].(status := v.status)
  {
    hide InitStep, PutStep, CompleteStep, AbortStep;
    match c {
      case Init(q, i, dirOk, insertOk) => InitFiles(cfg, s, q, i, dirOk, insertOk);
      case Put(_, _, _, _, _, _) => PutFiles(cfg, s, c);
      case Complete(i, queryOk, listOk, storeOk, statusOk) => CompleteFiles(cfg, s, i, queryOk, listOk, storeOk, statusOk);
      case Abort(i, queryOk, statusOk, partsOk, uploadOk) => AbortFiles(s, i, queryOk, statusOk, partsOk, uploadOk);
    }
  }

  lemma {:induction false} RunFilesRight(cfg: Config, calls: seq<Call>, id: Id, f: Bytes)
    requires ValidConfig(cfg) && Fresh(calls) && Honest(cfg, calls, id, f)
    ensures FilesRight(Run(cfg, calls), id, f)
  {
    if calls != [] {
      var before := calls[..|calls| - 1];
      RunFilesRight(cfg, before, id, f);
      RunInv(cfg, before);
      FilesStayRight(cfg, Run(cfg, before), Issued(before), calls[|calls| - 1], id, f);
    }
  }

  /** The recorded part numbers are 1..total, as soon as there are as many as there should be. */
  lemma CountMeansAll(cfg: Config, s: State, issued: set<Id>, id: Id)
    requires Inv(cfg, s, issued) && id in s.uploads && |Numbers(s, id)| == s.uploads[id].totalChunks
    ensures var q := Sorted(Numbers(s, id)); forall i :: 0 <= i < |q| ==> q[i] == i + 1
  {
    var q := Sorted(Numbers(s, id));
    forall i | 0 <= i < |q| ensures 1 <= q[i] <= |q| {
      assert q[i] in Numbers(s, id);
      assert PartOk(s, (id, q[i]));
    }
    FullList(q);
  }

  lemma {:induction false} JoinedIs(s: State, id: Id, f: Bytes, q: seq<int>)
    requires id in s.uploads && 0 < s.uploads[id].chunkSize && 0 < |f| == s.uploads[id].fileSize
    requires FilesRight(s, id, f) && forall i :: 0 <= i < |q| ==> q[i] == i + 1 && (id, q[i]) in s.files
    ensures |q| <= Ceiling(|f|, s.uploads[id].chunkSize)
    ensures Joined(s.files, id, q) == Some(Slices(f, s.uploads[id].chunkSize, |q|))
  {
    if q != [] {
      JoinedIs(s, id, f, q[..|q| - 1]);
      assert q[|q| - 1] == |q|;
      assert (id, |q|) in s.files && RightBytes(s.uploads[id], f, |q|, s.files[(id, |q|)]);
    } else {
      CeilingIs(|f|, s.uploads[id].chunkSize);
    }
  }

  /** What complete_multipart stores is the parts 1..total of the file, in order. */
  lemma StoresParts(cfg: Config, s: State, issued: set<Id>, id: Id, f: Bytes, listOk: bool, storeOk: bool, statusOk: bool)
    requires Inv(cfg, s, issued) && FilesRight(s, id, f) && id in s.uploads && |f| == s.uploads[id].fileSize
    requires CompleteStep(cfg, s, id, true, listOk, storeOk, statusOk).1.Ok?
    ensures var u := s.uploads[id];
            var (t, r) := CompleteStep(cfg, s, id, true, listOk, storeOk, statusOk);
            && 0 <= u.totalChunks <= Ceiling(|f|, u.chunkSize)
            && Path(u.bucket, u.key) in t.objects
            && t.objects[Path(u.bucket, u.key)] == Slices(f, u.chunkSize, u.totalChunks)
            && r.value == Stored(u.key, cfg.etag(t.objects[Path(u.bucket, u.key)]), |t.objects[Path(u.bucket, u.key)]|)
  {
    hide *;
    CompletedIs(cfg, s, id, listOk, storeOk, statusOk);
    CompletedParts(cfg, s, issued, id);
    JoinedIs(s, id, f, Sorted(Numbers(s, id)));
  }

  /** The effect of a successful completion. */
  lemma CompletedIs(cfg: Config, s: State, id: Id, listOk: bool, storeOk: bool, statusOk: bool)
    requires CompleteStep(cfg, s, id, true, listOk, storeOk, statusOk).1.Ok?
    ensures id in s.uploads && id in s.sessions && |Numbers(s, id)| == s.uploads[id].totalChunks
    ensures var u, j := s.uploads[id], Joined(s.files, id, Sorted(Numbers(s, id)));
            var (t, r) := CompleteStep(cfg, s, id, true, listOk, storeOk, statusOk);
            && j.Some? && t.objects == s.objects[Path(u.bucket, u.key) := j.value]
            && r.value == Stored(u.key, cfg.etag(j.value), |j.value|)
            && id in t.uploads && t.uploads[id].status == Completed && id !in t.sessions
  {
    hide Sorted, Joined, Numbers;
  }

  lemma CompletedParts(cfg: Config, s: State, issued: set<Id>, id: Id)
    requires Inv(cfg, s, issued) && id in s.uploads && id in s.sessions
    requires |Numbers(s, id)| == s.uploads[id].totalChunks
    ensures var q := Sorted(Numbers(s, id)); forall i :: 0 <= i < |q| ==> q[i] == i + 1 && (id, q[i]) in s.files
    ensures 0 < s.uploads[id].chunkSize && 0 < s.uploads[id].fileSize
  {
    var q := Sorted(Numbers(s, id));
    CountMeansAll(cfg, s, issued, id);
    assert UploadOk(cfg, s.uploads[id]);
    forall i | 0 <= i < |q| ensures (id, q[i]) in s.files {
      assert q[i] in Numbers(s, id);
      assert (id, q[i]) in s.parts;
    }
  }

  /** The main theorem.  After any run in which ids are fresh and every stored part of `id` carried the
      right bytes of `f`, a successful completion stores exactly `f`, provided that the number of chunks
      fits in a 32-bit `int`; otherwise it never does. */
  lemma EndToEnd(cfg: Config, calls: seq<Call>, id: Id, f: Bytes, listOk: bool, storeOk: bool, statusOk: bool)
    requires ValidConfig(cfg) && Fresh(calls) && Honest(cfg, calls, id, f)
    requires var s := Run(cfg, calls);
             && id in s.uploads && |f| == s.uploads[id].fileSize
             && CompleteStep(cfg, s, id, true, listOk, storeOk, statusOk).1.Ok?
    ensures var u := Run(cfg, calls).uploads[id];
            var (t, r) := CompleteStep(cfg, Run(cfg, calls), id, true, listOk, storeOk, statusOk);
            && 0 < u.chunkSize && 0 < |f| && Path(u.bucket, u.key) in t.objects
            && (t.objects[Path(u.bucket, u.key)] == f <==> Ceiling(|f|, u.chunkSize) <= MAX_INT)
            && (Ceiling(|f|, u.chunkSize) <= MAX_INT ==> r == Ok(Stored(u.key, cfg.etag(f), |f|)))
  {
    var s := Run(cfg, calls);
    RunInv(cfg, calls);
    RunFilesRight(cfg, calls, id, f);
    StoresParts(cfg, s, Issued(calls), id, f, listOk, storeOk, statusOk);
    var u := s.uploads[id];
    TotalChunksExact(|f|, u.chunkSize);
    SlicesWhole(f, u.chunkSize, u.totalChunks);
  }
}
