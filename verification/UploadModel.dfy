/** The multipart upload protocol as a state machine: one step for each call on the chunk manager
    (chunk_manager.v) over the two tables (database.v) and local storage (local_storage.v).
    Whatever can fail from outside is a Boolean of the step. */
module UploadModel {
  import opened Options
  import opened VInt
  import opened UploadArith

  type Id = string

  datatype Status = Uploading | Completed | Aborted

  datatype Upload = Upload(fileSize: int, chunkSize: int, totalChunks: int, bucket: string, key: string, status: Status)

  datatype Part = Part(etag: string, size: int)

  datatype Session = Session(bucket: string, key: string, parts: map<int, Part>)

  /** Tables multipart_uploads and uploaded_parts (unique by upload and part number); the provider's
      sessions, part files and stored objects (by path). */
  datatype State = State(
    uploads: map<Id, Upload>,
    parts: map<(Id, int), Part>,
    sessions: map<Id, Session>,
    files: map<(Id, int), Bytes>,
    objects: map<string, Bytes>)

  datatype Config = Config(
    defaultChunk: int, minChunk: int, maxChunk: int, maxParts: int, retryCount: int,
    etag: Bytes -> string, retryable: Error -> bool)

  datatype Error =
    | BucketRequired | KeyRequired | SizeNotPositive | FileTooLarge
    | UploadNotFound | NotUploading(status: Status) | InvalidPart | Incomplete(have: int, want: int)
    | ProviderFailed | DatabaseFailed | NoData | RetriesFailed(last: Option<Error>)

  datatype Result<T> = Ok(value: T) | Err(error: Error)

  datatype Stored = Stored(key: string, etag: string, size: int)

  datatype Params = Params(bucket: string, key: string, fileSize: int, chunkSize: int)

  datatype Call =
    | Init(params: Params, newId: Id, dirOk: bool, insertOk: bool)
    | Put(id: Id, n: int, data: Bytes, queryOk: bool, writeOk: bool, recordOk: bool)
    | Complete(id: Id, queryOk: bool, listOk: bool, storeOk: bool, statusOk: bool)
    | Abort(id: Id, queryOk: bool, statusOk: bool, partsOk: bool, uploadOk: bool)

  ghost predicate ValidConfig(cfg: Config) {
    0 < cfg.defaultChunk && 0 < cfg.minChunk && 0 < cfg.maxChunk && 0 <= cfg.maxParts < MAX_INT
  }

  function Path(bucket: string, key: string): string {
    bucket + "/" + key
  }

  /** validate_chunk_size, with the default for 0. */
  function ChunkSize(cfg: Config, size: int): int {
    if size <= 0 then cfg.defaultChunk
    else if size < cfg.minChunk then cfg.minChunk
    else if size > cfg.maxChunk then cfg.maxChunk
    else size
  }

  // ----- sorted part lists -----

  ghost predicate Ascending(s: seq<int>) {
    forall i, j :: 0 <= i < j < |s| ==> s[i] < s[j]
  }

  predicate IsLeast(m: int, s: set<int>) {
    m in s && forall k :: k in s ==> m <= k
  }

  ghost function Any<T>(s: set<T>): (x: T)
    requires s != {}
    ensures x in s
  {
    var x :| x in s;
    x
  }

  lemma {:induction false} LeastExists(s: set<int>)
    requires s != {}
    ensures exists m :: IsLeast(m, s)
    decreases |s|
  {
    var x := Any(s);
    var r := s - {x};
    if r == {} {
      assert s == {x};
      assert IsLeast(x, s);
    } else {
      LeastExists(r);
      var k :| IsLeast(k, r);
      assert forall j :: j in s ==> j == x || j in r;
      assert IsLeast(if x < k then x else k, s);
    }
  }

  /** The members of a set in ascending order: ORDER BY part_number ASC. */
  ghost function Sorted(s: set<int>): (q: seq<int>)
    ensures Ascending(q) && |q| == |s|
    ensures forall k :: k in q <==> k in s
  {
    if s == {} then []
    else
      LeastExists(s);
      var m :| IsLeast(m, s);
      [m] + Sorted(s - {m})
  }

  /** Pigeonhole: `k` ascending numbers between 1 and `k` are 1, 2, ..., k. */
  lemma FullList(q: seq<int>)
    requires Ascending(q) && forall i :: 0 <= i < |q| ==> 1 <= q[i] <= |q|
    ensures forall i :: 0 <= i < |q| ==> q[i] == i + 1
  {
    forall i | 0 <= i < |q| ensures q[i] == i + 1 {
      AtLeast(q, 0, i);
      AtLeast(q, i, |q| - 1);
    }
  }

  lemma {:induction false} AtLeast(q: seq<int>, i: nat, j: nat)
    requires Ascending(q) && i <= j < |q|
    ensures q[j] - q[i] >= j - i
  {
    if i < j {
      AtLeast(q, i, j - 1);
    }
  }

  function NumbersOf(parts: map<(Id, int), Part>, id: Id): set<int> {
    set p | p in parts && p.0 == id :: p.1
  }

  ghost function Numbers(s: State, id: Id): set<int> {
    NumbersOf(s.parts, id)
  }

  /** pending_parts of get_upload_progress: the numbers 1..total that are not recorded, ascending. */
  ghost function Pending(total: int, done: set<int>): (q: seq<int>)
    ensures Ascending(q) && forall k :: k in q <==> 1 <= k <= total && k !in done
    decreases if total < 0 then 0 else total
  {
    if total <= 0 then []
    else if total in done then Pending(total - 1, done)
    else
      var p := Pending(total - 1, done);
      assert forall i :: 0 <= i < |p| ==> p[i] in p;
      p + [total]
  }

  lemma {:induction false} PendingSame(total: int, a: set<int>, b: set<int>)
    requires forall k :: 1 <= k <= total ==> (k in a <==> k in b)
    ensures Pending(total, a) == Pending(total, b)
  {
    if total > 0 {
      PendingSame(total - 1, a, b);
    }
  }

  /** The part files of `nums`, one after the other; None if one is missing. */
  ghost function Joined(files: map<(Id, int), Bytes>, id: Id, nums: seq<int>): Option<Bytes> {
    if nums == [] then Some([])
    else
      var last := nums[|nums| - 1];
      match Joined(files, id, nums[..|nums| - 1])
      case None => None
      case Some(b) => if (id, last) in files then Some(b + files[(id, last)]) else None
  }

  // ----- single effects -----

  ghost function AddSession(s: State, id: Id, bucket: string, key: string): State {
    s.(sessions := s.sessions[id := Session(bucket, key, map[])])
  }

  ghost function AddUpload(s: State, id: Id, u: Upload): State {
    s.(uploads := s.uploads[id := u])
  }

  ghost function WriteFile(s: State, id: Id, n: int, data: Bytes, part: Part): State
    requires id in s.sessions
  {
    s.(files := s.files[(id, n) := data],
       sessions := s.sessions[id := s.sessions[id].(parts := s.sessions[id].parts[n := part])])
  }

  ghost function AddPart(s: State, id: Id, n: int, part: Part): State {
    s.(parts := s.parts[(id, n) := part])
  }

  /** The temporary directory and the provider's session go. */
  ghost function DropSession(s: State, id: Id): State {
    s.(files := map p | p in s.files && p.0 != id :: s.files[p], sessions := s.sessions - {id})
  }

  ghost function WriteObject(s: State, path: string, data: Bytes): State {
    s.(objects := s.objects[path := data])
  }

  ghost function SetStatus(s: State, id: Id, status: Status): State
    requires id in s.uploads
  {
    s.(uploads := s.uploads[id := s.uploads[id].(status := status)])
  }

  ghost function DropParts(s: State, id: Id): State {
    s.(parts := map p | p in s.parts && p.0 != id :: s.parts[p])
  }

  ghost function DropUpload(s: State, id: Id): State {
    s.(uploads := s.uploads - {id})
  }

  // ----- the calls -----

  ghost function InitStep(cfg: Config, s: State, p: Params, id: Id, dirOk: bool, insertOk: bool): (State, Result<Id>)
    requires ValidConfig(cfg)
  {
    if p.bucket == "" then (s, Err(BucketRequired))
    else if p.key == "" then (s, Err(KeyRequired))
    else if p.fileSize <= 0 then (s, Err(SizeNotPositive))
    else
      var chunk := ChunkSize(cfg, p.chunkSize);
      var total := TotalChunks(p.fileSize, chunk);
      if total > cfg.maxParts then (s, Err(FileTooLarge))
      else if !dirOk then (s, Err(ProviderFailed))
      else
        var t := AddSession(s, id, p.bucket, p.key);
        if !insertOk || id in s.uploads then (t, Err(DatabaseFailed))
        else (AddUpload(t, id, Upload(p.fileSize, chunk, total, p.bucket, p.key, Uploading)), Ok(id))
  }

  /** The provider is asked to store the part, and does. */
  ghost predicate Accepted(s: State, c: Call) {
    && c.Put? && c.queryOk && c.id in s.uploads && s.uploads[c.id].status == Uploading
    && 1 <= c.n <= s.uploads[c.id].totalChunks
    && c.id in s.sessions && c.writeOk
  }

  ghost function PutStep(cfg: Config, s: State, id: Id, n: int, data: Bytes, queryOk: bool, writeOk: bool, recordOk: bool)
    : (State, Result<Part>)
  {
    if !queryOk || id !in s.uploads then (s, Err(UploadNotFound))
    else
      var u := s.uploads[id];
      if u.status != Uploading then (s, Err(NotUploading(u.status)))
      else if n < 1 || n > u.totalChunks then (s, Err(InvalidPart))
      else if id !in s.sessions || !writeOk then (s, Err(ProviderFailed))
      else
        var part := Part(cfg.etag(data), |data|);
        var t := WriteFile(s, id, n, data, part);
        if !recordOk then (t, Err(DatabaseFailed)) else (AddPart(t, id, n, part), Ok(part))
  }

  ghost function CompleteStep(cfg: Config, s: State, id: Id, queryOk: bool, listOk: bool, storeOk: bool, statusOk: bool)
    : (State, Result<Stored>)
  {
    if !queryOk || id !in s.uploads then (s, Err(UploadNotFound))
    else
      var u := s.uploads[id];
      if u.status != Uploading then (s, Err(NotUploading(u.status)))
      else if !listOk then (s, Err(DatabaseFailed))
      else
        var nums := Sorted(Numbers(s, id));
        if |nums| != u.totalChunks then (s, Err(Incomplete(|nums|, u.totalChunks)))
        else if id !in s.sessions || !storeOk then (s, Err(ProviderFailed))
        else
          match Joined(s.files, id, nums)
          case None => (s, Err(ProviderFailed))
          case Some(data) =>
            var t := DropSession(WriteObject(s, Path(u.bucket, u.key), data), id);
            if !statusOk then (t, Err(DatabaseFailed))
            else (SetStatus(t, id, Completed), Ok(Stored(u.key, cfg.etag(data), |data|)))
  }

  ghost function AbortStep(s: State, id: Id, queryOk: bool, statusOk: bool, partsOk: bool, uploadOk: bool)
    : (State, Result<()>)
  {
    if !queryOk || id !in s.uploads then (s, Err(UploadNotFound))
    else
      var t := if id in s.sessions then DropSession(s, id) else s;
      if !statusOk then (t, Err(DatabaseFailed))
      else
        var v := SetStatus(t, id, Aborted);
        if !partsOk then (v, Err(DatabaseFailed))
        else
          var w := DropParts(v, id);
          if !uploadOk then (w, Err(DatabaseFailed)) else (DropUpload(w, id), Ok(()))
  }

  ghost function Next(cfg: Config, s: State, c: Call): State
    requires ValidConfig(cfg)
  {
    match c
    case Init(p, id, dirOk, insertOk) => InitStep(cfg, s, p, id, dirOk, insertOk).0
    case Put(id, n, data, queryOk, writeOk, recordOk) => PutStep(cfg, s, id, n, data, queryOk, writeOk, recordOk).0
    case Complete(id, queryOk, listOk, storeOk, statusOk) => CompleteStep(cfg, s, id, queryOk, listOk, storeOk, statusOk).0
    case Abort(id, queryOk, statusOk, partsOk, uploadOk) => AbortStep(s, id, queryOk, statusOk, partsOk, uploadOk).0
  }

  const EMPTY := State(map[], map[], map[], map[], map[])

  ghost function Run(cfg: Config, calls: seq<Call>): State
    requires ValidConfig(cfg)
  {
    if calls == [] then EMPTY
    else Next(cfg, Run(cfg, calls[..|calls| - 1]), calls[|calls| - 1])
  }
}
