/** The chunk manager (chunk_manager.v) over the database (database.v) and local storage
    (local_storage.v), updating tables, sessions and files in place.  Every method is tied to the
    step of UploadModel that it carries out. */
module UploadManager {
  import opened UploadArith
  import opened Options
  import opened UploadModel

  datatype PartInfo = PartInfo(number: int, part: Part)

  ghost function Numbered(s: seq<PartInfo>): seq<int> {
    if s == [] then [] else Numbered(s[..|s| - 1]) + [s[|s| - 1].number]
  }

  lemma {:induction false} NumberedAt(s: seq<PartInfo>)
    ensures |Numbered(s)| == |s| && forall i :: 0 <= i < |s| ==> Numbered(s)[i] == s[i].number
  {
    if s != [] {
      NumberedAt(s[..|s| - 1]);
    }
  }

  // ----- sort by part number -----

  function InsertPart(s: seq<PartInfo>, x: PartInfo): seq<PartInfo> {
    if s == [] || s[|s| - 1].number <= x.number then s + [x]
    else InsertPart(s[..|s| - 1], x) + [s[|s| - 1]]
  }

  function SortParts(s: seq<PartInfo>): seq<PartInfo> {
    if s == [] then [] else InsertPart(SortParts(s[..|s| - 1]), s[|s| - 1])
  }

  /** The rows come sorted from the database; sorting them again changes nothing. */
  lemma {:induction false} SortedStays(s: seq<PartInfo>)
    requires Ascending(Numbered(s))
    ensures SortParts(s) == s
  {
    if s != [] {
      NumberedAt(s);
      NumberedAt(s[..|s| - 1]);
      SortedStays(s[..|s| - 1]);
    }
  }

  class DatabaseManager {
    var uploads: map<Id, Upload>
    var parts: map<(Id, int), Part>

    constructor ()
      ensures uploads == map[] && parts == map[]
    {
      uploads, parts := map[], map[];
    }

    method CreateMultipartUpload(id: Id, u: Upload, ok: bool) returns (done: bool)
      modifies this
      ensures done <==> ok && id !in old(uploads)
      ensures uploads == (if done then old(uploads)[id := u] else old(uploads)) && parts == old(parts)
    {
      done := ok && id !in uploads;
      if done {
        uploads := uploads[id := u];
      }
    }

    method GetMultipartUpload(id: Id, ok: bool) returns (r: Result<Upload>)
      ensures r == if ok && id in uploads then Ok(uploads[id]) else Err(UploadNotFound)
    {
      if ok && id in uploads {
        return Ok(uploads[id]);
      }
      return Err(UploadNotFound);
    }

    method UpdateMultipartStatus(id: Id, status: Status, ok: bool)
      modifies this
      ensures parts == old(parts)
      ensures uploads == if ok && id in old(uploads) then old(uploads)[id := old(uploads)[id].(status := status)] else old(uploads)
    {
      if ok && id in uploads {
        uploads := uploads[id := uploads[id].(status := status)];
      }
    }

    method DeleteMultipartUpload(id: Id, partsOk: bool, uploadOk: bool) returns (done: bool)
      modifies this
      ensures done <==> partsOk && uploadOk
      ensures parts == if partsOk then (map p | p in old(parts) && p.0 != id :: old(parts)[p]) else old(parts)
      ensures uploads == if done then old(uploads) - {id} else old(uploads)
    {
      if !partsOk {
        return false;
      }
      parts := map p | p in parts && p.0 != id :: parts[p];
      if !uploadOk {
        return false;
      }
      uploads := uploads - {id};
      return true;
    }

    method RecordUploadedPart(id: Id, n: int, part: Part, ok: bool)
      modifies this
      ensures uploads == old(uploads)
      ensures parts == if ok then old(parts)[(id, n) := part] else old(parts)
    {
      if ok {
        parts := parts[(id, n) := part];
      }
    }

    /** The recorded parts of an upload, each once, in ascending order of number. */
    method GetUploadedParts(id: Id) returns (rows: seq<PartInfo>)
      ensures Numbered(rows) == Sorted(NumbersOf(parts, id))
      ensures forall i :: 0 <= i < |rows| ==> (id, rows[i].number) in parts && rows[i].part == parts[(id, rows[i].number)]
    {
      hide Sorted, Numbered, Ascending;
      var all := NumbersOf(parts, id);
      var rest := all;
      rows := [];
      NoneListed();
      while rest != {}
        invariant rest <= all && forall k :: k in all ==> (id, k) in parts
        invariant Numbered(rows) + Sorted(rest) == Sorted(all)
        invariant forall i :: 0 <= i < |rows| ==> (id, rows[i].number) in parts && rows[i].part == parts[(id, rows[i].number)]
        decreases |rest|
      {
        LeastExists(rest);
        var m :| IsLeast(m, rest);
        SortedFrom(rest, m);
        var row := PartInfo(m, parts[(id, m)]);
        NumberedNext(rows, row);
        assert (Numbered(rows) + [m]) + Sorted(rest - {m}) == Numbered(rows) + ([m] + Sorted(rest - {m}));
        rows := rows + [row];
        rest := rest - {m};
      }
    }
  }

  lemma NumberedNext(s: seq<PartInfo>, x: PartInfo)
    ensures Numbered(s + [x]) == Numbered(s) + [x.number]
  {
    assert (s + [x])[..|s|] == s;
  }

  lemma NoneListed()
    ensures Sorted({}) == [] && Numbered([]) == []
  {
  }

  lemma SortedFrom(s: set<int>, m: int)
    requires IsLeast(m, s)
    ensures Sorted(s) == [m] + Sorted(s - {m})
  {
  }

  class LocalStorage {
    var sessions: map<Id, Session>
    var files: map<(Id, int), Bytes>
    var objects: map<string, Bytes>
    const etag: Bytes -> string

    constructor (etag: Bytes -> string)
      ensures this.etag == etag && sessions == map[] && files == map[] && objects == map[]
    {
      this.etag := etag;
      sessions, files, objects := map[], map[], map[];
    }

    method InitMultipart(bucket: string, key: string, id: Id, ok: bool)
      modifies this
      ensures files == old(files) && objects == old(objects)
      ensures sessions == if ok then old(sessions)[id := Session(bucket, key, map[])] else old(sessions)
    {
      if ok {
        sessions := sessions[id := Session(bucket, key, map[])];
      }
    }

    method UploadPart(id: Id, n: int, data: Bytes, ok: bool) returns (r: Result<string>)
      modifies this
      ensures objects == old(objects)
      ensures id in old(sessions) && ok ==>
        && r == Ok(etag(data)) && files == old(files)[(id, n) := data]
        && var x := old(sessions)[id]; sessions == old(sessions)[id := x.(parts := x.parts[n := Part(etag(data), |data|)])]
      ensures !(id in old(sessions) && ok) ==> r == Err(ProviderFailed) && files == old(files) && sessions == old(sessions)
    {
      if id !in sessions || !ok {
        return Err(ProviderFailed);
      }
      files := files[(id, n) := data];
      var state := sessions[id];
      sessions := sessions[id := state.(parts := state.parts[n := Part(etag(data), |data|)])];
      return Ok(etag(data));
    }

    /** Concatenates the part files, in the order given, into the object. */
    method CompleteMultipart(bucket: string, key: string, id: Id, parts: seq<PartInfo>, ok: bool) returns (r: Result<Stored>)
      modifies this
      ensures var j := Joined(old(files), id, Numbered(parts));
              if id in old(sessions) && ok && j.Some? then
                && r == Ok(Stored(key, etag(j.value), |j.value|))
                && objects == old(objects)[Path(bucket, key) := j.value]
                && files == (map p | p in old(files) && p.0 != id :: old(files)[p])
                && sessions == old(sessions) - {id}
              else
                r == Err(ProviderFailed) && objects == old(objects) && files == old(files) && sessions == old(sessions)
    {
      if id !in sessions {
        return Err(ProviderFailed);
      }
      var data: Bytes := [];
      for i := 0 to |parts|
        invariant objects == old(objects) && files == old(files) && sessions == old(sessions)
        invariant Joined(files, id, Numbered(parts[..i])) == Some(data)
      {
        assert parts[..i + 1][..i] == parts[..i];
        if (id, parts[i].number) !in files {
          MissingStays(files, id, parts, i + 1);
          return Err(ProviderFailed);
        }
        data := data + files[(id, parts[i].number)];
      }
      assert parts[..|parts|] == parts;
      if !ok {
        return Err(ProviderFailed);
      }
      objects := objects[Path(bucket, key) := data];
      files := map p | p in files && p.0 != id :: files[p];
      sessions := sessions - {id};
      return Ok(Stored(key, etag(data), |data|));
    }

    method AbortMultipart(id: Id)
      modifies this
      ensures objects == old(objects)
      ensures id !in old(sessions) ==> files == old(files) && sessions == old(sessions)
      ensures id in old(sessions) ==>
        files == (map p | p in old(files) && p.0 != id :: old(files)[p]) && sessions == old(sessions) - {id}
    {
      if id !in sessions {
        return;
      }
      files := map p | p in files && p.0 != id :: files[p];
      sessions := sessions - {id};
    }
  }

  /** One missing part file is enough for the whole to be missing. */
  lemma {:induction false} MissingStays(files: map<(Id, int), Bytes>, id: Id, parts: seq<PartInfo>, i: nat)
    requires i <= |parts| && Joined(files, id, Numbered(parts[..i])) == None
    ensures Joined(files, id, Numbered(parts)) == None
  {
    if i < |parts| {
      MissingStays(files, id, parts[..|parts| - 1], i) by {
        assert parts[..|parts| - 1][..i] == parts[..i];
      }
    } else {
      assert parts[..i] == parts;
    }
  }

  /** What get_upload_progress reports: the record, and counts. */
  datatype Progress = Progress(upload: Upload, uploaded: int, bytes: int, percent: real, pending: seq<int>)

  /** The percentage, rounding aside. */
  function Percent(uploaded: int, total: int): real {
    if total > 0 then uploaded as real / total as real * 100.0 else 0.0
  }

  /** The percentage grows with the parts uploaded; all is uploaded exactly at 100, and nothing more can be. */
  lemma PercentFull(uploaded: int, total: int)
    requires total > 0 && 0 <= uploaded <= total
    ensures Percent(uploaded, total) * total as real == 100.0 * uploaded as real
    ensures 0.0 <= Percent(uploaded, total) <= 100.0
    ensures Percent(uploaded, total) == 100.0 <==> uploaded == total
  {
    var x := uploaded as real / total as real;
    assert x * total as real == uploaded as real;
    assert 0.0 <= x <= 1.0;
    assert x == 1.0 <==> uploaded == total;
  }

  /** The bytes recorded for the parts in `q`. */
  ghost function SizesOf(parts: map<(Id, int), Part>, id: Id, q: seq<int>): int {
    if q == [] then 0
    else
      var p := (id, q[|q| - 1]);
      SizesOf(parts, id, q[..|q| - 1]) + if p in parts then parts[p].size else 0
  }

  /** What the outside world does during one attempt. */
  datatype Attempt = Attempt(queryOk: bool, writeOk: bool, recordOk: bool)

  /** The state after `k` attempts at the same part, and the result of the last one. */
  ghost function Attempts(cfg: Config, s: State, id: Id, n: int, data: Bytes, env: int -> Attempt, k: nat): (State, Result<Part>)
  {
    if k == 0 then (s, Err(RetriesFailed(None)))
    else
      var t, e := Attempts(cfg, s, id, n, data, env, k - 1).0, env(k - 1);
      PutStep(cfg, t, id, n, data, e.queryOk, e.writeOk, e.recordOk)
  }

  /** However often it is tried, the effect is that of a single call; and if the last try reports success,
      that of a single successful call. */
  lemma {:induction false} AttemptsAreOne(cfg: Config, s: State, id: Id, n: int, data: Bytes, env: int -> Attempt, k: nat)
    ensures exists e: Attempt :: Attempts(cfg, s, id, n, data, env, k).0 == PutStep(cfg, s, id, n, data, e.queryOk, e.writeOk, e.recordOk).0
    ensures k > 0 && Attempts(cfg, s, id, n, data, env, k).1.Ok? ==>
              Attempts(cfg, s, id, n, data, env, k) == PutStep(cfg, s, id, n, data, true, true, true)
  {
    if k == 0 {
      assert PutStep(cfg, s, id, n, data, false, false, false).0 == s;
      var e := Attempt(false, false, false);
      assert Attempts(cfg, s, id, n, data, env, k).0 == PutStep(cfg, s, id, n, data, e.queryOk, e.writeOk, e.recordOk).0;
    } else {
      AttemptsAreOne(cfg, s, id, n, data, env, k - 1);
      var d: Attempt :| Attempts(cfg, s, id, n, data, env, k - 1).0 == PutStep(cfg, s, id, n, data, d.queryOk, d.writeOk, d.recordOk).0;
      var e := PutTwice(cfg, s, id, n, data, d, env(k - 1));
      assert Attempts(cfg, s, id, n, data, env, k).0 == PutStep(cfg, s, id, n, data, e.queryOk, e.writeOk, e.recordOk).0;
    }
  }

  lemma PutTwice(cfg: Config, s: State, id: Id, n: int, data: Bytes, d: Attempt, e: Attempt) returns (f: Attempt)
    ensures var t := PutStep(cfg, s, id, n, data, d.queryOk, d.writeOk, d.recordOk).0;
            var (u, r) := PutStep(cfg, t, id, n, data, e.queryOk, e.writeOk, e.recordOk);
            && u == PutStep(cfg, s, id, n, data, f.queryOk, f.writeOk, f.recordOk).0
            && (r.Ok? ==> (u, r) == PutStep(cfg, s, id, n, data, true, true, true))
  {
    var t := PutStep(cfg, s, id, n, data, d.queryOk, d.writeOk, d.recordOk).0;
    var (u, r) := PutStep(cfg, t, id, n, data, e.queryOk, e.writeOk, e.recordOk);
    if t == s {
      f := e;
    } else if u == t {
      f := d;
    } else {
      f := Attempt(true, true, d.recordOk || e.recordOk);
      var part := Part(cfg.etag(data), |data|);
      var w := WriteFile(s, id, n, data, part);
      assert w.sessions[id].parts[n := part] == w.sessions[id].parts;
      assert WriteFile(w, id, n, data, part) == w;
      var a := AddPart(w, id, n, part);
      assert WriteFile(a, id, n, data, part) == a && AddPart(a, id, n, part) == a;
    }
  }

  lemma AttemptsFiles(cfg: Config, s: State, id: Id, n: int, data: Bytes, env: int -> Attempt, k: nat)
    ensures var (t, r) := Attempts(cfg, s, id, n, data, env, k);
            && (t.files == s.files || t.files == s.files[(id, n) := data])
            && (k > 0 && r.Ok? ==> t.files == s.files[(id, n) := data])
  {
    hide Attempts;
    AttemptsAreOne(cfg, s, id, n, data, env, k);
  }

  /** What a run over the list `pending` has stored so far: the bytes of every success, and no other part. */
  ghost predicate Sent(before: map<(Id, int), Bytes>, after: map<(Id, int), Bytes>, id: Id, pending: seq<int>,
                       source: int -> Option<Bytes>, results: seq<Result<Part>>)
    requires |results| <= |pending|
  {
    && (forall j :: 0 <= j < |results| && results[j].Ok? ==>
          && source(pending[j]).Some? && (id, pending[j]) in after && after[(id, pending[j])] == source(pending[j]).value)
    && (forall p :: p in before && (p.0 != id || p.1 !in pending) ==> p in after && after[p] == before[p])
  }

  lemma NothingSent(files: map<(Id, int), Bytes>, id: Id, pending: seq<int>, source: int -> Option<Bytes>)
    ensures Sent(files, files, id, pending, source, [])
  {
  }

  lemma SentNext(before: map<(Id, int), Bytes>, after: map<(Id, int), Bytes>, next: map<(Id, int), Bytes>, id: Id,
                 pending: seq<int>, source: int -> Option<Bytes>, results: seq<Result<Part>>, one: Result<Part>)
    requires Ascending(pending) && |results| < |pending| && Sent(before, after, id, pending, source, results)
    requires var n := pending[|results|];
             if source(n).None? then next == after && one.Err?
             else (next == after && one.Err?) || next == after[(id, n) := source(n).value]
    ensures Sent(before, next, id, pending, source, results + [one])
  {
    var n := pending[|results|];
    assert n in pending;
    forall j | 0 <= j < |results| ensures pending[j] != n {
    }
  }

  class ChunkManager {
    const db: DatabaseManager
    const provider: LocalStorage
    const cfg: Config

    constructor (db: DatabaseManager, provider: LocalStorage, cfg: Config)
      ensures this.db == db && this.provider == provider && this.cfg == cfg
    {
      this.db, this.provider, this.cfg := db, provider, cfg;
    }

    /** The configuration is usable, and the provider computes the ETag it names. */
    ghost predicate Valid() {
      ValidConfig(cfg) && provider.etag == cfg.etag
    }

    ghost function Abs(): State
      reads db, provider
    {
      State(db.uploads, db.parts, provider.sessions, provider.files, provider.objects)
    }

    method InitMultipart(p: Params, id: Id, dirOk: bool, insertOk: bool) returns (r: Result<Id>)
      requires Valid()
      modifies db, provider
      ensures (Abs(), r) == InitStep(cfg, old(Abs()), p, id, dirOk, insertOk)
    {
      if p.bucket == "" {
        return Err(BucketRequired);
      }
      if p.key == "" {
        return Err(KeyRequired);
      }
      if p.fileSize <= 0 {
        return Err(SizeNotPositive);
      }
      var chunk := ChunkSize(cfg, p.chunkSize);
      var total := TotalChunks(p.fileSize, chunk);
      if total > cfg.maxParts {
        return Err(FileTooLarge);
      }
      provider.InitMultipart(p.bucket, p.key, id, dirOk);
      if !dirOk {
        return Err(ProviderFailed);
      }
      var done := db.CreateMultipartUpload(id, Upload(p.fileSize, chunk, total, p.bucket, p.key, Uploading), insertOk);
      return if done then Ok(id) else Err(DatabaseFailed);
    }

    method UploadPart(id: Id, n: int, data: Bytes, queryOk: bool, writeOk: bool, recordOk: bool) returns (r: Result<Part>)
      requires Valid()
      modifies db, provider
      ensures (Abs(), r) == PutStep(cfg, old(Abs()), id, n, data, queryOk, writeOk, recordOk)
    {
      var got := db.GetMultipartUpload(id, queryOk);
      if got.Err? {
        return Err(UploadNotFound);
      }
      var upload := got.value;
      if upload.status != Uploading {
        return Err(NotUploading(upload.status));
      }
      if n < 1 || n > upload.totalChunks {
        return Err(InvalidPart);
      }
      var etag := provider.UploadPart(id, n, data, writeOk);
      if etag.Err? {
        return Err(ProviderFailed);
      }
      db.RecordUploadedPart(id, n, Part(etag.value, |data|), recordOk);
      if !recordOk {
        return Err(DatabaseFailed);
      }
      return Ok(Part(etag.value, |data|));
    }

    method CompleteMultipart(id: Id, queryOk: bool, listOk: bool, storeOk: bool, statusOk: bool) returns (r: Result<Stored>)
      requires Valid()
      modifies db, provider
      ensures (Abs(), r) == CompleteStep(cfg, old(Abs()), id, queryOk, listOk, storeOk, statusOk)
    {
      hide Sorted, Joined, Numbered, Ascending;
      var got := db.GetMultipartUpload(id, queryOk);
      if got.Err? {
        return Err(UploadNotFound);
      }
      var upload := got.value;
      if upload.status != Uploading {
        return Err(NotUploading(upload.status));
      }
      if !listOk {
        return Err(DatabaseFailed);
      }
      var rows := db.GetUploadedParts(id);
      NumberedAt(rows);
      if |rows| != upload.totalChunks {
        return Err(Incomplete(|rows|, upload.totalChunks));
      }
      var parts := [];
      for i := 0 to |rows|
        invariant parts == rows[..i]
      {
        parts := parts + [PartInfo(rows[i].number, rows[i].part)];
      }
      SortedStays(rows);
      assert parts == rows;
      parts := SortParts(parts);
      assert Numbered(parts) == Sorted(Numbers(Abs(), id));
      r := provider.CompleteMultipart(upload.bucket, upload.key, id, parts, storeOk);
      if r.Err? {
        return;
      }
      db.UpdateMultipartStatus(id, Completed, statusOk);
      if !statusOk {
        return Err(DatabaseFailed);
      }
    }

    method AbortMultipart(id: Id, queryOk: bool, statusOk: bool, partsOk: bool, uploadOk: bool) returns (r: Result<()>)
      requires Valid()
      modifies db, provider
      ensures (Abs(), r) == AbortStep(old(Abs()), id, queryOk, statusOk, partsOk, uploadOk)
    {
      var got := db.GetMultipartUpload(id, queryOk);
      if got.Err? {
        return Err(UploadNotFound);
      }
      provider.AbortMultipart(id);
      db.UpdateMultipartStatus(id, Aborted, statusOk);
      if !statusOk {
        return Err(DatabaseFailed);
      }
      var done := db.DeleteMultipartUpload(id, partsOk, uploadOk);
      return if done then Ok(()) else Err(DatabaseFailed);
    }

    method GetPartRange(id: Id, n: int, queryOk: bool) returns (r: Result<(int, int)>)
      ensures r == if !queryOk || id !in db.uploads then Err(UploadNotFound)
                   else if n < 1 || n > db.uploads[id].totalChunks then Err(InvalidPart)
                   else Ok(PartRange(db.uploads[id].fileSize, db.uploads[id].chunkSize, n))
    {
      var got := db.GetMultipartUpload(id, queryOk);
      if got.Err? {
        return Err(UploadNotFound);
      }
      var upload := got.value;
      if n < 1 || n > upload.totalChunks {
        return Err(InvalidPart);
      }
      var start := (n - 1) * upload.chunkSize;
      var end := start + upload.chunkSize - 1;
      if end >= upload.fileSize {
        end := upload.fileSize - 1;
      }
      return Ok((start, end));
    }

    method GetUploadProgress(id: Id, queryOk: bool, listOk: bool) returns (r: Result<Progress>)
      ensures queryOk && listOk && id in db.uploads ==>
        && r.Ok? && r.value.bytes == SizesOf(db.parts, id, Sorted(Numbers(Abs(), id)))
        && r.value.uploaded == |Numbers(Abs(), id)| && r.value.upload == db.uploads[id]
        && r.value.percent == Percent(|Numbers(Abs(), id)|, db.uploads[id].totalChunks)
        && r.value.pending == Pending(db.uploads[id].totalChunks, Numbers(Abs(), id))
      ensures !(queryOk && listOk && id in db.uploads) ==> r.Err?
    {
      hide Sorted, Ascending, Numbered;
      var got := db.GetMultipartUpload(id, queryOk);
      if got.Err? {
        return Err(UploadNotFound);
      }
      var upload := got.value;
      if !listOk {
        return Err(DatabaseFailed);
      }
      var rows := db.GetUploadedParts(id);
      NumberedAt(rows);
      var bytes := 0;
      var done: set<int> := {};
      for i := 0 to |rows|
        invariant forall k :: k in done <==> k in Numbered(rows)[..i]
        invariant bytes == SizesOf(db.parts, id, Numbered(rows)[..i])
      {
        assert Numbered(rows)[..i + 1][..i] == Numbered(rows)[..i];
        bytes := bytes + rows[i].part.size;
        done := done + {rows[i].number};
      }
      assert Numbered(rows)[..|rows|] == Sorted(Numbers(Abs(), id));
      assert forall k :: k in done <==> k in Sorted(Numbers(Abs(), id));
      var pending := PendingLoop(upload.totalChunks, done);
      PendingSame(upload.totalChunks, done, Numbers(Abs(), id));
      return Ok(Progress(upload, |rows|, bytes, Percent(|rows|, upload.totalChunks), pending));
    }

    method PendingLoop(total: int, done: set<int>) returns (pending: seq<int>)
      ensures pending == Pending(total, done)
    {
      pending := [];
      if total < 1 {
        return;
      }
      for i := 1 to total + 1
        invariant pending == Pending(i - 1, done)
      {
        if i !in done {
          pending := pending + [i];
        }
      }
    }

    method CanComplete(id: Id, queryOk: bool, listOk: bool) returns (b: bool)
      ensures b <==> queryOk && listOk && id in db.uploads && db.uploads[id].status == Uploading
                     && Pending(db.uploads[id].totalChunks, Numbers(Abs(), id)) == []
    {
      var progress := GetUploadProgress(id, queryOk, listOk);
      if progress.Err? {
        return false;
      }
      return |progress.value.pending| == 0 && progress.value.upload.status == Uploading;
    }

    method RetryUploadPart(id: Id, n: int, data: Bytes, env: int -> Attempt) returns (r: Result<Part>, ghost k: nat)
      requires Valid()
      modifies db, provider
      ensures k <= (if cfg.retryCount < 0 then 0 else cfg.retryCount + 1)
      ensures Abs() == Attempts(cfg, old(Abs()), id, n, data, env, k).0
      ensures r.Ok? ==> k > 0 && r == Attempts(cfg, old(Abs()), id, n, data, env, k).1
      ensures forall i :: 0 < i < k ==>
        var a := Attempts(cfg, old(Abs()), id, n, data, env, i).1; a.Err? && cfg.retryable(a.error)
      ensures r.Err? ==>
        || (k > 0 && r == Attempts(cfg, old(Abs()), id, n, data, env, k).1 && !cfg.retryable(r.error))
        || (k == (if cfg.retryCount < 0 then 0 else cfg.retryCount + 1) && r.error.RetriesFailed?)
    {
      var last: Option<Error> := None;
      k := 0;
      var attempt := 0;
      while attempt < cfg.retryCount + 1
        invariant attempt == k && k <= (if cfg.retryCount < 0 then 0 else cfg.retryCount + 1)
        invariant Abs() == Attempts(cfg, old(Abs()), id, n, data, env, k).0
        invariant forall i :: 0 < i <= k ==>
          var a := Attempts(cfg, old(Abs()), id, n, data, env, i).1; a.Err? && cfg.retryable(a.error)
      {
        var e := env(attempt);
        r := UploadPart(id, n, data, e.queryOk, e.writeOk, e.recordOk);
        k := k + 1;
        assert (Abs(), r) == Attempts(cfg, old(Abs()), id, n, data, env, k);
        if r.Ok? {
          return;
        }
        last := Some(r.error);
        if !cfg.retryable(r.error) {
          return;
        }
        attempt := attempt + 1;
      }
      r := Err(RetriesFailed(last));
    }

    /** Uploads whatever is missing. A part that reports success holds the bytes that were provided for it, no
        part that was not pending is touched, and when every part reports success nothing is pending any more. */
    method UploadPendingParts(id: Id, dataProvider: int -> Option<Bytes>, queryOk: bool, listOk: bool, env: (int, int) -> Attempt)
      returns (r: Result<seq<Result<Part>>>)
      requires Valid()
      modifies db, provider
      ensures r.Err? <==> !(queryOk && listOk && id in old(db.uploads))
      ensures r.Err? ==> Abs() == old(Abs())
      ensures r.Ok? ==> |r.value| == |Pending(old(db.uploads)[id].totalChunks, Numbers(old(Abs()), id))|
      ensures r.Ok? ==> Sent(old(provider.files), provider.files, id,
                             Pending(old(db.uploads)[id].totalChunks, Numbers(old(Abs()), id)), dataProvider, r.value)
      ensures r.Ok? && (forall i :: 0 <= i < |r.value| ==> r.value[i].Ok?) ==>
        Pending(old(db.uploads)[id].totalChunks, Numbers(Abs(), id)) == [] && db.uploads == old(db.uploads)
    {
      hide Sorted, Ascending, Numbers, Pending, Attempts, Sent;
      var progress := GetUploadProgress(id, queryOk, listOk);
      if progress.Err? {
        return Err(progress.error);
      }
      var pending := progress.value.pending;
      var results: seq<Result<Part>> := [];
      NothingSent(provider.files, id, pending, dataProvider);
      for i := 0 to |pending|
        invariant |results| == i && Sent(old(provider.files), provider.files, id, pending, dataProvider, results)
        invariant db.uploads == old(db.uploads)
        invariant forall p :: p in old(db.parts) ==> p in db.parts
        invariant forall j :: 0 <= j < i && results[j].Ok? ==> (id, pending[j]) in db.parts
      {
        var n := pending[i];
        ghost var before := provider.files;
        match dataProvider(n)
        case None =>
          SentNext(old(provider.files), before, before, id, pending, dataProvider, results, Err(NoData));
          results := results + [Err(NoData)];
        case Some(data) =>
          ghost var s := Abs();
          var one;
          ghost var k;
          one, k := RetryUploadPart(id, n, data, a => env(n, a));
          AttemptsAreOne(cfg, s, id, n, data, a => env(n, a), k);
          AttemptsFiles(cfg, s, id, n, data, a => env(n, a), k);
          SentNext(old(provider.files), before, provider.files, id, pending, dataProvider, results, one);
          results := results + [one];
      }
      NothingPending(old(Abs()), Abs(), id, pending, results);
      return Ok(results);
    }
  }

  lemma NothingPending(s: State, t: State, id: Id, pending: seq<int>, results: seq<Result<Part>>)
    requires id in s.uploads && pending == Pending(s.uploads[id].totalChunks, Numbers(s, id)) && |results| == |pending|
    requires forall p :: p in s.parts ==> p in t.parts
    requires forall j :: 0 <= j < |pending| && results[j].Ok? ==> (id, pending[j]) in t.parts
    ensures (forall i :: 0 <= i < |results| ==> results[i].Ok?) ==> Pending(s.uploads[id].totalChunks, Numbers(t, id)) == []
  {
    var total := s.uploads[id].totalChunks;
    if forall i :: 0 <= i < |results| ==> results[i].Ok? {
      forall k | 1 <= k <= total ensures k in Numbers(t, id) {
        if k in Numbers(s, id) {
          assert (id, k) in s.parts;
        } else {
          assert k in pending;
        }
        assert (id, k) in t.parts;
      }
      PendingNone(total, Numbers(t, id));
    }
  }

  lemma {:induction false} PendingNone(total: int, done: set<int>)
    requires forall k :: 1 <= k <= total ==> k in done
    ensures Pending(total, done) == []
  {
    if total > 0 {
      PendingNone(total - 1, done);
    }
  }
}
