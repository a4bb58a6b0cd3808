/** The life of an upload id over whole runs, and what the progress queries say. */
module UploadLife {
  import opened VInt
  import opened UploadArith
  import opened Options
  import opened UploadModel
  import opened UploadProof

  // ----- the life of an id -----

  /** 0 not handed out, 1 uploading, 2 completed, 3 aborted, 4 gone. */
  ghost function Rank(s: State, issued: set<Id>, id: Id): nat {
    if id in s.uploads then
      match s.uploads[id].status
      case Uploading => 1
      case Completed => 2
      case Aborted => 3
    else if id in issued then 4 else 0
  }

  lemma RankStep(cfg: Config, s: State, issued: set<Id>, c: Call, id: Id)
    requires ValidConfig(cfg) && s.uploads.Keys <= issued && IssuedBy(c) !! issued
    ensures Rank(s, issued, id) <= Rank(Next(cfg, s, c), issued + IssuedBy(c), id)
  {
    hide Sorted, Numbers, Joined, TotalChunks, ChunkSize;
    assert c.Init? && id in issued ==> id != c.newId && c.newId in IssuedBy(c);
    assert id in s.uploads ==> id in issued;
  }

  lemma SessionStep(cfg: Config, s: State, issued: set<Id>, c: Call, id: Id)
    requires ValidConfig(cfg) && IssuedBy(c) !! issued && id in issued && id !in s.sessions
    ensures id !in Next(cfg, s, c).sessions
  {
    hide Sorted, Numbers, Joined, TotalChunks, ChunkSize;
    assert c.Init? ==> id != c.newId && c.newId in IssuedBy(c);
  }

  lemma {:induction false} IssuedGrows(calls: seq<Call>, i: nat)
    requires i <= |calls| && Fresh(calls)
    ensures Fresh(calls[..i]) && Issued(calls[..i]) <= Issued(calls)
  {
    if i < |calls| {
      IssuedGrows(calls[..|calls| - 1], i);
      assert calls[..|calls| - 1][..i] == calls[..i];
    } else {
      assert calls[..i] == calls;
    }
  }

  /** The status of an id only moves forward: it never returns to uploading. */
  lemma {:induction false} Forward(cfg: Config, calls: seq<Call>, i: nat, id: Id)
    requires ValidConfig(cfg) && Fresh(calls) && i <= |calls|
    ensures Rank(Run(cfg, calls[..i]), Issued(calls[..i]), id) <= Rank(Run(cfg, calls), Issued(calls), id)
    ensures id in Issued(calls[..i]) && id !in Run(cfg, calls[..i]).sessions ==> id !in Run(cfg, calls).sessions
  {
    if i < |calls| {
      var before := calls[..|calls| - 1];
      Forward(cfg, before, i, id);
      RunInv(cfg, before);
      IssuedGrows(before, i);
      assert before[..i] == calls[..i];
      RankStep(cfg, Run(cfg, before), Issued(before), calls[|calls| - 1], id);
      if id in Issued(before) && id !in Run(cfg, before).sessions {
        SessionStep(cfg, Run(cfg, before), Issued(before), calls[|calls| - 1], id);
      }
    } else {
      assert calls[..i] == calls;
    }
  }

  ghost predicate Concerns(c: Call, id: Id) {
    match c
    case Init(_, newId, _, _) => newId == id
    case Put(i, _, _, _, _, _) => i == id
    case Complete(i, _, _, _, _) => i == id
    case Abort(i, _, _, _, _) => i == id
  }

  /** Without a session, a call with that id stores nothing. */
  lemma NoSessionNoStore(cfg: Config, s: State, c: Call, id: Id)
    requires ValidConfig(cfg) && Concerns(c, id) && id !in s.sessions
    ensures Next(cfg, s, c).objects == s.objects
  {
    hide Sorted, Numbers, Joined, TotalChunks, ChunkSize;
  }

  /** A session that is gone does not come back, and without it nothing is stored. */
  lemma NoSessionIsFinal(cfg: Config, calls: seq<Call>, i: nat, j: nat, id: Id)
    requires ValidConfig(cfg) && Fresh(calls) && i <= j < |calls|
    requires id in Issued(calls[..i]) && id !in Run(cfg, calls[..i]).sessions
    ensures Concerns(calls[j], id) ==> Run(cfg, calls[..j + 1]).objects == Run(cfg, calls[..j]).objects
  {
    hide *;
    var q := calls[..j];
    assert q[..i] == calls[..i];
    IssuedGrows(calls, j);
    Forward(cfg, q, i, id);
    if Concerns(calls[j], id) {
      assert q + [calls[j]] == calls[..j + 1];
      RunOne(cfg, q, calls[j]);
      NoSessionNoStore(cfg, Run(cfg, q), calls[j], id);
    }
  }

  /** Only a completion changes a stored object, and it takes the session with it. */
  lemma StoreEndsSession(cfg: Config, s: State, c: Call)
    requires ValidConfig(cfg) && Next(cfg, s, c).objects != s.objects
    ensures c.Complete? && c.id in s.sessions && c.id !in Next(cfg, s, c).sessions
  {
    hide Sorted, Numbers, Joined, TotalChunks, ChunkSize;
  }

  /** Once a call has changed a stored object, at `i`, and whatever it reported, no later call with that id
      changes any stored object: an object is stored by one completion. */
  lemma StoredIsFinal(cfg: Config, calls: seq<Call>, i: nat, j: nat)
    requires ValidConfig(cfg) && Fresh(calls) && i < j < |calls|
    requires Run(cfg, calls[..i + 1]).objects != Run(cfg, calls[..i]).objects
    ensures calls[i].Complete?
    ensures Concerns(calls[j], calls[i].id) ==> Run(cfg, calls[..j + 1]).objects == Run(cfg, calls[..j]).objects
  {
    hide *;
    var (c, before, t) := (calls[i], calls[..i], calls[..i + 1]);
    assert before + [c] == t;
    IssuedGrows(calls, i);
    IssuedGrows(calls, i + 1);
    assert t[..i] == before;
    IssuedGrows(t, i);
    RunOne(cfg, before, c);
    StoreEndsSession(cfg, Run(cfg, before), c);
    SessionIssued(cfg, before, c.id);
    NoSessionIsFinal(cfg, calls, i + 1, j, c.id);
  }

  lemma SessionIssued(cfg: Config, calls: seq<Call>, id: Id)
    requires ValidConfig(cfg) && Fresh(calls) && id in Run(cfg, calls).sessions
    ensures id in Issued(calls)
  {
    RunInv(cfg, calls);
  }

  /** Once complete_multipart has succeeded, at call `i`, no later call with that id changes any stored
      object; and the upload is not taken for one in progress again. */
  lemma CompletedIsFinal(cfg: Config, calls: seq<Call>, i: nat, j: nat)
    requires ValidConfig(cfg) && Fresh(calls) && i < j < |calls|
    requires var c := calls[i];
             c.Complete? && c.queryOk && CompleteStep(cfg, Run(cfg, calls[..i]), c.id, true, c.listOk, c.storeOk, c.statusOk).1.Ok?
    ensures Concerns(calls[j], calls[i].id) ==> Run(cfg, calls[..j + 1]).objects == Run(cfg, calls[..j]).objects
    ensures Rank(Run(cfg, calls[..j]), Issued(calls[..j]), calls[i].id) >= 2
  {
    hide *;
    var c, q := calls[i], calls[..j];
    assert calls[..i + 1][..|calls[..i + 1]| - 1] == calls[..i] && q[..i + 1] == calls[..i + 1];
    IssuedGrows(calls, i);
    IssuedGrows(calls, j);
    JustCompleted(cfg, calls[..i + 1], calls[..i]);
    Forward(cfg, q, i + 1, c.id);
    NoSessionIsFinal(cfg, calls, i + 1, j, c.id);
  }

  /** The state right after the completion. */
  lemma JustCompleted(cfg: Config, calls: seq<Call>, before: seq<Call>)
    requires ValidConfig(cfg) && Fresh(before) && calls != [] && before == calls[..|calls| - 1]
    requires var c := calls[|calls| - 1];
             c.Complete? && c.queryOk && CompleteStep(cfg, Run(cfg, before), c.id, true, c.listOk, c.storeOk, c.statusOk).1.Ok?
    ensures var id := calls[|calls| - 1].id;
            id in Issued(calls) && id !in Run(cfg, calls).sessions && Rank(Run(cfg, calls), Issued(calls), id) == 2
  {
    var c := calls[|calls| - 1];
    hide Numbers, Sorted, Joined, CompleteStep;
    CompletedIs(cfg, Run(cfg, before), c.id, c.listOk, c.storeOk, c.statusOk);
    RunInv(cfg, before);
    assert c.id in Run(cfg, before).uploads.Keys;
  }

  // ----- progress queries -----

  lemma RemoveOne<T>(s: set<T>, x: T)
    ensures |s - {x}| == |s| - if x in s then 1 else 0
  {
    if x !in s {
      assert s - {x} == s;
    }
  }

  lemma {:induction false} PendingCount(total: nat, done: set<int>)
    requires forall k :: k in done ==> 1 <= k <= total
    ensures |done| + |Pending(total, done)| == total
  {
    if total == 0 {
      if done != {} {
        var k := Any(done);
      }
    } else {
      var less := done - {total};
      RemoveOne(done, total);
      PendingCount(total - 1, less);
      PendingSame(total - 1, done, less);
    }
  }

  /** In every reachable state: recorded part numbers lie in 1..total_chunks; recorded and pending parts
      add up; and the count guard of complete_multipart agrees with the pending list that can_complete
      looks at, if and only if total_chunks has not wrapped round to a negative number. */
  lemma ProgressExact(cfg: Config, calls: seq<Call>, id: Id)
    requires ValidConfig(cfg) && Fresh(calls) && id in Run(cfg, calls).uploads
    ensures var s := Run(cfg, calls);
            var total, done := s.uploads[id].totalChunks, Numbers(s, id);
            && (forall k :: k in done ==> 1 <= k <= total)
            && (total >= 0 ==> |done| + |Pending(total, done)| == total)
            && ((|done| == total <==> Pending(total, done) == []) <==> total >= 0)
  {
    RunInv(cfg, calls);
    var s := Run(cfg, calls);
    var total, done := s.uploads[id].totalChunks, Numbers(s, id);
    forall k | k in done ensures 1 <= k <= total {
      assert PartOk(s, (id, k));
    }
    if total >= 0 {
      PendingCount(total, done);
    }
  }

  /** Such a total needs more than 2^31 - 1 chunks. */
  lemma NegativeTotalIsOversized(cfg: Config, calls: seq<Call>, id: Id)
    requires ValidConfig(cfg) && Fresh(calls) && id in Run(cfg, calls).uploads
    requires Run(cfg, calls).uploads[id].totalChunks < 1
    ensures var u := Run(cfg, calls).uploads[id]; 0 < u.fileSize && 0 < u.chunkSize && Ceiling(u.fileSize, u.chunkSize) > MAX_INT
  {
    RunInv(cfg, calls);
    var u := Run(cfg, calls).uploads[id];
    assert UploadOk(cfg, u);
    CeilingIs(u.fileSize, u.chunkSize);
    TotalChunksExact(u.fileSize, u.chunkSize);
  }

  // ----- two things that go wrong -----

  /** A file of 2^32 chunks is accepted with no parts; it can be completed at once, and stores nothing. */
  lemma OversizedStoresNothing(cfg: Config, bucket: string, key: string, id: Id)
    requires ValidConfig(cfg) && bucket != "" && key != ""
    ensures var size := 0x1_0000_0000 * cfg.defaultChunk;
            var s := Run(cfg, [Init(Params(bucket, key, size, 0), id, true, true)]);
            var (t, r) := CompleteStep(cfg, s, id, true, true, true, true);
            r.Ok? && t.objects == map[Path(bucket, key) := []]
  {
    var size := 0x1_0000_0000 * cfg.defaultChunk;
    var c := Init(Params(bucket, key, size, 0), id, true, true);
    TotalChunksWraps(cfg.defaultChunk);
    RunOne(cfg, [], c);
    assert Numbers(Run(cfg, [c]), id) == {};
  }

  lemma RunOne(cfg: Config, calls: seq<Call>, c: Call)
    requires ValidConfig(cfg)
    ensures Run(cfg, calls + [c]) == Next(cfg, Run(cfg, calls), c)
  {
    assert (calls + [c])[..|calls|] == calls;
  }

  /** It is not enough that the calls reported as successful carry the right bytes: a call that fails to
      record its part has replaced the part file all the same. */
  lemma ReportedSuccessIsNotEnough(cfg: Config, bucket: string, key: string, id: Id)
    requires ValidConfig(cfg) && bucket != "" && key != "" && cfg.maxParts >= 1
    ensures var calls := [Init(Params(bucket, key, 1, 0), id, true, true),
                          Put(id, 1, [1], true, true, true), Put(id, 1, [2], true, true, false)];
            var s := Run(cfg, calls[..2]);
            && PutStep(cfg, s, id, 1, [2], true, true, false).1.Err?
            && CompleteStep(cfg, s, id, true, true, true, true).0.objects == map[Path(bucket, key) := [1]]
            && CompleteStep(cfg, Run(cfg, calls), id, true, true, true, true).0.objects == map[Path(bucket, key) := [2]]
  {
    var a, b, c := Init(Params(bucket, key, 1, 0), id, true, true), Put(id, 1, [1], true, true, true), Put(id, 1, [2], true, true, false);
    OneChunk(cfg.defaultChunk);
    RunOne(cfg, [], a);
    RunOne(cfg, [a], b);
    RunOne(cfg, [a, b], c);
    assert [a, b, c][..2] == [a, b];
    assert [a] + [b] == [a, b] && [a, b] + [c] == [a, b, c];
    var s, t := Run(cfg, [a, b]), Run(cfg, [a, b, c]);
    assert s.parts == map[(id, 1) := Part(cfg.etag([1]), 1)] && t.parts == s.parts;
    NumbersOne(s, id);
    NumbersOne(t, id);
    SortedOne();
    JoinedOne(s.files, id);
    JoinedOne(t.files, id);
  }

  lemma NumbersOne(s: State, id: Id)
    requires s.parts.Keys == {(id, 1)}
    ensures Numbers(s, id) == {1}
  {
    assert (id, 1) in s.parts;
  }

  lemma OneChunk(chunkSize: int)
    requires chunkSize > 0
    ensures TotalChunks(1, chunkSize) == 1
  {
    QuotientIs(chunkSize, chunkSize, 1, 0);
    CeilingIs(1, chunkSize);
    TotalChunksExact(1, chunkSize);
  }

  lemma SortedOne()
    ensures Sorted({1}) == [1]
  {
    assert 1 in Sorted({1});
  }

  lemma JoinedOne(files: map<(Id, int), Bytes>, id: Id)
    requires (id, 1) in files
    ensures Joined(files, id, [1]) == Some(files[(id, 1)])
  {
    var q := [1];
    assert q[..|q| - 1] == [];
    assert [] + files[(id, 1)] == files[(id, 1)];
  }
}
