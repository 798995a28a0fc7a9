/**
 Resumable uploads: upload sessions over temporary files, stored files with their records,
 the md5 index behind instant upload, and range reads.
 */
module FileModel {

  type Bytes = seq<bv8>

  /** Where temporary and stored files go, which identifiers are generated, and the limits. */
  datatype Config = Config(temp: string -> string, final: string -> string, proper: string -> bool, maxFileSize: int,
      sessionSeconds: int)

  datatype FileMeta = FileMeta(fileId: string, fileName: string, contentType: string, fileSize: int, md5: string,
                               uploaderId: string, storagePath: string, uploadedAt: int)

  datatype Session = Session(uploadId: string, userId: string, fileName: string, contentType: string, fileSize: int,
                             md5: string, tempPath: string, bytesWritten: int, expireAt: int)

  /** `disk` is the file system below the storage directory; `issued` remembers every
      identifier generated so far. */
  datatype State = State(files: map<string, FileMeta>, md5Index: map<string, string>, sessions: map<string, Session>,
                         disk: map<string, Bytes>, issued: set<string>)

  datatype Op =
    | InitUpload(user: string, name: string, contentType: string, size: int, md5: string, now: int, newId: string)
    | AppendChunk(uploadId: string, data: Bytes)
    | CompleteUpload(uploadId: string, now: int, newId: string)
    | Upload(user: string, name: string, contentType: string, data: Bytes, now: int, newId: string)
    | DeleteFile(fileId: string, user: string)
    | CleanupExpiredSessions(now: int)

  datatype Outcome =
    | Started(uploadId: string) | Existing(fileId: string) | Offset(newOffset: int) | Stored(fileId: string) | Finished
    | FileTooLarge | FileExpired | InvalidParam | UploadIncomplete | UploadFailed | Refused

  // ---------- identifiers and paths ----------

  predicate HexDigit(x: char) { '0' <= x <= '9' || 'a' <= x <= 'f' }

  /** Sixteen bytes in hexadecimal. */
  predicate GeneratedId(id: string) {
    |id| == 32 && forall i :: 0 <= i < |id| ==> HexDigit(id[i])
  }

  function TempPath(storage: string, uploadId: string): string { storage + "/.tmp/" + uploadId }

  function FinalPath(storage: string, fileId: string): string {
    if |fileId| < 2 then storage + "/" + fileId else storage + "/" + fileId[..2] + "/" + fileId
  }

  function Configured(storage: string, maxFileSize: int, sessionSeconds: int): Config {
    Config(u => TempPath(storage, u), f => FinalPath(storage, f), id => GeneratedId(id), maxFileSize, sessionSeconds)
  }

  lemma TempPathUnique(storage: string, a: string, b: string)
    requires TempPath(storage, a) == TempPath(storage, b)
    ensures a == b
  {
    var n := |storage| + 6;
    assert TempPath(storage, a)[n..] == a && TempPath(storage, b)[n..] == b;
  }

  lemma FinalPathUnique(storage: string, a: string, b: string)
    requires GeneratedId(a) && GeneratedId(b) && FinalPath(storage, a) == FinalPath(storage, b)
    ensures a == b
  {
    var n := |storage| + 4;
    assert FinalPath(storage, a)[n..] == a && FinalPath(storage, b)[n..] == b;
  }

  lemma TempNotFinal(storage: string, a: string, b: string)
    requires GeneratedId(b)
    ensures TempPath(storage, a) != FinalPath(storage, b)
  {
    var n := |storage| + 1;
    assert TempPath(storage, a)[n] == '.' && FinalPath(storage, b)[n] == b[0] && HexDigit(b[0]);
  }

  ghost predicate PathsApart(c: Config) {
    && (forall a, b :: c.temp(a) == c.temp(b) ==> a == b)
    && (forall a, b :: c.proper(a) && c.proper(b) && c.final(a) == c.final(b) ==> a == b)
    && (forall a, b :: c.proper(b) ==> c.temp(a) != c.final(b))
    && !c.proper("")
  }

  /** No two uploads or files ever share a path. */
  lemma PathsNeverClash(storage: string, maxFileSize: int, sessionSeconds: int)
    ensures PathsApart(Configured(storage, maxFileSize, sessionSeconds))
  {
    var c := Configured(storage, maxFileSize, sessionSeconds);
    forall a, b | c.temp(a) == c.temp(b) ensures a == b { TempPathUnique(storage, a, b); }
    forall a, b | GeneratedId(a) && GeneratedId(b) && c.final(a) == c.final(b) ensures a == b
    {
      FinalPathUnique(storage, a, b);
    }
    forall a, b | GeneratedId(b) ensures c.temp(a) != c.final(b) { TempNotFinal(storage, a, b); }
  }

  // ---------- operations ----------

  function Held(disk: map<string, Bytes>, path: string): Bytes {
    if path in disk then disk[path] else []
  }

  function SaveMeta(s: State, m: FileMeta): State {
    s.(files := s.files[m.fileId := m], md5Index := if m.md5 == "" then s.md5Index else s.md5Index[m.md5 := m.fileId])
  }

  /** The record goes with whatever its md5 points to, even another file's entry. */
  function DeleteMeta(s: State, id: string): State
    requires id in s.files
  {
    s.(files := s.files - {id},
       md5Index := if s.files[id].md5 == "" then s.md5Index else s.md5Index - {s.files[id].md5})
  }

  predicate KnownMd5(s: State, md5: string) {
    md5 != "" && md5 in s.md5Index && s.md5Index[md5] != "" && s.md5Index[md5] in s.files
  }

  ghost function Opened(c: Config, s: State, op: Op): State
    requires op.InitUpload?
  {
    s.(sessions := s.sessions[op.newId :=
         Session(op.newId, op.user, op.name, op.contentType, op.size, op.md5, c.temp(op.newId), 0,
             op.now + c.sessionSeconds)],
       issued := s.issued + {op.newId})
  }

  ghost function Appended(s: State, op: Op): State
    requires op.AppendChunk? && op.uploadId in s.sessions
  {
    var e := s.sessions[op.uploadId];
    s.(disk := s.disk[e.tempPath := Held(s.disk, e.tempPath) + op.data],
       sessions := s.sessions[op.uploadId := e.(bytesWritten := e.bytesWritten + |op.data|)])
  }

  /** The temporary file is renamed, the record saved and the session dropped. */
  ghost function Completed(c: Config, s: State, op: Op): State
    requires op.CompleteUpload? && op.uploadId in s.sessions
  {
    var e, path := s.sessions[op.uploadId], c.final(op.newId);
    var m := FileMeta(op.newId, e.fileName, e.contentType, e.fileSize, e.md5, e.userId, path, op.now);
    var s1 := SaveMeta(s.(disk := (s.disk - {e.tempPath})[path := Held(s.disk, e.tempPath)]), m);
    s1.(sessions := s.sessions - {op.uploadId}, issued := s.issued + {op.newId})
  }

  ghost function Uploaded(c: Config, s: State, op: Op): State
    requires op.Upload?
  {
    var path := c.final(op.newId);
    var m := FileMeta(op.newId, op.name, op.contentType, |op.data|, "", op.user, path, op.now);
    SaveMeta(s.(disk := s.disk[path := op.data], issued := s.issued + {op.newId}), m)
  }

  ghost function Deleted(s: State, id: string): State
    requires id in s.files
  {
    DeleteMeta(s.(disk := s.disk - {s.files[id].storagePath}), id)
  }

  predicate Expired(e: Session, now: int) { e.expireAt <= now }

  function ExpiredPaths(sessions: map<string, Session>, now: int): set<string> {
    set u | u in sessions && Expired(sessions[u], now) :: sessions[u].tempPath
  }

  function LiveSessions(sessions: map<string, Session>, now: int): map<string, Session> {
    map u | u in sessions && !Expired(sessions[u], now) :: sessions[u]
  }

  ghost function Cleaned(s: State, now: int): State {
    s.(disk := s.disk - ExpiredPaths(s.sessions, now), sessions := LiveSessions(s.sessions, now))
  }

  ghost function Apply(c: Config, s: State, op: Op): (State, Outcome) {
    match op
    case InitUpload(_, _, _, size, md5, _, newId) =>
      if size <= 0 || size > c.maxFileSize then (s, FileTooLarge)
      else if KnownMd5(s, md5) then (s, Existing(s.files[s.md5Index[md5]].fileId))
      else (Opened(c, s, op), Started(newId))
    case AppendChunk(u, data) =>
      if u !in s.sessions then (s, FileExpired)
      else if s.sessions[u].bytesWritten + |data| > s.sessions[u].fileSize then (s, InvalidParam)
      else (Appended(s, op), Offset(s.sessions[u].bytesWritten + |data|))
    case CompleteUpload(u, _, newId) =>
      if u !in s.sessions then (s, FileExpired)
      else if s.sessions[u].bytesWritten != s.sessions[u].fileSize then (s, UploadIncomplete)
      else (Completed(c, s, op), Stored(newId))
    case Upload(_, _, _, data, _, newId) =>
      if |data| > c.maxFileSize then (s, FileTooLarge) else (Uploaded(c, s, op), Stored(newId))
    case DeleteFile(id, user) =>
      if id !in s.files || s.files[id].uploaderId != user then (s, Refused) else (Deleted(s, id), Finished)
    case CleanupExpiredSessions(now) => (Cleaned(s, now), Finished)
  }

  predicate Generates(op: Op) { op.InitUpload? || op.CompleteUpload? || op.Upload? }

  /** Identifiers handed out are new. */
  ghost predicate Fresh(c: Config, s: State, op: Op) {
    Generates(op) ==> c.proper(op.newId) && op.newId !in s.issued
  }

  // ---------- what every operation keeps ----------

  ghost predicate SessionOk(c: Config, s: State, u: string)
    requires u in s.sessions
  {
    var e := s.sessions[u];
    && u in s.issued && c.proper(u) && e.uploadId == u && e.tempPath == c.temp(u)
    && 0 < e.fileSize && e.bytesWritten == |Held(s.disk, e.tempPath)| <= e.fileSize
  }

  ghost predicate FileOk(c: Config, s: State, f: string)
    requires f in s.files
  {
    var m := s.files[f];
    && f in s.issued && c.proper(f) && m.fileId == f && m.storagePath == c.final(f)
    && m.storagePath in s.disk && |s.disk[m.storagePath]| == m.fileSize
  }

  ghost predicate SessionsOk(c: Config, s: State) { forall u :: u in s.sessions ==> SessionOk(c, s, u) }

  ghost predicate FilesOk(c: Config, s: State) { forall f :: f in s.files ==> FileOk(c, s, f) }

  /** Every md5 entry names a live record that carries the same md5. */
  ghost predicate Md5Ok(s: State) {
    forall h :: h in s.md5Index ==> h != "" && s.md5Index[h] in s.files && s.files[s.md5Index[h]].md5 == h
  }

  ghost predicate Owned(c: Config, s: State, p: string) {
    (exists u :: u in s.sessions && p == c.temp(u)) || (exists f :: f in s.files && p == c.final(f))
  }

  /** Nothing is left behind on disk. */
  ghost predicate NoOrphans(c: Config, s: State) { forall p :: p in s.disk ==> Owned(c, s, p) }

  ghost predicate Inv(c: Config, s: State) {
    PathsApart(c) && SessionsOk(c, s) && FilesOk(c, s) && Md5Ok(s) && NoOrphans(c, s)
  }

  /** What one operation may do to the uploads in progress. */
  ghost predicate PreservesSessions(c: Config, s: State, s': State, op: Op) {
    && (forall u :: u in s'.sessions && u !in s.sessions ==> u !in s.issued)
    && (forall u :: u in s.sessions && u in s'.sessions ==>
          s'.sessions[u] == s.sessions[u].(bytesWritten := s'.sessions[u].bytesWritten)
          && Held(s'.disk, c.temp(u)) == Held(s.disk, c.temp(u)) + AcceptedBy(s, op, u))
  }

  /** What one operation may do to the stored files. */
  ghost predicate PreservesFiles(c: Config, s: State, s': State) {
    && (forall f :: f in s'.files && f !in s.files ==> f !in s.issued)
    && (forall f :: f in s.files && f in s'.files ==>
          s'.files[f] == s.files[f] && Held(s'.disk, c.final(f)) == Held(s.disk, c.final(f)))
  }

  ghost predicate Preserves(c: Config, s: State, s': State, op: Op) {
    s.issued <= s'.issued && PreservesSessions(c, s, s', op) && PreservesFiles(c, s, s')
  }

  /** The bytes this operation adds to the upload. */
  ghost function AcceptedBy(s: State, op: Op, u: string): Bytes {
    if op.AppendChunk? && op.uploadId == u && u in s.sessions
        && s.sessions[u].bytesWritten + |op.data| <= s.sessions[u].fileSize
    then op.data else []
  }

  lemma SessionsUntouched(c: Config, s: State, s': State, op: Op)
    requires SessionsOk(c, s) && s.issued <= s'.issued && !op.AppendChunk?
    requires forall u :: u in s'.sessions ==> u in s.sessions && s'.sessions[u] == s.sessions[u]
    requires forall u :: u in s'.sessions ==> Held(s'.disk, c.temp(u)) == Held(s.disk, c.temp(u))
    ensures SessionsOk(c, s') && PreservesSessions(c, s, s', op)
  {
    forall u | u in s'.sessions ensures SessionOk(c, s', u) { assert SessionOk(c, s, u); }
  }

  ghost predicate SameAt(d: map<string, Bytes>, d': map<string, Bytes>, p: string) {
    (p in d <==> p in d') && Held(d, p) == Held(d', p)
  }

  lemma FilesUntouched(c: Config, s: State, s': State)
    requires FilesOk(c, s) && s.issued <= s'.issued
    requires forall f :: f in s'.files ==>
        f in s.files && s'.files[f] == s.files[f] && SameAt(s.disk, s'.disk, c.final(f))
    ensures FilesOk(c, s') && PreservesFiles(c, s, s')
  {
    forall f | f in s'.files ensures FileOk(c, s', f) {
      assert FileOk(c, s, f) && SameAt(s.disk, s'.disk, c.final(f));
    }
  }

  lemma OwnedKept(c: Config, s: State, s': State, p: string)
    requires Owned(c, s, p)
    requires forall u :: u in s.sessions && p == c.temp(u) ==> u in s'.sessions
    requires forall f :: f in s.files && p == c.final(f) ==> f in s'.files
    ensures Owned(c, s', p)
  {
    if u :| u in s.sessions && p == c.temp(u) {
      assert u in s'.sessions;
    } else {
      var f :| f in s.files && p == c.final(f);
      assert f in s'.files;
    }
  }

  lemma NoOrphansMore(c: Config, s: State, s': State)
    requires NoOrphans(c, s)
    requires s.sessions.Keys <= s'.sessions.Keys && s.files.Keys <= s'.files.Keys
    requires forall p :: p in s'.disk ==> p in s.disk || Owned(c, s', p)
    ensures NoOrphans(c, s')
  {
    forall p | p in s'.disk ensures Owned(c, s', p) { if p in s.disk { OwnedKept(c, s, s', p); } }
  }

  lemma UnusedId(c: Config, s: State, id: string)
    requires SessionsOk(c, s) && FilesOk(c, s) && id !in s.issued
    ensures id !in s.sessions && id !in s.files
  {
    assert forall u :: u in s.sessions ==> SessionOk(c, s, u);
    assert forall f :: f in s.files ==> FileOk(c, s, f);
  }

  lemma UnusedPath(c: Config, s: State, id: string)
    requires Inv(c, s) && c.proper(id) && id !in s.issued
    ensures c.temp(id) !in s.disk
  {
    UnusedId(c, s, id);
    assert !Owned(c, s, c.temp(id)) by { assert forall f :: f in s.files ==> FileOk(c, s, f); }
  }

  lemma OpenPreserves(c: Config, s: State, op: Op)
    requires Inv(c, s) && Fresh(c, s, op) && op.InitUpload? && op.size > 0
    ensures PreservesSessions(c, s, Opened(c, s, op), op)
  {
    UnusedId(c, s, op.newId);
  }

  lemma OpenSessions(c: Config, s: State, op: Op)
    requires Inv(c, s) && Fresh(c, s, op) && op.InitUpload? && op.size > 0
    ensures SessionsOk(c, Opened(c, s, op))
  {
    var s' := Opened(c, s, op);
    UnusedPath(c, s, op.newId);
    UnusedId(c, s, op.newId);
    forall u | u in s'.sessions ensures SessionOk(c, s', u) { if u != op.newId { assert SessionOk(c, s, u); } }
  }

  lemma OpenKeeps(c: Config, s: State, op: Op)
    requires Inv(c, s) && Fresh(c, s, op) && op.InitUpload? && op.size > 0
    ensures Inv(c, Opened(c, s, op)) && Preserves(c, s, Opened(c, s, op), op)
  {
    OpenSessions(c, s, op);
    OpenPreserves(c, s, op);
    FilesUntouched(c, s, Opened(c, s, op));
    NoOrphansMore(c, s, Opened(c, s, op));
  }

  lemma AppendSessions(c: Config, s: State, op: Op)
    requires PathsApart(c) && SessionsOk(c, s) && op.AppendChunk? && op.uploadId in s.sessions
    requires s.sessions[op.uploadId].bytesWritten + |op.data| <= s.sessions[op.uploadId].fileSize
    ensures SessionsOk(c, Appended(s, op)) && PreservesSessions(c, s, Appended(s, op), op)
  {
    var s', path := Appended(s, op), c.temp(op.uploadId);
    assert SessionOk(c, s, op.uploadId);
    assert Held(s'.disk, path) == Held(s.disk, path) + op.data;
    forall u | u in s.sessions ensures SessionOk(c, s', u)
        && Held(s'.disk, c.temp(u)) == Held(s.disk, c.temp(u)) + AcceptedBy(s, op, u) {
      assert SessionOk(c, s, u);
      if u != op.uploadId {
        assert c.temp(u) != path;
        assert AcceptedBy(s, op, u) == [] && Held(s'.disk, c.temp(u)) == Held(s.disk, c.temp(u));
      }
    }
  }

  lemma AppendKeeps(c: Config, s: State, op: Op)
    requires Inv(c, s) && op.AppendChunk? && op.uploadId in s.sessions
    requires s.sessions[op.uploadId].bytesWritten + |op.data| <= s.sessions[op.uploadId].fileSize
    ensures Inv(c, Appended(s, op)) && Preserves(c, s, Appended(s, op), op)
  {
    var s', path := Appended(s, op), c.temp(op.uploadId);
    assert SessionOk(c, s, op.uploadId);
    AppendSessions(c, s, op);
    forall f | f in s.files ensures SameAt(s.disk, s'.disk, c.final(f))
    {
      assert FileOk(c, s, f) && c.final(f) != path;
    }
    FilesUntouched(c, s, s');
    assert Owned(c, s', path);
    NoOrphansMore(c, s, s');
  }

  /** Saving the record of a new file whose bytes are in place. */
  lemma SavedFiles(c: Config, s: State, s': State, m: FileMeta)
    requires FilesOk(c, s) && m.fileId !in s.issued && m.fileId !in s.files && s.issued <= s'.issued
    requires s'.files == s.files[m.fileId := m] && FileOk(c, s', m.fileId)
    requires forall f :: f in s.files ==> SameAt(s.disk, s'.disk, c.final(f))
    ensures FilesOk(c, s') && PreservesFiles(c, s, s')
  {
    forall f | f in s'.files ensures FileOk(c, s', f) {
      if f != m.fileId { assert FileOk(c, s, f) && SameAt(s.disk, s'.disk, c.final(f)); }
    }
  }

  lemma SavedMd5(s: State, m: FileMeta)
    requires Md5Ok(s) && m.fileId !in s.files
    ensures Md5Ok(SaveMeta(s, m))
  {
  }

  lemma CompleteFiles(c: Config, s: State, op: Op)
    requires Inv(c, s) && Fresh(c, s, op) && op.CompleteUpload? && op.uploadId in s.sessions
    requires s.sessions[op.uploadId].bytesWritten == s.sessions[op.uploadId].fileSize
    ensures FilesOk(c, Completed(c, s, op)) && PreservesFiles(c, s, Completed(c, s, op))
  {
    var s' := Completed(c, s, op);
    assert SessionOk(c, s, op.uploadId);
    forall f | f in s.files ensures SameAt(s.disk, s'.disk, c.final(f)) {
      assert FileOk(c, s, f) && c.final(f) != c.final(op.newId) && c.final(f) != c.temp(op.uploadId);
    }
    UnusedId(c, s, op.newId);
    SavedFiles(c, s, s', s'.files[op.newId]);
  }

  lemma CompleteOrphans(c: Config, s: State, op: Op)
    requires Inv(c, s) && Fresh(c, s, op) && op.CompleteUpload? && op.uploadId in s.sessions
    ensures NoOrphans(c, Completed(c, s, op))
  {
    var s' := Completed(c, s, op);
    assert SessionOk(c, s, op.uploadId);
    forall p | p in s'.disk ensures Owned(c, s', p) {
      if p == c.final(op.newId) { assert op.newId in s'.files; } else { OwnedKept(c, s, s', p); }
    }
  }

  lemma CompleteSessions(c: Config, s: State, op: Op)
    requires PathsApart(c) && SessionsOk(c, s) && Fresh(c, s, op) && op.CompleteUpload? && op.uploadId in s.sessions
    ensures SessionsOk(c, Completed(c, s, op)) && PreservesSessions(c, s, Completed(c, s, op), op)
  {
    var s' := Completed(c, s, op);
    assert SessionOk(c, s, op.uploadId);
    forall u | u in s'.sessions ensures Held(s'.disk, c.temp(u)) == Held(s.disk, c.temp(u)) {
      assert c.temp(u) != c.final(op.newId) && c.temp(u) != c.temp(op.uploadId);
    }
    SessionsUntouched(c, s, s', op);
  }

  lemma CompleteKeeps(c: Config, s: State, op: Op)
    requires Inv(c, s) && Fresh(c, s, op) && op.CompleteUpload? && op.uploadId in s.sessions
    requires s.sessions[op.uploadId].bytesWritten == s.sessions[op.uploadId].fileSize
    ensures Inv(c, Completed(c, s, op)) && Preserves(c, s, Completed(c, s, op), op)
  {
    CompleteFiles(c, s, op);
    UnusedId(c, s, op.newId);
    SavedMd5(s, Completed(c, s, op).files[op.newId]);
    CompleteOrphans(c, s, op);
    CompleteSessions(c, s, op);
  }

  lemma UploadSessions(c: Config, s: State, op: Op)
    requires PathsApart(c) && SessionsOk(c, s) && Fresh(c, s, op) && op.Upload?
    ensures SessionsOk(c, Uploaded(c, s, op)) && PreservesSessions(c, s, Uploaded(c, s, op), op)
  {
    var s' := Uploaded(c, s, op);
    forall u | u in s'.sessions ensures Held(s'.disk, c.temp(u)) == Held(s.disk, c.temp(u))
    {
      assert c.temp(u) != c.final(op.newId);
    }
    SessionsUntouched(c, s, s', op);
  }

  lemma UploadKeeps(c: Config, s: State, op: Op)
    requires Inv(c, s) && Fresh(c, s, op) && op.Upload?
    ensures Inv(c, Uploaded(c, s, op)) && Preserves(c, s, Uploaded(c, s, op), op)
  {
    var s' := Uploaded(c, s, op);
    forall f | f in s.files ensures SameAt(s.disk, s'.disk, c.final(f))
    {
      assert FileOk(c, s, f) && c.final(f) != c.final(op.newId);
    }
    UnusedId(c, s, op.newId);
    SavedFiles(c, s, s', s'.files[op.newId]);
    SavedMd5(s, s'.files[op.newId]);
    UploadSessions(c, s, op);
    assert op.newId in s'.files;
    NoOrphansMore(c, s, s');
  }

  lemma DeletedMd5(s: State, id: string)
    requires Md5Ok(s) && id in s.files
    ensures Md5Ok(Deleted(s, id))
  {
  }

  lemma DeleteOrphans(c: Config, s: State, id: string)
    requires NoOrphans(c, s) && id in s.files && FileOk(c, s, id)
    ensures NoOrphans(c, Deleted(s, id))
  {
    forall p | p in Deleted(s, id).disk ensures Owned(c, Deleted(s, id), p) { OwnedKept(c, s, Deleted(s, id), p); }
  }

  lemma DeleteFiles(c: Config, s: State, id: string)
    requires PathsApart(c) && FilesOk(c, s) && id in s.files
    ensures FilesOk(c, Deleted(s, id)) && PreservesFiles(c, s, Deleted(s, id))
  {
    var s' := Deleted(s, id);
    assert FileOk(c, s, id);
    forall f | f in s'.files ensures SameAt(s.disk, s'.disk, c.final(f))
    {
      assert FileOk(c, s, f) && c.final(f) != c.final(id);
    }
    FilesUntouched(c, s, s');
  }

  lemma DeleteKeeps(c: Config, s: State, op: Op)
    requires Inv(c, s) && op.DeleteFile? && op.fileId in s.files
    ensures Inv(c, Deleted(s, op.fileId)) && Preserves(c, s, Deleted(s, op.fileId), op)
  {
    var s' := Deleted(s, op.fileId);
    assert FileOk(c, s, op.fileId);
    forall u | u in s'.sessions ensures Held(s'.disk, c.temp(u)) == Held(s.disk, c.temp(u))
    {
      assert c.temp(u) != c.final(op.fileId);
    }
    SessionsUntouched(c, s, s', op);
    DeleteFiles(c, s, op.fileId);
    DeletedMd5(s, op.fileId);
    DeleteOrphans(c, s, op.fileId);
  }

  lemma CleanupKeeps(c: Config, s: State, op: Op)
    requires Inv(c, s) && op.CleanupExpiredSessions?
    ensures Inv(c, Cleaned(s, op.now)) && Preserves(c, s, Cleaned(s, op.now), op)
  {
    var s' := Cleaned(s, op.now);
    forall u | u in s'.sessions ensures c.temp(u) !in ExpiredPaths(s.sessions, op.now) {
      forall v | v in s.sessions && Expired(s.sessions[v], op.now) ensures s.sessions[v].tempPath != c.temp(u)
      {
        assert SessionOk(c, s, v);
      }
    }
    SessionsUntouched(c, s, s', op);
    forall f | f in s.files ensures SameAt(s.disk, s'.disk, c.final(f)) {
      assert FileOk(c, s, f);
      forall v | v in s.sessions ensures s.sessions[v].tempPath != c.final(f) { assert SessionOk(c, s, v); }
    }
    FilesUntouched(c, s, s');
    forall p | p in s'.disk ensures Owned(c, s', p) {
      forall u | u in s.sessions && p == c.temp(u) ensures u in s'.sessions { assert SessionOk(c, s, u); }
      OwnedKept(c, s, s', p);
    }
  }

  /** Every operation keeps the invariant, and never touches the bytes of another upload or file. */
  lemma StepKeepsInv(c: Config, s: State, op: Op)
    requires Inv(c, s) && Fresh(c, s, op)
    ensures Inv(c, Apply(c, s, op).0) && Preserves(c, s, Apply(c, s, op).0, op)
  {
    var s' := Apply(c, s, op).0;
    if s' == s {
      UnchangedKeeps(c, s, op);
    } else {
      match op
      case InitUpload(_, _, _, _, _, _, _) => OpenKeeps(c, s, op);
      case AppendChunk(_, _) => AppendKeeps(c, s, op);
      case CompleteUpload(_, _, _) => CompleteKeeps(c, s, op);
      case Upload(_, _, _, _, _, _) => UploadKeeps(c, s, op);
      case DeleteFile(_, _) => DeleteKeeps(c, s, op);
      case CleanupExpiredSessions(_) => CleanupKeeps(c, s, op);
    }
  }

  lemma UnchangedKeeps(c: Config, s: State, op: Op)
    requires Inv(c, s) && Apply(c, s, op).0 == s
    ensures Preserves(c, s, s, op)
  {
    forall u | u in s.sessions ensures AcceptedBy(s, op, u) == [] {
      if op.AppendChunk? && op.uploadId == u && s.sessions[u].bytesWritten + |op.data| <= s.sessions[u].fileSize {
        assert Appended(s, op).sessions[u].bytesWritten == s.sessions[u].bytesWritten + |op.data|;
      }
    }
  }

  // ---------- whole runs ----------

  ghost predicate FreshRun(c: Config, s: State, ops: seq<Op>)
    decreases |ops|
  {
    ops == [] || (Fresh(c, s, ops[0]) && FreshRun(c, Apply(c, s, ops[0]).0, ops[1..]))
  }

  ghost function Run(c: Config, s: State, ops: seq<Op>): State
    decreases |ops|
  {
    if ops == [] then s else Run(c, Apply(c, s, ops[0]).0, ops[1..])
  }

  const EMPTY := State(map[], map[], map[], map[], {})

  lemma {:induction false} RunKeepsInv(c: Config, s: State, ops: seq<Op>)
    requires Inv(c, s) && FreshRun(c, s, ops)
    ensures Inv(c, Run(c, s, ops)) && s.issued <= Run(c, s, ops).issued
    decreases |ops|
  {
    if ops != [] {
      StepKeepsInv(c, s, ops[0]);
      RunKeepsInv(c, Apply(c, s, ops[0]).0, ops[1..]);
    }
  }

  /** A retired upload or file never returns. */
  lemma {:induction false} RetiredStaysRetired(c: Config, s: State, ops: seq<Op>, id: string)
    requires Inv(c, s) && FreshRun(c, s, ops) && id in s.issued
    ensures id !in s.sessions ==> id !in Run(c, s, ops).sessions
    ensures id !in s.files ==> id !in Run(c, s, ops).files
    decreases |ops|
  {
    if ops != [] {
      StepKeepsInv(c, s, ops[0]);
      RetiredStaysRetired(c, Apply(c, s, ops[0]).0, ops[1..], id);
    }
  }

  /** The chunks of the upload that the run accepted, in order. */
  ghost function Accepted(c: Config, s: State, ops: seq<Op>, u: string): Bytes
    decreases |ops|
  {
    if ops == [] then [] else AcceptedBy(s, ops[0], u) + Accepted(c, Apply(c, s, ops[0]).0, ops[1..], u)
  }

  lemma StepOfSession(c: Config, s: State, op: Op, u: string)
    requires Inv(c, s) && Fresh(c, s, op) && u in s.sessions
    ensures Inv(c, Apply(c, s, op).0) && u in Apply(c, s, op).0.issued
    ensures u in Apply(c, s, op).0.sessions ==>
      && Held(Apply(c, s, op).0.disk, c.temp(u)) == Held(s.disk, c.temp(u)) + AcceptedBy(s, op, u)
      && Apply(c, s, op).0.sessions[u] == s.sessions[u].(bytesWritten := Apply(c, s, op).0.sessions[u].bytesWritten)
  {
    StepKeepsInv(c, s, op);
    assert SessionOk(c, s, u);
  }

  lemma Assoc(a: Bytes, b: Bytes, d: Bytes)
    ensures (a + b) + d == a + (b + d)
  {
  }

  /** While a session lives, its temporary file grows by exactly the accepted chunks. */
  lemma {:induction false} SessionHoldsAccepted(c: Config, s: State, ops: seq<Op>, u: string)
    requires Inv(c, s) && FreshRun(c, s, ops) && u in s.sessions && u in Run(c, s, ops).sessions
    ensures Held(Run(c, s, ops).disk, c.temp(u)) == Held(s.disk, c.temp(u)) + Accepted(c, s, ops, u)
    ensures Run(c, s, ops).sessions[u] == s.sessions[u].(bytesWritten := Run(c, s, ops).sessions[u].bytesWritten)
    decreases |ops|
  {
    if ops == [] {
      assert Held(s.disk, c.temp(u)) + [] == Held(s.disk, c.temp(u));
    } else {
      var s' := Apply(c, s, ops[0]).0;
      StepOfSession(c, s, ops[0], u);
      if u !in s'.sessions { RetiredStaysRetired(c, s', ops[1..], u); }
      SessionHoldsAccepted(c, s', ops[1..], u);
      Assoc(Held(s.disk, c.temp(u)), AcceptedBy(s, ops[0], u), Accepted(c, s', ops[1..], u));
    }
  }

  /** While a record lives, neither it nor its bytes change. */
  lemma {:induction false} FileIsImmutable(c: Config, s: State, ops: seq<Op>, f: string)
    requires Inv(c, s) && FreshRun(c, s, ops) && f in s.files && f in Run(c, s, ops).files
    ensures Run(c, s, ops).files[f] == s.files[f]
    ensures Held(Run(c, s, ops).disk, c.final(f)) == Held(s.disk, c.final(f))
    decreases |ops|
  {
    if ops != [] {
      var s' := Apply(c, s, ops[0]).0;
      StepKeepsInv(c, s, ops[0]);
      if f !in s'.files { RetiredStaysRetired(c, s', ops[1..], f); }
      FileIsImmutable(c, s', ops[1..], f);
    }
  }

  /** Completing an upload stores what its temporary file held, as long as was declared. */
  lemma CompletionStoresHeld(c: Config, s: State, complete: Op)
    requires Inv(c, s) && complete.CompleteUpload? && Fresh(c, s, complete) && Apply(c, s, complete).1.Stored?
    ensures
      var s', e := Apply(c, s, complete).0, s.sessions[complete.uploadId];
      && Inv(c, s') && complete.newId in s'.files
      && Held(s'.disk, c.final(complete.newId)) == Held(s.disk, c.temp(complete.uploadId))
      && s'.files[complete.newId]
         == FileMeta(complete.newId, e.fileName, e.contentType, e.fileSize, e.md5, e.userId, c.final(complete.newId),
             complete.now)
  {
    StepKeepsInv(c, s, complete);
    assert SessionOk(c, s, complete.uploadId);
  }

  /** The session an upload is started with: what was announced, nothing written, and a deadline. */
  lemma StartedAsAnnounced(c: Config, s: State, init: Op)
    requires init.InitUpload? && Apply(c, s, init).1.Started?
    ensures Apply(c, s, init).1 == Started(init.newId) && init.newId in Apply(c, s, init).0.sessions
    ensures
      var e := Apply(c, s, init).0.sessions[init.newId];
      && e.uploadId == init.newId && e.userId == init.user && e.fileName == init.name
      && e.contentType == init.contentType && e.fileSize == init.size && e.md5 == init.md5
      && e.bytesWritten == 0 && e.expireAt == init.now + c.sessionSeconds
  {
  }

  /** From the start of an upload, through any run that completes it, to any later moment at
      which its file still exists: the file is exactly the accepted chunks in order, as long
      as was declared, under the declared name, type, md5 and owner. */
  lemma CompletedIsAcceptedChunks(c: Config, s0: State, init: Op, during: seq<Op>, complete: Op, later: seq<Op>)
    requires Inv(c, s0) && init.InitUpload? && Fresh(c, s0, init) && Apply(c, s0, init).1.Started?
    requires FreshRun(c, Apply(c, s0, init).0, during)
    requires complete.CompleteUpload? && complete.uploadId == init.newId
    requires Fresh(c, Run(c, Apply(c, s0, init).0, during), complete)
    requires Apply(c, Run(c, Apply(c, s0, init).0, during), complete).1.Stored?
    requires FreshRun(c, Apply(c, Run(c, Apply(c, s0, init).0, during), complete).0, later)
    requires complete.newId in Run(c, Apply(c, Run(c, Apply(c, s0, init).0, during), complete).0, later).files
    ensures
      var s1 := Apply(c, s0, init).0;
      var end := Run(c, Apply(c, Run(c, s1, during), complete).0, later);
      var m := end.files[complete.newId];
      && m.storagePath in end.disk && end.disk[m.storagePath] == Accepted(c, s1, during, init.newId)
      && |Accepted(c, s1, during, init.newId)| == init.size
      && m.fileId == complete.newId && m.fileName == init.name && m.contentType == init.contentType
      && m.fileSize == init.size && m.md5 == init.md5 && m.uploaderId == init.user && m.uploadedAt == complete.now
  {
    var s1 := Apply(c, s0, init).0;
    StepKeepsInv(c, s0, init);
    StartsEmpty(c, s0, init);
    StartedAsAnnounced(c, s0, init);
    UploadedThrough(c, s1, init.newId, during, complete, later);
  }

  function RecordOf(c: Config, e: Session, complete: Op): FileMeta
    requires complete.CompleteUpload?
  {
    var id := complete.newId;
    FileMeta(id, e.fileName, e.contentType, e.fileSize, e.md5, e.userId, c.final(id), complete.now)
  }

  lemma UploadedThrough(c: Config, s: State, u: string, during: seq<Op>, complete: Op, later: seq<Op>)
    requires Inv(c, s) && u in s.sessions && Held(s.disk, c.temp(u)) == []
    requires FreshRun(c, s, during) && complete.CompleteUpload? && complete.uploadId == u
    requires Fresh(c, Run(c, s, during), complete) && Apply(c, Run(c, s, during), complete).1.Stored?
    requires FreshRun(c, Apply(c, Run(c, s, during), complete).0, later)
    requires complete.newId in Run(c, Apply(c, Run(c, s, during), complete).0, later).files
    ensures
      var end := Run(c, Apply(c, Run(c, s, during), complete).0, later);
      var m := end.files[complete.newId];
      && m.storagePath in end.disk && end.disk[m.storagePath] == Accepted(c, s, during, u)
      && |Accepted(c, s, during, u)| == m.fileSize && m == RecordOf(c, s.sessions[u], complete)
  {
    var s2 := Run(c, s, during);
    RunKeepsInv(c, s, during);
    SessionHoldsAccepted(c, s, during, u);
    CompletionStoresHeld(c, s2, complete);
    var s3 := Apply(c, s2, complete).0;
    RunKeepsInv(c, s3, later);
    FileIsImmutable(c, s3, later, complete.newId);
    assert FileOk(c, Run(c, s3, later), complete.newId);
  }

  lemma StartsEmpty(c: Config, s: State, init: Op)
    requires Inv(c, s) && init.InitUpload? && Fresh(c, s, init) && Apply(c, s, init).1.Started?
    ensures Held(Apply(c, s, init).0.disk, c.temp(init.newId)) == []
  {
    StepKeepsInv(c, s, init);
    assert SessionOk(c, Apply(c, s, init).0, init.newId);
  }

  /** Every chunk for the upload is cut from the content at the offset the server reports. */
  ghost predicate SendsFromOffset(c: Config, s: State, ops: seq<Op>, u: string, content: Bytes)
    decreases |ops|
  {
    ops == [] || (ChunkFromOffset(s, ops[0], u, content)
        && SendsFromOffset(c, Apply(c, s, ops[0]).0, ops[1..], u, content))
  }

  ghost predicate ChunkFromOffset(s: State, op: Op, u: string, content: Bytes) {
    op.AppendChunk? && op.uploadId == u && u in s.sessions ==>
      0 <= s.sessions[u].bytesWritten <= |content| && op.data <= content[s.sessions[u].bytesWritten..]
  }

  lemma ChunkExtendsPrefix(held: Bytes, data: Bytes, content: Bytes)
    requires held <= content && data <= content[|held|..]
    ensures held + data <= content
  {
    assert content == held + content[|held|..];
  }

  /** However often it is interrupted, a sender that resumes at the reported offset leaves a
      prefix of its content on the server. */
  lemma {:induction false} ResumeHoldsPrefix(c: Config, s: State, ops: seq<Op>, u: string, content: Bytes)
    requires Inv(c, s) && FreshRun(c, s, ops) && u in s.sessions && u in Run(c, s, ops).sessions
    requires Held(s.disk, c.temp(u)) <= content && SendsFromOffset(c, s, ops, u, content)
    ensures Held(Run(c, s, ops).disk, c.temp(u)) <= content
    decreases |ops|
  {
    if ops != [] {
      var s' := Apply(c, s, ops[0]).0;
      StepOfSession(c, s, ops[0], u);
      if u !in s'.sessions { RetiredStaysRetired(c, s', ops[1..], u); }
      assert SessionOk(c, s, u);
      ChunkExtendsPrefix(Held(s.disk, c.temp(u)), AcceptedBy(s, ops[0], u), content);
      ResumeHoldsPrefix(c, s', ops[1..], u, content);
    }
  }

  /** Completing such an upload, declared as long as the content, stores the content. */
  lemma ResumedUploadIsWhole(c: Config, s: State, u: string, content: Bytes, during: seq<Op>, complete: Op)
    requires Inv(c, s) && u in s.sessions && Held(s.disk, c.temp(u)) == [] && s.sessions[u].fileSize == |content|
    requires FreshRun(c, s, during) && SendsFromOffset(c, s, during, u, content)
    requires complete.CompleteUpload? && complete.uploadId == u && Fresh(c, Run(c, s, during), complete)
    ensures Apply(c, Run(c, s, during), complete).1.Stored? ==>
      Held(Apply(c, Run(c, s, during), complete).0.disk, c.final(complete.newId)) == content
  {
    var s2 := Run(c, s, during);
    if Apply(c, s2, complete).1.Stored? {
      RunKeepsInv(c, s, during);
      SessionHoldsAccepted(c, s, during, u);
      ResumeHoldsPrefix(c, s, during, u, content);
      CompletionStoresHeld(c, s2, complete);
      assert SessionOk(c, s2, u);
    }
  }

  /** A file disappears exactly when its uploader deletes it. */
  lemma FileDepartureExact(c: Config, s: State, op: Op, f: string)
    requires Inv(c, s) && Fresh(c, s, op) && f in s.files
    ensures f !in Apply(c, s, op).0.files <==> op == DeleteFile(f, s.files[f].uploaderId)
  {
    UnchangedFiles(c, s, op);
  }

  lemma UnchangedFiles(c: Config, s: State, op: Op)
    ensures !op.DeleteFile? ==> s.files.Keys <= Apply(c, s, op).0.files.Keys
  {
  }

  /** A session disappears exactly when it is completed or found expired. */
  lemma SessionDepartureExact(c: Config, s: State, op: Op, u: string)
    requires Inv(c, s) && Fresh(c, s, op) && u in s.sessions
    ensures u !in Apply(c, s, op).0.sessions <==>
      || (op.CompleteUpload? && op.uploadId == u && |Held(s.disk, c.temp(u))| == s.sessions[u].fileSize)
      || (op.CleanupExpiredSessions? && s.sessions[u].expireAt <= op.now)
  {
    assert SessionOk(c, s, u);
  }

  /** The run neither completes the upload nor cleans up at or after its deadline. */
  ghost predicate Spares(ops: seq<Op>, u: string, deadline: int) {
    forall op :: op in ops ==>
      && !(op.CompleteUpload? && op.uploadId == u)
      && (op.CleanupExpiredSessions? ==> op.now < deadline)
  }

  lemma SparedStep(c: Config, s: State, op: Op, u: string)
    requires Inv(c, s) && Fresh(c, s, op) && u in s.sessions && Spares([op], u, s.sessions[u].expireAt)
    ensures u in Apply(c, s, op).0.sessions && Apply(c, s, op).0.sessions[u].expireAt == s.sessions[u].expireAt
  {
    assert op in [op];
    SessionDepartureExact(c, s, op, u);
    StepKeepsInv(c, s, op);
  }

  /** An upload lives through every run that neither completes it nor cleans up at or after its
      deadline, which stays what it was. */
  lemma {:induction false} SparedLives(c: Config, s: State, ops: seq<Op>, u: string)
    requires Inv(c, s) && FreshRun(c, s, ops) && u in s.sessions && Spares(ops, u, s.sessions[u].expireAt)
    ensures u in Run(c, s, ops).sessions && Run(c, s, ops).sessions[u].expireAt == s.sessions[u].expireAt
    decreases |ops|
  {
    if ops != [] {
      assert ops[0] in ops && forall op :: op in ops[1..] ==> op in ops;
      SparedStep(c, s, ops[0], u);
      StepKeepsInv(c, s, ops[0]);
      SparedLives(c, Apply(c, s, ops[0]).0, ops[1..], u);
    }
  }

  /** A started upload lives through every cleanup before its start plus the configured time, and
      goes at any cleanup from then on. */
  lemma LifetimeExact(c: Config, s: State, init: Op, ops: seq<Op>, now: int)
    requires Inv(c, s) && init.InitUpload? && Fresh(c, s, init) && Apply(c, s, init).1.Started?
    requires FreshRun(c, Apply(c, s, init).0, ops) && Spares(ops, init.newId, init.now + c.sessionSeconds)
    ensures
      var t := Run(c, Apply(c, s, init).0, ops);
      && init.newId in t.sessions
      && (init.newId in Apply(c, t, CleanupExpiredSessions(now)).0.sessions <==> now < init.now + c.sessionSeconds)
  {
    StartedAsAnnounced(c, s, init);
    StepKeepsInv(c, s, init);
    SparedLives(c, Apply(c, s, init).0, ops, init.newId);
  }

  // ---------- what is answered ----------

  /** An upload is refused exactly when its announced size is not positive or too large; otherwise it
      is started, unless its md5 is on record. */
  lemma InitAnswers(c: Config, s: State, op: Op)
    requires Inv(c, s) && op.InitUpload?
    ensures Apply(c, s, op).1 == FileTooLarge <==> op.size <= 0 || op.size > c.maxFileSize
    ensures Apply(c, s, op).1 == Started(op.newId)
       <==> 0 < op.size <= c.maxFileSize && (op.md5 == "" || op.md5 !in s.md5Index)
  {
    if op.md5 in s.md5Index { assert FileOk(c, s, s.md5Index[op.md5]); }
  }

  /** A chunk is refused exactly when its session is gone or it would exceed the announced size. */
  lemma AppendAnswers(c: Config, s: State, op: Op)
    requires Inv(c, s) && op.AppendChunk?
    ensures Apply(c, s, op).1 == FileExpired <==> op.uploadId !in s.sessions
    ensures op.uploadId in s.sessions ==>
      var held, size := Held(s.disk, c.temp(op.uploadId)), s.sessions[op.uploadId].fileSize;
      Apply(c, s, op).1 == if |held| + |op.data| <= size then Offset(|held| + |op.data|) else InvalidParam
  {
    if op.uploadId in s.sessions { assert SessionOk(c, s, op.uploadId); }
  }

  /** An upload completes exactly when all announced bytes are there. */
  lemma CompleteAnswers(c: Config, s: State, op: Op)
    requires Inv(c, s) && op.CompleteUpload?
    ensures Apply(c, s, op).1 == FileExpired <==> op.uploadId !in s.sessions
    ensures op.uploadId in s.sessions ==>
      var held, size := Held(s.disk, c.temp(op.uploadId)), s.sessions[op.uploadId].fileSize;
      Apply(c, s, op).1 == if |held| == size then Stored(op.newId) else UploadIncomplete
  {
    if op.uploadId in s.sessions { assert SessionOk(c, s, op.uploadId); }
  }

  /** The one-shot upload stores the data as they are, recorded as given and without an md5. */
  lemma UploadStores(c: Config, s: State, op: Op)
    requires Inv(c, s) && Fresh(c, s, op) && op.Upload?
    ensures Apply(c, s, op).1 == if |op.data| > c.maxFileSize then FileTooLarge else Stored(op.newId)
    ensures |op.data| <= c.maxFileSize ==>
      var t := Apply(c, s, op).0;
      && Held(t.disk, c.final(op.newId)) == op.data && op.newId in t.files
      && t.files[op.newId].fileName == op.name && t.files[op.newId].contentType == op.contentType
      && t.files[op.newId].fileSize == |op.data| && t.files[op.newId].uploaderId == op.user
      && t.files[op.newId].md5 == "" && t.files[op.newId].uploadedAt == op.now && t.md5Index == s.md5Index
      && t.files[op.newId].storagePath == c.final(op.newId)
  {
  }

  /** Instant upload answers exactly when some md5 entry exists, with a readable file of that md5. */
  lemma InstantUploadIsLive(c: Config, s: State, op: Op)
    requires Inv(c, s) && op.InitUpload? && 0 < op.size <= c.maxFileSize
    ensures Apply(c, s, op).1.Existing? <==> op.md5 != "" && op.md5 in s.md5Index
    ensures Apply(c, s, op).1.Existing? ==>
      var f := Apply(c, s, op).1.fileId;
      && Apply(c, s, op).0 == s
      && f in s.files && s.files[f].md5 == op.md5 && s.files[f].storagePath in s.disk
      && |s.disk[s.files[f].storagePath]| == s.files[f].fileSize
  {
    if op.md5 in s.md5Index { assert FileOk(c, s, s.md5Index[op.md5]); }
  }

  // ---------- range reads ----------

  const MAX_INT64 := 0x7fff_ffff_ffff_ffff

  function Clamp(n: int, x: int): (r: int)
    requires 0 <= n
    ensures 0 <= r <= n
  {
    if x < 0 then 0 else if x > n then n else x
  }

  /** Bytes from `offset` on, `length` of them or, when negative, all the rest. */
  function Range(content: Bytes, offset: int, length: int): Bytes {
    var lo := Clamp(|content|, offset);
    var hi := if length < 0 then |content| else Clamp(|content|, (if offset < 0 then 0 else offset) + length);
    if lo <= hi then content[lo..hi] else []
  }

  /** The end of the requested range does not fit a 64-bit integer. */
  predicate RangeOverflows(size: int, offset: int, length: int) {
    var from := if offset < 0 then 0 else offset;
    from < size && 0 <= length && from + length > MAX_INT64
  }

  function Sum(lengths: seq<nat>): nat {
    if lengths == [] then 0 else lengths[0] + Sum(lengths[1..])
  }

  /** Consecutive range reads, joined. */
  function Tiled(content: Bytes, offset: nat, lengths: seq<nat>): Bytes
    decreases |lengths|
  {
    if lengths == [] then [] else Range(content, offset, lengths[0]) + Tiled(content, offset + lengths[0], lengths[1..])
  }

  lemma RangeSplits(content: Bytes, offset: nat, m: nat, n: nat)
    ensures Range(content, offset, m) + Range(content, offset + m, n) == Range(content, offset, m + n)
  {
    var size := |content|;
    var lo, mid, hi := Clamp(size, offset), Clamp(size, offset + m), Clamp(size, offset + m + n);
    assert content[lo..mid] + content[mid..hi] == content[lo..hi];
  }

  lemma TileJoins(content: Bytes, offset: nat, m: nat, n: nat, tail: Bytes)
    requires tail == Range(content, offset + m, n)
    ensures Range(content, offset, m) + tail == Range(content, offset, m + n)
  {
    RangeSplits(content, offset, m, n);
  }

  lemma {:induction false} TilesAreRange(content: Bytes, offset: nat, lengths: seq<nat>)
    ensures Tiled(content, offset, lengths) == Range(content, offset, Sum(lengths))
    decreases |lengths|
  {
    if lengths != [] {
      var first, rest: nat := lengths[0], Sum(lengths[1..]);
      TilesAreRange(content, offset + first, lengths[1..]);
      var tail := Tiled(content, offset + first, lengths[1..]);
      TileJoins(content, offset, first, rest, tail);
      assert Tiled(content, offset, lengths) == Range(content, offset, first) + tail;
      assert Sum(lengths) == first + rest;
    }
  }

  lemma TiledIsWhole(content: Bytes, lengths: seq<nat>)
    ensures Tiled(content, 0, lengths) == content <==> Sum(lengths) >= |content|
  {
    TilesAreRange(content, 0, lengths);
    var n := Sum(lengths);
    assert Range(content, 0, n) == content[..Clamp(|content|, n)];
    if n < |content| { assert |Range(content, 0, n)| == n; }
  }

  datatype Read = NotFound | Data(bytes: Bytes, meta: FileMeta) | Overflow

  /** What `ReadFileRange` answers for a stored file. */
  function ReadOf(m: FileMeta, content: Bytes, offset: int, length: int): Read {
    if RangeOverflows(|content|, offset, length) then Overflow else Data(Range(content, offset, length), m)
  }

  /** A range read gives the bytes from the offset, or from the start for a negative one, as many as
      asked for or, with a negative length or too large a one, all the rest. */
  lemma ReadMeans(m: FileMeta, content: Bytes, offset: int, length: int)
    ensures
      var from := if offset < 0 then 0 else offset;
      && (from >= |content| ==> ReadOf(m, content, offset, length) == Data([], m))
      && (from < |content| && length < 0 ==> ReadOf(m, content, offset, length) == Data(content[from..], m))
      && (from < |content| && 0 <= length && from + length > 0x7fff_ffff_ffff_ffff ==>
            ReadOf(m, content, offset, length) == Overflow)
      && (from < |content| && 0 <= length && from + length <= 0x7fff_ffff_ffff_ffff ==>
            ReadOf(m, content, offset, length)
            == Data(if from + length <= |content| then content[from..from + length] else content[from..], m))
  {
  }

  /** The answers to consecutive range reads. */
  function TileReads(m: FileMeta, content: Bytes, offset: nat, lengths: seq<nat>): (answers: seq<Read>)
    ensures |answers| == |lengths|
    decreases |lengths|
  {
    if lengths == [] then []
    else [ReadOf(m, content, offset, lengths[0])] + TileReads(m, content, offset + lengths[0], lengths[1..])
  }

  predicate AllData(answers: seq<Read>) { forall i :: 0 <= i < |answers| ==> answers[i].Data? }

  function JoinedData(answers: seq<Read>): Bytes
    requires AllData(answers)
  {
    if answers == [] then [] else answers[0].bytes + JoinedData(answers[1..])
  }

  /** Some tile's end leaves the 64-bit integers. */
  predicate TileOverflows(size: nat, offset: nat, lengths: seq<nat>)
    decreases |lengths|
  {
    lengths != []
        && (RangeOverflows(size, offset, lengths[0]) || TileOverflows(size, offset + lengths[0], lengths[1..]))
  }

  lemma {:induction false} TileReadsMean(m: FileMeta, content: Bytes, offset: nat, lengths: seq<nat>)
    ensures AllData(TileReads(m, content, offset, lengths)) <==> !TileOverflows(|content|, offset, lengths)
    ensures AllData(TileReads(m, content, offset, lengths)) ==>
        JoinedData(TileReads(m, content, offset, lengths)) == Tiled(content, offset, lengths)
    decreases |lengths|
  {
    if lengths != [] {
      var answers, rest := TileReads(m, content, offset, lengths),
          TileReads(m, content, offset + lengths[0], lengths[1..]);
      TileReadsMean(m, content, offset + lengths[0], lengths[1..]);
      assert answers[0] == ReadOf(m, content, offset, lengths[0]) && answers[1..] == rest;
      if AllData(answers) {
        forall i | 0 <= i < |rest| ensures rest[i].Data? { assert rest[i] == answers[i + 1]; }
      }
    }
  }

  /** Consecutive reads from the start all succeed and join to the file if and only if they reach
      its end and no tile overflows. */
  lemma TilingRebuildsFile(m: FileMeta, content: Bytes, lengths: seq<nat>)
    ensures var answers := TileReads(m, content, 0, lengths);
      (AllData(answers) && JoinedData(answers) == content) <==>
        Sum(lengths) >= |content| && !TileOverflows(|content|, 0, lengths)
  {
    TileReadsMean(m, content, 0, lengths);
    TiledIsWhole(content, lengths);
  }

  /** A last tile asking for as much as there can be overflows on any file it does not start at
      the front of. */
  lemma GreedyTileOverflows(m: FileMeta, content: Bytes)
    requires |content| == 2
    ensures Tiled(content, 0, [1, MAX_INT64]) == content
    ensures TileReads(m, content, 0, [1, MAX_INT64])[1] == Overflow
  {
    var lengths: seq<nat> := [1, MAX_INT64];
    assert lengths[1..] == [MAX_INT64] && lengths[1..][1..] == [];
    assert TileReads(m, content, 0, lengths)[1] == TileReads(m, content, 1, lengths[1..])[0];
    assert Sum(lengths) == 1 + Sum(lengths[1..]) && Sum(lengths[1..]) == MAX_INT64;
    TiledIsWhole(content, lengths);
  }

  // ---------- when a stored md5 is found ----------

  /** The operation stores a file under the md5. */
  predicate Enters(s: State, op: Op, h: string) {
    && op.CompleteUpload? && op.uploadId in s.sessions && s.sessions[op.uploadId].md5 == h
    && s.sessions[op.uploadId].bytesWritten == s.sessions[op.uploadId].fileSize
  }

  /** The operation deletes a file, this one or another, with the md5. */
  predicate Erases(s: State, op: Op, h: string) {
    op.DeleteFile? && op.fileId in s.files && s.files[op.fileId].uploaderId == op.user && s.files[op.fileId].md5 == h
  }

  lemma Md5Step(c: Config, s: State, op: Op, h: string)
    requires h != ""
    ensures h in Apply(c, s, op).0.md5Index <==> Enters(s, op, h) || (h in s.md5Index && !Erases(s, op, h))
  {
  }

  /** The last event about the md5 in the run stored a file; with none, it was there before. */
  ghost predicate LastEntered(c: Config, s: State, ops: seq<Op>, h: string, before: bool)
    decreases |ops|
  {
    if ops == [] then before
    else LastEntered(c, Apply(c, s, ops[0]).0, ops[1..], h, Enters(s, ops[0], h) || (before && !Erases(s, ops[0], h)))
  }

  /** Instant upload finds an md5 if and only if, of the completions and deletions of files with
      that md5, the last was a completion, whatever other files with it are still stored. */
  lemma {:induction false} FoundIffLastEntered(c: Config, s: State, ops: seq<Op>, h: string)
    requires h != ""
    ensures h in Run(c, s, ops).md5Index <==> LastEntered(c, s, ops, h, h in s.md5Index)
    decreases |ops|
  {
    if ops != [] {
      Md5Step(c, s, ops[0], h);
      FoundIffLastEntered(c, Apply(c, s, ops[0]).0, ops[1..], h);
    }
  }

  /** Two uploads of one md5 that were both under way become two files; deleting either hides the
      other, which is still stored and readable. */
  lemma TwinHidden(c: Config, s: State, f: string, g: string)
    requires Inv(c, s) && f in s.files && g in s.files && f != g && s.files[f].md5 == s.files[g].md5 != ""
    ensures var s' := Apply(c, s, DeleteFile(f, s.files[f].uploaderId)).0;
      g in s'.files && s'.files[g] == s.files[g] && s'.files[g].storagePath in s'.disk && s.files[g].md5 !in s'.md5Index
  {
    var op := DeleteFile(f, s.files[f].uploaderId);
    StepKeepsInv(c, s, op);
    assert FileOk(c, Apply(c, s, op).0, g);
  }

  predicate Ready(s: State, u: string) {
    u in s.sessions && s.sessions[u].bytesWritten == s.sessions[u].fileSize
  }

  lemma TwinsArise(c: Config, s: State, u: string, v: string, f: string, g: string, now: int)
    requires Inv(c, s) && u != v && f != g
    ensures Ready(s, u) && Ready(s, v) && s.sessions[u].md5 == s.sessions[v].md5
            && Fresh(c, s, CompleteUpload(u, now, f)) && Fresh(c, s, CompleteUpload(v, now, g)) ==>
      var t := Apply(c, Apply(c, s, CompleteUpload(u, now, f)).0, CompleteUpload(v, now, g)).0;
      Inv(c, t) && f in t.files && g in t.files && t.files[f].md5 == t.files[g].md5 == s.sessions[u].md5
  {
    var first, second := CompleteUpload(u, now, f), CompleteUpload(v, now, g);
    if Ready(s, u) && Ready(s, v) && Fresh(c, s, first) && Fresh(c, s, second) {
      CompleteKeeps(c, s, first);
      CompleteKeeps(c, Apply(c, s, first).0, second);
    }
  }

  lemma RunCons(c: Config, s: State, op: Op, rest: seq<Op>)
    ensures Run(c, s, [op] + rest) == Run(c, Apply(c, s, op).0, rest)
  {
    assert ([op] + rest)[0] == op && ([op] + rest)[1..] == rest;
  }

  /** Upload number `u` of so many bytes under an md5. */
  function Announced(user: string, size: int, h: string, u: string): Op {
    InitUpload(user, "", "", size, h, 0, u)
  }

  lemma Announces(c: Config, s: State, user: string, size: int, h: string, u: string)
    requires Inv(c, s) && Fresh(c, s, Announced(user, size, h, u)) && 0 < size <= c.maxFileSize && h !in s.md5Index
    ensures
      var t := Apply(c, s, Announced(user, size, h, u)).0;
      && Inv(c, t) && u in t.sessions && t.sessions.Keys == s.sessions.Keys + {u} && t.issued == s.issued + {u}
      && t.sessions[u].fileSize == size && t.sessions[u].md5 == h && t.sessions[u].userId == user
      && t.sessions[u].bytesWritten == 0 && t.files == s.files && t.md5Index == s.md5Index
      && (forall v :: v in s.sessions && v != u ==> t.sessions[v] == s.sessions[v])
  {
    StepKeepsInv(c, s, Announced(user, size, h, u));
  }

  lemma SendsWhole(c: Config, s: State, u: string, content: Bytes)
    requires Inv(c, s) && u in s.sessions && s.sessions[u].bytesWritten == 0 && s.sessions[u].fileSize == |content|
    ensures
      var t := Apply(c, s, AppendChunk(u, content)).0;
      && Inv(c, t) && t.sessions == s.sessions[u := s.sessions[u].(bytesWritten := |content|)]
      && Ready(t, u) && Held(t.disk, c.temp(u)) == content
      && t.files == s.files && t.md5Index == s.md5Index && t.issued == s.issued
  {
    StepKeepsInv(c, s, AppendChunk(u, content));
    assert SessionOk(c, s, u);
    assert Held(s.disk, c.temp(u)) == [] && [] + content == content;
  }

  lemma CompletesAs(c: Config, s: State, u: string, f: string)
    requires Inv(c, s) && Ready(s, u) && Fresh(c, s, CompleteUpload(u, 0, f))
    ensures
      var t := Apply(c, s, CompleteUpload(u, 0, f)).0;
      && Inv(c, t) && f in t.files && t.files[f].md5 == s.sessions[u].md5
      && t.files[f].uploaderId == s.sessions[u].userId
      && t.files[f].storagePath == c.final(f) && Held(t.disk, c.final(f)) == Held(s.disk, c.temp(u))
      && (s.sessions[u].md5 != "" ==> s.sessions[u].md5 in t.md5Index && t.md5Index[s.sessions[u].md5] == f)
      && t.issued == s.issued + {f}
  {
    CompletionStoresHeld(c, s, CompleteUpload(u, 0, f));
  }

  /** One upload of the content, announced under the md5. */
  function UploadRun(user: string, content: Bytes, h: string, u: string, f: string): seq<Op> {
    [Announced(user, |content|, h, u)] + ([AppendChunk(u, content)] + ([CompleteUpload(u, 0, f)] + []))
  }

  /** The md5 is the uploader's word: for every content and every md5 there is a run after which
      instant upload of that md5 hands out that content. */
  lemma Md5IsDeclared(c: Config, user: string, content: Bytes, h: string, u: string, f: string, asked: Op)
    requires PathsApart(c) && h != "" && 0 < |content| <= c.maxFileSize && c.proper(u) && c.proper(f) && u != f
    requires asked.InitUpload? && asked.md5 == h && 0 < asked.size <= c.maxFileSize
    ensures
      var t := Run(c, EMPTY, UploadRun(user, content, h, u, f));
      Apply(c, t, asked).1 == Existing(f) && f in t.files && Held(t.disk, t.files[f].storagePath) == content
  {
    Announces(c, EMPTY, user, |content|, h, u);
    var s1 := Apply(c, EMPTY, Announced(user, |content|, h, u)).0;
    SendsWhole(c, s1, u, content);
    var s2 := Apply(c, s1, AppendChunk(u, content)).0;
    CompletesAs(c, s2, u, f);
    var s3 := Apply(c, s2, CompleteUpload(u, 0, f)).0;
    FoundAs(c, s3, asked, f);
    UploadRunEnds(c, user, content, h, u, f);
  }

  lemma FoundAs(c: Config, s: State, asked: Op, f: string)
    requires Inv(c, s) && asked.InitUpload? && asked.md5 != "" && 0 < asked.size <= c.maxFileSize
    requires asked.md5 in s.md5Index && s.md5Index[asked.md5] == f
    ensures Apply(c, s, asked).1 == Existing(f)
  {
    InstantUploadIsLive(c, s, asked);
    assert FileOk(c, s, f);
  }

  lemma UploadRunEnds(c: Config, user: string, content: Bytes, h: string, u: string, f: string)
    ensures
      var s1 := Apply(c, EMPTY, Announced(user, |content|, h, u)).0;
      var s2 := Apply(c, s1, AppendChunk(u, content)).0;
      Run(c, EMPTY, UploadRun(user, content, h, u, f)) == Apply(c, s2, CompleteUpload(u, 0, f)).0
  {
    var s1 := Apply(c, EMPTY, Announced(user, |content|, h, u)).0;
    var s2 := Apply(c, s1, AppendChunk(u, content)).0;
    var r2 := [CompleteUpload(u, 0, f)] + [];
    RunCons(c, EMPTY, Announced(user, |content|, h, u), [AppendChunk(u, content)] + r2);
    RunCons(c, s1, AppendChunk(u, content), r2);
    RunCons(c, s2, CompleteUpload(u, 0, f), []);
  }

  lemma {:induction false} RunAppend(c: Config, s: State, first: seq<Op>, second: seq<Op>)
    ensures Run(c, s, first + second) == Run(c, Run(c, s, first), second)
    decreases |first|
  {
    if first == [] {
      assert first + second == second;
    } else {
      assert (first + second)[0] == first[0] && (first + second)[1..] == first[1..] + second;
      RunAppend(c, Apply(c, s, first[0]).0, first[1..], second);
    }
  }

  /** Two uploads announced under one md5 before either is complete, and sent. */
  function TwinStart(user: string, x: Bytes, y: Bytes, h: string, u: string, v: string): seq<Op> {
    [Announced(user, |x|, h, u)] + ([Announced(user, |y|, h, v)] + ([AppendChunk(u, x)] + ([AppendChunk(v, y)] + [])))
  }

  /** Both completed, and the first file deleted. */
  function TwinFinish(user: string, u: string, v: string, f: string, g: string): seq<Op> {
    [CompleteUpload(u, 0, f)] + ([CompleteUpload(v, 0, g)] + ([DeleteFile(f, user)] + []))
  }

  /** Both uploads are on disk, under one md5, the first of them by this user. */
  predicate TwinSessions(s: State, user: string, u: string, v: string, h: string) {
    && u != v && Ready(s, u) && Ready(s, v) && s.sessions[u].userId == user
    && s.sessions[u].md5 == h == s.sessions[v].md5
  }

  predicate NewIds(c: Config, s: State, f: string, g: string) {
    f != g && c.proper(f) && c.proper(g) && f !in s.issued && g !in s.issued
  }

  lemma TwinUploads(c: Config, user: string, x: Bytes, y: Bytes, h: string, u: string, v: string)
    requires PathsApart(c) && 0 < |x| <= c.maxFileSize && 0 < |y| <= c.maxFileSize
    requires c.proper(u) && c.proper(v) && u != v
    ensures
      var s := Run(c, EMPTY, TwinStart(user, x, y, h, u, v));
      Inv(c, s) && TwinSessions(s, user, u, v, h) && s.issued == {u, v}
  {
    Announces(c, EMPTY, user, |x|, h, u);
    var s1 := Apply(c, EMPTY, Announced(user, |x|, h, u)).0;
    Announces(c, s1, user, |y|, h, v);
    var s2 := Apply(c, s1, Announced(user, |y|, h, v)).0;
    SendsWhole(c, s2, u, x);
    var s3 := Apply(c, s2, AppendChunk(u, x)).0;
    SendsWhole(c, s3, v, y);
    TwinStartEnds(c, user, x, y, h, u, v);
  }

  lemma TwinStartEnds(c: Config, user: string, x: Bytes, y: Bytes, h: string, u: string, v: string)
    ensures
      var s2 := Apply(c, Apply(c, EMPTY, Announced(user, |x|, h, u)).0, Announced(user, |y|, h, v)).0;
      Run(c, EMPTY, TwinStart(user, x, y, h, u, v)) == Apply(c, Apply(c, s2, AppendChunk(u, x)).0, AppendChunk(v, y)).0
  {
    var s1 := Apply(c, EMPTY, Announced(user, |x|, h, u)).0;
    var s2 := Apply(c, s1, Announced(user, |y|, h, v)).0;
    var r3 := [AppendChunk(v, y)] + [];
    var r2 := [AppendChunk(u, x)] + r3;
    RunCons(c, EMPTY, Announced(user, |x|, h, u), [Announced(user, |y|, h, v)] + r2);
    RunCons(c, s1, Announced(user, |y|, h, v), r2);
    RunCons(c, s2, AppendChunk(u, x), r3);
    RunCons(c, Apply(c, s2, AppendChunk(u, x)).0, AppendChunk(v, y), []);
  }

  lemma CompletionKeepsFile(c: Config, s: State, v: string, g: string, f: string)
    requires Inv(c, s) && f in s.files && Fresh(c, s, CompleteUpload(v, 0, g))
    ensures var t := Apply(c, s, CompleteUpload(v, 0, g)).0; f in t.files && t.files[f] == s.files[f]
  {
    UnusedId(c, s, g);
  }

  /** The file is stored and readable, yet its md5 is not found. */
  ghost predicate HiddenFile(s: State, g: string, h: string) {
    g in s.files && s.files[g].md5 == h && s.files[g].storagePath in s.disk && h !in s.md5Index
  }

  lemma TwinFiles(c: Config, s: State, user: string, u: string, v: string, f: string, g: string, h: string)
    requires Inv(c, s)
    ensures TwinSessions(s, user, u, v, h) && NewIds(c, s, f, g) ==>
      var t := Apply(c, Apply(c, s, CompleteUpload(u, 0, f)).0, CompleteUpload(v, 0, g)).0;
      && Inv(c, t) && f in t.files && g in t.files && t.files[f].md5 == t.files[g].md5 == h
      && t.files[f].uploaderId == user
  {
    if TwinSessions(s, user, u, v, h) && NewIds(c, s, f, g) {
      TwinsArise(c, s, u, v, f, g, 0);
      FirstKeepsUploader(c, s, u, v, f, g);
    }
  }

  lemma FirstKeepsUploader(c: Config, s: State, u: string, v: string, f: string, g: string)
    requires Inv(c, s)
    ensures Ready(s, u) && NewIds(c, s, f, g) ==>
      var t := Apply(c, Apply(c, s, CompleteUpload(u, 0, f)).0, CompleteUpload(v, 0, g)).0;
      f in t.files && t.files[f].uploaderId == s.sessions[u].userId
  {
    if Ready(s, u) && NewIds(c, s, f, g) {
      CompletesAs(c, s, u, f);
      CompletionKeepsFile(c, Apply(c, s, CompleteUpload(u, 0, f)).0, v, g, f);
    }
  }

  lemma TwinsHide(c: Config, s: State, user: string, u: string, v: string, f: string, g: string, h: string)
    requires Inv(c, s) && h != ""
    ensures TwinSessions(s, user, u, v, h) && NewIds(c, s, f, g) ==>
      HiddenFile(Run(c, s, TwinFinish(user, u, v, f, g)), g, h)
  {
    if TwinSessions(s, user, u, v, h) && NewIds(c, s, f, g) {
      TwinFiles(c, s, user, u, v, f, g, h);
      var s1 := Apply(c, s, CompleteUpload(u, 0, f)).0;
      var s2 := Apply(c, s1, CompleteUpload(v, 0, g)).0;
      TwinHidden(c, s2, f, g);
      RunCons(c, s, CompleteUpload(u, 0, f), [CompleteUpload(v, 0, g)] + ([DeleteFile(f, user)] + []));
      RunCons(c, s1, CompleteUpload(v, 0, g), [DeleteFile(f, user)] + []);
      RunCons(c, s2, DeleteFile(f, user), []);
    }
  }

  /** A run from the empty store that hides a stored file from instant upload. */
  lemma TwinRunHides(
      c: Config, user: string, x: Bytes, y: Bytes, h: string, u: string, v: string, f: string, g: string)
    requires PathsApart(c) && h != "" && 0 < |x| <= c.maxFileSize && 0 < |y| <= c.maxFileSize
    requires c.proper(u) && c.proper(v) && c.proper(f) && c.proper(g)
    requires u != v && u != f && u != g && v != f && v != g && f != g
    ensures HiddenFile(Run(c, EMPTY, TwinStart(user, x, y, h, u, v) + TwinFinish(user, u, v, f, g)), g, h)
  {
    TwinUploads(c, user, x, y, h, u, v);
    HidesAfter(c, TwinStart(user, x, y, h, u, v), user, u, v, f, g, h);
  }

  lemma HidesAfter(
      c: Config, start: seq<Op>, user: string, u: string, v: string, f: string, g: string, h: string)
    requires h != ""
    ensures
      var s := Run(c, EMPTY, start);
      Inv(c, s) && TwinSessions(s, user, u, v, h) && NewIds(c, s, f, g) ==>
        HiddenFile(Run(c, EMPTY, start + TwinFinish(user, u, v, f, g)), g, h)
  {
    var s := Run(c, EMPTY, start);
    if Inv(c, s) && TwinSessions(s, user, u, v, h) && NewIds(c, s, f, g) {
      TwinsHide(c, s, user, u, v, f, g, h);
      RunAppend(c, EMPTY, start, TwinFinish(user, u, v, f, g));
    }
  }

  // ---------- an append in two steps ----------

  /** The second half of `AppendChunk`: the session `e` was read and checked before, and other
      calls or the cleanup thread may have run since.  The bytes go to the file in any case; the
      offset, computed from `e`, is stored if the session is still there. */
  ghost function LateWrite(s: State, e: Session, data: Bytes): (State, Outcome) {
    var disk := s.disk[e.tempPath := Held(s.disk, e.tempPath) + data];
    if e.uploadId !in s.sessions then (s.(disk := disk), UploadFailed)
    else
      var e' := s.sessions[e.uploadId].(bytesWritten := e.bytesWritten + |data|);
      (s.(disk := disk, sessions := s.sessions[e.uploadId := e']), Offset(e.bytesWritten + |data|))
  }

  /** A session that was read in `s` and passed the size check. */
  ghost predicate Checked(s: State, e: Session, data: Bytes) {
    e.uploadId in s.sessions && s.sessions[e.uploadId] == e && e.bytesWritten + |data| <= e.fileSize
  }

  /** Without anything in between, the two halves are the append. */
  lemma PromptWriteIsAppend(c: Config, s: State, e: Session, data: Bytes)
    requires Checked(s, e, data)
    ensures LateWrite(s, e, data) == Apply(c, s, AppendChunk(e.uploadId, data))
  {
  }

  lemma LateSession(c: Config, s: State, e: Session, data: Bytes, ops: seq<Op>)
    requires Inv(c, s) && FreshRun(c, s, ops) && Checked(s, e, data)
    ensures var t := Run(c, s, ops);
      && Inv(c, t) && e.tempPath == c.temp(e.uploadId) && c.proper(e.uploadId)
      && (e.uploadId in t.sessions ==>
          t.sessions[e.uploadId] == e.(bytesWritten := t.sessions[e.uploadId].bytesWritten))
  {
    RunKeepsInv(c, s, ops);
    assert SessionOk(c, s, e.uploadId);
    if e.uploadId in Run(c, s, ops).sessions { SessionHoldsAccepted(c, s, ops, e.uploadId); }
  }

  lemma LateOrphan(c: Config, t: State, e: Session, data: Bytes)
    requires Inv(c, t) && e.tempPath == c.temp(e.uploadId) && c.proper(e.uploadId)
    ensures NoOrphans(c, LateWrite(t, e, data).0) <==> e.uploadId in t.sessions
  {
    var t', path := LateWrite(t, e, data).0, c.temp(e.uploadId);
    if e.uploadId in t.sessions {
      assert Owned(c, t', path);
      NoOrphansMore(c, t, t');
    } else {
      assert path in t'.disk;
      assert !Owned(c, t', path) by { assert forall f :: f in t.files ==> FileOk(c, t, f); }
    }
  }

  /** A file that no session owns is left behind if and only if the session was completed or
      cleaned up between the two halves. */
  lemma OrphanExact(c: Config, s: State, e: Session, data: Bytes, ops: seq<Op>)
    requires Inv(c, s) && FreshRun(c, s, ops) && Checked(s, e, data)
    ensures NoOrphans(c, LateWrite(Run(c, s, ops), e, data).0) <==> e.uploadId in Run(c, s, ops).sessions
  {
    LateSession(c, s, e, data, ops);
    LateOrphan(c, Run(c, s, ops), e, data);
  }

  lemma StaleOffset(c: Config, t: State, e: Session, data: Bytes)
    requires Inv(c, t) && e.tempPath == c.temp(e.uploadId) && e.uploadId in t.sessions
    requires t.sessions[e.uploadId].bytesWritten != e.bytesWritten
    ensures !SessionsOk(c, LateWrite(t, e, data).0)
  {
    assert SessionOk(c, t, e.uploadId);
    assert !SessionOk(c, LateWrite(t, e, data).0, e.uploadId);
  }

  lemma TimelyWrite(c: Config, t: State, e: Session, data: Bytes)
    requires Inv(c, t) && Checked(t, e, data)
    ensures Inv(c, LateWrite(t, e, data).0)
  {
    AppendKeeps(c, t, AppendChunk(e.uploadId, data));
    PromptWriteIsAppend(c, t, e, data);
  }

  /** All that runs keep survives the split if and only if the session is still there with no
      bytes added in between. */
  lemma LateWriteExact(c: Config, s: State, e: Session, data: Bytes, ops: seq<Op>)
    requires Inv(c, s) && FreshRun(c, s, ops) && Checked(s, e, data)
    ensures var t := Run(c, s, ops);
      Inv(c, LateWrite(t, e, data).0) <==>
        e.uploadId in t.sessions && t.sessions[e.uploadId].bytesWritten == e.bytesWritten
  {
    var t := Run(c, s, ops);
    LateSession(c, s, e, data, ops);
    LateWriteAt(c, t, e, data);
  }

  lemma LateWriteAt(c: Config, t: State, e: Session, data: Bytes)
    requires Inv(c, t) && e.tempPath == c.temp(e.uploadId) && c.proper(e.uploadId)
        && e.bytesWritten + |data| <= e.fileSize
    requires e.uploadId in t.sessions ==>
        t.sessions[e.uploadId] == e.(bytesWritten := t.sessions[e.uploadId].bytesWritten)
    ensures Inv(c, LateWrite(t, e, data).0)
        <==> e.uploadId in t.sessions && t.sessions[e.uploadId].bytesWritten == e.bytesWritten
  {
    if e.uploadId !in t.sessions {
      LateOrphan(c, t, e, data);
    } else if t.sessions[e.uploadId].bytesWritten != e.bytesWritten {
      StaleOffset(c, t, e, data);
    } else {
      TimelyWrite(c, t, e, data);
    }
  }

  /** The cleanup thread runs between the halves of an append to an expired session. */
  lemma CleanupRace(c: Config, s: State, e: Session, data: Bytes)
    requires Inv(c, s) && Checked(s, e, data)
    ensures var t := Apply(c, s, CleanupExpiredSessions(e.expireAt)).0;
      !NoOrphans(c, LateWrite(t, e, data).0) && LateWrite(t, e, data).1 == UploadFailed
  {
    StepKeepsInv(c, s, CleanupExpiredSessions(e.expireAt));
    assert SessionOk(c, s, e.uploadId);
    LateOrphan(c, Apply(c, s, CleanupExpiredSessions(e.expireAt)).0, e, data);
  }
}
