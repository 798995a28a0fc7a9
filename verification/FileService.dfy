/**
 FileServiceCore over RocksDBFileStore and the local disk, step by step.
 */
module FileService {
  import opened OrderedKeys
  import opened FileModel

  function KeyFile(id: string): string { "file:" + id }
  function KeyMd5(h: string): string { "file_md5:" + h }
  function KeyUpload(u: string): string { "upload:" + u }

  function AllKeys(files: set<string>, md5s: set<string>, uploads: set<string>): set<string> {
    (set f | f in files :: KeyFile(f)) + (set h | h in md5s :: KeyMd5(h)) + (set u | u in uploads :: KeyUpload(u))
  }

  lemma UploadKeys(files: set<string>, md5s: set<string>, uploads: set<string>, x: string)
    ensures "upload:" + x in AllKeys(files, md5s, uploads) <==> x in uploads
  {
    var key := KeyUpload(x);
    assert key[0] == 'u' && key[7..] == x;
    forall f ensures KeyFile(f) != key { assert KeyFile(f)[0] == 'f'; }
    forall h ensures KeyMd5(h) != key { assert KeyMd5(h)[0] == 'f'; }
    forall u | KeyUpload(u) == key ensures u == x { assert KeyUpload(u)[7..] == u; }
  }

  /** What remains once the sessions `done` have been looked at. */
  function CleanedSessions(sessions: map<string, Session>, done: set<string>, now: int): map<string, Session> {
    map u | u in sessions && (u in done ==> !Expired(sessions[u], now)) :: sessions[u]
  }

  function CleanedPaths(sessions: map<string, Session>, done: set<string>, now: int): set<string> {
    set u | u in sessions && u in done && Expired(sessions[u], now) :: sessions[u].tempPath
  }

  function IdsOf(list: seq<Session>, n: nat): set<string>
    requires n <= |list|
  {
    set i | 0 <= i < n :: list[i].uploadId
  }

  lemma CleanedStep(sessions: map<string, Session>, list: seq<Session>, n: nat, now: int)
    requires n < |list| && list[n].uploadId in sessions && sessions[list[n].uploadId] == list[n]
    ensures CleanedSessions(sessions, IdsOf(list, n + 1), now)
         == if Expired(list[n], now) then CleanedSessions(sessions, IdsOf(list, n), now) - {list[n].uploadId}
            else CleanedSessions(sessions, IdsOf(list, n), now)
    ensures CleanedPaths(sessions, IdsOf(list, n + 1), now)
         == CleanedPaths(sessions, IdsOf(list, n), now) + (if Expired(list[n], now) then {list[n].tempPath} else {})
  {
    assert IdsOf(list, n + 1) == IdsOf(list, n) + {list[n].uploadId};
  }

  lemma AllListed(c: Config, s: State, list: seq<Session>)
    requires SessionsOk(c, s) && forall e: Session :: e.uploadId in s.sessions && s.sessions[e.uploadId] == e ==>
        e in list
    ensures s.sessions.Keys <= IdsOf(list, |list|)
  {
    forall u | u in s.sessions ensures u in IdsOf(list, |list|) {
      assert SessionOk(c, s, u) && s.sessions[u] in list;
    }
  }

  lemma AllCleaned(sessions: map<string, Session>, done: set<string>, now: int)
    requires sessions.Keys <= done
    ensures CleanedSessions(sessions, done, now) == LiveSessions(sessions, now)
    ensures CleanedPaths(sessions, done, now) == ExpiredPaths(sessions, now)
  {
  }

  lemma StepIsValid(c: Config, s: State, op: Op)
    requires Inv(c, s) && Fresh(c, s, op)
    ensures Inv(c, Apply(c, s, op).0)
  {
    StepKeepsInv(c, s, op);
  }

  class FileServiceCore {
    const config: Config
    var files: map<string, FileMeta>
    var md5Index: map<string, string>
    var sessions: map<string, Session>
    var disk: map<string, Bytes>
    ghost var issued: set<string>

    ghost function Tables(): State
      reads this
    {
      State(files, md5Index, sessions, disk, issued)
    }

    ghost predicate Valid()
      reads this
    {
      Inv(config, Tables())
    }

    constructor (storage: string, maxFileSize: int, sessionSeconds: int)
      ensures Valid() && Tables() == EMPTY && config == Configured(storage, maxFileSize, sessionSeconds)
    {
      config := Configured(storage, maxFileSize, sessionSeconds);
      files, md5Index, sessions, disk, issued := map[], map[], map[], map[], {};
      new;
      PathsNeverClash(storage, maxFileSize, sessionSeconds);
    }

    /** An md5 on record answers at once with the stored file; otherwise a session is opened. */
    method InitUpload(user: string, name: string, contentType: string, size: int, md5: string, now: int, newId: string)
      returns (out: Outcome)
      requires Valid() && Fresh(config, Tables(), FileModel.InitUpload(user, name, contentType, size, md5, now, newId))
      modifies this
      ensures Valid()
      ensures (Tables(), out) == Apply(config, old(Tables()),
          FileModel.InitUpload(user, name, contentType, size, md5, now, newId))
    {
      StepIsValid(config, Tables(), FileModel.InitUpload(user, name, contentType, size, md5, now, newId));
      if size <= 0 || size > config.maxFileSize { return FileTooLarge; }
      if md5 != "" && md5 in md5Index {
        var id := md5Index[md5];
        if id != "" && id in files { return Existing(files[id].fileId); }
      }
      Open(user, name, contentType, size, md5, now, newId);
      return Started(newId);
    }

    method Open(user: string, name: string, contentType: string, size: int, md5: string, now: int, newId: string)
      modifies this`sessions, this`issued
      ensures Tables() == Opened(config, old(Tables()),
          FileModel.InitUpload(user, name, contentType, size, md5, now, newId))
    {
      var session := Session(newId, user, name, contentType, size, md5, config.temp(newId), 0,
          now + config.sessionSeconds);
      sessions := sessions[newId := session];
      issued := issued + {newId};
    }

    /** The offset from which a sender resumes is the number of bytes on disk. */
    method GetUploadState(uploadId: string) returns (found: bool, offset: int, fileSize: int, expireAt: int)
      requires Valid()
      ensures found <==> uploadId in sessions
      ensures found ==> fileSize == sessions[uploadId].fileSize && expireAt == sessions[uploadId].expireAt
      ensures found ==> offset == |Held(disk, config.temp(uploadId))| <= fileSize
    {
      if uploadId !in sessions { return false, 0, 0, 0; }
      assert SessionOk(config, Tables(), uploadId);
      return true, sessions[uploadId].bytesWritten, sessions[uploadId].fileSize, sessions[uploadId].expireAt;
    }

    method AppendChunk(uploadId: string, data: Bytes) returns (out: Outcome)
      requires Valid()
      modifies this
      ensures Valid() && (Tables(), out) == Apply(config, old(Tables()), FileModel.AppendChunk(uploadId, data))
    {
      StepIsValid(config, Tables(), FileModel.AppendChunk(uploadId, data));
      if uploadId !in sessions { return FileExpired; }
      var s := sessions[uploadId];
      if s.bytesWritten + |data| > s.fileSize { return InvalidParam; }
      out := Write(uploadId, data);
    }

    /** The bytes go to the temporary file, then the offset to the session row. */
    method Write(uploadId: string, data: Bytes) returns (out: Outcome)
      requires uploadId in sessions
      modifies this`disk, this`sessions
      ensures Tables() == Appended(old(Tables()), FileModel.AppendChunk(uploadId, data))
      ensures out == Offset(sessions[uploadId].bytesWritten)
    {
      var s := sessions[uploadId];
      AppendToFile(s.tempPath, data);
      var offset := s.bytesWritten + |data|;
      sessions := sessions[uploadId := s.(bytesWritten := offset)];
      return Offset(offset);
    }

    /** Opening for append creates the file when it is missing. */
    method AppendToFile(path: string, data: Bytes)
      modifies this`disk
      ensures disk == old(disk)[path := Held(old(disk), path) + data]
    {
      if path !in disk { disk := disk[path := []]; }
      disk := disk[path := disk[path] + data];
    }

    /** Renames the temporary file, saves the record and drops the session. */
    method CompleteUpload(uploadId: string, now: int, newId: string) returns (out: Outcome)
      requires Valid() && Fresh(config, Tables(), FileModel.CompleteUpload(uploadId, now, newId))
      modifies this
      ensures Valid() && (Tables(), out) == Apply(config, old(Tables()), FileModel.CompleteUpload(uploadId, now, newId))
    {
      StepIsValid(config, Tables(), FileModel.CompleteUpload(uploadId, now, newId));
      if uploadId !in sessions { return FileExpired; }
      var s := sessions[uploadId];
      if s.bytesWritten != s.fileSize { return UploadIncomplete; }
      assert SessionOk(config, Tables(), uploadId);
      var path := config.final(newId);
      disk := (disk - {s.tempPath})[path := disk[s.tempPath]];
      issued := issued + {newId};
      Save(FileMeta(newId, s.fileName, s.contentType, s.fileSize, s.md5, s.userId, path, now));
      sessions := sessions - {uploadId};
      return Stored(newId);
    }

    method Upload(user: string, name: string, contentType: string, data: Bytes, now: int, newId: string)
      returns (out: Outcome)
      requires Valid() && Fresh(config, Tables(), FileModel.Upload(user, name, contentType, data, now, newId))
      modifies this
      ensures Valid()
      ensures (Tables(), out) == Apply(config, old(Tables()),
          FileModel.Upload(user, name, contentType, data, now, newId))
    {
      StepIsValid(config, Tables(), FileModel.Upload(user, name, contentType, data, now, newId));
      if |data| > config.maxFileSize { return FileTooLarge; }
      var path := config.final(newId);
      disk := disk[path := data];
      issued := issued + {newId};
      Save(FileMeta(newId, name, contentType, |data|, "", user, path, now));
      return Stored(newId);
    }

    /** The record and, when it has an md5, the index entry, in one batch. */
    method Save(m: FileMeta)
      modifies this`files, this`md5Index
      ensures Tables() == SaveMeta(old(Tables()), m)
    {
      files := files[m.fileId := m];
      if m.md5 != "" { md5Index := md5Index[m.md5 := m.fileId]; }
    }

    method DeleteFile(fileId: string, user: string) returns (out: Outcome)
      requires Valid()
      modifies this
      ensures Valid() && (Tables(), out) == Apply(config, old(Tables()), FileModel.DeleteFile(fileId, user))
    {
      StepIsValid(config, Tables(), FileModel.DeleteFile(fileId, user));
      if fileId !in files { return Refused; }
      var m := files[fileId];
      if m.uploaderId != user { return Refused; }
      files := files - {fileId};
      if m.md5 != "" { md5Index := md5Index - {m.md5}; }
      disk := disk - {m.storagePath};
      return Finished;
    }

    /** The file's bytes between two bounds clamped to the file, unless the end of the range
        leaves the 64-bit integers. */
    method ReadFileRange(fileId: string, offset: int, length: int) returns (r: Read)
      requires Valid()
      ensures fileId !in files <==> r == NotFound
      ensures fileId in files ==> files[fileId].storagePath in disk
      ensures fileId in files ==>
        files[fileId].fileSize == |disk[files[fileId].storagePath]|
        && r == ReadOf(files[fileId], disk[files[fileId].storagePath], offset, length)
    {
      if fileId !in files { return NotFound; }
      assert FileOk(config, Tables(), fileId);
      r := ReadPart(files[fileId], disk[files[fileId].storagePath], offset, length);
    }

    /** Clamps the range to the file and reads it. */
    method ReadPart(m: FileMeta, content: Bytes, offset: int, length: int) returns (r: Read)
      requires m.fileSize == |content|
      ensures r == ReadOf(m, content, offset, length)
    {
      var from := offset;
      if from < 0 { from := 0; }
      if from >= m.fileSize { return Data([], m); }
      var readLen := if length < 0 then m.fileSize - from else length;
      if 0 <= length && from + readLen > MAX_INT64 { return Overflow; }
      if from + readLen > m.fileSize { readLen := m.fileSize - from; }
      return Data(content[from..from + readLen], m);
    }

    method ReadFile(fileId: string) returns (r: Read)
      requires Valid()
      ensures fileId !in files <==> r == NotFound
      ensures fileId in files ==>
        && files[fileId].storagePath in disk && files[fileId].fileSize == |disk[files[fileId].storagePath]|
        && r == Data(disk[files[fileId].storagePath], files[fileId])
    {
      if fileId !in files { return NotFound; }
      assert FileOk(config, Tables(), fileId);
      return Data(disk[files[fileId].storagePath], files[fileId]);
    }

    /** All sessions, each once, in key order. */
    method ListAllUploadSessions() returns (result: seq<Session>)
      requires Valid()
      ensures forall s: Session :: s in result <==> s.uploadId in sessions && sessions[s.uploadId] == s
      ensures forall i, j :: 0 <= i < j < |result| ==> Less(result[i].uploadId, result[j].uploadId)
    {
      var ids := UploadIds();
      result := [];
      for n := 0 to |ids|
        invariant |result| == n
        invariant forall i :: 0 <= i < n ==> result[i] == sessions[ids[i]]
      {
        result := result + [sessions[ids[n]]];
      }
      forall s: Session | s.uploadId in sessions && sessions[s.uploadId] == s ensures s in result {
        assert s.uploadId in ids;
        var i :| 0 <= i < |ids| && ids[i] == s.uploadId;
        assert result[i] == s;
      }
    }

    method UploadIds() returns (ids: seq<string>)
      requires Valid()
      ensures StrictlySorted(ids) && forall u :: u in ids <==> u in sessions
      ensures forall i :: 0 <= i < |ids| ==> ids[i] in sessions && sessions[ids[i]].uploadId == ids[i]
    {
      var keys := AllKeys(files.Keys, md5Index.Keys, sessions.Keys);
      ids := CollectSuffixes(keys, "upload:");
      forall x ensures "upload:" + x in keys <==> x in sessions
      {
        UploadKeys(files.Keys, md5Index.Keys, sessions.Keys, x);
      }
      forall u | u in sessions ensures u != "" && sessions[u].uploadId == u { assert SessionOk(config, Tables(), u); }
      forall i | 0 <= i < |ids| ensures ids[i] in sessions && sessions[ids[i]].uploadId == ids[i]
      {
        assert ids[i] in ids;
      }
    }

    /** Drops every expired session with its temporary file, and nothing else. */
    method CleanupExpiredSessions(now: int)
      requires Valid()
      modifies this
      ensures Valid() && Tables() == Apply(config, old(Tables()), FileModel.CleanupExpiredSessions(now)).0
    {
      ghost var s := Tables();
      Sweep(now);
      assert Tables() == Cleaned(s, now);
      StepIsValid(config, s, FileModel.CleanupExpiredSessions(now));
    }

    method Sweep(now: int)
      requires Valid()
      modifies this`sessions, this`disk
      ensures sessions == LiveSessions(old(sessions), now) && disk == old(disk) - ExpiredPaths(old(sessions), now)
    {
      var list := ListAllUploadSessions();
      AllListed(config, Tables(), list);
      AllCleaned(sessions, IdsOf(list, |list|), now);
      DropExpired(list, now);
    }

    /** One pass over the listed sessions. */
    method DropExpired(list: seq<Session>, now: int)
      requires forall s :: s in list ==> s.uploadId in sessions && sessions[s.uploadId] == s
      modifies this`sessions, this`disk
      ensures sessions == CleanedSessions(old(sessions), IdsOf(list, |list|), now)
      ensures disk == old(disk) - CleanedPaths(old(sessions), IdsOf(list, |list|), now)
    {
      for n := 0 to |list|
        invariant sessions == CleanedSessions(old(sessions), IdsOf(list, n), now)
        invariant disk == old(disk) - CleanedPaths(old(sessions), IdsOf(list, n), now)
      {
        var s := list[n];
        assert s in list;
        CleanedStep(old(sessions), list, n, now);
        if s.expireAt <= now {
          if s.tempPath in disk { disk := disk - {s.tempPath}; }
          sessions := sessions - {s.uploadId};
        }
      }
    }
  }
}
