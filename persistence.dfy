/** `save_memory` and `load_memory` over an abstract file system: a map from
    path to content, where a missing path is a missing file. JSON encoding
    and decoding are an abstract codec whose decoder may reject a text. */
module Persistence {
  import opened Values

  /** The whole record set: user id to dumped record. */
  type Snapshot = map<string, Doc>

  datatype Path =
    | MemoryFile                      // memory.json, the canonical file
    | BackupFile                      // memory_backup.json, the fixed-name backup
    | TempFile                        // the temporary file of a save in progress
    | TimestampedBackup(ts: string)   // memory_backup_<ts>.json

  type FileSystem = map<Path, string>

  /** `json.dump` and `json.load`; `parse` yields None on a decode error. */
  datatype Codec = Codec(encode: Snapshot -> string, parse: string -> Option<Snapshot>)

  /** Every snapshot reads back as itself. */
  ghost predicate RoundTrips(codec: Codec) {
    forall s :: codec.parse(codec.encode(s)) == Some(s)
  }

  /** The step at which a save attempt raises, if any. */
  datatype SaveFault =
    | NoFault
    | TempCreateFails   // the temporary file cannot be created
    | WriteFails        // dump, flush or fsync of the temporary file raises
    | ReplaceFails      // the rename over the canonical file raises

  /** Whether a read of the canonical file raises something other than a
      decode error (which `load_memory` turns into an empty store). */
  datatype ReadFault = NoReadFault | ReadFails

  /** The decode error that escapes `load_memory`: the backup it restored
      does not parse either. */
  datatype LoadError = RestoredCopyUnreadable

  /** The files after `save_memory`, and whether it returned normally. */
  function SavedFiles(fs: FileSystem, data: Snapshot, codec: Codec, fault: SaveFault): (FileSystem, bool) {
    var rotated := if MemoryFile in fs then fs[BackupFile := fs[MemoryFile]] else fs;
    if fault == NoFault then (rotated[MemoryFile := codec.encode(data)], true) else (rotated, false)
  }

  /** The files after `load_memory`, and what it returns or raises. */
  function LoadedFiles(fs: FileSystem, codec: Codec, readFault: ReadFault): (FileSystem, Result<Snapshot, LoadError>) {
    if MemoryFile !in fs then
      (fs, Ok(map[]))
    else if readFault == ReadFails then
      (fs, Ok(map[]))
    else
      match codec.parse(fs[MemoryFile])
      case Some(data) => (fs, Ok(data))
      case None =>
        if BackupFile in fs then
          var restored := fs[MemoryFile := fs[BackupFile]];
          match codec.parse(fs[BackupFile])
          case Some(data) => (restored, Ok(data))
          case None => (restored, Err(RestoredCopyUnreadable))
        else
          (fs, Ok(map[]))
  }

  /** The directory the service writes into. */
  class FileStore {
    var files: FileSystem
    const codec: Codec

    /** No temporary file outlives a save. */
    ghost predicate Valid()
      reads this
    {
      TempFile !in files
    }

    constructor (files: FileSystem, codec: Codec)
      requires TempFile !in files
      ensures Valid()
      ensures this.files == files && this.codec == codec
    {
      this.files := files;
      this.codec := codec;
    }

    /** `save_memory`: rotate the backup, write a temporary file, rename it
        over the canonical file; on a failure remove the temporary file and
        report it (the source re-raises). */
    method Save(data: Snapshot, fault: SaveFault) returns (ok: bool)
      requires Valid()
      modifies this
      ensures Valid()
      ensures (files, ok) == SavedFiles(old(files), data, codec, fault)
    {
      if MemoryFile in files {
        files := files[BackupFile := files[MemoryFile]];
      }
      ghost var rotated := files;
      if fault == TempCreateFails {
        return false;
      }
      files := files[TempFile := codec.encode(data)];
      if fault == WriteFails || fault == ReplaceFails {
        files := files - {TempFile};
        assert files == rotated;
        return false;
      }
      files := files[MemoryFile := files[TempFile]] - {TempFile};
      assert files == rotated[MemoryFile := codec.encode(data)];
      ok := true;
    }

    /** `load_memory`: a missing file or an unexpected read error gives an
        empty store; a corrupt file is restored from the backup when there
        is one, and the restored copy is parsed. */
    method Load(readFault: ReadFault) returns (r: Result<Snapshot, LoadError>)
      requires Valid()
      modifies this
      ensures Valid()
      ensures (files, r) == LoadedFiles(old(files), codec, readFault)
    {
      if MemoryFile !in files {
        return Ok(map[]);
      }
      if readFault == ReadFails {
        return Ok(map[]);
      }
      var parsed := codec.parse(files[MemoryFile]);
      if parsed.Some? {
        return Ok(parsed.value);
      }
      if BackupFile !in files {
        return Ok(map[]);
      }
      files := files[MemoryFile := files[BackupFile]];
      parsed := codec.parse(files[MemoryFile]);
      if parsed.Some? {
        return Ok(parsed.value);
      }
      return Err(RestoredCopyUnreadable);
    }

    /** The incremental backup of `safe_save_memory`: copy the canonical
        file, if there is one, to a timestamped name. */
    method CopyToTimestampedBackup(ts: string)
      requires Valid()
      modifies this
      ensures Valid()
      ensures files == TimestampedCopy(old(files), ts)
    {
      if MemoryFile in files {
        files := files[TimestampedBackup(ts) := files[MemoryFile]];
      }
    }
  }

  function TimestampedCopy(fs: FileSystem, ts: string): FileSystem {
    if MemoryFile in fs then fs[TimestampedBackup(ts) := fs[MemoryFile]] else fs
  }

  /** A successful save makes the previous canonical content the backup and
      the new snapshot the canonical content, and touches nothing else. */
  lemma SaveRotatesBackup(fs: FileSystem, data: Snapshot, codec: Codec)
    ensures var (after, ok) := SavedFiles(fs, data, codec, NoFault);
            && ok
            && after[MemoryFile] == codec.encode(data)
            && (MemoryFile in fs ==> BackupFile in after && after[BackupFile] == fs[MemoryFile])
            && (MemoryFile !in fs ==> (BackupFile in after <==> BackupFile in fs))
            && (MemoryFile !in fs && BackupFile in fs ==> after[BackupFile] == fs[BackupFile])
            && forall p :: p != MemoryFile && p != BackupFile ==> (p in after <==> p in fs) && (p in fs ==> after[p] == fs[p])
  {
  }

  /** A failed save leaves the canonical file exactly as it was. */
  lemma FailedSaveKeepsCanonical(fs: FileSystem, data: Snapshot, codec: Codec, fault: SaveFault)
    requires fault != NoFault
    ensures var (after, ok) := SavedFiles(fs, data, codec, fault);
            && !ok
            && (MemoryFile in after <==> MemoryFile in fs)
            && (MemoryFile in fs ==> after[MemoryFile] == fs[MemoryFile])
            && (TempFile in after <==> TempFile in fs)
  {
  }

  /** What a successful save wrote is what the next load returns. */
  lemma SaveThenLoad(fs: FileSystem, data: Snapshot, codec: Codec)
    requires RoundTrips(codec)
    ensures var after := SavedFiles(fs, data, codec, NoFault).0;
            LoadedFiles(after, codec, NoReadFault) == (after, Ok(data))
  {
  }

  /** A failed save does not change what the next load returns, as long as
      the canonical file was readable before it. */
  lemma FailedSaveThenLoad(fs: FileSystem, data: Snapshot, codec: Codec, fault: SaveFault)
    requires fault != NoFault
    requires MemoryFile in fs ==> codec.parse(fs[MemoryFile]).Some?
    ensures LoadedFiles(SavedFiles(fs, data, codec, fault).0, codec, NoReadFault).1
         == LoadedFiles(fs, codec, NoReadFault).1
  {
  }

  /** A failed save still copies the canonical file over the backup, so a
      corrupt canonical file that the backup could have repaired becomes a
      load that raises: the recovery copy is gone. */
  lemma FailedSaveDestroysRecoveryCopy(fs: FileSystem, data: Snapshot, codec: Codec, fault: SaveFault)
    requires fault != NoFault
    requires MemoryFile in fs && codec.parse(fs[MemoryFile]).None?
    ensures BackupFile in fs && codec.parse(fs[BackupFile]).Some?
            ==> LoadedFiles(fs, codec, NoReadFault).1 == Ok(codec.parse(fs[BackupFile]).value)
    ensures LoadedFiles(SavedFiles(fs, data, codec, fault).0, codec, NoReadFault).1 == Err(RestoredCopyUnreadable)
  {
  }

  /** A corrupt canonical file is repaired from a readable backup, and the
      backup's snapshot is returned. */
  lemma CorruptFileRestoredFromBackup(fs: FileSystem, codec: Codec, data: Snapshot)
    requires MemoryFile in fs && codec.parse(fs[MemoryFile]).None?
    requires BackupFile in fs && codec.parse(fs[BackupFile]) == Some(data)
    ensures var (after, r) := LoadedFiles(fs, codec, NoReadFault);
            r == Ok(data) && after[MemoryFile] == fs[BackupFile]
  {
  }

  /** With no canonical file, or a corrupt one and no backup, the store
      starts empty and no file changes. */
  lemma LoadStartsEmpty(fs: FileSystem, codec: Codec)
    requires MemoryFile !in fs || (codec.parse(fs[MemoryFile]).None? && BackupFile !in fs)
    ensures LoadedFiles(fs, codec, NoReadFault) == (fs, Ok(map[]))
  {
  }
}
