/** `LocalFsProvider` of `server/src/storage/local_fs.rs` run without interference:
    each operation is the sequence of file-system changes of the source, any of which
    may fail, and is specified by when it succeeds and what it does to the block map. */
module LocalFs {
  import opened Prelude
  import opened BlockNames
  import opened FileSystem

  datatype StorageError = NotFound | Backend

  /** Which system calls of one operation fail. A `space` of `Some(n)` lets `n` bytes be
      written, and a `readable` of `Some(n)` lets `n` bytes be read, before a call fails. */
  datatype PutFaults = PutFaults(dirs: bool, create: bool, space: Option<nat>, sync: bool, rename: bool, unlink: bool)

  datatype GetFaults = GetFaults(open: bool, readable: Option<nat>)

  const NO_PUT_FAULTS: PutFaults := PutFaults(false, false, None, false, false, false)

  const NO_GET_FAULTS: GetFaults := GetFaults(false, None)

  predicate Fits(limit: Option<nat>, size: nat) { limit.None? || size <= limit.value }

  /** Whether no call that a put of `size` bytes makes fails before the temporary file has
      its name. */
  predicate PutUnharmed(faults: PutFaults, size: nat) {
    !faults.dirs && !faults.create && Fits(faults.space, size) && !faults.sync && !faults.rename
  }

  class LocalFsProvider {
    const root: Path
    var fs: Fs

    ghost predicate Valid()
      reads this
    {
      WellFormed(fs)
    }

    ghost function Blocks(): (blocks: FileSystem.Blocks)
      requires Valid()
      reads this
    {
      Visible(root, fs)
    }

    /** Whether the name drawn for a temporary file is in use. */
    ghost predicate NameTaken(id: Option<BlockId>, random: string)
      reads this
    {
      id.Some? && ValidId(id.value) && TempPath(root, id.value, random) in fs.names
    }

    constructor (root: Path, fs: Fs)
      requires WellFormed(fs)
      ensures Valid() && this.root == root && this.fs == fs
    {
      this.root := root;
      this.fs := fs;
    }

    /** The name is removed on drop; a failure to remove it is ignored. */
    method DropTemp(id: BlockId, random: string, faults: PutFaults)
      requires Valid() && ValidId(id)
      modifies this
      ensures Valid() && Blocks() == old(Blocks())
      ensures fs == if faults.unlink then old(fs) else Unlink(old(fs), TempPath(root, id, random))
    {
      if !faults.unlink {
        UnlinkTempKeepsVisible(root, fs, id, random);
        fs := Unlink(fs, TempPath(root, id, random));
      }
    }

    /** `random` is the name chosen by `tempfile`, a taken name counting as a failure. A put
        succeeds exactly when none of its calls fails. */
    method RunPut(id: BlockId, payload: Bytes, random: string, faults: PutFaults) returns (r: Result<(), StorageError>)
      requires Valid() && ValidId(id)
      modifies this
      ensures Valid()
      ensures r.Ok? <==> PutUnharmed(faults, |payload|) && TempPath(root, id, random) !in old(fs.names)
      ensures r.Err? ==> r.error == Backend
      ensures Blocks() == if r.Ok? then old(Blocks())[id := payload] else old(Blocks())
      ensures r.Ok? ==> fs.names.Keys == old(fs.names.Keys) + {BlockPath(root, id)}
      ensures r.Err? ==>
                fs.names.Keys - {TempPath(root, id, random)} == old(fs.names.Keys) - {TempPath(root, id, random)}
    {
      hide BlockPath, TempPath, ValidId, Visible;
      var dst, tmp := BlockPath(root, id), TempPath(root, id, random);
      if faults.dirs {
        return Err(Backend);
      }
      SameFilesSameBlocks(root, fs, MakeShard(fs, root, id));
      fs := MakeShard(fs, root, id);
      if faults.create || tmp in fs.names {
        return Err(Backend);
      }
      CreateKeepsVisible(root, fs, id, random);
      CreatePublishesNothing(root, fs, id, random, fs.next);
      ghost var names := fs.names;
      var inode := fs.next;
      fs := CreateExclusive(fs, tmp);
      var written := WriteAll(id, payload, random, inode, faults.space);
      if !written || faults.sync {
        DropTemp(id, random, faults);
        return Err(Backend);
      }
      if faults.rename {
        DropTemp(id, random, faults);
        return Err(Backend);
      }
      RenamePublishes(root, fs, id, random);
      ScratchNamesAreNoBlocks(root, id, id, random);
      assert fs.data[fs.names[tmp]] == payload;
      fs := Rename(fs, tmp, dst);
      assert fs.names.Keys == names.Keys + {dst};
      return Ok(());
    }

    /** `write_all`: writes of any size until the payload is complete or one fails. */
    method WriteAll(id: BlockId, payload: Bytes, random: string, inode: Inode, space: Option<nat>)
      returns (complete: bool)
      requires Valid() && ValidId(id) && inode in fs.data && fs.data[inode] == []
      requires !Published(root, fs, inode)
      modifies this
      ensures Valid() && Blocks() == old(Blocks())
      ensures fs.names == old(fs.names) && fs.data.Keys == old(fs.data.Keys)
      ensures complete <==> Fits(space, |payload|)
      ensures complete ==> fs.data[inode] == payload
    {
      hide BlockPath, TempPath, ValidId, Visible;
      var n := 0;
      while n < |payload|
        invariant 0 <= n <= |payload| && Fits(space, n)
        invariant Valid() && Visible(root, fs) == old(Blocks())
        invariant fs.names == old(fs.names) && fs.data.Keys == old(fs.data.Keys)
        invariant fs.data[inode] == payload[..n]
        invariant !Published(root, fs, inode)
      {
        if space == Some(n) {
          return false;
        }
        var upTo :| n < upTo <= |payload| && Fits(space, upTo);
        AppendKeepsVisible(root, fs, inode, payload[n..upTo]);
        SameNamesPublishSame(root, fs, Append(fs, inode, payload[n..upTo]), inode);
        assert payload[..n] + payload[n..upTo] == payload[..upTo];
        fs := Append(fs, inode, payload[n..upTo]);
        n := upTo;
      }
      return true;
    }

    /** `tokio::fs::read`: open, then reads of any size up to the end of the file. */
    method Get(id: BlockId, faults: GetFaults) returns (r: Result<Bytes, StorageError>)
      requires Valid() && ValidId(id)
      ensures r == Err(Backend) <==> faults.open || (id in Blocks() && !Fits(faults.readable, |Blocks()[id]|))
      ensures r == Err(NotFound) <==> !faults.open && id !in Blocks()
      ensures r.Ok? ==> r.value == Blocks()[id]
    {
      var path := BlockPath(root, id);
      if faults.open {
        return Err(Backend);
      }
      if path !in fs.names {
        return Err(NotFound);
      }
      var inode := fs.names[path];
      var buffer: Bytes := [];
      while |buffer| < |fs.data[inode]|
        invariant buffer <= fs.data[inode] && Fits(faults.readable, |buffer|)
        decreases |fs.data[inode]| - |buffer|
      {
        if faults.readable == Some(|buffer|) {
          return Err(Backend);
        }
        var upTo :| |buffer| < upTo <= |fs.data[inode]| && Fits(faults.readable, upTo);
        buffer := buffer + fs.data[inode][|buffer|..upTo];
      }
      return Ok(buffer);
    }

    /** Removing an absent block succeeds. */
    method Delete(id: BlockId, fails: bool) returns (r: Result<(), StorageError>)
      requires Valid() && ValidId(id)
      modifies this
      ensures Valid()
      ensures r == if fails then Err(Backend) else Ok(())
      ensures Blocks() == if fails then old(Blocks()) else old(Blocks()) - {id}
    {
      if fails {
        return Err(Backend);
      }
      UnlinkRemoves(root, fs, id);
      fs := Unlink(fs, BlockPath(root, id));
      return Ok(());
    }

    method Exists(id: BlockId, fails: bool) returns (r: Result<bool, StorageError>)
      requires Valid() && ValidId(id)
      ensures r == if fails then Err(Backend) else Ok(id in Blocks())
    {
      return if fails then Err(Backend) else Ok(BlockPath(root, id) in fs.names);
    }
  }

  lemma SameFilesSameBlocks(root: Path, fs: Fs, after: Fs)
    requires WellFormed(fs) && after.names == fs.names && after.data == fs.data && after.next == fs.next
    ensures WellFormed(after) && Visible(root, after) == Visible(root, fs)
  {
  }
}
