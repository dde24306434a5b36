/** The part of a POSIX file system that `server/src/storage/local_fs.rs` relies on:
    names, inodes and bytes, with exclusive create, append, rename and unlink as
    atomic changes. File modes and durability across power loss are not modelled. */
module FileSystem {
  import opened Prelude
  import opened BlockNames

  type Inode = nat

  /** `names` binds a path to an inode; an inode outlives its names while it is open. */
  datatype Fs = Fs(dirs: set<Path>, names: map<Path, Inode>, data: map<Inode, Bytes>, next: Inode)

  type Blocks = imap<BlockId, Bytes>

  ghost predicate WellFormed(fs: Fs) {
    && (forall p :: p in fs.names ==> fs.names[p] in fs.data)
    && (forall i :: i in fs.data ==> i < fs.next)
  }

  function MakeShard(fs: Fs, root: Path, id: BlockId): Fs
    requires ValidId(id)
  {
    fs.(dirs := fs.dirs + {TopDir(root, id), ShardDir(root, id)})
  }

  function CreateExclusive(fs: Fs, p: Path): Fs
    requires p !in fs.names
  {
    fs.(names := fs.names[p := fs.next], data := fs.data[fs.next := []], next := fs.next + 1)
  }

  function Append(fs: Fs, i: Inode, chunk: Bytes): Fs
    requires i in fs.data
  {
    fs.(data := fs.data[i := fs.data[i] + chunk])
  }

  function Rename(fs: Fs, from: Path, to: Path): Fs
    requires from in fs.names
  {
    fs.(names := (fs.names - {from})[to := fs.names[from]])
  }

  function Unlink(fs: Fs, p: Path): Fs {
    fs.(names := fs.names - {p})
  }

  /** The block map a client can observe. */
  ghost function Visible(root: Path, fs: Fs): Blocks
    requires WellFormed(fs)
  {
    imap id: BlockId | ValidId(id) && BlockPath(root, id) in fs.names :: fs.data[fs.names[BlockPath(root, id)]]
  }

  /** The inode behind some block path. */
  ghost predicate Published(root: Path, fs: Fs, i: Inode) {
    exists id :: ValidId(id) && BlockPath(root, id) in fs.names && fs.names[BlockPath(root, id)] == i
  }

  // ---- how each change shows in the block map ----

  ghost predicate SameAt(fs: Fs, after: Fs, p: Path) {
    && (p in fs.names <==> p in after.names)
    && (p in fs.names && fs.names[p] in fs.data ==>
          after.names[p] in after.data && after.data[after.names[p]] == fs.data[fs.names[p]])
  }

  lemma SameBlocks(root: Path, fs: Fs, after: Fs)
    requires WellFormed(fs) && WellFormed(after)
    requires forall id | ValidId(id) :: SameAt(fs, after, BlockPath(root, id))
    ensures Visible(root, after) == Visible(root, fs)
  {
    hide BlockPath, ValidId;
  }

  lemma CreateElsewhere(fs: Fs, p: Path, other: Path)
    requires WellFormed(fs) && p !in fs.names && other != p
    ensures SameAt(fs, CreateExclusive(fs, p), other)
  {
  }

  lemma CreateKeepsVisible(root: Path, fs: Fs, owner: BlockId, random: string)
    requires WellFormed(fs) && ValidId(owner) && TempPath(root, owner, random) !in fs.names
    ensures var after := CreateExclusive(fs, TempPath(root, owner, random));
            && WellFormed(after) && Visible(root, after) == Visible(root, fs)
  {
    hide BlockPath, TempPath, ValidId;
    var temp := TempPath(root, owner, random);
    var after := CreateExclusive(fs, temp);
    assert WellFormed(after);
    hide CreateExclusive, WellFormed, Visible, SameAt;
    forall id | ValidId(id) ensures SameAt(fs, after, BlockPath(root, id)) {
      ScratchNamesAreNoBlocks(root, id, owner, random);
      CreateElsewhere(fs, temp, BlockPath(root, id));
    }
    SameBlocks(root, fs, after);
  }

  lemma AppendKeepsVisible(root: Path, fs: Fs, i: Inode, chunk: Bytes)
    requires WellFormed(fs) && i in fs.data && !Published(root, fs, i)
    ensures WellFormed(Append(fs, i, chunk)) && Visible(root, Append(fs, i, chunk)) == Visible(root, fs)
  {
    hide BlockPath, ValidId;
  }

  lemma UnlinkTempKeepsVisible(root: Path, fs: Fs, owner: BlockId, random: string)
    requires WellFormed(fs) && ValidId(owner)
    ensures var after := Unlink(fs, TempPath(root, owner, random));
            && WellFormed(after) && Visible(root, after) == Visible(root, fs)
  {
    forall id | ValidId(id) ensures TempPath(root, owner, random) != BlockPath(root, id) {
      ScratchNamesAreNoBlocks(root, id, owner, random);
    }
    hide BlockPath, TempPath, ValidId;
  }

  lemma RenamePublishes(root: Path, fs: Fs, id: BlockId, random: string)
    requires WellFormed(fs) && ValidId(id) && TempPath(root, id, random) in fs.names
    ensures var after := Rename(fs, TempPath(root, id, random), BlockPath(root, id));
            && WellFormed(after)
            && Visible(root, after) == Visible(root, fs)[id := fs.data[fs.names[TempPath(root, id, random)]]]
  {
    hide BlockPath, TempPath, ValidId;
    var temp := TempPath(root, id, random);
    forall other | ValidId(other)
      ensures TempPath(root, id, random) != BlockPath(root, other)
      ensures BlockPath(root, other) == BlockPath(root, id) <==> other == id
    {
      ScratchNamesAreNoBlocks(root, other, id, random);
      BlockPathInjective(root, other, id);
    }
    RenameAppears(root, fs, id, temp);
  }

  lemma RenameAppears(root: Path, fs: Fs, id: BlockId, from: Path)
    requires WellFormed(fs) && ValidId(id) && from in fs.names
    requires forall other | ValidId(other) ::
               from != BlockPath(root, other) && (BlockPath(root, other) == BlockPath(root, id) <==> other == id)
    ensures var after := Rename(fs, from, BlockPath(root, id));
            WellFormed(after) && Visible(root, after) == Visible(root, fs)[id := fs.data[fs.names[from]]]
  {
    hide BlockPath, ValidId;
  }

  lemma UnlinkRemoves(root: Path, fs: Fs, id: BlockId)
    requires WellFormed(fs) && ValidId(id)
    ensures var after := Unlink(fs, BlockPath(root, id));
            && WellFormed(after) && Visible(root, after) == Visible(root, fs) - {id}
  {
    hide BlockPath, ValidId;
    forall other | ValidId(other)
      ensures BlockPath(root, other) == BlockPath(root, id) <==> other == id
    {
      BlockPathInjective(root, other, id);
    }
  }

  // ---- no change publishes an inode, except the rename its own ----

  lemma CreatePublishesNothing(root: Path, fs: Fs, owner: BlockId, random: string, i: Inode)
    requires WellFormed(fs) && ValidId(owner) && TempPath(root, owner, random) !in fs.names
    ensures Published(root, CreateExclusive(fs, TempPath(root, owner, random)), i) ==>
              Published(root, fs, i) && i < fs.next
  {
    forall id | ValidId(id) ensures TempPath(root, owner, random) != BlockPath(root, id) {
      ScratchNamesAreNoBlocks(root, id, owner, random);
    }
  }

  lemma UnlinkPublishesNothing(root: Path, fs: Fs, p: Path, i: Inode)
    ensures Published(root, Unlink(fs, p), i) ==> Published(root, fs, i)
  {
    hide BlockPath, ValidId;
  }

  lemma RenamePublishesOne(root: Path, fs: Fs, from: Path, to: Path, i: Inode)
    requires from in fs.names
    ensures Published(root, Rename(fs, from, to), i) ==> Published(root, fs, i) || i == fs.names[from]
  {
    hide BlockPath, ValidId;
  }

  lemma SameNamesPublishSame(root: Path, fs: Fs, after: Fs, i: Inode)
    requires after.names == fs.names
    ensures Published(root, after, i) <==> Published(root, fs, i)
  {
  }
}
