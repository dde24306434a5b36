/** Block identifiers (`server/src/storage/block_id.rs`) and the on-disk names
    derived from them (`server/src/storage/path.rs`, the temporary and probe names
    of `server/src/storage/local_fs.rs`). */
module BlockNames {
  import opened Prelude
  import Base64Url

  const LEN: nat := 43

  /** Only `ParseBlockId` makes one; its invariant is `ValidId`. */
  datatype BlockId = BlockId(text: string)

  predicate ValidId(id: BlockId) {
    |id.text| == LEN && Base64Url.AllDigits(id.text)
  }

  /** The UTF-8 form of an ASCII text. */
  predicate IsAscii(text: string, raw: Bytes) {
    |text| == |raw| && forall i :: 0 <= i < |raw| ==> text[i] as int == raw[i]
  }

  function Bit(b: bool): bv8 { if b then 1 else 0 }

  function IsBase64UrlByte(b: Byte): (r: bv8)
    ensures r == Bit(Base64Url.IsDigit(b as char))
  {
    var upper := Bit('A' as int <= b) & Bit(b <= 'Z' as int);
    var lower := Bit('a' as int <= b) & Bit(b <= 'z' as int);
    var digit := Bit('0' as int <= b) & Bit(b <= '9' as int);
    var dash := Bit(b == '-' as int);
    var underscore := Bit(b == '_' as int);
    upper | lower | digit | dash | underscore
  }

  function Text(raw: Bytes): (text: string)
    ensures IsAscii(text, raw)
  {
    seq(|raw|, i requires 0 <= i < |raw| => raw[i] as char)
  }

  /** Accepts exactly the 43-byte strings over the base64url alphabet, unchanged. */
  method ParseBlockId(raw: Bytes) returns (id: Option<BlockId>)
    ensures id.Some? <==> |raw| == LEN && forall i :: 0 <= i < |raw| ==> Base64Url.IsDigit(raw[i] as char)
    ensures id.Some? ==> ValidId(id.value) && IsAscii(id.value.text, raw)
    ensures id == Parsed(raw)
  {
    if |raw| != LEN {
      return None;
    }
    var valid: bv8 := 1;
    for i := 0 to |raw|
      invariant valid == Bit(forall j :: 0 <= j < i ==> Base64Url.IsDigit(raw[j] as char))
    {
      valid := valid & IsBase64UrlByte(raw[i]);
    }
    id := if valid == 1 then Some(BlockId(Text(raw))) else None;
  }

  /** What `ParseBlockId` returns, for use inside other specifications. */
  function Parsed(raw: Bytes): Option<BlockId> {
    if |raw| == LEN && Base64Url.AllDigits(Text(raw)) then Some(BlockId(Text(raw))) else None
  }

  /** Every 32-byte value has an identifier: its base64url encoding. */
  lemma EncodingIsValidId(value: Bytes, raw: Bytes)
    requires |value| == 32 && IsAscii(Base64Url.Encode(value), raw)
    ensures Parsed(raw) == Some(BlockId(Base64Url.Encode(value)))
  {
    Base64Url.EncodeShape(value);
    assert Text(raw) == Base64Url.Encode(value);
  }

  /** The alphabet admits more identifiers than there are 32-byte values: an
      identifier encodes one exactly when its last two bits are zero. */
  lemma EncodesAValueIff(id: BlockId)
    requires ValidId(id)
    ensures (exists value: Bytes :: |value| == 32 && Base64Url.Encode(value) == id.text)
       <==> Base64Url.Value(id.text[LEN - 1]) % 4 == 0
  {
    hide Base64Url.Value, Base64Url.Encode, Base64Url.Decode;
    Base64Url.DecodesIff(id.text);
    if Base64Url.Decode(id.text).Some? {
      Base64Url.EncodeDecode(id.text);
    }
    forall value: Bytes | Base64Url.Encode(value) == id.text
      ensures Base64Url.Decode(id.text).Some?
    {
      Base64Url.DecodeEncode(value);
    }
  }

  // ---- paths ----

  type Path = string

  /** `Path::join` on Unix: an absolute right side replaces the left one. */
  function Join(base: Path, name: string): Path {
    if |name| > 0 && name[0] == '/' then name
    else if |base| == 0 || base[|base| - 1] == '/' then base + name
    else base + "/" + name
  }

  function ShardTop(id: BlockId): string
    requires ValidId(id)
  {
    id.text[..2]
  }

  function ShardMid(id: BlockId): string
    requires ValidId(id)
  {
    id.text[2..4]
  }

  function TopDir(root: Path, id: BlockId): Path
    requires ValidId(id)
  {
    Join(root, ShardTop(id))
  }

  function ShardDir(root: Path, id: BlockId): Path
    requires ValidId(id)
  {
    Join(TopDir(root, id), ShardMid(id))
  }

  function BlockPath(root: Path, id: BlockId): Path
    requires ValidId(id)
  {
    Join(ShardDir(root, id), id.text)
  }

  /** The name `tempfile` gives a file made for `put`; `random` is its choice. */
  function TempPath(root: Path, id: BlockId, random: string): Path
    requires ValidId(id)
  {
    Join(ShardDir(root, id), ".put." + random + ".tmp")
  }

  function ProbeTempPath(root: Path, random: string): Path {
    Join(root, ".probe." + random + ".tmp")
  }

  function ProbePath(root: Path): Path {
    Join(root, ".startup_probe")
  }

  predicate EndsWith(p: Path, name: string) {
    |name| <= |p| && p[|p| - |name|..] == name
  }

  lemma JoinEndsWith(base: Path, name: string)
    ensures EndsWith(Join(base, name), name)
  {
  }

  /** Distinct identifiers never share a path. */
  lemma BlockPathInjective(root: Path, a: BlockId, b: BlockId)
    requires ValidId(a) && ValidId(b)
    ensures BlockPath(root, a) == BlockPath(root, b) <==> a == b
  {
    JoinEndsWith(ShardDir(root, a), a.text);
    JoinEndsWith(ShardDir(root, b), b.text);
  }

  lemma TailIsAlphabet(root: Path, id: BlockId, i: nat)
    requires ValidId(id)
    requires i < |BlockPath(root, id)| <= i + LEN
    ensures Base64Url.IsDigit(BlockPath(root, id)[i])
  {
    JoinEndsWith(ShardDir(root, id), id.text);
    var q := BlockPath(root, id);
    assert q[i] == q[|q| - LEN..][i - (|q| - LEN)];
  }

  /** A path with a dot among its last 43 characters is no block path. */
  lemma DottedIsNoBlock(root: Path, id: BlockId, p: Path, i: nat)
    requires ValidId(id)
    requires i < |p| <= i + LEN && p[i] == '.'
    ensures p != BlockPath(root, id)
  {
    if |p| == |BlockPath(root, id)| {
      TailIsAlphabet(root, id, i);
    }
  }

  /** No temporary, probe or probe-temporary file ever has a block's name. */
  lemma ScratchNamesAreNoBlocks(root: Path, id: BlockId, owner: BlockId, random: string)
    requires ValidId(id) && ValidId(owner)
    ensures TempPath(root, owner, random) != BlockPath(root, id)
    ensures ProbeTempPath(root, random) != BlockPath(root, id)
    ensures ProbePath(root) != BlockPath(root, id)
  {
    JoinEndsWith(ShardDir(root, owner), ".put." + random + ".tmp");
    DottedIsNoBlock(root, id, TempPath(root, owner, random), |TempPath(root, owner, random)| - 4);
    JoinEndsWith(root, ".probe." + random + ".tmp");
    DottedIsNoBlock(root, id, ProbeTempPath(root, random), |ProbeTempPath(root, random)| - 4);
    JoinEndsWith(root, ".startup_probe");
    DottedIsNoBlock(root, id, ProbePath(root), |ProbePath(root)| - 14);
  }

  /** A block path stays below the configured root, two levels of two characters down. */
  lemma BlockPathUnderRoot(root: Path, id: BlockId)
    requires ValidId(id)
    ensures root <= ShardDir(root, id) <= BlockPath(root, id)
    ensures
      var slash := if root == "" || root[|root| - 1] == '/' then "" else "/";
      BlockPath(root, id) == root + slash + id.text[..2] + "/" + id.text[2..4] + "/" + id.text
  {
    assert Base64Url.IsDigit(id.text[0]) && Base64Url.IsDigit(id.text[2]) && Base64Url.IsDigit(id.text[1]);
    assert Base64Url.IsDigit(id.text[3]);
    assert root <= TopDir(root, id);
    assert TopDir(root, id) <= ShardDir(root, id);
  }
}
