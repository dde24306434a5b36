/** The size of blocks under any number of concurrent requests: the handlers of
    `BlockRoutes` decide which puts of `BlockRuns` are ever called. */
module BlockSizes {
  import opened Prelude
  import opened BlockNames
  import opened FileSystem
  import opened BlockRuns
  import BlockRoutes
  import BlockTheorems

  /** A put that some PUT request leads to, under the configured block size. */
  ghost predicate Handled(blockSize: U64, cmd: Cmd) {
    exists req: BlockRoutes.Request ::
      && req.verb == BlockRoutes.PUT
      && BlockRoutes.Addressed(req) == Some(cmd.id)
      && cmd.PutCmd? && BlockRoutes.Admit(blockSize, req) == Some(cmd.payload)
  }

  /** Every put of the run comes from a request. */
  ghost predicate Served(blockSize: U64, events: seq<Event>) {
    forall t, cmd | Begin(t, cmd) in events && cmd.PutCmd? :: Handled(blockSize, cmd)
  }

  /** The puts that requests lead to are those of exactly the configured size. */
  lemma HandledIff(blockSize: U64, cmd: Cmd)
    requires cmd.PutCmd? && ValidId(cmd.id)
    ensures Handled(blockSize, cmd) <==> |cmd.payload| == blockSize && blockSize < U64_MAX
  {
    if Handled(blockSize, cmd) {
      var req: BlockRoutes.Request :|
        && req.verb == BlockRoutes.PUT
        && BlockRoutes.Addressed(req) == Some(cmd.id)
        && BlockRoutes.Admit(blockSize, req) == Some(cmd.payload);
      BlockRoutes.AdmitIff(blockSize, req, cmd.payload);
    }
    if |cmd.payload| == blockSize && blockSize < U64_MAX {
      var raw := seq(LEN, i requires 0 <= i < LEN => IdByte(cmd.id, i));
      assert Text(raw) == cmd.id.text;
      var req := BlockRoutes.Request(BlockRoutes.PUT, BlockRoutes.PREFIX + raw, None, Some(cmd.payload));
      assert BlockRoutes.IdBytes(req.path) == raw;
      BlockRoutes.AdmitIff(blockSize, req, cmd.payload);
      assert BlockRoutes.Addressed(req) == Some(cmd.id);
    }
  }

  function IdByte(id: BlockId, i: nat): (b: Byte)
    requires ValidId(id) && i < LEN
    ensures b as char == id.text[i]
  {
    id.text[i] as int
  }

  /** Over any run whose puts come from requests, from a store without blocks, every block
      that any client can see has exactly the configured size. */
  lemma EveryBlockHasTheSize(c: Config, blockSize: U64, s0: State, events: seq<Event>, s: State, id: BlockId)
    requires BlockTheorems.Reached(c, s0, events, s) && Served(blockSize, events)
    requires WellFormed(s.fs) && id in Visible(c.root, s.fs)
    ensures |Visible(c.root, s.fs)[id]| == blockSize
  {
    var writer := BlockTheorems.VisibleWasPut(c, s0, events, s, id);
    var cmd := PutCmd(id, Visible(c.root, s.fs)[id]);
    hide BlockTheorems.Reached, Visible, WellFormed;
    HandledIff(blockSize, cmd);
  }
}
