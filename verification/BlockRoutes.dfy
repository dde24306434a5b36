/** The `/api/blocks/{id}` handlers of `server/src/routes/api/blocks.rs`. A response
    is one of the five constant shapes of the source; their header bytes are not modelled. */
module BlockRoutes {
  import opened Prelude
  import opened BlockNames
  import opened LocalFs
  import FileSystem

  datatype Verb = GET | PUT | DELETE | OtherMethod

  /** `path` is the wire form of the request path; `contentLength` is the header if it
      reads as a `u64`; `body` is absent when the transport failed. */
  datatype Request = Request(verb: Verb, path: Bytes, contentLength: Option<U64>, body: Option<Bytes>)

  datatype Response = Block200(payload: Bytes) | NoContent204 | BadRequest400 | NotFound404 | Unavailable503

  /** "/api/blocks/" */
  const PREFIX: Bytes := [47, 97, 112, 105, 47, 98, 108, 111, 99, 107, 115, 47]

  function IdBytes(path: Bytes): Bytes {
    if PREFIX <= path then path[|PREFIX|..] else []
  }

  /** The identifier a request addresses, if its path is well formed. */
  function Addressed(req: Request): Option<BlockId> {
    Parsed(IdBytes(req.path))
  }

  /** The payload a PUT may store: the declared length, the cap on the body and its
      actual length are checked in that order. */
  function Admit(blockSize: U64, req: Request): Option<Bytes> {
    if req.contentLength.Some? && req.contentLength.value != blockSize then None
    else
      match CheckedAdd(blockSize, 1)
      case None => None
      case Some(limit) =>
        match req.body
        case None => None
        case Some(bytes) =>
          if |bytes| > limit then None
          else if |bytes| != blockSize then None
          else Some(bytes)
  }

  /** A PUT is admitted exactly when its body has the configured size, no other size
      was declared, and the size is below the largest `u64`. */
  lemma AdmitIff(blockSize: U64, req: Request, payload: Bytes)
    ensures Admit(blockSize, req) == Some(payload) <==>
            && req.body == Some(payload)
            && |payload| == blockSize
            && (req.contentLength.Some? ==> req.contentLength.value == |payload|)
            && blockSize < U64_MAX
  {
  }

  ghost predicate AllSized(blocks: FileSystem.Blocks, blockSize: U64) {
    forall id :: id in blocks ==> |blocks[id]| == blockSize
  }

  /** Which system calls fail while a request is served. */
  datatype Faults = Faults(put: PutFaults, get: GetFaults, delete: bool)

  const NO_FAULTS: Faults := Faults(NO_PUT_FAULTS, NO_GET_FAULTS, false)

  /** What each response says about the block map before and after the request: 503 only
      when a call failed or the name drawn for a temporary file was `taken`, and then
      nothing changed. */
  ghost predicate Answers(req: Request, blockSize: U64, faults: Faults, taken: bool,
                          before: FileSystem.Blocks, after: FileSystem.Blocks, resp: Response) {
    match Addressed(req)
    case None => resp == NotFound404 && after == before
    case Some(id) =>
      match req.verb
      case GET =>
        && after == before
        && resp == (if faults.get.open then Unavailable503
                    else if id !in before then NotFound404
                    else if !Fits(faults.get.readable, |before[id]|) then Unavailable503
                    else Block200(before[id]))
      case PUT =>
        (match Admit(blockSize, req)
         case None => resp == BadRequest400 && after == before
         case Some(payload) =>
           if !PutUnharmed(faults.put, |payload|) || taken then resp == Unavailable503 && after == before
           else resp == NoContent204 && after == before[id := payload])
      case DELETE =>
        if faults.delete then resp == Unavailable503 && after == before
        else resp == NoContent204 && after == before - {id}
      case OtherMethod => resp == NotFound404 && after == before
  }

  method HandleGet(storage: LocalFsProvider, id: BlockId, faults: GetFaults) returns (resp: Response)
    requires storage.Valid() && ValidId(id)
    ensures resp == (if faults.open then Unavailable503
                     else if id !in storage.Blocks() then NotFound404
                     else if !Fits(faults.readable, |storage.Blocks()[id]|) then Unavailable503
                     else Block200(storage.Blocks()[id]))
  {
    var r := storage.Get(id, faults);
    match r
    case Ok(payload) => resp := Block200(payload);
    case Err(NotFound) => resp := NotFound404;
    case Err(Backend) => resp := Unavailable503;
  }

  method HandlePut(storage: LocalFsProvider, id: BlockId, blockSize: U64, req: Request,
                   random: string, faults: PutFaults)
    returns (resp: Response)
    requires storage.Valid() && ValidId(id)
    modifies storage
    ensures storage.Valid()
    ensures
      match Admit(blockSize, req)
      case None => resp == BadRequest400 && storage.fs == old(storage.fs)
      case Some(payload) =>
        if PutUnharmed(faults, |payload|) && TempPath(storage.root, id, random) !in old(storage.fs.names)
        then resp == NoContent204 && storage.Blocks() == old(storage.Blocks())[id := payload]
        else resp == Unavailable503 && storage.Blocks() == old(storage.Blocks())
  {
    if req.contentLength.Some? && req.contentLength.value != blockSize {
      return BadRequest400;
    }
    var limit := CheckedAdd(blockSize, 1);
    if limit.None? || req.body.None? || |req.body.value| > limit.value {
      return BadRequest400;
    }
    var bytes := req.body.value;
    if |bytes| != blockSize {
      return BadRequest400;
    }
    var r := storage.RunPut(id, bytes, random, faults);
    match r
    case Ok(_) => resp := NoContent204;
    case Err(_) => resp := Unavailable503;
  }

  method HandleDelete(storage: LocalFsProvider, id: BlockId, fails: bool) returns (resp: Response)
    requires storage.Valid() && ValidId(id)
    modifies storage
    ensures storage.Valid()
    ensures resp == if fails then Unavailable503 else NoContent204
    ensures storage.Blocks() == if fails then old(storage.Blocks()) else old(storage.Blocks()) - {id}
  {
    var r := storage.Delete(id, fails);
    match r
    case Ok(_) => resp := NoContent204;
    case Err(Backend) => resp := Unavailable503;
    case Err(NotFound) => resp := NoContent204;
  }

  method HandleBlock(storage: LocalFsProvider, blockSize: U64, req: Request, random: string, faults: Faults)
    returns (resp: Response)
    requires storage.Valid()
    modifies storage
    ensures storage.Valid()
    ensures Answers(req, blockSize, faults, old(storage.NameTaken(Addressed(req), random)),
                    old(storage.Blocks()), storage.Blocks(), resp)
  {
    var id := ParseBlockId(IdBytes(req.path));
    if id.None? {
      return NotFound404;
    }
    match req.verb
    case GET => resp := HandleGet(storage, id.value, faults.get);
    case PUT => resp := HandlePut(storage, id.value, blockSize, req, random, faults.put);
    case DELETE => resp := HandleDelete(storage, id.value, faults.delete);
    case OtherMethod => resp := NotFound404;
  }

  /** A right-sized PUT during which no call fails is answered 204 and readable at once,
      and a GET of what is there, or a DELETE, never fails on its own. */
  lemma UndisturbedRequests(req: Request, blockSize: U64,
                            before: FileSystem.Blocks, after: FileSystem.Blocks, resp: Response)
    requires Answers(req, blockSize, NO_FAULTS, false, before, after, resp)
    ensures resp != Unavailable503
    ensures req.verb == PUT && Addressed(req).Some? && Admit(blockSize, req).Some? ==>
              && resp == NoContent204
              && Addressed(req).value in after && Some(after[Addressed(req).value]) == req.body
    ensures req.verb == GET && Addressed(req).Some? && Addressed(req).value in before ==>
              resp == Block200(before[Addressed(req).value])
    ensures req.verb == DELETE && Addressed(req).Some? ==> resp == NoContent204 && Addressed(req).value !in after
  {
  }

  /** Sizes are kept by every request, whatever it asks and however it is answered. */
  lemma AnswersKeepSizes(req: Request, blockSize: U64, faults: Faults, taken: bool,
                         before: FileSystem.Blocks, after: FileSystem.Blocks, resp: Response)
    requires AllSized(before, blockSize) && Answers(req, blockSize, faults, taken, before, after, resp)
    ensures AllSized(after, blockSize)
    ensures resp.Block200? ==> |resp.payload| == blockSize
  {
    if Admit(blockSize, req).Some? {
      AdmitIff(blockSize, req, Admit(blockSize, req).value);
    }
  }

  /** A percent sign anywhere in the identifier part makes the path unaddressable, so
      no encoded spelling reaches the store. */
  lemma EncodedSpellingsAreMalformed(req: Request, i: nat)
    requires |PREFIX| <= i < |req.path| && req.path[i] == '%' as int
    ensures Addressed(req) == None
  {
    if PREFIX <= req.path {
      assert Text(IdBytes(req.path))[i - |PREFIX|] == '%';
    }
  }
}
