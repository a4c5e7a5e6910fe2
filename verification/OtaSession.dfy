/**
 * The firmware-transfer session: BEGIN erases the staging region, CHUNKs fill it strictly
 * in order, COMMIT reads it back and marks it pending, ABORT gives up. Requests may be
 * lost, repeated, reordered or stale; the flash may fail at any operation.
 */
module OtaSession {
  import opened Bytes
  import opened Fold
  import opened Crc
  import opened W25q
  import opened PingPong
  import opened BootConfig
  import opened OtaStage

  datatype Request =
    | Begin(id: nat, size: nat, crc: bv32)
    | Chunk(id: nat, offset: nat, data: seq<byte>)
    | Commit(id: nat)
    | Abort(id: nat)

  datatype Status =
    | Ok
    | SessionInvalid
    | OffsetMismatch
    | WriteError
    | Oversize
    | TooLarge
    | EraseFail
    | InvalidPayload
    | NoSession
    | CrcMismatch
    | PersistFail

  /** A session as seen from outside: its token (0 for none), what was announced, what was accepted. */
  datatype Progress = Progress(id: nat, size: nat, crc: bv32, got: seq<byte>)

  const NO_SESSION := Progress(0, 0, 0, [])

  /** The answer a request gets before the flash is touched; Ok if it gets none. */
  function Screened(p: Progress, r: Request): Status {
    match r
    case Begin(id, size, _) =>
      if id == 0 || size == 0 then InvalidPayload
      else if size > REGION_SIZE then TooLarge
      else Ok
    case Chunk(id, offset, data) =>
      if p.id == 0 then NoSession
      else if id != p.id then SessionInvalid
      else if offset != |p.got| then OffsetMismatch
      else if offset + |data| > p.size then Oversize
      else Ok
    case Commit(id) =>
      if p.id == 0 then NoSession
      else if id != p.id then SessionInvalid
      else if |p.got| != p.size then OffsetMismatch
      else Ok
    case Abort(_) => Ok
  }

  /** The answers possible once the flash has been involved. */
  predicate MayAnswer(p: Progress, r: Request, s: Status) {
    if !Screened(p, r).Ok? then s == Screened(p, r)
    else match r
      case Begin(_, _, _) => s.Ok? || s.EraseFail?
      case Chunk(_, _, _) => s.Ok? || s.WriteError?
      case Commit(_) => s.Ok? || s.CrcMismatch? || s.PersistFail?
      case Abort(_) => s.Ok?
  }

  /** How an answered request changes the session. */
  function Advanced(p: Progress, r: Request, s: Status): Progress {
    match r
    case Begin(id, size, crc) =>
      if s.Ok? then Progress(id, size, crc, []) else if s.EraseFail? then NO_SESSION else p
    case Chunk(_, _, data) => if s.Ok? then p.(got := p.got + data) else p
    case Commit(_) => p
    case Abort(id) => if p.id != 0 && id == p.id then NO_SESSION else p
  }

  /** The session a client reconstructs from its requests and their answers. */
  function Replayed(requests: seq<Request>, answers: seq<Status>): Progress
    requires |requests| == |answers|
  {
    if requests == [] then NO_SESSION
    else
      var n := |requests| - 1;
      Advanced(Replayed(requests[..n], answers[..n]), requests[n], answers[n])
  }

  /** Every answer was one the session could give. */
  predicate Plausible(requests: seq<Request>, answers: seq<Status>)
    requires |requests| == |answers|
  {
    requests == [] ||
    var n := |requests| - 1;
    Plausible(requests[..n], answers[..n]) && MayAnswer(Replayed(requests[..n], answers[..n]), requests[n], answers[n])
  }

  /** Whatever the client that owns token `id` sends is a piece of `image` in its place. */
  predicate SendsOnly(requests: seq<Request>, id: nat, image: seq<byte>) {
    forall r :: r in requests && r.Chunk? && r.id == id ==>
      r.offset + |r.data| <= |image| && r.data == image[r.offset..r.offset + |r.data|]
  }

  // -------------------------------------------------------- which session is open

  /** A BEGIN answered Ok opens a session, whatever was open before. */
  predicate Opens(r: Request, s: Status, id: nat) {
    r.Begin? && s.Ok? && r.id == id
  }

  /** A session is ended by another BEGIN that gets as far as erasing, and by an ABORT with its token. */
  predicate Ends(r: Request, s: Status, id: nat) {
    (r.Begin? && (s.Ok? || s.EraseFail?)) || (r.Abort? && r.id == id)
  }

  predicate NotEndedAfter(requests: seq<Request>, answers: seq<Status>, k: int, id: nat)
    requires |requests| == |answers|
  {
    forall j :: 0 <= k < j < |requests| ==> !Ends(requests[j], answers[j], id)
  }

  /** The token of the last BEGIN answered Ok, if its session has not been ended since. */
  ghost predicate IsOpen(requests: seq<Request>, answers: seq<Status>, id: nat)
    requires |requests| == |answers|
  {
    exists k :: 0 <= k < |requests| && Opens(requests[k], answers[k], id) && NotEndedAfter(requests, answers, k, id)
  }

  lemma OpenStep(requests: seq<Request>, answers: seq<Status>, r: Request, s: Status, id: nat)
    requires |requests| == |answers|
    ensures IsOpen(requests + [r], answers + [s], id) <==>
      Opens(r, s, id) || (IsOpen(requests, answers, id) && !Ends(r, s, id))
  {
    var rs, ss, n := requests + [r], answers + [s], |requests|;
    if Opens(r, s, id) {
      assert Opens(rs[n], ss[n], id) && NotEndedAfter(rs, ss, n, id);
    } else if IsOpen(requests, answers, id) && !Ends(r, s, id) {
      var k :| 0 <= k < n && Opens(requests[k], answers[k], id) && NotEndedAfter(requests, answers, k, id);
      assert Opens(rs[k], ss[k], id) && NotEndedAfter(rs, ss, k, id);
    }
    if IsOpen(rs, ss, id) && !Opens(r, s, id) {
      var k :| 0 <= k < n + 1 && Opens(rs[k], ss[k], id) && NotEndedAfter(rs, ss, k, id);
      assert k < n && !Ends(rs[n], ss[n], id);
      assert forall j :: k < j < n ==> rs[j] == requests[j] && ss[j] == answers[j];
      assert Opens(requests[k], answers[k], id) && NotEndedAfter(requests, answers, k, id);
    }
  }

  /** The session that the answers tell of is the one that is open. */
  lemma {:induction false} OpenExactly(requests: seq<Request>, answers: seq<Status>, id: nat)
    requires |requests| == |answers| && Plausible(requests, answers)
    ensures id != 0 && Replayed(requests, answers).id == id <==> IsOpen(requests, answers, id)
    decreases |requests|
  {
    if requests != [] {
      var n := |requests| - 1;
      OpenExactly(requests[..n], answers[..n], id);
      OpenStep(requests[..n], answers[..n], requests[n], answers[n], id);
      assert requests == requests[..n] + [requests[n]] && answers == answers[..n] + [answers[n]];
    }
  }

  lemma {:induction false} PrefixPlausible(requests: seq<Request>, answers: seq<Status>, k: nat)
    requires |requests| == |answers| && Plausible(requests, answers) && k <= |requests|
    ensures Plausible(requests[..k], answers[..k])
    decreases |requests|
  {
    if k == |requests| {
      assert requests[..k] == requests && answers[..k] == answers;
    } else {
      var n := |requests| - 1;
      PrefixPlausible(requests[..n], answers[..n], k);
      assert requests[..n][..k] == requests[..k] && answers[..n][..k] == answers[..k];
    }
  }

  /** A CHUNK and a COMMIT are answered Ok only with the token of the open session. */
  lemma OkNamesOpenSession(requests: seq<Request>, answers: seq<Status>, k: nat)
    requires |requests| == |answers| && Plausible(requests, answers) && k < |requests|
    requires answers[k].Ok? && (requests[k].Chunk? || requests[k].Commit?)
    ensures IsOpen(requests[..k], answers[..k], requests[k].id)
  {
    PrefixPlausible(requests, answers, k + 1);
    var rs, ss := requests[..k + 1], answers[..k + 1];
    assert rs[..k] == requests[..k] && ss[..k] == answers[..k];
    OpenExactly(requests[..k], answers[..k], requests[k].id);
  }

  /** No COMMIT of the sequence names a session that is open then. */
  ghost predicate OnlyStaleCommits(requests: seq<Request>, answers: seq<Status>)
    requires |requests| == |answers|
  {
    forall k :: 0 <= k < |requests| && requests[k].Commit? ==> !IsOpen(requests[..k], answers[..k], requests[k].id)
  }

  lemma StaleStep(requests: seq<Request>, answers: seq<Status>, r: Request, s: Status)
    requires |requests| == |answers| && OnlyStaleCommits(requests + [r], answers + [s])
    ensures OnlyStaleCommits(requests, answers)
    ensures r.Commit? ==> !IsOpen(requests, answers, r.id)
  {
    var rs, ss, n := requests + [r], answers + [s], |requests|;
    forall k | 0 <= k < n && requests[k].Commit? ensures !IsOpen(requests[..k], answers[..k], requests[k].id) {
      assert rs[k] == requests[k] && rs[..k] == requests[..k] && ss[..k] == answers[..k];
    }
    assert rs[n] == r && rs[..n] == requests && ss[..n] == answers;
  }

  /**
   * Whatever is duplicated, reordered, dropped or stale: as long as a client only ever sends
   * pieces of one image under its token, what its session has accepted is a prefix of that image.
   */
  lemma {:induction false} AcceptedIsPrefix(requests: seq<Request>, answers: seq<Status>, id: nat, image: seq<byte>)
    requires |requests| == |answers| && Plausible(requests, answers)
    requires id != 0 && SendsOnly(requests, id, image)
    ensures var p := Replayed(requests, answers);
      p.id == id ==> |p.got| <= |image| && p.got == image[..|p.got|]
  {
    if requests != [] {
      var n := |requests| - 1;
      AcceptedIsPrefix(requests[..n], answers[..n], id, image);
      var p, r := Replayed(requests[..n], answers[..n]), requests[n];
      if r.Chunk? && answers[n].Ok? && p.id == id {
        assert r in requests;
        assert image[..r.offset] + r.data == image[..r.offset + |r.data|];
      }
    }
  }

  /** An accepted prefix never outgrows what was announced, and that never outgrows the region. */
  lemma {:induction false} WithinAnnounced(requests: seq<Request>, answers: seq<Status>)
    requires |requests| == |answers| && Plausible(requests, answers)
    ensures var p := Replayed(requests, answers);
      |p.got| <= p.size <= REGION_SIZE && (p.id == 0 <==> p.size == 0) && (p.id == 0 ==> p == NO_SESSION)
  {
    if requests != [] {
      var n := |requests| - 1;
      WithinAnnounced(requests[..n], answers[..n]);
    }
  }

  /** A chunk that was accepted is refused when it arrives again in the same session. */
  lemma RepeatedChunkRefused(p: Progress, c: Request)
    requires c.Chunk? && c.data != [] && Screened(p, c).Ok?
    ensures Screened(Advanced(p, c, Ok), c) == OffsetMismatch
  {
  }

  // ------------------------------------------------------------- staged bytes

  /** The accepted bytes are on the flash, and the rest of the image's space is still blank. */
  ghost predicate StagedIs(m: seq<byte>, got: seq<byte>, size: nat)
    requires |got| <= size <= REGION_SIZE && REGION_END <= |m|
  {
    && Staged(m, |got|) == got
    && forall i :: REGION_BASE + |got| <= i < REGION_BASE + size ==> m[i] == 0xFF
  }

  lemma StagedGrows(m: seq<byte>, got: seq<byte>, size: nat, data: seq<byte>)
    requires |got| + |data| <= size <= REGION_SIZE && REGION_END <= |m|
    requires StagedIs(m, got, size)
    ensures StagedIs(Programmed(m, REGION_BASE + |got|, data), got + data, size)
  {
    var n := Programmed(m, REGION_BASE + |got|, data);
    ProgramOnBlank(m, REGION_BASE + |got|, data);
    assert Staged(n, |got|) == Staged(m, |got|);
    assert Staged(n, |got + data|) == Staged(n, |got|) + n[REGION_BASE + |got|..REGION_BASE + |got| + |data|];
  }

  lemma StagedElsewhere(m: seq<byte>, n: seq<byte>, got: seq<byte>, size: nat)
    requires |got| <= size <= REGION_SIZE && REGION_END <= |m|
    requires SameElsewhere(m, n, SLOT_A, SLOT_B)
    ensures Staged(n, size) == Staged(m, size)
    ensures StagedIs(m, got, size) ==> StagedIs(n, got, size)
  {
    assert Staged(n, |got|) == Staged(m, |got|);
  }

  /** The boot configuration does not notice what happens in the staging region. */
  lemma ConfigUndisturbed(l: Layout, m: seq<byte>, n: seq<byte>, before: seq<Outcome>, after: seq<Outcome>)
    requires l.a == SLOT_A && l.b == SLOT_B && l.size == SIZE && l.Fits(m, before)
    requires OnlyRegion(m, n)
    requires forall o :: o in after ==> o in before
    ensures l.Fits(n, after) && l.Current(n) == l.Current(m)
  {
    assert SlotAt(n, l.a, SIZE) == SlotAt(m, l.a, SIZE);
    assert SlotAt(n, l.b, SIZE) == SlotAt(m, l.b, SIZE);
  }

  predicate LastIsOkCommit(requests: seq<Request>, answers: seq<Status>)
    requires |requests| == |answers|
  {
    requests != [] && requests[|requests| - 1].Commit? && answers[|answers| - 1].Ok?
  }

  class Session {
    const config: Config
    const running: StreamCrc
    var sessionId: nat
    var expectedSize: nat
    var expectedCrc: bv32
    var nextOffset: nat

    /** The data of the chunks accepted since BEGIN. */
    ghost var accepted: seq<byte>
    /** No write of this session has failed, or lied. */
    ghost var clean: bool

    ghost predicate Valid()
      reads this, config, config.flash, running
    {
      && config.Valid() && REGION_END <= |config.flash.mem|
      && nextOffset == |accepted| <= expectedSize <= REGION_SIZE
      && (sessionId == 0 ==> Seen() == NO_SESSION)
      && running.state == Run(Step32, SEED32, accepted)
      && (sessionId != 0 && clean ==> StagedIs(config.flash.mem, accepted, expectedSize))
    }

    ghost function Seen(): Progress
      reads this
    {
      Progress(sessionId, expectedSize, expectedCrc, accepted)
    }

    constructor (bootConfig: Config)
      requires bootConfig.Valid() && REGION_END <= |bootConfig.flash.mem|
      ensures Valid() && Seen() == NO_SESSION && config == bootConfig && fresh(running)
    {
      config := bootConfig;
      running := new StreamCrc();
      sessionId, expectedSize, expectedCrc, nextOffset := 0, 0, 0, 0;
      accepted, clean := [], true;
    }

    method Reset()
      requires config.Valid() && REGION_END <= |config.flash.mem|
      modifies this, running
      ensures Valid() && Seen() == NO_SESSION && clean
    {
      sessionId, expectedSize, expectedCrc, nextOffset := 0, 0, 0, 0;
      running.Init();
      accepted, clean := [], true;
    }

    method Start(id: nat, size: nat, crc: bv32)
      requires config.Valid() && REGION_END <= |config.flash.mem|
      requires id != 0 && size <= REGION_SIZE && StagedIs(config.flash.mem, [], size)
      modifies this, running
      ensures Valid() && Seen() == Progress(id, size, crc, []) && clean
    {
      Reset();
      sessionId, expectedSize, expectedCrc := id, size, crc;
    }

    method Accept(offset: nat, data: seq<byte>)
      requires config.Valid() && REGION_END <= |config.flash.mem|
      requires sessionId != 0 && offset == nextOffset == |accepted|
      requires offset + |data| <= expectedSize <= REGION_SIZE
      requires running.state == Run(Step32, SEED32, accepted)
      requires clean ==> StagedIs(config.flash.mem, accepted + data, expectedSize)
      modifies this, running
      ensures Valid() && Seen() == old(Seen()).(got := old(accepted) + data) && clean == old(clean)
    {
      RunConcat(Step32, SEED32, accepted, data);
      running.Update(data);
      nextOffset := offset + |data|;
      accepted := accepted + data;
    }

    method EraseStage(size: nat) returns (rc: int)
      requires config.Valid() && REGION_END <= |config.flash.mem| && 0 < size <= REGION_SIZE
      modifies config.flash
      ensures config.Valid() && REGION_END <= |config.flash.mem|
      ensures config.Stored() == old(config.Stored())
      ensures rc == 0 ==> StagedIs(config.flash.mem, [], size)
      ensures old(config.flash.powered) && AllWork(old(config.flash.script)) ==> rc == 0
    {
      ghost var m, script := config.flash.mem, config.flash.script;
      rc := OtaStage.Begin(config.flash, size);
      ConfigUndisturbed(config.layout, m, config.flash.mem, script, config.flash.script);
    }

    method WriteStage(offset: nat, data: seq<byte>) returns (rc: int)
      requires Valid() && offset == nextOffset && offset + |data| <= expectedSize
      modifies config.flash
      ensures config.Valid() && REGION_END <= |config.flash.mem|
      ensures config.Stored() == old(config.Stored())
      ensures rc == 0 && sessionId != 0 && clean && Honest(old(config.flash.script)) ==>
        StagedIs(config.flash.mem, accepted + data, expectedSize)
      ensures old(config.flash.powered) && AllWork(old(config.flash.script)) && data != [] ==> rc == 0
    {
      ghost var m, script := config.flash.mem, config.flash.script;
      rc := OtaStage.Write(config.flash, offset, data);
      ConfigUndisturbed(config.layout, m, config.flash.mem, script, config.flash.script);
      if rc == 0 && sessionId != 0 && clean && Honest(script) {
        StagedGrows(m, accepted, expectedSize, data);
      }
    }

    method HandleBegin(id: nat, size: nat, crc: bv32) returns (status: Status)
      requires Valid()
      modifies this, running, config.flash
      ensures Valid()
      ensures MayAnswer(old(Seen()), Begin(id, size, crc), status)
      ensures Seen() == Advanced(old(Seen()), Begin(id, size, crc), status)
      ensures status.InvalidPayload? <==> id == 0 || size == 0
      ensures status.TooLarge? <==> id != 0 && size > 0x10_0000
      ensures status.InvalidPayload? || status.TooLarge? || status.Ok? || status.EraseFail?
      ensures status.Ok? ==> clean
      ensures old(config.flash.powered) && AllWork(old(config.flash.script)) ==> !status.EraseFail?
      ensures config.Stored() == old(config.Stored())
    {
      if id == 0 || size == 0 {
        return InvalidPayload;
      }
      if size > REGION_SIZE {
        return TooLarge;
      }
      var rc := EraseStage(size);
      if rc != 0 {
        Reset();
        return EraseFail;
      }
      Start(id, size, crc);
      status := Ok;
    }

    method HandleChunk(id: nat, offset: nat, data: seq<byte>) returns (status: Status, next: nat, crc: bv32)
      requires Valid()
      modifies this, running, config.flash
      ensures Valid()
      ensures MayAnswer(old(Seen()), Chunk(id, offset, data), status)
      ensures Seen() == Advanced(old(Seen()), Chunk(id, offset, data), status)
      ensures status.NoSession? <==> old(sessionId) == 0
      ensures status.SessionInvalid? <==> old(sessionId) != 0 && id != old(sessionId)
      ensures status.OffsetMismatch? <==> old(sessionId) != 0 && id == old(sessionId) && offset != |old(accepted)|
      ensures status.Oversize? <==>
        old(sessionId) != 0 && id == old(sessionId) && offset == |old(accepted)| && offset + |data| > old(expectedSize)
      ensures !status.Ok? && !status.WriteError? ==> unchanged(config.flash)
      ensures next == |Seen().got| && crc == Crc32(Seen().got)
      ensures status.Ok? && old(clean) && Honest(old(config.flash.script)) ==> clean
      ensures old(config.flash.powered) && AllWork(old(config.flash.script)) && data != [] ==> !status.WriteError?
      ensures config.Stored() == old(config.Stored())
    {
      status, next, crc := Ok, nextOffset, running.Finalize();
      if sessionId == 0 {
        return NoSession, next, crc;
      }
      if id != sessionId {
        return SessionInvalid, next, crc;
      }
      if offset != nextOffset {
        return OffsetMismatch, next, crc;
      }
      if offset + |data| > expectedSize {
        return Oversize, next, crc;
      }
      ghost var honest := Honest(config.flash.script);
      var rc := WriteStage(offset, data);
      clean := clean && honest && rc == 0;
      if rc != 0 {
        return WriteError, next, crc;
      }
      Accept(offset, data);
      next, crc := nextOffset, running.Finalize();
    }

    /**
     * Ok only if the announced number of bytes was accepted and what is read back from the
     * flash has the announced checksum, whatever happened to the flash in between. In a
     * clean session what is read back is what was accepted.
     */
    method HandleCommit(id: nat) returns (status: Status)
      requires Valid()
      modifies config.flash, config.cfg
      ensures Valid() && Seen() == old(Seen()) && clean == old(clean)
      ensures MayAnswer(Seen(), Commit(id), status)
      ensures status.NoSession? <==> sessionId == 0
      ensures status.SessionInvalid? <==> sessionId != 0 && id != sessionId
      ensures status.OffsetMismatch? <==> sessionId != 0 && id == sessionId && |accepted| != expectedSize
      ensures !status.Ok? && !status.PersistFail? ==> unchanged(config.flash) && config.cfg[..] == old(config.cfg[..])
      ensures OthersAlike(Payload(config.cfg[..]), old(Payload(config.cfg[..])))
      ensures old(config.OthersAgree()) ==>
        config.OthersAgree() && OthersAlike(Payload(config.Stored()), old(Payload(config.Stored())))
      ensures status.Ok? ==>
        Crc32(Staged(config.flash.mem, expectedSize)) == expectedCrc && |accepted| == expectedSize
      ensures Screened(Seen(), Commit(id)).Ok? ==>
        (status.CrcMismatch? <==> Crc32(Staged(old(config.flash.mem), expectedSize)) != expectedCrc)
      ensures Screened(Seen(), Commit(id)).Ok? && clean ==> Staged(config.flash.mem, expectedSize) == accepted
      ensures status.Ok? && old(config.Synced()) ==>
        OtaOf(config.Stored()) == Ota(1, expectedSize, expectedCrc)
    {
      if sessionId == 0 {
        return NoSession;
      }
      if id != sessionId {
        return SessionInvalid;
      }
      if nextOffset != expectedSize {
        return OffsetMismatch;
      }
      var staged := ComputeStagedCrc(config.flash, expectedSize);
      if staged != expectedCrc {
        return CrcMismatch;
      }
      ghost var m := config.flash.mem;
      var rc := config.SetPendingOta(true, expectedSize, expectedCrc);
      StagedElsewhere(m, config.flash.mem, accepted, expectedSize);
      if rc != 0 {
        return PersistFail;
      }
      status := Ok;
    }

    method HandleAbort(id: nat)
      requires Valid()
      modifies this, running
      ensures Valid() && Seen() == Advanced(old(Seen()), Abort(id), Ok)
    {
      if sessionId != 0 && id == sessionId {
        Reset();
      }
    }

    method Handle(r: Request) returns (status: Status)
      requires Valid()
      modifies this, running, config.flash, config.cfg
      ensures Valid()
      ensures MayAnswer(old(Seen()), r, status)
      ensures Seen() == Advanced(old(Seen()), r, status)
      ensures r.Commit? && status.Ok? ==> ReadsBack() && sessionId != 0
      ensures OthersAlike(Payload(config.cfg[..]), old(Payload(config.cfg[..])))
      ensures old(config.OthersAgree()) ==>
        config.OthersAgree() && OthersAlike(Payload(config.Stored()), old(Payload(config.Stored())))
      ensures !r.Commit? || old(sessionId) == 0 || r.id != old(sessionId) ==>
        config.Stored() == old(config.Stored()) && config.cfg[..] == old(config.cfg[..])
    {
      match r {
        case Begin(id, size, crc) =>
          status := HandleBegin(id, size, crc);
        case Chunk(id, offset, data) =>
          var next, crc;
          status, next, crc := HandleChunk(id, offset, data);
        case Commit(id) =>
          status := HandleCommit(id);
        case Abort(id) =>
          HandleAbort(id);
          status := Ok;
      }
    }

    /** The staging region reads back as what the client of the session announced. */
    ghost predicate ReadsBack()
      requires config.Valid() && REGION_END <= |config.flash.mem| && expectedSize <= REGION_SIZE
      reads this, config, config.flash
    {
      |accepted| == expectedSize && Crc32(Staged(config.flash.mem, expectedSize)) == expectedCrc
    }

    /**
     * Any sequence of requests: the session is always the one the answers tell of. Chunks
     * and commits are answered Ok only with the token of the session that is open, and
     * whenever the last answer is Ok to a COMMIT, what the flash reads back is the announced
     * image; being about any sequence, this is about every COMMIT that is answered Ok. The
     * other settings of the boot configuration stay, and all of it stays unless some COMMIT
     * names the open session.
     */
    method Serve(requests: seq<Request>) returns (answers: seq<Status>)
      requires Valid() && Seen() == NO_SESSION
      modifies this, running, config.flash, config.cfg
      ensures Valid()
      ensures |answers| == |requests| && Plausible(requests, answers)
      ensures Seen() == Replayed(requests, answers)
      ensures forall k :: 0 <= k < |requests| && answers[k].Ok? && (requests[k].Chunk? || requests[k].Commit?) ==>
        IsOpen(requests[..k], answers[..k], requests[k].id)
      ensures LastIsOkCommit(requests, answers) ==> ReadsBack()
      ensures LastIsOkCommit(requests, answers) && clean ==> Staged(config.flash.mem, expectedSize) == accepted
      ensures OthersAlike(Payload(config.cfg[..]), old(Payload(config.cfg[..])))
      ensures old(config.OthersAgree()) ==> OthersAlike(Payload(config.Stored()), old(Payload(config.Stored())))
      ensures OnlyStaleCommits(requests, answers) ==>
        config.Stored() == old(config.Stored()) && config.cfg[..] == old(config.cfg[..])
    {
      answers := [];
      for k := 0 to |requests|
        invariant Valid() && |answers| == k
        invariant Plausible(requests[..k], answers)
        invariant Seen() == Replayed(requests[..k], answers)
        invariant LastIsOkCommit(requests[..k], answers) ==> ReadsBack() && sessionId != 0
        invariant OthersAlike(Payload(config.cfg[..]), old(Payload(config.cfg[..])))
        invariant old(config.OthersAgree()) ==>
          config.OthersAgree() && OthersAlike(Payload(config.Stored()), old(Payload(config.Stored())))
        invariant OnlyStaleCommits(requests[..k], answers) ==>
          config.Stored() == old(config.Stored()) && config.cfg[..] == old(config.cfg[..])
      {
        OpenSession(requests[..k], answers);
        var status := Handle(requests[k]);
        OneMore(requests, k, answers, status);
        if OnlyStaleCommits(requests[..k + 1], answers + [status]) {
          StaleAgain(requests, k, answers, status);
        }
        answers := answers + [status];
      }
      assert requests[..|requests|] == requests;
      forall k | 0 <= k < |requests| && answers[k].Ok? && (requests[k].Chunk? || requests[k].Commit?)
        ensures IsOpen(requests[..k], answers[..k], requests[k].id)
      {
        OkNamesOpenSession(requests, answers, k);
      }
    }
  }

  /** For every token, whether it is that of the open session. */
  lemma OpenSession(requests: seq<Request>, answers: seq<Status>)
    requires |requests| == |answers| && Plausible(requests, answers)
    ensures var id := Replayed(requests, answers).id; id != 0 ==> IsOpen(requests, answers, id)
  {
    OpenExactly(requests, answers, Replayed(requests, answers).id);
  }

  lemma StaleAgain(requests: seq<Request>, k: nat, answers: seq<Status>, s: Status)
    requires |answers| == k < |requests| && OnlyStaleCommits(requests[..k + 1], answers + [s])
    ensures OnlyStaleCommits(requests[..k], answers)
    ensures requests[k].Commit? ==> !IsOpen(requests[..k], answers, requests[k].id)
  {
    assert requests[..k + 1] == requests[..k] + [requests[k]];
    StaleStep(requests[..k], answers, requests[k], s);
  }

  lemma OneMore(requests: seq<Request>, k: nat, answers: seq<Status>, s: Status)
    requires |answers| == k < |requests|
    requires Plausible(requests[..k], answers)
    requires MayAnswer(Replayed(requests[..k], answers), requests[k], s)
    ensures Plausible(requests[..k + 1], answers + [s])
    ensures Replayed(requests[..k + 1], answers + [s]) == Advanced(Replayed(requests[..k], answers), requests[k], s)
  {
    assert requests[..k + 1][..k] == requests[..k] && (answers + [s])[..k] == answers;
  }
}
