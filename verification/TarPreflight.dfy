/** The scanner's framing walk over a tar stream, before any archive library reads
    it (ustar Interchange Format, pax utility, IEEE Std 1003.1). */
module TarPreflight {
  import opened Prelude
  import opened Bytes

  const BLOCK: nat := 512

  datatype MemberKind = ExtendedHeader | GlobalHeader | LongName | LongLink | Sparse | Plain

  /** What the walk uses of a parsed header block. */
  datatype Header = Header(size: int, kind: MemberKind, foreignOwner: bool)

  /** Parsing a block, and the ownership records of an extended header's body. */
  datatype Parser = Parser(header: seq<Byte> -> Option<Header>, foreignRecord: seq<Byte> -> bool)

  datatype Limits = Limits(maxMembers: nat, maxMetadataBytes: nat)

  datatype TarError = UnexpectedEnd | UnexpectedTrailer | InvalidHeader | MemberLimit | MetadataLimit | Unsupported

  /** The members counted, and whether any names an owner other than root. */
  datatype Report = Report(members: nat, foreignOwner: bool)

  predicate IsMetadata(kind: MemberKind) {
    kind in {ExtendedHeader, GlobalHeader, LongName, LongLink}
  }

  function Padded(size: nat): (padded: nat)
    ensures size <= padded < size + BLOCK && padded % BLOCK == 0
  {
    (size + 511) / 512 * 512
  }

  ghost predicate AllZero(bytes: seq<Byte>) {
    forall i :: 0 <= i < |bytes| ==> bytes[i] == 0
  }

  /** Ownership as the walk records it for one member. */
  function Foreign(parser: Parser, h: Header, body: seq<Byte>): bool {
    h.foreignOwner || (h.kind in {ExtendedHeader, GlobalHeader} && parser.foreignRecord(body))
  }

  // ---- What a well-framed stream is ----

  /** A header block that is not all zeros, and its body padded to whole blocks. */
  ghost predicate IsMember(parser: Parser, limits: Limits, record: seq<Byte>) {
    && |record| >= BLOCK
    && !AllZero(record[..BLOCK])
    && parser.header(record[..BLOCK]).Some?
    && var h := parser.header(record[..BLOCK]).value;
    && h.size >= 0 && h.kind != Sparse
    && (h.kind != Plain ==> h.size <= limits.maxMetadataBytes)
    && |record| == BLOCK + Padded(h.size)
  }

  /** Members, then at least two blocks' worth of zeros and nothing else. */
  ghost predicate FramedAs(parser: Parser, limits: Limits, stream: seq<Byte>, records: seq<seq<Byte>>,
      zeros: seq<Byte>) {
    && stream == Flatten(records) + zeros
    && (forall r :: r in records ==> IsMember(parser, limits, r))
    && AllZero(zeros) && |zeros| >= 2 * BLOCK
  }

  ghost predicate MemberForeign(parser: Parser, record: seq<Byte>)
    requires |record| >= BLOCK
  {
    parser.header(record[..BLOCK]).Some?
    && var h := parser.header(record[..BLOCK]).value;
    0 <= h.size <= |record| - BLOCK
    && (h.foreignOwner || ((h.kind.ExtendedHeader? || h.kind.GlobalHeader?)
          && parser.foreignRecord(record[BLOCK..BLOCK + h.size])))
  }

  ghost predicate AnyForeign(parser: Parser, records: seq<seq<Byte>>) {
    exists m :: m in records && |m| >= BLOCK && MemberForeign(parser, m)
  }

  /** What is wrong behind that many members, read off the first block and the length; nothing
      if a member or the end stands there. */
  ghost function Fault(parser: Parser, limits: Limits, members: nat, tail: seq<Byte>): Option<TarError> {
    if |tail| < BLOCK then Some(UnexpectedEnd)
    else if AllZero(tail[..BLOCK]) then
      if |tail| < 2 * BLOCK then Some(UnexpectedEnd)
      else if !AllZero(tail) then Some(UnexpectedTrailer)
      else None
    else match parser.header(tail[..BLOCK])
      case None => Some(InvalidHeader)
      case Some(h) =>
        if members >= limits.maxMembers then Some(MemberLimit)
        else if h.kind !in {Sparse, Plain} && h.size > limits.maxMetadataBytes then Some(MetadataLimit)
        else if h.kind == Sparse || h.size < 0 then Some(Unsupported)
        else if |tail| / BLOCK * BLOCK < BLOCK + h.size then Some(UnexpectedEnd)
        else None
  }

  /** Behind that many members, further ones within the limit, and then something that is
      neither one nor the end. */
  ghost predicate Breaks(parser: Parser, limits: Limits, members: nat, stream: seq<Byte>, records: seq<seq<Byte>>,
      tail: seq<Byte>, e: TarError) {
    && stream == Flatten(records) + tail
    && (forall r :: r in records ==> IsMember(parser, limits, r))
    && members + |records| <= limits.maxMembers && Fault(parser, limits, members + |records|, tail) == Some(e)
  }

  // ---- The walk ----

  /** One header: where the next one starts, or why the walk stops. */
  function Advance(parser: Parser, limits: Limits, stream: seq<Byte>, offset: nat, headers: nat)
    : (r: Result<(nat, bool), TarError>)
    requires offset + BLOCK <= |stream|
    ensures r.Success? ==> offset < r.value.0 <= |stream|
  {
    var parsed := parser.header(stream[offset..offset + BLOCK]);
    if parsed.None? then Failure(InvalidHeader) else
    var h := parsed.value;
    if headers + 1 > limits.maxMembers then Failure(MemberLimit)
    else if IsMetadata(h.kind) && h.size > limits.maxMetadataBytes then Failure(MetadataLimit)
    else if h.kind == Sparse || h.size < 0 then Failure(Unsupported)
    else if offset + BLOCK + Padded(h.size) > |stream| then Failure(UnexpectedEnd)
    else Success((offset + BLOCK + Padded(h.size),
      Foreign(parser, h, stream[offset + BLOCK..offset + BLOCK + h.size])))
  }

  ghost function Walk(parser: Parser, limits: Limits, stream: seq<Byte>, offset: nat, report: Report)
    : Result<Report, TarError>
    decreases |stream| - offset
  {
    if offset + BLOCK > |stream| then Failure(UnexpectedEnd)
    else if AllZero(stream[offset..offset + BLOCK]) then
      if offset + 2 * BLOCK > |stream| then Failure(UnexpectedEnd)
      else if AllZero(stream[offset..]) then Success(report)
      else Failure(UnexpectedTrailer)
    else match Advance(parser, limits, stream, offset, report.members)
      case Failure(e) => Failure(e)
      case Success((next, foreign)) =>
        Walk(parser, limits, stream, next, Report(report.members + 1, report.foreignOwner || foreign))
  }

  /** `any(...)` over bytes that were read in pieces of `chunk` bytes. */
  method OnlyZeros(stream: seq<Byte>, offset: nat, chunk: nat) returns (zero: bool)
    requires offset <= |stream| && chunk > 0
    ensures zero <==> AllZero(stream[offset..])
  {
    var at := offset;
    while at < |stream|
      invariant offset <= at <= |stream|
      invariant forall i :: offset <= i < at ==> stream[i] == 0
    {
      var end := if at + chunk <= |stream| then at + chunk else |stream|;
      for i := at to end
        invariant forall k :: offset <= k < i ==> stream[k] == 0
      {
        if stream[i] != 0 {
          assert stream[offset..][i - offset] == stream[i];
          return false;
        }
      }
      at := end;
    }
    assert forall i :: 0 <= i < |stream[offset..]| ==> stream[offset..][i] == stream[offset + i];
    return true;
  }

  method Preflight(parser: Parser, limits: Limits, stream: seq<Byte>, chunk: nat)
      returns (r: Result<Report, TarError>)
    requires chunk > 0
    ensures r == Walk(parser, limits, stream, 0, Report(0, false))
    ensures r.Success? <==> exists records, zeros ::
      FramedAs(parser, limits, stream, records, zeros) && |records| <= limits.maxMembers
    ensures r.Success? ==> exists records, zeros ::
      FramedAs(parser, limits, stream, records, zeros) && r.value == Report(|records|, AnyForeign(parser, records))
    ensures forall e :: r == Failure(e) <==> exists records, tail ::
      Breaks(parser, limits, 0, stream, records, tail, e)
  {
    r := WalkStream(parser, limits, stream, chunk);
    assert stream[0..] == stream;
    if r.Success? {
      var records, zeros := WalkFrames(parser, limits, stream, 0, Report(0, false));
    } else {
      var records, tail := WalkBreaks(parser, limits, stream, 0, Report(0, false));
    }
    forall records, tail, e | Breaks(parser, limits, 0, stream, records, tail, e)
      ensures r == Failure(e)
    {
      BreaksWalk(parser, limits, stream, 0, Report(0, false), records, tail, e);
    }
    forall records, zeros | FramedAs(parser, limits, stream, records, zeros) && |records| <= limits.maxMembers
      ensures r.Success?
    {
      FramedWalks(parser, limits, stream, 0, Report(0, false), records, zeros);
    }
  }

  /** The loop: `offset` strictly grows. */
  method WalkStream(parser: Parser, limits: Limits, stream: seq<Byte>, chunk: nat)
      returns (r: Result<Report, TarError>)
    requires chunk > 0
    ensures r == Walk(parser, limits, stream, 0, Report(0, false))
  {
    var offset, headers, foreign := 0, 0, false;
    while offset < |stream|
      invariant offset <= |stream|
      invariant Walk(parser, limits, stream, offset, Report(headers, foreign))
        == Walk(parser, limits, stream, 0, Report(0, false))
    {
      if offset + BLOCK > |stream| {
        return Failure(UnexpectedEnd);
      }
      var zero := OnlyZeros(stream[..offset + BLOCK], offset, BLOCK);
      assert stream[..offset + BLOCK][offset..] == stream[offset..offset + BLOCK];
      if zero {
        if offset + 2 * BLOCK > |stream| {
          return Failure(UnexpectedEnd);
        }
        var padding := OnlyZeros(stream, offset, chunk);
        return if padding then Success(Report(headers, foreign)) else Failure(UnexpectedTrailer);
      }
      var step := Advance(parser, limits, stream, offset, headers);
      if step.Failure? {
        return Failure(step.error);
      }
      offset, headers, foreign := step.value.0, headers + 1, foreign || step.value.1;
    }
    return Failure(UnexpectedEnd);
  }

  // ---- Both directions ----

  /** An accepted stream is framed, and the report counts its members. */
  lemma {:induction false} WalkFrames(parser: Parser, limits: Limits, stream: seq<Byte>, offset: nat, report: Report)
      returns (records: seq<seq<Byte>>, zeros: seq<Byte>)
    requires offset <= |stream| && Walk(parser, limits, stream, offset, report).Success?
    requires report.members <= limits.maxMembers
    ensures FramedAs(parser, limits, stream[offset..], records, zeros)
    ensures report.members + |records| <= limits.maxMembers
    ensures Walk(parser, limits, stream, offset, report).value
      == Report(report.members + |records|, report.foreignOwner || AnyForeign(parser, records))
    decreases |stream| - offset
  {
    if AllZero(stream[offset..offset + BLOCK]) {
      records, zeros := [], stream[offset..];
    } else {
      var (next, foreign) := Advance(parser, limits, stream, offset, report.members).value;
      var rest;
      rest, zeros := WalkFrames(parser, limits, stream, next,
        Report(report.members + 1, report.foreignOwner || foreign));
      var record := stream[offset..next];
      records := [record] + rest;
      SplitRecord(parser, limits, stream, offset, next, foreign, report.members);
      assert stream[offset..] == record + stream[next..];
      assert records[1..] == rest;
      AnyForeignFirst(parser, record, rest);
    }
  }

  lemma AnyForeignFirst(parser: Parser, record: seq<Byte>, rest: seq<seq<Byte>>)
    requires |record| >= BLOCK
    ensures AnyForeign(parser, [record] + rest) <==> MemberForeign(parser, record) || AnyForeign(parser, rest)
  {
    assert record in [record] + rest;
    assert forall m :: m in [record] + rest <==> m == record || m in rest;
  }

  /** What the walk advances over is one member. */
  lemma SplitRecord(parser: Parser, limits: Limits, stream: seq<Byte>, offset: nat, next: nat, foreign: bool,
      members: nat)
    requires offset + BLOCK <= |stream| && !AllZero(stream[offset..offset + BLOCK])
    requires Advance(parser, limits, stream, offset, members) == Success((next, foreign))
    ensures IsMember(parser, limits, stream[offset..next]) && MemberForeign(parser, stream[offset..next]) == foreign
  {
    var record := stream[offset..next];
    assert record[..BLOCK] == stream[offset..offset + BLOCK];
    var h := parser.header(record[..BLOCK]).value;
    assert record[BLOCK..BLOCK + h.size] == stream[offset + BLOCK..offset + BLOCK + h.size];
  }

  /** The walk passes a member that is within the limit. */
  lemma PassesMember(parser: Parser, limits: Limits, stream: seq<Byte>, offset: nat, report: Report,
      record: seq<Byte>, more: seq<Byte>)
    requires offset <= |stream| && stream[offset..] == record + more
    requires IsMember(parser, limits, record) && report.members < limits.maxMembers
    ensures offset + |record| <= |stream| && stream[offset + |record|..] == more
    ensures Walk(parser, limits, stream, offset, report)
      == Walk(parser, limits, stream, offset + |record|,
           Report(report.members + 1, report.foreignOwner || MemberForeign(parser, record)))
  {
    var rest, next := stream[offset..], offset + |record|;
    assert rest[..|record|] == record;
    assert stream[offset..offset + BLOCK] == rest[..BLOCK] == record[..BLOCK];
    assert stream[next..] == rest[|record|..] == more;
    assert stream[offset..next] == record;
    var (after, foreign) := Advance(parser, limits, stream, offset, report.members).value;
    SplitRecord(parser, limits, stream, offset, next, foreign, report.members);
  }

  /** A framed stream is accepted, whatever its members hold. */
  lemma {:induction false} FramedWalks(parser: Parser, limits: Limits, stream: seq<Byte>, offset: nat, report: Report,
      records: seq<seq<Byte>>, zeros: seq<Byte>)
    requires offset <= |stream| && FramedAs(parser, limits, stream[offset..], records, zeros)
    requires report.members + |records| <= limits.maxMembers
    ensures Walk(parser, limits, stream, offset, report).Success?
    decreases |records|
  {
    if records == [] {
      assert stream[offset..] == zeros;
      assert stream[offset..offset + BLOCK] == zeros[..BLOCK];
    } else {
      var record, more := records[0], Flatten(records[1..]) + zeros;
      assert stream[offset..] == record + more;
      PassesMember(parser, limits, stream, offset, report, record, more);
      FramedWalks(parser, limits, stream, offset + |record|,
        Report(report.members + 1, report.foreignOwner || MemberForeign(parser, record)), records[1..], zeros);
    }
  }

  // ---- Why a stream is refused ----

  lemma PaddedFits(size: nat, length: nat)
    requires length >= BLOCK
    ensures BLOCK + Padded(size) <= length <==> BLOCK + size <= length / BLOCK * BLOCK
  {
    var blocks := length / BLOCK;
    assert blocks * BLOCK <= length < (blocks + 1) * BLOCK;
    assert Padded(size) == (size + 511) / 512 * 512;
    if BLOCK + size <= blocks * BLOCK {
      assert (size + 511) / 512 <= blocks - 1;
    }
  }

  /** At one place: a fault there is the error of the walk, and anything else advances. */
  lemma FaultHere(parser: Parser, limits: Limits, stream: seq<Byte>, offset: nat, report: Report)
    requires offset <= |stream|
    ensures var fault := Fault(parser, limits, report.members, stream[offset..]);
      && (fault.Some? ==> Walk(parser, limits, stream, offset, report) == Failure(fault.value))
      && (fault.None? && !AllZero(stream[offset..offset + BLOCK]) ==>
            Advance(parser, limits, stream, offset, report.members).Success?)
      && (fault.None? && AllZero(stream[offset..offset + BLOCK]) ==>
            Walk(parser, limits, stream, offset, report) == Success(report))
  {
    var tail := stream[offset..];
    if |tail| >= BLOCK {
      assert tail[..BLOCK] == stream[offset..offset + BLOCK];
      var parsed := parser.header(tail[..BLOCK]);
      if parsed.Some? && parsed.value.size >= 0 {
        PaddedFits(parsed.value.size, |tail|);
      }
    }
  }

  /** A refused stream has members and then the fault that it is refused for, ... */
  lemma {:induction false} WalkBreaks(parser: Parser, limits: Limits, stream: seq<Byte>, offset: nat, report: Report)
      returns (records: seq<seq<Byte>>, tail: seq<Byte>)
    requires offset <= |stream| && Walk(parser, limits, stream, offset, report).Failure?
    requires report.members <= limits.maxMembers
    ensures Breaks(parser, limits, report.members, stream[offset..], records, tail,
              Walk(parser, limits, stream, offset, report).error)
    decreases |stream| - offset
  {
    FaultHere(parser, limits, stream, offset, report);
    if Fault(parser, limits, report.members, stream[offset..]).Some? {
      records, tail := [], stream[offset..];
    } else {
      var (next, foreign) := Advance(parser, limits, stream, offset, report.members).value;
      var rest;
      rest, tail := WalkBreaks(parser, limits, stream, next,
        Report(report.members + 1, report.foreignOwner || foreign));
      var record := stream[offset..next];
      records := [record] + rest;
      SplitRecord(parser, limits, stream, offset, next, foreign, report.members);
      assert stream[offset..] == record + stream[next..];
      assert records[1..] == rest;
    }
  }

  /** ... and a stream of members and then a fault is refused for it. */
  lemma {:induction false} BreaksWalk(parser: Parser, limits: Limits, stream: seq<Byte>, offset: nat, report: Report,
      records: seq<seq<Byte>>, tail: seq<Byte>, e: TarError)
    requires offset <= |stream| && Breaks(parser, limits, report.members, stream[offset..], records, tail, e)
    ensures Walk(parser, limits, stream, offset, report) == Failure(e)
    decreases |records|
  {
    if records == [] {
      assert stream[offset..] == tail;
      FaultHere(parser, limits, stream, offset, report);
    } else {
      var record, more := records[0], Flatten(records[1..]) + tail;
      assert stream[offset..] == record + more;
      PassesMember(parser, limits, stream, offset, report, record, more);
      BreaksWalk(parser, limits, stream, offset + |record|,
        Report(report.members + 1, report.foreignOwner || MemberForeign(parser, record)), records[1..], tail, e);
    }
  }
}
