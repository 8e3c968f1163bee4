/** The journal's bytes: records of commands, raw or in compressed blocks, and what reading them back replays. */
module JournalFormat {
  import opened Wrappers
  import opened OrderTypes
  import opened Bytes
  import opened RiskSpec

  datatype Header = Header(seqNo: int, timestamp: int, serviceFlags: int, eventsGroup: int)

  /** Commands that are journaled. A persist command has a record that the reader refuses. */
  datatype Command =
    | Place(h: Header, uid: int, symbol: int, orderId: int, price: int, reserveBidPrice: int, size: int,
            userCookie: int, action: OrderAction, orderType: OrderType)
    | Move(h: Header, uid: int, symbol: int, orderId: int, price: int)
    | Cancel(h: Header, uid: int, symbol: int, orderId: int)
    | Reduce(h: Header, uid: int, symbol: int, orderId: int, size: int)
    | Adjust(h: Header, uid: int, currency: int, transactionId: int, amount: int, kind: AdjustmentType)
    | CreateUser(h: Header, uid: int)
    | SuspendUser(h: Header, uid: int)
    | ResumeUser(h: Header, uid: int)
    | Reset(h: Header)
    | PersistMatching(h: Header)
    | PersistRisk(h: Header)

  /** Calls that replay a command. */
  datatype Call =
    | PlaceCall(flags: int, group: int, timestamp: int, orderId: int, userCookie: int, price: int, reserveBidPrice: int,
                size: int, action: OrderAction, orderType: OrderType, symbol: int, uid: int)
    | MoveCall(flags: int, group: int, timestamp: int, price: int, orderId: int, symbol: int, uid: int)
    | CancelCall(flags: int, group: int, timestamp: int, orderId: int, symbol: int, uid: int)
    | ReduceCall(flags: int, group: int, timestamp: int, size: int, orderId: int, symbol: int, uid: int)
    | AdjustCall(flags: int, group: int, timestamp: int, uid: int, transactionId: int, currency: int, amount: int,
                 kind: AdjustmentType)
    | CreateUserCall(flags: int, group: int, timestamp: int, uid: int)
    | SuspendUserCall(flags: int, group: int, timestamp: int, uid: int)
    | ResumeUserCall(flags: int, group: int, timestamp: int, uid: int)
    | ResetCall(timestamp: int)

  /** The call that has the effect of the command, if it has one. */
  function CallOf(c: Command): Option<Call> {
    var f, g, t := c.h.serviceFlags, c.h.eventsGroup, c.h.timestamp;
    match c
    case Place(_, uid, symbol, orderId, price, reserve, size, cookie, action, orderType) =>
      Some(PlaceCall(f, g, t, orderId, cookie, price, reserve, size, action, orderType, symbol, uid))
    case Move(_, uid, symbol, orderId, price) => Some(MoveCall(f, g, t, price, orderId, symbol, uid))
    case Cancel(_, uid, symbol, orderId) => Some(CancelCall(f, g, t, orderId, symbol, uid))
    case Reduce(_, uid, symbol, orderId, size) => Some(ReduceCall(f, g, t, size, orderId, symbol, uid))
    case Adjust(_, uid, currency, transactionId, amount, kind) =>
      Some(AdjustCall(f, g, t, uid, transactionId, currency, amount, kind))
    case CreateUser(_, uid) => Some(CreateUserCall(f, g, t, uid))
    case SuspendUser(_, uid) => Some(SuspendUserCall(f, g, t, uid))
    case ResumeUser(_, uid) => Some(ResumeUserCall(f, g, t, uid))
    case Reset(_) => Some(ResetCall(t))
    case PersistMatching(_) => None
    case PersistRisk(_) => None
  }

  /** The call says what the command said. */
  predicate Replays(c: Command, call: Call) {
    && call.timestamp == c.h.timestamp
    && (!call.ResetCall? ==> call.flags == c.h.serviceFlags && call.group == c.h.eventsGroup)
    && match call
       case PlaceCall(_, _, _, _, _, _, _, _, _, _, _, _) =>
         && c.Place? && call.uid == c.uid && call.symbol == c.symbol && call.orderId == c.orderId
         && call.price == c.price && call.reserveBidPrice == c.reserveBidPrice && call.size == c.size
         && call.userCookie == c.userCookie && call.action == c.action && call.orderType == c.orderType
       case MoveCall(_, _, _, _, _, _, _) =>
         c.Move? && call.uid == c.uid && call.symbol == c.symbol && call.orderId == c.orderId && call.price == c.price
       case CancelCall(_, _, _, _, _, _) =>
         c.Cancel? && call.uid == c.uid && call.symbol == c.symbol && call.orderId == c.orderId
       case ReduceCall(_, _, _, _, _, _, _) =>
         c.Reduce? && call.uid == c.uid && call.symbol == c.symbol && call.orderId == c.orderId && call.size == c.size
       case AdjustCall(_, _, _, _, _, _, _, _) =>
         && c.Adjust? && call.uid == c.uid && call.currency == c.currency && call.transactionId == c.transactionId
         && call.amount == c.amount && call.kind == c.kind
       case CreateUserCall(_, _, _, _) => c.CreateUser? && call.uid == c.uid
       case SuspendUserCall(_, _, _, _) => c.SuspendUser? && call.uid == c.uid
       case ResumeUserCall(_, _, _, _) => c.ResumeUser? && call.uid == c.uid
       case ResetCall(_) => c.Reset?
  }

  /** Every command but the persist commands has exactly one call that says what it said. */
  lemma OneReplays(c: Command, call: Call)
    ensures CallOf(c) == Some(call) <==> Replays(c, call)
    ensures CallOf(c).None? <==> c.PersistMatching? || c.PersistRisk?
  {
  }

  // ----- Records -----

  const COMPRESSED: int := -1

  function CodeOf(c: Command): int {
    match c
    case Place(_, _, _, _, _, _, _, _, _, _) => 1
    case Cancel(_, _, _, _) => 2
    case Move(_, _, _, _, _) => 3
    case Reduce(_, _, _, _, _) => 4
    case CreateUser(_, _) => 10
    case Adjust(_, _, _, _, _, _) => 11
    case SuspendUser(_, _) => 12
    case ResumeUser(_, _) => 13
    case PersistMatching(_) => 110
    case PersistRisk(_) => 111
    case Reset(_) => 124
  }

  function OrderTypeCode(t: OrderType): int {
    match t case GTC => 0 case IOC => 1 case IOC_BUDGET => 2 case FOK => 3 case FOK_BUDGET => 4
  }

  function OrderTypeFrom(code: int): Option<OrderType> {
    match code case 0 => Some(GTC) case 1 => Some(IOC) case 2 => Some(IOC_BUDGET) case 3 => Some(FOK) case 4 =>
        Some(FOK_BUDGET) case _ => None
  }

  function ActionAndType(action: OrderAction, t: OrderType): int {
    2 * OrderTypeCode(t) + if action == BID then 1 else 0
  }

  /** A value and the number of bytes it takes. */
  datatype Field = Field(value: int, width: nat)

  function HeaderFields(h: Header): seq<Field> {
    [Field(h.seqNo, 8), Field(h.timestamp, 8), Field(h.serviceFlags, 4), Field(h.eventsGroup, 8)]
  }

  function BodyFields(c: Command): seq<Field> {
    match c
    case Place(_, uid, symbol, orderId, price, reserve, size, cookie, action, orderType) =>
      [Field(uid, 8), Field(symbol, 4), Field(orderId, 8), Field(price, 8), Field(reserve, 8), Field(size, 8),
       Field(cookie, 4), Field(ActionAndType(action, orderType), 1)]
    case Move(_, uid, symbol, orderId, price) => [Field(uid, 8), Field(symbol, 4), Field(orderId, 8), Field(price, 8)]
    case Cancel(_, uid, symbol, orderId) => [Field(uid, 8), Field(symbol, 4), Field(orderId, 8)]
    case Reduce(_, uid, symbol, orderId, size) => [Field(uid, 8), Field(symbol, 4), Field(orderId, 8), Field(size, 8)]
    case Adjust(_, uid, currency, transactionId, amount, kind) =>
      [Field(uid, 8), Field(currency, 4), Field(transactionId, 8), Field(amount, 8),
       Field(if kind == ADJUSTMENT then 0 else 1, 1)]
    case CreateUser(_, uid) => [Field(uid, 8)]
    case SuspendUser(_, uid) => [Field(uid, 8)]
    case ResumeUser(_, uid) => [Field(uid, 8)]
    case Reset(_) => []
    case PersistMatching(_) => []
    case PersistRisk(_) => []
  }

  function Encode(fields: seq<Field>): seq<byte> {
    if fields == [] then [] else ToBytes(fields[0].value, fields[0].width) + Encode(fields[1..])
  }

  function RecordOf(c: Command): seq<byte> {
    ToBytes(CodeOf(c), 1) + (Encode(HeaderFields(c.h)) + Encode(BodyFields(c)))
  }

  /** Every field fits its width. */
  ghost predicate FieldsFit(fields: seq<Field>) {
    forall i | 0 <= i < |fields| :: Fits(fields[i].value, fields[i].width)
  }

  ghost predicate CommandOk(c: Command) {
    FieldsFit(HeaderFields(c.h)) && FieldsFit(BodyFields(c))
  }

  function Records(cs: seq<Command>): seq<byte> {
    if cs == [] then [] else RecordOf(cs[0]) + Records(cs[1..])
  }

  // ----- Reading fields -----

  /** Reads values of the given widths; nothing if the bytes end before. */
  function Take(s: seq<byte>, widths: seq<nat>): Option<seq<int>> {
    if widths == [] then Some([])
    else if |s| < widths[0] then None
    else
      var rest := Take(s[widths[0]..], widths[1..]);
      if rest.None? then None else Some([Signed(s[..widths[0]])] + rest.value)
  }

  function Total(widths: seq<nat>): nat {
    if widths == [] then 0 else widths[0] + Total(widths[1..])
  }

  lemma {:induction false} TakeNeeds(s: seq<byte>, widths: seq<nat>)
    ensures Take(s, widths).Some? <==> Total(widths) <= |s|
    ensures Take(s, widths).Some? ==> |Take(s, widths).value| == |widths|
  {
    if widths != [] && widths[0] <= |s| { TakeNeeds(s[widths[0]..], widths[1..]); }
  }

  function WidthsOf(fields: seq<Field>): (w: seq<nat>)
    ensures |w| == |fields|
  {
    if fields == [] then [] else [fields[0].width] + WidthsOf(fields[1..])
  }

  function ValuesOf(fields: seq<Field>): (v: seq<int>)
    ensures |v| == |fields|
  {
    if fields == [] then [] else [fields[0].value] + ValuesOf(fields[1..])
  }

  lemma {:induction false} EncodedIsTaken(fields: seq<Field>, rest: seq<byte>)
    requires FieldsFit(fields)
    ensures |Encode(fields)| == Total(WidthsOf(fields))
    ensures Take(Encode(fields) + rest, WidthsOf(fields)) == Some(ValuesOf(fields))
    ensures (Encode(fields) + rest)[|Encode(fields)|..] == rest
  {
    hide ToBytes, Signed;
    if fields != [] {
      var first, tail := ToBytes(fields[0].value, fields[0].width), Encode(fields[1..]);
      var s := Encode(fields) + rest;
      forall i | 0 <= i < |fields[1..]|
        ensures Fits(fields[1..][i].value, fields[1..][i].width)
      {
        assert fields[1..][i] == fields[i + 1];
      }
      EncodedIsTaken(fields[1..], rest);
      assert s == first + (tail + rest);
      assert s[fields[0].width..] == tail + rest && s[..fields[0].width] == first;
      assert WidthsOf(fields)[1..] == WidthsOf(fields[1..]);
      assert Fits(fields[0].value, fields[0].width);
      WrittenIsRead(fields[0].value, fields[0].width);
    }
  }

  // ----- Reading records -----

  const HEADER_WIDTHS: seq<nat> := [8, 8, 4, 8]

  function BodyWidths(code: int): Option<seq<nat>> {
    match code
    case 1 => Some([8, 4, 8, 8, 8, 8, 4, 1])
    case 2 => Some([8, 4, 8])
    case 3 => Some([8, 4, 8, 8])
    case 4 => Some([8, 4, 8, 8])
    case 10 => Some([8])
    case 11 => Some([8, 4, 8, 8, 1])
    case 12 => Some([8])
    case 13 => Some([8])
    case 124 => Some([])
    case _ => None
  }

  /** The call for a record's values; none if an enumeration has no such code. */
  function CallFrom(code: int, h: seq<int>, v: seq<int>): Option<Call>
    requires |h| == 4 && BodyWidths(code).Some? && |v| == |BodyWidths(code).value|
  {
    match code
    case 1 =>
      var t := OrderTypeFrom(v[7] / 2 % 16);
      if t.None? then None
      else Some(PlaceCall(h[2], h[3], h[1], v[2], v[6], v[3], v[4], v[5], if v[7] % 2 == 0 then ASK else BID, t.value,
                          v[1], v[0]))
    case 2 => Some(CancelCall(h[2], h[3], h[1], v[2], v[1], v[0]))
    case 3 => Some(MoveCall(h[2], h[3], h[1], v[3], v[2], v[1], v[0]))
    case 4 => Some(ReduceCall(h[2], h[3], h[1], v[3], v[2], v[1], v[0]))
    case 10 => Some(CreateUserCall(h[2], h[3], h[1], v[0]))
    case 11 => if v[4] == 0 || v[4] == 1
      then Some(AdjustCall(h[2], h[3], h[1], v[0], v[2], v[1], v[3], if v[4] == 0 then ADJUSTMENT else SUSPEND))
      else None
    case 12 => Some(SuspendUserCall(h[2], h[3], h[1], v[0]))
    case 13 => Some(ResumeUserCall(h[2], h[3], h[1], v[0]))
    case _ => Some(ResetCall(h[1]))
  }

  /** How reading stopped: at the end, because a record is cut off, or with an exception. */
  datatype Status = End | Cut | Bad

  datatype Replay = Replay(calls: seq<Call>, lastSeq: int, status: Status)

  /** One record: the rest of the bytes when there is a call, or how reading stops. */
  datatype One = Called(call: Call, seqNo: int, rest: seq<byte>) | Stop(lastSeq: int, status: Status)

  function ReadOne(s: seq<byte>, last: int): (one: One)
    requires s != []
    ensures one.Called? ==> |one.rest| < |s|
  {
    var code := Signed(s[..1]);
    var h := Take(s[1..], HEADER_WIDTHS);
    TakeNeeds(s[1..], HEADER_WIDTHS);
    if h.None? then Stop(last, Cut)
    else if BodyWidths(code).None? then Stop(h.value[0], Bad)
    else
      HeaderTotal();
      var body := s[29..];
      var v := Take(body, BodyWidths(code).value);
      TakeNeeds(body, BodyWidths(code).value);
      if v.None? then Stop(h.value[0], Cut)
      else
        var call := CallFrom(code, h.value, v.value);
        if call.None? then Stop(h.value[0], Bad)
        else Called(call.value, h.value[0], body[Total(BodyWidths(code).value)..])
  }

  lemma HeaderTotal()
    ensures Total(HEADER_WIDTHS) == 28
  {
    assert HEADER_WIDTHS[1..] == [8, 4, 8] && [8, 4, 8][1..] == [4, 8] && [4, 8][1..] == [8] && [8][1..] == [];
    assert Total([8]) == 8 && Total([4, 8]) == 12 && Total([8, 4, 8]) == 20;
  }

  // ----- Compression -----

  /** A compressor taken as given: decompressing to the original length gives back what was compressed. */
  datatype Lz4 = Lz4(compress: seq<byte> -> seq<byte>, decompress: (seq<byte>, nat) -> Option<seq<byte>>)
  {
    ghost predicate Inverse() {
      forall b: seq<byte> :: decompress(compress(b), |b|) == Some(b) && 0 < |compress(b)| <= |b| + |b| / 255 + 16
    }
  }

  const MAX_BLOCK: int := 1_000_000

  /** The sizes after the mark of a compressed block and what follows them. */
  datatype Opened = Block(original: seq<byte>, rest: seq<byte>) | Broken(status: Status)

  function OpenBlock(s: seq<byte>, lz: Lz4): (b: Opened)
    ensures b.Block? ==> |b.rest| <= |s|
  {
    if |s| < 8 then Broken(Cut)
    else
      var compressedSize, originalSize := Signed(s[..4]), Signed(s[4..8]);
      if compressedSize > MAX_BLOCK || originalSize > MAX_BLOCK || compressedSize < 0 || originalSize < 0
          || |s| - 8 < compressedSize then Broken(Bad)
      else
        var original := lz.decompress(s[8..8 + compressedSize], originalSize);
        if original.None? then Broken(Bad) else Block(original.value, s[8 + compressedSize..])
  }

  /** Reading a stream of records and, unless inside one, compressed blocks. */
  function ReadCommands(s: seq<byte>, inside: bool, last: int, lz: Lz4): Replay
    decreases if inside then 0 else 1, |s|
  {
    if s == [] then Replay([], last, End)
    else if Signed(s[..1]) == COMPRESSED then
      if inside then Replay([], last, Bad)
      else
        var block := OpenBlock(s[1..], lz);
        if block.Broken? then Replay([], last, block.status)
        else
          var inner := ReadCommands(block.original, true, last, lz);
          if inner.status == Bad then inner
          else Then(inner.calls, ReadCommands(block.rest, false, inner.lastSeq, lz))
    else
      var one := ReadOne(s, last);
      if one.Stop? then Replay([], one.lastSeq, one.status)
      else Then([one.call], ReadCommands(one.rest, inside, one.seqNo, lz))
  }

  function Then(calls: seq<Call>, r: Replay): Replay {
    Replay(calls + r.calls, r.lastSeq, r.status)
  }

  // ----- What was written is replayed -----

  /** What a sequence of commands should replay: their calls, up to the first command that has none. */
  function Replayed(cs: seq<Command>, last: int): Replay {
    if cs == [] then Replay([], last, End)
    else if CallOf(cs[0]).None? then Replay([], cs[0].h.seqNo, Bad)
    else Then([CallOf(cs[0]).value], Replayed(cs[1..], cs[0].h.seqNo))
  }

  lemma CodeByte(c: Command)
    ensures Signed(ToBytes(CodeOf(c), 1)) == CodeOf(c) != COMPRESSED
  {
    assert Pow256(1) == 256 by { assert Pow256(0) == 1; }
    WrittenIsRead(CodeOf(c), 1);
  }

  lemma WidthsMatch(c: Command)
    ensures WidthsOf(HeaderFields(c.h)) == HEADER_WIDTHS
    ensures ValuesOf(HeaderFields(c.h)) == [c.h.seqNo, c.h.timestamp, c.h.serviceFlags, c.h.eventsGroup]
    ensures CallOf(c).None? ==> BodyWidths(CodeOf(c)).None?
    ensures CallOf(c).Some? ==> BodyWidths(CodeOf(c)) == Some(WidthsOf(BodyFields(c)))
  {
    HeaderWidths(c.h);
    BodyOf(c);
  }

  lemma HeaderWidths(h: Header)
    ensures WidthsOf(HeaderFields(h)) == HEADER_WIDTHS
            && ValuesOf(HeaderFields(h)) == [h.seqNo, h.timestamp, h.serviceFlags, h.eventsGroup]
  {
    Listed(HeaderFields(h));
  }

  lemma {:induction false} Listed(fields: seq<Field>)
    ensures forall i | 0 <= i < |fields| ::
              WidthsOf(fields)[i] == fields[i].width && ValuesOf(fields)[i] == fields[i].value
  {
    if fields != [] {
      Listed(fields[1..]);
      forall i | 0 <= i < |fields|
        ensures WidthsOf(fields)[i] == fields[i].width && ValuesOf(fields)[i] == fields[i].value
      {
        if 0 < i {
          assert fields[i] == fields[1..][i - 1] && WidthsOf(fields)[i] == WidthsOf(fields[1..])[i - 1]
                 && ValuesOf(fields)[i] == ValuesOf(fields[1..])[i - 1];
        }
      }
    }
  }

  lemma BodyOf(c: Command)
    ensures CallOf(c).None? ==> BodyWidths(CodeOf(c)).None?
    ensures CallOf(c).Some? ==> BodyWidths(CodeOf(c)) == Some(WidthsOf(BodyFields(c)))
  {
    hide WidthsOf, ValuesOf;
    Listed(BodyFields(c));
    if CallOf(c).Some? {
      var fields, w := BodyFields(c), BodyWidths(CodeOf(c)).value;
      assert |w| == |fields|;
      forall i | 0 <= i < |w| ensures w[i] == WidthsOf(fields)[i] { assert w[i] == fields[i].width; }
      assert w == WidthsOf(fields);
    }
  }

  /** The values of a record make the command's call. */
  lemma CallBack(c: Command)
    requires CallOf(c).Some? && BodyWidths(CodeOf(c)) == Some(WidthsOf(BodyFields(c)))
    ensures CallFrom(CodeOf(c), [c.h.seqNo, c.h.timestamp, c.h.serviceFlags, c.h.eventsGroup], ValuesOf(BodyFields(c)))
            == CallOf(c)
  {
    hide WidthsOf, ValuesOf;
    Listed(BodyFields(c));
  }

  /** Reading a record gives its call and leaves what follows it. */
  lemma RecordRead(c: Command, rest: seq<byte>, last: int)
    requires CommandOk(c)
    ensures RecordOf(c) + rest != [] && Signed((RecordOf(c) + rest)[..1]) != COMPRESSED
    ensures ReadOne(RecordOf(c) + rest, last)
            == if CallOf(c).Some? then Called(CallOf(c).value, c.h.seqNo, rest) else Stop(c.h.seqNo, Bad)
  {
    hide ToBytes, Signed, Encode, Take, CallOf, CodeOf, BodyWidths, WidthsOf, ValuesOf, CallFrom, HeaderFields,
         BodyFields;
    var code, header, body := ToBytes(CodeOf(c), 1), Encode(HeaderFields(c.h)), Encode(BodyFields(c));
    var s := RecordOf(c) + rest;
    CodeByte(c);
    WidthsMatch(c);
    HeaderTotal();
    EncodedIsTaken(HeaderFields(c.h), body + rest);
    EncodedIsTaken(BodyFields(c), rest);
    assert s[..1] == code;
    assert s[1..] == header + (body + rest);
    assert s[29..] == body + rest;
    TakeNeeds(s[1..], HEADER_WIDTHS);
    if CallOf(c).Some? { CallBack(c); }
  }

  lemma {:induction false} RecordsRead(cs: seq<Command>, rest: seq<byte>, inside: bool, last: int, lz: Lz4)
    requires forall i | 0 <= i < |cs| :: CommandOk(cs[i])
    ensures ReadCommands(Records(cs) + rest, inside, last, lz)
            == var r := Replayed(cs, last);
            if r.status == Bad then r else Then(r.calls, ReadCommands(rest, inside, r.lastSeq, lz))
    decreases |cs|
  {
    hide RecordOf, Signed, ReadOne, CommandOk;
    if cs == [] {
      assert Records(cs) + rest == rest;
      var r := ReadCommands(rest, inside, last, lz);
      assert [] + r.calls == r.calls;
    } else {
      var c, more := cs[0], Records(cs[1..]) + rest;
      assert Records(cs) + rest == RecordOf(c) + more;
      assert CommandOk(c);
      RecordRead(c, more, last);
      if CallOf(c).Some? {
        RecordsRead(cs[1..], rest, inside, c.h.seqNo, lz);
        var r := Replayed(cs[1..], c.h.seqNo);
        ThenThen([CallOf(c).value], r.calls, ReadCommands(rest, inside, r.lastSeq, lz));
      }
    }
  }

  lemma ThenThen(a: seq<Call>, b: seq<Call>, r: Replay)
    ensures Then(a, Then(b, r)) == Then(a + b, r)
  {
    assert a + (b + r.calls) == a + b + r.calls;
  }

  // ----- Raw runs and compressed blocks -----

  datatype Run = Raw(cs: seq<Command>) | Packed(cs: seq<Command>)

  function RunBytes(run: Run, lz: Lz4): seq<byte> {
    match run
    case Raw(cs) => Records(cs)
    case Packed(cs) => PackedBytes(Records(cs), lz)
  }

  function PackedBytes(original: seq<byte>, lz: Lz4): seq<byte> {
    var z := lz.compress(original);
    ToBytes(COMPRESSED, 1) + (ToBytes(|z|, 4) + (ToBytes(|original|, 4) + z))
  }

  function FileBytes(runs: seq<Run>, lz: Lz4): seq<byte> {
    if runs == [] then [] else FileBytes(runs[..|runs| - 1], lz) + RunBytes(runs[|runs| - 1], lz)
  }

  function Commands(runs: seq<Run>): seq<Command> {
    if runs == [] then [] else Commands(runs[..|runs| - 1]) + runs[|runs| - 1].cs
  }

  /** A block the reader accepts: its fields fit, and a compressed one is within the reader's limit. */
  ghost predicate RunOk(run: Run) {
    && (forall i | 0 <= i < |run.cs| :: CommandOk(run.cs[i]))
    && (run.Packed? ==> |Records(run.cs)| + |Records(run.cs)| / 255 + 16 <= MAX_BLOCK)
  }

  lemma MarkAndSizes(z: seq<byte>, n: nat, rest: seq<byte>)
    requires |z| <= MAX_BLOCK && n <= MAX_BLOCK
    ensures var s := ToBytes(COMPRESSED, 1) + (ToBytes(|z|, 4) + (ToBytes(n, 4) + z)) + rest;
            && |s| == 9 + |z| + |rest| && Signed(s[..1]) == COMPRESSED
            && Signed(s[1..][..4]) == |z| && Signed(s[1..][4..8]) == n && s[1..][8..8 + |z|] == z
               && s[1..][8 + |z|..] == rest
  {
    assert Pow256(1) == 256 && Pow256(4) == 0x1_0000_0000 by { Powers(); }
    hide ToBytes, Signed, Pow256;
    WrittenIsRead(COMPRESSED, 1);
    WrittenIsRead(|z|, 4);
    WrittenIsRead(n, 4);
    var a, b, c := ToBytes(COMPRESSED, 1), ToBytes(|z|, 4), ToBytes(n, 4);
    var s := a + (b + (c + z)) + rest;
    assert s[..1] == a && s[1..] == b + c + z + rest;
    assert s[1..][..4] == b && s[1..][4..8] == c && s[1..][8..8 + |z|] == z && s[1..][8 + |z|..] == rest;
  }

  lemma Powers()
    ensures Pow256(1) == 256 && Pow256(4) == 0x1_0000_0000
  {
    assert Pow256(0) == 1;
    assert Pow256(1) == 256 * Pow256(0);
    assert Pow256(2) == 256 * Pow256(1);
    assert Pow256(3) == 256 * Pow256(2);
  }

  lemma BlockStep(s: seq<byte>, original: seq<byte>, rest: seq<byte>, last: int, lz: Lz4)
    requires s != [] && Signed(s[..1]) == COMPRESSED && OpenBlock(s[1..], lz) == Block(original, rest)
    ensures ReadCommands(s, false, last, lz)
            == var inner := ReadCommands(original, true, last, lz);
            if inner.status == Bad then inner else Then(inner.calls, ReadCommands(rest, false, inner.lastSeq, lz))
  {
    hide OpenBlock, Signed, ReadOne;
  }

  lemma NothingRead(inside: bool, last: int, lz: Lz4)
    ensures ReadCommands([], inside, last, lz) == Replay([], last, End)
  {
  }

  lemma InverseAt(lz: Lz4, b: seq<byte>)
    requires lz.Inverse()
    ensures lz.decompress(lz.compress(b), |b|) == Some(b) && 0 < |lz.compress(b)| <= |b| + |b| / 255 + 16
  {
  }

  lemma OpensTo(t: seq<byte>, z: seq<byte>, original: seq<byte>, rest: seq<byte>, lz: Lz4)
    requires |t| == 8 + |z| + |rest| && Signed(t[..4]) == |z| <= MAX_BLOCK && Signed(t[4..8]) == |original| <= MAX_BLOCK
    requires t[8..8 + |z|] == z && t[8 + |z|..] == rest && lz.decompress(z, |original|) == Some(original)
    ensures OpenBlock(t, lz) == Block(original, rest)
  {
    hide Signed;
  }

  lemma PackedOpens(original: seq<byte>, rest: seq<byte>, lz: Lz4)
    requires lz.Inverse() && |original| + |original| / 255 + 16 <= MAX_BLOCK
    ensures var s := PackedBytes(original, lz) + rest;
            s != [] && Signed(s[..1]) == COMPRESSED && OpenBlock(s[1..], lz) == Block(original, rest)
  {
    InverseAt(lz, original);
    hide ToBytes, Signed, Lz4.Inverse, OpenBlock;
    var z := lz.compress(original);
    MarkAndSizes(z, |original|, rest);
    OpensTo((PackedBytes(original, lz) + rest)[1..], z, original, rest, lz);
  }

  lemma RunRead(run: Run, rest: seq<byte>, last: int, lz: Lz4)
    requires lz.Inverse() && RunOk(run)
    ensures ReadCommands(RunBytes(run, lz) + rest, false, last, lz)
            == var r := Replayed(run.cs, last);
            if r.status == Bad then r else Then(r.calls, ReadCommands(rest, false, r.lastSeq, lz))
  {
    hide Signed, Records, Replayed, CommandOk, ReadCommands, OpenBlock, PackedBytes, Lz4.Inverse;
    match run
    case Raw(cs) => RecordsRead(cs, rest, false, last, lz);
    case Packed(cs) =>
      var original := Records(cs);
      PackedOpens(original, rest, lz);
      BlockStep(PackedBytes(original, lz) + rest, original, rest, last, lz);
      RecordsRead(cs, [], true, last, lz);
      assert original + [] == original;
      ReplayedCalls(cs, last);
      NothingRead(true, Replayed(cs, last).lastSeq, lz);
  }

  lemma {:induction false} ReplayedCalls(cs: seq<Command>, last: int)
    ensures var r := Replayed(cs, last); r.calls + [] == r.calls && r.status != Cut
  {
    if cs != [] && CallOf(cs[0]).Some? { ReplayedCalls(cs[1..], cs[0].h.seqNo); }
  }

  lemma {:induction false} ReplayedConcat(a: seq<Command>, b: seq<Command>, last: int)
    ensures Replayed(a + b, last) == var r := Replayed(a, last);
            if r.status == Bad then r else Then(r.calls, Replayed(b, r.lastSeq))
  {
    if a == [] {
      assert a + b == b;
      var r := Replayed(b, last);
      assert [] + r.calls == r.calls;
    } else {
      assert (a + b)[1..] == a[1..] + b && (a + b)[0] == a[0];
      if CallOf(a[0]).Some? {
        ReplayedConcat(a[1..], b, a[0].h.seqNo);
        var r := Replayed(a[1..], a[0].h.seqNo);
        ThenThen([CallOf(a[0]).value], r.calls, Replayed(b, r.lastSeq));
      }
    }
  }

  lemma FileStep(runs: seq<Run>, lz: Lz4)
    requires runs != []
    ensures FileBytes(runs, lz) == FileBytes(runs[..|runs| - 1], lz) + RunBytes(runs[|runs| - 1], lz)
    ensures Commands(runs) == Commands(runs[..|runs| - 1]) + runs[|runs| - 1].cs
  {
  }

  lemma {:induction false} FileReadThen(runs: seq<Run>, rest: seq<byte>, last: int, lz: Lz4)
    requires lz.Inverse() && forall i | 0 <= i < |runs| :: RunOk(runs[i])
    ensures ReadCommands(FileBytes(runs, lz) + rest, false, last, lz)
            == var r := Replayed(Commands(runs), last);
            if r.status == Bad then r else Then(r.calls, ReadCommands(rest, false, r.lastSeq, lz))
    decreases |runs|
  {
    hide ReadCommands, RunBytes, Replayed, RunOk, Lz4.Inverse;
    if runs == [] {
      assert FileBytes(runs, lz) + rest == rest;
      NothingReplayed(last);
      var r := ReadCommands(rest, false, last, lz);
      assert [] + r.calls == r.calls;
    } else {
      hide FileBytes, Commands, Then;
      var front, run := runs[..|runs| - 1], runs[|runs| - 1];
      FileStep(runs, lz);
      assert FileBytes(runs, lz) + rest == FileBytes(front, lz) + (RunBytes(run, lz) + rest);
      FileReadThen(front, RunBytes(run, lz) + rest, last, lz);
      ReplayedConcat(Commands(front), run.cs, last);
      var r := Replayed(Commands(front), last);
      if r.status != Bad {
        assert RunOk(run);
        RunRead(run, rest, r.lastSeq, lz);
        var q := Replayed(run.cs, r.lastSeq);
        ThenThen(r.calls, q.calls, ReadCommands(rest, false, q.lastSeq, lz));
        ThenIs(r.calls, q);
      }
    }
  }

  lemma ThenIs(calls: seq<Call>, r: Replay)
    ensures Then(calls, r) == Replay(calls + r.calls, r.lastSeq, r.status)
  {
  }

  lemma NothingReplayed(last: int)
    ensures Replayed([], last) == Replay([], last, End)
  {
  }

  /** Reading a journal file, however it is split into raw runs and compressed blocks, replays the calls of the commands
      written, in order. */
  lemma FileRead(runs: seq<Run>, last: int, lz: Lz4)
    requires lz.Inverse() && forall i | 0 <= i < |runs| :: RunOk(runs[i])
    ensures ReadCommands(FileBytes(runs, lz), false, last, lz) == Replayed(Commands(runs), last)
  {
    hide Replayed, RunOk, FileBytes, Commands;
    FileReadThen(runs, [], last, lz);
    assert FileBytes(runs, lz) + [] == FileBytes(runs, lz);
    ReplayedCalls(Commands(runs), last);
  }

  function CallsOf(cs: seq<Command>): seq<Call> {
    if cs == [] then [] else (if CallOf(cs[0]).Some? then [CallOf(cs[0]).value] else []) + CallsOf(cs[1..])
  }

  /** Every replayable command comes before every persist command. */
  ghost predicate PersistLast(cs: seq<Command>) {
    forall i, j | 0 <= i < j < |cs| :: CallOf(cs[i]).None? ==> CallOf(cs[j]).None?
  }

  /** The replay is complete exactly when no replayable command follows a persist command in the file,
      and it ends without an exception exactly when there is no persist command. */
  lemma {:induction false} ReplayIsComplete(cs: seq<Command>, last: int)
    ensures Replayed(cs, last).calls == CallsOf(cs) <==> PersistLast(cs)
    ensures Replayed(cs, last).status == End <==> forall i | 0 <= i < |cs| :: CallOf(cs[i]).Some?
    ensures |Replayed(cs, last).calls| <= |CallsOf(cs)|
  {
    hide CallOf;
    if cs != [] {
      ReplayIsComplete(cs[1..], cs[0].h.seqNo);
      if CallOf(cs[0]).Some? {
        PersistLastStep(cs);
        assert Replayed(cs, last).calls[1..] == Replayed(cs[1..], cs[0].h.seqNo).calls;
        assert CallsOf(cs)[1..] == CallsOf(cs[1..]);
        assert forall i | 0 < i < |cs| :: cs[i] == cs[1..][i - 1];
      } else {
        NoCalls(cs[1..]);
        assert forall i | 0 < i < |cs| :: cs[i] == cs[1..][i - 1];
      }
    }
  }

  lemma PersistLastStep(cs: seq<Command>)
    requires cs != [] && CallOf(cs[0]).Some?
    ensures PersistLast(cs) <==> PersistLast(cs[1..])
  {
    hide CallOf;
    if PersistLast(cs[1..]) {
      forall i, j | 0 <= i < j < |cs| && CallOf(cs[i]).None? ensures CallOf(cs[j]).None? {
        assert 0 < i && cs[i] == cs[1..][i - 1] && cs[j] == cs[1..][j - 1];
      }
    }
  }

  lemma {:induction false} NoCalls(cs: seq<Command>)
    ensures CallsOf(cs) == [] <==> forall i | 0 <= i < |cs| :: CallOf(cs[i]).None?
  {
    hide CallOf;
    if cs != [] {
      NoCalls(cs[1..]);
      assert forall i | 0 < i < |cs| :: cs[i] == cs[1..][i - 1];
    }
  }
}
