/** The journal writer over a byte buffer, and the reader loop: whatever is written is replayed. */
module Journal {
  import opened Bytes
  import opened JournalFormat

  function Longest(): nat { 256 }

  lemma {:induction false} EncodedLength(fields: seq<Field>)
    ensures |Encode(fields)| == JournalFormat.Total(WidthsOf(fields))
  {
    hide ToBytes;
    if fields != [] {
      EncodedLength(fields[1..]);
      assert WidthsOf(fields)[1..] == WidthsOf(fields[1..]);
    }
  }

  lemma {:induction false} TotalBound(fields: seq<Field>)
    requires forall i | 0 <= i < |fields| :: fields[i].width <= 8
    ensures JournalFormat.Total(WidthsOf(fields)) <= 8 * |fields|
  {
    if fields != [] {
      forall i | 0 <= i < |fields[1..]| ensures fields[1..][i].width <= 8 { assert fields[1..][i] == fields[i + 1]; }
      TotalBound(fields[1..]);
      assert WidthsOf(fields)[1..] == WidthsOf(fields[1..]);
    }
  }

  /** A record is never longer than the room the writer keeps for it. */
  lemma RecordFits(c: Command)
    ensures |RecordOf(c)| <= Longest()
  {
    hide ToBytes, Encode, WidthsOf;
    EncodedLength(HeaderFields(c.h));
    EncodedLength(BodyFields(c));
    TotalBound(HeaderFields(c.h));
    TotalBound(BodyFields(c));
    assert |BodyFields(c)| <= 8;
  }

  lemma {:induction false} RecordsAppend(cs: seq<Command>, c: Command)
    ensures Records(cs + [c]) == Records(cs) + RecordOf(c)
  {
    hide RecordOf;
    if cs == [] {
      assert [] + [c] == [c] && [c][1..] == [];
      assert Records([c]) == RecordOf(c) + Records([c][1..]);
    } else {
      RecordsAppend(cs[1..], c);
      assert (cs + [c])[1..] == cs[1..] + [c] && (cs + [c])[0] == cs[0];
    }
  }

  /** The commands of a list of files. */
  function AllCommands(files: seq<seq<Run>>): seq<Command> {
    if files == [] then [] else AllCommands(files[..|files| - 1]) + Commands(files[|files| - 1])
  }

  class JournalWriter {
    const lz: Lz4
    const buffer: array<byte>
    const flushTrigger: int
    const compressThreshold: int
    const maxFileSize: int
    var pos: nat
    var writtenBytes: int
    var files: seq<seq<byte>>
    ghost var runs: seq<seq<Run>>
    ghost var pending: seq<Command>

    constructor (lz: Lz4, size: nat, flushTrigger: int, compressThreshold: int, maxFileSize: int)
      requires lz.Inverse() && Longest() <= size && size + size / 255 + 16 <= MAX_BLOCK
      ensures Valid() && Written() == [] && fresh(buffer)
    {
      this.lz, this.flushTrigger, this.compressThreshold, this.maxFileSize :=
          lz, flushTrigger, compressThreshold, maxFileSize;
      buffer := new byte[size](_ => 0);
      pos, writtenBytes, files, runs, pending := 0, 0, [], [], [];
    }

    /** The files hold the runs written, the buffer the records not yet flushed, and every block is one the reader
        accepts. */
    ghost predicate Valid()
      reads this, buffer
    {
      && lz.Inverse() && Longest() <= buffer.Length && buffer.Length + buffer.Length / 255 + 16 <= MAX_BLOCK
      && pos <= buffer.Length && buffer[..pos] == Records(pending)
      && (forall i | 0 <= i < |pending| :: CommandOk(pending[i]))
      && |files| == |runs| && (files == [] ==> pending == [])
      && (forall k | 0 <= k < |files| :: files[k] == FileBytes(runs[k], lz) && forall i | 0 <= i < |runs[k]| ::
            RunOk(runs[k][i]))
    }

    /** Everything written so far, in order. */
    ghost function Written(): seq<Command>
      reads this
    {
      AllCommands(runs) + pending
    }

    /** Stores the low n bytes of a value at the position. */
    method Put(v: int, n: nat)
      requires pos + n <= buffer.Length
      modifies this`pos, buffer
      ensures pos == old(pos) + n && buffer[..pos] == old(buffer[..pos]) + ToBytes(v, n)
    {
      var i := 0;
      var rest := v;
      ghost var all := buffer[..pos] + ToBytes(v, n);
      while i < n
        invariant 0 <= i <= n && pos == old(pos) + i && buffer[..pos] + ToBytes(rest, n - i) == all
      {
        PutByte(rest % 256);
        rest := rest / 256;
        i := i + 1;
      }
    }

    method PutByte(b: byte)
      requires pos < buffer.Length
      modifies this`pos, buffer
      ensures pos == old(pos) + 1 && buffer[..pos] == old(buffer[..pos]) + [b]
    {
      buffer[pos] := b;
      pos := pos + 1;
    }

    method PutAll(fields: seq<Field>)
      requires pos + |Encode(fields)| <= buffer.Length
      modifies this`pos, buffer
      ensures pos == old(pos) + |Encode(fields)| && buffer[..pos] == old(buffer[..pos]) + Encode(fields)
    {
      hide ToBytes;
      var i := 0;
      ghost var all := buffer[..pos] + Encode(fields);
      assert fields[0..] == fields;
      while i < |fields|
        invariant 0 <= i <= |fields| && pos + |Encode(fields[i..])| == old(pos) + |Encode(fields)|
                  && pos + |Encode(fields[i..])| <= buffer.Length
        invariant buffer[..pos] + Encode(fields[i..]) == all
      {
        assert fields[i..][0] == fields[i] && fields[i..][1..] == fields[i + 1..];
        ghost var tail := Encode(fields[i + 1..]);
        ghost var before := buffer[..pos];
        Put(fields[i].value, fields[i].width);
        assert before + (ToBytes(fields[i].value, fields[i].width) + tail) == buffer[..pos] + tail;
        i := i + 1;
      }
      assert fields[i..] == [];
    }

    /** The mandatory fields, then those of the command's type. */
    method PutRecord(c: Command)
      requires Valid() && files != [] && CommandOk(c) && pos + Longest() <= buffer.Length
      modifies this`pos, this`pending, buffer
      ensures Valid() && pending == old(pending) + [c]
    {
      hide Encode, ToBytes, HeaderFields, BodyFields, CodeOf, FileBytes, RunOk, CommandOk, Lz4.Inverse;
      RecordFits(c);
      RecordsAppend(pending, c);
      ghost var before := buffer[..pos];
      Put(CodeOf(c), 1);
      PutAll(HeaderFields(c.h));
      PutAll(BodyFields(c));
      assert buffer[..pos] == before + RecordOf(c);
      pending := pending + [c];
    }

    method StartNewFile()
      requires Valid() && pending == []
      modifies this`files, this`runs
      ensures Valid() && files == old(files) + [[]] && runs == old(runs) + [[]]
              && AllCommands(runs) == AllCommands(old(runs))
    {
      hide Records, CommandOk, RunOk, Lz4.Inverse, Commands;
      assert Commands([]) == [] by { NoCommands(); }
      files := files + [[]];
      runs := runs + [[]];
      assert runs[..|runs| - 1] == old(runs);
      assert FileBytes([], lz) == [];
    }

    lemma NoCommands()
      ensures Commands([]) == []
    {
    }

    /** Writes the buffer to the file, raw if it is small, as a compressed block otherwise. */
    method FlushBufferSync(forceStartNextFile: bool)
      requires Valid() && files != []
      modifies this`pos, this`writtenBytes, this`files, this`runs, this`pending
      ensures Valid() && files != [] && pending == [] && Written() == old(Written())
      ensures forceStartNextFile ==> files[|files| - 1] == []
    {
      hide Records, CommandOk, RunOk, FileBytes, Lz4.Inverse, PackedBytes;
      var raw := pos < compressThreshold;
      var data := buffer[..pos];
      var block := if raw then data else PackedBytes(data, lz);
      writtenBytes := writtenBytes + if raw then pos else |lz.compress(data)| + 9;
      AppendRun(block, if raw then Raw(pending) else Packed(pending));
      if forceStartNextFile || writtenBytes >= maxFileSize {
        StartNewFile();
        writtenBytes := 0;
      }
    }

    method AppendRun(block: seq<byte>, ghost run: Run)
      requires Valid() && files != [] && run.cs == pending && block == RunBytes(run, lz)
      modifies this`pos, this`files, this`runs, this`pending
      ensures Valid() && pos == 0 && files != [] && pending == [] && Written() == old(Written())
    {
      hide CommandOk, Lz4.Inverse, RunBytes, Records;
      var n := |files| - 1;
      assert RunOk(run) by { RunFits(run); }
      ghost var more := runs[n] + [run];
      assert more[..|more| - 1] == runs[n];
      ghost var runs' := runs[n := more];
      assert runs'[..n] == runs[..n] && runs'[n] == more && |runs'| == n + 1;
      assert AllCommands(runs') == AllCommands(runs) + pending by {
        assert AllCommands(runs') == AllCommands(runs[..n]) + Commands(more);
        assert Commands(more) == Commands(runs[n]) + pending;
      }
      files := files[n := files[n] + block];
      runs := runs';
      pos, pending := 0, [];
      assert Records([]) == [] by { NoRecords(); }
      assert AllCommands(runs) + [] == AllCommands(runs);
    }

    lemma NoRecords()
      ensures Records([]) == []
    {
    }

    lemma RunFits(run: Run)
      requires Valid() && run.cs == pending
      ensures RunOk(run)
    {
      hide Records, CommandOk, FileBytes, Lz4.Inverse;
      assert |buffer[..pos]| == |Records(pending)|;
    }

    /** Journals one command: it is in the files or the buffer behind everything written before, and at the end of a
        batch in the files. */
    method WriteToJournal(c: Command, endOfBatch: bool)
      requires Valid() && CommandOk(c)
      modifies this`pos, this`writtenBytes, this`files, this`runs, this`pending, buffer
      ensures Valid() && files != [] && Written() == old(Written()) + [c]
      ensures endOfBatch ==> pending == []
      ensures c.Reset? || c.PersistRisk? ==> pending == [] && files[|files| - 1] == []
    {
      hide Records, CommandOk, FileBytes, RunOk, Lz4.Inverse;
      if files == [] {
        StartNewFile();
      }
      if pos + Longest() > buffer.Length {
        FlushBufferSync(false);
        assert pos == 0 by { Empty(); }
      }
      ghost var w := Written();
      PutRecord(c);
      assert Written() == w + [c];
      if c.PersistRisk? || c.Reset? {
        FlushBufferSync(true);
      } else if endOfBatch || pos >= flushTrigger {
        FlushBufferSync(false);
      }
    }

    lemma Empty()
      requires Valid() && pending == []
      ensures pos == 0
    {
      assert |buffer[..pos]| == |Records(pending)|;
    }
  }

  // ----- Reading -----

  /** Follows a stream to its end, calling for each record; compressed blocks are read by the same loop. */
  method ReadStream(s: seq<byte>, inside: bool, last: int, lz: Lz4) returns (r: Replay)
    ensures r == ReadCommands(s, inside, last, lz)
    decreases if inside then 0 else 1
  {
    hide ReadOne, OpenBlock, Signed;
    var rest := s;
    var calls: seq<Call> := [];
    var lastSeq := last;
    while rest != []
      invariant Then(calls, ReadCommands(rest, inside, lastSeq, lz)) == ReadCommands(s, inside, last, lz)
      decreases |rest|
    {
      if Signed(rest[..1]) == COMPRESSED {
        if inside {
          return Replay(calls, lastSeq, Bad);
        }
        var block := OpenBlock(rest[1..], lz);
        if block.Broken? {
          return Replay(calls, lastSeq, block.status);
        }
        var inner := ReadStream(block.original, true, lastSeq, lz);
        ThenThen(calls, inner.calls, ReadCommands(block.rest, inside, inner.lastSeq, lz));
        calls := calls + inner.calls;
        lastSeq := inner.lastSeq;
        if inner.status == Bad {
          return Replay(calls, lastSeq, Bad);
        }
        rest := block.rest;
      } else {
        var one := ReadOne(rest, lastSeq);
        if one.Stop? {
          return Replay(calls, one.lastSeq, one.status);
        }
        ThenThen(calls, [one.call], ReadCommands(one.rest, inside, one.seqNo, lz));
        calls := calls + [one.call];
        lastSeq := one.seqNo;
        rest := one.rest;
      }
    }
    r := Replay(calls, lastSeq, End);
  }

  /** The journal files one after the other; an exception ends the file it occurs in. */
  function ReplayFiles(files: seq<seq<byte>>, last: int, lz: Lz4): (seq<Call>, int) {
    if files == [] then ([], last)
    else
      var (calls, before) := ReplayFiles(files[..|files| - 1], last, lz);
      var r := ReadCommands(files[|files| - 1], false, before, lz);
      (calls + r.calls, r.lastSeq)
  }

  method ReplayJournalFull(files: seq<seq<byte>>, baseSeq: int, lz: Lz4) returns (calls: seq<Call>, lastSeq: int)
    ensures (calls, lastSeq) == ReplayFiles(files, baseSeq, lz)
  {
    calls, lastSeq := [], baseSeq;
    var i := 0;
    assert files[..0] == [];
    while i < |files|
      invariant 0 <= i <= |files| && (calls, lastSeq) == ReplayFiles(files[..i], baseSeq, lz)
    {
      var r := ReadStream(files[i], false, lastSeq, lz);
      assert files[..i + 1][..i] == files[..i];
      calls := calls + r.calls;
      lastSeq := r.lastSeq;
      i := i + 1;
    }
    assert files[..i] == files;
  }

  // ----- The round trip -----

  lemma {:induction false} CallsOfConcat(a: seq<Command>, b: seq<Command>)
    ensures CallsOf(a + b) == CallsOf(a) + CallsOf(b)
  {
    hide CallOf;
    if a == [] {
      assert a + b == b;
    } else {
      CallsOfConcat(a[1..], b);
      assert (a + b)[1..] == a[1..] + b && (a + b)[0] == a[0];
    }
  }

  /** Reading the files back replays the calls of the commands in them, in order, however they were split into files,
      raw runs and compressed blocks, if in no file a replayable command follows a persist command. */
  lemma {:induction false} FilesReplayed(files: seq<seq<byte>>, runs: seq<seq<Run>>, last: int, lz: Lz4)
    requires lz.Inverse() && |files| == |runs|
    requires forall k | 0 <= k < |files| ::
               files[k] == FileBytes(runs[k], lz) && (forall i | 0 <= i < |runs[k]| :: RunOk(runs[k][i]))
                   && PersistLast(Commands(runs[k]))
    ensures ReplayFiles(files, last, lz).0 == CallsOf(AllCommands(runs))
    decreases |files|
  {
    hide FileBytes, RunOk, PersistLast, Commands, ReadCommands, Lz4.Inverse;
    if files != [] {
      var n := |files| - 1;
      FilesReplayed(files[..n], runs[..n], last, lz);
      var before := ReplayFiles(files[..n], last, lz).1;
      FileRead(runs[n], before, lz);
      ReplayIsComplete(Commands(runs[n]), before);
      CallsOfConcat(AllCommands(runs[..n]), Commands(runs[n]));
    }
  }

  /** Once the writer's buffer is flushed, reading its files replays everything written. */
  lemma JournalRoundTrip(w: JournalWriter, baseSeq: int)
    requires w.Valid() && w.pending == [] && forall i | 0 <= i < |w.Written()| :: CallOf(w.Written()[i]).Some?
    ensures ReplayFiles(w.files, baseSeq, w.lz).0 == CallsOf(w.Written())
  {
    hide CallOf, FileBytes, RunOk, Commands, Records, CommandOk, Lz4.Inverse;
    assert w.Written() == AllCommands(w.runs);
    forall k | 0 <= k < |w.runs| ensures PersistLast(Commands(w.runs[k])) {
      PartOfAll(w.runs, k);
      var cs := Commands(w.runs[k]);
      forall i | 0 <= i < |cs| ensures CallOf(cs[i]).Some? {
        assert cs[i] in w.Written();
      }
    }
    FilesReplayed(w.files, w.runs, baseSeq, w.lz);
  }

  lemma {:induction false} PartOfAll(runs: seq<seq<Run>>, k: nat)
    requires k < |runs|
    ensures forall c: Command <- Commands(runs[k]) :: c in AllCommands(runs)
  {
    hide Commands;
    if k < |runs| - 1 { PartOfAll(runs[..|runs| - 1], k); }
  }
}
