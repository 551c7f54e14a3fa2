/**
 * The Windows console backend: the console input mode saved and restored
 * around a session, and the event source that reads batches of console
 * input records and turns key-down records into key events.
 */
module Win32 {
  import opened Ints
  import opened Term

  const ENABLE_WINDOW_INPUT: bv32 := 0x0008
  const ENABLE_MOUSE_INPUT: bv32 := 0x0010
  const KEY_EVENT: u16 := 0x0001
  const MOUSE_EVENT: u16 := 0x0002
  const WINDOW_BUFFER_SIZE_EVENT: u16 := 0x0004

  /** The capacity of the iterator's record buffer. */
  const BUF_LEN: nat := 128

  /** The fields of `KEY_EVENT_RECORD` the backend reads; `uChar` is its `UnicodeChar` member. */
  datatype KeyEventRecord = KeyEventRecord(bKeyDown: i32, unicodeChar: u16)

  /** `INPUT_RECORD`: the event type tag and the key-event view of its union. */
  datatype InputRecord = InputRecord(eventType: u16, keyEvent: KeyEventRecord)

  /** `AsciiChar` names the first (low, on little-endian Windows) byte of `uChar`, read as a `CHAR` (`i8`). */
  function AsciiChar(k: KeyEventRecord): (c: i8)
    ensures c as int % 0x100 == k.unicodeChar as int % 0x100
    ensures c >= 0 <==> k.unicodeChar as int % 0x100 < 0x80
  {
    var lo := k.unicodeChar as int % 0x100;
    (if lo >= 0x80 then lo - 0x100 else lo) as i8
  }

  /** `c as u8 as char`: reinterpret the `i8` as a byte, then widen it to a scalar value. */
  function CharOfAscii(c: i8): (ch: char)
    ensures ch as int < 0x100
    ensures 0 <= c ==> ch as int == c as int
    ensures ch as int == c as int % 0x100
  {
    (if c < 0 then c as int + 0x100 else c as int) as char
  }

  /** The key a key-down record yields: the low byte of its UTF-16 unit, as a Latin-1 character. */
  lemma KeyCharIsLowByte(k: KeyEventRecord)
    ensures CharOfAscii(AsciiChar(k)) as int == k.unicodeChar as int % 0x100
    ensures k.unicodeChar < 0x100 ==> CharOfAscii(AsciiChar(k)) as int == k.unicodeChar as int
  {
  }

  predicate IsKeyDown(r: InputRecord) {
    r.eventType == KEY_EVENT && r.keyEvent.bKeyDown != 0
  }

  predicate IsKeyUp(r: InputRecord) {
    r.eventType == KEY_EVENT && r.keyEvent.bKeyDown == 0
  }

  /** The event a key-down record produces. */
  function EventOf(r: InputRecord): (e: Event)
    ensures e.mods == KEY_MOD_NONE && e.key.Unicode?
    ensures e.key.ch as int == r.keyEvent.unicodeChar as int % 0x100
  {
    Key(Unicode(CharOfAscii(AsciiChar(r.keyEvent))), KEY_MOD_NONE)
  }

  /** What one call of `next` reports. */
  datatype NextResult =
    | Yield(event: Event)  // `Some(event)`
    | End                  // `None`
    | Unreachable          // the `unreachable!()` panic on a record that is not a key event

  /**
   * Scanning `batch` from position `from`: skips key-up records, stops just
   * after the first record that is not one. Returns the new read position
   * and the outcome.
   */
  function Scan(batch: seq<InputRecord>, from: nat): (res: (nat, NextResult))
    requires from <= |batch|
    ensures from <= res.0 <= |batch|
    ensures res.1.End? ==> res.0 == |batch|
    ensures !res.1.End? ==> from < res.0
    ensures forall j :: from <= j < (if res.1.End? then res.0 else res.0 - 1) ==> IsKeyUp(batch[j])
    ensures res.1.Yield? <==> !res.1.End? && IsKeyDown(batch[res.0 - 1])
    ensures res.1.Yield? ==> res.1.event == EventOf(batch[res.0 - 1])
    ensures res.1.Unreachable? <==> !res.1.End? && batch[res.0 - 1].eventType != KEY_EVENT
    decreases |batch| - from
  {
    if from == |batch| then (from, End)
    else if batch[from].eventType == KEY_EVENT then
      if batch[from].keyEvent.bKeyDown != 0 then (from + 1, Yield(EventOf(batch[from])))
      else Scan(batch, from + 1)
    else (from + 1, Unreachable)
  }

  /** The events a batch of key records stands for, in order: one per key-down record. */
  function KeyDowns(batch: seq<InputRecord>): seq<Event> {
    if batch == [] then []
    else (if IsKeyDown(batch[0]) then [EventOf(batch[0])] else []) + KeyDowns(batch[1..])
  }

  /**
   * Over a batch of key records, successive scans produce exactly the
   * events of the key-down records, in order, and then stop at the end.
   */
  lemma {:induction false} ScanYieldsKeyDowns(batch: seq<InputRecord>, from: nat)
    requires from <= |batch|
    requires forall j :: from <= j < |batch| ==> batch[j].eventType == KEY_EVENT
    ensures Scan(batch, from).1.End? ==> KeyDowns(batch[from..]) == []
    ensures Scan(batch, from).1.Yield? ==>
      KeyDowns(batch[from..]) == [Scan(batch, from).1.event] + KeyDowns(batch[Scan(batch, from).0..])
    ensures !Scan(batch, from).1.Unreachable?
    decreases |batch| - from
  {
    if from < |batch| {
      assert batch[from..][1..] == batch[from + 1..];
      if !IsKeyDown(batch[from]) {
        ScanYieldsKeyDowns(batch, from + 1);
      }
    }
  }

  /**
   * The input mode the terminal sets admits mouse and window-size records,
   * and the first one the scan meets ends it in `unreachable!()`.
   */
  lemma MouseOrWindowRecordIsUnreachable(batch: seq<InputRecord>, from: nat)
    requires from < |batch|
    requires batch[from].eventType == MOUSE_EVENT || batch[from].eventType == WINDOW_BUFFER_SIZE_EVENT
    ensures Scan(batch, from) == (from + 1, Unreachable)
  {
  }

  function Min(a: int, b: int): int {
    if a <= b then a else b
  }

  /**
   * The console: its input mode and the queue of input records not yet read.
   * `ReadConsoleInputW` blocks until the queue is non-empty; the model asks
   * for a non-empty queue instead.
   */
  class Console {
    var inputMode: bv32
    var pending: seq<InputRecord>

    constructor (inputMode: bv32, pending: seq<InputRecord>)
      ensures this.inputMode == inputMode && this.pending == pending
    {
      this.inputMode := inputMode;
      this.pending := pending;
    }

    /** `ReadConsoleInputW`: moves the oldest `min(queued, buf.Length)` records into `buf`. */
    method ReadConsoleInput(buf: array<InputRecord>) returns (count: u32)
      requires |pending| > 0 && buf.Length <= 0xFFFF_FFFF
      modifies this`pending, buf
      ensures count as int == Min(|old(pending)|, buf.Length)
      ensures buf[..count] == old(pending)[..count] && buf[count..] == old(buf[count..])
      ensures pending == old(pending)[count..]
    {
      var n := Min(|pending|, buf.Length);
      var i := 0;
      while i < n
        invariant pending == old(pending)
        invariant 0 <= i <= n
        invariant buf[..i] == pending[..i] && buf[n..] == old(buf[n..])
      {
        buf[i] := pending[i];
        i := i + 1;
      }
      count := n as u32;
      pending := pending[n..];
    }
  }

  /** The event source of one `wait_events` call: a cursor over the current batch. */
  class WaitEventIter {
    const input: Console
    var count: u32
    var read: u32
    const buf: array<InputRecord>

    ghost predicate Valid()
      reads this
    {
      buf.Length == BUF_LEN && read <= count && count as nat <= BUF_LEN
    }

    ghost function Batch(): seq<InputRecord>
      reads this, buf
      requires Valid()
    {
      buf[..count]
    }

    /** The state `wait_events` builds: an empty batch, so the first `next` reads. */
    constructor (input: Console)
      ensures Valid() && this.input == input && fresh(buf)
      ensures count == 0 && read == 0
    {
      this.input := input;
      count := 0;
      read := 0;
      buf := new InputRecord[BUF_LEN];
    }

    /** The refill step of `next`: reset `read`, then read a fresh batch from the console. */
    method Refill()
      requires Valid() && |input.pending| > 0
      modifies this`count, this`read, buf, input`pending
      ensures Valid() && read == 0
      ensures count as int == Min(|old(input.pending)|, BUF_LEN)
      ensures Batch() == old(input.pending)[..count] && input.pending == old(input.pending)[count..]
    {
      read := 0;
      count := input.ReadConsoleInput(buf);
    }

    /** The scanning loop of `next`: consume records from `read` until one is not a key-up record. */
    method ScanBatch() returns (r: NextResult)
      requires Valid()
      modifies this`read
      ensures Valid() && count == old(count)
      ensures (read as nat, r) == Scan(Batch(), old(read) as nat)
    {
      ghost var batch := buf[..count];
      while read < count
        invariant Valid() && old(read) <= read
        invariant Scan(batch, read as nat) == Scan(batch, old(read) as nat)
      {
        var record := buf[read];
        assert record == batch[read];
        read := read + 1;
        if record.eventType == KEY_EVENT {
          if record.keyEvent.bKeyDown != 0 {
            return Yield(EventOf(record));
          }
        } else {
          return Unreachable;
        }
      }
      return End;
    }

    /** `next`: when the batch is used up, refill it; then scan it from `read`. */
    method Next() returns (r: NextResult)
      requires Valid()
      requires read >= count ==> |input.pending| > 0
      modifies this`count, this`read, buf, input`pending
      ensures Valid()
      ensures old(read) < old(count) ==>
        count == old(count) && buf[..] == old(buf[..]) && input.pending == old(input.pending)
      ensures old(read) >= old(count) ==>
        count as int == Min(|old(input.pending)|, BUF_LEN) &&
        Batch() == old(input.pending)[..count] && input.pending == old(input.pending)[count..]
      ensures (read as nat, r) == Scan(Batch(), if old(read) < old(count) then old(read) as nat else 0)
    {
      if read >= count {
        Refill();
      }
      r := ScanBatch();
    }
  }

  /** The console session: the original input mode, saved at construction. */
  class Win32Term {
    const input: Console
    const origInputMode: bv32
    ghost var dropped: bool

    constructor (input: Console)
      modifies input`inputMode
      ensures this.input == input && origInputMode == old(input.inputMode)
      ensures input.inputMode == ENABLE_MOUSE_INPUT | ENABLE_WINDOW_INPUT
      ensures input.pending == old(input.pending) && !dropped
    {
      var orig := input.inputMode;
      this.input := input;
      origInputMode := orig;
      dropped := false;
      new;
      input.inputMode := ENABLE_MOUSE_INPUT | ENABLE_WINDOW_INPUT;
    }

    method WaitEvents() returns (it: WaitEventIter)
      ensures fresh(it) && fresh(it.buf) && it.Valid() && it.input == input
      ensures it.count == 0 && it.read == 0
    {
      it := new WaitEventIter(input);
    }

    method Drop()
      requires !dropped
      modifies input`inputMode, this`dropped
      ensures input.inputMode == origInputMode && dropped
    {
      input.inputMode := origInputMode;
      dropped := true;
    }
  }

  /** A console session leaves the input mode as it found it. */
  method ConsoleSession(input: Console)
    modifies input`inputMode
    ensures input.inputMode == old(input.inputMode)
  {
    var term := new Win32Term(input);
    term.Drop();
  }
}
