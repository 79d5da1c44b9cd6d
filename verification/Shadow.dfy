/** Shadow memory: two cells for every byte of a shared buffer. `Record` says in
    closed form what `ShadowBuffer.RecordAccess` computes byte by byte. */
module Shadow {
  import opened Basics
  import opened Clocks

  const CELLS_PER_BYTE: nat := 2

  datatype Cell = Cell(tid: Tid, epoch: nat, isWrite: bool, valid: bool)

  const EMPTY: Cell := Cell(0, 0, false, false)

  /** The cells of one byte. */
  datatype Slots = Slots(even: Cell, odd: Cell) {
    function At(c: nat): Cell
      requires c < CELLS_PER_BYTE
    {
      if c == 0 then even else odd
    }

    function Put(c: nat, cell: Cell): Slots
      requires c < CELLS_PER_BYTE
    {
      if c == 0 then Slots(cell, odd) else Slots(even, cell)
    }
  }

  datatype Report = Report(byte: nat, byteLength: nat,
                           tid1: Tid, isWrite1: bool, epoch1: nat,
                           tid2: Tid, isWrite2: bool, epoch2: nat)

  function Slot(tid: Tid): nat {
    tid % CELLS_PER_BYTE
  }

  /** The stored access `cell` conflicts with the access and is not covered by the
      accessing thread's clock. */
  predicate Races(cell: Cell, tid: Tid, isWrite: bool, clock: Clock) {
    && cell.valid
    && cell.tid != tid
    && (cell.isWrite || isWrite)
    && clock[cell.tid] < cell.epoch
  }

  predicate ByteRaces(b: Slots, tid: Tid, isWrite: bool, clock: Clock) {
    Races(b.even, tid, isWrite, clock) || Races(b.odd, tid, isWrite, clock)
  }

  /** One past the last in-range byte of an access. */
  function Stop(length: nat, offset: nat, size: nat): nat {
    Min(offset + size, length)
  }

  /** The first racing byte in [from, stop), or `stop`. */
  function FirstRace(s: seq<Slots>, from: nat, stop: nat, tid: Tid, isWrite: bool, clock: Clock): (b: nat)
    requires from <= stop <= |s|
    ensures from <= b <= stop
    ensures forall k :: from <= k < b ==> !ByteRaces(s[k], tid, isWrite, clock)
    ensures b < stop ==> ByteRaces(s[b], tid, isWrite, clock)
    decreases stop - from
  {
    if from == stop || ByteRaces(s[from], tid, isWrite, clock) then from
    else FirstRace(s, from + 1, stop, tid, isWrite, clock)
  }

  /** Bytes [from, upto) get `cell` in slot `c`; nothing else changes. */
  function Stamp(s: seq<Slots>, from: nat, upto: nat, c: nat, cell: Cell): (r: seq<Slots>)
    requires c < CELLS_PER_BYTE
    ensures |r| == |s|
  {
    seq(|s|, b requires 0 <= b < |s| => if from <= b < upto then s[b].Put(c, cell) else s[b])
  }

  /** One past the last byte an access records: it stops after the first racing one. */
  function RecordedUpto(s: seq<Slots>, offset: nat, size: nat, tid: Tid, isWrite: bool, clock: Clock): (u: nat)
    ensures u <= Stop(|s|, offset, size) || u == offset
  {
    var stop := Stop(|s|, offset, size);
    if offset >= stop then offset
    else
      var b := FirstRace(s, offset, stop, tid, isWrite, clock);
      if b < stop then b + 1 else stop
  }

  function RaceReport(s: seq<Slots>, byte: nat, tid: Tid, isWrite: bool, clock: Clock): Report
    requires byte < |s|
  {
    var cell := if Races(s[byte].even, tid, isWrite, clock) then s[byte].even else s[byte].odd;
    Report(byte, |s|, cell.tid, cell.isWrite, cell.epoch, tid, isWrite, clock[tid])
  }

  function Record(s: seq<Slots>, offset: nat, size: nat, tid: Tid, isWrite: bool, clock: Clock)
    : (r: (seq<Slots>, Option<Report>))
    ensures |r.0| == |s|
  {
    var stop := Stop(|s|, offset, size);
    var upto := RecordedUpto(s, offset, size, tid, isWrite, clock);
    var after := Stamp(s, offset, upto, Slot(tid), Cell(tid, clock[tid], isWrite, true));
    if offset < upto && ByteRaces(s[upto - 1], tid, isWrite, clock)
    then (after, Some(RaceReport(s, upto - 1, tid, isWrite, clock)))
    else (after, None)
  }

  /** A report is produced exactly when some in-range byte holds a racing cell; it
      names the first such byte and, there, the lower-numbered racing cell. */
  lemma RecordReportsFirstRace(s: seq<Slots>, offset: nat, size: nat, tid: Tid, isWrite: bool, clock: Clock)
    ensures var rep := Record(s, offset, size, tid, isWrite, clock).1;
            && (rep.Some? <==>
                 exists b :: offset <= b < Stop(|s|, offset, size) && ByteRaces(s[b], tid, isWrite, clock))
            && (rep.Some? ==>
                 var b := rep.value.byte;
                 && offset <= b < Stop(|s|, offset, size)
                 && (forall k :: offset <= k < b ==> !ByteRaces(s[k], tid, isWrite, clock))
                 && (exists c: nat :: c < CELLS_PER_BYTE
                       && Races(s[b].At(c), tid, isWrite, clock)
                       && (c == 1 ==> !Races(s[b].At(0), tid, isWrite, clock))
                       && rep.value == Report(b, |s|, s[b].At(c).tid, s[b].At(c).isWrite, s[b].At(c).epoch,
                                              tid, isWrite, clock[tid])))
  {
    var stop := Stop(|s|, offset, size);
    if offset < stop {
      var b := FirstRace(s, offset, stop, tid, isWrite, clock);
      if b < stop {
        var c := if Races(s[b].even, tid, isWrite, clock) then 0 else 1;
        assert Races(s[b].At(c), tid, isWrite, clock);
      }
    }
  }

  /** What is recorded: every byte in range if there is no report, and otherwise those up
      to the byte reported. */
  lemma RecordedUptoReport(s: seq<Slots>, offset: nat, size: nat, tid: Tid, isWrite: bool, clock: Clock, b: nat)
    ensures var rep := Record(s, offset, size, tid, isWrite, clock).1;
            offset <= b < RecordedUpto(s, offset, size, tid, isWrite, clock) <==>
              offset <= b < offset + size && b < |s| && (rep.Some? ==> b <= rep.value.byte)
  {
  }

  lemma StampNothing(s: seq<Slots>, from: nat, c: nat, cell: Cell)
    requires c < CELLS_PER_BYTE
    ensures Stamp(s, from, from, c, cell) == s
  {
  }

  lemma StampNext(s: seq<Slots>, from: nat, byte: nat, c: nat, cell: Cell)
    requires from <= byte < |s| && c < CELLS_PER_BYTE
    ensures Stamp(s, from, byte, c, cell)[byte] == s[byte]
    ensures Stamp(s, from, byte + 1, c, cell) == Stamp(s, from, byte, c, cell)[byte := s[byte].Put(c, cell)]
  {
  }

  lemma RecordAtRace(s: seq<Slots>, offset: nat, size: nat, byte: nat, tid: Tid, isWrite: bool, clock: Clock)
    requires offset <= byte < Stop(|s|, offset, size) && ByteRaces(s[byte], tid, isWrite, clock)
    requires forall k :: offset <= k < byte ==> !ByteRaces(s[k], tid, isWrite, clock)
    ensures Record(s, offset, size, tid, isWrite, clock) ==
            (Stamp(s, offset, byte + 1, Slot(tid), Cell(tid, clock[tid], isWrite, true)),
             Some(RaceReport(s, byte, tid, isWrite, clock)))
  {
    assert FirstRace(s, offset, Stop(|s|, offset, size), tid, isWrite, clock) == byte;
  }

  lemma RecordAtEnd(s: seq<Slots>, offset: nat, size: nat, end: nat, tid: Tid, isWrite: bool, clock: Clock)
    requires end == offset >= Stop(|s|, offset, size) || offset < end == Stop(|s|, offset, size)
    requires forall k :: offset <= k < end ==> !ByteRaces(s[k], tid, isWrite, clock)
    ensures Record(s, offset, size, tid, isWrite, clock) ==
            (Stamp(s, offset, end, Slot(tid), Cell(tid, clock[tid], isWrite, true)), None)
  {
    if offset < end {
      assert FirstRace(s, offset, end, tid, isWrite, clock) == end;
    }
  }

  class ShadowBuffer {
    const byteLength: nat
    const cells: array<Cell>

    ghost predicate Valid() {
      cells.Length == byteLength * CELLS_PER_BYTE
    }

    ghost function Bytes(): (s: seq<Slots>)
      requires Valid()
      reads cells
      ensures |s| == byteLength
    {
      seq(byteLength, b requires 0 <= b < byteLength reads cells =>
        Slots(cells[b * CELLS_PER_BYTE], cells[b * CELLS_PER_BYTE + 1]))
    }

    constructor (length: nat)
      ensures Valid() && fresh(cells) && byteLength == length
      ensures Bytes() == seq(length, _ => Slots(EMPTY, EMPTY))
    {
      byteLength := length;
      cells := new Cell[length * CELLS_PER_BYTE](_ => EMPTY);
    }

    /** Scans one byte's cells for a race. */
    method ScanByte(byte: nat, tid: Tid, isWrite: bool, clock: VClock) returns (race: Option<Cell>)
      requires Valid() && clock.Valid() && byte < byteLength
      ensures race.Some? <==> ByteRaces(Bytes()[byte], tid, isWrite, clock.Value())
      ensures race.Some? ==> var b := Bytes()[byte];
                race.value == if Races(b.even, tid, isWrite, clock.Value()) then b.even else b.odd
    {
      var c := 0;
      while c < CELLS_PER_BYTE
        invariant 0 <= c <= CELLS_PER_BYTE
        invariant forall k :: 0 <= k < c ==> !Races(Bytes()[byte].At(k), tid, isWrite, clock.Value())
      {
        var cell := cells[byte * CELLS_PER_BYTE + c];
        assert cell == Bytes()[byte].At(c);
        if !(!cell.valid || cell.tid == tid) && !(!cell.isWrite && !isWrite) && !(clock.Get(cell.tid) >= cell.epoch) {
          assert c == 1 ==> !Races(Bytes()[byte].At(0), tid, isWrite, clock.Value());
          return Some(cell);
        }
        c := c + 1;
      }
      assert !Races(Bytes()[byte].At(0), tid, isWrite, clock.Value());
      assert !Races(Bytes()[byte].At(1), tid, isWrite, clock.Value());
      return None;
    }

    method Store(byte: nat, tid: Tid, isWrite: bool, clock: VClock)
      requires Valid() && clock.Valid() && byte < byteLength
      modifies cells
      ensures Bytes() == old(Bytes())[byte := old(Bytes())[byte].Put(Slot(tid),
                Cell(tid, clock.Value()[tid], isWrite, true))]
    {
      var si := byte * CELLS_PER_BYTE + Slot(tid);
      cells[si] := Cell(tid, clock.Get(tid), isWrite, true);
    }

    method RecordAccess(offset: nat, size: nat, tid: Tid, isWrite: bool, clock: VClock)
      returns (race: bool, report: Option<Report>)
      requires Valid() && clock.Valid() && clock.clk as object != cells
      modifies cells
      ensures (Bytes(), report) == Record(old(Bytes()), offset, size, tid, isWrite, clock.Value())
      ensures race == report.Some?
    {
      ghost var s := Bytes();
      ghost var now := clock.Value();
      ghost var cell := Cell(tid, now[tid], isWrite, true);
      StampNothing(s, offset, Slot(tid), cell);
      var i := 0;
      while i < size && offset + i < byteLength
        invariant 0 <= i <= size && (i == 0 || offset + i <= byteLength)
        invariant Bytes() == Stamp(s, offset, offset + i, Slot(tid), cell)
        invariant forall k :: offset <= k < offset + i ==> !ByteRaces(s[k], tid, isWrite, now)
        invariant clock.Value() == now
      {
        var byte := offset + i;
        StampNext(s, offset, byte, Slot(tid), cell);
        var found := ScanByte(byte, tid, isWrite, clock);
        Store(byte, tid, isWrite, clock);
        if found.Some? {
          RecordAtRace(s, offset, size, byte, tid, isWrite, now);
          var c := found.value;
          return true, Some(Report(byte, byteLength, c.tid, c.isWrite, c.epoch, tid, isWrite, clock.Get(tid)));
        }
        i := i + 1;
      }
      RecordAtEnd(s, offset, size, offset + i, tid, isWrite, now);
      return false, None;
    }
  }
}
