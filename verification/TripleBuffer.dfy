/** The lock-free triple buffer: one writer and one reader hand values over through a
    single atomic word.  A value is a sequence of `width` machine words that are stored
    and copied one at a time, so that an interleaving could tear it. */
module TripleBuffers {
  import opened Wrappers

  // ---------------------------------------------------------------- the packed word

  const TWO_TO_THE_16 := 0x1_0000
  const TWO_TO_THE_32 := 0x1_0000_0000

  function MakeState(backBufferIndex: nat, isWrite: bool): nat {
    (backBufferIndex * TWO_TO_THE_16) % TWO_TO_THE_32 + (if isWrite then 1 else 0)
  }

  function BackIndex(state: nat): nat { state / TWO_TO_THE_16 }

  predicate IsNewWrite(state: nat) { state % TWO_TO_THE_16 != 0 }

  /** The flag always survives packing; the index exactly when it fits in 16 bits. */
  lemma PackedWord(index: nat, isWrite: bool)
    ensures IsNewWrite(MakeState(index, isWrite)) == isWrite
    ensures BackIndex(MakeState(index, isWrite)) == index <==> index < TWO_TO_THE_16
  {
    var shifted := index * TWO_TO_THE_16;
    assert shifted % TWO_TO_THE_32 == (index % TWO_TO_THE_16) * TWO_TO_THE_16;
  }

  // ---------------------------------------------------------------- memory and its atomic changes

  datatype Memory<W> = Memory(state: nat, readIndex: nat, writeIndex: nat, buffers: seq<seq<W>>)

  function InitialMemory<W>(initial: seq<W>): Memory<W> {
    Memory(MakeState(1, false), 0, 2, [initial, initial, initial])
  }

  /** A slot; indices out of range do not occur in any run. */
  function Slot<W>(m: Memory<W>, i: nat): seq<W> {
    if i < |m.buffers| then m.buffers[i] else []
  }

  function WordStored<W>(m: Memory<W>, k: nat, word: W): Memory<W> {
    var i := m.writeIndex;
    if i < |m.buffers| && k < |m.buffers[i]| then m.(buffers := m.buffers[i := m.buffers[i][k := word]]) else m
  }

  function WriterSwapped<W>(m: Memory<W>): Memory<W> { m.(state := MakeState(m.writeIndex, true)) }

  function WriteIndexSet<W>(m: Memory<W>, prevState: nat): Memory<W> { m.(writeIndex := BackIndex(prevState)) }

  function ReaderSwapped<W>(m: Memory<W>): Memory<W> { m.(state := MakeState(m.readIndex, false)) }

  function ReadIndexSet<W>(m: Memory<W>, prevState: nat): Memory<W> { m.(readIndex := BackIndex(prevState)) }

  // ---------------------------------------------------------------- the two threads

  datatype Writer<W> =
    | Resting
    | Storing(value: seq<W>, stored: nat)
    | Swapped(prevState: nat)

  datatype ReadOp = Read | ReadNew

  datatype Reader<W> =
    | Idle
    | Loaded(op: ReadOp, state: nat)
    | Taken(op: ReadOp, prevState: nat)
    | Copying(op: ReadOp, isNew: bool, copied: seq<W>)

  datatype Step<W> =
    | BeginWrite(value: seq<W>)
    | StoreWord
    | SwapIn
    | SetWriteIndex
    | Load(op: ReadOp)
    | TakeOut
    | SetReadIndex
    | CopyWord
    | FinishRead

  /** A completed read: its value, the number of the write that made the value, whether
      the load saw the new flag, and how many writes were published at the load and at
      the end. */
  datatype ReadRecord<W> = ReadRecord(value: seq<W>, write: nat, isNew: bool, atLoad: nat, atEnd: nat)

  /** The memory, the threads' program points, and the history: `log[n]` is the value
      of the n-th write (`log[0]` the initial value), `published` numbers the latest
      write that was swapped in, `origin[i]` the write whose words slot i holds. */
  datatype Config<W> = Config(
    width: nat, mem: Memory<W>, writer: Writer<W>, reader: Reader<W>,
    log: seq<seq<W>>, published: nat, origin: seq<nat>, atLoad: nat, results: seq<ReadRecord<W>>)

  function Initial<W>(initial: seq<W>): Config<W> {
    Config(|initial|, InitialMemory(initial), Resting, Idle, [initial], 0, [0, 0, 0], 0, [])
  }

  predicate Enabled<W>(c: Config<W>, s: Step<W>) {
    match s
    case BeginWrite(value) => c.writer.Resting? && |value| == c.width
    case StoreWord => c.writer.Storing? && c.writer.stored < c.width
    case SwapIn => c.writer.Storing? && c.writer.stored == c.width
    case SetWriteIndex => c.writer.Swapped?
    case Load(op) => c.reader.Idle?
    case TakeOut => c.reader.Loaded?
    case SetReadIndex => c.reader.Taken?
    case CopyWord => c.reader.Copying? && |c.reader.copied| < c.width
    case FinishRead => c.reader.Copying? && |c.reader.copied| == c.width
  }

  function WriterStep<W>(c: Config<W>, s: Step<W>): Config<W>
    requires Enabled(c, s)
  {
    match s
    case BeginWrite(value) =>
      c.(writer := Storing(value, 0), log := c.log + [value],
         origin := if c.mem.writeIndex < |c.origin| then c.origin[c.mem.writeIndex := |c.log|] else c.origin)
    case StoreWord =>
      var k := c.writer.stored;
      if k < |c.writer.value| then
        c.(mem := WordStored(c.mem, k, c.writer.value[k]), writer := c.writer.(stored := k + 1))
      else c
    case SwapIn =>
      c.(mem := WriterSwapped(c.mem), writer := Swapped(c.mem.state), published := if |c.log| == 0
          then 0 else |c.log| - 1)
    case SetWriteIndex =>
      c.(mem := WriteIndexSet(c.mem, c.writer.prevState), writer := Resting)
    case _ => c
  }

  function ReaderStep<W>(c: Config<W>, s: Step<W>): Config<W>
    requires Enabled(c, s)
  {
    match s
    case Load(op) =>
      c.(atLoad := c.published,
         reader := if IsNewWrite(c.mem.state) then Loaded(op, c.mem.state)
                   else if op.Read? then Copying(op, false, []) else Idle)
    case TakeOut =>
      c.(mem := ReaderSwapped(c.mem), reader := Taken(c.reader.op, c.mem.state))
    case SetReadIndex =>
      c.(mem := ReadIndexSet(c.mem, c.reader.prevState), reader := Copying(c.reader.op, true, []))
    case CopyWord =>
      var slot, k := Slot(c.mem, c.mem.readIndex), |c.reader.copied|;
      if k < |slot| then c.(reader := c.reader.(copied := c.reader.copied + [slot[k]])) else c
    case FinishRead =>
      var write := if c.mem.readIndex < |c.origin| then c.origin[c.mem.readIndex] else 0;
      c.(reader := Idle,
         results := c.results + [ReadRecord(c.reader.copied, write, c.reader.isNew, c.atLoad, c.published)])
    case _ => c
  }

  predicate OfWriter<W>(s: Step<W>) { s.BeginWrite? || s.StoreWord? || s.SwapIn? || s.SetWriteIndex? }

  function Next<W>(c: Config<W>, s: Step<W>): Config<W>
    requires Enabled(c, s)
  {
    if OfWriter(s) then WriterStep(c, s) else ReaderStep(c, s)
  }

  /** A run: any interleaving of enabled steps from an initial configuration. */
  ghost predicate IsRun<W>(initial: seq<W>, run: seq<Config<W>>, steps: seq<Step<W>>) {
    && |run| == |steps| + 1
    && run[0] == Initial(initial)
    && forall i :: 0 <= i < |steps| ==> Enabled(run[i], steps[i]) && run[i + 1] == Next(run[i], steps[i])
  }

  // ---------------------------------------------------------------- the invariant

  /** The slot a thread owns, counting an exchanged word not yet stored in its index. */
  function WriterSlot<W>(c: Config<W>): nat {
    if c.writer.Swapped? then BackIndex(c.writer.prevState) else c.mem.writeIndex
  }

  function ReaderSlot<W>(c: Config<W>): nat {
    if c.reader.Taken? then BackIndex(c.reader.prevState) else c.mem.readIndex
  }

  function LastRead<W>(c: Config<W>): nat {
    if c.results == [] then 0 else c.results[|c.results| - 1].write
  }

  ghost predicate SlotsArePermuted<W>(c: Config<W>) {
    var w, b, r := WriterSlot(c), BackIndex(c.mem.state), ReaderSlot(c);
    w < 3 && b < 3 && r < 3 && w != b && b != r && r != w
  }

  ghost predicate Shape<W>(c: Config<W>) {
    && |c.mem.buffers| == 3 && |c.origin| == 3 && |c.log| > 0
    && (forall i :: 0 <= i < 3 ==> |c.mem.buffers[i]| == c.width)
    && (forall n :: 0 <= n < |c.log| ==> |c.log[n]| == c.width)
    && c.mem.state == MakeState(BackIndex(c.mem.state), IsNewWrite(c.mem.state))
    && SlotsArePermuted(c)
  }

  ghost predicate Holds<W>(c: Config<W>, i: nat)
    requires Shape(c) && i < 3
  {
    c.origin[i] <= c.published < |c.log| && c.mem.buffers[i] == c.log[c.origin[i]]
  }

  ghost predicate WriterOk<W>(c: Config<W>)
    requires Shape(c)
  {
    if c.writer.Storing? then
      && c.published + 2 == |c.log|
      && c.writer.value == c.log[|c.log| - 1]
      && c.writer.stored <= c.width
      && c.origin[c.mem.writeIndex] == |c.log| - 1
      && c.mem.buffers[c.mem.writeIndex][..c.writer.stored] == c.writer.value[..c.writer.stored]
    else
      c.published + 1 == |c.log|
  }

  ghost predicate ReaderOk<W>(c: Config<W>)
    requires Shape(c)
  {
    var mine := c.origin[ReaderSlot(c)];
    && c.atLoad <= c.published
    && match c.reader
       case Idle => mine == LastRead(c)
       case Loaded(_, state) => IsNewWrite(state) && IsNewWrite(c.mem.state) && mine == LastRead(c)
       case Taken(_, prevState) => IsNewWrite(prevState) && mine > LastRead(c) && mine >= c.atLoad
       case Copying(_, isNew, copied) =>
         && (if isNew then mine > LastRead(c) else mine == LastRead(c))
         && mine >= c.atLoad
         && |copied| <= c.width && copied == c.mem.buffers[ReaderSlot(c)][..|copied|]
  }

  ghost predicate ReadsOk<W>(c: Config<W>) {
    && (forall i :: 0 <= i < |c.results| ==>
          && c.results[i].write < |c.log| && c.results[i].value == c.log[c.results[i].write]
          && c.results[i].atLoad <= c.results[i].write <= c.results[i].atEnd <= c.published)
    && (forall i, j :: 0 <= i < j < |c.results| ==>
          && c.results[i].write <= c.results[j].write
          && (c.results[j].isNew ==> c.results[i].write < c.results[j].write))
  }

  ghost predicate Inv<W>(c: Config<W>) {
    && Shape(c)
    && Holds(c, BackIndex(c.mem.state)) && Holds(c, ReaderSlot(c))
    && (if IsNewWrite(c.mem.state)
        then c.origin[BackIndex(c.mem.state)] == c.published && c.origin[ReaderSlot(c)] < c.published
        else c.origin[ReaderSlot(c)] == c.published)
    && WriterOk(c) && ReaderOk(c) && ReadsOk(c)
  }

  lemma InitialInv<W>(initial: seq<W>)
    ensures Inv(Initial(initial))
  {
    PackedWord(1, false);
  }

  lemma WriterKeepsReads<W>(c: Config<W>, s: Step<W>)
    requires Inv(c) && Enabled(c, s) && OfWriter(s)
    ensures ReadsOk(Next(c, s))
  {
  }

  lemma ReaderKeepsReads<W>(c: Config<W>, s: Step<W>)
    requires Inv(c) && Enabled(c, s) && !OfWriter(s)
    ensures ReadsOk(Next(c, s))
  {
    if s.FinishRead? {
      var before, after := c.results, Next(c, s).results;
      assert forall i :: 0 <= i < |before| ==> after[i] == before[i];
      assert after[|before|].write == c.origin[c.mem.readIndex];
    }
  }

  lemma WriterInv<W>(c: Config<W>, s: Step<W>)
    requires Inv(c) && Enabled(c, s) && OfWriter(s)
    ensures Inv(Next(c, s))
  {
    match s
    case StoreWord => StoreWordInv(c);
    case SwapIn => SwapInInv(c);
    case _ => WriterTurnInv(c, s);
  }

  lemma WriterTurnInv<W>(c: Config<W>, s: Step<W>)
    requires Inv(c) && Enabled(c, s) && (s.BeginWrite? || s.SetWriteIndex?)
    ensures Inv(Next(c, s))
  {
    WriterKeepsReads(c, s);
    hide ReadsOk, IsNewWrite, BackIndex, MakeState;
  }

  lemma StoreWordInv<W>(c: Config<W>)
    requires Inv(c) && Enabled(c, StoreWord)
    ensures Inv(Next(c, StoreWord))
  {
    WriterKeepsReads(c, StoreWord);
    hide ReadsOk, IsNewWrite, BackIndex, MakeState;
    var k, v := c.writer.stored, c.writer.value;
    var old', new' := c.mem.buffers[c.mem.writeIndex], Next(c, StoreWord).mem.buffers[c.mem.writeIndex];
    assert new' == old'[k := v[k]];
    assert new'[..k + 1] == v[..k] + [v[k]] == v[..k + 1];
  }

  lemma SwapInInv<W>(c: Config<W>)
    requires Inv(c) && Enabled(c, SwapIn)
    ensures Inv(Next(c, SwapIn))
  {
    WriterKeepsReads(c, SwapIn);
    PackedWord(c.mem.writeIndex, true);
    hide ReadsOk, IsNewWrite, BackIndex, MakeState;
    assert c.mem.buffers[c.mem.writeIndex] == c.writer.value;
  }

  lemma ReaderInv<W>(c: Config<W>, s: Step<W>)
    requires Inv(c) && Enabled(c, s) && !OfWriter(s)
    ensures Inv(Next(c, s))
  {
    ReaderKeepsReads(c, s);
    hide ReadsOk;
    PackedWord(c.mem.readIndex, false);
    if s.CopyWord? {
      var slot, k := c.mem.buffers[c.mem.readIndex], |c.reader.copied|;
      assert slot[..k] + [slot[k]] == slot[..k + 1];
    }
  }

  lemma {:induction false} InvAlongRun<W>(initial: seq<W>, run: seq<Config<W>>, steps: seq<Step<W>>, i: nat)
    requires IsRun(initial, run, steps) && i < |run|
    ensures Inv(run[i])
  {
    if i == 0 {
      InitialInv(initial);
    } else {
      InvAlongRun(initial, run, steps, i - 1);
      if OfWriter(steps[i - 1]) { WriterInv(run[i - 1], steps[i - 1]); } else { ReaderInv(run[i - 1], steps[i - 1]); }
    }
  }

  // ---------------------------------------------------------------- what every run keeps

  /** The three owners hold the three slots, and a slot being written is never the slot
      being read. */
  lemma NoSlotIsShared<W>(initial: seq<W>, run: seq<Config<W>>, steps: seq<Step<W>>, i: nat)
    requires IsRun(initial, run, steps) && i < |run|
    ensures var c := run[i];
            && {WriterSlot(c), BackIndex(c.mem.state), ReaderSlot(c)} == {0, 1, 2}
            && (c.writer.Storing? && c.reader.Copying? ==> c.mem.writeIndex != c.mem.readIndex)
  {
    InvAlongRun(initial, run, steps, i);
  }

  /** No read is torn: what a read returns is, word for word, the value of one write. */
  lemma NoReadIsTorn<W>(initial: seq<W>, run: seq<Config<W>>, steps: seq<Step<W>>, i: nat, r: nat)
    requires IsRun(initial, run, steps) && i < |run| && r < |run[i].results|
    ensures run[i].results[r].value in run[i].log
  {
    InvAlongRun(initial, run, steps, i);
  }

  /** Reads come in write order and never go back; a read returns a write no older than
      the last one published at its load and no younger than its end; and the values
      flagged new are delivered at most once. */
  lemma ReadsAreOrdered<W>(initial: seq<W>, run: seq<Config<W>>, steps: seq<Step<W>>, i: nat)
    requires IsRun(initial, run, steps) && i < |run|
    ensures forall r :: 0 <= r < |run[i].results| ==>
              var read := run[i].results[r];
              && read.write < |run[i].log| && read.value == run[i].log[read.write]
              && read.atLoad <= read.write <= read.atEnd
    ensures forall q, r :: 0 <= q < r < |run[i].results| ==>
              && run[i].results[q].write <= run[i].results[r].write
              && (run[i].results[r].isNew ==> run[i].results[q].write != run[i].results[r].write)
  {
    InvAlongRun(initial, run, steps, i);
  }

  /** The new flag that a load saw is still set when the reader exchanges the word,
      whatever the writer did in between. */
  lemma FlagSurvivesUntilExchange<W>(initial: seq<W>, run: seq<Config<W>>, steps: seq<Step<W>>, i: nat)
    requires IsRun(initial, run, steps) && i < |steps| && steps[i].TakeOut?
    ensures IsNewWrite(run[i].mem.state) && IsNewWrite(run[i + 1].reader.prevState)
    ensures var b := BackIndex(run[i].mem.state);
            b < |run[i].origin| && run[i].origin[b] == run[i].published
  {
    InvAlongRun(initial, run, steps, i);
  }

  /** If nothing is published during a read, and no write is in progress, the read returned
      the last value written. */
  lemma QuietReadIsLatest<W>(initial: seq<W>, run: seq<Config<W>>, steps: seq<Step<W>>, i: nat)
    requires IsRun(initial, run, steps) && i < |run| && run[i].results != []
    requires var read := run[i].results[|run[i].results| - 1]; read.atLoad == read.atEnd == run[i].published
    requires !run[i].writer.Storing?
    ensures run[i].log != [] && run[i].results[|run[i].results| - 1].value == run[i].log[|run[i].log| - 1]
  {
    InvAlongRun(initial, run, steps, i);
  }

  // ---------------------------------------------------------------- what every operation comes to

  /** `readNew` comes back empty exactly when every published write has been read, and `read` never
      does. */
  lemma EmptyReadExactly<W>(initial: seq<W>, run: seq<Config<W>>, steps: seq<Step<W>>, i: nat)
    requires IsRun(initial, run, steps) && i < |steps| && steps[i].Load?
    ensures run[i + 1].reader.Idle? <==> steps[i].op.ReadNew? && LastRead(run[i]) == run[i].published
    ensures LastRead(run[i]) <= run[i].published && run[i + 1].results == run[i].results
  {
    InvAlongRun(initial, run, steps, i);
  }

  /** The read that was loaded at step i is still under way. */
  ghost predicate UnderWay<W>(c: Config<W>, op: ReadOp, loaded: Config<W>) {
    && c.results == loaded.results && c.atLoad == loaded.published
    && match c.reader
       case Idle => false
       case Loaded(o, _) => o == op && IsNewWrite(loaded.mem.state)
       case Taken(o, _) => o == op && IsNewWrite(loaded.mem.state)
       case Copying(o, isNew, _) => o == op && isNew == IsNewWrite(loaded.mem.state)
  }

  lemma {:induction false} StaysUnderWay<W>(initial: seq<W>, run: seq<Config<W>>, steps: seq<Step<W>>, i: nat, j: nat)
    requires IsRun(initial, run, steps) && i < j < |run| && steps[i].Load? && !run[i + 1].reader.Idle?
    requires forall k :: i < k < j ==> !steps[k].FinishRead?
    ensures UnderWay(run[j], steps[i].op, run[i])
  {
    if j > i + 1 {
      StaysUnderWay(initial, run, steps, i, j - 1);
    }
  }

  /** A read that goes on ends with one more record: of a write at least as late as the last one
      published at its load, new exactly if that had not been read before, and then later than
      all that were. */
  lemma ReadIsDelivered<W>(initial: seq<W>, run: seq<Config<W>>, steps: seq<Step<W>>, i: nat, j: nat)
    requires IsRun(initial, run, steps) && i < j < |steps| && steps[i].Load? && !run[i + 1].reader.Idle?
    requires steps[j].FinishRead? && forall k :: i < k < j ==> !steps[k].FinishRead?
    ensures |run[j + 1].results| == |run[i].results| + 1
    ensures var read := run[j + 1].results[|run[i].results|];
            && run[j + 1].results == run[i].results + [read]
            && read.write < |run[j].log| && read.value == run[j].log[read.write]
            && run[i].published <= read.write <= run[j].published
            && (read.isNew <==> LastRead(run[i]) < run[i].published)
            && (read.isNew <==> LastRead(run[i]) < read.write)
  {
    InvAlongRun(initial, run, steps, i);
    InvAlongRun(initial, run, steps, j);
    StaysUnderWay(initial, run, steps, i, j);
  }

  /** The steps that a thread has yet to take to end its operation. */
  function ReaderWork<W>(c: Config<W>): int {
    match c.reader
    case Idle => 0
    case Loaded(_, _) => c.width + 3
    case Taken(_, _) => c.width + 2
    case Copying(_, _, copied) => c.width - |copied| + 1
  }

  function WriterWork<W>(c: Config<W>): int {
    match c.writer
    case Resting => 0
    case Storing(_, stored) => c.width - stored + 2
    case Swapped(_) => 1
  }

  /** No operation waits for the other thread: until it has ended, it has a step that it can take,
      each of its steps brings it nearer to its end, and those of the other do not take it back. */
  lemma OperationsAreWaitFree<W>(initial: seq<W>, run: seq<Config<W>>, steps: seq<Step<W>>, i: nat)
    requires IsRun(initial, run, steps) && i < |run|
    ensures var c := run[i];
            && 0 <= ReaderWork(c) <= c.width + 3 && 0 <= WriterWork(c) <= c.width + 2
            && (ReaderWork(c) > 0 <==> exists s :: !OfWriter(s) && !s.Load? && Enabled(c, s))
            && (WriterWork(c) > 0 <==> exists s :: OfWriter(s) && !s.BeginWrite? && Enabled(c, s))
    ensures i < |steps| && !steps[i].Load? ==>
              ReaderWork(run[i + 1]) == ReaderWork(run[i]) - if OfWriter(steps[i]) then 0 else 1
    ensures i < |steps| && !steps[i].BeginWrite? ==>
              WriterWork(run[i + 1]) == WriterWork(run[i]) - if OfWriter(steps[i]) then 1 else 0
  {
    hide Inv, ReaderWork, WriterWork, Enabled, OfWriter, Next;
    InvAlongRun(initial, run, steps, i);
    CanStep(run[i]);
    if i < |steps| { WorkStep(run[i], steps[i]); }
  }

  lemma WorkStep<W>(c: Config<W>, s: Step<W>)
    requires Inv(c) && Enabled(c, s)
    ensures !s.Load? ==> ReaderWork(Next(c, s)) == ReaderWork(c) - if OfWriter(s) then 0 else 1
    ensures !s.BeginWrite? ==> WriterWork(Next(c, s)) == WriterWork(c) - if OfWriter(s) then 1 else 0
  {
    hide ReadsOk, Holds, IsNewWrite, BackIndex, MakeState;
  }

  lemma CanStep<W>(c: Config<W>)
    requires Inv(c)
    ensures 0 <= ReaderWork(c) <= c.width + 3 && 0 <= WriterWork(c) <= c.width + 2
    ensures ReaderWork(c) > 0 <==> exists s :: !OfWriter(s) && !s.Load? && Enabled(c, s)
    ensures WriterWork(c) > 0 <==> exists s :: OfWriter(s) && !s.BeginWrite? && Enabled(c, s)
  {
    if ReaderWork(c) > 0 {
      var s: Step<W> := match c.reader
        case Loaded(_, _) => TakeOut
        case Taken(_, _) => SetReadIndex
        case Copying(_, _, copied) => if |copied| < c.width then CopyWord else FinishRead
        case Idle => FinishRead;
      assert !OfWriter(s) && !s.Load? && Enabled(c, s);
    }
    if WriterWork(c) > 0 {
      var s: Step<W> := match c.writer
        case Storing(_, stored) => if stored < c.width then StoreWord else SwapIn
        case _ => SetWriteIndex;
      assert OfWriter(s) && !s.BeginWrite? && Enabled(c, s);
    }
  }

  // ---------------------------------------------------------------- the object

  class TripleBuffer<W> {
    const width: nat
    var state: nat
    var readIndex: nat
    var writeIndex: nat
    const buffers: array<seq<W>>

    /** The machine of which each method takes the steps, with no other thread in between. */
    ghost var machine: Config<W>

    function Mem(): Memory<W>
      reads this, buffers
    {
      Memory(state, readIndex, writeIndex, buffers[..])
    }

    ghost predicate Valid()
      reads this, buffers
    {
      Inv(machine) && machine.mem == Mem() && machine.width == width && machine.writer.Resting? && machine.reader.Idle?
    }

    predicate HasNew()
      reads this
    {
      IsNewWrite(state)
    }

    /** The last value written. */
    ghost function Latest(): seq<W>
      requires Valid()
      reads this, buffers
    {
      machine.log[LastWrite()]
    }

    /** The number of the last write. */
    ghost function LastWrite(): nat
      requires Valid()
      reads this, buffers
    {
      |machine.log| - 1
    }

    constructor (initial: seq<W>)
      ensures Valid() && fresh(buffers) && width == |initial| && machine == Initial(initial)
      ensures Latest() == initial && !HasNew()
    {
      width := |initial|;
      state, readIndex, writeIndex := MakeState(1, false), 0, 2;
      buffers := new seq<W>[3](_ => initial);
      machine := Initial(initial);
      new;
      assert buffers[..] == [initial, initial, initial];
      InitialInv(initial);
      PackedWord(1, false);
    }

    method StoreWord(k: nat, word: W)
      requires buffers.Length == 3 && writeIndex < 3 && k < |buffers[writeIndex]|
      modifies buffers
      ensures Mem() == WordStored(old(Mem()), k, word)
    {
      buffers[writeIndex] := buffers[writeIndex][k := word];
    }

    method SwapIn() returns (prevState: nat)
      modifies this`state
      ensures prevState == old(state) && Mem() == WriterSwapped(old(Mem()))
    {
      prevState := state;
      state := MakeState(writeIndex, true);
    }

    method TakeOut() returns (prevState: nat)
      modifies this`state
      ensures prevState == old(state) && Mem() == ReaderSwapped(old(Mem()))
    {
      prevState := state;
      state := MakeState(readIndex, false);
    }

    /** `write`: the steps of a write, with the value's words in between. */
    method Write(value: seq<W>)
      requires Valid() && |value| == width
      modifies this`state, this`writeIndex, this`machine, buffers
      ensures Valid() && HasNew() && machine.log == old(machine.log) + [value]
      ensures machine.results == old(machine.results)
    {
      hide Inv;
      WriterInv(machine, Step.BeginWrite(value));
      machine := Next(machine, Step.BeginWrite(value));
      var k := 0;
      while k < width
        invariant 0 <= k <= width && Inv(machine) && machine.mem == Mem() && machine.width == width
        invariant machine.writer == Storing(value, k) && machine.reader.Idle?
        invariant machine.log == old(machine.log) + [value] && machine.results == old(machine.results)
        modifies this`machine, buffers
      {
        WriterSlotIs(machine);
        StoreWord(k, value[k]);
        WriterInv(machine, Step.StoreWord);
        machine := Next(machine, Step.StoreWord);
        k := k + 1;
      }
      PackedWord(writeIndex, true);
      var prevState := SwapIn();
      WriterInv(machine, Step.SwapIn);
      machine := Next(machine, Step.SwapIn);
      writeIndex := BackIndex(prevState);
      WriterInv(machine, Step.SetWriteIndex);
      machine := Next(machine, Step.SetWriteIndex);
    }

    /** Takes the shared slot if it holds a new value: the steps of a read from its load to the
        first word of its slot, or to its end if it comes back empty. */
    method LoadReadBuffer(ghost op: ReadOp) returns (isNew: bool)
      requires Valid()
      modifies this`state, this`readIndex, this`machine
      ensures isNew == old(HasNew()) && !HasNew()
      ensures Inv(machine) && machine.mem == Mem() && machine.width == width && machine.writer.Resting?
      ensures machine.reader == if isNew || op.Read? then Copying(op, isNew, []) else Idle
      ensures machine.log == old(machine.log) && machine.results == old(machine.results)
    {
      hide Inv;
      isNew := IsNewWrite(state);
      ReaderInv(machine, Step.Load(op));
      machine := Next(machine, Step.Load(op));
      if isNew {
        PackedWord(readIndex, false);
        var prevState := TakeOut();
        ReaderInv(machine, Step.TakeOut);
        machine := Next(machine, Step.TakeOut);
        readIndex := BackIndex(prevState);
        ReaderInv(machine, Step.SetReadIndex);
        machine := Next(machine, Step.SetReadIndex);
      }
    }

    /** The rest of a read: the words of the slot are copied, and the read ends. */
    method CopyOut() returns (r: seq<W>)
      requires Inv(machine) && machine.mem == Mem() && machine.width == width && machine.writer.Resting?
      requires machine.reader.Copying? && machine.reader.copied == [] && !HasNew()
      modifies this`machine
      ensures Valid() && machine.log == old(machine.log) && r == Latest()
      ensures |machine.results| == old(|machine.results|) + 1
      ensures var read := machine.results[old(|machine.results|)];
              && machine.results == old(machine.results) + [read]
              && read.value == r && read.write == LastWrite() && read.isNew == old(machine.reader.isNew)
    {
      hide Inv;
      ReaderSlotIs(machine);
      ghost var k := 0;
      r := buffers[readIndex];
      while k < width
        invariant 0 <= k <= width && Inv(machine) && machine.mem == Mem() && machine.width == width
        invariant machine.reader == old(machine.reader).(copied := r[..k])
        invariant machine.(reader := old(machine.reader)) == old(machine)
        modifies this`machine
      {
        ReaderInv(machine, Step.CopyWord);
        machine := Next(machine, Step.CopyWord);
        assert r[..k + 1] == r[..k] + [r[k]];
        k := k + 1;
      }
      assert r[..k] == r;
      ReaderInv(machine, Step.FinishRead);
      machine := Next(machine, Step.FinishRead);
    }

    method Read() returns (r: seq<W>)
      requires Valid()
      modifies this`state, this`readIndex, this`machine
      ensures Valid() && !HasNew() && machine.log == old(machine.log) && r == Latest()
    {
      var _ := LoadReadBuffer(ReadOp.Read);
      r := CopyOut();
    }

    method ReadNew() returns (r: Option<seq<W>>)
      requires Valid()
      modifies this`state, this`readIndex, this`machine
      ensures Valid() && !HasNew() && machine.log == old(machine.log)
      ensures r == if old(LastRead(machine) < LastWrite()) then Some(Latest()) else None
      ensures LastRead(machine) == LastWrite()
    {
      NewExactly(machine);
      var isNew := LoadReadBuffer(ReadOp.ReadNew);
      if isNew {
        var value := CopyOut();
        return Some(value);
      }
      return None;
    }
  }

  lemma WriterSlotIs<W>(c: Config<W>)
    requires Inv(c) && c.writer.Storing?
    ensures |c.mem.buffers| == 3 && c.mem.writeIndex < 3 && |c.mem.buffers[c.mem.writeIndex]| == c.width
  {
  }

  /** A reader that has taken what was new holds the last write, if no other is in progress. */
  lemma ReaderSlotIs<W>(c: Config<W>)
    requires Inv(c) && c.writer.Resting? && !IsNewWrite(c.mem.state) && !c.reader.Taken?
    ensures |c.mem.buffers| == 3 && |c.origin| == 3 && c.mem.readIndex < 3 && |c.log| > 0
    ensures c.origin[c.mem.readIndex] == |c.log| - 1
    ensures c.mem.buffers[c.mem.readIndex] == c.log[|c.log| - 1] && |c.mem.buffers[c.mem.readIndex]| == c.width
  {
  }

  lemma NewExactly<W>(c: Config<W>)
    requires Inv(c) && c.reader.Idle? && c.writer.Resting?
    ensures IsNewWrite(c.mem.state) <==> LastRead(c) < |c.log| - 1
    ensures LastRead(c) <= |c.log| - 1
  {
  }
}
