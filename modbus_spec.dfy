/** Value-level specification of the holding-register command bridge: what one
    write to the callback block does, and what one job of the single background
    worker does, as functions from one state of the block and its job queue to
    the next. */
module ModbusSpec {
  import opened Registers

  /** Register addresses of the command protocol. */
  const OpAddress := 1
  const StatusAddress := 2
  const ResultAddress := 3

  /** Operation codes a client may write to OP: 0 = ready, 1 = capture. */
  const ValidOps: set<int> := {0, 1}
  const ReadyOp := 0
  const CaptureOp := 1

  /** Values the background routine writes to STATUS. */
  const WorkingStatus := 1
  const CompleteStatus := 0

  /** The text the routine publishes in RESULT after a capture. */
  const ResultText := "OK"

  /** What a write returns to the transport: the block's own write returns
      nothing (Stored), a rejected operation code returns ILLEGAL_VALUE. */
  datatype WriteOutcome = Stored | IllegalValue

  datatype Option<T> = None | Some(value: T)

  /** The block's cells and the opcodes waiting in the single worker's queue,
      oldest first. Cell k holds the register at address k + Base. */
  datatype Snapshot = Snapshot(regs: seq<int>, jobs: seq<int>)

  /** The block as the server creates it: 1000 zero cells, no job queued. */
  function Initial(): (s: Snapshot) {
    Snapshot(seq(BlockSize, _ => 0), [])
  }

  /** What every reachable state satisfies: the block has its full size, OP
      holds a valid operation code and every queued opcode is valid. */
  predicate Consistent(s: Snapshot) {
    |s.regs| == BlockSize && s.regs[OpAddress - Base] in ValidOps &&
    forall j | 0 <= j < |s.jobs| :: s.jobs[j] in ValidOps
  }

  /** A write the transport can deliver: inside the block, and at least one
      value when it starts at OP (the operation code is read from value[0]). */
  predicate Addressable(address: int, values: seq<int>) {
    InBlock(address, |values|) && (address == OpAddress ==> |values| > 0)
  }

  /** handle_operation: validate value[0], queue a job with it, then store. */
  function OperationEffect(s: Snapshot, address: int, values: seq<int>): (r: (WriteOutcome, Snapshot))
    requires |s.regs| == BlockSize && InBlock(address, |values|) && |values| > 0
  {
    var opCode := values[0];
    if address != OpAddress || opCode !in ValidOps then (IllegalValue, s)
    else (Stored, Snapshot(Store(s.regs, address, values), s.jobs + [opCode]))
  }

  /** The overridden setValues: a write at OP goes to handle_operation, any
      other write goes straight to the block. */
  function SetEffect(s: Snapshot, address: int, values: seq<int>): (r: (WriteOutcome, Snapshot))
    requires |s.regs| == BlockSize && Addressable(address, values)
  {
    if address == OpAddress then OperationEffect(s, address, values)
    else (Stored, s.(regs := Store(s.regs, address, values)))
  }

  /** Text that encodes as ASCII without a NUL, so that its terminator is the
      first 0 cell. */
  predicate IsAsciiText(text: string) {
    forall i | 0 <= i < |text| :: 0 < text[i] as int < 128
  }

  /** The ASCII codes of `text` followed by the terminating 0. */
  function AsciiZ(text: string): (cells: seq<int>)
    requires IsAsciiText(text)
  {
    seq(|text|, i requires 0 <= i < |text| => text[i] as int) + [0]
  }

  /** How a client reads a NUL-terminated ASCII string out of registers:
      None if a cell is not ASCII or no terminator comes. */
  function DecodeAsciiZ(cells: seq<int>): (r: Option<string>)
    decreases |cells|
  {
    if cells == [] then None
    else if cells[0] == 0 then Some("")
    else if !(0 < cells[0] < 128) then None
    else match DecodeAsciiZ(cells[1..])
      case None => None
      case Some(rest) => Some([cells[0] as char] + rest)
  }

  /** One step of the background routine: a register write through the
      block's setValues, or the call to the camera capture. */
  datatype Step = Put(address: int, values: seq<int>) | CaptureAll

  /** handle_background_task as the sequence of steps it takes for an opcode:
      nothing for any opcode but 1. */
  function Routine(opcode: int): (script: seq<Step>) {
    if opcode == CaptureOp then
      [ Put(StatusAddress, [WorkingStatus]),
        CaptureAll,
        Put(StatusAddress, [CompleteStatus]),
        Put(ResultAddress, AsciiZ(ResultText)),
        Put(OpAddress, [ReadyOp]) ]
    else []
  }

  predicate ScriptAddressable(script: seq<Step>) {
    forall k | 0 <= k < |script| ::
      script[k].Put? ==> Addressable(script[k].address, script[k].values)
  }

  /** The states a reader of the block can observe while a script runs, one
      after each register write, in order. A failed capture raises, and the
      routine's handler swallows the exception: the rest of the script is
      skipped. */
  function Observed(s: Snapshot, script: seq<Step>, captureOk: bool): (t: seq<Snapshot>)
    requires |s.regs| == BlockSize && ScriptAddressable(script)
    ensures forall k | 0 <= k < |t| :: |t[k].regs| == BlockSize
    decreases |script|
  {
    if script == [] then []
    else
      assert ScriptAddressable(script[1..]) by {
        forall k | 0 <= k < |script[1..]| ensures
          script[1..][k].Put? ==> Addressable(script[1..][k].address, script[1..][k].values)
        {
          assert script[1..][k] == script[k + 1];
        }
      }
      match script[0]
      case CaptureAll =>
        if captureOk then Observed(s, script[1..], captureOk) else []
      case Put(address, values) =>
        var next := SetEffect(s, address, values).1;
        [next] + Observed(next, script[1..], captureOk)
  }

  /** The state after a run: the last one observed, or the start if nothing was written. */
  function Final(s: Snapshot, t: seq<Snapshot>): (r: Snapshot) {
    if t == [] then s else t[|t| - 1]
  }

  /** The worker takes the oldest job off the queue and runs the routine for
      its opcode; `captureOk` says whether the camera capture returns or raises. */
  function JobEffect(s: Snapshot, captureOk: bool): (r: Snapshot)
    requires |s.regs| == BlockSize && s.jobs != []
  {
    var started := s.(jobs := s.jobs[1..]);
    var script := Routine(s.jobs[0]);
    assert ScriptAddressable(script);
    Final(started, Observed(started, script, captureOk))
  }

  /** The worker's pending effort: a capture job counts 3 (it may queue a
      ready job worth 1), any other job 1. */
  function Backlog(jobs: seq<int>): (weight: nat) {
    if jobs == [] then 0
    else (if jobs[0] == CaptureOp then 3 else 1) + Backlog(jobs[1..])
  }
}
