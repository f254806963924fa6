/** The callback holding-register block: 1000 cells updated in place, and
    the queue of the single background worker that runs the command routine.
    Every method is proved against the value-level specification in ModbusSpec. */
module ModbusServer {
  import opened Registers
  import opened ModbusSpec
  import opened ModbusSpecProperties

  class CallbackDataBlock {
    /** cells[k] holds the register at address k + Base. */
    const cells: array<int>
    /** Opcodes submitted to the worker and not yet started, oldest first. */
    var jobs: seq<int>

    ghost function State(): Snapshot
      reads this, cells
    {
      Snapshot(cells[..], jobs)
    }

    ghost predicate Valid()
      reads this, cells
    {
      cells.Length == BlockSize && Consistent(State())
    }

    /** The block the server creates: 1000 cells at 0 from address 1, no job queued. */
    constructor ()
      ensures Valid() && fresh(cells)
      ensures State() == Initial()
    {
      cells := new int[BlockSize](_ => 0);
      jobs := [];
      new;
      assert cells[..] == seq(BlockSize, _ => 0);
      InitialConsistent();
    }

    /** The block's own write: overwrite the cells from `address` on. */
    method StoreValues(address: int, values: seq<int>)
      requires cells.Length == BlockSize && InBlock(address, |values|)
      modifies cells
      ensures cells[..] == Store(old(cells[..]), address, values)
    {
      var start := address - Base;
      for k := 0 to |values|
        invariant forall i | 0 <= i < cells.Length ::
          cells[i] == if start <= i < start + k then values[i - start] else old(cells[i])
      {
        cells[start + k] := values[k];
      }
      assert cells[..] == Store(old(cells[..]), address, values);
    }

    /** The overridden write: OP writes are validated by HandleOperation,
        every other write is stored as given. */
    method SetValues(address: int, values: seq<int>) returns (outcome: WriteOutcome)
      requires Valid() && Addressable(address, values)
      modifies this, cells
      ensures Valid()
      ensures (outcome, State()) == SetEffect(old(State()), address, values)
    {
      if address == OpAddress {
        outcome := HandleOperation(address, values);
      } else {
        SetPreservesConsistent(State(), address, values);
        StoreValues(address, values);
        outcome := Stored;
      }
    }

    /** Validate value[0]; submit a job with it, then store the values. */
    method HandleOperation(address: int, values: seq<int>) returns (outcome: WriteOutcome)
      requires Valid() && InBlock(address, |values|) && |values| > 0
      modifies this, cells
      ensures Valid()
      ensures (outcome, State()) == OperationEffect(old(State()), address, values)
    {
      var opCode := values[0];
      if address != OpAddress || opCode !in ValidOps {
        return IllegalValue;
      }
      SetPreservesConsistent(State(), address, values);
      jobs := jobs + [opCode];
      StoreValues(address, values);
      outcome := Stored;
    }

    /** The block's read: the `count` registers from `address` on; nothing
        changes. The source's default count of 1 is a caller passing 1. */
    method GetValues(address: int, count: int) returns (values: seq<int>)
      requires Valid() && InBlock(address, count)
      ensures values == Load(cells[..], address, count)
    {
      values := cells[address - Base .. address - Base + count];
    }

    /** The worker's next step: take the oldest job, if any, and run the
        routine for its opcode. For a capture job it writes STATUS = 1, calls
        the capture, and only if the capture returns writes STATUS = 0, the
        result text with its terminator, and OP = 0, the last through
        SetValues so that it queues a ready job. */
    method RunNextJob(captureOk: bool) returns (ran: bool)
      requires Valid()
      modifies this, cells
      ensures Valid()
      ensures ran == (old(jobs) != [])
      ensures ran ==> State() == JobEffect(old(State()), captureOk)
      ensures !ran ==> State() == old(State())
    {
      if jobs == [] {
        return false;
      }
      ghost var before := State();
      var opcode := jobs[0];
      jobs := jobs[1..];
      ghost var started := State();
      assert started == before.(jobs := before.jobs[1..]);
      assert Valid() by {
        forall j | 0 <= j < |jobs| ensures jobs[j] in ValidOps {
          assert jobs[j] == before.jobs[j + 1];
        }
      }
      if opcode == CaptureOp {
        CaptureObserved(started);
        ResultCells();
        var _ := SetValues(StatusAddress, [WorkingStatus]);
        if captureOk {
          var _ := SetValues(StatusAddress, [CompleteStatus]);
          var result := AsciiZ(ResultText);
          var _ := SetValues(ResultAddress, result);
          var _ := SetValues(OpAddress, [ReadyOp]);
        }
      }
      ran := true;
    }
  }
}
