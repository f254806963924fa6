/** What the bridge promises, proved about the value-level specification:
    the outcome of each kind of write, the effect and write order of each
    kind of job, the invariant every step keeps, and that the worker drains. */
module ModbusSpecProperties {
  import opened Registers
  import opened ModbusSpec

  // ---------------------------------------------------------------- writes

  /** A write that does not start at OP is stored as given by the block; no
      job is queued and OP keeps its value. */
  lemma WriteElsewherePassesThrough(s: Snapshot, address: int, values: seq<int>)
    requires |s.regs| == BlockSize && Addressable(address, values) && address != OpAddress
    ensures SetEffect(s, address, values).0 == Stored
    ensures SetEffect(s, address, values).1.jobs == s.jobs
    ensures Load(SetEffect(s, address, values).1.regs, address, |values|) == values
    ensures SetEffect(s, address, values).1.regs[OpAddress - Base] == s.regs[OpAddress - Base]
    ensures SetEffect(s, address, values) == (Stored, Snapshot(Store(s.regs, address, values), s.jobs))
  {
  }

  /** A write at OP whose first value is not 0 or 1 returns ILLEGAL_VALUE and
      changes neither a register nor the queue. */
  lemma IllegalOpcodeRejected(s: Snapshot, values: seq<int>)
    requires |s.regs| == BlockSize && Addressable(OpAddress, values)
    requires values[0] !in ValidOps
    ensures SetEffect(s, OpAddress, values) == (IllegalValue, s)
  {
  }

  /** A write at OP whose first value is 0 or 1 queues exactly one job with
      that opcode and stores all the values from OP on, whatever STATUS and
      the queue hold. */
  lemma ValidOpcodeQueued(s: Snapshot, values: seq<int>)
    requires |s.regs| == BlockSize && Addressable(OpAddress, values)
    requires values[0] in ValidOps
    ensures SetEffect(s, OpAddress, values).0 == Stored
    ensures SetEffect(s, OpAddress, values).1.jobs == s.jobs + [values[0]]
    ensures Load(SetEffect(s, OpAddress, values).1.regs, OpAddress, |values|) == values
    ensures forall k | |values| <= k < BlockSize ::
      SetEffect(s, OpAddress, values).1.regs[k] == s.regs[k]
  {
  }

  /** Only value[0] is validated: in a write of several registers from OP,
      the second value lands unchecked in STATUS. */
  lemma TrailingValuesUnchecked(s: Snapshot, values: seq<int>)
    requires |s.regs| == BlockSize && Addressable(OpAddress, values)
    requires values[0] in ValidOps && |values| >= 2
    ensures SetEffect(s, OpAddress, values).0 == Stored
    ensures SetEffect(s, OpAddress, values).1.regs[StatusAddress - Base] == values[1]
  {
  }

  /** There is no busy rejection and no acknowledgement of a repeated
      opcode: a capture written while STATUS says working, and written again
      right after, is accepted twice and queues two capture jobs. */
  lemma RepeatedCaptureQueuedTwice(s: Snapshot)
    requires |s.regs| == BlockSize && s.regs[StatusAddress - Base] == WorkingStatus
    ensures var first := SetEffect(s, OpAddress, [CaptureOp]);
            var second := SetEffect(first.1, OpAddress, [CaptureOp]);
            first.0 == Stored && second.0 == Stored &&
            second.1.jobs == s.jobs + [CaptureOp, CaptureOp] &&
            second.1.regs[StatusAddress - Base] == WorkingStatus
  {
  }

  // ------------------------------------------------------------------ jobs

  /** The published result is the ASCII codes of "OK" and a terminator. */
  lemma ResultCells()
    ensures IsAsciiText(ResultText)
    ensures AsciiZ(ResultText) == [79, 75, 0]
  {
  }

  /** A client reading a NUL-terminated ASCII text written into registers gets
      that text back, whatever follows the terminator. */
  lemma {:induction false} DecodeAsciiZRoundTrip(text: string, rest: seq<int>)
    requires IsAsciiText(text)
    ensures DecodeAsciiZ(AsciiZ(text) + rest) == Some(text)
  {
    if text == [] {
      assert AsciiZ(text) + rest == [0] + rest;
    } else {
      assert IsAsciiText(text[1..]) by {
        forall i | 0 <= i < |text[1..]| ensures 0 < text[1..][i] as int < 128 {
          assert text[1..][i] == text[i + 1];
        }
      }
      DecodeAsciiZRoundTrip(text[1..], rest);
      assert AsciiZ(text) + rest == [text[0] as int] + (AsciiZ(text[1..]) + rest);
      assert [text[0] as int as char] + text[1..] == text;
    }
  }

  /** Observing a script that starts with a register write. */
  lemma ObservedPut(s: Snapshot, address: int, values: seq<int>, rest: seq<Step>, captureOk: bool)
    requires |s.regs| == BlockSize && Addressable(address, values) && ScriptAddressable(rest)
    ensures ScriptAddressable([Put(address, values)] + rest)
    ensures Observed(s, [Put(address, values)] + rest, captureOk) ==
      [SetEffect(s, address, values).1] + Observed(SetEffect(s, address, values).1, rest, captureOk)
  {
    var script := [Put(address, values)] + rest;
    assert script[0] == Put(address, values) && script[1..] == rest;
    forall k | 1 <= k < |script| ensures script[k] == rest[k - 1] {
    }
  }

  /** Observing a script that starts with the capture: a failed capture ends it. */
  lemma ObservedCapture(s: Snapshot, rest: seq<Step>, captureOk: bool)
    requires |s.regs| == BlockSize && ScriptAddressable(rest)
    ensures ScriptAddressable([CaptureAll] + rest)
    ensures Observed(s, [CaptureAll] + rest, captureOk) ==
      if captureOk then Observed(s, rest, captureOk) else []
  {
    var script := [CaptureAll] + rest;
    assert script[0] == CaptureAll && script[1..] == rest;
    forall k | 1 <= k < |script| ensures script[k] == rest[k - 1] {
    }
  }

  /** The steps of a capture job, with the result cells spelled out. */
  lemma CaptureRoutine()
    ensures Routine(CaptureOp) ==
      [ Put(StatusAddress, [WorkingStatus]), CaptureAll, Put(StatusAddress, [CompleteStatus]),
        Put(ResultAddress, [79, 75, 0]), Put(OpAddress, [ReadyOp]) ]
  {
    ResultCells();
  }

  /** List-shape helper that lets CaptureObserved prove within its resource budget. */
  lemma ConsShape<X>(a: X, b: X, c: X, d: X, e: X)
    ensures [a, b, c, d, e] == [a] + ([b] + ([c] + ([d] + ([e] + []))))
    ensures [a, b, c, d] == [a] + ([b] + ([c] + ([d] + [])))
  {
  }

  /** The four register writes of a capture job, and that a failed capture
      leaves only the first of them. */
  lemma CaptureObserved(started: Snapshot)
    requires |started.regs| == BlockSize
    ensures var s1 := SetEffect(started, StatusAddress, [WorkingStatus]).1;
            var s2 := SetEffect(s1, StatusAddress, [CompleteStatus]).1;
            var s3 := SetEffect(s2, ResultAddress, [79, 75, 0]).1;
            var s4 := SetEffect(s3, OpAddress, [ReadyOp]).1;
            Observed(started, Routine(CaptureOp), true) == [s1, s2, s3, s4] &&
            Observed(started, Routine(CaptureOp), false) == [s1]
  {
    var p0, p1 := Put(StatusAddress, [WorkingStatus]), Put(StatusAddress, [CompleteStatus]);
    var p2, p3 := Put(ResultAddress, [79, 75, 0]), Put(OpAddress, [ReadyOp]);
    CaptureRoutine();
    ConsShape(p0, CaptureAll, p1, p2, p3);
    var empty: seq<Step> := [];
    var tail3 := [p3] + empty;
    var tail2 := [p2] + tail3;
    var tail1 := [p1] + tail2;
    var tail0 := [CaptureAll] + tail1;
    assert Routine(CaptureOp) == [p0] + tail0;
    var s1 := SetEffect(started, StatusAddress, [WorkingStatus]).1;
    var s2 := SetEffect(s1, StatusAddress, [CompleteStatus]).1;
    var s3 := SetEffect(s2, ResultAddress, [79, 75, 0]).1;
    var s4 := SetEffect(s3, OpAddress, [ReadyOp]).1;
    ObservedPut(s3, OpAddress, [ReadyOp], empty, true);
    ObservedPut(s2, ResultAddress, [79, 75, 0], tail3, true);
    ObservedPut(s1, StatusAddress, [CompleteStatus], tail2, true);
    ObservedCapture(s1, tail1, true);
    ObservedCapture(s1, tail1, false);
    ObservedPut(started, StatusAddress, [WorkingStatus], tail0, true);
    ObservedPut(started, StatusAddress, [WorkingStatus], tail0, false);
    ConsShape(s1, s2, s3, s4, s4);
  }

  /** What a poller can see while a capture job that succeeds runs, write by
      write: STATUS goes to 1 first (before the capture); then STATUS goes to 0
      while RESULT still holds what it held before the job; then RESULT
      becomes "OK" and its terminator; last OP goes to 0, which queues
      exactly one ready job. Nothing else changes. */
  lemma CaptureSuccessTrace(s: Snapshot)
    requires |s.regs| == BlockSize && s.jobs != [] && s.jobs[0] == CaptureOp
    ensures var t := Observed(s.(jobs := s.jobs[1..]), Routine(CaptureOp), true);
            |t| == 4 &&
            t[0] == Snapshot(s.regs[StatusAddress - Base := WorkingStatus], s.jobs[1..]) &&
            t[1] == Snapshot(s.regs[StatusAddress - Base := CompleteStatus], s.jobs[1..]) &&
            Load(t[1].regs, ResultAddress, 3) == Load(s.regs, ResultAddress, 3) &&
            t[2] == Snapshot(t[1].regs[2 := 79][3 := 75][4 := 0], s.jobs[1..]) &&
            t[3] == Snapshot(t[2].regs[OpAddress - Base := ReadyOp], s.jobs[1..] + [ReadyOp])
  {
    var started := s.(jobs := s.jobs[1..]);
    CaptureObserved(started);
    var t := Observed(started, Routine(CaptureOp), true);
    assert t[0].regs == s.regs[StatusAddress - Base := WorkingStatus];
    assert t[1].regs == s.regs[StatusAddress - Base := CompleteStatus];
    assert t[2].regs == t[1].regs[2 := 79][3 := 75][4 := 0];
    assert t[3].regs == t[2].regs[OpAddress - Base := ReadyOp];
  }

  /** A capture job that succeeds ends with OP = 0, STATUS = 0 and RESULT =
      "OK" with its terminator, every other register unchanged, and one ready
      job queued behind the jobs that were waiting. */
  lemma CaptureSuccessEffect(s: Snapshot)
    requires |s.regs| == BlockSize && s.jobs != [] && s.jobs[0] == CaptureOp
    ensures var r := JobEffect(s, true);
            r.jobs == s.jobs[1..] + [ReadyOp] &&
            |r.regs| == BlockSize &&
            r.regs[OpAddress - Base] == ReadyOp &&
            r.regs[StatusAddress - Base] == CompleteStatus &&
            Load(r.regs, ResultAddress, 3) == [79, 75, 0] &&
            forall k | 5 <= k < BlockSize :: r.regs[k] == s.regs[k]
  {
    CaptureSuccessTrace(s);
  }

  /** After a capture job that succeeds, a client reading the registers from
      RESULT on decodes the text "OK". */
  lemma CaptureSuccessResultReadable(s: Snapshot)
    requires |s.regs| == BlockSize && s.jobs != [] && s.jobs[0] == CaptureOp
    ensures DecodeAsciiZ(Load(JobEffect(s, true).regs, ResultAddress, BlockSize - 2)) == Some(ResultText)
  {
    CaptureSuccessEffect(s);
    var cells := Load(JobEffect(s, true).regs, ResultAddress, BlockSize - 2);
    ResultCells();
    assert cells == AsciiZ(ResultText) + cells[3..];
    DecodeAsciiZRoundTrip(ResultText, cells[3..]);
  }

  /** A capture job whose capture raises leaves STATUS at 1, OP, RESULT and
      every other register as they were, queues nothing, and the exception
      goes no further. */
  lemma CaptureFailureEffect(s: Snapshot)
    requires |s.regs| == BlockSize && s.jobs != [] && s.jobs[0] == CaptureOp
    ensures JobEffect(s, false) == Snapshot(s.regs[StatusAddress - Base := WorkingStatus], s.jobs[1..])
  {
    CaptureObserved(s.(jobs := s.jobs[1..]));
  }

  /** A job for any opcode but 1 (a ready job) changes no register and queues nothing. */
  lemma ReadyJobChangesNothing(s: Snapshot, captureOk: bool)
    requires |s.regs| == BlockSize && s.jobs != [] && s.jobs[0] != CaptureOp
    ensures JobEffect(s, captureOk) == s.(jobs := s.jobs[1..])
  {
  }

  // ------------------------------------------------------------ invariants

  lemma InitialConsistent()
    ensures Consistent(Initial())
  {
  }

  /** Every write keeps OP a valid operation code and every queued opcode valid. */
  lemma SetPreservesConsistent(s: Snapshot, address: int, values: seq<int>)
    requires Consistent(s) && Addressable(address, values)
    ensures Consistent(SetEffect(s, address, values).1)
  {
    var r := SetEffect(s, address, values).1;
    assert r.regs[OpAddress - Base] in ValidOps;
    forall j | 0 <= j < |r.jobs| ensures r.jobs[j] in ValidOps {
      if j < |s.jobs| {
        assert r.jobs[j] == s.jobs[j];
      }
    }
  }

  /** Every job, whatever the capture does, keeps the invariant. */
  lemma JobPreservesConsistent(s: Snapshot, captureOk: bool)
    requires Consistent(s) && s.jobs != []
    ensures Consistent(JobEffect(s, captureOk))
  {
    var started := s.(jobs := s.jobs[1..]);
    assert Consistent(started) by {
      forall j | 0 <= j < |started.jobs| ensures started.jobs[j] in ValidOps {
        assert started.jobs[j] == s.jobs[j + 1];
      }
    }
    if s.jobs[0] == CaptureOp {
      CaptureObserved(started);
      var s1 := SetEffect(started, StatusAddress, [WorkingStatus]).1;
      SetPreservesConsistent(started, StatusAddress, [WorkingStatus]);
      if captureOk {
        ResultCells();
        var s2 := SetEffect(s1, StatusAddress, [CompleteStatus]).1;
        SetPreservesConsistent(s1, StatusAddress, [CompleteStatus]);
        var s3 := SetEffect(s2, ResultAddress, [79, 75, 0]).1;
        SetPreservesConsistent(s2, ResultAddress, [79, 75, 0]);
        SetPreservesConsistent(s3, OpAddress, [ReadyOp]);
      }
    }
  }

  // ------------------------------------------------------------- progress

  lemma {:induction false} BacklogAppend(a: seq<int>, b: seq<int>)
    ensures Backlog(a + b) == Backlog(a) + Backlog(b)
  {
    if a == [] {
      assert a + b == b;
    } else {
      assert (a + b)[0] == a[0] && (a + b)[1..] == a[1..] + b;
      BacklogAppend(a[1..], b);
    }
  }

  /** Every job strictly lowers the backlog: the one job a capture queues is
      a ready job, which queues nothing, so without new client writes the
      worker drains its queue. */
  lemma JobReducesBacklog(s: Snapshot, captureOk: bool)
    requires |s.regs| == BlockSize && s.jobs != []
    ensures Backlog(JobEffect(s, captureOk).jobs) < Backlog(s.jobs)
  {
    if s.jobs[0] == CaptureOp {
      if captureOk {
        CaptureSuccessEffect(s);
        BacklogAppend(s.jobs[1..], [ReadyOp]);
      } else {
        CaptureFailureEffect(s);
      }
    }
  }
}
