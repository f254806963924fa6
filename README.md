# Modbus command bridge of the Maxima OCR capture server

The server exposes a block of 1000 Modbus holding registers. It treats
writes to one of them as commands that start a camera capture on a
single background worker. The registers are:

- OP, at address 1: the operation code. 0 means ready and 1 means capture.
- STATUS, at address 2: 1 while a capture runs, 0 once it completes.
- RESULT, from address 3 on: NUL-terminated ASCII text, "OK" after a capture.

This project models that bridge and proves what it does. It also models
two camera helpers: the capture file name formatter and the scan for
cameras that open.

Modules:

- `Registers` is the plain sequential block that the callback block
  extends. The register at address `a` lives in cell `a - 1`. It has a
  write (`Store`) and a read (`Load`).
- `ModbusSpec` is the value-level specification.
  - `SetEffect` and `OperationEffect` give what one write does to the
    cells and to the worker's FIFO job queue.
  - `Routine` is the background task as the sequence of steps it takes.
  - `Observed` lists the states a poller can see, one after each register
    write of the routine.
  - `JobEffect` is one step of the worker: pop the oldest job and run its
    routine. Whether the camera capture returns or raises is a parameter.
- `ModbusSpecProperties` holds the lemmas: the outcome of each kind of
  write, the effects and write order of each kind of job, the invariant
  every step keeps, and that every job lowers the worker's backlog.
- `ModbusServer.CallbackDataBlock` is the block itself.
  - Its fields are an `array<int>` of 1000 cells, updated in place, and
    the job queue as a `seq<int>`.
  - Its methods are `SetValues`, `HandleOperation`, `GetValues` and
    `RunNextJob`. Each is proved equal to the specification function for
    the same step.
  - `RunNextJob` makes its register writes through `SetValues`, as the
    source does. So its final OP = 0 write queues one more job, a ready job.
- `UsbCams` covers `capture_filename`, the file names of one capture
  session, and `get_cams`. The driver's "did the capture open" answer
  becomes a function parameter of `get_cams`.

The code has no busy rejection, no acknowledgement of a repeated opcode
and no error status, and it writes STATUS = 0 before RESULT:

- No busy rejection: a capture written while STATUS = 1 is still queued.
- No acknowledgement of a repeated opcode: each valid write queues a job.
- No error status: a failed capture leaves STATUS at 1, and OP and RESULT
  as they were.
- The success path writes STATUS = 0 before RESULT. A poller can therefore
  see "complete" while RESULT still holds the previous contents
  (`CaptureSuccessTrace`).

## Model

| member | source | states |
|---|---|---|
| Registers.Store | modbus_server.py:53 | the block's write changes exactly the cells from the write's address for as many values as given, to those values; every other cell keeps its value |
| Registers.Load | modbus_server.py:64-68 | the block's read returns `count` values, the k-th being the cell of address `address + k` |
| Registers.LoadAfterStore | modbus_server.py:61-66 | reading back the registers just written returns the values written |
| Registers.LoadAfterDisjointStore | modbus_server.py:53-66 | a write leaves every register outside its range reading as before |
| ModbusSpecProperties.WriteElsewherePassesThrough | modbus_server.py:50-53 | a write not starting at OP is exactly the block's own write: it returns the plain outcome, queues no job, stores its values, and every other cell (OP, STATUS, RESULT and the rest) keeps its value |
| ModbusSpecProperties.IllegalOpcodeRejected | modbus_server.py:55-59 | a write at OP whose first value is not 0 or 1 returns ILLEGAL_VALUE; no register and no queue entry changes |
| ModbusSpecProperties.ValidOpcodeQueued | modbus_server.py:55-61 | a write at OP whose first value is 0 or 1 queues exactly one job with that opcode and stores all its values from OP on, leaving later cells alone; no condition on STATUS or on the queue |
| ModbusSpecProperties.TrailingValuesUnchecked | modbus_server.py:56-61 | only value[0] is validated; in a write of several registers from OP, the second value lands unchecked in STATUS |
| ModbusSpecProperties.RepeatedCaptureQueuedTwice | modbus_server.py:55-61 | a capture written while STATUS = 1, then written again, is accepted both times and queues two capture jobs (no busy rejection, no de-duplication) |
| ModbusSpecProperties.ResultCells | modbus_server.py:81-84 | the result list is the ASCII codes of "OK" followed by the 0 terminator: 79, 75, 0 |
| ModbusSpecProperties.DecodeAsciiZRoundTrip | modbus_server.py:81-84 | decoding the registers up to the first 0 gives back any ASCII text encoded with its terminator, whatever follows it |
| ModbusSpecProperties.CaptureObserved | modbus_server.py:74-87 | a capture job makes four register writes in order (STATUS 1, STATUS 0, RESULT, OP 0) when the capture returns, and only the first when it raises |
| ModbusSpecProperties.CaptureSuccessTrace | modbus_server.py:74-85 | write by write: STATUS = 1 before the capture; then STATUS = 0 while RESULT still holds its old cells; then RESULT = 79, 75, 0; then OP = 0 with one ready job queued; nothing else changes |
| ModbusSpecProperties.CaptureSuccessEffect | modbus_server.py:74-85 | after a successful capture job, OP = 0, STATUS = 0, cells of addresses 3 to 5 are 79, 75, 0, all later cells are unchanged, and exactly one ready job is queued behind the waiting jobs |
| ModbusSpecProperties.CaptureSuccessResultReadable | modbus_server.py:81-84 | after a successful capture job, a client decoding the registers from RESULT on reads "OK" |
| ModbusSpecProperties.CaptureFailureEffect | modbus_server.py:74-87 | a capture job whose capture raises leaves STATUS = 1 and every other register and the queue as they were; nothing propagates |
| ModbusSpecProperties.ReadyJobChangesNothing | modbus_server.py:70-74 | a job for any opcode but 1 changes no register and queues nothing |
| ModbusSpecProperties.InitialConsistent | modbus_server.py:93 | the initial block (1000 zero cells, empty queue) satisfies the invariant: OP holds a valid opcode and every queued opcode is valid |
| ModbusSpecProperties.SetPreservesConsistent | modbus_server.py:45-61 | every write keeps OP in {0, 1} and every queued opcode in {0, 1} |
| ModbusSpecProperties.JobPreservesConsistent | modbus_server.py:70-87 | every job, whether the capture returns or raises, keeps the same invariant |
| ModbusSpecProperties.JobReducesBacklog | modbus_server.py:74-85 | every job strictly lowers the backlog (capture job 3, other job 1), so without new client writes the single worker drains its queue |
| ModbusServer.CallbackDataBlock.constructor | modbus_server.py:93 | the block starts with 1000 cells at 0 and no job queued, and satisfies the invariant |
| ModbusServer.CallbackDataBlock.StoreValues | modbus_server.py:53 | the in-place loop leaves the array equal to the block's write applied to its old contents |
| ModbusServer.CallbackDataBlock.SetValues | modbus_server.py:45-53 | outcome, cells and queue after the call are those of the specification's write, and the invariant is kept |
| ModbusServer.CallbackDataBlock.HandleOperation | modbus_server.py:55-61 | outcome, cells and queue are those of the specification's operation handling: reject an invalid value[0], otherwise queue it and then store |
| ModbusServer.CallbackDataBlock.GetValues | modbus_server.py:64-68 | returns exactly the stored cells for `[address, address + count)`; changes nothing |
| ModbusServer.CallbackDataBlock.RunNextJob | modbus_server.py:70-87 | reports whether a job was waiting; if so, cells and queue afterwards are those of one worker step on the old state, otherwise nothing changes |
| UsbCams.Decimal | ocr/usb_cams.py:81 | the decimal text of a number is non-empty, all digits, and starts with 0 only for 0 |
| UsbCams.ParseDecimalOfDecimal | ocr/usb_cams.py:81 | reading the decimal text of n gives back n |
| UsbCams.DecimalOfFourDigitYear | ocr/usb_cams.py:81 | a year from 1000 to 9999 prints as four digits |
| UsbCams.TimestampLayout | ocr/usb_cams.py:81 | for years 1000 to 9999 the `%Y%m%d-%H%M%S` prefix is 15 characters, digits with a dash at position 8, and each field reads back from its zero-padded place |
| UsbCams.CaptureFilename | ocr/usb_cams.py:80-81 | every capture file name ends with ".mp4" |
| UsbCams.FilenameNamesCamera | ocr/usb_cams.py:80-81 | the camera index reads back from the digits between the timestamp's dash and ".mp4" |
| UsbCams.DistinctCamerasDistinctFilenames | ocr/usb_cams.py:80-81 | with the same start time, different camera indices give different file names |
| UsbCams.SessionFilenamesDistinct | ocr/usb_cams.py:43-49 | in one capture, where every camera's file is named after the one shared start time, a strictly increasing list of cameras gives no two files the same name |
| UsbCams.GetCams | ocr/usb_cams.py:12-23 | returns a strictly increasing list of indices in 0..9 that holds exactly the indices whose capture opened; each index is opened once and released right after, whether it opened or not |

## Left out

- Network transport and server setup are not modelled. This covers the TCP server, framer, device identity, the device and server contexts, and the unused discrete-input, coil and input-register blocks. They are network I/O and library plumbing.
- The datastore library's own bounds check and address offset are not modelled. Every write and read must lie inside the block (`InBlock`). Addresses are those the block itself receives.
- A write at OP must carry at least one value. The code reads value[0] before anything else, so an empty write would raise an indexing error; Modbus write requests always carry at least one register.
- Register values are unbounded integers. The block stores whatever values it is given, so 16-bit register width is not enforced.
- Threading is not modelled. The single worker is a FIFO queue that is stepped explicitly (`RunNextJob`), and no interleavings are modelled. In particular, a job cannot run between the submit and the store inside one write, and a protocol write cannot happen in the middle of a job. Executor shutdown is not modelled.
- The camera capture in `capture_all_cams` is not modelled. This covers video capture, writers, display, key polling, folder creation and the frame loop, all hardware and file I/O. For the bridge it is only a success or failure parameter. Reading the configuration happens inside the same `try` block, so its failure is the same failure outcome.
- Determinism of `capture_filename` has no lemma of its own: every Dafny function is deterministic, so `CaptureFilename` gives the same name for the same start time and camera by construction.
- UsbCams.Timestamp: `%Y` is modelled as the plain decimal year. Whether years below 1000 are zero-padded depends on the platform's strftime, so the fixed 15-character layout is proved only for years 1000 to 9999.
- UsbCams.CaptureFilename: the camera index is modelled as a natural number. That is what `get_cams` produces; the formatter would also accept any other printable object.
- DateTime does not check the number of days in each month. Only field ranges matter to the format.
- Configuration loading (`config.py`, `ocr-server/config.py`) and the random-number HTTP endpoint in `ocr-server/ocr_server.py` are not part of this model. Logging and console output are not modelled either.
