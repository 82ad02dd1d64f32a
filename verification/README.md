# vcml block disk — a Dafny model

This project models the block disk of vcml, `block::disk`, as its test
cases in `test/core/disk.cpp` exercise it. A disk is built from a name, an
image specifier and a flag that allows a read-only fallback:

- `ramdisk:<N>KiB` (or `MiB`, `GiB`, or no unit) gives a zero-filled memory
  disk of N units;
- `nothing` gives a disk without capacity;
- any other string is the path of an existing flat image file. The file is
  opened read-write. If that is refused and the fallback is allowed, it is
  opened read-only. Otherwise the disk has capacity 0.

A disk owns one backing store (`Memory`, `File` or `Null`), a cursor `pos`,
a serial and request statistics. Its requests are `seek`, `read`, `write`,
`discard` and write-zeros (`wzero`).

- Each request succeeds or fails as a whole and is counted in its category.
- A failed request also counts an error.
- A successful read or write adds its length to the byte counters.

The modules follow the structure of the component:

| file | module | what it holds |
|---|---|---|
| `wrappers.dfy` | `Wrappers` | `Option` |
| `decimal.dfy` | `Decimal` | decimal digits: rendering and reading numbers |
| `specifier.dfy` | `Specifier` | the image specifier grammar |
| `backend.dfy` | `Backend` | backing stores, the host file system, opening files |
| `stats.dfy` | `DiskStats` | request statistics and their bookkeeping |
| `serial.dfy` | `Serial` | the serial generator |
| `disk.dfy` | `Disk` | the disk: construction, queries and the five requests |
| `runs.dfy` | `DiskRuns` | sequences of requests and the invariant they keep |
| `laws.dfy` | `DiskLaws` | laws that relate several requests |
| `scenarios.dfy` | `DiskScenarios` | each test case of `test/core/disk.cpp`, replayed |

Pure transitions replace the disk's mutation. Every request is a function
from a disk to `(success, new disk)`; a read also returns the buffer. The
following are parameters rather than effects:

- The host file system is a map from path to the file's bytes plus a flag
  saying whether its permissions allow opening it for writing.
- Opening a file is a lookup in that map.
- The serial generator is a counter. Construction takes it and returns it
  advanced.

## Model

| member | source | states |
|---|---|---|
| `Specifier.Parse` | test/core/disk.cpp:25 | `nothing` is recognised exactly; a string is a file path iff it is neither `nothing` nor starts with `ramdisk:`; a path keeps the whole string; a `ramdisk:` string is a memory disk iff the size text after the prefix is accepted, and then its size is that text's byte count; otherwise it is malformed |
| `Specifier.ParseUnit` | test/core/disk.cpp:25 | a recognised suffix is exactly the suffix of the unit returned; an unrecognised one equals no unit's suffix |
| `Specifier.ParseSize` | test/core/disk.cpp:25 | a size text is accepted iff it starts with at least one digit and the text after its leading digits is exactly one unit suffix; it then stands for the digits' value times that unit's factor |
| `Specifier.ParseSizeOfDigits` | test/core/disk.cpp:175 | any non-empty run of digits followed by a unit suffix is read as the digits' value times the unit's factor |
| `Specifier.ParseFormatSize` | test/core/disk.cpp:25 | reading back a size written as digits plus unit gives the number times the unit's factor |
| `Specifier.ParseSizeRejects` | test/core/disk.cpp:25 | a size without leading digits, or with text after the digits that is not a unit, is refused |
| `Specifier.ParseRamDisk` | test/core/disk.cpp:175 | `ramdisk:` followed by a formatted size is a memory disk of exactly that many bytes |
| `Decimal.ValueOfRender` | test/core/disk.cpp:25 | reading a rendered number's digits gives the number back |
| `Decimal.RenderInjective` | test/core/disk.cpp:165 | distinct numbers render as distinct strings |
| `Backend.OpenFile` | test/core/disk.cpp:136-150 | a writable file is opened writable with its bytes; a read-only file is opened read-only iff the fallback is allowed; otherwise there is no medium |
| `Backend.Build` | test/core/disk.cpp:25-28 | a ramdisk holds exactly `size` zero bytes; a path to a file that exists and is writable, or read-only with the fallback allowed, shows exactly the file's bytes; any other path, `nothing` and a malformed size have capacity 0; the store is writable iff it is a ramdisk or a path to a writable file |
| `Backend.WriteAt` | test/core/disk.cpp:34 | a write keeps capacity and kind, puts the buffer at the offset and changes no other byte |
| `Backend.DiscardAt` | test/core/disk.cpp:178 | a discarded range reads as zeros; no other byte changes |
| `Backend.WriteZeroAt` | test/core/disk.cpp:176 | writing zeros, by unmapping or not, leaves the same bytes as writing a zero buffer |
| `DiskStats.Record` | test/core/disk.cpp:40-49 | recording a request bumps only its category's request counter, its error counter iff it failed, the totals alike, and the byte counter of a successful read or write by its length; consistency is kept and no counter shrinks |
| `DiskStats.CountedPreserves` | test/core/disk.cpp:45-49 | once one request is counted, `num_req` stays the sum of the request counters and `num_err` the sum of the error counters |
| `DiskStats.ZeroConsistent` | test/core/disk.cpp:25 | the statistics of a fresh disk are consistent |
| `Serial.Next` | test/core/disk.cpp:159-165 | the serial handed out was never handed out before, and afterwards it is remembered as issued |
| `Serial.LaterSerialsDiffer` | test/core/disk.cpp:165 | serials drawn from a generator at two different points differ |
| `Disk.FitsRemaining` | test/core/disk.cpp:51-53 | with the cursor inside the disk, a read succeeds iff its length is at most the remaining bytes; a write, a discard and a zero-write succeed iff the medium is writable and the length is at most the remaining bytes; a seek forward by `k` succeeds iff `k` is at most the remaining bytes |
| `Disk.Create` | test/core/disk.cpp:25-28 | a new disk has the given name, cursor 0 and zero statistics; its serial is fresh; a ramdisk holds that many zero bytes; `nothing` or a malformed size has capacity 0; a path to a file that can be opened shows the file's bytes, any other path has capacity 0; the disk is writable iff it is a ramdisk or a path to a writable file |
| `Disk.CreateInBounds` | test/core/disk.cpp:27 | the cursor of a new disk lies within the disk |
| `Disk.CreateConsistent` | test/core/disk.cpp:25 | a new disk starts from consistent statistics |
| `Disk.CreateValid` | test/core/disk.cpp:25-28 | a new disk satisfies the disk invariant |
| `Disk.Seek` | test/core/disk.cpp:51-52 | a seek succeeds iff the offset is at most the capacity; only then does the cursor move there; it counts as one seek and does not touch the medium |
| `Disk.Read` | test/core/disk.cpp:36-41 | a read succeeds iff it fits between cursor and capacity; it returns exactly the disk's bytes there and advances the cursor; a failed read leaves buffer and cursor alone; it counts as one read of that length |
| `Disk.Write` | test/core/disk.cpp:53-61 | a write succeeds iff the medium is writable and it fits; it puts the buffer at the cursor, keeps every other byte and advances the cursor; a failed write changes no byte; it counts as one write |
| `Disk.Discard` | test/core/disk.cpp:178-186 | a discard succeeds iff the medium is writable and it fits; the range reads as zeros, other bytes stay, the cursor stays; it counts only as a discard |
| `Disk.WriteZero` | test/core/disk.cpp:176-184 | writing zeros succeeds iff a write would; the range reads as zeros, other bytes stay, the cursor advances; it counts as a write of that length |
| `DiskRuns.Step` | test/core/disk.cpp:40-49 | any request is counted once in its category, with its length; a failed request changes nothing but the statistics |
| `DiskRuns.StepKeepsValid` | test/core/disk.cpp:45-49 | every request keeps the cursor within the disk and the totals equal to the sums over the categories |
| `DiskRuns.Run` | test/core/disk.cpp:57-64 | after any sequence of requests, `num_req` grew by the number of requests and `num_err` by the number of failures; no counter shrank; capacity, serial and name are unchanged; the invariant is kept |
| `DiskRuns.StepFrame` | test/core/disk.cpp:66-71 | a successful write, discard or zero-write changes no byte before the cursor and none past its range; any other request keeps the store |
| `DiskRuns.StepKeepsUntouched` | test/core/disk.cpp:66-71 | a request that does not cover a byte of the disk leaves that byte as it was |
| `DiskRuns.RunKeepsUntouched` | test/core/disk.cpp:66-71 | a byte of the disk that no successful write, discard or zero-write of a run covers has the same value after the run |
| `DiskRuns.RunRequests` | test/core/disk.cpp:42-44 | each category's request counter grows by exactly the number of requests of that category |
| `DiskLaws.WriteSeekRead` | test/core/disk.cpp:33-41 | seek, write, seek back, read returns what was written; all four succeed; each byte counter grows by the length, `num_req` by 4, `num_err` not at all |
| `DiskLaws.WriteKeepsOthers` | test/core/disk.cpp:66-71 | a successful write leaves every byte outside its range unchanged |
| `DiskLaws.WriteZeroIsWrite` | test/core/disk.cpp:176 | writing zeros is the same as writing a zero buffer in outcome, bytes, cursor and statistics, whether or not unmapping is allowed |
| `DiskLaws.DiscardVersusWriteZero` | test/core/disk.cpp:176-186 | a discard zeroes the same bytes as writing zeros but leaves the cursor, the write request and error counters and the byte counters alone |
| `DiskLaws.FreshRamDiskReadsZeros` | test/core/disk.cpp:66-71 | any in-range read of a fresh memory disk succeeds and gives zeros |
| `DiskLaws.ZerosReadZeros` | test/core/disk.cpp:66-71 | on a disk holding only zeros, seeking to an offset and reading a range that fits both succeed and give zeros |
| `DiskLaws.UntouchedStaysZero` | test/core/disk.cpp:66-71 | on a fresh memory disk, a byte that no request of a run covers still reads as zero after the run |
| `DiskLaws.SuccessiveSerialsDiffer` | test/core/disk.cpp:159-165 | two disks built one after the other get distinct serials, whatever their specifiers and files |
| `DiskScenarios.RamDisk8MiB` | test/core/disk.cpp:25-26 | `ramdisk:8MiB` names a memory disk of 8 MiB |
| `DiskScenarios.RamDisk4KiB` | test/core/disk.cpp:175 | `ramdisk:4KiB` names a memory disk of 4 KiB |
| `DiskScenarios.ReadOnlyIsPath` | test/core/disk.cpp:136 | `readonly` is taken as a file path |
| `DiskScenarios.RamDiskBuilt` | test/core/disk.cpp:25-28 | a fresh `ramdisk:8MiB` disk has capacity 8 MiB, cursor 0, remaining equal to capacity, and holds zeros |
| `DiskScenarios.RoundTripCounted` | test/core/disk.cpp:40-49 | two seeks, a four-byte write and a four-byte read, all successful, from zero statistics give exactly the counters the test expects |
| `DiskScenarios.RoundTripSection` | test/core/disk.cpp:30-49 | the round trip at 0xffe succeeds and returns the bytes written, with the counters the test expects |
| `DiskScenarios.OverrunSection` | test/core/disk.cpp:51-64 | seeking past the end fails, seeking to the last byte succeeds, the write there fails, with the counters the test expects |
| `DiskScenarios.MiddleStillZero` | test/core/disk.cpp:66-71 | bytes past the round trip's range that were zero are still zero in the middle of the disk |
| `DiskScenarios.ZeroReadSection` | test/core/disk.cpp:66-82 | reading four bytes in the middle gives zeros, with the counters the test expects |
| `DiskScenarios.RamDiskTest` | test/core/disk.cpp:21-83 | the ramdisk test case holds from start to end |
| `DiskScenarios.FileTest` | test/core/disk.cpp:97-114 | a writable 8 MiB image behaves like the ramdisk for the round trip and for requests past the end |
| `DiskScenarios.NothingTest` | test/core/disk.cpp:123-126 | `nothing` has capacity 0, cursor 0 and remaining 0 |
| `DiskScenarios.PermOkayTest` | test/core/disk.cpp:136-137 | a read-only 1 MiB file with the fallback gives capacity 1 MiB and a medium that is not writable |
| `DiskScenarios.PermFailTest` | test/core/disk.cpp:149-150 | the same file without the fallback gives capacity 0 |
| `DiskScenarios.SerialTest` | test/core/disk.cpp:159-165 | two disks over files of identical content get distinct serials |
| `DiskScenarios.UnmapZeroSection` | test/core/disk.cpp:176-188 | on a zero-filled 4 KiB disk, write-zeros, seek and discard succeed and leave exactly the counters the test expects |
| `DiskScenarios.UnmapZeroTest` | test/core/disk.cpp:175-188 | the unmap_zero test case holds from construction to end |

## Left out

- Behaviour that test/core/disk.cpp does not pin down follows the choices listed below.
- Integer widths: cursor, capacity and counters are unbounded naturals. The 64-bit wrap-around of the implementation is not modelled, because no test reaches it.
- Logging (`log_term`, log levels): it does not affect any outcome.
- File-system effects: creating, chmod-ing, removing, flushing and closing files. The host file system is a map, and opening is a lookup in it.
- I/O failures of a file that opened successfully are not modelled. An in-range request on an open file always succeeds.
- The module framework that names a disk: the name is kept as a plain string.
- The serial's format: the process-wide generator is a threaded counter, and a serial is that counter in decimal. Only uniqueness is specified, and the model proves it.
- A `ramdisk:` specifier whose size does not parse gives a disk without a medium. This is a modelling choice, because the behaviour is not specified.
- Unit suffixes are case-sensitive: `KiB`, `MiB` and `GiB` only.
- A size is decimal digits only. There is no hexadecimal form, no sign and no white space.
- Leading zeros in a size are accepted.
- Where a test omits the third constructor argument (test/core/disk.cpp:25, 97, 123, 159-160), the scenarios pass `true`: the read-only fallback is allowed by default.
- Writing zeros moves the cursor past the zeroed range, as a write does. The unmap_zero test seeks back to 0 before discarding (test/core/disk.cpp:177), which points this way.
- Discard on a memory disk fills the range with zeros. On a file it punches a hole, which reads as zeros. Discard does not move the cursor. The tests do not fix either choice.
- Concurrency: a disk is used from one thread. The model is sequential.
- `include/vcml/debugging/loader.h`, `src/vcml/ui/sdl.h` and `src/vcml/serial/backend_tcp.h` are unrelated peripherals and are not modelled.
