/**
 The disk's test cases, replayed on the model: each lemma builds the disks
 a test case builds, issues the same requests in the same order, and
 states what the test case expects of the outcomes, the cursor, the
 capacity, the bytes read back and the statistics. Image files are entries
 of the host map; a file the test makes read-only is an entry that may not
 be opened for writing.
 */
module DiskScenarios {
  import opened Specifier
  import opened Backend
  import opened DiskStats
  import opened Disk
  import Serial

  /** The two buffers the tests use. */
  const A: seq<Byte> := [0x12, 0x34, 0x56, 0x78]
  const B: seq<Byte> := [0x00, 0x00, 0x00, 0x00]

  /** Where the round trip of the ramdisk and file tests takes place. */
  const SPOT: nat := 0xffe

  /** Statistics after the round trip: two seeks, one write, one read. */
  const AfterRoundTrip := Stats(Counters(1, 0), Counters(1, 0), Counters(2, 0), Idle,
                                Counters(4, 0), Traffic(4, 4))

  /** ... then a seek past the end, a seek to the last byte and a write
      that does not fit. */
  const AfterOverrun := Stats(Counters(1, 0), Counters(2, 1), Counters(4, 1), Idle,
                              Counters(7, 2), Traffic(4, 4))

  /** ... then a seek to the middle and a read of unwritten bytes. */
  const AfterZeroRead := Stats(Counters(2, 0), Counters(2, 1), Counters(5, 1), Idle,
                               Counters(9, 2), Traffic(8, 4))

  /** `ramdisk:8MiB` names a memory disk of 8 MiB. */
  lemma RamDisk8MiB()
    ensures Parse("ramdisk:8MiB") == RamDisk(8 * MIB)
  {
    ParseRamDisk(8, MiB);
    assert "ramdisk:8MiB" == RAMDISK_PREFIX + FormatSize(8, MiB);
  }

  /** `ramdisk:4KiB` names a memory disk of 4 KiB. */
  lemma RamDisk4KiB()
    ensures Parse("ramdisk:4KiB") == RamDisk(4 * KIB)
  {
    ParseRamDisk(4, KiB);
    assert "ramdisk:4KiB" == RAMDISK_PREFIX + FormatSize(4, KiB);
  }

  /** A fresh `ramdisk:8MiB` disk: 8 MiB of zeros, cursor at the start. */
  lemma RamDiskBuilt(host: Host, serials: Serial.Generator)
    ensures
      var d := Create("disk", "ramdisk:8MiB", true, host, serials).0;
      && DiskCapacity(d) == 8 * MIB && d.pos == 0 && Remaining(d) == DiskCapacity(d)
      && Writable(d.backing) && Contents(d) == Zeros(8 * MIB) && d.stats == Zero
  {
    RamDisk8MiB();
  }

  /** Seek to `SPOT`, write `A`, seek back and read into `B`. */
  function RoundTrip(d: Disk): (seq<bool>, seq<Byte>, Disk) {
    var (ok1, d1) := Seek(d, SPOT);
    var (ok2, d2) := Write(d1, A);
    var (ok3, d3) := Seek(d2, SPOT);
    var (ok4, b, d4) := Read(d3, B);
    ([ok1, ok2, ok3, ok4], b, d4)
  }

  /** Seek past the end, seek to the last byte, write `A` there. */
  function Overrun(d: Disk): (seq<bool>, Disk) {
    var (ok1, d1) := Seek(d, 8 * MIB + 1);
    var (ok2, d2) := Seek(d1, 8 * MIB - 1);
    var (ok3, d3) := Write(d2, A);
    ([ok1, ok2, ok3], d3)
  }

  /** Seek to the middle of the disk and read into `buf`. */
  function ZeroRead(d: Disk, buf: seq<Byte>): (seq<bool>, seq<Byte>, Disk) {
    var (ok1, d1) := Seek(d, 4 * MIB);
    var (ok2, b, d2) := Read(d1, buf);
    ([ok1, ok2], b, d2)
  }

  /** Two successful seeks, a write of four bytes and a read of four
      bytes, starting from zero, give the statistics of the round trip. */
  lemma RoundTripCounted(z: Stats)
    requires z == Zero
    ensures Record(Record(Record(Record(z, SeekOp, true, 0), WriteOp, true, 4), SeekOp, true, 0),
                   ReadOp, true, 4) == AfterRoundTrip
  {
    var s1 := Record(z, SeekOp, true, 0);
    assert s1 == Stats(Idle, Idle, Counters(1, 0), Idle, Counters(1, 0), Traffic(0, 0)) by {
      assert Of(s1, SeekOp) == Counters(1, 0);
    }
    var s2 := Record(s1, WriteOp, true, 4);
    assert s2 == Stats(Idle, Counters(1, 0), Counters(1, 0), Idle, Counters(2, 0), Traffic(0, 4)) by {
      assert Of(s2, WriteOp) == Counters(1, 0);
    }
    var s3 := Record(s2, SeekOp, true, 0);
    assert s3 == Stats(Idle, Counters(1, 0), Counters(2, 0), Idle, Counters(3, 0), Traffic(0, 4)) by {
      assert Of(s3, SeekOp) == Counters(2, 0);
    }
  }

  /** Writing `A` at `SPOT` and reading it back: all four requests
      succeed, the bytes come back, and only the written bytes change. */
  lemma RoundTripSection(d: Disk)
    requires Writable(d.backing) && DiskCapacity(d) == 8 * MIB && d.stats == Zero
    ensures
      var (oks, b, d') := RoundTrip(d);
      && oks == [true, true, true, true] && b == A
      && d'.stats == AfterRoundTrip
      && DiskCapacity(d') == 8 * MIB
      && Contents(d')[SPOT + 4..] == Contents(d)[SPOT + 4..]
  {
    var (ok1, d1) := Seek(d, SPOT);
    assert ok1 && d1.pos == SPOT && d1.backing == d.backing;
    assert d1.stats == Record(d.stats, SeekOp, true, 0);
    var (ok2, d2) := Write(d1, A);
    assert ok2 && d2.pos == SPOT + 4 && Contents(d2)[SPOT..SPOT + 4] == A;
    assert Contents(d2)[SPOT + 4..] == Contents(d)[SPOT + 4..];
    assert d2.stats == Record(d1.stats, WriteOp, true, 4);
    var (ok3, d3) := Seek(d2, SPOT);
    assert ok3 && d3.backing == d2.backing && d3.pos == SPOT;
    assert d3.stats == Record(d2.stats, SeekOp, true, 0);
    var (ok4, b, d4) := Read(d3, B);
    assert ok4 && b == A && d4.backing == d3.backing;
    assert d4.stats == Record(d3.stats, ReadOp, true, 4);
    RoundTripCounted(d.stats);
  }

  /** Requests past the end fail and are counted as errors; the bytes and
      the byte counters stay as they were. */
  lemma OverrunSection(d: Disk)
    requires DiskCapacity(d) == 8 * MIB && d.stats == AfterRoundTrip
    ensures
      var (oks, d') := Overrun(d);
      && oks == [false, true, false]
      && d'.stats == AfterOverrun
      && d'.backing == d.backing
  {
  }

  /** Reading four unwritten bytes in the middle of the disk gives zeros. */
  lemma ZeroReadSection(d: Disk, buf: seq<Byte>)
    requires DiskCapacity(d) == 8 * MIB && d.stats == AfterOverrun
    requires Contents(d)[4 * MIB..4 * MIB + 4] == B && |buf| == 4
    ensures
      var (oks, b, d') := ZeroRead(d, buf);
      && oks == [true, true] && b == B
      && d'.stats == AfterZeroRead
  {
  }

  /** Bytes past `SPOT + 4` that were zero are still zero in the middle
      of the disk. */
  lemma MiddleStillZero(before: seq<Byte>, after: seq<Byte>)
    requires before == Zeros(8 * MIB) && |after| == 8 * MIB
    requires after[SPOT + 4..] == before[SPOT + 4..]
    ensures after[4 * MIB..4 * MIB + 4] == B
  {
    var mid := after[4 * MIB..4 * MIB + 4];
    forall i | 0 <= i < 4
      ensures mid[i] == B[i]
    {
      assert mid[i] == after[SPOT + 4..][4 * MIB + i - SPOT - 4];
    }
  }

  /** The ramdisk test case from start to end. */
  lemma RamDiskTest(host: Host, serials: Serial.Generator)
    ensures
      var d0 := Create("disk", "ramdisk:8MiB", true, host, serials).0;
      var (oks1, b, d1) := RoundTrip(d0);
      var (oks2, d2) := Overrun(d1);
      var (oks3, b', d3) := ZeroRead(d2, b);
      && DiskCapacity(d0) == 8 * MIB && d0.pos == 0 && Remaining(d0) == DiskCapacity(d0)
      && oks1 == [true, true, true, true] && b == A && d1.stats == AfterRoundTrip
      && oks2 == [false, true, false] && d2.stats == AfterOverrun
      && oks3 == [true, true] && b' == B && d3.stats == AfterZeroRead
  {
    var d0 := Create("disk", "ramdisk:8MiB", true, host, serials).0;
    RamDiskBuilt(host, serials);
    RoundTripSection(d0);
    var (oks1, b, d1) := RoundTrip(d0);
    OverrunSection(d1);
    var (oks2, d2) := Overrun(d1);
    MiddleStillZero(Contents(d0), Contents(d1));
    ZeroReadSection(d2, b);
  }

  /** The file test case: an existing writable 8 MiB image behaves like
      the ramdisk for the round trip and for requests past the end. */
  lemma FileTest(host: Host, serials: Serial.Generator)
    requires "my.disk" in host && host["my.disk"].writable && |host["my.disk"].data| == 8 * MIB
    ensures
      var d0 := Create("disk", "my.disk", true, host, serials).0;
      var (oks1, b, d1) := RoundTrip(d0);
      var (oks2, d2) := Overrun(d1);
      && DiskCapacity(d0) == 8 * MIB && d0.pos == 0 && Remaining(d0) == DiskCapacity(d0)
      && oks1 == [true, true, true, true] && b == A
      && oks2 == [false, true, false]
  {
    var d0 := Create("disk", "my.disk", true, host, serials).0;
    assert Parse("my.disk") == Path("my.disk");
    RoundTripSection(d0);
    OverrunSection(RoundTrip(d0).2);
  }

  /** The nothing test case: no capacity, cursor at the start. */
  lemma NothingTest(host: Host, serials: Serial.Generator)
    ensures
      var d := Create("disk", "nothing", true, host, serials).0;
      DiskCapacity(d) == 0 && d.pos == 0 && Remaining(d) == 0
  {
  }

  /** A file that may only be read: with the fallback allowed the disk has
      the file's size, but refuses writes. */
  lemma PermOkayTest(host: Host, serials: Serial.Generator)
    requires "readonly" in host && !host["readonly"].writable && |host["readonly"].data| == 1 * MIB
    ensures
      var d := Create("disk", "readonly", true, host, serials).0;
      DiskCapacity(d) == 1 * MIB && !Writable(d.backing)
  {
    ReadOnlyIsPath();
  }

  /** `readonly` is the path of an image file. */
  lemma ReadOnlyIsPath()
    ensures Parse("readonly") == Path("readonly")
  {
    assert RAMDISK_PREFIX[1] != "readonly"[1];
  }

  /** The same file with the fallback disallowed gives no capacity. */
  lemma PermFailTest(host: Host, serials: Serial.Generator)
    requires "readonly" in host && !host["readonly"].writable && |host["readonly"].data| == 1 * MIB
    ensures DiskCapacity(Create("disk", "readonly", false, host, serials).0) == 0
  {
    ReadOnlyIsPath();
  }

  /** Two disks built one after the other over files of identical size and
      content still get distinct serials. */
  lemma SerialTest(host: Host, serials: Serial.Generator)
    requires "file1" in host && "file2" in host && host["file1"] == host["file2"]
    ensures
      var (disk1, g1) := Create("disk1", "file1", true, host, serials);
      var (disk2, g2) := Create("disk2", "file2", true, host, g1);
      disk1.serial != disk2.serial
  {
  }

  /** Statistics after writing zeros over the whole disk, a seek and a
      discard of the whole disk. */
  const AfterUnmapZero := Stats(Idle, Counters(1, 0), Counters(1, 0), Counters(1, 0),
                                Counters(3, 0), Traffic(0, 4 * KIB))

  /** Writing zeros over a zero-filled 4 KiB disk, seeking back and
      discarding all of it. */
  lemma UnmapZeroSection(d: Disk)
    requires Writable(d.backing) && DiskCapacity(d) == 4 * KIB && d.pos == 0 && d.stats == Zero
    ensures
      var (ok1, d1) := WriteZero(d, 4 * KIB, false);
      var (ok2, d2) := Seek(d1, 0);
      var (ok3, d3) := Discard(d2, 4 * KIB);
      && ok1 && ok2 && ok3
      && d3.stats == AfterUnmapZero
      && Contents(d3) == Zeros(4 * KIB)
  {
    var (ok1, d1) := WriteZero(d, 4 * KIB, false);
    var (ok2, d2) := Seek(d1, 0);
    var (ok3, d3) := Discard(d2, 4 * KIB);
    assert Contents(d3) == Contents(d3)[0..4 * KIB];
  }

  /** The unmap_zero test case: writing zeros counts as a write of that
      many bytes, the discard only as a discard, and both succeed. */
  lemma UnmapZeroTest(host: Host, serials: Serial.Generator)
    ensures
      var d0 := Create("disk", "ramdisk:4KiB", false, host, serials).0;
      var (ok1, d1) := WriteZero(d0, 4 * KIB, false);
      var (ok2, d2) := Seek(d1, 0);
      var (ok3, d3) := Discard(d2, 4 * KIB);
      && ok1 && ok2 && ok3
      && d3.stats == AfterUnmapZero
      && Contents(d3) == Zeros(4 * KIB)
  {
    RamDisk4KiB();
    UnmapZeroSection(Create("disk", "ramdisk:4KiB", false, host, serials).0);
  }
}
