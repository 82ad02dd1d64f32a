/**
 Laws that relate several disk operations: what is written can be read
 back at the same place, bytes outside a write keep their value, writing
 zeros is a write of a zero buffer however it is carried out, discarding
 zeroes the same bytes without moving the cursor, and a fresh memory disk
 reads as zeros everywhere.
 */
module DiskLaws {
  import opened Specifier
  import opened Backend
  import opened DiskStats
  import opened Disk
  import opened DiskRuns
  import Serial

  /** Seeking to `off`, writing `buf`, seeking back to `off` and reading as
      many bytes gives back `buf`; all four requests succeed, and each byte
      counter grows by the length of `buf`. */
  lemma WriteSeekRead(d: Disk, off: nat, buf: seq<Byte>, probe: seq<Byte>)
    requires Writable(d.backing) && off + |buf| <= DiskCapacity(d)
    requires |probe| == |buf|
    ensures
      var (ok1, d1) := Seek(d, off);
      var (ok2, d2) := Write(d1, buf);
      var (ok3, d3) := Seek(d2, off);
      var (ok4, out, d4) := Read(d3, probe);
      && ok1 && ok2 && ok3 && ok4
      && out == buf
      && d4.pos == off + |buf|
      && d4.stats.bytes.written == d.stats.bytes.written + |buf|
      && d4.stats.bytes.read == d.stats.bytes.read + |buf|
      && d4.stats.total.req == d.stats.total.req + 4
      && d4.stats.total.err == d.stats.total.err
  {
  }

  /** A successful write changes only the bytes it covers. */
  lemma WriteKeepsOthers(d: Disk, buf: seq<Byte>, i: nat)
    requires Write(d, buf).0
    requires i < DiskCapacity(d) && (i < d.pos || d.pos + |buf| <= i)
    ensures Contents(Write(d, buf).1)[i] == Contents(d)[i]
  {
    var after := Contents(Write(d, buf).1);
    if i < d.pos {
      assert after[..d.pos][i] == after[i];
    } else {
      var k := d.pos + |buf|;
      assert after[k..][i - k] == after[i];
      assert Contents(d)[k..][i - k] == Contents(d)[i];
    }
  }

  /** Two byte strings that agree before `lo`, between `lo` and `hi`, and
      from `hi` on are equal. */
  lemma SameBySlices(a: seq<Byte>, b: seq<Byte>, lo: nat, hi: nat)
    requires lo <= hi <= |a| == |b|
    requires a[..lo] == b[..lo] && a[lo..hi] == b[lo..hi] && a[hi..] == b[hi..]
    ensures a == b
  {
    assert a == a[..lo] + a[lo..hi] + a[hi..];
    assert b == b[..lo] + b[lo..hi] + b[hi..];
  }

  /** Writing zeros is the same as writing a buffer of zeros: same success,
      same bytes, same cursor and the same statistics, whether or not the
      store may unmap the range. */
  lemma WriteZeroIsWrite(d: Disk, len: nat, mayUnmap: bool)
    ensures WriteZero(d, len, mayUnmap).0 == Write(d, Zeros(len)).0
    ensures Contents(WriteZero(d, len, mayUnmap).1) == Contents(Write(d, Zeros(len)).1)
    ensures WriteZero(d, len, mayUnmap).1.pos == Write(d, Zeros(len)).1.pos
    ensures WriteZero(d, len, mayUnmap).1.stats == Write(d, Zeros(len)).1.stats
  {
    var (ok, z) := WriteZero(d, len, mayUnmap);
    var (ok', w) := Write(d, Zeros(len));
    if ok {
      SameBySlices(Contents(z), Contents(w), d.pos, d.pos + len);
    }
  }

  /** Discarding zeroes the same bytes as writing zeros, but leaves the
      cursor where it was and is counted as a discard, not as a write. */
  lemma DiscardVersusWriteZero(d: Disk, len: nat, mayUnmap: bool)
    ensures Discard(d, len).0 == WriteZero(d, len, mayUnmap).0
    ensures Contents(Discard(d, len).1) == Contents(WriteZero(d, len, mayUnmap).1)
    ensures Discard(d, len).1.pos == d.pos
    ensures Requests(Discard(d, len).1.stats, WriteOp) == Requests(d.stats, WriteOp)
    ensures Errors(Discard(d, len).1.stats, WriteOp) == Errors(d.stats, WriteOp)
    ensures Discard(d, len).1.stats.bytes == d.stats.bytes
  {
    var (ok, x) := Discard(d, len);
    var (ok', z) := WriteZero(d, len, mayUnmap);
    if ok {
      SameBySlices(Contents(x), Contents(z), d.pos, d.pos + len);
    }
  }

  /** On a disk that holds only zeros, any range that fits reads as
      zeros after seeking to its start. */
  lemma ZerosReadZeros(d: Disk, off: nat, buf: seq<Byte>)
    requires Contents(d) == Zeros(DiskCapacity(d)) && off + |buf| <= DiskCapacity(d)
    ensures
      var (ok1, d1) := Seek(d, off);
      var (ok2, out, d2) := Read(d1, buf);
      ok1 && ok2 && out == Zeros(|buf|)
  {
    var (ok1, d1) := Seek(d, off);
    assert ok1 && d1.pos == off && Contents(d1) == Contents(d);
    var (ok2, out, d2) := Read(d1, buf);
    assert ok2 && out == Contents(d)[off..off + |buf|];
  }

  /** A memory disk built from `ramdisk:<n><unit>` holds n units of bytes,
      and any range of it reads as zeros. */
  lemma FreshRamDiskReadsZeros(name: string, n: nat, u: Unit, allowReadOnly: bool, host: Host,
                               serials: Serial.Generator, off: nat, buf: seq<Byte>)
    requires off + |buf| <= n * Factor(u)
    ensures
      var d0 := Create(name, RAMDISK_PREFIX + FormatSize(n, u), allowReadOnly, host, serials).0;
      var (ok1, d1) := Seek(d0, off);
      var (ok2, out, d2) := Read(d1, buf);
      && DiskCapacity(d0) == n * Factor(u)
      && ok1 && ok2 && out == Zeros(|buf|)
  {
    ParseRamDisk(n, u);
    var d0 := Create(name, RAMDISK_PREFIX + FormatSize(n, u), allowReadOnly, host, serials).0;
    assert Contents(d0) == Zeros(n * Factor(u));
    ZerosReadZeros(d0, off, buf);
  }

  /** On a fresh memory disk, a byte that no request of a run writes,
      discards or zeroes still reads as zero after the run. */
  lemma UntouchedStaysZero(name: string, n: nat, u: Unit, allowReadOnly: bool, host: Host,
                           serials: Serial.Generator, ops: seq<Op>, i: nat)
    requires i < n * Factor(u)
    ensures
      var d0 := Create(name, RAMDISK_PREFIX + FormatSize(n, u), allowReadOnly, host, serials).0;
      && DiskCapacity(d0) == n * Factor(u)
      && (!Touched(d0, ops, i) ==> Contents(Run(d0, ops).1)[i] == 0)
  {
    ParseRamDisk(n, u);
    var d0 := Create(name, RAMDISK_PREFIX + FormatSize(n, u), allowReadOnly, host, serials).0;
    assert Contents(d0) == Zeros(n * Factor(u));
    RunKeepsUntouched(d0, ops, i);
  }

  /** The serials of two disks built one after the other, the second from
      the generator the first returned, differ; this holds whatever their
      specifiers and whatever the files behind them contain. */
  lemma SuccessiveSerialsDiffer(name1: string, spec1: string, ro1: bool,
                                name2: string, spec2: string, ro2: bool,
                                host: Host, serials: Serial.Generator)
    ensures
      var (d1, g1) := Create(name1, spec1, ro1, host, serials);
      var (d2, g2) := Create(name2, spec2, ro2, host, g1);
      d1.serial != d2.serial
  {
  }
}
