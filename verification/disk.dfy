/**
 The disk controller. A disk owns one backing store, a cursor `pos`, a
 serial and its statistics. Construction never fails: a specifier that
 names no usable medium gives a disk of capacity 0. Every operation
 reports success as a boolean, counts itself in the statistics, and is
 all-or-nothing: a request that does not fit between the cursor and the
 capacity, or that would change a store that is not writable, changes
 nothing but the statistics.
 */
module Disk {
  import opened Specifier
  import opened Backend
  import opened DiskStats
  import Serial

  datatype Disk = Disk(
    name: string,
    backing: Backing,
    pos: nat,
    serial: string,
    stats: Stats)

  /** The invariant every disk keeps: the cursor lies within the disk and
      the statistics totals agree with their categories. */
  predicate Valid(d: Disk) {
    d.pos <= Capacity(d.backing) && Consistent(d.stats)
  }

  function DiskCapacity(d: Disk): nat {
    Capacity(d.backing)
  }

  /** The bytes the disk currently holds. */
  function Contents(d: Disk): seq<Byte> {
    Content(d.backing)
  }

  /** The number of bytes between the cursor and the end of the disk. */
  function Remaining(d: Disk): (n: nat)
    requires d.pos <= DiskCapacity(d)
    ensures d.pos + n == DiskCapacity(d)
  {
    DiskCapacity(d) - d.pos
  }

  /** A request fits exactly when its length is at most the number of
      bytes remaining: a read then succeeds, and a write, discard or
      zero-write succeeds if the medium is writable as well. */
  lemma FitsRemaining(d: Disk, buf: seq<Byte>, len: nat, mayUnmap: bool)
    requires d.pos <= DiskCapacity(d)
    ensures Read(d, buf).0 <==> |buf| <= Remaining(d)
    ensures Write(d, buf).0 <==> Writable(d.backing) && |buf| <= Remaining(d)
    ensures Discard(d, len).0 <==> Writable(d.backing) && len <= Remaining(d)
    ensures WriteZero(d, len, mayUnmap).0 <==> Writable(d.backing) && len <= Remaining(d)
    ensures Seek(d, d.pos + len).0 <==> len <= Remaining(d)
  {
  }

  /** Builds a disk named `name` from an image specifier. The serial is
      taken from `serials`, which is returned advanced past it. */
  function Create(name: string, spec: string, allowReadOnly: bool, host: Host, serials: Serial.Generator)
    : (r: (Disk, Serial.Generator))
    ensures r.0.name == name && r.0.pos == 0 && r.0.stats == Zero
    ensures r.0.serial !in Serial.Issued(serials)
    ensures Serial.Issued(r.1) == Serial.Issued(serials) + {r.0.serial}
    ensures Parse(spec).RamDisk? ==> Contents(r.0) == Zeros(Parse(spec).size)
    ensures Parse(spec).Nothing? || Parse(spec).Malformed? ==> DiskCapacity(r.0) == 0
    ensures Parse(spec).Path? && Openable(host, spec, allowReadOnly) ==> Contents(r.0) == host[spec].data
    ensures Parse(spec).Path? && !Openable(host, spec, allowReadOnly) ==> DiskCapacity(r.0) == 0
    ensures Writable(r.0.backing) <==>
              Parse(spec).RamDisk? || (Parse(spec).Path? && spec in host && host[spec].writable)
  {
    var image := Parse(spec);
    var next := Serial.Next(serials);
    var d := Disk(name, Build(image, allowReadOnly, host), 0, next.0, Zero);
    (d, next.1)
  }

  /** A freshly built disk has its cursor at the start, inside the disk. */
  lemma CreateInBounds(name: string, spec: string, allowReadOnly: bool, host: Host, serials: Serial.Generator)
    ensures var d := Create(name, spec, allowReadOnly, host, serials).0;
            d.pos <= DiskCapacity(d)
  {
  }

  /** A freshly built disk starts from consistent statistics. */
  lemma CreateConsistent(name: string, spec: string, allowReadOnly: bool, host: Host, serials: Serial.Generator)
    ensures Consistent(Create(name, spec, allowReadOnly, host, serials).0.stats)
  {
    ZeroConsistent();
  }

  /** A freshly built disk keeps the invariant. */
  lemma CreateValid(name: string, spec: string, allowReadOnly: bool, host: Host, serials: Serial.Generator)
    ensures Valid(Create(name, spec, allowReadOnly, host, serials).0)
  {
    CreateInBounds(name, spec, allowReadOnly, host, serials);
    CreateConsistent(name, spec, allowReadOnly, host, serials);
  }

  /** Moves the cursor to `offset`; it may be placed anywhere from the
      start up to and including the end of the disk. */
  function Seek(d: Disk, offset: nat): (r: (bool, Disk))
    ensures r.0 <==> offset <= DiskCapacity(d)
    ensures r.1.pos == (if r.0 then offset else d.pos)
    ensures r.1.backing == d.backing && r.1.serial == d.serial && r.1.name == d.name
    ensures Counted(d.stats, r.1.stats, SeekOp, r.0, 0)
  {
    if offset <= DiskCapacity(d) then
      (true, d.(pos := offset, stats := Record(d.stats, SeekOp, true, 0)))
    else
      (false, d.(stats := Record(d.stats, SeekOp, false, 0)))
  }

  /** Reads `|buf|` bytes at the cursor into `buf` and moves the cursor
      past them. A read that does not fit leaves `buf` and the cursor as
      they were. */
  function Read(d: Disk, buf: seq<Byte>): (r: (bool, seq<Byte>, Disk))
    ensures r.0 <==> d.pos + |buf| <= DiskCapacity(d)
    ensures |r.1| == |buf|
    ensures r.0 ==> r.1 == Contents(d)[d.pos..d.pos + |buf|]
    ensures !r.0 ==> r.1 == buf
    ensures r.2.pos == (if r.0 then d.pos + |buf| else d.pos)
    ensures r.2.backing == d.backing && r.2.serial == d.serial && r.2.name == d.name
    ensures Counted(d.stats, r.2.stats, ReadOp, r.0, |buf|)
  {
    if d.pos + |buf| <= DiskCapacity(d) then
      (true, ReadAt(d.backing, d.pos, |buf|),
       d.(pos := d.pos + |buf|, stats := Record(d.stats, ReadOp, true, |buf|)))
    else
      (false, buf, d.(stats := Record(d.stats, ReadOp, false, |buf|)))
  }

  /** Writes `buf` at the cursor and moves the cursor past it. */
  function Write(d: Disk, buf: seq<Byte>): (r: (bool, Disk))
    ensures r.0 <==> Writable(d.backing) && d.pos + |buf| <= DiskCapacity(d)
    ensures DiskCapacity(r.1) == DiskCapacity(d) && Writable(r.1.backing) == Writable(d.backing)
    ensures r.0 ==> Contents(r.1)[d.pos..d.pos + |buf|] == buf
    ensures r.0 ==> Contents(r.1)[..d.pos] == Contents(d)[..d.pos]
    ensures r.0 ==> Contents(r.1)[d.pos + |buf|..] == Contents(d)[d.pos + |buf|..]
    ensures !r.0 ==> r.1.backing == d.backing
    ensures r.1.pos == (if r.0 then d.pos + |buf| else d.pos)
    ensures r.1.serial == d.serial && r.1.name == d.name
    ensures Counted(d.stats, r.1.stats, WriteOp, r.0, |buf|)
  {
    if Writable(d.backing) && d.pos + |buf| <= DiskCapacity(d) then
      (true, d.(backing := WriteAt(d.backing, d.pos, buf), pos := d.pos + |buf|,
                stats := Record(d.stats, WriteOp, true, |buf|)))
    else
      (false, d.(stats := Record(d.stats, WriteOp, false, |buf|)))
  }

  /** Discards `len` bytes at the cursor: they read as zeros afterwards.
      The cursor does not move. */
  function Discard(d: Disk, len: nat): (r: (bool, Disk))
    ensures r.0 <==> Writable(d.backing) && d.pos + len <= DiskCapacity(d)
    ensures DiskCapacity(r.1) == DiskCapacity(d) && Writable(r.1.backing) == Writable(d.backing)
    ensures r.0 ==> Contents(r.1)[d.pos..d.pos + len] == Zeros(len)
    ensures r.0 ==> Contents(r.1)[..d.pos] == Contents(d)[..d.pos]
    ensures r.0 ==> Contents(r.1)[d.pos + len..] == Contents(d)[d.pos + len..]
    ensures !r.0 ==> r.1.backing == d.backing
    ensures r.1.pos == d.pos
    ensures r.1.serial == d.serial && r.1.name == d.name
    ensures Counted(d.stats, r.1.stats, DiscardOp, r.0, len)
  {
    if Writable(d.backing) && d.pos + len <= DiskCapacity(d) then
      (true, d.(backing := DiscardAt(d.backing, d.pos, len),
                stats := Record(d.stats, DiscardOp, true, len)))
    else
      (false, d.(stats := Record(d.stats, DiscardOp, false, len)))
  }

  /** Writes `len` zero bytes at the cursor and moves the cursor past them.
      It counts as a write, also when it is carried out by discarding. */
  function WriteZero(d: Disk, len: nat, mayUnmap: bool): (r: (bool, Disk))
    ensures r.0 <==> Writable(d.backing) && d.pos + len <= DiskCapacity(d)
    ensures DiskCapacity(r.1) == DiskCapacity(d) && Writable(r.1.backing) == Writable(d.backing)
    ensures r.0 ==> Contents(r.1)[d.pos..d.pos + len] == Zeros(len)
    ensures r.0 ==> Contents(r.1)[..d.pos] == Contents(d)[..d.pos]
    ensures r.0 ==> Contents(r.1)[d.pos + len..] == Contents(d)[d.pos + len..]
    ensures !r.0 ==> r.1.backing == d.backing
    ensures r.1.pos == (if r.0 then d.pos + len else d.pos)
    ensures r.1.serial == d.serial && r.1.name == d.name
    ensures Counted(d.stats, r.1.stats, WriteOp, r.0, len)
  {
    if Writable(d.backing) && d.pos + len <= DiskCapacity(d) then
      var b := WriteZeroAt(d.backing, d.pos, len, mayUnmap);
      assert Content(b) == Content(WriteAt(d.backing, d.pos, Zeros(len)));
      (true, d.(backing := b, pos := d.pos + len, stats := Record(d.stats, WriteOp, true, len)))
    else
      (false, d.(stats := Record(d.stats, WriteOp, false, len)))
  }
}
