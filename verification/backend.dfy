/**
 Backing stores. A disk reads and writes through exactly one of
 - Memory: a zero-filled byte buffer allocated at construction,
 - File: an existing flat image file, opened read-write or read-only,
 - Null: no medium at all.
 Files live on a host file system, modelled as a map from path to the
 file's bytes and whether the file may be opened for writing. Opening a
 file yields an abstract outcome instead of performing I/O; the File
 backing keeps the bytes the disk sees.
 */
module Backend {
  import opened Wrappers
  import opened Specifier

  type Byte = bv8

  /** `n` zero bytes. */
  function Zeros(n: nat): (z: seq<Byte>)
    ensures |z| == n
    ensures forall i :: 0 <= i < n ==> z[i] == 0
  {
    seq(n, _ => 0)
  }

  /** `data` with the bytes at `off .. off + |buf|` replaced by `buf`. */
  function Splice(data: seq<Byte>, off: nat, buf: seq<Byte>): (r: seq<Byte>)
    requires off + |buf| <= |data|
    ensures |r| == |data|
    ensures forall i :: 0 <= i < |r| && (i < off || off + |buf| <= i) ==> r[i] == data[i]
    ensures forall i :: 0 <= i < |buf| ==> r[off + i] == buf[i]
    ensures r[off..off + |buf|] == buf
  {
    data[..off] + buf + data[off + |buf|..]
  }

  /** A file on the host: its bytes, and whether its permissions allow
      opening it for writing. Every existing file may be opened for
      reading. */
  datatype HostFile = HostFile(data: seq<Byte>, writable: bool)

  type Host = map<string, HostFile>

  datatype Mode = ReadWrite | ReadOnly

  /** One attempt to open `path` in mode `m`: the file's bytes, or nothing
      when the file is missing or its permissions refuse the mode. */
  function TryOpen(host: Host, path: string, m: Mode): (r: Option<seq<Byte>>)
    ensures r.Some? <==> path in host && (m == ReadOnly || host[path].writable)
    ensures r.Some? ==> r.value == host[path].data
  {
    if path in host && (m == ReadOnly || host[path].writable) then Some(host[path].data)
    else None
  }

  datatype Backing =
    | Memory(buffer: seq<Byte>)
    | File(path: string, image: seq<Byte>, writable: bool)
    | Null

  /** The bytes the backing store holds; its capacity is their number. */
  function Content(b: Backing): seq<Byte> {
    match b
    case Memory(buffer) => buffer
    case File(_, image, _) => image
    case Null => []
  }

  function Capacity(b: Backing): nat {
    |Content(b)|
  }

  predicate Writable(b: Backing) {
    match b
    case Memory(_) => true
    case File(_, _, w) => w
    case Null => false
  }

  /** Only a file can hold holes; a memory buffer is plain bytes. */
  predicate SupportsHoles(b: Backing) {
    b.File?
  }

  /** The same kind of backing store with new bytes of the same number. */
  function WithContent(b: Backing, data: seq<Byte>): (r: Backing)
    requires |data| == Capacity(b)
    ensures Content(r) == data
    ensures Writable(r) == Writable(b)
    ensures SupportsHoles(r) == SupportsHoles(b)
  {
    match b
    case Memory(_) => Memory(data)
    case File(p, _, w) => File(p, data, w)
    case Null => Null
  }

  /** Opens an image file: read-write first; when that is refused and the
      read-only fallback is allowed, read-only; otherwise no medium. */
  function OpenFile(host: Host, path: string, allowReadOnly: bool): (b: Backing)
    ensures path in host && host[path].writable ==>
              b == File(path, host[path].data, true)
    ensures path in host && !host[path].writable && allowReadOnly ==>
              b == File(path, host[path].data, false)
    ensures path !in host || (!host[path].writable && !allowReadOnly) ==> b == Null
  {
    match TryOpen(host, path, ReadWrite)
    case Some(data) => File(path, data, true)
    case None =>
      if !allowReadOnly then Null
      else
        match TryOpen(host, path, ReadOnly)
        case Some(data) => File(path, data, false)
        case None => Null
  }

  /** Whether the image file at `path` can be opened at all: it exists
      and either allows writing or may be opened read-only. */
  predicate Openable(host: Host, path: string, allowReadOnly: bool) {
    path in host && (host[path].writable || allowReadOnly)
  }

  /** Selects and builds the backing store a specifier names. A memory
      disk holds `size` zero bytes; an image file that can be opened
      shows exactly the file's bytes; every other specifier gives a store
      without capacity. Only a memory disk and an image file that allows
      writing can be written. */
  function Build(image: Image, allowReadOnly: bool, host: Host): (b: Backing)
    ensures image.RamDisk? ==> Content(b) == Zeros(image.size)
    ensures image.Path? && Openable(host, image.path, allowReadOnly) ==>
              Content(b) == host[image.path].data
    ensures image.Path? && !Openable(host, image.path, allowReadOnly) ==> Capacity(b) == 0
    ensures image.Nothing? || image.Malformed? ==> Capacity(b) == 0
    ensures Writable(b) <==>
              image.RamDisk? || (image.Path? && image.path in host && host[image.path].writable)
  {
    match image
    case RamDisk(size) => Memory(Zeros(size))
    case Nothing => Null
    case Malformed => Null
    case Path(path) => OpenFile(host, path, allowReadOnly)
  }

  /** Reads `len` bytes at `off`. */
  function ReadAt(b: Backing, off: nat, len: nat): (r: seq<Byte>)
    requires off + len <= Capacity(b)
    ensures |r| == len
    ensures forall i :: 0 <= i < len ==> r[i] == Content(b)[off + i]
  {
    Content(b)[off..off + len]
  }

  /** Writes `buf` at `off`; every other byte stays as it was. */
  function WriteAt(b: Backing, off: nat, buf: seq<Byte>): (r: Backing)
    requires Writable(b) && off + |buf| <= Capacity(b)
    ensures Capacity(r) == Capacity(b) && Writable(r) && SupportsHoles(r) == SupportsHoles(b)
    ensures ReadAt(r, off, |buf|) == buf
    ensures forall i :: 0 <= i < Capacity(b) && (i < off || off + |buf| <= i) ==>
              Content(r)[i] == Content(b)[i]
  {
    WithContent(b, Splice(Content(b), off, buf))
  }

  /** Discards `len` bytes at `off`. On a file this punches a hole, which
      reads back as zeros; a memory buffer cannot hold holes, so the range
      is filled with zeros instead. Either way the range reads as zeros. */
  function DiscardAt(b: Backing, off: nat, len: nat): (r: Backing)
    requires Writable(b) && off + len <= Capacity(b)
    ensures Capacity(r) == Capacity(b) && Writable(r) && SupportsHoles(r) == SupportsHoles(b)
    ensures ReadAt(r, off, len) == Zeros(len)
    ensures forall i :: 0 <= i < Capacity(b) && (i < off || off + len <= i) ==>
              Content(r)[i] == Content(b)[i]
  {
    WithContent(b, Splice(Content(b), off, Zeros(len)))
  }

  /** Writes `len` zero bytes at `off`. When unmapping is allowed and the
      store can hold holes, this is done by discarding the range. */
  function WriteZeroAt(b: Backing, off: nat, len: nat, mayUnmap: bool): (r: Backing)
    requires Writable(b) && off + len <= Capacity(b)
    ensures Content(r) == Content(WriteAt(b, off, Zeros(len)))
    ensures Writable(r) && SupportsHoles(r) == SupportsHoles(b)
  {
    if mayUnmap && SupportsHoles(b) then DiscardAt(b, off, len)
    else WriteAt(b, off, Zeros(len))
  }
}
