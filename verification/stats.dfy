/**
 Per-disk request statistics. Every disk operation falls into one of four
 categories; each call bumps that category's request counter, on failure
 its error counter too, and on a successful read or write the matching
 byte counter. The totals over all categories are kept alongside.
 */
module DiskStats {

  datatype Category = ReadOp | WriteOp | SeekOp | DiscardOp

  /** The request and error counters of one category, or of all of them. */
  datatype Counters = Counters(req: nat, err: nat)

  /** Bytes moved by successful reads and writes. */
  datatype Traffic = Traffic(read: nat, written: nat)

  /** `read.req` is the source's `num_read_req`, `read.err` its
      `num_read_err`, and so on; `total` holds `num_req` and `num_err`,
      `bytes` holds `num_bytes_read` and `num_bytes_written`. */
  datatype Stats = Stats(
    read: Counters,
    write: Counters,
    seek: Counters,
    discard: Counters,
    total: Counters,
    bytes: Traffic)

  const Idle := Counters(0, 0)

  /** Statistics of a disk that has served no request yet. */
  const Zero := Stats(Idle, Idle, Idle, Idle, Idle, Traffic(0, 0))

  /** The counters of one category. */
  function Of(s: Stats, c: Category): Counters {
    match c
    case ReadOp => s.read
    case WriteOp => s.write
    case SeekOp => s.seek
    case DiscardOp => s.discard
  }

  function Requests(s: Stats, c: Category): nat {
    Of(s, c).req
  }

  function Errors(s: Stats, c: Category): nat {
    Of(s, c).err
  }

  /** The totals are the sums over the categories. */
  predicate Totals(s: Stats) {
    && s.total.req == s.read.req + s.write.req + s.seek.req + s.discard.req
    && s.total.err == s.read.err + s.write.err + s.seek.err + s.discard.err
  }

  /** No category has more errors than requests. */
  predicate Bounded(s: Stats) {
    forall c: Category :: Errors(s, c) <= Requests(s, c)
  }

  predicate Consistent(s: Stats) {
    Totals(s) && Bounded(s)
  }

  /** `after` is `before` plus exactly one request of category `c` that
      succeeded iff `ok` and, when it was a successful read or write,
      moved `bytes` bytes. */
  predicate Counted(before: Stats, after: Stats, c: Category, ok: bool, bytes: nat) {
    && (forall c': Category :: Requests(after, c') == Requests(before, c') + (if c' == c then 1 else 0))
    && (forall c': Category :: Errors(after, c') == Errors(before, c') + (if c' == c && !ok then 1 else 0))
    && after.total.req == before.total.req + 1
    && after.total.err == before.total.err + (if ok then 0 else 1)
    && after.bytes.read == before.bytes.read + (if ok && c == ReadOp then bytes else 0)
    && after.bytes.written == before.bytes.written + (if ok && c == WriteOp then bytes else 0)
  }

  /** Every counter of `after` is at least the one of `before`. */
  predicate Grown(before: Stats, after: Stats) {
    && (forall c: Category :: Requests(before, c) <= Requests(after, c))
    && (forall c: Category :: Errors(before, c) <= Errors(after, c))
    && before.total.req <= after.total.req
    && before.total.err <= after.total.err
    && before.bytes.read <= after.bytes.read
    && before.bytes.written <= after.bytes.written
  }

  /** One more request, and one more error unless it succeeded. */
  function Bump(k: Counters, ok: bool): Counters {
    Counters(k.req + 1, if ok then k.err else k.err + 1)
  }

  /** Counting one request keeps the statistics consistent and lets no
      counter shrink. */
  lemma CountedPreserves(before: Stats, after: Stats, c: Category, ok: bool, bytes: nat)
    requires Counted(before, after, c, ok, bytes)
    ensures Consistent(before) ==> Consistent(after)
    ensures Grown(before, after)
  {
    if Consistent(before) {
      assert Requests(after, ReadOp) == after.read.req;
      assert Requests(after, WriteOp) == after.write.req;
      assert Requests(after, SeekOp) == after.seek.req;
      assert Requests(after, DiscardOp) == after.discard.req;
      assert Errors(after, ReadOp) == after.read.err;
      assert Errors(after, WriteOp) == after.write.err;
      assert Errors(after, SeekOp) == after.seek.err;
      assert Errors(after, DiscardOp) == after.discard.err;
    }
  }

  /** `s` with the counters of category `c` replaced by `k` and the totals
      and byte counters replaced by `total` and `bytes`. */
  function Recount(s: Stats, c: Category, k: Counters, total: Counters, bytes: Traffic): (r: Stats)
    ensures forall c': Category :: Of(r, c') == if c' == c then k else Of(s, c')
    ensures r.total == total && r.bytes == bytes
  {
    match c
    case ReadOp => s.(read := k, total := total, bytes := bytes)
    case WriteOp => s.(write := k, total := total, bytes := bytes)
    case SeekOp => s.(seek := k, total := total, bytes := bytes)
    case DiscardOp => s.(discard := k, total := total, bytes := bytes)
  }

  /** Records one request of category `c`. */
  function Record(s: Stats, c: Category, ok: bool, bytes: nat): (r: Stats)
    ensures Counted(s, r, c, ok, bytes)
    ensures Consistent(s) ==> Consistent(r)
    ensures Grown(s, r)
  {
    var moved := if ok then bytes else 0;
    var traffic :=
      if c == ReadOp then s.bytes.(read := s.bytes.read + moved)
      else if c == WriteOp then s.bytes.(written := s.bytes.written + moved)
      else s.bytes;
    var r := Recount(s, c, Bump(Of(s, c), ok), Bump(s.total, ok), traffic);
    assert Counted(s, r, c, ok, bytes);
    CountedPreserves(s, r, c, ok, bytes);
    assert Grown(s, r);
    assert Consistent(s) ==> Consistent(r);
    r
  }

  lemma ZeroTotals()
    ensures Totals(Zero)
  {
  }

  lemma ZeroBounded()
    ensures Bounded(Zero)
  {
  }

  /** The statistics of a fresh disk are consistent. */
  lemma ZeroConsistent()
    ensures Consistent(Zero)
  {
    ZeroTotals();
    ZeroBounded();
  }

  /** Growth is transitive, so it holds along any sequence of requests. */
  lemma GrownTrans(a: Stats, b: Stats, c: Stats)
    requires Grown(a, b) && Grown(b, c)
    ensures Grown(a, c)
  {
  }
}
