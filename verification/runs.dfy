/**
 Sequences of disk requests. A request is any one of the disk's five
 operations; running a list of requests threads the disk through them in
 order. The invariant of a disk (cursor inside the disk, statistics totals
 equal to the sums over the categories) holds after any run, each request
 is counted exactly once in its category, and a request that fails changes
 nothing but the statistics.
 */
module DiskRuns {
  import opened Backend
  import opened DiskStats
  import opened Disk

  datatype Op =
    | SeekTo(offset: nat)
    | ReadInto(buf: seq<Byte>)
    | WriteFrom(data: seq<Byte>)
    | DiscardRange(len: nat)
    | WriteZeros(len: nat, mayUnmap: bool)

  /** The statistics category a request is counted in: writing zeros is a
      write. */
  function CategoryOf(op: Op): Category {
    match op
    case SeekTo(_) => SeekOp
    case ReadInto(_) => ReadOp
    case WriteFrom(_) => WriteOp
    case DiscardRange(_) => DiscardOp
    case WriteZeros(_, _) => WriteOp
  }

  /** The number of bytes a request asks to move. */
  function Length(op: Op): nat {
    match op
    case SeekTo(_) => 0
    case ReadInto(buf) => |buf|
    case WriteFrom(data) => |data|
    case DiscardRange(len) => len
    case WriteZeros(len, _) => len
  }

  /** The outcome of one request: whether it succeeded and, for a read,
      the buffer it leaves behind. */
  datatype Outcome = Outcome(ok: bool, data: seq<Byte>)

  /** Carries out one request. A failed request leaves everything but the
      statistics as it was. */
  function Step(d: Disk, op: Op): (r: (Outcome, Disk))
    ensures Counted(d.stats, r.1.stats, CategoryOf(op), r.0.ok, Length(op))
    ensures !r.0.ok ==> r.1 == d.(stats := r.1.stats)
    ensures DiskCapacity(r.1) == DiskCapacity(d) && Writable(r.1.backing) == Writable(d.backing)
    ensures r.1.serial == d.serial && r.1.name == d.name
  {
    match op
    case SeekTo(offset) =>
      var (ok, d') := Seek(d, offset); (Outcome(ok, []), d')
    case ReadInto(buf) =>
      var (ok, out, d') := Read(d, buf); (Outcome(ok, out), d')
    case WriteFrom(data) =>
      var (ok, d') := Write(d, data); (Outcome(ok, []), d')
    case DiscardRange(len) =>
      var (ok, d') := Discard(d, len); (Outcome(ok, []), d')
    case WriteZeros(len, mayUnmap) =>
      var (ok, d') := WriteZero(d, len, mayUnmap); (Outcome(ok, []), d')
  }

  /** Every request keeps the disk's invariant: the cursor stays inside
      the disk, and the totals stay the sums over the categories. */
  lemma StepKeepsValid(d: Disk, op: Op)
    ensures Valid(d) ==> Valid(Step(d, op).1)
  {
    var (o, d') := Step(d, op);
    CountedPreserves(d.stats, d'.stats, CategoryOf(op), o.ok, Length(op));
  }

  /** The number of failures among `outcomes`. */
  function Failures(outcomes: seq<Outcome>): nat {
    if |outcomes| == 0 then 0
    else (if outcomes[0].ok then 0 else 1) + Failures(outcomes[1..])
  }

  /** The number of requests of category `c` in `ops`. */
  function CountOf(ops: seq<Op>, c: Category): nat {
    if |ops| == 0 then 0
    else (if CategoryOf(ops[0]) == c then 1 else 0) + CountOf(ops[1..], c)
  }

  /** Carries out `ops` in order and returns the outcome of each. */
  function Run(d: Disk, ops: seq<Op>): (r: (seq<Outcome>, Disk))
    ensures |r.0| == |ops|
    ensures r.1.stats.total.req == d.stats.total.req + |ops|
    ensures r.1.stats.total.err == d.stats.total.err + Failures(r.0)
    ensures Grown(d.stats, r.1.stats)
    ensures DiskCapacity(r.1) == DiskCapacity(d) && Writable(r.1.backing) == Writable(d.backing)
    ensures r.1.serial == d.serial && r.1.name == d.name
    ensures Valid(d) ==> Valid(r.1)
    decreases |ops|
  {
    if |ops| == 0 then ([], d)
    else
      var (o, d') := Step(d, ops[0]);
      var (rest, d'') := Run(d', ops[1..]);
      assert ([o] + rest)[1..] == rest;
      assert Failures([o] + rest) == (if o.ok then 0 else 1) + Failures(rest);
      GrownTrans(d.stats, d'.stats, d''.stats);
      StepKeepsValid(d, ops[0]);
      ([o] + rest, d'')
  }

  /** Each request of a run is counted once in its own category. */
  lemma {:induction false} RunRequests(d: Disk, ops: seq<Op>, c: Category)
    ensures Requests(Run(d, ops).1.stats, c) == Requests(d.stats, c) + CountOf(ops, c)
    decreases |ops|
  {
    if |ops| != 0 {
      var d' := Step(d, ops[0]).1;
      RunRequests(d', ops[1..], c);
    }
  }

  /** Whether `op` is a request that changes bytes: a write, a discard or
      a zero-write, each on the `Length(op)` bytes from the cursor on. */
  predicate Changes(op: Op) {
    op.WriteFrom? || op.DiscardRange? || op.WriteZeros?
  }

  /** Whether request `op`, issued on `d`, succeeds and changes the bytes
      of a range holding byte `i`. */
  predicate Covers(d: Disk, op: Op, i: nat) {
    Step(d, op).0.ok && Changes(op) && d.pos <= i < d.pos + Length(op)
  }

  /** Whether some request of `ops`, run from `d`, covers byte `i`. */
  predicate Touched(d: Disk, ops: seq<Op>, i: nat)
    decreases |ops|
  {
    |ops| != 0 && (Covers(d, ops[0], i) || Touched(Step(d, ops[0]).1, ops[1..], i))
  }

  /** A request changes no byte before the cursor and none past the range
      it covers; one that changes no bytes at all keeps the store. */
  lemma StepFrame(d: Disk, op: Op)
    ensures var d' := Step(d, op).1;
      if Step(d, op).0.ok && Changes(op) then
        && d.pos + Length(op) <= DiskCapacity(d)
        && Contents(d')[..d.pos] == Contents(d)[..d.pos]
        && Contents(d')[d.pos + Length(op)..] == Contents(d)[d.pos + Length(op)..]
      else d'.backing == d.backing
  {
  }

  /** Two byte strings that agree before `lo` and from `hi` on agree at
      every index outside `lo` to `hi`. */
  lemma OutsideSlices(xs: seq<Byte>, ys: seq<Byte>, lo: nat, hi: nat, i: nat)
    requires lo <= hi <= |xs| == |ys| && i < |xs|
    requires xs[..lo] == ys[..lo] && xs[hi..] == ys[hi..]
    ensures i < lo || hi <= i ==> xs[i] == ys[i]
  {
    if i < lo {
      assert xs[..lo][i] == xs[i] && ys[..lo][i] == ys[i];
    } else if hi <= i {
      assert xs[hi..][i - hi] == xs[i] && ys[hi..][i - hi] == ys[i];
    }
  }

  /** A request that does not cover byte `i` leaves it as it was. */
  lemma StepKeepsUntouched(d: Disk, op: Op, i: nat)
    ensures i < DiskCapacity(d) && !Covers(d, op, i) ==>
              Contents(Step(d, op).1)[i] == Contents(d)[i]
  {
    StepFrame(d, op);
    if i < DiskCapacity(d) && Step(d, op).0.ok && Changes(op) {
      OutsideSlices(Contents(Step(d, op).1), Contents(d), d.pos, d.pos + Length(op), i);
    }
  }

  /** A byte that no request of a run covers keeps its value through the
      run: bytes of a disk change only where something was written,
      discarded or zeroed. */
  lemma {:induction false} RunKeepsUntouched(d: Disk, ops: seq<Op>, i: nat)
    ensures i < DiskCapacity(d) && !Touched(d, ops, i) ==>
              Contents(Run(d, ops).1)[i] == Contents(d)[i]
    decreases |ops|
  {
    if |ops| != 0 && i < DiskCapacity(d) && !Touched(d, ops, i) {
      var d' := Step(d, ops[0]).1;
      StepKeepsUntouched(d, ops[0], i);
      RunKeepsUntouched(d', ops[1..], i);
    }
  }
}
