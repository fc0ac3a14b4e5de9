/** Copying a bounded amount from a reader that may misbehave
    (internal/drivefs/bounded_copy.go:52-123). */
module BoundedCopy {
  import opened Octets

  const BUFFER: nat := 32 * 1024
  const EMPTY_READS: nat := 100
  const MAX_INT64: nat := 0x7fff_ffff_ffff_ffff

  datatype Ending = More | Eof | Failed

  /** One read: the count it reports, its octets, and how it ends. */
  datatype Reading = Reading(count: int, data: bytes, ending: Ending)

  /** One write: how many octets it reports, or an error. */
  datatype Writing = Wrote(count: int) | WriteFails

  /** The k-th read, the k-th write, and whether the context has expired at the
      k-th check. */
  datatype World = World(source: nat -> Reading, sink: nat -> Writing, expired: nat -> bool)

  datatype Outcome = Copied | InvalidInput | Expired | LimitExceeded | ReadError | WriteError | ShortWrite

  /** A read that keeps to the buffer delivers the octets it reports. */
  ghost predicate Faithful(source: nat -> Reading) {
    forall k :: source(k).count >= 0 ==> |source(k).data| == source(k).count
  }

  /** What the first n reads delivered. */
  function Consumed(source: nat -> Reading, n: nat): bytes {
    if n == 0 then [] else Consumed(source, n - 1) + source(n - 1).data
  }

  /** How many of the first n reads delivered anything, which is how many writes
      they led to. */
  function Busy(source: nat -> Reading, n: nat): nat {
    if n == 0 then 0 else Busy(source, n - 1) + if source(n - 1).count > 0 then 1 else 0
  }

  /** The room a read is given: never more than is left, but one to probe. */
  function Room(left: nat): nat {
    if left == 0 then 1 else if left < BUFFER then left else BUFFER
  }

  /** The k-th read kept to its room. */
  ghost predicate Kept(w: World, limit: nat, k: nat) {
    |Consumed(w.source, k)| <= limit && 0 <= w.source(k).count <= Room(limit - |Consumed(w.source, k)|)
  }

  /** What the k-th read delivered was written whole. */
  ghost predicate Written(w: World, k: nat) {
    w.source(k).count > 0 ==> w.sink(Busy(w.source, k)) == Wrote(w.source(k).count)
  }

  /** How many reads in a row, up to the n-th, delivered nothing. */
  function Empty(source: nat -> Reading, n: nat): nat {
    if n == 0 || source(n - 1).count > 0 then 0 else Empty(source, n - 1) + 1
  }

  /** The k-th read was kept and written whole with the context alive. */
  ghost predicate Passed(w: World, limit: nat, k: nat) {
    Kept(w, limit, k) && Written(w, k) && !w.expired(2 * k) && !w.expired(2 * k + 1)
  }

  /** The k-th read passed and gave no reason to end. */
  ghost predicate GoesOn(w: World, limit: nat, k: nat) {
    Passed(w, limit, k) && w.source(k).ending == More && Empty(w.source, k + 1) < EMPTY_READS
  }

  /** The copy went on after each of the first n reads. */
  ghost predicate Uneventful(w: World, limit: nat, n: nat) {
    forall k :: 0 <= k < n ==> GoesOn(w, limit, k)
  }

  /** What a copy claims after n reads: an end of the source, or the one event
      that stopped it. */
  ghost predicate Sound(o: Outcome, written: bytes, w: World, n: nat, limit: nat) {
    && |written| <= limit
    && match o
       case Copied =>
         && n > 0 && w.source(n - 1).ending == Eof && written == Consumed(w.source, n)
         && Passed(w, limit, n - 1) && !w.expired(2 * n)
       case LimitExceeded =>
         n > 0 && |written| == limit && written == Consumed(w.source, n - 1) && |Consumed(w.source, n)| > limit
       case InvalidInput => false
       case Expired => written <= Consumed(w.source, n) && (w.expired(2 * n) || (n > 0 && w.expired(2 * n - 1)))
       case ReadError =>
         && n > 0 && |written| == |Consumed(w.source, n - 1)| + (if Kept(w, limit, n - 1) then w.source(n - 1).count else 0)
         && written <= Consumed(w.source, n)
         && (!Kept(w, limit, n - 1) || w.source(n - 1).ending == Failed || (Empty(w.source, n) == EMPTY_READS && w.source(n - 1).ending == More))
       case WriteError =>
         && n > 0 && written == Consumed(w.source, n - 1)
         && w.source(n - 1).count > 0 && w.sink(Busy(w.source, n - 1)) == WriteFails
       case ShortWrite =>
         && n > 0 && written == Consumed(w.source, n - 1)
         && w.source(n - 1).count > 0 && w.sink(Busy(w.source, n - 1)).Wrote? && !Written(w, n - 1)
  }

  /** One more read. */
  lemma ReadMore(w: World, n: nat)
    ensures Consumed(w.source, n + 1) == Consumed(w.source, n) + w.source(n).data
    ensures Busy(w.source, n + 1) == Busy(w.source, n) + if w.source(n).count > 0 then 1 else 0
    ensures Empty(w.source, n + 1) == if w.source(n).count > 0 then 0 else Empty(w.source, n) + 1
  {
  }

  lemma UneventfulMore(w: World, limit: nat, n: nat)
    ensures Uneventful(w, limit, 0)
    ensures n > 0 && Uneventful(w, limit, n) ==> Uneventful(w, limit, n - 1)
    ensures Uneventful(w, limit, n) && GoesOn(w, limit, n) ==> Uneventful(w, limit, n + 1)
  {
    hide GoesOn;
  }

  lemma NothingYet(w: World)
    ensures Consumed(w.source, 0) == [] && Busy(w.source, 0) == 0 && Empty(w.source, 0) == 0
  {
  }

  /** Copies until the source ends, fails, or exceeds the limit by one octet that
      is read but never written. No read that keeps to its room takes more. */
  method CopyBounded(w: World, limit: nat) returns (o: Outcome, written: bytes, n: nat)
    requires Faithful(w.source)
    ensures Sound(o, written, w, n, limit)
    ensures n > 0 && Kept(w, limit, n - 1) ==> |Consumed(w.source, n)| <= limit + 1
    ensures n > 0 ==> Uneventful(w, limit, n - 1)
  {
    hide Consumed, Busy, Empty, Uneventful;
    var remaining, emptyReads, checks, writes := limit, 0, 0, 0;
    written, n := [], 0;
    NothingYet(w);
    UneventfulMore(w, limit, 0);
    while true
      invariant written == Consumed(w.source, n) && |written| + remaining == limit
      invariant 0 <= remaining
      invariant checks == 2 * n && writes == Busy(w.source, n) && emptyReads == Empty(w.source, n) < EMPTY_READS
      invariant Uneventful(w, limit, n)
      decreases remaining, EMPTY_READS - emptyReads
    {
      UneventfulMore(w, limit, n);
      if w.expired(checks) {
        return Expired, written, n;
      }
      ReadMore(w, n);
      var size := if remaining == 0 then 1 else if remaining < BUFFER then remaining else BUFFER;
      var reading := w.source(n);
      n := n + 1;
      checks := checks + 1;
      if w.expired(checks) {
        return Expired, written, n;
      }
      if reading.count < 0 || reading.count > size {
        return ReadError, written, n;
      }
      checks := checks + 1;
      if remaining == 0 && reading.count > 0 {
        return LimitExceeded, written, n;
      }
      if reading.count > 0 {
        var writing := w.sink(writes);
        writes := writes + 1;
        if writing.WriteFails? {
          return WriteError, written, n;
        }
        if writing.count != reading.count {
          return ShortWrite, written, n;
        }
        written := written + reading.data;
        remaining := remaining - reading.count;
        emptyReads := 0;
      } else {
        assert written + reading.data == written;
        emptyReads := emptyReads + 1;
      }
      if reading.ending == Eof {
        if w.expired(checks) {
          return Expired, written, n;
        }
        return Copied, written, n;
      }
      if reading.ending == Failed || emptyReads >= EMPTY_READS {
        return ReadError, written, n;
      }
    }
  }

  /** The checked entry: a positive limit, a reader, and a context not expired. */
  method BoundedTransactionalCopy(present: bool, w: World, limit: int) returns (o: Outcome, written: bytes, n: nat)
    requires limit <= MAX_INT64 && Faithful(w.source)
    ensures !present || limit <= 0 <==> o == InvalidInput
    ensures o == InvalidInput || w.expired(0) ==> written == [] && n == 0
    ensures present && limit > 0 && w.expired(0) ==> o == Expired
    ensures present && limit > 0 && !w.expired(0) ==> Sound(o, written, Later(w), n, limit)
  {
    if !present || limit <= 0 {
      return InvalidInput, [], 0;
    }
    if w.expired(0) {
      return Expired, [], 0;
    }
    o, written, n := CopyBounded(Later(w), limit);
  }

  /** The world after one check of the context. */
  function Later(w: World): World {
    w.(expired := k requires k >= 0 => w.expired(k + 1))
  }
}
