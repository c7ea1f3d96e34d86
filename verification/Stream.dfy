/** A byte stream read in pieces: `io.Reader` with arbitrary read sizes, `io.ReadAtLeast` and `io.ReadFull`. */
module Stream {
  import opened Bytes

  datatype Error =
    | EOF
    | UnexpectedEOF
    | Broken            // a read deadline, a reset: any other terminal error
    | EmptyData
    | Corrupt
    | IncompletePacket
    | TooLargePacket
    | Panic

  /** How `io.ReadAtLeast` reports a stream that ended after `n` bytes, short of what was asked. */
  function ShortRead(n: nat, end: Error): Error {
    if end == EOF && n > 0 then UnexpectedEOF else end
  }

  /** What one read returns: what the schedule offers, the buffer holds and the stream still has. */
  function ReadSize(offer: nat, room: nat, left: nat): (k: nat)
    ensures k <= room && k <= left && (room > 0 && left > 0 ==> k > 0)
  {
    var k := if 1 + offer < room then 1 + offer else room;
    if k < left then k else left
  }

  /** Where `io.ReadAtLeast` stops: it has `n` bytes in a buffer of `cap`, wants `min`, and `left` are to come. */
  function Gathered(size: nat -> nat, turn: nat, n: nat, min: nat, cap: nat, left: nat): (total: nat)
    requires n <= cap && min <= cap
    ensures n <= total <= cap && total <= n + left && (total >= min || total == n + left)
    decreases left
  {
    if n >= min || left == 0 then n
    else
      var k := ReadSize(size(turn), cap - n, left);
      Gathered(size, turn + 1, n + k, min, cap, left - k)
  }

  lemma GatherStep(size: nat -> nat, turn: nat, n: nat, min: nat, cap: nat, left: nat)
    requires n < min <= cap
    ensures var k := ReadSize(size(turn), cap - n, left);
            Gathered(size, turn, n, min, cap, left) == Gathered(size, turn + 1, n + k, min, cap, left - k)
  {
  }

  lemma GatherDone(size: nat -> nat, turn: nat, n: nat, min: nat, cap: nat, left: nat)
    requires n <= cap && min <= cap && (n >= min || left == 0)
    ensures Gathered(size, turn, n, min, cap, left) == n
  {
  }

  /** The bytes still to come and the error that ends them. The sizes of the individual reads, and
      whether the last bytes come together with the final error, are chosen freely by the schedule. */
  class Reader {
    var rest: Bytes
    var turn: nat
    const end: Error
    const size: nat -> nat
    const eager: nat -> bool

    constructor (rest: Bytes, end: Error, size: nat -> nat, eager: nat -> bool)
      ensures this.rest == rest && this.end == end && turn == 0 && this.size == size && this.eager == eager
    {
      this.rest, this.turn, this.end, this.size, this.eager := rest, 0, end, size, eager;
    }

    /** One `Read` into a buffer of `n` bytes: at least one byte while any is left. */
    method Read(n: nat) returns (b: Bytes, err: Option<Error>)
      requires n > 0
      modifies this
      ensures |b| == ReadSize(size(old(turn)), n, |old(rest)|) && turn == old(turn) + 1
      ensures b == old(rest)[..|b|] && rest == old(rest)[|b|..]
      ensures err.Some? <==> rest == [] && (old(rest) == [] || eager(old(turn)))
      ensures err.Some? ==> err.value == end
    {
      var k := ReadSize(size(turn), n, |rest|);
      b := rest[..k];
      err := if rest == [] || (k == |rest| && eager(turn)) then Some(end) else None;
      rest := rest[k..];
      turn := turn + 1;
    }

    /** One `Read` into `buf[pos:]`. */
    method ReadInto(buf: array<byte>, pos: nat) returns (k: nat, err: Option<Error>)
      requires pos < buf.Length
      modifies this, buf
      ensures k == ReadSize(size(old(turn)), buf.Length - pos, |old(rest)|) && turn == old(turn) + 1
      ensures rest == old(rest)[k..]
      ensures forall p {:trigger buf[p]} :: 0 <= p < buf.Length ==>
                buf[p] == if pos <= p < pos + k then old(rest)[p - pos] else old(buf[p])
      ensures old(rest) == [] ==> err.Some?
      ensures err.Some? ==> err.value == end && rest == []
    {
      hide ReadSize;
      var b: Bytes;
      b, err := Read(buf.Length - pos);
      k := |b|;
      forall i | 0 <= i < k {
        buf[pos + i] := b[i];
      }
    }

    /** The loop of `io.ReadAtLeast`. */
    method Gather(buf: array<byte>, lo: nat, min: nat) returns (n: nat)
      requires lo + min <= buf.Length
      modifies this, buf
      ensures n == Gathered(size, old(turn), 0, min, buf.Length - lo, |old(rest)|)
      ensures n <= |old(rest)| && lo + n <= buf.Length && rest == old(rest)[n..] && (n < min ==> rest == [])
      ensures forall p {:trigger buf[p]} :: 0 <= p < buf.Length ==>
                buf[p] == if lo <= p < lo + n then old(rest)[p - lo] else old(buf[p])
    {
      hide Gathered, ReadSize;
      n := 0;
      var err := None;
      while n < min && err == None
        invariant n <= |old(rest)| && lo + n <= buf.Length
        invariant rest == old(rest)[n..]
        invariant Gathered(size, turn, n, min, buf.Length - lo, |rest|) ==
                  Gathered(size, old(turn), 0, min, buf.Length - lo, |old(rest)|)
        invariant forall p {:trigger buf[p]} :: 0 <= p < buf.Length ==>
                    buf[p] == if lo <= p < lo + n then old(rest)[p - lo] else old(buf[p])
        invariant err.Some? ==> err.value == end && rest == []
        decreases min - n, err == None
      {
        GatherStep(size, turn, n, min, buf.Length - lo, |rest|);
        var k;
        k, err := ReadInto(buf, lo + n);
        n := n + k;
      }
      GatherDone(size, turn, n, min, buf.Length - lo, |rest|);
    }

    /** `io.ReadAtLeast(r, buf[lo:], min)`: how much more than `min` arrives depends on the schedule. */
    method ReadAtLeast(buf: array<byte>, lo: nat, min: nat) returns (n: nat, err: Option<Error>)
      requires lo + min <= buf.Length
      modifies this, buf
      ensures n == Gathered(size, old(turn), 0, min, buf.Length - lo, |old(rest)|)
      ensures n <= |old(rest)| && lo + n <= buf.Length
      ensures buf[..lo] == old(buf[..lo]) && buf[lo..lo + n] == old(rest)[..n] && buf[lo + n..] == old(buf[lo + n..])
      ensures rest == old(rest)[n..]
      ensures |old(rest)| >= min ==> err == None && n >= min
      ensures |old(rest)| < min ==>
                err == Some(if end == EOF && n > 0 then UnexpectedEOF else end) && rest == []
    {
      hide Gathered;
      n := Gather(buf, lo, min);
      err := if n >= min then None else Some(ShortRead(n, end));
    }

    /** `io.ReadFull(r, buf)`: what it returns does not depend on how the bytes were split. */
    method ReadFull(buf: array<byte>, lo: nat, hi: nat) returns (err: Option<Error>)
      requires lo <= hi <= buf.Length
      modifies this, buf
      ensures |old(rest)| >= hi - lo ==>
                err == None && rest == old(rest)[hi - lo..] &&
                buf[..] == old(buf[..lo]) + old(rest)[..hi - lo] + old(buf[hi..])
      ensures |old(rest)| < hi - lo ==>
                err == Some(if end == EOF && |old(rest)| > 0 then UnexpectedEOF else end) && rest == []
    {
      var window := new byte[hi - lo](_ => 0);
      var n;
      n, err := ReadAtLeast(window, 0, hi - lo);
      forall i | 0 <= i < n {
        buf[lo + i] := window[i];
      }
      if err == None {
        assert window[..] == window[0..n] == old(rest)[..n];
      }
    }
  }
}
