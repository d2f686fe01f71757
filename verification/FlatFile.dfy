/**
 * The flattened dump format: every write is a record of a file offset and bytes, and the dump
 * file is what replaying the records in order gives.
 */
module FlatFile {
  import opened Arithmetic
  import opened Options

  type Byte = x: int | 0 <= x < 256

  datatype Record = Record(offset: nat, data: seq<Byte>)

  /** The byte at an offset after replaying the records; later records win. */
  function ByteAt(log: seq<Record>, p: nat): Option<Byte> {
    if log == [] then None
    else
      var r := log[|log| - 1];
      if r.offset <= p < r.offset + |r.data| then Some(r.data[p - r.offset]) else ByteAt(log[..|log| - 1], p)
  }

  lemma Appended(log: seq<Record>, r: Record, p: nat)
    ensures ByteAt(log + [r], p) ==
            if r.offset <= p < r.offset + |r.data| then Some(r.data[p - r.offset]) else ByteAt(log, p)
  {
    assert (log + [r])[..|log|] == log;
  }

  /** The file holds exactly these bytes from `at` on. */
  ghost predicate Holds(log: seq<Record>, at: nat, data: seq<Byte>) {
    forall i :: 0 <= i < |data| ==> ByteAt(log, at + i) == Some(data[i])
  }

  /** Nothing outside the range was written. */
  ghost predicate OnlyWithin(log: seq<Record>, log': seq<Record>, lo: nat, hi: nat) {
    forall p: nat :: p < lo || hi <= p ==> ByteAt(log', p) == ByteAt(log, p)
  }

  lemma WithinTrans(a: seq<Record>, b: seq<Record>, c: seq<Record>, lo: nat, hi: nat)
    requires OnlyWithin(a, b, lo, hi) && OnlyWithin(b, c, lo, hi)
    ensures OnlyWithin(a, c, lo, hi)
  {
  }

  lemma HoldsKept(log: seq<Record>, log': seq<Record>, at: nat, data: seq<Byte>, lo: nat, hi: nat)
    requires Holds(log, at, data) && OnlyWithin(log, log', lo, hi) && (at + |data| <= lo || hi <= at)
    ensures Holds(log', at, data)
  {
  }

  lemma HoldsAppend(log: seq<Record>, at: nat, a: seq<Byte>, b: seq<Byte>)
    requires Holds(log, at, a) && Holds(log, at + |a|, b)
    ensures Holds(log, at, a + b)
  {
    forall i | 0 <= i < |a + b|
      ensures ByteAt(log, at + i) == Some((a + b)[i])
    {
      if i >= |a| {
        assert at + i == at + |a| + (i - |a|);
      }
    }
  }

  /** The output: the first `room` writes succeed. */
  class FlatWriter {
    const room: nat
    var log: seq<Record>

    constructor (room: nat)
      ensures log == [] && this.room == room
    {
      this.room, log := room, [];
    }

    predicate Full()
      reads this
    {
      |log| == room
    }

    /** `write_buffer`. */
    method WriteBuffer(offset: nat, data: seq<Byte>) returns (ok: bool)
      modifies this
      ensures ok <==> !old(Full())
      ensures log == if ok then old(log) + [Record(offset, data)] else old(log)
      ensures ok ==> Holds(log, offset, data) && OnlyWithin(old(log), log, offset, offset + |data|)
    {
      ok := !Full();
      if ok {
        ghost var was := log;
        log := log + [Record(offset, data)];
        forall p: nat
          ensures ByteAt(log, p) == if offset <= p < offset + |data| then Some(data[p - offset]) else ByteAt(was, p)
        {
          Appended(was, Record(offset, data), p);
        }
      }
    }
  }

  // ------------------------------------------------------------ numbers in the file

  /** `width` bytes of `n`, in the byte order of the dump. */
  function Encode(n: nat, width: nat, big: bool): (s: seq<Byte>)
    ensures |s| == width
    decreases width, n
  {
    if width == 0 then []
    else if big then Encode(n / 256, width - 1, big) + [n % 256]
    else [n % 256] + Encode(n / 256, width - 1, big)
  }

  function Decode(s: seq<Byte>, big: bool): nat {
    if s == [] then 0
    else if big then s[|s| - 1] + 256 * Decode(s[..|s| - 1], big)
    else s[0] + 256 * Decode(s[1..], big)
  }

  function Limit(width: nat): (m: nat)
    ensures m > 0
  {
    if width == 0 then 1 else 256 * Limit(width - 1)
  }

  /** Byte `i` of a number: its i-th digit to the base 256, from the left in one byte order and from the right in the other. */
  lemma {:induction false} EncodeByte(n: nat, width: nat, big: bool, i: nat)
    requires i < width
    ensures Encode(n, width, big)[i] == n / Limit(if big then width - 1 - i else i) % 256
  {
    var k := if big then width - 1 - i else i;
    if k > 0 {
      EncodeByte(n / 256, width - 1, big, if big then i else i - 1);
      DivTwice(n, Limit(k - 1));
    }
  }

  lemma DivTwice(n: nat, d: nat)
    requires d > 0
    ensures n / 256 / d == n / (256 * d)
  {
    var q, r := n / 256 / d, n / 256 % d;
    assert n / 256 == q * d + r;
    assert n == 256 * (q * d + r) + n % 256;
    assert 256 * (q * d + r) == q * (256 * d) + 256 * r;
    DivModUnique(n, 256 * d, q, 256 * r + n % 256);
  }

  lemma {:induction false} DecodeEncode(n: nat, width: nat, big: bool)
    requires n < Limit(width)
    ensures Decode(Encode(n, width, big), big) == n
  {
    if width > 0 {
      var s, tail := Encode(n, width, big), Encode(n / 256, width - 1, big);
      assert if big then s[..width - 1] == tail else s[1..] == tail;
      DecodeEncode(n / 256, width - 1, big);
    }
  }
}
