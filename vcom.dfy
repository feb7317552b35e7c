/** The `Wrapper` of the serial example program: a `fmt::Write` sink that
    copies formatted text into a caller's fixed byte buffer and refuses, without
    touching anything, a string that does not fit in the space left. Strings
    are their UTF-8 bytes. */
module SerialVcom {
  import opened Machine

  /** `core::fmt::Result`. */
  datatype FmtResult = Ok | Error

  /** `buf` with `s` copied in from position `offset` on and every other byte
      as it was. */
  function Placed(buf: seq<u8>, offset: nat, s: seq<u8>): (r: seq<u8>)
    requires offset + |s| <= |buf|
    ensures |r| == |buf|
    ensures forall k :: 0 <= k < |r| ==> r[k] == if offset <= k < offset + |s| then s[k - offset] else buf[k]
    ensures r[..offset + |s|] == buf[..offset] + s
  {
    buf[..offset] + s + buf[offset + |s|..]
  }

  /** Placing `a` and then, right behind it, `b` is placing `a + b`. */
  lemma PlacedTwice(buf: seq<u8>, offset: nat, a: seq<u8>, b: seq<u8>)
    requires offset + |a| + |b| <= |buf|
    ensures Placed(Placed(buf, offset, a), offset + |a|, b) == Placed(buf, offset, a + b)
  {
  }

  /** One `write_str` on the buffer contents and offset, as values: `None`
      when the string does not fit behind the offset. */
  function WriteStep(buf: seq<u8>, offset: nat, s: seq<u8>): (r: Option<(seq<u8>, nat)>)
    requires offset <= |buf|
    ensures r.Some? <==> offset + |s| <= |buf|
    ensures r.Some? ==> |r.value.0| == |buf| && r.value.1 == offset + |s| <= |buf|
    ensures r.Some? ==> r.value.0 == Placed(buf, offset, s)
  {
    if |buf| - offset < |s| then None else Some((Placed(buf, offset, s), offset + |s|))
  }

  /** All pieces, one after the other. */
  function Concat(pieces: seq<seq<u8>>): (joined: seq<u8>) {
    if pieces == [] then [] else pieces[0] + Concat(pieces[1..])
  }

  /** Successive `write_str` calls (as a formatting macro makes them),
      stopping at the first that fails. */
  function WriteAll(buf: seq<u8>, offset: nat, pieces: seq<seq<u8>>): (r: Option<(seq<u8>, nat)>)
    requires offset <= |buf|
    decreases |pieces|
  {
    if pieces == [] then Some((buf, offset))
    else
      match WriteStep(buf, offset, pieces[0])
      case None => None
      case Some((b, o)) => WriteAll(b, o, pieces[1..])
  }

  /** A run of writes succeeds exactly when all the pieces together fit
      behind the offset, and then it has copied their concatenation there,
      left every other byte alone and advanced the offset by its length. */
  lemma {:induction false} WriteAllPlacesConcat(buf: seq<u8>, offset: nat, pieces: seq<seq<u8>>)
    requires offset <= |buf|
    ensures WriteAll(buf, offset, pieces).Some? <==> offset + |Concat(pieces)| <= |buf|
    ensures WriteAll(buf, offset, pieces).Some? ==>
      WriteAll(buf, offset, pieces).value == (Placed(buf, offset, Concat(pieces)), offset + |Concat(pieces)|)
    decreases |pieces|
  {
    if pieces == [] {
      assert Placed(buf, offset, []) == buf;
    } else {
      var head, rest := pieces[0], Concat(pieces[1..]);
      assert Concat(pieces) == head + rest;
      if offset + |head| <= |buf| {
        var b := Placed(buf, offset, head);
        WriteAllPlacesConcat(b, offset + |head|, pieces[1..]);
        if offset + |head| + |rest| <= |buf| {
          PlacedTwice(buf, offset, head, rest);
        }
      }
    }
  }

  /** The sink: the borrowed buffer and how much of it is filled. */
  class Wrapper {
    const buf: array<u8>
    var offset: nat

    /** The offset never runs past the end of the buffer. */
    ghost predicate Valid()
      reads this
    {
      offset <= buf.Length
    }

    /** The bytes written so far. */
    ghost function Written(): seq<u8>
      reads this, buf
      requires Valid()
    {
      buf[..offset]
    }

    /** Starts empty over `buf`, whose contents stay as they are. */
    constructor (buf: array<u8>)
      ensures this.buf == buf && offset == 0
      ensures Valid() && Written() == []
    {
      this.buf := buf;
      offset := 0;
    }

    /** Copies `s` behind the bytes already written, or fails when it does
        not fit and then changes nothing. */
    method WriteStr(s: seq<u8>) returns (r: FmtResult)
      requires Valid()
      modifies this`offset, buf
      ensures Valid()
      ensures r == Ok <==> |s| <= buf.Length - old(offset)
      ensures r == Error ==> buf[..] == old(buf[..]) && offset == old(offset)
      ensures r == Ok ==> buf[..] == Placed(old(buf[..]), old(offset), s) && offset == old(offset) + |s|
      ensures r == Ok ==> Written() == old(Written()) + s
      ensures WriteStep(old(buf[..]), old(offset), s) == if r == Ok then Some((buf[..], offset)) else None
    {
      if buf.Length - offset < |s| {
        return Error;
      }
      var i := 0;
      while i < |s|
        invariant 0 <= i <= |s|
        invariant offset == old(offset)
        invariant forall k :: 0 <= k < buf.Length ==>
          buf[k] == if offset <= k < offset + i then s[k - offset] else old(buf[k])
      {
        buf[offset + i] := s[i];
        i := i + 1;
      }
      ghost var placed := Placed(old(buf[..]), offset, s);
      assert buf[..] == placed;
      offset := offset + |s|;
      r := Ok;
    }
  }
}
