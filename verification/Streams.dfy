/** A byte stream as a reader sees it: the bytes that will arrive and how far they are consumed. */
module Streams {
  import opened Basics

  /** The outcome of a read and what is left of the stream. */
  datatype Read<+T> = Read(result: Result<T>, rest: bytes)

  /** `readexactly(n)`: a premature end of the stream raises and loses what was there. */
  function TakeExactly(s: bytes, n: int): Read<bytes> {
    if n < 0 then Read(Failure(ValueError), s)
    else if |s| < n then Read(Failure(IncompleteRead), [])
    else Read(Success(s[..n]), s[n..])
  }

  class StreamReader {
    const data: bytes
    var pos: nat

    ghost predicate Valid()
      reads this
    {
      pos <= |data|
    }

    ghost function Rest(): bytes
      requires Valid()
      reads this
    {
      data[pos..]
    }

    constructor (data: bytes)
      ensures Valid() && Rest() == data
    {
      this.data := data;
      pos := 0;
    }

    method ReadExactly(n: int) returns (r: Result<bytes>)
      requires Valid()
      modifies `pos
      ensures Valid() && Read(r, Rest()) == TakeExactly(old(Rest()), n)
      ensures n < 0 ==> r == Failure(ValueError) && Rest() == old(Rest())
      ensures 0 <= n <= |old(Rest())| ==> r == Success(old(Rest())[..n]) && Rest() == old(Rest())[n..]
      ensures |old(Rest())| < n ==> r == Failure(IncompleteRead) && Rest() == []
    {
      if n < 0 {
        return Failure(ValueError);
      }
      if |data| - pos < n {
        pos := |data|;
        return Failure(IncompleteRead);
      }
      r := Success(data[pos..pos + n]);
      assert r.value == Rest()[..n] && data[pos + n..] == Rest()[n..];
      pos := pos + n;
    }
  }

  function Concat(frames: seq<bytes>): bytes {
    if frames == [] then [] else frames[0] + Concat(frames[1..])
  }

  /** `n` reads in a row, None when one of them raises. */
  function ReadMany(read: bytes -> Read<bytes>, s: bytes, n: nat): Option<(seq<bytes>, bytes)>
    decreases n
  {
    if n == 0 then Some(([], s))
    else
      var first := read(s);
      if first.result.Failure? then None
      else match ReadMany(read, first.rest, n - 1)
        case None => None
        case Some((items, rest)) => Some(([first.result.value] + items, rest))
  }

  /** `frame` followed by anything reads as `item`, and what follows is left. */
  ghost predicate Delimits(read: bytes -> Read<bytes>, frame: bytes, item: bytes) {
    forall rest :: read(frame + rest) == Read(Success(item), rest)
  }

  /** Frames that each delimit themselves read back in order from their concatenation. */
  lemma {:induction false} FramesReadBack(
    read: bytes -> Read<bytes>, frames: seq<bytes>, items: seq<bytes>, rest: bytes)
    requires |frames| == |items| && forall i :: 0 <= i < |frames| ==> Delimits(read, frames[i], items[i])
    ensures ReadMany(read, Concat(frames) + rest, |frames|) == Some((items, rest))
    decreases |frames|
  {
    if frames == [] {
      assert [] + rest == rest;
    } else {
      var after := Concat(frames[1..]) + rest;
      assert Concat(frames) + rest == frames[0] + after;
      assert Delimits(read, frames[0], items[0]);
      assert read(frames[0] + after) == Read(Success(items[0]), after);
      assert [items[0]] + items[1..] == items;
      FramesReadBack(read, frames[1..], items[1..], rest);
    }
  }
}
