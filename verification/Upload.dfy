/** Accumulating a request body (src/server/handle.c:61-84). */
module Upload {
  /** What a block grown by `realloc` holds behind its former end: anything. */
  type Garbage = (nat, nat) -> char

  /**
   One chunk: grow the buffer, copy the chunk to `offset`, terminate behind the new size.  `data`
   is empty for the null pointer, else as long as the size and a terminator.
   */
  function StoreChunk(data: seq<char>, size: nat, chunk: seq<char>, offset: nat, garbage: Garbage): seq<char> {
    var total := size + |chunk|;
    seq(total + 1, i requires 0 <= i <= total =>
      if i == total then '\0'
      else if offset <= i < offset + |chunk| then chunk[i - offset]
      else if i < |data| then data[i]
      else garbage(size, i))
  }

  datatype Buffer = Buffer(data: seq<char>, size: nat)

  const EMPTY := Buffer([], 0)

  /** The source copies every chunk to offset 0. */
  function Accumulate(b: Buffer, chunk: seq<char>, garbage: Garbage): Buffer {
    Buffer(StoreChunk(b.data, b.size, chunk, 0, garbage), b.size + |chunk|)
  }

  function Accumulated(chunks: seq<seq<char>>, garbage: Garbage): Buffer
    decreases |chunks|
  {
    if chunks == [] then EMPTY
    else Accumulate(Accumulated(chunks[..|chunks| - 1], garbage), chunks[|chunks| - 1], garbage)
  }

  /** The same with each chunk copied behind the ones before it. */
  function Appended(chunks: seq<seq<char>>, garbage: Garbage): Buffer
    decreases |chunks|
  {
    if chunks == [] then EMPTY
    else
      var b := Appended(chunks[..|chunks| - 1], garbage);
      var chunk := chunks[|chunks| - 1];
      Buffer(StoreChunk(b.data, b.size, chunk, b.size, garbage), b.size + |chunk|)
  }

  function Concat(chunks: seq<seq<char>>): seq<char>
    decreases |chunks|
  {
    if chunks == [] then [] else Concat(chunks[..|chunks| - 1]) + chunks[|chunks| - 1]
  }

  ghost predicate Terminated(b: Buffer) {
    |b.data| == b.size + 1 && b.data[b.size] == '\0'
  }

  /** MHD hands over non-empty chunks; a JSON text contains no terminator. */
  ghost predicate TextChunks(chunks: seq<seq<char>>) {
    forall i :: 0 <= i < |chunks| ==> chunks[i] != [] && '\0' !in chunks[i]
  }

  /** The size is always right and the text terminated there; the buffer begins with the last chunk. */
  lemma {:induction false} AccumulatedShape(chunks: seq<seq<char>>, garbage: Garbage)
    ensures
      var b := Accumulated(chunks, garbage);
      && b.size == |Concat(chunks)|
      && (chunks != [] ==> Terminated(b) && chunks[|chunks| - 1] <= b.data)
    decreases |chunks|
  {
    if chunks != [] {
      AccumulatedShape(chunks[..|chunks| - 1], garbage);
    }
  }

  lemma {:induction false} ConcatText(chunks: seq<seq<char>>)
    requires TextChunks(chunks)
    ensures '\0' !in Concat(chunks) && (chunks != [] ==> Concat(chunks) != [])
    decreases |chunks|
  {
    if chunks != [] {
      ConcatText(chunks[..|chunks| - 1]);
    }
  }

  ghost predicate Holds(b: Buffer, text: seq<char>) {
    b.size <= |b.data| && b.data[..b.size] == text
  }

  /** The buffer is sure to hold the body exactly when the body came in at most one chunk. */
  lemma {:induction false} AccumulatedExact(chunks: seq<seq<char>>)
    requires TextChunks(chunks)
    ensures (forall garbage: Garbage :: Holds(Accumulated(chunks, garbage), Concat(chunks))) <==> |chunks| <= 1
  {
    if |chunks| <= 1 {
      forall garbage: Garbage ensures Holds(Accumulated(chunks, garbage), Concat(chunks)) {
        AccumulatedShape(chunks, garbage);
        if |chunks| == 1 {
          assert Concat(chunks) == Concat([]) + chunks[0] == chunks[0];
        }
      }
    } else {
      SecondChunkLosesBody(chunks);
    }
  }

  lemma {:induction false} SecondChunkLosesBody(chunks: seq<seq<char>>)
    requires TextChunks(chunks) && |chunks| >= 2
    ensures var b := Accumulated(chunks, (_, _) => '\0'); b.size < |b.data| && b.data[..b.size] != Concat(chunks)
  {
    var zero: Garbage := (_, _) => '\0';
    var before, last := chunks[..|chunks| - 1], chunks[|chunks| - 1];
    AccumulatedShape(before, zero);
    AccumulatedShape(chunks, zero);
    ConcatText(before);
    ConcatText(chunks);
    var a, b := Accumulated(before, zero), Accumulated(chunks, zero);
    var i := if |last| <= a.size then a.size else |last|;
    assert i < b.size && b.data[i] == '\0';
    assert Concat(chunks)[i] != '\0' by { assert Concat(chunks)[i] in Concat(chunks); }
    assert b.data[..b.size][i] == '\0';
  }

  /** Copying to the old size would give the body for every way of cutting it into chunks. */
  lemma {:induction false} AppendedIsConcat(chunks: seq<seq<char>>, garbage: Garbage)
    ensures
      var b := Appended(chunks, garbage);
      && b.size == |Concat(chunks)|
      && (chunks != [] ==> Terminated(b))
      && b.size <= |b.data| && b.data[..b.size] == Concat(chunks)
    decreases |chunks|
  {
    if chunks != [] {
      AppendedIsConcat(chunks[..|chunks| - 1], garbage);
    }
  }

  class UploadData {
    var data: array?<char>
    var size: nat

    ghost function Abs(): Buffer
      reads this, data
    {
      Buffer(if data == null then [] else data[..], size)
    }

    ghost predicate Valid()
      reads this, data
    {
      if data == null then size == 0 else Terminated(Abs())
    }

    constructor ()
      ensures Valid() && Abs() == EMPTY && data == null
    {
      data, size := null, 0;
    }

    /** A failed allocation leaves the size and loses the data. */
    method Upload(chunk: seq<char>, reallocOk: bool, garbage: Garbage) returns (yes: bool)
      requires Valid()
      modifies this
      ensures yes == reallocOk
      ensures yes ==> Valid() && Abs() == Accumulate(old(Abs()), chunk, garbage) && data != null && fresh(data)
      ensures !yes ==> data == null && size == old(size)
    {
      if !reallocOk {
        data := null;
        return false;
      }
      ghost var before := Abs();
      var grown := new char[size + |chunk| + 1];
      forall i | 0 <= i < grown.Length {
        grown[i] := if data != null && i < data.Length then data[i] else garbage(size, i);
      }
      forall i | 0 <= i < |chunk| {
        grown[i] := chunk[i];
      }
      grown[size + |chunk|] := '\0';
      data := grown;
      size := size + |chunk|;
      assert data[..] == StoreChunk(before.data, before.size, chunk, 0, garbage);
      yes := true;
    }
  }
}
