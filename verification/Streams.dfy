// The asyncio reader a connection handler sees: the peer's bytes, handed over in pieces
// whose sizes the network chooses.
module Streams {
  import opened Common

  class StreamReader {
    const stream: seq<Byte>  // everything the peer sends before it closes
    var pos: nat             // how much of it has been handed over

    ghost predicate Valid()
      reads this
    {
      pos <= |stream|
    }

    constructor (stream: seq<Byte>)
      ensures Valid() && this.stream == stream && pos == 0
    {
      this.stream := stream;
      pos := 0;
    }

    // At least one byte and at most `limit`, as the network likes; empty only at the end.
    method Read(limit: nat) returns (chunk: seq<Byte>)
      requires Valid() && limit > 0
      modifies this
      ensures Valid() && old(pos) <= pos
      ensures chunk == stream[old(pos)..pos] && |chunk| <= limit
      ensures chunk == [] <==> old(pos) == |stream|
    {
      if pos == |stream| {
        return [];
      }
      var size :| 1 <= size <= limit && size <= |stream| - pos;
      chunk := stream[pos..pos + size];
      pos := pos + size;
    }

    // All `count` bytes, or None (IncompleteReadError) after using up what was left.
    method ReadExactly(count: nat) returns (data: Option<seq<Byte>>)
      requires Valid()
      modifies this
      ensures Valid()
      ensures old(pos) + count <= |stream| ==> pos == old(pos) + count && data == Some(stream[old(pos)..pos])
      ensures old(pos) + count > |stream| ==> data == None && pos == |stream|
    {
      if pos + count <= |stream| {
        data := Some(stream[pos..pos + count]);
        pos := pos + count;
      } else {
        data := None;
        pos := |stream|;
      }
    }
  }
}
