/**
 The queue of received chunks that a controller keeps for later recv calls, against the stream of
 bytes and end markers it stands for.  A released chunk counts as empty.
 */
module RecvStream {
  import opened Wrappers

  type Byte = bv8

  datatype IOError = IOError(code: nat)

  type IoResult = Result<nat, IOError>

  /** A piece of a received buffer, or the end of the stream: success 0 or an error. */
  datatype Chunk =
    | Buffer(data: seq<Byte>, offset: nat, length: nat)
    | Marker(result: IoResult)

  datatype Item = Data(byte: Byte) | End(result: IoResult)

  predicate ChunkOk(c: Chunk) {
    c.Buffer? ==> c.offset + c.length <= |c.data|
  }

  function Items(bytes: seq<Byte>): (items: seq<Item>)
    ensures |items| == |bytes|
    ensures forall i :: 0 <= i < |items| ==> items[i] == Data(bytes[i])
  {
    seq(|bytes|, i requires 0 <= i < |bytes| => Data(bytes[i]))
  }

  function ItemsOf(c: Chunk): seq<Item>
    requires ChunkOk(c)
  {
    match c
    case Buffer(data, offset, length) => Items(data[offset..offset + length])
    case Marker(result) => [End(result)]
  }

  ghost predicate AllOk(chunks: seq<Chunk>) {
    forall i :: 0 <= i < |chunks| ==> ChunkOk(chunks[i])
  }

  /** What the queue stands for, in order of arrival. */
  ghost function Stream(chunks: seq<Chunk>): seq<Item>
    requires AllOk(chunks)
  {
    if chunks == [] then [] else ItemsOf(chunks[0]) + Stream(chunks[1..])
  }

  lemma {:induction false} StreamAppend(chunks: seq<Chunk>, c: Chunk)
    requires AllOk(chunks) && ChunkOk(c)
    ensures AllOk(chunks + [c]) && Stream(chunks + [c]) == Stream(chunks) + ItemsOf(c)
  {
    hide ItemsOf;
    if chunks == [] {
      assert chunks + [c] == [c] && [c][1..] == [];
      assert [] + ItemsOf(c) == ItemsOf(c) + [];
    } else {
      assert (chunks + [c])[1..] == chunks[1..] + [c];
      StreamAppend(chunks[1..], c);
      assert ItemsOf(chunks[0]) + (Stream(chunks[1..]) + ItemsOf(c)) == ItemsOf(chunks[0]) + Stream(chunks[1..]) + ItemsOf(c);
    }
  }

  /** The front buffer's bytes are cut into those taken and those left. */
  lemma FrontCut(chunks: seq<Chunk>, n: nat, rest: seq<Chunk>)
    requires AllOk(chunks) && chunks != [] && chunks[0].Buffer? && n <= chunks[0].length
    requires rest == if n == chunks[0].length then chunks[1..]
                     else [chunks[0].(offset := chunks[0].offset + n, length := chunks[0].length - n)] + chunks[1..]
    ensures AllOk(rest)
    ensures Stream(chunks) == Items(chunks[0].data[chunks[0].offset..chunks[0].offset + n]) + Stream(rest)
  {
    hide Items, ItemsOf, Stream, AllOk;
    StreamUnfold(chunks);
    BufferCut(chunks[0], n);
    if n < chunks[0].length {
      assert rest[1..] == chunks[1..];
      RestOk(chunks, rest);
      StreamUnfold(rest);
    }
  }

  lemma RestOk(chunks: seq<Chunk>, rest: seq<Chunk>)
    requires AllOk(chunks) && chunks != [] && rest != [] && rest[1..] == chunks[1..] && ChunkOk(rest[0])
    ensures AllOk(rest)
  {
    forall i | 0 < i < |rest| ensures ChunkOk(rest[i]) {
      assert rest[i] == rest[1..][i - 1] == chunks[1..][i - 1] == chunks[i];
    }
  }

  lemma BufferCut(c: Chunk, n: nat)
    requires c.Buffer? && ChunkOk(c) && n <= c.length
    ensures var rest := c.(offset := c.offset + n, length := c.length - n);
      && ChunkOk(rest) && ItemsOf(c) == Items(c.data[c.offset..c.offset + n]) + ItemsOf(rest)
      && (n == c.length ==> ItemsOf(c) == Items(c.data[c.offset..c.offset + n]))
  {
    hide Items;
    var taken, left := c.data[c.offset..c.offset + n], c.data[c.offset + n..c.offset + c.length];
    assert c.data[c.offset..c.offset + c.length] == taken + left;
    ItemsConcat(taken, left);
    assert n == c.length ==> Items(left) == [];
  }

  lemma StreamEnds(chunks: seq<Chunk>)
    requires chunks == []
    ensures Stream(chunks) == []
  {
  }

  lemma StreamUnfold(chunks: seq<Chunk>)
    requires AllOk(chunks) && chunks != []
    ensures ChunkOk(chunks[0]) && AllOk(chunks[1..])
    ensures Stream(chunks) == ItemsOf(chunks[0]) + Stream(chunks[1..])
  {
  }

  lemma ItemsConcat(a: seq<Byte>, b: seq<Byte>)
    ensures Items(a + b) == Items(a) + Items(b)
  {
  }

  lemma Joined(before: seq<Byte>, more: seq<Byte>, rest: seq<Item>, mid: seq<Item>, all: seq<Item>)
    requires Items(before) + mid == all && Items(more) + rest == mid
    ensures Items(before + more) + rest == all
  {
    hide Items;
    ItemsConcat(before, more);
    assert Items(before) + Items(more) + rest == Items(before) + (Items(more) + rest);
  }

  /** No byte is left before the next marker. */
  ghost predicate Exhausted(stream: seq<Item>) {
    stream == [] || stream[0].End?
  }

  class RecvQueue {
    var chunks: seq<Chunk>
    ghost var arrived: seq<Item>
    ghost var delivered: seq<Item>

    /** Delivered items followed by the remaining ones are all that arrived, in order. */
    ghost predicate Valid()
      reads this
    {
      AllOk(chunks) && arrived == delivered + Stream(chunks)
    }

    constructor ()
      ensures Valid() && chunks == [] && arrived == []
    {
      chunks, arrived, delivered := [], [], [];
    }

    method Enqueue(c: Chunk)
      requires Valid() && ChunkOk(c)
      modifies this`chunks, this`arrived
      ensures Valid() && arrived == old(arrived) + ItemsOf(c)
    {
      hide Stream, ItemsOf, AllOk;
      StreamAppend(chunks, c);
      assert delivered + (Stream(chunks) + ItemsOf(c)) == delivered + Stream(chunks) + ItemsOf(c);
      chunks := chunks + [c];
      arrived := arrived + ItemsOf(c);
    }

    /** Takes up to `room` bytes of the front buffer to `buffer` from index `at`; an empty buffer is dropped. */
    method TakeFront(buffer: array<Byte>, at: nat, room: nat) returns (bytes: nat, left: nat)
      requires AllOk(chunks) && chunks != [] && chunks[0].Buffer? && at + room <= buffer.Length
      modifies this`chunks, buffer
      ensures AllOk(chunks) && bytes <= room && left == old(chunks[0].length) - bytes
      ensures left == 0 || bytes == room
      ensures left == 0 ==> chunks == old(chunks)[1..]
      ensures left > 0 ==> |chunks| == |old(chunks)|
      ensures buffer[..at] == old(buffer[..at])
      ensures Items(buffer[at..at + bytes]) + Stream(chunks) == old(Stream(chunks))
    {
      hide Items, Stream, ItemsOf;
      var front := chunks[0];
      bytes := if front.length < room then front.length else room;
      left := front.length - bytes;
      ghost var was := chunks;
      chunks := if left == 0 then chunks[1..]
                else [front.(offset := front.offset + bytes, length := left)] + chunks[1..];
      FrontCut(was, bytes, chunks);
      forall k | 0 <= k < bytes {
        buffer[at + k] := front.data[front.offset + k];
      }
      assert buffer[at..at + bytes] == front.data[front.offset..front.offset + bytes];
    }

    /** Takes bytes until the buffer is full, the queue is empty, or a marker is in front. */
    method Fill(buffer: array<Byte>, capacity: nat) returns (total: nat, atMarker: bool)
      requires AllOk(chunks) && chunks != [] && capacity <= buffer.Length
      modifies this`chunks, buffer
      ensures AllOk(chunks) && total <= capacity
      ensures Items(buffer[..total]) + Stream(chunks) == old(Stream(chunks))
      ensures atMarker ==> chunks != [] && chunks[0].Marker?
      ensures total < capacity && !atMarker ==> chunks == []
      ensures capacity == 0 ==> (atMarker <==> old(chunks)[0].Marker?)
    {
      hide Items, Stream;
      var full := false;
      total, atMarker := 0, false;
      assert buffer[..0] == [];
      while chunks != [] && !full
        invariant AllOk(chunks) && total <= capacity
        invariant Items(buffer[..total]) + Stream(chunks) == old(Stream(chunks))
        invariant full ==> total == capacity
        invariant capacity == 0 ==> if full then old(chunks)[0].Buffer? else chunks == old(chunks)
        decreases |chunks|, !full
      {
        if chunks[0].Marker? {
          atMarker := true;
          return;
        }
        ghost var before, stream := buffer[..total], Stream(chunks);
        var bytes, left := TakeFront(buffer, total, capacity - total);
        Joined(before, buffer[total..total + bytes], Stream(chunks), stream, old(Stream(chunks)));
        assert buffer[..total + bytes] == before + buffer[total..total + bytes];
        total := total + bytes;
        full := total >= capacity || left != 0;
      }
    }

    /**
     Fills the caller's buffer from the queue.  None when the queue is empty.  Otherwise either bytes
     are delivered, as many as fit before the next marker, or the marker at the front of the stream.
     */
    method TryConsume(buffer: array<Byte>, capacity: nat) returns (result: Option<IoResult>)
      requires Valid() && capacity <= buffer.Length
      modifies this`chunks, this`delivered, buffer
      ensures Valid() && old(delivered) <= delivered
      ensures result.None? <==> old(chunks) == []
      ensures result.None? ==> delivered == old(delivered)
      ensures result.Some? ==>
        (delivered == old(delivered) <==> old(Stream(chunks)) == [] || (capacity == 0 && old(chunks)[0].Buffer?))
      ensures result.Some? ==>
        || delivered == old(delivered) + [End(result.value)]
        || BytesTaken(result.value, buffer[..], capacity, old(delivered), old(Stream(chunks)))
    {
      hide Items, Stream;
      result := None;
      if chunks == [] {
        return;
      }
      var total, atMarker := Fill(buffer, capacity);
      assert buffer[..][..total] == buffer[..total];
      if chunks != [] { StreamUnfold(chunks); } else { StreamEnds(chunks); }
      if atMarker && total == 0 {
        result := Some(chunks[0].result);
        delivered := delivered + [End(chunks[0].result)];
        chunks := chunks[1..];
      } else {
        result := Some(Ok(total));
        delivered := delivered + Items(buffer[..total]);
      }
    }

    /** The call delivered the bytes now at the front of the caller's buffer, as many as it could. */
    ghost predicate BytesTaken(result: IoResult, buffer: seq<Byte>, capacity: nat, before: seq<Item>, stream: seq<Item>)
      requires AllOk(chunks)
      reads this
    {
      && result.Ok? && result.value <= capacity <= |buffer|
      && delivered == before + Items(buffer[..result.value])
      && (result.value < capacity ==> Exhausted(Stream(chunks)))
      && (result.value == 0 ==> capacity == 0 || stream == [])
    }

    /** Drops what was not delivered. */
    method Clear()
      requires Valid()
      modifies this`chunks, this`arrived
      ensures Valid() && chunks == [] && arrived == old(delivered)
    {
      chunks := [];
      arrived := delivered;
    }
  }
}
