/**
 Byte streams for the decoder (src/stream_adapter.cpp): a cursor over a whole
 buffer, and a buffering form over a stream that arrives in pieces, which drops
 what it has read. Both answer alike.
 */
module StreamAdapter {
  import opened Common

  // ---- What a caller may ask, and what the answer is ----

  datatype Call = Has(size: nat) | Peek(size: nat) | PeekRange(left: nat, right: nat) | Take(size: nat) | Skip(size: nat)
                | Position | End

  datatype Reply = Truth(b: bool) | Bytes(bytes: seq<u8>) | Count(n: nat) | Done

  /** The source aborts on ranges that are not there. */
  predicate MayAsk(contents: seq<u8>, position: nat, call: Call) {
    match call
    case Peek(size) => position + size <= |contents|
    case PeekRange(left, right) => left <= right && position + right <= |contents|
    case Take(size) => position + size <= |contents|
    case Skip(size) => position + size <= |contents|
    case _ => true
  }

  function Moved(position: nat, call: Call): nat {
    if call.Take? || call.Skip? then position + call.size else position
  }

  /** The answer depends on the contents and the position alone. */
  function Answer(contents: seq<u8>, position: nat, call: Call): Reply
    requires position <= |contents| && MayAsk(contents, position, call)
  {
    match call
    case Has(size) => Truth(position + size <= |contents|)
    case Peek(size) => Bytes(contents[position..position + size])
    case PeekRange(left, right) => Bytes(contents[position + left..position + right])
    case Take(size) => Bytes(contents[position..position + size])
    case Skip(_) => Done
    case Position => Count(position)
    case End => Truth(position == |contents|)
  }

  /** The answers to a script, up to the first call the source would abort on. */
  function Answers(contents: seq<u8>, position: nat, script: seq<Call>): seq<Reply>
    requires position <= |contents|
    decreases |script|
  {
    if script == [] || !MayAsk(contents, position, script[0]) then []
    else [Answer(contents, position, script[0])] + Answers(contents, Moved(position, script[0]), script[1..])
  }

  // ---- The simple form ----

  class MemoryStreamAdapter {
    const bytes: seq<u8>
    var cursor: nat

    constructor (bytes: seq<u8>)
      ensures this.bytes == bytes && cursor == 0
    {
      this.bytes := bytes;
      cursor := 0;
    }

    method Has(size: nat) returns (r: bool)
      ensures r <==> cursor + size <= |bytes|
    {
      return cursor + size <= |bytes|;
    }

    method Peek(size: nat) returns (r: seq<u8>)
      requires cursor + size <= |bytes|
      ensures r == bytes[cursor..cursor + size]
    {
      return bytes[cursor..cursor + size];
    }

    method PeekRange(left: nat, right: nat) returns (r: seq<u8>)
      requires left <= right && cursor + right <= |bytes|
      ensures r == bytes[cursor + left..cursor + right]
    {
      return bytes[cursor + left..cursor + right];
    }

    method Take(size: nat, out: array<u8>)
      requires cursor + size <= |bytes| && out.Length >= size
      modifies this, out
      ensures cursor == old(cursor) + size
      ensures out[..size] == bytes[old(cursor)..cursor] && out[size..] == old(out[size..])
    {
      var taken := Peek(size);
      CopyInto(taken, out);
      cursor := cursor + size;
    }

    method Skip(size: nat)
      requires cursor + size <= |bytes|
      modifies this
      ensures cursor == old(cursor) + size
    {
      cursor := cursor + size;
    }

    method End() returns (r: bool)
      requires cursor <= |bytes|
      ensures r <==> cursor == |bytes|
    {
      return cursor == |bytes|;
    }
  }

  /** memcpy to the front of out. */
  method CopyInto(from: seq<u8>, out: array<u8>)
    requires out.Length >= |from|
    modifies out
    ensures out[..|from|] == from && out[|from|..] == old(out[|from|..])
  {
    for i := 0 to |from|
      invariant out[..i] == from[..i] && out[|from|..] == old(out[|from|..])
    {
      out[i] := from[i];
    }
  }

  // ---- The buffering form ----

  const BLOCK: nat := 4096

  /** The bytes of the blocks that n bytes reach into. */
  function WholeBlocks(n: nat): (r: nat)
    ensures n <= r < n + BLOCK
  {
    (n + BLOCK - 1) / BLOCK * BLOCK
  }

  function Most(a: nat, b: nat): nat {
    if a < b then b else a
  }

  lemma BlocksGrow(a: nat, b: nat)
    requires a <= b
    ensures WholeBlocks(a) <= WholeBlocks(b) && WholeBlocks(WholeBlocks(a)) == WholeBlocks(a)
  {
  }

  /** What lies within blocks needs no more of them. */
  lemma BlocksReach(a: nat, b: nat)
    requires a <= WholeBlocks(b)
    ensures WholeBlocks(a) <= WholeBlocks(b)
  {
    BlocksGrow(a, WholeBlocks(b));
    BlocksGrow(b, b);
  }

  lemma BlocksStep(a: nat, b: nat)
    requires a == WholeBlocks(a) < b
    ensures a + BLOCK == WholeBlocks(a + BLOCK) <= WholeBlocks(b)
  {
  }

  /** The other end: bytes still to come, delivered in pieces of any size from 1 to
      4096; nothing is delivered only when nothing is left. A file comes in blocks:
      each piece is as long as it can be. eof is the stream's end-of-file flag, which
      a file raises when it delivers less than it was asked for. */
  class Source {
    const blocks: bool
    var rest: seq<u8>
    var eof: bool

    constructor (bytes: seq<u8>, blocks: bool)
      ensures rest == bytes && this.blocks == blocks && !eof
    {
      rest, this.blocks, eof := bytes, blocks, false;
    }

    method Read() returns (piece: seq<u8>)
      modifies this
      ensures piece + rest == old(rest) && |piece| <= BLOCK && (piece == [] <==> old(rest) == [])
      ensures (eof ==> old(eof) || rest == []) && (old(eof) || piece == [] ==> eof)
      ensures blocks ==> |piece| == (if |old(rest)| < BLOCK then |old(rest)| else BLOCK)
      ensures blocks ==> (eof <==> old(eof) || |piece| < BLOCK)
    {
      if rest == [] {
        eof := true;
        return [];
      }
      var most := if |rest| < BLOCK then |rest| else BLOCK;
      var n :| 1 <= n <= most && (blocks ==> n == most);
      piece := rest[..n];
      rest := rest[n..];
      var met :| (met ==> rest == []) && (blocks ==> (met <==> |piece| < BLOCK));
      eof := eof || met;
      assert piece + rest == old(rest);
    }
  }

  class IstreamAdapter {
    const stream: Source
    var buffer: seq<u8>
    var cursor: nat
    var absolutePosition: nat
    var streamEnded: bool

    /** Everything the stream will ever have delivered, and how far any call has asked. */
    ghost const contents: seq<u8>
    ghost var needed: nat

    constructor (stream: Source)
      ensures this.stream == stream && contents == stream.rest
      requires !stream.eof
      ensures Valid() && absolutePosition == 0 && needed == 0
    {
      this.stream := stream;
      buffer, cursor, absolutePosition, streamEnded, needed := [], 0, 0, false, 0;
      contents := stream.rest;
      new;
      assert contents[0..] == [] + stream.rest;
    }

    /** The buffer is a window of the contents around the position; what has not
        been buffered is still in the stream. */
    ghost predicate Buffered()
      reads this, stream
    {
      && cursor <= |buffer| && cursor <= absolutePosition && absolutePosition - cursor <= |contents|
      && contents[absolutePosition - cursor..] == buffer + stream.rest
      && (streamEnded ==> stream.eof) && (stream.eof ==> stream.rest == [])
    }

    /** So many bytes have been asked for in blocks: those that are there have been
        read, and the end was met if there were not enough. */
    ghost predicate Fetched(asked: nat)
      reads this, stream
    {
      stream.blocks ==>
        && |contents| - |stream.rest| == (if asked < |contents| then asked else |contents|)
        && (stream.eof <==> asked > |contents|)
    }

    /** Of a file exactly the blocks have been read that calls reached into. */
    ghost predicate Valid()
      reads this, stream
    {
      Buffered() && absolutePosition <= needed && Fetched(WholeBlocks(needed))
    }

    method EnsureBuffered(size: nat) returns (r: bool)
      requires Valid()
      modifies this`buffer, this`streamEnded, this`needed, stream
      ensures Valid() && needed == Most(old(needed), absolutePosition + size)
      ensures r <==> absolutePosition + size <= |contents|
      ensures r ==> cursor + size <= |buffer|
      ensures !r ==> streamEnded
      ensures cursor + size <= old(|buffer|) ==>
                buffer == old(buffer) && stream.rest == old(stream.rest) && stream.eof == old(stream.eof)
    {
      hide WholeBlocks;
      BufferedBytes();
      ghost var asked: nat := WholeBlocks(needed);
      needed := Most(needed, absolutePosition + size);
      BlocksGrow(old(needed), needed);
      if cursor + size <= |buffer| {
        Enough(absolutePosition + size, old(needed), asked);
        return true;
      }
      if streamEnded {
        return false;
      }
      asked := FillUp(size, asked);
      Enough(absolutePosition + size, old(needed), asked);
      return cursor + size <= |buffer|;
    }

    /** Reads until enough is buffered or the stream ends. */
    method FillUp(size: nat, ghost asked: nat) returns (ghost more: nat)
      requires Buffered() && Fetched(asked) && asked == WholeBlocks(asked) && absolutePosition + size <= needed
      requires stream.blocks ==> asked <= WholeBlocks(needed)
      modifies this`buffer, this`streamEnded, stream
      ensures Buffered() && Fetched(more) && asked <= more == WholeBlocks(more)
      ensures stream.blocks ==> more <= WholeBlocks(needed)
      ensures cursor + size <= |buffer| || streamEnded
    {
      hide WholeBlocks;
      BufferedBytes();
      more := asked;
      while cursor + size > |buffer| && !streamEnded
        invariant Buffered() && |contents| - |stream.rest| == absolutePosition - cursor + |buffer|
        invariant Fetched(more) && asked <= more == WholeBlocks(more)
        invariant stream.blocks ==> more <= WholeBlocks(needed)
        decreases |stream.rest|, !streamEnded
      {
        ghost var was := stream.rest;
        if stream.blocks && !stream.eof {
          BlocksStep(more, needed);
          more := more + BLOCK;
        }
        var piece := stream.Read();
        if |piece| == 0 {
          streamEnded := true;
          break;
        }
        assert buffer + was == (buffer + piece) + stream.rest;
        buffer := buffer + piece;
      }
    }

    /** Once the stream has ended or all that was asked for is there, no more blocks
        are needed. */
    lemma Enough(wanted: nat, before: nat, asked: nat)
      requires Buffered() && Fetched(asked) && needed == Most(before, wanted)
      requires WholeBlocks(before) <= asked == WholeBlocks(asked) && (stream.blocks ==> asked <= WholeBlocks(needed))
      requires stream.eof || wanted <= |contents| - |stream.rest|
      ensures Fetched(WholeBlocks(needed))
    {
      hide WholeBlocks;
      if stream.blocks && !stream.eof {
        BlocksReach(wanted, asked);
      }
    }

    lemma BufferedBytes()
      requires Buffered()
      ensures |contents| - |stream.rest| == absolutePosition - cursor + |buffer|
    {
      assert |contents[absolutePosition - cursor..]| == |buffer| + |stream.rest|;
    }

    method Has(size: nat) returns (r: bool)
      requires Valid()
      modifies this`buffer, this`streamEnded, this`needed, stream
      ensures Valid() && (r <==> absolutePosition + size <= |contents|)
      ensures if r then cursor + size <= |buffer| else streamEnded
      ensures needed == Most(old(needed), absolutePosition + size)
      ensures cursor + size <= old(|buffer|) ==>
                buffer == old(buffer) && stream.rest == old(stream.rest) && stream.eof == old(stream.eof)
    {
      r := EnsureBuffered(size);
    }

    /** The buffered bytes are those of the contents. */
    lemma Window(left: nat, right: nat)
      requires Valid() && left <= right && cursor + right <= |buffer|
      ensures absolutePosition + right <= |contents|
      ensures buffer[cursor + left..cursor + right] == contents[absolutePosition + left..absolutePosition + right]
    {
      var start := absolutePosition - cursor;
      assert contents[start..][cursor + left..cursor + right] == contents[absolutePosition + left..absolutePosition + right];
      assert (buffer + stream.rest)[cursor + left..cursor + right] == buffer[cursor + left..cursor + right];
    }

    method Peek(size: nat) returns (r: seq<u8>)
      requires Valid() && absolutePosition + size <= |contents|
      modifies this`buffer, this`streamEnded, this`needed, stream
      ensures Valid() && r == contents[absolutePosition..absolutePosition + size]
      ensures cursor + size <= |buffer| && needed == Most(old(needed), absolutePosition + size)
    {
      var available := Has(size);
      assert available;
      Window(0, size);
      r := buffer[cursor..cursor + size];
    }

    method PeekRange(left: nat, right: nat) returns (r: seq<u8>)
      requires Valid() && left <= right && absolutePosition + right <= |contents|
      modifies this`buffer, this`streamEnded, this`needed, stream
      ensures Valid() && r == contents[absolutePosition + left..absolutePosition + right]
    {
      var available := Has(right);
      assert available;
      Window(left, right);
      r := buffer[cursor + left..cursor + right];
    }

    method Take(size: nat, out: array<u8>)
      requires Valid() && absolutePosition + size <= |contents| && out.Length >= size
      modifies this`buffer, this`cursor, this`absolutePosition, this`streamEnded, this`needed, stream, out
      ensures Valid() && absolutePosition == old(absolutePosition) + size && needed == Most(old(needed), absolutePosition)
      ensures out[..size] == contents[old(absolutePosition)..absolutePosition] && out[size..] == old(out[size..])
    {
      hide WholeBlocks;
      var taken := Peek(size);
      CopyInto(taken, out);
      cursor := cursor + size;
      absolutePosition := absolutePosition + size;
      CompactBuffer();
    }

    method Skip(size: nat)
      requires Valid() && absolutePosition + size <= |contents|
      modifies this`buffer, this`cursor, this`absolutePosition, this`streamEnded, this`needed, stream
      ensures Valid() && absolutePosition == old(absolutePosition) + size && needed == Most(old(needed), absolutePosition)
    {
      var available := Has(size);
      assert available;
      cursor := cursor + size;
      absolutePosition := absolutePosition + size;
      CompactBuffer();
    }

    method End() returns (r: bool)
      requires Valid()
      modifies this`buffer, this`streamEnded, this`needed, stream
      ensures Valid() && (r <==> absolutePosition == |contents|)
    {
      if !streamEnded {
        var _ := Has(1);
      }
      BufferedBytes();
      return streamEnded && cursor == |buffer|;
    }

    method CompactBuffer()
      requires Valid()
      modifies this`buffer, this`cursor
      ensures Valid() && buffer[cursor..] == old(buffer[cursor..])
      ensures cursor == 0 || cursor * 2 < |buffer|
    {
      if cursor == 0 {
        return;
      }
      if cursor * 2 < |buffer| {
        return;
      }
      assert contents[absolutePosition..] == contents[absolutePosition - cursor..][cursor..];
      assert (buffer + stream.rest)[cursor..] == buffer[cursor..] + stream.rest;
      buffer := buffer[cursor..];
      cursor := 0;
    }
  }

  // ---- Any script of calls ----

  method AskMemory(m: MemoryStreamAdapter, call: Call) returns (r: Reply)
    requires m.cursor <= |m.bytes| && MayAsk(m.bytes, m.cursor, call)
    modifies m
    ensures m.cursor == Moved(old(m.cursor), call) && m.cursor <= |m.bytes|
    ensures r == Answer(m.bytes, old(m.cursor), call)
  {
    match call
    case Has(size) => var b := m.Has(size); r := Truth(b);
    case Peek(size) => var s := m.Peek(size); r := Bytes(s);
    case PeekRange(left, right) => var s := m.PeekRange(left, right); r := Bytes(s);
    case Take(size) =>
      var out := new u8[size];
      m.Take(size, out);
      assert out[..size] == out[..];
      r := Bytes(out[..]);
    case Skip(size) => m.Skip(size); r := Done;
    case Position => r := Count(m.cursor);
    case End => var b := m.End(); r := Truth(b);
  }

  method AskIstream(a: IstreamAdapter, call: Call) returns (r: Reply)
    requires a.Valid() && MayAsk(a.contents, a.absolutePosition, call) && a.absolutePosition <= |a.contents|
    modifies a, a.stream
    ensures a.Valid() && a.absolutePosition == Moved(old(a.absolutePosition), call) && a.absolutePosition <= |a.contents|
    ensures r == Answer(a.contents, old(a.absolutePosition), call)
  {
    hide IstreamAdapter.Buffered, IstreamAdapter.Fetched, WholeBlocks;
    match call
    case Has(size) => var b := a.Has(size); r := Truth(b);
    case Peek(size) => var s := a.Peek(size); r := Bytes(s);
    case PeekRange(left, right) => var s := a.PeekRange(left, right); r := Bytes(s);
    case Take(size) =>
      var out := new u8[size];
      a.Take(size, out);
      assert out[..size] == out[..];
      r := Bytes(out[..]);
    case Skip(size) => a.Skip(size); r := Done;
    case Position => r := Count(a.absolutePosition);
    case End => var b := a.End(); r := Truth(b);
  }

  /** Whatever is asked, and however the stream delivers, the two forms answer the same. */
  method SameAnswers(contents: seq<u8>, blocks: bool, script: seq<Call>) returns (simple: seq<Reply>, buffered: seq<Reply>)
    ensures simple == buffered == Answers(contents, 0, script)
  {
    hide Answer, MayAsk, Moved, WholeBlocks, IstreamAdapter.Buffered, IstreamAdapter.Fetched;
    var m := new MemoryStreamAdapter(contents);
    var source := new Source(contents, blocks);
    var a := new IstreamAdapter(source);
    simple, buffered := [], [];
    ghost var whole := Answers(contents, 0, script);
    for i := 0 to |script|
      invariant fresh(m) && fresh(source) && fresh(a) && a.stream == source && a.Valid()
      invariant m.bytes == a.contents == contents && m.cursor == a.absolutePosition <= |contents|
      invariant simple == buffered && whole == simple + Answers(contents, m.cursor, script[i..])
    {
      if !MayAsk(contents, m.cursor, script[i]) {
        assert script[i..][0] == script[i];
        assert Answers(contents, m.cursor, script[i..]) == [] && simple + [] == simple;
        return;
      }
      AnswersOneMore(contents, m.cursor, script[i..], simple);
      assert script[i..][1..] == script[i + 1..];
      var first := AskMemory(m, script[i]);
      var second := AskIstream(a, script[i]);
      simple, buffered := simple + [first], buffered + [second];
    }
    assert script[|script|..] == [];
    assert simple + [] == simple;
  }

  lemma AnswersOneMore(contents: seq<u8>, position: nat, script: seq<Call>, sofar: seq<Reply>)
    requires position <= |contents| && script != [] && MayAsk(contents, position, script[0])
    ensures sofar + Answers(contents, position, script)
         == sofar + [Answer(contents, position, script[0])] + Answers(contents, Moved(position, script[0]), script[1..])
  {
  }
}
