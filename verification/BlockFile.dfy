/** A file of compressed blocks: an encoder that cuts a byte stream into framed blocks, and a
    decoder whose loaded block is a cache over the flat decoded stream. */
module BlockFile {
  import opened BitNumbers
  import opened MemFile

  /** The buffer encoder and decoder, and the marker that opens each block. */
  datatype Codec = Codec(marker: nat, encode: seq<byte> -> seq<byte>, decode: seq<byte> -> seq<byte>)

  const MAX_PACKED: nat := 1024 * 1024 * 16
  const MAX_UNPACKED: nat := 1024 * 1024 * 256
  const TWO32: nat := 0x1_0000_0000

  ghost predicate CodecOK(c: Codec) {
    && 0 < c.marker < TWO32
    && forall raw: seq<byte> :: raw != [] ==> c.encode(raw) != [] && c.decode(c.encode(raw)) == raw
  }

  /** A 32-bit value as it lies in the file: four bytes, low byte first. */
  function LE32(n: nat): (r: seq<byte>)
    ensures |r| == 4
  {
    [n % 256, n / 256 % 256, n / 256 / 256 % 256, n / 256 / 256 / 256 % 256]
  }

  function FromLE32(bytes: seq<byte>): nat
    requires |bytes| == 4
  {
    var b: seq<nat> := bytes;
    b[0] + 256 * b[1] + 65536 * b[2] + 16777216 * b[3]
  }

  lemma LE32RoundTrip(n: nat)
    ensures FromLE32(LE32(n)) == n % TWO32
  {
    var n1, n2, n3 := n / 256, n / 256 / 256, n / 256 / 256 / 256;
    var v: nat := n % 256 + 256 * (n1 % 256 + 256 * (n2 % 256 + 256 * (n3 % 256)));
    assert FromLE32(LE32(n)) == v;
    assert n == n3 / 256 * TWO32 + v;
    ModUnique(n, TWO32, n3 / 256, v);
  }

  lemma LowByteFirst(b: seq<byte>)
    requires |b| == 4
    ensures FromLE32(b) == b[0] as nat + 256 * (b[1] as nat + 256 * (b[2] as nat + 256 * b[3] as nat))
  {
  }

  function Frame(c: Codec, raw: seq<byte>): seq<byte> {
    LE32(c.marker) + LE32(|raw|) + LE32(|c.encode(raw)|) + c.encode(raw)
  }

  function Frames(c: Codec, blocks: seq<seq<byte>>): seq<byte> {
    if blocks == [] then [] else Frames(c, blocks[..|blocks| - 1]) + Frame(c, blocks[|blocks| - 1])
  }

  function Flat(blocks: seq<seq<byte>>): seq<byte> {
    if blocks == [] then [] else Flat(blocks[..|blocks| - 1]) + blocks[|blocks| - 1]
  }

  lemma FlatSnoc(blocks: seq<seq<byte>>, raw: seq<byte>)
    ensures Flat(blocks + [raw]) == Flat(blocks) + raw
  {
    assert (blocks + [raw])[..|blocks|] == blocks;
  }

  lemma FramesSnoc(c: Codec, blocks: seq<seq<byte>>, raw: seq<byte>)
    ensures Frames(c, blocks + [raw]) == Frames(c, blocks) + Frame(c, raw)
  {
    assert (blocks + [raw])[..|blocks|] == blocks;
  }

  lemma {:induction false} FramesFirst(c: Codec, blocks: seq<seq<byte>>)
    requires blocks != []
    ensures Frames(c, blocks) == Frame(c, blocks[0]) + Frames(c, blocks[1..])
  {
    hide Frame;
    var n := |blocks| - 1;
    if n > 0 {
      FramesFirst(c, blocks[..n]);
      assert blocks[1..][..n - 1] == blocks[..n][1..];
    }
  }

  lemma {:induction false} FlatFirst(blocks: seq<seq<byte>>)
    requires blocks != []
    ensures Flat(blocks) == blocks[0] + Flat(blocks[1..])
  {
    var n := |blocks| - 1;
    if n > 0 {
      FlatFirst(blocks[..n]);
      assert blocks[1..][..n - 1] == blocks[..n][1..];
    }
  }

  lemma {:induction false} FlatSplit(blocks: seq<seq<byte>>, k: nat)
    requires k <= |blocks|
    ensures Flat(blocks) == Flat(blocks[..k]) + Flat(blocks[k..])
    decreases |blocks| - k
  {
    if k == |blocks| {
      assert blocks[..k] == blocks;
    } else {
      FlatSplit(blocks, k + 1);
      assert blocks[..k + 1][..k] == blocks[..k];
      FlatFirst(blocks[k..]);
      assert blocks[k..][1..] == blocks[k + 1..];
    }
  }

  /** A block the decoder accepts. */
  predicate BlockOK(c: Codec, raw: seq<byte>) {
    raw != [] && |raw| < MAX_UNPACKED && |c.encode(raw)| < MAX_PACKED
  }

  lemma Assemble(file: seq<byte>, a: seq<byte>, b: seq<byte>, c: seq<byte>, d: seq<byte>)
    ensures file + a + b + c + d == file + (a + b + c + d)
    ensures c == d == [] ==> file + (a + b) == file + a + b
  {
  }

  lemma Reassociate(a: seq<byte>, b: seq<byte>, c: seq<byte>, d: seq<byte>, e: seq<byte>)
    ensures a + b + c + d + e == a + (b + (c + (d + e)))
  {
  }

  // ---- Encoding ----------------------------------------------------------------------------

  class Encoder {
    const fp: DynamicMem
    const buffer: DynamicMem
    const codec: Codec
    const bufferSize: nat
    var open: bool

    /** The blocks written so far, and the file before them. */
    ghost var blocks: seq<seq<byte>>
    ghost const before: seq<byte>

    ghost predicate Valid()
      reads this, fp, buffer
    {
      && fp != buffer && fp.Valid() && buffer.Valid() && CodecOK(codec) && bufferSize > 0
      && buffer.here == buffer.stop < bufferSize
      && fp.here == fp.stop && fp.Contents() == before + Frames(codec, blocks)
      && (forall raw :: raw in blocks ==> raw != [])
      && (!open ==> buffer.stop == 0)
    }

    /** Every byte accepted so far. */
    ghost function Written(): seq<byte>
      requires Valid()
      reads this, fp, buffer
    {
      Flat(blocks) + buffer.Contents()
    }

    constructor (fp: DynamicMem, codec: Codec, bufferSize: nat)
      requires fp.Valid() && fp.here == fp.stop && CodecOK(codec) && bufferSize > 0
      ensures Valid() && open && this.fp == fp && fresh(buffer) && this.codec == codec && this.bufferSize == bufferSize
      ensures before == fp.Contents() && blocks == [] && Written() == []
    {
      this.fp := fp;
      this.codec := codec;
      this.bufferSize := bufferSize;
      open := true;
      buffer := new DynamicMem(bufferSize);
      blocks := [];
      before := fp.Contents();
    }

    method WriteRaw(bytes: seq<byte>) returns (n: nat)
      requires Valid()
      modifies this, fp, buffer
      ensures Valid() && open == old(open)
      ensures open ==> n == |bytes| && Written() == old(Written()) + bytes
      ensures !open ==> n == 0 && Written() == old(Written()) && blocks == old(blocks)
      ensures blocks == old(blocks) || exists raw :: blocks == old(blocks) + [raw] && |raw| < bufferSize + |bytes|
    {
      hide Flat, Frames, Frame, CodecOK;
      if !open {
        return 0;
      }
      ghost var was := buffer.Contents();
      n := buffer.WriteRaw(bytes);
      assert buffer.Contents() == was + bytes;
      FlatSnoc(blocks, was + bytes);
      assert Flat(blocks) + was + bytes == Flat(blocks) + (was + bytes);
      if buffer.GetSize() >= bufferSize {
        var ok := FlushBufferToFile();
        if !ok {
          assert false;
        }
      }
    }

    /** The encoder's state with any amount of bytes buffered. */
    ghost predicate Ready()
      reads this, fp, buffer
    {
      && fp != buffer && fp.Valid() && buffer.Valid() && CodecOK(codec) && bufferSize > 0
      && buffer.here == buffer.stop
      && fp.here == fp.stop && fp.Contents() == before + Frames(codec, blocks)
      && (forall raw :: raw in blocks ==> raw != [])
    }

    /** Frames what is buffered as one block. */
    method FlushBufferToFile() returns (ok: bool)
      requires Ready() && open
      modifies this`blocks, fp, buffer
      ensures Valid() && ok == (old(buffer.Contents()) != [])
      ensures blocks == if ok then old(blocks) + [old(buffer.Contents())] else old(blocks)
      ensures buffer.Contents() == []
    {
      hide Flat, Frames, LE32;
      var raw := buffer.data[..buffer.stop];
      if |raw| == 0 {
        return false;
      }
      var output := codec.encode(raw);
      if |output| == 0 {
        assert false;
      }
      ghost var file := fp.Contents();
      Append(LE32(codec.marker));
      Append(LE32(|raw|));
      Append(LE32(|output|));
      Append(output);
      FramesSnoc(codec, blocks, raw);
      Assemble(file, LE32(codec.marker), LE32(|raw|), LE32(|output|), output);
      Assemble(before, Frames(codec, blocks), Frame(codec, raw), [], []);
      buffer.Reset();
      blocks := blocks + [raw];
      ok := true;
    }

    method Append(bytes: seq<byte>)
      requires fp.Valid() && fp.here == fp.stop
      modifies fp
      ensures fp.Valid() && fp.here == fp.stop && fp.Contents() == old(fp.Contents()) + bytes
    {
      var _ := fp.WriteRaw(bytes);
    }

    method Flush() returns (ok: bool)
      requires Valid()
      modifies this, fp, buffer
      ensures Valid() && open == old(open) && ok == open
      ensures Written() == old(Written())
      ensures open ==> buffer.stop == 0
      ensures blocks == old(blocks) || exists raw :: blocks == old(blocks) + [raw] && |raw| < bufferSize
    {
      if !open {
        return false;
      }
      FlatSnoc(blocks, buffer.Contents());
      var _ := FlushBufferToFile();
      ok := true;
    }

    /** Flushes what is buffered and closes the encoder; nothing is accepted afterwards. */
    method Invalidate()
      requires Valid()
      modifies this, fp, buffer
      ensures Valid() && !open && buffer.Contents() == []
      ensures Written() == old(Written()) && Flat(blocks) == Written()
      ensures blocks == old(blocks) || exists raw :: blocks == old(blocks) + [raw] && |raw| < bufferSize
    {
      var _ := Flush();
      open := false;
      assert Flat(blocks) + [] == Flat(blocks);
    }
  }

  // ---- Decoding ----------------------------------------------------------------------------

  /** The source holds well-formed blocks from `p` to its end. */
  ghost predicate WellFormed(file: seq<byte>, p: nat, c: Codec, blocks: seq<seq<byte>>) {
    && p <= |file|
    && From(file, p) == Frames(c, blocks)
    && forall raw :: raw in blocks ==> BlockOK(c, raw)
  }

  class Decoder {
    const src: DynamicMem
    const codec: Codec
    const basePos: nat
    var buffer: seq<byte>
    var pos: nat
    var cur: nat
    var size: nat

    /** The blocks of the source, and how many have been read from it. */
    ghost const blocks: seq<seq<byte>>
    ghost var loaded: nat

    ghost predicate Valid()
      reads this, src
    {
      && src.Valid() && CodecOK(codec)
      && WellFormed(src.Contents(), basePos, codec, blocks)
      && loaded <= |blocks|
      && From(src.Contents(), src.here) == Frames(codec, blocks[loaded..])
      && buffer == (if loaded == 0 then [] else blocks[loaded - 1])
      && cur <= |buffer|
      && pos == |Flat(blocks[..if loaded == 0 then 0 else loaded - 1])| + cur
    }

    /** The decoded stream. */
    ghost function Stream(): seq<byte> {
      Flat(blocks)
    }

    ghost function Source(): seq<byte>
      requires Valid()
      reads this, src
    {
      src.Contents()
    }

    constructor (src: DynamicMem, codec: Codec, size: nat, ghost blocks: seq<seq<byte>>)
      requires src.Valid() && CodecOK(codec) && src.here <= src.stop
      requires WellFormed(src.Contents(), src.here, codec, blocks)
      ensures Valid() && pos == 0 && this.src == src && this.size == size && this.blocks == blocks
      ensures src.Contents() == old(src.Contents())
    {
      this.src := src;
      this.codec := codec;
      this.size := size;
      this.blocks := blocks;
      basePos := src.here;
      buffer, pos, cur, loaded := [], 0, 0, 0;
      assert blocks[0..] == blocks && Flat([]) == [];
    }

    method ResetPos()
      requires Valid()
      modifies this`pos, this`cur, this`buffer, this`loaded, src`here
      ensures Valid() && pos == 0 && cur == 0 && Source() == old(Source())
    {
      pos := 0;
      cur := 0;
      buffer := [];
      loaded := 0;
      src.SeekSet(basePos);
      assert blocks[0..] == blocks && Flat([]) == [];
    }

    /** `ReadRaw`: the bytes of the stream from the position on, as many as there are. */
    method ReadRaw(n: nat) returns (out: seq<byte>)
      requires Valid()
      modifies this`pos, this`cur, this`buffer, this`loaded, src`here
      ensures Valid() && Source() == old(Source())
      ensures out == ReadAt(Stream(), old(pos), n)
      ensures old(pos) <= |Stream()| && pos == old(pos) + |out|
    {
      hide Decoder.Valid, Flat, Frames, Frame, WellFormed;
      out := [];
      ghost var start := pos;
      Position();
      while true
        invariant Valid() && Source() == old(Source())
        invariant |out| <= n && pos == start + |out| <= |Stream()|
        invariant out == Stream()[start..pos]
        decreases |blocks| - loaded
      {
        Position();
        if cur < |buffer| {
          var toRead := Min(|buffer| - cur, n - |out|);
          if toRead != 0 {
            Copied(Stream(), start, pos, buffer, cur, toRead);
            out := out + buffer[cur..cur + toRead];
            Advance(toRead);
          }
          if |out| >= n {
            break;
          }
        }
        var read := ReadBufferFromFile();
        if read == 0 {
          Position();
          break;
        }
      }
    }

    method Advance(n: nat)
      requires Valid() && n <= |buffer| - cur
      modifies this`pos, this`cur
      ensures Valid() && pos == old(pos) + n && cur == old(cur) + n
    {
      cur := cur + n;
      pos := pos + n;
    }

    static lemma Copied(s: seq<byte>, start: nat, pos: nat, buffer: seq<byte>, cur: nat, n: nat)
      requires start <= pos <= |s| && cur + n <= |buffer| && |buffer| - cur <= |s| - pos
      requires s[pos..pos + (|buffer| - cur)] == buffer[cur..]
      ensures s[start..pos] + buffer[cur..cur + n] == s[start..pos + n]
    {
      assert buffer[cur..cur + n] == buffer[cur..][..n] == s[pos..pos + n];
    }

    /** Where the loaded block lies in the stream. */
    lemma Position()
      requires Valid()
      ensures loaded <= |blocks| && cur <= |buffer| && pos <= |Stream()| && |buffer| - cur <= |Stream()| - pos
      ensures Stream()[pos..pos + (|buffer| - cur)] == buffer[cur..]
      ensures loaded == |blocks| ==> |Stream()| == pos + (|buffer| - cur)
    {
      hide Frames, WellFormed;
      if loaded > 0 {
        var k := loaded - 1;
        FlatSplit(blocks, k);
        FlatFirst(blocks[k..]);
        var before, block, after := Flat(blocks[..k]), blocks[k], Flat(blocks[k..][1..]);
        assert Stream() == before + (block + after);
        assert (before + (block + after))[|before| + cur..|before| + |block|] == block[cur..];
      }
    }

    /** Loads the next block; reports its size, zero at the end of the blocks. */
    method ReadBufferFromFile() returns (read: nat)
      requires Valid() && cur == |buffer|
      modifies this`cur, this`buffer, this`loaded, src`here
      ensures Valid() && Source() == old(Source())
      ensures old(loaded) < |blocks| ==> loaded == old(loaded) + 1 && read == |buffer| > 0 && cur == 0
      ensures old(loaded) == |blocks| ==> read == 0 && loaded == old(loaded) && buffer == old(buffer) && cur == old(cur)
    {
      hide Flat, Frames, Frame, LE32, WellFormed, MemFile.From;
      ghost var raw, tail := [], [];
      if loaded < |blocks| {
        raw, tail := NextFrame();
      }
      NextPosition();
      var marker := ReadLE32();
      if marker != codec.marker {
        assert loaded == |blocks|;
        return 0;
      }
      assert loaded < |blocks|;
      // The checks of the two sizes and of the packed length fail on no well-formed block.
      var unpackedSize := ReadLE32();
      if unpackedSize >= MAX_UNPACKED {
        assert false;
      }
      var packedSize := ReadLE32();
      if packedSize >= MAX_PACKED {
        assert false;
      }
      cur := 0;
      var packed := Take(packedSize);
      if |packed| != packedSize {
        assert false;
      }
      buffer := codec.decode(packed);
      loaded := loaded + 1;
      read := |buffer|;
    }

    /** Past the last block the source is at its end; before it, the next block starts here. */
    lemma NextPosition()
      requires Valid() && cur == |buffer|
      ensures loaded == |blocks| ==> From(src.Contents(), src.here) == []
      ensures pos == |Flat(blocks[..loaded])|
    {
      hide WellFormed;
      if loaded > 0 {
        assert blocks[..loaded][..loaded - 1] == blocks[..loaded - 1];
      }
    }

    /** The next block as the source holds it. */
    lemma NextFrame() returns (raw: seq<byte>, tail: seq<byte>)
      requires Valid() && loaded < |blocks|
      ensures raw == blocks[loaded] && tail == Frames(codec, blocks[loaded + 1..])
      ensures BlockOK(codec, raw)
      ensures From(src.Contents(), src.here)
              == LE32(codec.marker) + (LE32(|raw|) + (LE32(|codec.encode(raw)|) + (codec.encode(raw) + tail)))
    {
      hide Flat, LE32, Frames;
      raw, tail := blocks[loaded], Frames(codec, blocks[loaded + 1..]);
      FramesFirst(codec, blocks[loaded..]);
      assert blocks[loaded..][1..] == blocks[loaded + 1..];
      Assemble([], LE32(codec.marker), LE32(|raw|), LE32(|codec.encode(raw)|), codec.encode(raw));
      Reassociate(LE32(codec.marker), LE32(|raw|), LE32(|codec.encode(raw)|), codec.encode(raw), tail);
    }

    /** `ReadRaw` of the source, in terms of what is left of it. */
    method Take(n: nat) returns (out: seq<byte>)
      requires src.Valid()
      modifies src`here
      ensures src.Valid() && src.Contents() == old(src.Contents())
      ensures var rest := old(From(src.Contents(), src.here));
              var k := Min(n, |rest|);
              out == rest[..k] && From(src.Contents(), src.here) == rest[k..]
    {
      out := src.ReadRaw(n);
    }

    /** A 32-bit value, in a variable that starts at zero. */
    method ReadLE32() returns (v: nat)
      requires src.Valid()
      modifies src`here
      ensures src.Valid() && src.Contents() == old(src.Contents())
      ensures var rest := old(From(src.Contents(), src.here));
              && (rest == [] ==> v == 0 && From(src.Contents(), src.here) == [])
              && (forall n: nat, tail :: n < TWO32 && rest == LE32(n) + tail ==>
                    v == n && From(src.Contents(), src.here) == tail)
    {
      ghost var rest := From(src.Contents(), src.here);
      var out := Take(4);
      v := FromLE32(out + Zeros(4 - |out|));
      forall n: nat, tail | n < TWO32 && rest == LE32(n) + tail
        ensures v == n && From(src.Contents(), src.here) == tail
      {
        assert out == LE32(n) && rest[4..] == tail;
        LE32RoundTrip(n);
        assert out + [] == out;
      }
    }

    /** `Seek`: fails, at the end of the stream, when it would go past it. */
    method Seek(offset: int) returns (ok: bool)
      requires Valid()
      modifies this`pos, this`cur, this`buffer, this`loaded, src`here
      ensures Valid() && Source() == old(Source())
      ensures pos == Min(Max(0, old(pos) + offset), |Stream()|)
      ensures ok <==> old(pos) + offset <= |Stream()|
      decreases if offset < 0 then 2 else 0
    {
      hide Flat, Frames, WellFormed;
      Position();
      if offset == 0 {
        return true;
      }
      if offset < 0 {
        ok := SeekSet(pos + offset);
      } else {
        var out := ReadRaw(offset);
        ok := |out| == offset;
      }
    }

    /** `SeekSet`: backwards within the loaded block it moves the cursor, further back it starts over. */
    method SeekSet(target: int) returns (ok: bool)
      requires Valid()
      modifies this`pos, this`cur, this`buffer, this`loaded, src`here
      ensures Valid() && Source() == old(Source())
      ensures pos == Min(Max(0, target), |Stream()|)
      ensures ok <==> target <= |Stream()|
      decreases 1
    {
      hide Flat, Frames, WellFormed;
      Position();
      var offset := Max(0, target);
      if offset == pos {
        return true;
      }
      if offset > pos {
        ok := Seek(offset - pos);
      } else {
        var diff := pos - offset;
        if diff <= cur {
          cur := cur - diff;
          pos := pos - diff;
          ok := true;
        } else {
          ResetPos();
          ok := Seek(offset);
        }
      }
    }

    /** `GetSize`: the size given at construction, or else found by reading everything once; the
        position is put back. */
    method GetSize() returns (n: nat)
      requires Valid()
      modifies this`pos, this`cur, this`buffer, this`loaded, this`size, src`here
      ensures Valid() && Source() == old(Source())
      ensures pos == old(pos) && n == size
      ensures size == if old(size) == 0 then |Stream()| else old(size)
    {
      hide Flat, Frames, WellFormed;
      Position();
      if size == 0 {
        var was := pos;
        var _ := SeekSet(0);
        while true
          invariant Valid() && Source() == old(Source())
          invariant size == pos <= |Stream()|
          decreases |Stream()| - pos
        {
          var out := ReadRaw(4096);
          if |out| == 0 {
            break;
          }
          size := size + |out|;
        }
        var _ := SeekSet(was);
      }
      n := size;
    }

    method SeekEnd(offset: int) returns (ok: bool)
      requires Valid()
      modifies this`pos, this`cur, this`buffer, this`loaded, this`size, src`here
      ensures Valid() && Source() == old(Source())
      ensures size == if old(size) == 0 then |Stream()| else old(size)
      ensures pos == if offset < size then Min(size - offset, |Stream()|) else 0
      ensures ok <==> (if offset < size then size - offset else 0) <= |Stream()|
    {
      var n := GetSize();
      ok := SeekSet(if offset < n then n - offset else 0);
    }
  }

  // ---- Runs of a decoder ---------------------------------------------------------------------

  datatype Access = Read(n: nat) | Skip(offset: int) | GoTo(offset: int) | GoToEnd(offset: int) | AskSize

  datatype Answer = Bytes(bytes: seq<byte>) | Moved(ok: bool) | Size(n: nat)

  /** The position after an access to a flat stream. */
  function PosAfter(stream: seq<byte>, pos: nat, a: Access): (r: nat)
    requires pos <= |stream|
    ensures r <= |stream|
  {
    match a
    case Read(n) => Min(pos + n, |stream|)
    case Skip(offset) => Min(Max(0, pos + offset), |stream|)
    case GoTo(offset) => Min(Max(0, offset), |stream|)
    case GoToEnd(offset) => if offset < |stream| then Min(|stream| - offset, |stream|) else 0
    case AskSize => pos
  }

  function AnswerOf(stream: seq<byte>, pos: nat, a: Access): Answer {
    match a
    case Read(n) => Bytes(ReadAt(stream, pos, n))
    case Skip(offset) => Moved(pos + offset <= |stream|)
    case GoTo(offset) => Moved(offset <= |stream|)
    case GoToEnd(offset) => Moved((if offset < |stream| then |stream| - offset else 0) <= |stream|)
    case AskSize => Size(|stream|)
  }

  function AnswersOf(stream: seq<byte>, pos: nat, run: seq<Access>): seq<Answer>
    requires pos <= |stream|
    decreases |run|
  {
    if run == [] then []
    else [AnswerOf(stream, pos, run[0])] + AnswersOf(stream, PosAfter(stream, pos, run[0]), run[1..])
  }

  method Perform(d: Decoder, a: Access) returns (r: Answer)
    requires d.Valid() && (d.size == 0 || d.size == |d.Stream()|)
    modifies d, d.src
    ensures d.Valid() && (d.size == 0 || d.size == |d.Stream()|)
    ensures old(d.pos) <= |d.Stream()| && d.pos == PosAfter(d.Stream(), old(d.pos), a)
    ensures r == AnswerOf(d.Stream(), old(d.pos), a)
  {
    hide Flat, Frames, WellFormed;
    d.Position();
    match a {
      case Read(n) =>
        var out := d.ReadRaw(n);
        r := Bytes(out);
      case Skip(offset) =>
        var ok := d.Seek(offset);
        r := Moved(ok);
      case GoTo(offset) =>
        var ok := d.SeekSet(offset);
        r := Moved(ok);
      case GoToEnd(offset) =>
        var ok := d.SeekEnd(offset);
        r := Moved(ok);
      case AskSize =>
        var n := d.GetSize();
        r := Size(n);
    }
  }

  /** Over any run of reads, seeks and size queries, the decoder answers as the flat stream would. */
  method PerformAll(d: Decoder, run: seq<Access>) returns (answers: seq<Answer>)
    requires d.Valid() && (d.size == 0 || d.size == |d.Stream()|)
    modifies d, d.src
    ensures d.Valid() && old(d.pos) <= |d.Stream()|
    ensures answers == AnswersOf(d.Stream(), old(d.pos), run)
  {
    hide Flat, Frames, WellFormed, AnswerOf, PosAfter;
    answers := [];
    d.Position();
    assert run[0..] == run;
    for i := 0 to |run|
      invariant d.Valid() && (d.size == 0 || d.size == |d.Stream()|) && d.pos <= |d.Stream()|
      invariant answers + AnswersOf(d.Stream(), d.pos, run[i..]) == AnswersOf(d.Stream(), old(d.pos), run)
    {
      assert run[i..][1..] == run[i + 1..];
      ghost var pos := d.pos;
      var r := Perform(d, run[i]);
      assert answers + ([r] + AnswersOf(d.Stream(), d.pos, run[i + 1..])) == answers + [r] +
          AnswersOf(d.Stream(), d.pos, run[i + 1..]);
      answers := answers + [r];
    }
  }

  // ---- Round trip ----------------------------------------------------------------------------

  datatype Send = Put(bytes: seq<byte>) | Sync

  function Sent(run: seq<Send>): seq<byte> {
    if run == [] then [] else Sent(run[..|run| - 1]) + (match run[|run| - 1] case Put(bytes) => bytes case Sync => [])
  }

  /** Runs the encoder over a script of writes and flushes and closes it. Every block is shorter
      than the buffer plus the longest write. */
  method Encode(fp: DynamicMem, codec: Codec, bufferSize: nat, run: seq<Send>) returns (ghost blocks: seq<seq<byte>>)
    requires fp.Valid() && fp.here == fp.stop && CodecOK(codec) && bufferSize > 0
    modifies fp
    ensures fp.Valid() && fp.here == fp.stop && fp.Contents() == old(fp.Contents()) + Frames(codec, blocks)
    ensures Flat(blocks) == Sent(run)
    ensures forall raw :: raw in blocks ==> raw != [] && |raw| < bufferSize + Longest(run)
  {
    hide Flat, Frames, Frame, CodecOK;
    var e := new Encoder(fp, codec, bufferSize);
    LongestBounds(run, 0);
    for i := 0 to |run|
      invariant e.Valid() && e.open && e.fp == fp && e.codec == codec && e.bufferSize == bufferSize &&
          fresh(e) && fresh(e.buffer)
      invariant e.before == old(fp.Contents()) && e.Written() == Sent(run[..i])
      invariant forall raw :: raw in e.blocks ==> |raw| < bufferSize + Longest(run)
    {
      assert run[..i + 1][..i] == run[..i];
      LongestBounds(run, i);
      match run[i] {
        case Put(bytes) =>
          var _ := e.WriteRaw(bytes);
        case Sync =>
          var _ := e.Flush();
      }
    }
    assert run[..|run|] == run;
    e.Invalidate();
    blocks := e.blocks;
  }

  /** The length of the longest write. */
  function Longest(run: seq<Send>): nat {
    if run == [] then 0
    else Max(Longest(run[1..]), match run[0] case Put(bytes) => |bytes| case Sync => 0)
  }

  lemma {:induction false} LongestBounds(run: seq<Send>, i: nat)
    ensures i < |run| && run[i].Put? ==> |run[i].bytes| <= Longest(run)
  {
    if 0 < i < |run| {
      LongestBounds(run[1..], i - 1);
    }
  }

  /** Whatever is written and flushed through the encoder, the decoder reads back, whole, from the
      place where the encoder started, provided the blocks are within the decoder's limits. */
  method EncodeThenDecode(fp: DynamicMem, codec: Codec, bufferSize: nat, run: seq<Send>) returns (out: seq<byte>)
    requires fp.Valid() && fp.here == fp.stop && CodecOK(codec) && bufferSize > 0
    requires bufferSize + Longest(run) <= MAX_UNPACKED
    requires forall raw: seq<byte> :: 0 < |raw| < bufferSize + Longest(run) ==> |codec.encode(raw)| < MAX_PACKED
    modifies fp
    ensures out == Sent(run)
  {
    hide Flat, Frames, Frame, CodecOK;
    var start := fp.here;
    ghost var blocks := Encode(fp, codec, bufferSize, run);
    assert From(fp.Contents(), start) == Frames(codec, blocks);
    fp.SeekSet(start);
    var d := new Decoder(fp, codec, 0, blocks);
    var n := d.GetSize();
    out := d.ReadRaw(n);
  }
}
