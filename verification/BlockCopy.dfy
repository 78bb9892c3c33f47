/** Whole transfers through the block codec: `FileBufferEncode` and `FileBufferDecode`, which copy with
    the loop of `WriteFile`. */
module BlockCopies {
  import opened BitNumbers
  import opened MemFile
  import opened BlockFile

  /** The size of the buffer that `WriteFile` copies through. */
  const STACK_BUFFER: nat := 0x2000

  const ENCODER_BUFFER: nat := 0xFFFF

  /** A file after bytes are copied to position `p`; copying nothing writes nothing. */
  function Copied(file: seq<byte>, p: nat, bytes: seq<byte>): seq<byte>
    requires p <= |file| + 1
  {
    if bytes == [] then file else Overwrite(file, p, bytes)
  }

  /** The first `n` bytes of a stream, or all of it. */
  function Head(stream: seq<byte>, n: nat): seq<byte> {
    stream[..Min(n, |stream|)]
  }

  lemma CopiedMore(file: seq<byte>, p: nat, done: seq<byte>, more: seq<byte>)
    requires p <= |file| + 1 && more != []
    ensures p + |done| <= |Copied(file, p, done)| + 1
    ensures Copied(file, p, done + more) == Overwrite(Copied(file, p, done), p + |done|, more)
  {
    if done == [] {
      assert done + more == more;
    } else {
      OverwriteTwice(file, p, done, more);
    }
  }

  /** `WriteFile` from a decoder: copies `n` bytes, or what is left. */
  method CopyDecoded(dec: Decoder, n: nat, dest: DynamicMem) returns (copied: nat)
    requires dec.Valid() && dest.Valid() && dest != dec.src && n > 0 && dec.pos == 0
    modifies dec, dec.src, dest
    ensures dec.Valid() && dest.Valid()
    ensures copied == |Head(dec.Stream(), n)|
    ensures dest.Contents() == Copied(old(dest.Contents()), old(dest.here), Head(dec.Stream(), n))
    ensures dest.here == old(dest.here) + copied
  {
    hide Decoder.Valid, Flat, Copied, Overwrite;
    copied := 0;
    ghost var stream, file, p := dec.Stream(), dest.Contents(), dest.here;
    assert Copied(file, p, stream[..0]) == file by { CopiedNothing(file, p); }
    while true
      invariant dec.Valid() && dest.Valid() && dec.Stream() == stream
      invariant dec.pos == copied <= |stream| && copied < n
      invariant dest.Contents() == Copied(file, p, stream[..copied]) && dest.here == p + copied
      decreases |stream| - copied
    {
      var toRead := Min(n - copied, STACK_BUFFER);
      var bytes := dec.ReadRaw(toRead);
      if |bytes| == 0 {
        assert copied == |stream|;
        break;
      }
      assert stream[..copied + |bytes|] == stream[..copied] + bytes;
      CopiedMore(file, p, stream[..copied], bytes);
      copied := copied + |bytes|;
      var _ := dest.WriteRaw(bytes);
      if copied >= n {
        break;
      }
    }
  }

  lemma CopiedNothing(file: seq<byte>, p: nat)
    requires p <= |file| + 1
    ensures Copied(file, p, []) == file
  {
  }

  /** `FileBufferDecode`: the first size is how many decoded bytes to copy, the second is not looked at. */
  method FileBufferDecode(codec: Codec, src: DynamicMem, srcSize: nat, dest: DynamicMem, destSize: nat,
                          ghost blocks: seq<seq<byte>>) returns (copied: nat)
    requires src.Valid() && dest.Valid() && src != dest && CodecOK(codec) && src.here <= src.stop
    requires WellFormed(src.Contents(), src.here, codec, blocks)
    modifies src, dest
    ensures dest.Valid() && copied == |Head(Flat(blocks), srcSize)|
    ensures dest.Contents() == Copied(old(dest.Contents()), old(dest.here), Head(Flat(blocks), srcSize))
    ensures dest.here == old(dest.here) + copied
  {
    hide Flat, Overwrite, WellFormed;
    if srcSize == 0 {
      return 0;
    }
    var dec := new Decoder(src, codec, srcSize, blocks);
    copied := CopyDecoded(dec, srcSize, dest);
  }

  /** Decoding gives the whole stream exactly if the size asked for is at least its length. */
  lemma WholeIffAsked(blocks: seq<seq<byte>>, srcSize: nat)
    ensures Head(Flat(blocks), srcSize) == Flat(blocks) <==> srcSize >= |Flat(blocks)|
  {
  }

  /** Reading on after `done` bytes have been read. */
  lemma ReadOn(file: seq<byte>, p: nat, done: nat, k: nat, n: nat)
    requires |ReadAt(file, p, done)| == done && 0 < k && done + k <= n
    ensures var more := ReadAt(file, p + done, k);
            && |more| <= k && ReadAt(file, p, done + |more|) == ReadAt(file, p, done) + more
            && (more == [] ==> ReadAt(file, p, done) == ReadAt(file, p, n))
            && (more != [] ==> p + done + |more| == Min(p + done + k, |file|) && p + done < |file|)
  {
  }

  /** `WriteFile` into an encoder: copies `n` bytes of a file, or what is left of it. */
  method CopyEncoded(src: DynamicMem, n: nat, enc: Encoder) returns (copied: nat)
    requires src.Valid() && enc.Valid() && enc.open && src != enc.fp && src != enc.buffer && n > 0
    modifies src, enc, enc.fp, enc.buffer
    ensures src.Valid() && enc.Valid() && enc.open && src.Contents() == old(src.Contents())
    ensures var bytes := ReadAt(old(src.Contents()), old(src.here), n);
            copied == |bytes| && enc.Written() == old(enc.Written()) + bytes
    ensures forall raw :: raw in enc.blocks && raw !in old(enc.blocks) ==> |raw| < enc.bufferSize + STACK_BUFFER
  {
    hide Encoder.Valid, Encoder.Written, Flat, Frames, Frame, CodecOK, DynamicMem.Contents, ReadAt;
    copied := 0;
    ghost var written, file, p := enc.Written(), src.Contents(), src.here;
    NothingRead(file, p, written);
    while true
      invariant src.Valid() && enc.Valid() && enc.open && src.Contents() == file
      invariant copied < n && copied == |ReadAt(file, p, copied)| && src.here == p + copied
      invariant enc.Written() == written + ReadAt(file, p, copied)
      invariant forall raw :: raw in enc.blocks && raw !in old(enc.blocks) ==> |raw| < enc.bufferSize + STACK_BUFFER
      decreases |file| - copied
    {
      var toRead := Min(n - copied, STACK_BUFFER);
      ReadOn(file, p, copied, toRead, n);
      var bytes := src.ReadRaw(toRead);
      if |bytes| == 0 {
        break;
      }
      assert written + ReadAt(file, p, copied) + bytes == written + (ReadAt(file, p, copied) + bytes);
      copied := copied + |bytes|;
      var _ := enc.WriteRaw(bytes);
      if copied >= n {
        break;
      }
    }
  }

  lemma NothingRead(file: seq<byte>, p: nat, written: seq<byte>)
    ensures ReadAt(file, p, 0) == [] && written + ReadAt(file, p, 0) == written
  {
  }

  /** `FileBufferEncode`: encodes `srcSize` bytes of a file, or what is left of it, at the end of another.
      The encoder is flushed and closed when the call gives it up. */
  method FileBufferEncode(codec: Codec, src: DynamicMem, srcSize: nat, dest: DynamicMem)
    returns (copied: nat, ghost blocks: seq<seq<byte>>)
    requires src.Valid() && dest.Valid() && src != dest && CodecOK(codec) && dest.here == dest.stop
    modifies src, dest
    ensures src.Valid() && src.Contents() == old(src.Contents())
    ensures dest.Valid() && dest.here == dest.stop
    ensures dest.Contents() == old(dest.Contents()) + Frames(codec, blocks)
    ensures Flat(blocks) == ReadAt(old(src.Contents()), old(src.here), srcSize) && copied == |Flat(blocks)|
    ensures forall raw :: raw in blocks ==> raw != [] && |raw| < ENCODER_BUFFER + STACK_BUFFER
  {
    hide Flat, Frames, Frame, CodecOK;
    blocks := [];
    if srcSize == 0 {
      EmptyBlocks(codec, dest.Contents());
      return 0, blocks;
    }
    var enc := new Encoder(dest, codec, ENCODER_BUFFER);
    copied := CopyEncoded(src, srcSize, enc);
    enc.Invalidate();
    blocks := enc.blocks;
  }

  lemma EmptyBlocks(codec: Codec, file: seq<byte>)
    ensures Flat([]) == [] && file + Frames(codec, []) == file
  {
  }

  /** Encoding part of a file at the end of another and decoding it from there gives the first bytes of
      that part, as many as are asked for. */
  method TransferBack(codec: Codec, src: DynamicMem, srcSize: nat, packed: DynamicMem, asked: nat, dest: DynamicMem)
    returns (copied: nat)
    requires src.Valid() && packed.Valid() && dest.Valid() && src != packed && src != dest && packed != dest
    requires CodecOK(codec) && packed.here == packed.stop
    requires forall raw: seq<byte> :: 0 < |raw| < ENCODER_BUFFER + STACK_BUFFER ==> |codec.encode(raw)| < MAX_PACKED
    modifies src, packed, dest
    ensures dest.Valid()
    ensures var bytes := Head(ReadAt(old(src.Contents()), old(src.here), srcSize), asked);
            copied == |bytes| && dest.Contents() == Copied(old(dest.Contents()), old(dest.here), bytes)
  {
    hide Flat, Frames, Frame, CodecOK, Head, Copied;
    var start := packed.here;
    var _, blocks := FileBufferEncode(codec, src, srcSize, packed);
    assert From(packed.Contents(), start) == Frames(codec, blocks);
    packed.SeekSet(start);
    copied := FileBufferDecode(codec, packed, asked, dest, srcSize, blocks);
  }

  // ---- An input that loses bytes ---------------------------------------------------------------

  const RUN: seq<byte> := Zeros(100)

  function RunEncode(raw: seq<byte>): seq<byte> {
    if raw == RUN then [1] else [0] + raw
  }

  function RunDecode(packed: seq<byte>): seq<byte> {
    if packed == [1] then RUN else if packed == [] then [] else packed[1..]
  }

  /** With a codec that packs a run of a hundred zeros into one byte, a call with the size of the packed
      file gives thirteen of them. */
  lemma PackedSizeLosesBytes()
    ensures var codec := Codec(1, RunEncode, RunDecode);
            && CodecOK(codec) && BlockOK(codec, RUN)
            && |Frames(codec, [RUN])| == 13
            && Head(Flat([RUN]), |Frames(codec, [RUN])|) == Zeros(13) != Flat([RUN])
  {
    var codec := Codec(1, RunEncode, RunDecode);
    forall raw: seq<byte> | raw != [] ensures codec.encode(raw) != [] && codec.decode(codec.encode(raw)) == raw {
      if raw != RUN {
        assert ([0] + raw)[0] == 0 && ([0] + raw)[1..] == raw && [1][0] != 0;
      }
    }
    FramesSnoc(codec, [], RUN);
    FlatSnoc([], RUN);
    assert [] + [RUN] == [RUN];
    assert Frames(codec, []) + Frame(codec, RUN) == Frame(codec, RUN) && Flat([]) + RUN == RUN;
    assert RUN[..13] == Zeros(13);
  }
}
