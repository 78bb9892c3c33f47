/** The growable in-memory file. */
module MemFile {
  import opened BitNumbers

  function Min(a: int, b: int): int { if a < b then a else b }

  function Max(a: int, b: int): int { if a < b then b else a }

  function Zeros(n: nat): (r: seq<byte>)
    ensures |r| == n && forall i :: 0 <= i < n ==> r[i] == 0
  {
    seq(n, _ => 0)
  }

  /** `vector::resize`: new elements are zero. */
  function Resized(data: seq<byte>, n: nat): seq<byte> {
    if n <= |data| then data[..n] else data + Zeros(n - |data|)
  }

  /** The bytes before position `p`; one past the end counts a zero byte that is not there yet. */
  function Before(file: seq<byte>, p: nat): (r: seq<byte>)
    requires p <= |file| + 1
    ensures |r| == p
  {
    if p <= |file| then file[..p] else file + Zeros(1)
  }

  /** The bytes from position `p` on. */
  function From(file: seq<byte>, p: nat): seq<byte> {
    if p <= |file| then file[p..] else []
  }

  /** A file's bytes after `bytes` are written at position `p`. From the position one past the
      end, where a failed read leaves the cursor, one zero byte comes first. */
  function Overwrite(file: seq<byte>, p: nat, bytes: seq<byte>): (r: seq<byte>)
    requires p <= |file| + 1
    ensures |r| == Max(|file|, p + |bytes|)
    ensures r[p..p + |bytes|] == bytes
    ensures forall i :: 0 <= i < |file| && !(p <= i < p + |bytes|) ==> r[i] == file[i]
  {
    Before(file, p) + bytes + From(file, p + |bytes|)
  }

  /** What a read of `n` bytes at position `p` gives. */
  function ReadAt(file: seq<byte>, p: nat, n: nat): seq<byte> {
    if p < |file| then file[p..Min(p + n, |file|)] else []
  }

  lemma FromLater(file: seq<byte>, other: seq<byte>, p: nat, p': nat)
    requires From(file, p) == From(other, p) && p <= p'
    ensures From(file, p') == From(other, p')
  {
    Later(file, p, p');
    Later(other, p, p');
  }

  lemma Later(file: seq<byte>, p: nat, p': nat)
    requires p <= p'
    ensures From(file, p') == From(From(file, p), p' - p)
  {
  }

  /** Two writes in a row are one write. */
  lemma OverwriteTwice(file: seq<byte>, p: nat, xs: seq<byte>, ys: seq<byte>)
    requires p <= |file| + 1
    ensures Overwrite(Overwrite(file, p, xs), p + |xs|, ys) == Overwrite(file, p, xs + ys)
  {
    var l, r := Overwrite(Overwrite(file, p, xs), p + |xs|, ys), Overwrite(file, p, xs + ys);
    assert |l| == |r|;
    forall i | 0 <= i < |l|
      ensures l[i] == r[i]
    {
      var mid := Overwrite(file, p, xs);
      if p <= i < p + |xs| {
        assert mid[i] == mid[p..p + |xs|][i - p] == xs[i - p];
        assert r[i] == r[p..p + |xs + ys|][i - p];
      } else if p + |xs| <= i < p + |xs| + |ys| {
        assert l[i] == l[p + |xs|..p + |xs| + |ys|][i - p - |xs|];
        assert r[i] == r[p..p + |xs + ys|][i - p];
      }
    }
  }

  /** Writing into the grown buffer is writing into the file. */
  lemma Splice(file: seq<byte>, buffer: seq<byte>, p: nat, bytes: seq<byte>, stop: nat)
    requires p <= |file| + 1 && stop == Max(|file|, p + |bytes|) && stop <= |buffer|
    requires file == buffer[..|file|]
    requires p == |file| + 1 ==> buffer[|file|] == 0
    ensures (buffer[..p] + bytes + buffer[p + |bytes|..])[..stop] == Overwrite(file, p, bytes)
  {
    assert buffer[..p] == Before(file, p);
    assert buffer[p + |bytes|..][..stop - p - |bytes|] == From(file, p + |bytes|);
  }

  /** `cFileDynamicMem`. Positions are offsets from the base pointer; `mapped` says whether the
      base pointer is the buffer or still null. */
  class DynamicMem {
    var data: seq<byte>
    var mapped: bool
    var here: nat
    var stop: nat
    const baseSize: nat

    ghost predicate Valid()
      reads this
    {
      && stop <= |data| && here <= stop + 1
      && (!mapped ==> stop == 0)
      && (forall i :: stop <= i < |data| ==> data[i] == 0)
    }

    /** The bytes of the file; what the buffer holds beyond them is spare. */
    ghost function Contents(): (r: seq<byte>)
      requires Valid()
      reads this
      ensures |r| == stop
    {
      data[..stop]
    }

    constructor (size: nat)
      ensures Valid() && Contents() == [] && here == 0
    {
      data := Zeros(size);
      mapped := false;
      here := 0;
      stop := 0;
      baseSize := Min(32, size);
    }

    /** `_UpdateMemPtr`: the cursor keeps its offset, clamped to the new size. */
    method UpdateMemPtr(map_: bool, size: nat)
      requires size <= |data| && (!map_ ==> size == 0)
      requires forall i :: size <= i < |data| ==> data[i] == 0
      modifies this`mapped, this`here, this`stop
      ensures Valid() && stop == size && here == Min(old(here), size)
    {
      mapped := map_;
      stop := size;
      if here > stop {
        here := stop;
      }
    }

    method ReadRaw(n: nat) returns (out: seq<byte>)
      requires Valid()
      modifies this`here
      ensures Valid() && Contents() == old(Contents())
      ensures out == ReadAt(Contents(), old(here), n)
      ensures here == if old(here) >= stop then stop + 1 else Min(old(here) + n, stop)
    {
      if here >= stop {
        here := stop + 1;
        return [];
      }
      if here + n > stop {
        out := data[here..stop];
        here := stop;
      } else {
        out := data[here..here + n];
        here := here + n;
      }
    }

    method WriteRaw(bytes: seq<byte>) returns (n: nat)
      requires Valid()
      modifies this
      ensures Valid() && n == |bytes|
      ensures Contents() == Overwrite(old(Contents()), old(here), bytes)
      ensures here == old(here) + |bytes|
    {
      if here + |bytes| > stop {
        var newSize := here + |bytes|;
        if newSize >= |data| {
          data := Resized(data, Max(newSize, |data| + baseSize));
        }
        Grow(newSize);
      }
      ghost var grown, p := data, here;
      data := data[..here] + bytes + data[here + |bytes|..];
      here := here + |bytes|;
      n := |bytes|;
      Splice(old(Contents()), grown, p, bytes, stop);
    }

    /** Makes more of the buffer, all zeros so far, part of the file. */
    method Grow(size: nat)
      requires stop <= size <= |data| && here <= size
      requires forall i :: stop <= i < |data| ==> data[i] == 0
      modifies this`mapped, this`here, this`stop
      ensures Valid() && stop == size && here == old(here)
    {
      UpdateMemPtr(true, size);
    }

    method Reset()
      requires Valid()
      modifies this
      ensures Valid() && Contents() == [] && here == 0
    {
      data := [];
      UpdateMemPtr(false, 0);
    }

    method Seek(offset: int)
      requires Valid()
      modifies this`here
      ensures Valid() && Contents() == old(Contents())
      ensures here == Max(0, Min(old(here) + offset, stop))
    {
      var p := here + offset;
      if p < 0 { p := 0; }
      if p > stop { p := stop; }
      here := p;
    }

    method SeekSet(offset: int)
      requires Valid()
      modifies this`here
      ensures Valid() && Contents() == old(Contents())
      ensures here == Max(0, Min(offset, stop))
    {
      var p := offset;
      if p < 0 { p := 0; }
      if p > stop { p := stop; }
      here := p;
    }

    method SeekEnd(offset: int)
      requires Valid()
      modifies this`here
      ensures Valid() && Contents() == old(Contents())
      ensures here == if offset < stop then Min(stop - offset, stop) else 0
    {
      SeekSet(if offset < stop then stop - offset else 0);
    }

    function Tell(): nat
      reads this
    {
      here
    }

    function GetSize(): nat
      reads this
    {
      stop
    }
  }

  // ---- Runs of file operations ------------------------------------------------------------

  /** One call on a file, and the sequence model of what it does. */
  datatype Call =
    | Read(n: nat)
    | Write(bytes: seq<byte>)
    | SeekBy(offset: int)
    | SeekTo(offset: int)
    | SeekFromEnd(offset: int)
    | ResetAll
    | AskPlace
    | AskSize

  datatype Answer = Gave(bytes: seq<byte>) | Told(n: nat)

  datatype Model = Model(file: seq<byte>, here: nat)

  ghost predicate ModelOK(m: Model) { m.here <= |m.file| + 1 }

  ghost function After(m: Model, c: Call): (r: Model)
    requires ModelOK(m)
    ensures ModelOK(r)
  {
    match c
    case Read(n) =>
      Model(m.file, if m.here >= |m.file| then |m.file| + 1 else Min(m.here + n, |m.file|))
    case Write(bytes) => Model(Overwrite(m.file, m.here, bytes), m.here + |bytes|)
    case SeekBy(offset) => Model(m.file, Max(0, Min(m.here + offset, |m.file|)))
    case SeekTo(offset) => Model(m.file, Max(0, Min(offset, |m.file|)))
    case SeekFromEnd(offset) => Model(m.file, if offset < |m.file| then Min(|m.file| - offset, |m.file|) else 0)
    case ResetAll => Model([], 0)
    case _ => m
  }

  /** What a call answers. */
  ghost function AnswerOf(m: Model, c: Call): seq<Answer> {
    match c
    case Read(n) => [Gave(ReadAt(m.file, m.here, n))]
    case AskPlace => [Told(m.here)]
    case AskSize => [Told(|m.file|)]
    case _ => []
  }

  /** The answers of a run. */
  ghost function Answers(m: Model, calls: seq<Call>): seq<Answer>
    requires ModelOK(m)
    decreases |calls|
  {
    if calls == [] then []
    else AnswerOf(m, calls[0]) + Answers(After(m, calls[0]), calls[1..])
  }

  ghost function Final(m: Model, calls: seq<Call>): (r: Model)
    requires ModelOK(m)
    ensures ModelOK(r)
    decreases |calls|
  {
    if calls == [] then m else Final(After(m, calls[0]), calls[1..])
  }

  method Do(f: DynamicMem, call: Call) returns (outs: seq<Answer>)
    requires f.Valid()
    modifies f
    ensures f.Valid()
    ensures Model(f.Contents(), f.here) == After(old(Model(f.Contents(), f.here)), call)
    ensures outs == AnswerOf(old(Model(f.Contents(), f.here)), call)
  {
    outs := [];
    match call {
      case Read(n) =>
        var out := f.ReadRaw(n);
        outs := [Gave(out)];
      case Write(bytes) =>
        var _ := f.WriteRaw(bytes);
      case SeekBy(offset) =>
        f.Seek(offset);
      case SeekTo(offset) =>
        f.SeekSet(offset);
      case SeekFromEnd(offset) =>
        f.SeekEnd(offset);
      case ResetAll =>
        f.Reset();
      case AskPlace =>
        outs := [Told(f.Tell())];
      case AskSize =>
        outs := [Told(f.GetSize())];
    }
  }

  /** Over any run of calls the file answers as the sequence model does; spare bytes are never seen. */
  method Replay(f: DynamicMem, calls: seq<Call>) returns (outs: seq<Answer>)
    requires f.Valid()
    modifies f
    ensures f.Valid()
    ensures outs == Answers(old(Model(f.Contents(), f.here)), calls)
    ensures Model(f.Contents(), f.here) == Final(old(Model(f.Contents(), f.here)), calls)
  {
    outs := [];
    ghost var start := Model(f.Contents(), f.here);
    for i := 0 to |calls|
      invariant f.Valid()
      invariant outs + Answers(Model(f.Contents(), f.here), calls[i..]) == Answers(start, calls)
      invariant Final(Model(f.Contents(), f.here), calls[i..]) == Final(start, calls)
    {
      ghost var m := Model(f.Contents(), f.here);
      assert calls[i..][1..] == calls[i + 1..];
      var more := Do(f, calls[i]);
      ghost var rest := Answers(After(m, calls[i]), calls[i + 1..]);
      assert outs + (more + rest) == (outs + more) + rest;
      outs := outs + more;
    }
  }
}
