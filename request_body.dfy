/**
 * CloudStackRequestBody (src/Generator/CloudStackRequestBody.php): the signed query
 * held in an in-memory stream, read through the PSR-7 StreamInterface contract.
 * The php://memory stream is modelled by the bytes the constructor wrote and the
 * stream's position; the object is Open until close or detach releases the stream.
 */
module RequestBody {
  import opened Outcomes
  import opened PhpStrings
  import opened RequestEncoding

  datatype State = Open | Closed | Detached

  /** fseek's $whence: SEEK_SET, SEEK_CUR, SEEK_END. */
  datatype Whence = SeekSet | SeekCur | SeekEnd

  /** The memory stream that detach hands to its caller: its bytes and its position. */
  datatype MemoryStream = MemoryStream(data: PhpString, position: nat)

  /** What getMetadata returns when it returns something: the whole descriptor or one entry. */
  datatype Metadata = AllMetadata(descriptor: map<string, string>) | MetadataValue(value: string)

  /** Bytes asked for per read in __toString and getContents. */
  const ChunkSize: nat := 8192

  /** The PHP string "0", which is false in a condition. */
  const FalsyZero: PhpString := "0"

  /**
   * What `while (!$this->eof() && $data = $this->read(8192)) $str .= $data;` collects
   * from position pos: chunks of 8192 bytes until the end, except that a chunk equal
   * to the string "0" is false in PHP and ends the loop without being appended.
   */
  function ChunkedDrain(buf: PhpString, pos: nat): (r: PhpString)
    requires pos <= |buf|
    ensures |r| <= |buf| - pos
    decreases |buf| - pos
  {
    if pos == |buf| then []
    else
      var end := if pos + ChunkSize < |buf| then pos + ChunkSize else |buf|;
      var chunk := buf[pos..end];
      if chunk == FalsyZero then [] else chunk + ChunkedDrain(buf, end)
  }

  /** True when the last chunk read from pos is the single byte "0". */
  predicate EndsInZeroChunk(buf: PhpString, pos: nat)
    requires pos <= |buf|
  {
    (|buf| - pos) % ChunkSize == 1 && buf[|buf| - 1] == '0'
  }

  /** Taking whole chunks off the remaining length keeps its remainder modulo the chunk size. */
  lemma ChunkRemainder(r: nat)
    requires 0 < r
    ensures r > ChunkSize ==> (r - ChunkSize) % ChunkSize == r % ChunkSize
    ensures r <= ChunkSize ==> (r % ChunkSize == 1 <==> r == 1)
  {
  }

  /**
   * The chunked loop returns every remaining byte, except the final byte when the
   * last chunk is exactly "0".
   */
  lemma {:induction false} ChunkedDrainResult(buf: PhpString, pos: nat)
    requires pos <= |buf|
    ensures ChunkedDrain(buf, pos) == if EndsInZeroChunk(buf, pos) then buf[pos..|buf| - 1] else buf[pos..]
    decreases |buf| - pos
  {
    if pos < |buf| {
      ChunkRemainder(|buf| - pos);
      if pos + ChunkSize < |buf| {
        ChunkedDrainStep(buf, pos);
      } else {
        ChunkedDrainLast(buf, pos);
      }
    }
  }

  lemma ChunkedDrainStep(buf: PhpString, pos: nat)
    requires pos + ChunkSize < |buf|
    requires (|buf| - (pos + ChunkSize)) % ChunkSize == (|buf| - pos) % ChunkSize
    ensures ChunkedDrain(buf, pos) == if EndsInZeroChunk(buf, pos) then buf[pos..|buf| - 1] else buf[pos..]
    decreases |buf| - pos, 0
  {
    var end := pos + ChunkSize;
    ChunkedDrainFull(buf, pos);
    ChunkedDrainResult(buf, end);
    if EndsInZeroChunk(buf, pos) {
      SliceSplit(buf, pos, end, |buf| - 1);
    } else {
      SliceSplit(buf, pos, end, |buf|);
    }
  }

  /** A full chunk is never "0", so it is appended and the loop goes on after it. */
  lemma ChunkedDrainFull(buf: PhpString, pos: nat)
    requires pos + ChunkSize < |buf|
    ensures ChunkedDrain(buf, pos) == buf[pos..pos + ChunkSize] + ChunkedDrain(buf, pos + ChunkSize)
  {
    assert |buf[pos..pos + ChunkSize]| != |FalsyZero|;
  }

  lemma SliceSplit(buf: PhpString, a: nat, b: nat, c: nat)
    requires a <= b <= c <= |buf|
    ensures buf[a..c] == buf[a..b] + buf[b..c]
  {
  }

  lemma ChunkedDrainLast(buf: PhpString, pos: nat)
    requires pos < |buf| <= pos + ChunkSize
    requires (|buf| - pos) % ChunkSize == 1 <==> |buf| - pos == 1
    ensures ChunkedDrain(buf, pos) == if EndsInZeroChunk(buf, pos) then buf[pos..|buf| - 1] else buf[pos..]
  {
    var chunk := buf[pos..];
    assert ChunkedDrain(buf, pos) == if chunk == FalsyZero then [] else chunk + ChunkedDrain(buf, |buf|);
    if |buf| - pos == 1 {
      assert chunk == [buf[|buf| - 1]];
    } else {
      assert |chunk| != |FalsyZero|;
    }
  }

  class CloudStackRequestBody {
    /** The bytes the constructor wrote into php://memory; they never change. */
    const body: PhpString
    /** stream_get_meta_data of the memory stream, taken by the constructor. */
    const meta: map<string, string>
    var state: State
    /** The memory stream's position. */
    var position: nat
    var size: nat

    ghost predicate Valid()
      reads this
    {
      && position <= |body|
      && (state == Open ==> size == |body|)
      && (state != Open ==> size == 0)
    }

    /**
     * The tail of the constructor (lines 79-86): the body is written to a fresh
     * memory stream, which is not rewound, so the position is at the end.
     */
    constructor Init(signed: PhpString, descriptor: map<string, string>)
      ensures Valid()
      ensures body == signed && meta == descriptor
      ensures state == Open && position == |signed| && size == |signed|
    {
      body := signed;
      meta := descriptor;
      size := |signed|;
      position := |signed|;
      state := Open;
    }

    /**
     * The constructor (lines 40-87): fails with the exception of the first parameter of
     * an unsupported type, otherwise holds the signed body, open, positioned at its end.
     */
    static method Create(config: Configuration, command: PhpString, ps: seq<Parameter>,
                         formatFloat: real -> PhpString, descriptor: map<string, string>)
      returns (r: Result<CloudStackRequestBody>)
      ensures r.Err? <==> SignedBody(config, command, ps, formatFloat).Err?
      ensures r.Err? ==> r.error == SignedBody(config, command, ps, formatFloat).error
      ensures r.Ok? ==> && fresh(r.value) && r.value.Valid()
                        && r.value.body == SignedBody(config, command, ps, formatFloat).value
                        && r.value.meta == descriptor
                        && r.value.state == Open && r.value.position == |r.value.body|
    {
      var collected := CollectParameters(ps, formatFloat);
      if collected.Err? {
        return Err(collected.error);
      }
      var query := CanonicalQuery(config.apiKey, command, collected.value);
      var signed := query + SignatureSeparator + config.buildSignature(query);
      var b := new CloudStackRequestBody.Init(signed, descriptor);
      r := Ok(b);
    }

    /** createStateException: the detached error once detached, the closed error otherwise. */
    function StateError(): (e: Error)
      reads this
      ensures e == BodyDetached || e == BodyClosed
      ensures e == BodyDetached <==> state == Detached
    {
      if state == Detached then BodyDetached else BodyClosed
    }

    /** close: releases the stream of an open body; does nothing otherwise. */
    method Close()
      requires Valid()
      modifies this`state, this`size
      ensures Valid()
      ensures state == (if old(state) == Open then Closed else old(state))
    {
      if state == Open {
        size := 0;
        state := Closed;
      }
    }

    /** detach: always ends Detached; hands over the stream only if the body was open. */
    method Detach() returns (r: Option<MemoryStream>)
      requires Valid()
      modifies this`state, this`size
      ensures Valid() && state == Detached
      ensures r == if old(state) == Open then Some(MemoryStream(body, position)) else None
    {
      if state == Open {
        r := Some(MemoryStream(body, position));
      } else {
        r := None;
      }
      size := 0;
      state := Detached;
    }

    /** getSize: the byte length of the whole signed body while open, null otherwise. */
    function GetSize(): (r: Option<nat>)
      reads this
      requires Valid()
      ensures r.Some? <==> state == Open
      ensures r.Some? ==> r.value == |body|
    {
      if state != Open then None else Some(size)
    }

    /** tell: the position while open; a plain RuntimeException otherwise. */
    method Tell() returns (r: Result<nat>)
      requires Valid()
      ensures state == Open ==> r == Ok(position) && r.value <= |body|
      ensures state != Open ==> r == Err(PlainRuntime)
    {
      if state == Open {
        r := Ok(position);
      } else {
        r := Err(PlainRuntime);
      }
    }

    /** eof: true once the stream is released or every byte has been read. */
    function Eof(): (r: bool)
      reads this
      ensures r <==> state != Open || position >= |body|
    {
      if state != Open then true else position >= |body|
    }

    function IsSeekable(): (r: bool)
      reads this
      ensures r <==> state == Open
    {
      state == Open
    }

    function IsReadable(): (r: bool)
      reads this
      ensures r <==> state == Open
    {
      state == Open
    }

    /** isWritable: the body is never writable. */
    function IsWritable(): (r: bool)
      ensures !r
    {
      false
    }

    /** write: always refused. */
    method Write(data: PhpString) returns (r: Result<nat>)
      ensures r == Err(BodyNotWritable)
    {
      r := Err(BodyNotWritable);
    }

    /** The position fseek aims at. */
    function SeekTarget(offset: int, whence: Whence): int
      reads this
    {
      match whence
      case SeekSet => offset
      case SeekCur => position + offset
      case SeekEnd => |body| + offset
    }

    /** seek: moves the position while open; the state error otherwise. */
    method Seek(offset: int, whence: Whence) returns (r: Result<()>)
      requires Valid()
      requires state == Open ==> 0 <= SeekTarget(offset, whence) <= |body|
      modifies this`position
      ensures Valid()
      ensures old(state) == Open ==> r == Ok(()) && position == old(SeekTarget(offset, whence))
      ensures old(state) != Open ==> r == Err(StateError()) && position == old(position)
    {
      if IsSeekable() {
        position := SeekTarget(offset, whence);
        r := Ok(());
      } else {
        r := Err(StateError());
      }
    }

    /** rewind: back to the first byte while open; the state error otherwise. */
    method Rewind() returns (r: Result<()>)
      requires Valid()
      modifies this`position
      ensures Valid()
      ensures old(state) == Open ==> r == Ok(()) && position == 0
      ensures old(state) != Open ==> r == Err(StateError()) && position == old(position)
    {
      if IsSeekable() {
        position := 0;
        r := Ok(());
      } else {
        r := Err(StateError());
      }
    }

    /**
     * read: while open, up to `length` bytes from the position, fewer only at the end,
     * and the position moves past them; fread refuses a length below 1; the state
     * error when not open.
     */
    method Read(length: int) returns (r: Result<PhpString>)
      requires Valid()
      modifies this`position
      ensures Valid()
      ensures old(state) == Open && length < 1 ==> r == Err(LengthNotPositive) && position == old(position)
      ensures old(state) == Open && length >= 1 ==>
        && r.Ok? && old(position) <= position
        && r.value == body[old(position)..position]
        && (|r.value| == length || position == |body|)
        && |r.value| <= length
      ensures old(state) != Open ==> r == Err(StateError()) && position == old(position)
    {
      if state == Open && length < 1 {
        r := Err(LengthNotPositive);
      } else if state == Open {
        var n := if length < |body| - position then length else |body| - position;
        r := Ok(body[position..position + n]);
        position := position + n;
      } else {
        r := Err(StateError());
      }
    }

    /** The read loop shared by __toString and getContents (lines 110-113 and 304-307). */
    method DrainChunks() returns (str: PhpString)
      requires Valid() && state == Open
      modifies this`position
      ensures Valid() && position == |body|
      ensures str == ChunkedDrain(body, old(position))
    {
      str := [];
      while !Eof()
        invariant Valid() && state == Open
        invariant str + ChunkedDrain(body, position) == ChunkedDrain(body, old(position))
        decreases |body| - position
      {
        ghost var before := position;
        var data := Read(ChunkSize);
        var chunk := data.value;
        if chunk == [] || chunk == FalsyZero {
          assert ChunkedDrain(body, before) == [];
          assert str + [] == str;
          return;
        }
        assert ChunkedDrain(body, before) == chunk + ChunkedDrain(body, position);
        str := str + chunk;
      }
      assert str + [] == str;
    }

    /** getContents: the remaining bytes from the position while open; the state error otherwise. */
    method GetContents() returns (r: Result<PhpString>)
      requires Valid()
      modifies this`position
      ensures Valid()
      ensures old(state) == Open ==> r == Ok(ChunkedDrain(body, old(position))) && position == |body|
      ensures old(state) != Open ==> r == Err(StateError()) && position == old(position)
    {
      if state == Open {
        var str := DrainChunks();
        r := Ok(str);
      } else {
        r := Err(StateError());
      }
    }

    /** __toString: "" once the stream is released, otherwise the body read from offset 0. */
    method ToString() returns (s: PhpString)
      requires Valid()
      modifies this`position
      ensures Valid()
      ensures old(state) == Open ==> s == ChunkedDrain(body, 0) && position == |body|
      ensures old(state) != Open ==> s == [] && position == old(position)
    {
      if state != Open {
        return [];
      }
      var _ := Rewind();
      s := DrainChunks();
    }

    /** getMetadata: the descriptor or one of its entries while open; null otherwise. */
    method GetMetadata(key: Option<string>) returns (r: Option<Metadata>)
      ensures state != Open ==> r == None
      ensures state == Open && key.None? ==> r == Some(AllMetadata(meta))
      ensures state == Open && key.Some? ==>
        r == if key.value in meta then Some(MetadataValue(meta[key.value])) else None
    {
      if state == Open {
        if key.None? {
          return Some(AllMetadata(meta));
        }
        if key.value in meta {
          return Some(MetadataValue(meta[key.value]));
        }
        return None;
      }
      r := None;
    }
  }

  /**
   * Reading the whole body twice, as two string conversions do (each rewinds first),
   * yields the same bytes, and those are all of the signed body unless its last chunk
   * is the single byte "0".
   */
  method ReadTwice(b: CloudStackRequestBody) returns (first: PhpString, second: PhpString)
    requires b.Valid() && b.state == Open
    modifies b`position
    ensures first == second
    ensures !EndsInZeroChunk(b.body, 0) ==> first == b.body
  {
    first := b.ToString();
    second := b.ToString();
    ChunkedDrainResult(b.body, 0);
  }
}
