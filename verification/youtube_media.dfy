/**
 * The streaming media source (src/convert_query/youtube_media.rs). Encoded audio
 * arrives as a sequence of HTTP body chunks; every refill appends the next chunk
 * to the encoded buffer, decodes the whole buffer again (ffmpeg, here the
 * uninterpreted `decode`) and replaces the decoded cursor, keeping its position.
 * `read` refills when fewer than 16 384 decoded bytes are known to lie ahead.
 * Positions and counters are unbounded naturals; the u64 wrap-around of the
 * source is not reached by any stream the model describes.
 */
module YoutubeMedia {
  import opened Wrappers

  newtype byte = x: int | 0 <= x < 256

  /** Decoded bytes needed ahead of `bytes_read` before a read refills. */
  const RefillThreshold: nat := 16384

  /** `std::io::Cursor<Vec<u8>>`: the data and a position that may lie beyond its end. */
  datatype Cursor = Cursor(data: seq<byte>, position: nat)

  datatype SeekFrom = Start(offset: nat) | End(delta: int) | Current(delta: int)

  datatype IoError =
    | RawOsError(code: int)  // `from_raw_os_error(0)`: there is no decoded buffer
    | InvalidInput           // a seek to a negative position

  /** The source's mutable fields, as one value. */
  datatype Stream = Stream(reader: Option<Cursor>, encoded: seq<byte>, decodedBufferSize: nat,
                           bytesRead: nat, nextChunk: nat)

  /** A source just built: no decoded buffer, nothing buffered, nothing read. */
  const Fresh: Stream := Stream(None, [], 0, 0, 0)

  /** The chunks `cs` laid end to end. */
  function Flatten(cs: seq<seq<byte>>): (r: seq<byte>)
    ensures cs == [] ==> r == []
  {
    if cs == [] then [] else Flatten(cs[..|cs| - 1]) + cs[|cs| - 1]
  }

  /** The state after `test2`: unchanged once the chunk stream is exhausted. */
  function Refilled(s: Stream, chunks: seq<seq<byte>>, decode: seq<byte> -> seq<byte>): Stream
  {
    if s.nextChunk >= |chunks| then s
    else
      var encoded := s.encoded + chunks[s.nextChunk];
      var decoded := decode(encoded);
      var position := if s.reader.Some? then s.reader.value.position else 0;
      Stream(Some(Cursor(decoded, position)), encoded, |decoded|, s.bytesRead, s.nextChunk + 1)
  }

  /** The check at the start of `read`. */
  predicate NeedsRefill(s: Stream)
  {
    s.bytesRead + RefillThreshold > s.decodedBufferSize
  }

  /** The state `read` goes on with after its refill check. */
  function Prepared(s: Stream, chunks: seq<seq<byte>>, decode: seq<byte> -> seq<byte>): Stream
  {
    if NeedsRefill(s) then Refilled(s, chunks, decode) else s
  }

  /** The bytes a cursor still holds: none once its position is at or past the end. */
  function Remaining(c: Cursor): seq<byte>
  {
    c.data[if c.position < |c.data| then c.position else |c.data|..]
  }

  /** How many bytes `Cursor::read` copies into a buffer of `len` bytes. */
  function Copied(c: Cursor, len: nat): nat
  {
    if len < |Remaining(c)| then len else |Remaining(c)|
  }

  /** What `read` into a buffer of `len` bytes returns. */
  function ReadResult(s: Stream, len: nat, chunks: seq<seq<byte>>, decode: seq<byte> -> seq<byte>): Result<nat, IoError>
  {
    var t := Prepared(s, chunks, decode);
    if t.reader.None? then Err(RawOsError(0)) else Ok(Copied(t.reader.value, len))
  }

  /** The bytes `read` leaves at the front of the buffer. */
  function ReadBytes(s: Stream, len: nat, chunks: seq<seq<byte>>, decode: seq<byte> -> seq<byte>): seq<byte>
  {
    var t := Prepared(s, chunks, decode);
    if t.reader.None? then [] else Remaining(t.reader.value)[..Copied(t.reader.value, len)]
  }

  /** The state after `read` into a buffer of `len` bytes. */
  function ReadState(s: Stream, len: nat, chunks: seq<seq<byte>>, decode: seq<byte> -> seq<byte>): Stream
  {
    var t := Prepared(s, chunks, decode);
    if t.reader.None? then t
    else
      var n := Copied(t.reader.value, len);
      t.(reader := Some(t.reader.value.(position := t.reader.value.position + n)), bytesRead := t.bytesRead + n)
  }

  /** `Cursor::seek`: the new position, or InvalidInput for a negative one. */
  function CursorSeek(c: Cursor, pos: SeekFrom): Result<nat, IoError>
  {
    match pos
    case Start(n) => Ok(n)
    case End(d) => if |c.data| + d < 0 then Err(InvalidInput) else Ok(|c.data| + d)
    case Current(d) => if c.position + d < 0 then Err(InvalidInput) else Ok(c.position + d)
  }

  /** What `seek` returns. */
  function SeekResult(s: Stream, pos: SeekFrom): Result<nat, IoError>
  {
    if s.reader.None? then Err(RawOsError(0)) else CursorSeek(s.reader.value, pos)
  }

  /** The state after `seek`: only the cursor position can change. */
  function SeekState(s: Stream, pos: SeekFrom): Stream
  {
    var r := SeekResult(s, pos);
    if r.Err? then s else s.(reader := Some(s.reader.value.(position := r.value)))
  }

  /**
   * What every reachable state satisfies: the encoded buffer is the chunks taken so
   * far, and a decoded buffer is the decoding of it with its size recorded.
   */
  predicate Valid(s: Stream, chunks: seq<seq<byte>>, decode: seq<byte> -> seq<byte>)
  {
    && s.nextChunk <= |chunks|
    && s.encoded == Flatten(chunks[..s.nextChunk])
    && (s.reader.Some? ==> s.reader.value.data == decode(s.encoded) && s.decodedBufferSize == |s.reader.value.data|)
    && (s.reader.None? ==> s.nextChunk == 0 && s.decodedBufferSize == 0)
  }

  /** Without seeks the cursor sits exactly `bytes_read` bytes into the decoded data. */
  predicate Tracking(s: Stream)
  {
    if s.reader.Some? then s.reader.value.position == s.bytesRead else s.bytesRead == 0
  }

  lemma FreshIsValid(chunks: seq<seq<byte>>, decode: seq<byte> -> seq<byte>)
    ensures Valid(Fresh, chunks, decode) && Tracking(Fresh)
  {
    assert chunks[..0] == [];
  }

  /** With the chunk stream exhausted, a refill changes nothing. */
  lemma RefillWhenExhausted(s: Stream, chunks: seq<seq<byte>>, decode: seq<byte> -> seq<byte>)
    requires s.nextChunk >= |chunks|
    ensures Refilled(s, chunks, decode) == s
  {
  }

  /**
   * A refill appends the next chunk to the encoded buffer, decodes all of it,
   * records the decoded size and keeps the cursor position (0 without a cursor).
   */
  lemma RefillAppendsAndDecodes(s: Stream, chunks: seq<seq<byte>>, decode: seq<byte> -> seq<byte>)
    requires s.nextChunk < |chunks|
    ensures var t := Refilled(s, chunks, decode);
            && t.encoded == s.encoded + chunks[s.nextChunk]
            && t.reader.Some? && t.reader.value.data == decode(t.encoded)
            && t.decodedBufferSize == |t.reader.value.data|
            && t.reader.value.position == (if s.reader.Some? then s.reader.value.position else 0)
            && t.bytesRead == s.bytesRead
  {
  }

  /** The encoded buffer only grows: every earlier buffer is a prefix of every later one. */
  lemma EncodedOnlyGrows(s: Stream, len: nat, pos: SeekFrom, chunks: seq<seq<byte>>, decode: seq<byte> -> seq<byte>)
    ensures s.encoded <= Refilled(s, chunks, decode).encoded
    ensures s.encoded <= ReadState(s, len, chunks, decode).encoded
    ensures SeekState(s, pos).encoded == s.encoded
  {
  }

  /** `read` refills exactly when `bytes_read + 16384` exceeds the decoded size. */
  lemma ReadRefillsIff(s: Stream, len: nat, chunks: seq<seq<byte>>, decode: seq<byte> -> seq<byte>)
    requires s.nextChunk < |chunks|
    ensures ReadState(s, len, chunks, decode).nextChunk == s.nextChunk + 1 <==>
            s.bytesRead + RefillThreshold > s.decodedBufferSize
    ensures ReadState(s, len, chunks, decode).nextChunk == s.nextChunk <==>
            s.bytesRead + RefillThreshold <= s.decodedBufferSize
  {
  }

  /**
   * A successful read returns min(len, max(0, decoded length - position)), moves
   * the cursor and `bytes_read` forward by exactly that count, and hands out the
   * decoded bytes at the position.
   */
  lemma ReadCount(s: Stream, len: nat, chunks: seq<seq<byte>>, decode: seq<byte> -> seq<byte>)
    requires ReadResult(s, len, chunks, decode).Ok?
    ensures var t := Prepared(s, chunks, decode);
            var u := ReadState(s, len, chunks, decode);
            var n := ReadResult(s, len, chunks, decode).value;
            var avail := if t.reader.value.position < |t.reader.value.data| then |t.reader.value.data| - t.reader.value.position else 0;
            && n == (if len < avail then len else avail)
            && u.reader.Some? && u.reader.value.position == t.reader.value.position + n
            && u.bytesRead == t.bytesRead + n
            && u.reader.value.data == t.reader.value.data
            && ReadBytes(s, len, chunks, decode) ==
               (if n == 0 then [] else t.reader.value.data[t.reader.value.position..t.reader.value.position + n])
  {
  }

  /** `read` fails only when there is still no decoded buffer after the refill check. */
  lemma ReadFailsWithoutBuffer(s: Stream, len: nat, chunks: seq<seq<byte>>, decode: seq<byte> -> seq<byte>)
    ensures ReadResult(s, len, chunks, decode).Err? <==> Prepared(s, chunks, decode).reader.None?
    ensures ReadResult(s, len, chunks, decode).Err? ==>
              ReadResult(s, len, chunks, decode) == Err(RawOsError(0)) &&
              ReadState(s, len, chunks, decode) == Prepared(s, chunks, decode)
  {
  }

  /** In a reachable state a read fails only on a stream that has no chunks at all. */
  lemma ReadFailsOnlyOnEmptyStream(s: Stream, len: nat, chunks: seq<seq<byte>>, decode: seq<byte> -> seq<byte>)
    requires Valid(s, chunks, decode)
    ensures ReadResult(s, len, chunks, decode).Err? <==> s.reader.None? && chunks == []
  {
    if s.reader.None? {
      assert NeedsRefill(s);
    }
  }

  /** Decoding a longer encoded buffer never yields fewer decoded bytes. */
  ghost predicate GrowsWithInput(decode: seq<byte> -> seq<byte>)
  {
    forall a: seq<byte>, b: seq<byte> | a <= b :: |decode(a)| <= |decode(b)|
  }

  /**
   * A read into a non-empty buffer with decoded bytes left at the position returns
   * some of them, provided re-decoding a longer buffer never loses output.
   */
  lemma ReadMakesProgress(s: Stream, len: nat, chunks: seq<seq<byte>>, decode: seq<byte> -> seq<byte>)
    requires len > 0 && s.reader.Some? && s.reader.value.position < |s.reader.value.data|
    requires Valid(s, chunks, decode) && GrowsWithInput(decode)
    ensures ReadResult(s, len, chunks, decode).Ok? && ReadResult(s, len, chunks, decode).value > 0
  {
    var t := Prepared(s, chunks, decode);
    if NeedsRefill(s) && s.nextChunk < |chunks| {
      assert s.encoded <= t.encoded;
      assert |decode(s.encoded)| <= |decode(t.encoded)|;
    }
  }

  /** Taking one more chunk extends the flattened prefix by that chunk. */
  lemma {:induction false} FlattenOneMore(chunks: seq<seq<byte>>, k: nat)
    requires k < |chunks|
    ensures Flatten(chunks[..k + 1]) == Flatten(chunks[..k]) + chunks[k]
  {
    assert chunks[..k + 1][..k] == chunks[..k];
  }

  /** Refill, read and seek all keep the state reachable. */
  lemma {:induction false} OperationsPreserveValid(s: Stream, len: nat, pos: SeekFrom, chunks: seq<seq<byte>>, decode: seq<byte> -> seq<byte>)
    requires Valid(s, chunks, decode)
    ensures Valid(Refilled(s, chunks, decode), chunks, decode)
    ensures Valid(ReadState(s, len, chunks, decode), chunks, decode)
    ensures Valid(SeekState(s, pos), chunks, decode)
  {
    if s.nextChunk < |chunks| {
      FlattenOneMore(chunks, s.nextChunk);
    }
  }

  /**
   * As long as nobody seeks, reads keep the cursor position equal to `bytes_read`:
   * a refill keeps the position, and a read adds the same count to both.
   */
  lemma ReadKeepsTracking(s: Stream, len: nat, chunks: seq<seq<byte>>, decode: seq<byte> -> seq<byte>)
    requires Tracking(s)
    ensures Tracking(ReadState(s, len, chunks, decode))
  {
  }

  /** `seek` never touches `bytes_read`, the buffers or the decoded size. */
  lemma SeekKeepsCounters(s: Stream, pos: SeekFrom)
    ensures var t := SeekState(s, pos);
            t.bytesRead == s.bytesRead && t.encoded == s.encoded && t.nextChunk == s.nextChunk &&
            t.decodedBufferSize == s.decodedBufferSize
    ensures SeekResult(s, pos).Err? ==> SeekState(s, pos) == s
    ensures s.reader.None? ==> SeekResult(s, pos) == Err(RawOsError(0))
  {
  }

  /**
   * Seeking past the end of the decoded data succeeds, and the read after it (with
   * no refill, or a refill that keeps the position) returns 0 bytes.
   */
  lemma SeekPastEndThenReadsNothing(s: Stream, n: nat, len: nat, chunks: seq<seq<byte>>, decode: seq<byte> -> seq<byte>)
    requires s.reader.Some? && n >= |s.reader.value.data|
    requires !NeedsRefill(SeekState(s, Start(n)))
    ensures SeekResult(s, Start(n)) == Ok(n)
    ensures ReadResult(SeekState(s, Start(n)), len, chunks, decode) == Ok(0)
  {
  }

  /** `YoutubeStreamMediaSource`, with its HTTP response as a chunk sequence and ffmpeg as `decode`. */
  class YoutubeStreamMediaSource {
    var reader: Option<Cursor>
    var encoded: seq<byte>
    const contentLength: nat
    var decodedBufferSize: nat
    var bytesRead: nat
    /** The body chunks the response will yield, in order. */
    const chunks: seq<seq<byte>>
    /** How many of `chunks` have been taken. */
    var nextChunk: nat
    /** ffmpeg's decoding of an encoded buffer to raw samples. */
    const decode: seq<byte> -> seq<byte>

    function State(): Stream
      reads this
    {
      Stream(reader, encoded, decodedBufferSize, bytesRead, nextChunk)
    }

    /** `new`, once the stream URL, its length and the response are known. */
    constructor (contentLength: nat, chunks: seq<seq<byte>>, decode: seq<byte> -> seq<byte>)
      ensures State() == Fresh
      ensures this.contentLength == contentLength && this.chunks == chunks && this.decode == decode
    {
      reader := None;
      encoded := [];
      this.contentLength := contentLength;
      decodedBufferSize := 0;
      bytesRead := 0;
      this.chunks := chunks;
      nextChunk := 0;
      this.decode := decode;
    }

    /** `test2`: take the next chunk, if any, append it byte by byte and decode again. */
    method Refill()
      modifies this
      ensures State() == Refilled(old(State()), chunks, decode)
    {
      if nextChunk >= |chunks| {
        return;
      }
      var chunk := chunks[nextChunk];
      nextChunk := nextChunk + 1;
      var i := 0;
      while i < |chunk|
        invariant 0 <= i <= |chunk|
        invariant encoded == old(encoded) + chunk[..i]
        invariant reader == old(reader) && bytesRead == old(bytesRead) && nextChunk == old(nextChunk) + 1
      {
        encoded := encoded + [chunk[i]];
        i := i + 1;
      }
      assert chunk[..i] == chunk;
      var decoded := decode(encoded);
      decodedBufferSize := |decoded|;
      var oldPosition := 0;
      if reader.Some? {
        oldPosition := reader.value.position;
      }
      reader := Some(Cursor(decoded, oldPosition));
    }

    /** `Read::read`: refill when needed, then copy from the decoded cursor into `buf`. */
    method Read(buf: array<byte>) returns (r: Result<nat, IoError>)
      modifies this, buf
      ensures State() == ReadState(old(State()), buf.Length, chunks, decode)
      ensures r == ReadResult(old(State()), buf.Length, chunks, decode)
      ensures r.Ok? ==> buf[..r.value] == ReadBytes(old(State()), buf.Length, chunks, decode) &&
                        buf[r.value..] == old(buf[r.value..])
      ensures r.Err? ==> buf[..] == old(buf[..])
    {
      if bytesRead + RefillThreshold > decodedBufferSize {
        Refill();
      }
      if reader.Some? {
        var c := reader.value;
        var rest := Remaining(c);
        var n := if buf.Length < |rest| then buf.Length else |rest|;
        forall i | 0 <= i < n {
          buf[i] := rest[i];
        }
        reader := Some(c.(position := c.position + n));
        bytesRead := bytesRead + n;
        return Ok(n);
      }
      return Err(RawOsError(0));
    }

    /** `Seek::seek`: delegated to the decoded cursor; an error without one. */
    method Seek(pos: SeekFrom) returns (r: Result<nat, IoError>)
      modifies this
      ensures State() == SeekState(old(State()), pos)
      ensures r == SeekResult(old(State()), pos)
    {
      if reader.None? {
        return Err(RawOsError(0));
      }
      var c := reader.value;
      match pos
      case Start(n) =>
        reader := Some(c.(position := n));
        r := Ok(n);
      case End(d) =>
        if |c.data| + d < 0 {
          r := Err(InvalidInput);
        } else {
          reader := Some(c.(position := |c.data| + d));
          r := Ok(|c.data| + d);
        }
      case Current(d) =>
        if c.position + d < 0 {
          r := Err(InvalidInput);
        } else {
          reader := Some(c.(position := c.position + d));
          r := Ok(c.position + d);
        }
    }

    /** `MediaSource::byte_len`: the encoded content length, whatever has been read. */
    method ByteLen() returns (r: Option<nat>)
      ensures r == Some(contentLength)
    {
      r := Some(contentLength);
    }

    /** `MediaSource::is_seekable`: the source never advertises seeking. */
    method IsSeekable() returns (r: bool)
      ensures !r
    {
      r := false;
    }
  }
}
