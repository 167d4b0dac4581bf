/**
 * The raw PCM frame reader of PCM_Parser.cpp: h__WAVParser, a cursor over
 * the audio data of a WAV, AIFF or RF64 file that hands out one frame
 * buffer's worth of bytes per call, and the public WAVParser that owns it.
 *
 * The file is modelled as its bytes and a read position (Kumu's FileReader,
 * KM_fileio.h is not part of this model): a read of n bytes delivers the
 * min(n, bytes left) bytes at the position and reports RESULT_ENDOFFILE
 * when it delivered fewer than n. The header probes (Wav.h is not part of
 * this model) are opaque: each yields a result, the data start and length,
 * the filled audio descriptor and the frame buffer size.
 */
module PCMParser {
  import opened Common

  /** ChannelFormat_t's CF_NONE. */
  const CF_NONE: nat := 0

  /** The fields of ASDCP::PCM::AudioDescriptor (AS_DCP.h is not part of this model). */
  datatype AudioDescriptor = AudioDescriptor(
    EditRate: Rational,
    AudioSamplingRate: Rational,
    ChannelCount: uint32,
    QuantizationBits: uint32,
    BlockAlign: uint32,
    AvgBps: uint32,
    ContainerDuration: uint32,
    ChannelFormat: nat)

  datatype HeaderKind = WAV | AIFF | RF64

  /**
   * What one header probe yields: ReadFromFile's result and data start, the
   * header's data_len, the descriptor FillADesc produced and the size
   * CalcFrameBufferSize computed from it.
   */
  datatype Probe = Probe(
    result: Result,
    dataStart: uint32,
    dataLength: uint64,
    adesc: AudioDescriptor,
    frameBufferSize: uint32)

  // ---------------------------------------------------------------------------
  // OpenRead: probe order and the derived descriptor

  /** The header that OpenRead settles on: the first probe, in the order WAV, AIFF, RF64, that succeeds. */
  function ChosenHeader(wav: Probe, aiff: Probe, rf64: Probe): (r: Option<HeaderKind>)
    ensures r == Some(WAV) <==> wav.result.Success()
    ensures r == Some(AIFF) <==> !wav.result.Success() && aiff.result.Success()
    ensures r == Some(RF64) <==> !wav.result.Success() && !aiff.result.Success() && rf64.result.Success()
    ensures r == None <==> !wav.result.Success() && !aiff.result.Success() && !rf64.result.Success()
  {
    if wav.result.Success() then Some(WAV)
    else if aiff.result.Success() then Some(AIFF)
    else if rf64.result.Success() then Some(RF64)
    else None
  }

  function ProbeOf(k: HeaderKind, wav: Probe, aiff: Probe, rf64: Probe): Probe {
    match k
    case WAV => wav
    case AIFF => aiff
    case RF64 => rf64
  }

  /** The result OpenRead returns once the file is open: the chosen probe's, or RF64's when all three fail. */
  function ProbeResult(wav: Probe, aiff: Probe, rf64: Probe): (r: Result)
    ensures r.Success() <==> ChosenHeader(wav, aiff, rf64).Some?
    ensures ChosenHeader(wav, aiff, rf64).Some? ==>
      r == ProbeOf(ChosenHeader(wav, aiff, rf64).value, wav, aiff, rf64).result
  {
    if wav.result.Success() then wav.result
    else if aiff.result.Success() then aiff.result
    else rf64.result
  }

  /** OpenRead may divide by the frame buffer size only of the probe it settles on. */
  predicate ProbesDivisible(wav: Probe, aiff: Probe, rf64: Probe) {
    var k := ChosenHeader(wav, aiff, rf64);
    k.Some? ==> ProbeOf(k.value, wav, aiff, rf64).frameBufferSize > 0
  }

  /** ContainerDuration: data_len / frame size in 64 bits, then stored in a 32-bit field. */
  function Duration(dataLength: uint64, frameSize: uint32): (d: uint32)
    requires frameSize > 0
  {
    (dataLength / frameSize) % UINT32_MODULUS
  }

  /** When the frame count fits in 32 bits, the duration counts whole frames: a partial last frame is not counted. */
  lemma DurationCountsWholeFrames(dataLength: uint64, frameSize: uint32)
    requires frameSize > 0
    requires dataLength / frameSize < UINT32_MODULUS
    ensures Duration(dataLength, frameSize) * frameSize <= dataLength
    ensures dataLength < (Duration(dataLength, frameSize) + 1) * frameSize
  {
    var q := dataLength / frameSize;
    assert Duration(dataLength, frameSize) == q;
    assert dataLength == q * frameSize + dataLength % frameSize;
  }

  /** The descriptor OpenRead keeps: the probe's, with ContainerDuration computed and ChannelFormat set to CF_NONE. */
  function OpenedDescriptor(p: Probe): (d: AudioDescriptor)
    requires p.frameBufferSize > 0
    ensures d.ChannelFormat == CF_NONE
    ensures d.ContainerDuration == Duration(p.dataLength, p.frameBufferSize)
    ensures d == p.adesc.(ContainerDuration := d.ContainerDuration, ChannelFormat := CF_NONE)
  {
    p.adesc.(ContainerDuration := Duration(p.dataLength, p.frameBufferSize), ChannelFormat := CF_NONE)
  }

  // ---------------------------------------------------------------------------
  // The read cursor and ReadFrame, as functions of the bytes of the file

  /** The parser's moving state: m_EOF, the file position, m_ReadCount and m_FramesRead. */
  datatype Cursor = Cursor(eof: bool, pos: nat, readCount: uint64, framesRead: uint32)

  /** How many bytes a read of n bytes at pos delivers. */
  function ReadLength(file: Bytes, pos: nat, n: nat): (c: nat)
    ensures c <= n
    ensures c > 0 ==> pos + c <= |file|
    ensures c < n <==> 0 < n && |file| < pos + n
  {
    if pos >= |file| then 0
    else if n <= |file| - pos then n
    else |file| - pos
  }

  /** The bytes a read of n bytes at pos delivers. */
  function Window(file: Bytes, pos: nat, n: nat): (w: Bytes)
    ensures |w| == ReadLength(file, pos, n)
    ensures |w| > 0 ==> w == file[pos..pos + |w|]
  {
    var c := ReadLength(file, pos, n);
    if c == 0 then [] else file[pos..pos + c]
  }

  /** One ReadFrame: its result, the cursor after it, and the bytes it put at the front of the buffer. */
  datatype Step = Step(result: Result, next: Cursor, data: Bytes)

  function ReadFrameSpec(s: Cursor, file: Bytes, frameSize: uint32, capacity: nat): (r: Step)
    ensures s.eof ==> r == Step(EndOfFile, s, [])
    ensures r.result == SmallBuf <==> !s.eof && capacity < frameSize
    ensures r.result == Ok <==> !s.eof && frameSize <= capacity && (frameSize == 0 || s.pos < |file|)
    ensures r.result != Ok && r.result != SmallBuf ==> r.result == EndOfFile
    ensures r.next.eof <==> s.eof || (frameSize <= capacity && 0 < frameSize && |file| < s.pos + frameSize)
    ensures r.result == Ok ==>
      r.data == Window(file, s.pos, frameSize) &&
      r.next.pos == s.pos + |r.data| &&
      r.next.readCount == AddU64(s.readCount, |r.data|) &&
      r.next.framesRead == AddU32(s.framesRead, 1)
    ensures r.result != Ok ==>
      r.data == [] && r.next == s.(eof := r.next.eof)
  {
    if s.eof then Step(EndOfFile, s, [])
    else if capacity < frameSize then Step(SmallBuf, s, [])
    else
      var c := ReadLength(file, s.pos, frameSize);
      if c < frameSize && c == 0 then Step(EndOfFile, s.(eof := true), [])
      else Step(Ok, Cursor(c < frameSize, s.pos + c, AddU64(s.readCount, c), AddU32(s.framesRead, 1)),
                Window(file, s.pos, frameSize))
  }

  function Zeros(n: nat): (z: Bytes)
    ensures |z| == n && forall i :: 0 <= i < n ==> z[i] == 0
  {
    seq(n, i => 0)
  }

  /** The whole buffer after a successful ReadFrame: the bytes read, then zeros up to the capacity. */
  function FrameImage(data: Bytes, capacity: nat): (b: Bytes)
    requires |data| <= capacity
    ensures |b| == capacity && b[..|data|] == data
  {
    data + Zeros(capacity - |data|)
  }

  /** Reset: back to the data start with both counters at zero; m_EOF is kept. */
  function ResetCursor(s: Cursor, dataStart: uint32): (r: Cursor)
    ensures r.eof == s.eof
  {
    s.(pos := dataStart, readCount := 0, framesRead := 0)
  }

  /** Seek(n): position m_DataStart + m_FrameBufferSize * n in 32 bits, m_FramesRead = n - 1 in 32 bits, m_ReadCount = 0. */
  function SeekCursor(s: Cursor, dataStart: uint32, frameSize: uint32, n: uint32): (r: Cursor)
    ensures r.eof == s.eof && r.readCount == 0
    ensures n == 0 ==> r.framesRead == 0xFFFF_FFFF
    ensures n > 0 ==> r.framesRead == n - 1
  {
    s.(pos := AddU32(dataStart, MulU32(frameSize, n)), readCount := 0, framesRead := SubU32(n, 1))
  }

  /** k calls of ReadFrame in a row: the final cursor and every byte delivered, in order. */
  function Run(s: Cursor, file: Bytes, frameSize: uint32, capacity: nat, k: nat): (Cursor, Bytes)
    decreases k
  {
    if k == 0 then (s, [])
    else
      var st := ReadFrameSpec(s, file, frameSize, capacity);
      var rest := Run(st.next, file, frameSize, capacity, k - 1);
      (rest.0, st.data + rest.1)
  }

  // ---------------------------------------------------------------------------
  // Properties of ReadFrame

  /** Once m_EOF is set, no number of further reads delivers anything or moves the cursor. */
  lemma {:induction false} EndOfFileIsSticky(s: Cursor, file: Bytes, frameSize: uint32, capacity: nat, k: nat)
    requires s.eof
    ensures Run(s, file, frameSize, capacity, k) == (s, [])
    decreases k
  {
    if k > 0 {
      assert ReadFrameSpec(s, file, frameSize, capacity) == Step(EndOfFile, s, []);
      EndOfFileIsSticky(s, file, frameSize, capacity, k - 1);
      var r := Run(s, file, frameSize, capacity, k);
      assert r.0 == s && r.1 == [];
    }
  }

  /** Neither Reset nor Seek clears m_EOF: after either, ReadFrame still returns RESULT_ENDOFFILE. */
  lemma EndOfFileSurvivesRewind(s: Cursor, file: Bytes, dataStart: uint32, frameSize: uint32, capacity: nat, n: uint32)
    requires s.eof
    ensures ReadFrameSpec(ResetCursor(s, dataStart), file, frameSize, capacity).result == EndOfFile
    ensures ReadFrameSpec(SeekCursor(s, dataStart, frameSize, n), file, frameSize, capacity).result == EndOfFile
  {
  }

  /** The number of bytes in k frames of size bytes each. */
  function FramesBytes(k: nat, size: nat): nat {
    k * size
  }

  /** k frames are one frame more than k - 1 frames. */
  lemma MulSucc(k: nat, size: nat)
    requires k > 0
    ensures FramesBytes(k, size) == FramesBytes(k - 1, size) + size
  {
  }

  function Min(x: nat, y: nat): nat {
    if x <= y then x else y
  }

  lemma SlicesJoin(file: Bytes, lo: nat, mid: nat, hi: nat)
    requires lo <= mid <= hi <= |file|
    ensures file[lo..mid] + file[mid..hi] == file[lo..hi]
  {
  }

  /** One read from a cursor inside the file: it delivers the next frame, or the tail of the file and sets m_EOF. */
  lemma FirstRead(s: Cursor, file: Bytes, frameSize: uint32, capacity: nat)
    requires !s.eof && s.pos <= |file|
    requires 0 < frameSize <= capacity
    ensures var st := ReadFrameSpec(s, file, frameSize, capacity);
      if st.next.eof then |file| < s.pos + frameSize && st.data == file[s.pos..|file|]
      else s.pos + frameSize <= |file| && st.next.pos == s.pos + frameSize && st.data == file[s.pos..st.next.pos]
  {
  }

  /**
   * Successive reads deliver the file's bytes from the cursor on, in order,
   * with no gap and no overlap: k reads yield exactly the next k frames, cut
   * short at the end of the file.
   */
  lemma {:induction false} ReadsDeliverBytesInOrder(s: Cursor, file: Bytes, frameSize: uint32, capacity: nat, k: nat)
    requires !s.eof && s.pos <= |file|
    requires 0 < frameSize <= capacity
    ensures Run(s, file, frameSize, capacity, k).1 == file[s.pos..Min(s.pos + FramesBytes(k, frameSize), |file|)]
    decreases k
  {
    if k > 0 {
      var st := ReadFrameSpec(s, file, frameSize, capacity);
      var rest := Run(st.next, file, frameSize, capacity, k - 1);
      var E := Min(s.pos + FramesBytes(k, frameSize), |file|);
      MulSucc(k, frameSize);
      FirstRead(s, file, frameSize, capacity);
      if st.next.eof {
        EndOfFileIsSticky(st.next, file, frameSize, capacity, k - 1);
        assert rest.1 == [] && E == |file|;
      } else {
        ReadsDeliverBytesInOrder(st.next, file, frameSize, capacity, k - 1);
        assert st.next.pos + FramesBytes(k - 1, frameSize) == s.pos + FramesBytes(k, frameSize);
        assert rest.1 == file[st.next.pos..E];
        SlicesJoin(file, s.pos, st.next.pos, E);
      }
      assert Run(s, file, frameSize, capacity, k).1 == st.data + rest.1;
    }
  }

  /**
   * While no read reaches the end of the file and no counter wraps, k reads
   * move the position by k frames and add k to m_FramesRead and k frames'
   * bytes to m_ReadCount.
   */
  lemma {:induction false} ReadsAdvanceByFrames(s: Cursor, file: Bytes, frameSize: uint32, capacity: nat, k: nat)
    requires !s.eof && 0 < frameSize <= capacity
    requires s.pos + FramesBytes(k, frameSize) <= |file|
    requires s.framesRead + k < UINT32_MODULUS && s.readCount + FramesBytes(k, frameSize) < UINT64_MODULUS
    ensures Run(s, file, frameSize, capacity, k).0 ==
      Cursor(false, s.pos + FramesBytes(k, frameSize), s.readCount + FramesBytes(k, frameSize), s.framesRead + k)
    decreases k
  {
    if k > 0 {
      var total := FramesBytes(k, frameSize);
      var m := FramesBytes(k - 1, frameSize);
      MulSucc(k, frameSize);
      assert total == m + frameSize;
      assert s.pos + frameSize <= |file| && s.readCount + frameSize < UINT64_MODULUS;
      var st := ReadFrameSpec(s, file, frameSize, capacity);
      assert st.next == Cursor(false, s.pos + frameSize, s.readCount + frameSize, s.framesRead + 1);
      assert st.next.pos + m <= |file| && st.next.readCount + m < UINT64_MODULUS;
      ReadsAdvanceByFrames(st.next, file, frameSize, capacity, k - 1);
      var rest := Run(st.next, file, frameSize, capacity, k - 1).0;
      assert rest == Cursor(false, st.next.pos + m, st.next.readCount + m, st.next.framesRead + (k - 1));
      assert Run(s, file, frameSize, capacity, k).0 == rest;
    }
  }

  /**
   * After Reset, the frame read at m_DataStart + j * size is numbered j: the
   * position stays level with m_FramesRead frames past the data start.
   */
  lemma ResetNumbersFramesFromZero(s: Cursor, file: Bytes, dataStart: uint32, frameSize: uint32, capacity: nat, j: nat)
    requires !s.eof && 0 < frameSize <= capacity
    requires dataStart + (j + 1) * frameSize <= |file| && j < UINT32_MODULUS && j * frameSize < UINT64_MODULUS
    ensures var c := Run(ResetCursor(s, dataStart), file, frameSize, capacity, j).0;
      c.framesRead == j && c.pos == dataStart + j * frameSize &&
      ReadFrameSpec(c, file, frameSize, capacity).result == Ok &&
      ReadFrameSpec(c, file, frameSize, capacity).data == file[dataStart + j * frameSize..dataStart + (j + 1) * frameSize]
  {
    assert j * frameSize <= (j + 1) * frameSize;
    ReadsAdvanceByFrames(ResetCursor(s, dataStart), file, frameSize, capacity, j);
  }

  /**
   * After Seek(n) with n > 0, the frame read at m_DataStart + (n + j) * size is
   * numbered n + j - 1: one less than Reset gives the frame at that offset.
   * After Seek(0) the first frame read is numbered 0xFFFFFFFF.
   */
  lemma SeekNumbersFramesFromNMinusOne(s: Cursor, file: Bytes, dataStart: uint32, frameSize: uint32, capacity: nat, n: uint32, j: nat)
    requires !s.eof && 0 < frameSize <= capacity
    requires dataStart + (n + j + 1) * frameSize <= |file| && dataStart + n * frameSize < UINT32_MODULUS
    requires 0 < n && n + j < UINT32_MODULUS && j * frameSize < UINT64_MODULUS
    ensures var c := Run(SeekCursor(s, dataStart, frameSize, n), file, frameSize, capacity, j).0;
      c.framesRead == n + j - 1 && c.pos == dataStart + (n + j) * frameSize &&
      ReadFrameSpec(c, file, frameSize, capacity).result == Ok
  {
    assert frameSize * n == n * frameSize;
    assert MulU32(frameSize, n) == n * frameSize;
    var c0 := SeekCursor(s, dataStart, frameSize, n);
    assert c0.pos == dataStart + n * frameSize;
    assert (n + j) * frameSize == n * frameSize + j * frameSize;
    assert (n + j + 1) * frameSize == (n + j) * frameSize + frameSize;
    ReadsAdvanceByFrames(c0, file, frameSize, capacity, j);
  }

  lemma SeekZeroNumbersFirstFrameMax(s: Cursor, file: Bytes, dataStart: uint32, frameSize: uint32, capacity: nat)
    requires !s.eof && 0 < frameSize <= capacity && dataStart < |file|
    ensures var c := SeekCursor(s, dataStart, frameSize, 0);
      c.pos == dataStart && c.framesRead == 0xFFFF_FFFF &&
      ReadFrameSpec(c, file, frameSize, capacity).result == Ok &&
      ReadFrameSpec(c, file, frameSize, capacity).next.framesRead == 0
  {
    assert MulU32(frameSize, 0) == 0;
  }

  // ---------------------------------------------------------------------------
  // The imperative reader

  /** The caller's frame buffer: a fixed-capacity byte array, its size and its frame number. */
  class FrameBuffer {
    const data: array<uint8>
    var size: nat
    var frameNumber: uint32

    constructor (capacity: nat)
      ensures fresh(data) && data.Length == capacity
      ensures size == 0 && frameNumber == 0
    {
      data := new uint8[capacity](i => 0);
      size := 0;
      frameNumber := 0;
    }
  }

  /** Kumu's FileReader over the bytes of one file. */
  class FileReader {
    var contents: Bytes
    var pos: nat

    constructor ()
      ensures contents == [] && pos == 0
    {
      contents := [];
      pos := 0;
    }

    /** Opens the file: its bytes become readable from offset 0. */
    method Open(file: Bytes)
      modifies this
      ensures contents == file && pos == 0
    {
      contents := file;
      pos := 0;
    }

    /** Seek: any offset, including one past the end, where reads then deliver nothing. */
    method Seek(p: nat) returns (result: Result)
      modifies this
      ensures contents == old(contents) && pos == p && result == Ok
    {
      pos := p;
      result := Ok;
    }

    /** Read: copies up to n bytes into the front of buf, and reports RESULT_ENDOFFILE on a short read. */
    method Read(buf: array<uint8>, n: nat) returns (result: Result, count: nat)
      requires n <= buf.Length
      modifies this, buf
      ensures contents == old(contents)
      ensures count == ReadLength(contents, old(pos), n) && pos == old(pos) + count
      ensures result == if count < n then EndOfFile else Ok
      ensures buf[..] == Window(contents, old(pos), n) + old(buf[..])[count..]
    {
      count := ReadLength(contents, pos, n);
      for i := 0 to count
        modifies buf
        invariant forall j :: 0 <= j < i ==> buf[j] == contents[pos + j]
        invariant forall j :: i <= j < buf.Length ==> buf[j] == old(buf[j])
      {
        buf[i] := contents[pos + i];
      }
      assert buf[..] == Window(contents, pos, n) + old(buf[..])[count..];
      pos := pos + count;
      result := if count < n then EndOfFile else Ok;
    }
  }

  /** h__WAVParser. */
  class WAVParserImpl {
    const reader: FileReader
    var eof: bool
    var dataStart: uint32
    var dataLength: uint64
    var readCount: uint64
    var frameBufferSize: uint32
    var framesRead: uint32
    var adesc: AudioDescriptor

    constructor ()
      ensures fresh(reader) && reader.contents == [] && reader.pos == 0
      ensures !eof && dataStart == 0 && dataLength == 0 && readCount == 0
      ensures frameBufferSize == 0 && framesRead == 0
    {
      reader := new FileReader();
      eof := false;
      dataStart := 0;
      dataLength := 0;
      readCount := 0;
      frameBufferSize := 0;
      framesRead := 0;
      adesc := AudioDescriptor(Rational(0, 0), Rational(0, 0), 0, 0, 0, 0, 0, CF_NONE);
    }

    function State(): Cursor
      reads this, reader
    {
      Cursor(eof, reader.pos, readCount, framesRead)
    }

    method Reset()
      modifies this, reader
      ensures State() == ResetCursor(old(State()), dataStart)
      ensures reader.contents == old(reader.contents) && dataStart == old(dataStart)
      ensures frameBufferSize == old(frameBufferSize) && dataLength == old(dataLength) && adesc == old(adesc)
    {
      var _ := reader.Seek(dataStart);
      framesRead := 0;
      readCount := 0;
    }

    /** Applies a successful probe: descriptor, frame size, data length, then Reset. */
    method Accept(p: Probe)
      requires p.frameBufferSize > 0
      modifies this, reader
      ensures adesc == OpenedDescriptor(p) && frameBufferSize == p.frameBufferSize
      ensures dataStart == p.dataStart && dataLength == p.dataLength
      ensures State() == ResetCursor(old(State()), p.dataStart)
      ensures reader.contents == old(reader.contents)
    {
      dataStart := p.dataStart;
      adesc := p.adesc;
      frameBufferSize := p.frameBufferSize;
      dataLength := p.dataLength;
      adesc := adesc.(ContainerDuration := ((dataLength / frameBufferSize) % UINT32_MODULUS) as uint32);
      adesc := adesc.(ChannelFormat := CF_NONE);
      Reset();
    }

    /**
     * OpenRead: opens the file (openResult is what the open returned), then
     * tries the WAV, AIFF and RF64 headers in turn, each from offset 0.
     */
    method OpenRead(openResult: Result, file: Bytes, wav: Probe, aiff: Probe, rf64: Probe) returns (result: Result)
      requires ProbesDivisible(wav, aiff, rf64)
      modifies this, reader
      ensures !openResult.Success() ==> result == openResult
      ensures openResult.Success() ==> result == ProbeResult(wav, aiff, rf64)
      ensures eof == old(eof)
      ensures result.Success() ==>
        var p := ProbeOf(ChosenHeader(wav, aiff, rf64).value, wav, aiff, rf64);
        reader.contents == file &&
        adesc == OpenedDescriptor(p) && frameBufferSize == p.frameBufferSize &&
        dataStart == p.dataStart && dataLength == p.dataLength &&
        State() == Cursor(old(eof), p.dataStart, 0, 0)
    {
      result := openResult;
      if result.Success() {
        reader.Open(file);
        result := wav.result;
        if result.Success() {
          Accept(wav);
        } else {
          var _ := reader.Seek(0);
          result := aiff.result;
          if result.Success() {
            Accept(aiff);
          } else {
            var _ := reader.Seek(0);
            result := rf64.result;
            if result.Success() {
              Accept(rf64);
            }
          }
        }
      }
    }

    method ReadFrame(fb: FrameBuffer) returns (result: Result)
      modifies this, reader, fb, fb.data
      ensures reader.contents == old(reader.contents) && dataStart == old(dataStart)
      ensures frameBufferSize == old(frameBufferSize) && dataLength == old(dataLength) && adesc == old(adesc)
      ensures var st := ReadFrameSpec(old(State()), reader.contents, frameBufferSize, fb.data.Length);
        result == st.result && State() == st.next && fb.size == |st.data| &&
        (result == Ok ==> fb.frameNumber == old(framesRead) && fb.data[..] == FrameImage(st.data, fb.data.Length)) &&
        (result != Ok ==> fb.frameNumber == old(fb.frameNumber) && fb.data[..] == old(fb.data[..]))
    {
      fb.size := 0;
      if eof {
        return EndOfFile;
      }
      if fb.data.Length < frameBufferSize {
        return SmallBuf;
      }
      var count;
      result, count := reader.Read(fb.data, frameBufferSize);
      if result == EndOfFile {
        eof := true;
        if count > 0 {
          result := Ok;
        }
      }
      if result.Success() {
        readCount := AddU64(readCount, count);
        fb.size := count;
        fb.frameNumber := framesRead;
        framesRead := AddU32(framesRead, 1);
        ghost var got := fb.data[..count];
        if count < fb.data.Length {
          for i := count to fb.data.Length
            modifies fb.data
            invariant fb.data[..count] == got
            invariant forall j :: count <= j < i ==> fb.data[j] == 0
          {
            fb.data[i] := 0;
          }
        }
        assert fb.data[..] == FrameImage(got, fb.data.Length);
      }
    }

    method Seek(n: uint32) returns (result: Result)
      modifies this, reader
      ensures State() == SeekCursor(old(State()), dataStart, frameBufferSize, n) && result == Ok
      ensures reader.contents == old(reader.contents) && dataStart == old(dataStart)
      ensures frameBufferSize == old(frameBufferSize) && dataLength == old(dataLength) && adesc == old(adesc)
    {
      framesRead := SubU32(n, 1);
      readCount := 0;
      result := reader.Seek(AddU32(dataStart, MulU32(frameBufferSize, n)));
    }
  }

  /** The public WAVParser: every call but OpenRead returns RESULT_INIT while no parser is open. */
  class WAVParser {
    var parser: WAVParserImpl?

    constructor ()
      ensures parser == null
    {
      parser := null;
    }

    function Footprint(): set<object>
      reads this
    {
      if parser == null then {} else {parser, parser.reader}
    }

    /** A new parser is made for every OpenRead, and dropped again when OpenRead fails. */
    method OpenRead(openResult: Result, file: Bytes, wav: Probe, aiff: Probe, rf64: Probe) returns (result: Result)
      requires ProbesDivisible(wav, aiff, rf64)
      modifies this
      ensures result == if openResult.Success() then ProbeResult(wav, aiff, rf64) else openResult
      ensures parser != null <==> result.Success()
      ensures parser != null ==>
        var p := ProbeOf(ChosenHeader(wav, aiff, rf64).value, wav, aiff, rf64);
        fresh(parser) && fresh(parser.reader) && parser.reader.contents == file &&
        parser.adesc == OpenedDescriptor(p) && parser.frameBufferSize == p.frameBufferSize &&
        parser.dataStart == p.dataStart && parser.dataLength == p.dataLength &&
        parser.State() == Cursor(false, p.dataStart, 0, 0)
    {
      parser := new WAVParserImpl();
      result := parser.OpenRead(openResult, file, wav, aiff, rf64);
      if !result.Success() {
        parser := null;
      }
    }

    method Reset() returns (result: Result)
      modifies Footprint()
      ensures parser == old(parser) && (result == Init <==> parser == null) && (result == Ok <==> parser != null)
      ensures parser != null ==>
        parser.State() == ResetCursor(old(parser.State()), parser.dataStart) &&
        parser.reader.contents == old(parser.reader.contents) && parser.dataStart == old(parser.dataStart) &&
        parser.frameBufferSize == old(parser.frameBufferSize) && parser.adesc == old(parser.adesc) &&
        parser.dataLength == old(parser.dataLength)
    {
      if parser == null {
        return Init;
      }
      parser.Reset();
      result := Ok;
    }

    method ReadFrame(fb: FrameBuffer) returns (result: Result)
      modifies Footprint(), fb, fb.data
      ensures parser == old(parser)
      ensures parser == null ==>
        result == Init && fb.size == old(fb.size) && fb.frameNumber == old(fb.frameNumber) && fb.data[..] == old(fb.data[..])
      ensures parser != null ==>
        var st := ReadFrameSpec(old(parser.State()), parser.reader.contents, parser.frameBufferSize, fb.data.Length);
        result == st.result && parser.State() == st.next && fb.size == |st.data| &&
        parser.reader.contents == old(parser.reader.contents) && parser.frameBufferSize == old(parser.frameBufferSize) &&
        (result == Ok ==> fb.frameNumber == old(parser.framesRead) && fb.data[..] == FrameImage(st.data, fb.data.Length)) &&
        (result != Ok ==> fb.frameNumber == old(fb.frameNumber) && fb.data[..] == old(fb.data[..]))
      ensures parser != null ==>
        parser.dataStart == old(parser.dataStart) && parser.dataLength == old(parser.dataLength) &&
        parser.adesc == old(parser.adesc)
    {
      if parser == null {
        return Init;
      }
      result := parser.ReadFrame(fb);
    }

    method FillAudioDescriptor(d: AudioDescriptor) returns (result: Result, d': AudioDescriptor)
      ensures result == Init <==> parser == null
      ensures parser == null ==> d' == d
      ensures parser != null ==> result == Ok && d' == parser.adesc
    {
      if parser == null {
        return Init, d;
      }
      return Ok, parser.adesc;
    }

    method Seek(n: uint32) returns (result: Result)
      modifies Footprint()
      ensures parser == old(parser) && (result == Init <==> parser == null) && (result == Ok <==> parser != null)
      ensures parser != null ==>
        parser.State() == SeekCursor(old(parser.State()), parser.dataStart, parser.frameBufferSize, n) &&
        parser.reader.contents == old(parser.reader.contents) && parser.dataStart == old(parser.dataStart) &&
        parser.frameBufferSize == old(parser.frameBufferSize) && parser.adesc == old(parser.adesc) &&
        parser.dataLength == old(parser.dataLength)
    {
      if parser == null {
        return Init;
      }
      result := parser.Seek(n);
    }
  }
}
