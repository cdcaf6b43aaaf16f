/** Podman's multiplexed output streams: client/podman/rest.go.

    A stream is a series of frames, each a header of eight bytes (stream number, three bytes that
    are ignored, and the payload size as four big-endian bytes) followed by the payload. */
module Streams {
  import opened Prelude

  type byte = b: int | 0 <= b < 256

  const NEWLINE: byte := 10

  // ---- Frames --------------------------------------------------------------------------------

  datatype Frame = Frame(stream: byte, pad0: byte, pad1: byte, pad2: byte, payload: seq<byte>)

  /** The size fits its four bytes. */
  ghost predicate Sized(f: Frame) {
    |f.payload| < 0x1_0000_0000
  }

  ghost predicate AllSized(fs: seq<Frame>) {
    forall i | 0 <= i < |fs| :: Sized(fs[i])
  }

  function Uint32(b0: byte, b1: byte, b2: byte, b3: byte): nat {
    b0 * 0x100_0000 + b1 * 0x1_0000 + b2 * 0x100 + b3
  }

  function BigEndian(n: nat): seq<byte>
    requires n < 0x1_0000_0000
  {
    [n / 0x100_0000, n / 0x1_0000 % 0x100, n / 0x100 % 0x100, n % 0x100]
  }

  lemma BigEndianRoundTrip(n: nat)
    requires n < 0x1_0000_0000
    ensures var b := BigEndian(n); Uint32(b[0], b[1], b[2], b[3]) == n
  {
    assert n == n / 0x100 * 0x100 + n % 0x100;
    assert n / 0x100 == n / 0x100 / 0x100 * 0x100 + n / 0x100 % 0x100;
    assert n / 0x100 / 0x100 == n / 0x1_0000;
    assert n / 0x1_0000 == n / 0x1_0000 / 0x100 * 0x100 + n / 0x1_0000 % 0x100;
    assert n / 0x1_0000 / 0x100 == n / 0x100_0000;
  }

  lemma LowByte(q: nat, r: byte)
    ensures (q * 0x100 + r) / 0x100 == q && (q * 0x100 + r) % 0x100 == r
  {
  }

  lemma Shifts(n: nat)
    ensures n / 0x1_0000 == n / 0x100 / 0x100 && n / 0x100_0000 == n / 0x1_0000 / 0x100
  {
  }

  lemma Uint32RoundTrip(b0: byte, b1: byte, b2: byte, b3: byte)
    ensures Uint32(b0, b1, b2, b3) < 0x1_0000_0000
    ensures BigEndian(Uint32(b0, b1, b2, b3)) == [b0, b1, b2, b3]
  {
    var n := Uint32(b0, b1, b2, b3);
    LowByte(b0, b1);
    LowByte(b0 * 0x100 + b1, b2);
    LowByte((b0 * 0x100 + b1) * 0x100 + b2, b3);
    Shifts(n);
  }

  function Header(f: Frame): (h: seq<byte>)
    requires Sized(f)
    ensures |h| == 8
  {
    [f.stream, f.pad0, f.pad1, f.pad2] + BigEndian(|f.payload|)
  }

  function Encode(f: Frame): seq<byte>
    requires Sized(f)
  {
    Header(f) + f.payload
  }

  function EncodeAll(fs: seq<Frame>): seq<byte>
    requires AllSized(fs)
  {
    if fs == [] then [] else Encode(fs[0]) + EncodeAll(fs[1..])
  }

  /** The first frame of a stream, where there is a whole one. */
  function First(data: seq<byte>): Option<Frame> {
    if |data| < 8 || |data| < 8 + Uint32(data[4], data[5], data[6], data[7]) then None
    else Some(Frame(data[0], data[1], data[2], data[3], data[8..8 + Uint32(data[4], data[5], data[6], data[7])]))
  }

  /** The frames of a stream; `None` where it is cut short, which the source does not survive. */
  function Parse(data: seq<byte>): Option<seq<Frame>>
    decreases |data|
  {
    if data == [] then Some([])
    else
      match First(data)
      case None => None
      case Some(f) =>
        match Parse(data[8 + |f.payload|..])
        case None => None
        case Some(rest) => Some([f] + rest)
  }

  lemma FirstOfEncoded(f: Frame, rest: seq<byte>)
    requires Sized(f)
    ensures First(Encode(f) + rest) == Some(f) && (Encode(f) + rest)[8 + |f.payload|..] == rest
  {
    BigEndianRoundTrip(|f.payload|);
    var data := Encode(f) + rest;
    assert data[8..8 + |f.payload|] == f.payload;
  }

  lemma EncodedFirst(data: seq<byte>)
    requires First(data).Some?
    ensures var f := First(data).value; Sized(f) && Encode(f) + data[8 + |f.payload|..] == data
  {
    var f := First(data).value;
    HeaderOfFirst(data);
    assert data == data[..8] + data[8..8 + |f.payload|] + data[8 + |f.payload|..];
  }

  lemma HeaderOfFirst(data: seq<byte>)
    requires First(data).Some?
    ensures var f := First(data).value; Sized(f) && Header(f) == data[..8] && f.payload == data[8..8 + |f.payload|]
  {
    Uint32RoundTrip(data[4], data[5], data[6], data[7]);
    var f := First(data).value;
    var h := Header(f);
    assert |h| == 8 && forall i | 0 <= i < 8 :: h[i] == data[i];
  }

  /** Every list of frames is read back from its encoding. */
  lemma {:induction false} ParseEncoded(fs: seq<Frame>)
    requires AllSized(fs)
    ensures Parse(EncodeAll(fs)) == Some(fs)
  {
    if fs != [] {
      assert AllSized(fs[1..]);
      FirstOfEncoded(fs[0], EncodeAll(fs[1..]));
      ParseEncoded(fs[1..]);
      assert fs == [fs[0]] + fs[1..];
    }
  }

  /** A stream that can be read is the encoding of what was read. */
  lemma {:induction false} EncodeParsed(data: seq<byte>)
    requires Parse(data).Some?
    ensures AllSized(Parse(data).value) && EncodeAll(Parse(data).value) == data
    decreases |data|
  {
    if data != [] {
      var f := First(data).value;
      var rest := data[8 + |f.payload|..];
      EncodedFirst(data);
      EncodeParsed(rest);
      var fs := Parse(data).value;
      assert fs[1..] == Parse(rest).value;
    }
  }

  /** A frame on the wire: the stream, three bytes, the size of the payload with its highest byte first,
      and the payload. */
  lemma FrameLayout(f: Frame)
    requires Sized(f)
    ensures var b := Encode(f);
            && |b| == 8 + |f.payload| && b[0] == f.stream && b[1..4] == [f.pad0, f.pad1, f.pad2] && b[8..] == f.payload
            && b[4] as int * 0x100_0000 + b[5] as int * 0x1_0000 + b[6] as int * 0x100 + b[7] as int == |f.payload|
  {
    BigEndianRoundTrip(|f.payload|);
  }

  // ---- The demultiplexer ---------------------------------------------------------------------

  type Output = map<byte, seq<byte>>

  function OutputOf(out: Output, stream: byte): seq<byte> {
    if stream in out then out[stream] else []
  }

  /** What frame `f` adds to the output. */
  function Collect1(out: Output, f: Frame): Output {
    out[f.stream := OutputOf(out, f.stream) + f.payload]
  }

  function Collect(out: Output, fs: seq<Frame>): Output
    decreases fs
  {
    if fs == [] then out else Collect(Collect1(out, fs[0]), fs[1..])
  }

  const NO_OUTPUT: Output := map[0 := [], 1 := [], 2 := []]

  /** The payloads of one stream, in order. */
  function Payloads(fs: seq<Frame>, stream: byte): seq<byte> {
    if fs == [] then []
    else (if fs[0].stream == stream then fs[0].payload else []) + Payloads(fs[1..], stream)
  }

  lemma {:induction false} CollectIsPayloads(out: Output, fs: seq<Frame>, stream: byte)
    ensures OutputOf(Collect(out, fs), stream) == OutputOf(out, stream) + Payloads(fs, stream)
    decreases fs
  {
    if fs != [] {
      CollectIsPayloads(Collect1(out, fs[0]), fs[1..], stream);
    }
  }

  /** The output of a stream is that of its frames, one after the other: a frame of the stream gives its
      payload, one of another stream nothing. */
  lemma {:induction false} PayloadsInOrder(fs: seq<Frame>, f: Frame, gs: seq<Frame>, stream: byte)
    ensures Payloads(fs + [f] + gs, stream) ==
              Payloads(fs, stream) + (if f.stream == stream then f.payload else []) + Payloads(gs, stream)
    ensures Payloads([], stream) == []
    decreases fs
  {
    var all := fs + [f] + gs;
    if fs == [] {
      assert all[1..] == gs;
    } else {
      assert all[1..] == fs[1..] + [f] + gs;
      PayloadsInOrder(fs[1..], f, gs, stream);
    }
  }

  function PayloadBytes(fs: seq<Frame>): nat {
    if fs == [] then 0 else |fs[0].payload| + PayloadBytes(fs[1..])
  }

  lemma {:induction false} EncodedLength(fs: seq<Frame>)
    requires AllSized(fs)
    ensures |EncodeAll(fs)| == PayloadBytes(fs) + 8 * |fs|
  {
    if fs != [] {
      assert AllSized(fs[1..]);
      EncodedLength(fs[1..]);
    }
  }

  /** What reading `data` comes to, given the output so far. */
  ghost predicate Reads(data: seq<byte>, before: Output, ok: bool, after: Output) {
    match Parse(data)
    case None => !ok
    case Some(fs) => ok && after == Collect(before, fs)
  }

  /** Reading a stream is reading its first frame and then what follows it. */
  lemma ReadOneMore(data: seq<byte>, before: Output, ok: bool, after: Output)
    requires First(data).Some?
    requires Reads(data[8 + |First(data).value.payload|..], Collect1(before, First(data).value), ok, after)
    ensures Reads(data, before, ok, after)
  {
    var f, rest := First(data).value, data[8 + |First(data).value.payload|..];
    if Parse(rest).Some? {
      assert ([f] + Parse(rest).value)[1..] == Parse(rest).value;
    }
  }

  /** The frame at `offset`; `ok` is false where the source would slice past the end of the data. */
  method FrameAt(data: seq<byte>, offset: nat) returns (ok: bool, streamId: byte, frame: seq<byte>)
    requires offset < |data|
    ensures ok <==> First(data[offset..]).Some?
    ensures ok ==> streamId == First(data[offset..]).value.stream && frame == First(data[offset..]).value.payload
  {
    ghost var tail := data[offset..];
    if |data| < offset + 8 {
      return false, 0, [];
    }
    var header := data[offset..offset + 8];
    assert header == tail[..8];
    streamId := header[0];
    var size := Uint32(header[4], header[5], header[6], header[7]);
    if |data| < offset + 8 + size {
      return false, 0, [];
    }
    ok, frame := true, data[offset + 8..offset + 8 + size];
    assert tail[8..8 + size] == frame;
  }

  class MultiplexedBodyReader {
    var output: Output

    constructor ()
      ensures output == map[]
    {
      output := map[];
    }

    /** `readStreams`: reads frames from `offset` to the end.  `ok` is false where the source would
        slice past the end of the data. */
    method ReadStreams(offset: nat, data: seq<byte>) returns (ok: bool, end: nat)
      requires offset <= |data|
      modifies this
      ensures Reads(data[offset..], if offset == 0 then NO_OUTPUT else old(output), ok, output)
      ensures (ok ==> end == |data|)
      decreases |data| - offset
    {
      if offset == 0 {
        output := NO_OUTPUT;
      }
      if offset == |data| {
        return true, offset;
      }
      var streamId, frame;
      ok, streamId, frame := FrameAt(data, offset);
      if !ok {
        return false, offset;
      }
      ghost var before := output;
      output := output[streamId := OutputOf(output, streamId) + frame];
      ok, end := ReadStreams(offset + 8 + |frame|, data);
      assert data[offset..][8 + |frame|..] == data[offset + 8 + |frame|..];
      ReadOneMore(data[offset..], before, ok, output);
    }

    /** `Consume`: what the caller gets is standard output followed by standard error. */
    method Consume(data: seq<byte>) returns (ok: bool, body: seq<byte>)
      modifies this
      ensures ok <==> Parse(data).Some?
      ensures ok ==> body == Payloads(Parse(data).value, 1) + Payloads(Parse(data).value, 2)
    {
      var end;
      ok, end := ReadStreams(0, data);
      assert data[0..] == data;
      if !ok {
        return false, [];
      }
      CollectIsPayloads(NO_OUTPUT, Parse(data).value, 1);
      CollectIsPayloads(NO_OUTPUT, Parse(data).value, 2);
      body := OutputOf(output, 1) + OutputOf(output, 2);
    }
  }

  /** A stream can be demultiplexed if and only if it is the encoding of some frames; each stream's
      output is then the concatenation of its payloads, and no byte is unaccounted for. */
  lemma DemultiplexRoundTrip(data: seq<byte>)
    ensures Parse(data).Some? <==> exists fs :: AllSized(fs) && EncodeAll(fs) == data
    ensures forall fs | AllSized(fs) && EncodeAll(fs) == data :: Parse(data) == Some(fs) && Demultiplexed(data, fs)
  {
    if Parse(data).Some? {
      EncodeParsed(data);
    }
    forall fs | AllSized(fs) && EncodeAll(fs) == data ensures Parse(data) == Some(fs) && Demultiplexed(data, fs) {
      ParseEncoded(fs);
      EncodedIsDemultiplexed(fs);
    }
  }

  /** Each stream's output is the concatenation of its payloads; the bytes are payloads and headers. */
  ghost predicate Demultiplexed(data: seq<byte>, fs: seq<Frame>) {
    && (forall s: byte :: OutputOf(Collect(NO_OUTPUT, fs), s) == Payloads(fs, s))
    && |data| == PayloadBytes(fs) + 8 * |fs|
  }

  lemma EncodedIsDemultiplexed(fs: seq<Frame>)
    requires AllSized(fs)
    ensures Demultiplexed(EncodeAll(fs), fs)
  {
    EncodedLength(fs);
    forall s: byte ensures OutputOf(Collect(NO_OUTPUT, fs), s) == Payloads(fs, s) {
      CollectIsPayloads(NO_OUTPUT, fs, s);
    }
  }

  // ---- The log reader ------------------------------------------------------------------------

  /** Skips `8 - idx` bytes, and eight more after every newline that is not skipped. */
  function Strip(data: seq<byte>, idx: nat): seq<byte>
    requires idx <= 8
    decreases data
  {
    if data == [] then []
    else if idx < 8 then Strip(data[1..], idx + 1)
    else [data[0]] + Strip(data[1..], if data[0] == NEWLINE then 0 else 8)
  }

  /** Everything before the first byte 0 or 1. */
  function UpToControl(data: seq<byte>): seq<byte> {
    if data == [] || data[0] < 2 then [] else [data[0]] + UpToControl(data[1..])
  }

  function ReadLog(data: seq<byte>): seq<byte> {
    UpToControl(Strip(data, 0))
  }

  method StripHeaders(data: seq<byte>) returns (clean: seq<byte>)
    ensures clean == Strip(data, 0)
  {
    clean := [];
    var idx := 0;
    for i := 0 to |data|
      invariant idx <= 8
      invariant clean + Strip(data[i..], idx) == Strip(data, 0)
    {
      var v := data[i];
      assert data[i..][0] == v && data[i..][1..] == data[i + 1..];
      if idx < 8 {
        idx := idx + 1;
        continue;
      } else if v == NEWLINE {
        idx := 0;
      }
      clean := clean + [v];
    }
  }

  method CutAtControl(data: seq<byte>) returns (clean: seq<byte>)
    ensures clean == UpToControl(data)
  {
    for i := 0 to |data|
      invariant data[..i] + UpToControl(data[i..]) == UpToControl(data)
    {
      assert data[i..][1..] == data[i + 1..];
      if data[i] < 2 {
        assert UpToControl(data[i..]) == [];
        return data[..i];
      }
      assert data[..i + 1] == data[..i] + [data[i]];
    }
    assert data[..|data|] == data && UpToControl(data[|data|..]) == [];
    clean := data;
  }

  /** `responseReaderOctetStreamBody.Consume`. */
  method ConsumeLog(data: seq<byte>) returns (clean: seq<byte>)
    ensures clean == ReadLog(data)
  {
    var stripped := StripHeaders(data);
    clean := CutAtControl(stripped);
  }

  /** One line: no byte below 2, a newline at the end and nowhere else. */
  ghost predicate IsLine(s: seq<byte>) {
    |s| > 0 && s[|s| - 1] == NEWLINE && IsPartLine(s[..|s| - 1])
  }

  ghost predicate IsPartLine(s: seq<byte>) {
    forall i | 0 <= i < |s| :: s[i] >= 2 && s[i] != NEWLINE
  }

  /** Standard output only, one line a frame; the last line may lack its newline. */
  ghost predicate LinePerFrame(fs: seq<Frame>) {
    forall i | 0 <= i < |fs| ::
      fs[i].stream == 1 && (IsLine(fs[i].payload) || (i == |fs| - 1 && IsPartLine(fs[i].payload)))
  }

  lemma {:induction false} StripSkips(data: seq<byte>, idx: nat)
    requires idx <= 8 && 8 - idx <= |data|
    ensures Strip(data, idx) == Strip(data[8 - idx..], 8)
    decreases data
  {
    if idx < 8 {
      StripSkips(data[1..], idx + 1);
      assert data[1..][8 - (idx + 1)..] == data[8 - idx..];
    } else {
      assert data[0..] == data;
    }
  }

  lemma {:induction false} StripPart(line: seq<byte>, rest: seq<byte>)
    requires IsPartLine(line)
    ensures Strip(line + rest, 8) == line + Strip(rest, 8)
    decreases line
  {
    if line == [] {
      assert line + rest == rest;
    } else {
      assert (line + rest)[1..] == line[1..] + rest;
      StripPart(line[1..], rest);
      assert line + Strip(rest, 8) == [line[0]] + (line[1..] + Strip(rest, 8));
    }
  }

  lemma StripLine(line: seq<byte>, rest: seq<byte>)
    requires IsLine(line)
    ensures Strip(line + rest, 8) == line + Strip(rest, 0)
  {
    var part := line[..|line| - 1];
    assert line + rest == part + ([NEWLINE] + rest);
    StripPart(part, [NEWLINE] + rest);
    assert ([NEWLINE] + rest)[1..] == rest;
    assert line == part + [NEWLINE];
    assert part + ([NEWLINE] + Strip(rest, 0)) == line + Strip(rest, 0);
  }

  /** One frame: the header is skipped whatever its bytes are. */
  lemma StripFrame(f: Frame, rest: seq<byte>)
    requires Sized(f)
    ensures IsLine(f.payload) ==> Strip(Encode(f) + rest, 0) == f.payload + Strip(rest, 0)
    ensures IsPartLine(f.payload) && rest == [] ==> Strip(Encode(f) + rest, 0) == f.payload
  {
    var data := Encode(f) + rest;
    StripSkips(data, 0);
    assert data[8..] == f.payload + rest;
    if IsLine(f.payload) {
      StripLine(f.payload, rest);
    }
    if IsPartLine(f.payload) && rest == [] {
      StripPart(f.payload, rest);
    }
  }

  lemma {:induction false} StripFrames(fs: seq<Frame>)
    requires AllSized(fs) && LinePerFrame(fs)
    ensures Strip(EncodeAll(fs), 0) == Payloads(fs, 1)
    ensures forall i | 0 <= i < |Payloads(fs, 1)| :: Payloads(fs, 1)[i] >= 2
  {
    if fs != [] {
      var rest := fs[1..];
      assert AllSized(rest) && LinePerFrame(rest) by {
        assert forall i | 0 <= i < |rest| :: rest[i] == fs[i + 1];
      }
      StripFrames(rest);
      StripFrame(fs[0], EncodeAll(rest));
      assert forall i | 0 <= i < |fs[0].payload| :: fs[0].payload[i] >= 2;
      if !IsLine(fs[0].payload) {
        assert rest == [] && EncodeAll(rest) == [];
      }
    }
  }

  lemma {:induction false} NoControl(s: seq<byte>)
    requires forall i | 0 <= i < |s| :: s[i] >= 2
    ensures UpToControl(s) == s
  {
    if s != [] {
      NoControl(s[1..]);
    }
  }

  /** The log reader returns what the demultiplexer does on every stream of standard output that
      carries one line a frame, whatever bytes the headers hold. */
  lemma LogReaderAgrees(fs: seq<Frame>)
    requires AllSized(fs) && LinePerFrame(fs)
    ensures ReadLog(EncodeAll(fs)) == Payloads(fs, 1)
    ensures Parse(EncodeAll(fs)) == Some(fs)
    ensures ReadLog(EncodeAll(fs)) == OutputOf(Collect(NO_OUTPUT, fs), 1)
  {
    StripFrames(fs);
    NoControl(Payloads(fs, 1));
    ParseEncoded(fs);
    CollectIsPayloads(NO_OUTPUT, fs, 1);
  }

  lemma TailOfLine(line: seq<byte>, n: nat)
    requires IsLine(line) && n < |line|
    ensures IsLine(line[n..])
  {
    var tail := line[n..];
    assert tail[..|tail| - 1] == line[..|line| - 1][n..];
  }

  // ---- Where the log reader loses bytes ------------------------------------------------------

  function Concat(lines: seq<seq<byte>>): seq<byte> {
    if lines == [] then [] else lines[0] + Concat(lines[1..])
  }

  /** Lines, of which the last may lack its newline. */
  ghost predicate AreLines(lines: seq<seq<byte>>) {
    forall i | 0 <= i < |lines| :: IsLine(lines[i]) || (i == |lines| - 1 && IsPartLine(lines[i]))
  }

  /** What is left when the next `skip` bytes are dropped, and eight more after every newline that is
      not among the dropped ones. */
  function Survivors(lines: seq<seq<byte>>, skip: nat): seq<byte> {
    if lines == [] then []
    else if skip >= |lines[0]| then Survivors(lines[1..], skip - |lines[0]|)
    else lines[0][skip..] + Survivors(lines[1..], 8)
  }

  lemma {:induction false} StripSome(data: seq<byte>, idx: nat, n: nat)
    requires idx + n <= 8 && n <= |data|
    ensures Strip(data, idx) == Strip(data[n..], idx + n)
    decreases data
  {
    if n > 0 {
      StripSome(data[1..], idx + 1, n - 1);
      assert data[1..][n - 1..] == data[n..];
    } else {
      assert data[0..] == data;
    }
  }

  lemma StripFirstLine(line: seq<byte>, rest: seq<byte>, idx: nat)
    requires idx <= 8 && (IsLine(line) || (IsPartLine(line) && rest == []))
    ensures Strip(line + rest, idx) ==
            if 8 - idx >= |line| then Strip(rest, idx + |line|) else line[8 - idx..] + Strip(rest, 0)
  {
    var data, skip := line + rest, 8 - idx;
    if skip >= |line| {
      StripSome(data, idx, |line|);
      assert data[|line|..] == rest;
    } else {
      StripSome(data, idx, skip);
      assert data[skip..] == line[skip..] + rest;
      if IsLine(line) {
        TailOfLine(line, skip);
        StripLine(line[skip..], rest);
      } else {
        StripPart(line[skip..], []);
      }
    }
  }

  lemma {:induction false} StripLines(lines: seq<seq<byte>>, idx: nat)
    requires AreLines(lines) && idx <= 8
    ensures Strip(Concat(lines), idx) == Survivors(lines, 8 - idx)
    decreases lines
  {
    if lines != [] {
      var line, rest := lines[0], lines[1..];
      assert AreLines(rest) by {
        assert forall i | 0 <= i < |rest| :: rest[i] == lines[i + 1];
      }
      assert !IsLine(line) ==> rest == [] && Concat(rest) == [];
      StripFirstLine(line, Concat(rest), idx);
      if 8 - idx >= |line| {
        StripLines(rest, idx + |line|);
      } else {
        StripLines(rest, 0);
      }
    }
  }

  lemma {:induction false} StripKeepsBytes(data: seq<byte>, idx: nat)
    requires idx <= 8 && forall i | 0 <= i < |data| :: data[i] >= 2
    ensures forall i | 0 <= i < |Strip(data, idx)| :: Strip(data, idx)[i] >= 2
    ensures |Strip(data, idx)| <= |data| && (idx < 8 && data != [] ==> |Strip(data, idx)| < |data|)
    decreases data
  {
    if data != [] {
      StripKeepsBytes(data[1..], if idx < 8 then idx + 1 else if data[0] == NEWLINE then 0 else 8);
    }
  }

  ghost predicate Printable(data: seq<byte>) {
    forall i | 0 <= i < |data| :: data[i] >= 2
  }

  lemma ReadLogOfFrame(f: Frame)
    requires Sized(f) && Printable(f.payload)
    ensures ReadLog(Encode(f)) == Strip(f.payload, 8)
  {
    StripSkips(Encode(f), 0);
    assert Encode(f)[8..] == f.payload;
    StripKeepsBytes(f.payload, 8);
    NoControl(Strip(f.payload, 8));
  }

  lemma {:induction false} LinesArePrintable(lines: seq<seq<byte>>)
    requires AreLines(lines)
    ensures Printable(Concat(lines))
  {
    if lines != [] {
      assert AreLines(lines[1..]) by {
        assert forall i | 0 <= i < |lines[1..]| :: lines[1..][i] == lines[i + 1];
      }
      LinesArePrintable(lines[1..]);
      assert Printable(lines[0]);
    }
  }

  /** Of a frame with any lines the reader returns the first whole, and of the others what is left when,
      after each newline it sees, it takes the next eight bytes for a header. */
  lemma LinesOfAFrameSurvive(f: Frame, lines: seq<seq<byte>>)
    requires Sized(f) && AreLines(lines) && f.payload == Concat(lines)
    ensures ReadLog(Encode(f)) == Survivors(lines, 0)
  {
    LinesArePrintable(lines);
    ReadLogOfFrame(f);
    StripLines(lines, 8);
  }

  lemma {:induction false} LongLinesLoseEightEach(lines: seq<seq<byte>>, skip: nat)
    requires skip <= 8 && forall i | 0 <= i < |lines| :: |lines[i]| > 8
    ensures |Survivors(lines, skip)| == if lines == [] then 0 else |Concat(lines)| - skip - 8 * (|lines| - 1)
    decreases lines
  {
    if lines != [] {
      LongLinesLoseEightEach(lines[1..], 8);
    }
  }

  /** Lines of more than eight bytes lose eight bytes each, except for the first. */
  lemma FurtherLinesLoseBytes(f: Frame, lines: seq<seq<byte>>)
    requires Sized(f) && AreLines(lines) && lines != [] && f.payload == Concat(lines)
    requires forall i | 0 <= i < |lines| :: |lines[i]| > 8
    ensures |ReadLog(Encode(f))| == |f.payload| - 8 * (|lines| - 1)
  {
    LinesOfAFrameSurvive(f, lines);
    LongLinesLoseEightEach(lines, 0);
  }

  ghost predicate OneLine(data: seq<byte>) {
    forall i | 0 <= i < |data| - 1 :: data[i] != NEWLINE
  }

  lemma {:induction false} StripIsWholeExactlyWhen(data: seq<byte>)
    requires Printable(data)
    ensures Strip(data, 8) == data <==> OneLine(data)
    decreases data
  {
    if data != [] {
      var rest := data[1..];
      assert data == [data[0]] + rest;
      assert forall i | 0 <= i < |rest| :: rest[i] == data[i + 1];
      if data[0] == NEWLINE {
        StripKeepsBytes(rest, 0);
        assert OneLine(data) ==> rest == [];
        assert rest != [] ==> |Strip(data, 8)| < |data|;
      } else {
        StripIsWholeExactlyWhen(rest);
        assert Strip(data, 8)[1..] == Strip(rest, 8);
        assert OneLine(data) <==> OneLine(rest);
      }
    }
  }

  lemma {:induction false} UpToControlIsPrintable(data: seq<byte>)
    ensures Printable(UpToControl(data))
  {
    if data != [] {
      UpToControlIsPrintable(data[1..]);
    }
  }

  /** The reader returns the payload of a frame if and only if no byte of it is below 2 and no newline
      stands before its last byte. */
  lemma FrameIsReadExactlyWhen(f: Frame)
    requires Sized(f)
    ensures ReadLog(Encode(f)) == f.payload <==> Printable(f.payload) && OneLine(f.payload)
  {
    UpToControlIsPrintable(Strip(Encode(f), 0));
    if Printable(f.payload) {
      ReadLogOfFrame(f);
      StripIsWholeExactlyWhen(f.payload);
    }
  }

  /** Over several frames the two readers can agree by accident: a newline and one more byte in the first
      frame, and a second frame whose header ends with that byte.  The reader loses the byte and the
      rest of the header, and takes the end of the header for output. */
  lemma AgreesByAccident(f: Frame, g: Frame, z: byte)
    requires Sized(g) && f.payload == [NEWLINE, z] && IsLine([z] + g.payload) && Header(g)[7] == z
    ensures ReadLog(Encode(f) + Encode(g)) == f.payload + g.payload
  {
    StripByAccident(Header(f), Header(g), z, g.payload);
    assert Encode(f) + Encode(g) == Header(f) + ([NEWLINE] + ([z] + Header(g) + g.payload));
    assert [NEWLINE] + ([z] + g.payload) == f.payload + g.payload;
    NoControl([NEWLINE] + ([z] + g.payload));
  }

  lemma StripByAccident(h: seq<byte>, h': seq<byte>, z: byte, payload: seq<byte>)
    requires |h| == |h'| == 8 && h'[7] == z && IsLine([z] + payload)
    ensures Strip(h + ([NEWLINE] + ([z] + h' + payload)), 0) == [NEWLINE] + ([z] + payload)
  {
    var tail, more := [z] + h' + payload, [z] + payload;
    StripAfterNewline(h, tail);
    assert tail[8..] == more;
    StripWholeLine(tail, more);
  }

  lemma StripAfterNewline(h: seq<byte>, tail: seq<byte>)
    requires |h| == 8
    ensures Strip(h + ([NEWLINE] + tail), 0) == [NEWLINE] + Strip(tail, 0)
  {
    var line: seq<byte> := [NEWLINE];
    StripSkips(h + (line + tail), 0);
    assert (h + (line + tail))[8..] == line + tail;
    assert IsLine(line);
    StripLine(line, tail);
  }

  lemma StripWholeLine(tail: seq<byte>, line: seq<byte>)
    requires |tail| >= 8 && tail[8..] == line && IsLine(line)
    ensures Strip(tail, 0) == line
  {
    StripSkips(tail, 0);
    StripLine(line, []);
    assert line + [] == line;
  }

  lemma TwoFramesAgreeByAccident()
    ensures var f, g := Frame(1, 0, 0, 0, [NEWLINE, 3]), Frame(1, 0, 0, 0, [65, 66, NEWLINE]);
            AllSized([f, g]) && !LinePerFrame([f, g]) && ReadLog(EncodeAll([f, g])) == Payloads([f, g], 1)
  {
    var f, g := Frame(1, 0, 0, 0, [NEWLINE, 3]), Frame(1, 0, 0, 0, [65, 66, NEWLINE]);
    assert BigEndian(3)[3] == 3;
    var line: seq<byte> := [3, 65, 66, NEWLINE];
    assert [3] + g.payload == line && line[..3] == [3, 65, 66];
    AgreesByAccident(f, g, 3);
    PairEncodes(f, g);
    assert f.payload[1] == 3 && [f, g][0] == f;
  }

  lemma PairEncodes(f: Frame, g: Frame)
    requires Sized(f) && Sized(g) && f.stream == g.stream == 1
    ensures AllSized([f, g]) && EncodeAll([f, g]) == Encode(f) + Encode(g)
    ensures Payloads([f, g], 1) == f.payload + g.payload
  {
    assert [f, g][1..] == [g] && [g][1..] == [];
    assert EncodeAll([g]) == Encode(g) + EncodeAll([]);
    assert Payloads([g], 1) == g.payload + Payloads([], 1);
  }
}
