/** Trace files: what the writer emits for a buffer, and what the reader makes of the bytes. */
module TraceFile {
  import opened Common
  import opened Words
  import opened Bytes
  import opened TraceFormat
  import opened SliceBuffer

  datatype Trace = Trace(header: Header, events: seq<Event>)

  /** `Undefined` stands for the files on which the reader's behaviour is not defined, a bare header among them. */
  datatype Error = FailedToOpenFile | CorruptData | UnknownVersion | Undefined

  datatype Codec = Codec(compress: seq<Byte> -> Option<seq<Byte>>, uncompress: seq<Byte> -> Option<seq<Byte>>)

  /** The compressor of a strategy; a byte that names no strategy has none. */
  function MakeCompressor(strategy: Byte, snappy: Codec): Option<Codec> {
    if strategy == NONE then Some(Codec(data => Some(data), data => Some(data)))
    else if strategy == SNAPPY then Some(snappy)
    else None
  }

  predicate IsStrategy(strategy: Byte) {
    strategy == NONE || strategy == SNAPPY
  }

  ghost predicate Inverts(codec: Codec) {
    forall data :: codec.compress(data).Some? ==> codec.uncompress(codec.compress(data).value) == Some(data)
  }

  /** The bytes after the header and the strategy the header names: compressed only when that is smaller. */
  function Payload(codec: Codec, strategy: Byte, raw: seq<Byte>): (seq<Byte>, Byte) {
    var packed := codec.compress(raw);
    if packed.None? || |raw| <= |packed.value| then (raw, NONE) else (packed.value, strategy)
  }

  function Written(host: Endian, codec: Codec, strategy: Byte, h: Header, events: seq<Event>): seq<Byte> {
    var (data, used) := Payload(codec, strategy, StoreEvents(host, events));
    StoreHeader(host, h.(strategy := used)) + data
  }

  /** Compression succeeds and saves room. */
  predicate Shrinks(codec: Codec, raw: seq<Byte>) {
    var packed := codec.compress(raw);
    packed.Some? && |packed.value| < |raw|
  }

  lemma {:induction false} OnlyStrategy(host: Endian, h: Header, strategy: Byte)
    ensures StoreHeader(host, h.(strategy := strategy)) == StoreHeader(host, h)[11 := strategy]
  {
    var a, b := StoreHeader(host, h), StoreHeader(host, h.(strategy := strategy));
    HeaderLayout(host, h);
    HeaderLayout(host, h.(strategy := strategy));
    Stretches(a);
    Stretches(b);
    assert b == a[..10] + [a[10]] + [strategy] + (a[12..16] + a[16..24] + a[24..32] + a[32..40] + a[40..48] + a[48..56] + a[56..60] + a[60..64]);
  }

  lemma {:induction false} Stretches(b: seq<Byte>)
    requires |b| == HEADER_SIZE
    ensures b == b[..10] + [b[10]] + [b[11]] +
                 (b[12..16] + b[16..24] + b[24..32] + b[32..40] + b[40..48] + b[48..56] + b[56..60] + b[60..64])
  {
  }

  /**
   * The bytes of a file: the header, in which only the strategy depends on the compressor, and the events,
   * compressed if that succeeds and saves room, and plain otherwise.
   */
  lemma {:induction false} WrittenBytes(host: Endian, codec: Codec, strategy: Byte, h: Header, events: seq<Event>)
    ensures var file, raw := Written(host, codec, strategy, h, events), StoreEvents(host, events);
            && HEADER_SIZE <= |file|
            && (if Shrinks(codec, raw) then file[HEADER_SIZE..] == codec.compress(raw).value && file[11] == strategy
                else file[HEADER_SIZE..] == raw && file[11] == NONE)
            && file[..HEADER_SIZE] == StoreHeader(host, h)[11 := file[11]]
  {
    var raw := StoreEvents(host, events);
    OnlyStrategy(host, h, Payload(codec, strategy, raw).1);
  }

  class TraceFileWriter {
    const host: Endian
    const strategy: Byte
    const codec: Codec
    var buffer: seq<Event>
    var createdDirectory: bool

    constructor (host: Endian, strategy: Byte, snappy: Codec, createDirectory: bool)
      requires IsStrategy(strategy)
      ensures this.host == host && this.strategy == strategy && Some(codec) == MakeCompressor(strategy, snappy)
      ensures strategy == SNAPPY ==> codec == snappy
      ensures strategy == NONE ==> forall data :: codec.compress(data) == Some(data)
      ensures buffer == [] && createdDirectory == !createDirectory
    {
      this.host, this.strategy, this.codec := host, strategy, MakeCompressor(strategy, snappy).value;
      buffer, createdDirectory := [], !createDirectory;
    }

    /**
     * Emits the newest events of a buffer behind a header; `opens` tells whether the file can be opened
     * and `file` is what it then holds. An empty buffer leaves no file.
     */
    method Write(h: Header, events: CircularSliceBuffer<Event>, opens: bool)
      returns (r: Result<(), Error>, file: Option<seq<Byte>>)
      requires events.Valid()
      modifies this
      ensures file.Some? <==> events.Items() != [] && opens
      ensures file.Some? ==> file.value == Written(host, codec, strategy, h, events.Items())
      ensures file.Some? ==>
                var raw := StoreEvents(host, events.Items());
                && HEADER_SIZE <= |file.value|
                && (if codec.compress(raw).Some? && |codec.compress(raw).value| < |raw|
                    then file.value[HEADER_SIZE..] == codec.compress(raw).value && file.value[11] == strategy
                    else file.value[HEADER_SIZE..] == raw && file.value[11] == NONE)
                && file.value[..HEADER_SIZE] == StoreHeader(host, h)[11 := file.value[11]]
      ensures r == if events.Items() != [] && !opens then Err(FailedToOpenFile) else Ok(())
      ensures buffer == if file.Some? then events.Items() else []
      ensures createdDirectory == (old(createdDirectory) || events.Items() != [])
    {
      buffer := [];
      if events.size == 0 {
        return Ok(()), None;
      }
      if !createdDirectory {
        createdDirectory := true;
      }
      if !opens {
        return Err(FailedToOpenFile), None;
      }
      var chunks := events.ContiguousMemoryChunks();
      for k := 0 to |chunks|
        invariant buffer == Concat(chunks[..k])
        invariant createdDirectory
      {
        assert chunks[..k + 1][..k] == chunks[..k];
        buffer := buffer + chunks[k];
      }
      assert chunks[..|chunks|] == chunks;
      var raw := StoreEvents(host, buffer);
      WrittenBytes(host, codec, strategy, h, buffer);
      var packed := codec.compress(raw);
      if packed.None? || |raw| <= |packed.value| {
        file := Some(StoreHeader(host, h.(strategy := NONE)) + raw);
      } else {
        file := Some(StoreHeader(host, h.(strategy := strategy)) + packed.value);
      }
      r := Ok(());
    }
  }

  /** The header of a file's first 64 bytes, in the host's order. */
  function HeaderOf(host: Endian, bytes: seq<Byte>): Result<Header, Error> {
    if |bytes| < HEADER_SIZE then Err(CorruptData)
    else Checked(HeaderToHost(host, LoadHeader(host, bytes[..HEADER_SIZE])))
  }

  function Checked(h: Header): Result<Header, Error> {
    if h.magic != MAGIC then Err(CorruptData)
    else if h.version != VERSION then Err(UnknownVersion)
    else Ok(h)
  }

  function EventAt(host: Endian, h: Header, data: seq<Byte>, k: nat): Event
    requires EVENT_SIZE * k + EVENT_SIZE <= |data|
  {
    EventToHost(host, LoadEvent(host, data[EVENT_SIZE * k..EVENT_SIZE * k + EVENT_SIZE]), h.endianness)
  }

  function FirstEvents(host: Endian, h: Header, data: seq<Byte>, n: nat): (r: seq<Event>)
    requires EVENT_SIZE * n <= |data|
    ensures |r| == n
  {
    if n == 0 then [] else FirstEvents(host, h, data, n - 1) + [EventAt(host, h, data, n - 1)]
  }

  /** The events of uncompressed data; the count times the event size is computed in 64 bits. */
  function EventsOf(host: Endian, h: Header, data: seq<Byte>): Result<seq<Event>, Error> {
    if |data| != Wrap(h.eventCount * EVENT_SIZE) then Err(CorruptData)
    else if h.eventCount * EVENT_SIZE != |data| then Err(Undefined)
    else Ok(FirstEvents(host, h, data, h.eventCount))
  }

  function Parsed(host: Endian, snappy: Codec, bytes: seq<Byte>): Result<Trace, Error> {
    var header := HeaderOf(host, bytes);
    if header.Err? then Err(header.error)
    else if |bytes| == HEADER_SIZE then Err(Undefined)
    else
      var events := BodyOf(host, snappy, header.value, bytes[HEADER_SIZE..]);
      if events.Err? then Err(events.error) else Ok(Trace(header.value, events.value))
  }

  /** The events after the header. */
  function BodyOf(host: Endian, snappy: Codec, h: Header, rest: seq<Byte>): Result<seq<Event>, Error> {
    var codec := MakeCompressor(h.strategy, snappy);
    if codec.None? then Err(Undefined)
    else
      var data := codec.value.uncompress(rest);
      if data.None? then Err(CorruptData) else EventsOf(host, h, data.value)
  }

  /** Reads a trace file, `None` when it does not open. */
  method Read(host: Endian, snappy: Codec, file: Option<seq<Byte>>) returns (r: Result<Trace, Error>)
    ensures r == if file.None? then Err(FailedToOpenFile) else Parsed(host, snappy, file.value)
  {
    if file.None? {
      return Err(FailedToOpenFile);
    }
    var bytes := file.value;
    if |bytes| < HEADER_SIZE {
      return Err(CorruptData);
    }
    var h := HeaderToHost(host, LoadHeader(host, bytes[..HEADER_SIZE]));
    if h.magic != MAGIC {
      return Err(CorruptData);
    }
    if h.version != VERSION {
      return Err(UnknownVersion);
    }
    var codec := MakeCompressor(h.strategy, snappy);
    if codec.None? || |bytes| == HEADER_SIZE {
      return Err(Undefined);
    }
    var uncompressed := codec.value.uncompress(bytes[HEADER_SIZE..]);
    if uncompressed.None? {
      return Err(CorruptData);
    }
    r := ReadEvents(host, h, uncompressed.value);
  }

  method ReadEvents(host: Endian, h: Header, data: seq<Byte>) returns (r: Result<Trace, Error>)
    ensures var events := EventsOf(host, h, data);
            r == if events.Err? then Err(events.error) else Ok(Trace(h, events.value))
  {
    if |data| != Wrap(h.eventCount * EVENT_SIZE) {
      return Err(CorruptData);
    }
    if h.eventCount * EVENT_SIZE != |data| {
      return Err(Undefined);
    }
    var events := [];
    for k := 0 to h.eventCount
      invariant events == FirstEvents(host, h, data, k)
    {
      events := events + [EventAt(host, h, data, k)];
    }
    r := Ok(Trace(h, events));
  }

  /** Reading only the header gives the header, or the error, that reading the whole file gives. */
  lemma {:induction false} ReadHeaderAgrees(host: Endian, snappy: Codec, bytes: seq<Byte>)
    ensures HeaderOf(host, bytes) == HeaderOf(host, if |bytes| < HEADER_SIZE then bytes else bytes[..HEADER_SIZE])
    ensures Parsed(host, snappy, bytes).Ok? ==> HeaderOf(host, bytes) == Ok(Parsed(host, snappy, bytes).value.header)
    ensures HeaderOf(host, bytes).Err? ==> Parsed(host, snappy, bytes) == Err(HeaderOf(host, bytes).error)
  {
    if |bytes| >= HEADER_SIZE {
      assert bytes[..HEADER_SIZE][..HEADER_SIZE] == bytes[..HEADER_SIZE];
    }
  }

  function WithoutKind(events: seq<Event>): (r: seq<Event>)
    ensures |r| == |events| && forall k :: 0 <= k < |r| ==> r[k] == events[k].(kind := 0)
  {
    seq(|events|, k requires 0 <= k < |events| => events[k].(kind := 0))
  }

  /** The 64-bit product agrees with the size of the events only for their exact number. */
  lemma {:induction false} CountIsExact(count: Int32, n: nat)
    requires EVENT_SIZE * n < WORD / 2
    ensures Wrap(count * EVENT_SIZE) == EVENT_SIZE * n <==> count == n
  {
    if count < 0 {
      WrapShift(count * EVENT_SIZE, 1);
    }
  }

  lemma {:induction false} EventAtSameOrder(host: Endian, h: Header, events: seq<Event>, k: nat)
    requires h.endianness == EndianByte(host) && k < |events|
    ensures EventAt(host, h, StoreEvents(host, events), k) == events[k]
  {
    StoredEvent(host, events, k);
    EventRoundTrip(host, events[k]);
  }

  lemma {:induction false} EventAtOtherOrder(host: Endian, h: Header, events: seq<Event>, k: nat)
    requires h.endianness == EndianByte(host) && k < |events|
    ensures EventAt(Other(host), h, StoreEvents(host, events), k) == events[k].(kind := 0)
  {
    StoredEvent(host, events, k);
    EventAcross(host, events[k]);
  }

  lemma {:induction false} FirstEventsAre(host: Endian, h: Header, data: seq<Byte>, events: seq<Event>, n: nat)
    requires n <= |events| && EVENT_SIZE * |events| <= |data|
    requires forall k :: 0 <= k < |events| ==> EventAt(host, h, data, k) == events[k]
    ensures FirstEvents(host, h, data, n) == events[..n]
  {
    if n != 0 {
      FirstEventsAre(host, h, data, events, n - 1);
    }
  }

  lemma {:induction false} EventsSameOrder(host: Endian, h: Header, events: seq<Event>)
    requires h.endianness == EndianByte(host) && EVENT_SIZE * |events| < WORD / 2
    ensures EventsOf(host, h, StoreEvents(host, events)) == if h.eventCount == |events| then Ok(events) else Err(CorruptData)
  {
    CountIsExact(h.eventCount, |events|);
    var data := StoreEvents(host, events);
    forall k | 0 <= k < |events|
      ensures EventAt(host, h, data, k) == events[k]
    {
      EventAtSameOrder(host, h, events, k);
    }
    FirstEventsAre(host, h, data, events, |events|);
    assert events[..|events|] == events;
  }

  lemma {:induction false} EventsOtherOrder(host: Endian, h: Header, events: seq<Event>)
    requires h.endianness == EndianByte(host) && EVENT_SIZE * |events| < WORD / 2
    ensures EventsOf(Other(host), h, StoreEvents(host, events)) ==
            if h.eventCount == |events| then Ok(WithoutKind(events)) else Err(CorruptData)
  {
    CountIsExact(h.eventCount, |events|);
    var data, read := StoreEvents(host, events), WithoutKind(events);
    forall k | 0 <= k < |events|
      ensures EventAt(Other(host), h, data, k) == read[k]
    {
      EventAtOtherOrder(host, h, events, k);
    }
    FirstEventsAre(Other(host), h, data, read, |events|);
    assert read[..|events|] == read;
  }

  /** The strategy the file's header names. */
  function Used(host: Endian, codec: Codec, strategy: Byte, events: seq<Event>): Byte {
    if Shrinks(codec, StoreEvents(host, events)) then strategy else NONE
  }

  lemma {:induction false} FileParts(host: Endian, codec: Codec, strategy: Byte, h: Header, events: seq<Event>)
    ensures var file := Written(host, codec, strategy, h, events);
            && |file| >= HEADER_SIZE
            && file[..HEADER_SIZE] == StoreHeader(host, h.(strategy := Used(host, codec, strategy, events)))
            && file[HEADER_SIZE..] == Payload(codec, strategy, StoreEvents(host, events)).0
  {
  }

  lemma {:induction false} BodySameOrder(host: Endian, snappy: Codec, strategy: Byte, h: Header, events: seq<Event>)
    requires Inverts(snappy) && IsStrategy(strategy)
    requires h.endianness == EndianByte(host) && EVENT_SIZE * |events| < WORD / 2
    ensures var (data, used) := Payload(MakeCompressor(strategy, snappy).value, strategy, StoreEvents(host, events));
            && |data| <= EVENT_SIZE * |events|
            && BodyOf(host, snappy, h.(strategy := used), data) ==
               if h.eventCount == |events| then Ok(events) else Err(CorruptData)
  {
    var (data, used) := Payload(MakeCompressor(strategy, snappy).value, strategy, StoreEvents(host, events));
    EventsSameOrder(host, h.(strategy := used), events);
  }

  lemma {:induction false} BodyOtherOrder(host: Endian, snappy: Codec, strategy: Byte, h: Header, events: seq<Event>)
    requires IsStrategy(strategy) && EVENT_SIZE * |events| < WORD / 2
    requires h.endianness == EndianByte(host) && h.eventCount == |events|
    ensures var (data, used) := Payload(MakeCompressor(strategy, snappy).value, strategy, StoreEvents(host, events));
            BodyOf(Other(host), snappy, h.(strategy := NONE), data) ==
              if used == NONE then Ok(WithoutKind(events)) else Err(CorruptData)
  {
    var (data, used) := Payload(MakeCompressor(strategy, snappy).value, strategy, StoreEvents(host, events));
    if used == NONE {
      EventsOtherOrder(host, h.(strategy := NONE), events);
    } else {
      assert |data| < EVENT_SIZE * |events|;
      CountIsExact(h.eventCount, |events|);
    }
  }

  /** The data after a header of 64 bytes, uncompressed; `own` tells whether they lie in the reader's byte order. */
  function Unpacked(snappy: Codec, strategy: Byte, own: bool, rest: seq<Byte>): Option<seq<Byte>> {
    if own && strategy == 1 then snappy.uncompress(rest) else Some(rest)
  }

  /** What the reader makes of any bytes at all. */
  lemma {:induction false} ReadOfBytes(host: Endian, snappy: Codec, bytes: seq<Byte>)
    ensures |bytes| < HEADER_SIZE ==> Parsed(host, snappy, bytes) == Err(CorruptData)
    ensures HEADER_SIZE <= |bytes| ==>
              var order, r := OrderOf(host, bytes[..HEADER_SIZE]), Parsed(host, snappy, bytes);
              var count, data := Signed(Load(order, bytes[56..60]), 4), Unpacked(snappy, bytes[11], order == host, bytes[HEADER_SIZE..]);
              if bytes[..10] != [0xC8, 0x53, 0x70, 0x6F, 0x6F, 0x72, 0x0D, 0x0A, 0x1A, 0x0A] then r == Err(CorruptData)
              else if Load(order, bytes[12..16]) != 0 then r == Err(UnknownVersion)
              else if |bytes| == HEADER_SIZE || (order == host && 1 < bytes[11]) then r == Err(Undefined)
              else if data.None? then r == Err(CorruptData)
              else if |data.value| == EVENT_SIZE * count then r.Ok? && |r.value.events| == count
              else |data.value| < WORD / 2 ==> r == Err(CorruptData)
  {
    if HEADER_SIZE <= |bytes| {
      var b := bytes[..HEADER_SIZE];
      assert b[..10] == bytes[..10] && b[12..16] == bytes[12..16] && b[56..60] == bytes[56..60];
      HeaderRead(host, b);
      var h := HeaderToHost(host, LoadHeader(host, b));
      ParsedAs(host, snappy, bytes, h);
      BodyOfBytes(host, snappy, h, bytes[HEADER_SIZE..]);
    }
  }

  lemma {:induction false} BodyOfBytes(host: Endian, snappy: Codec, h: Header, rest: seq<Byte>)
    ensures h.strategy > 1 ==> BodyOf(host, snappy, h, rest) == Err(Undefined)
    ensures h.strategy <= 1 ==>
              var data, r := if h.strategy == 1 then snappy.uncompress(rest) else Some(rest), BodyOf(host, snappy, h, rest);
              if data.None? then r == Err(CorruptData)
              else if |data.value| == EVENT_SIZE * h.eventCount then r.Ok? && |r.value| == h.eventCount
              else |data.value| < WORD / 2 ==> r == Err(CorruptData)
  {
    if h.eventCount < 0 {
      WrapShift(h.eventCount * EVENT_SIZE, 1);
    }
  }

  /** What the reader makes of a file whose first 64 bytes are a header `h`. */
  lemma {:induction false} ParsedAs(host: Endian, snappy: Codec, bytes: seq<Byte>, h: Header)
    requires HEADER_SIZE <= |bytes| && HeaderToHost(host, LoadHeader(host, bytes[..HEADER_SIZE])) == h
    ensures Parsed(host, snappy, bytes) ==
            if h.magic != MAGIC then Err(CorruptData)
            else if h.version != VERSION then Err(UnknownVersion)
            else if |bytes| == HEADER_SIZE then Err(Undefined)
            else
              var events := BodyOf(host, snappy, h, bytes[HEADER_SIZE..]);
              if events.Err? then Err(events.error) else Ok(Trace(h, events.value))
  {
  }

  /**
   * A file read back on a host of the writer's byte order: the reader accepts it exactly when the header
   * has the magic number, the version and the number of events, and then gives back the header, naming the
   * encoding used, and the events. It never takes more room than the events uncompressed.
   */
  lemma {:induction false} ReadAfterWrite(host: Endian, snappy: Codec, strategy: Byte, h: Header, events: seq<Event>)
    requires Inverts(snappy) && IsStrategy(strategy)
    requires h.endianness == EndianByte(host) && EVENT_SIZE * |events| < WORD / 2
    ensures var codec := MakeCompressor(strategy, snappy).value;
            var file := Written(host, codec, strategy, h, events);
            && |file| <= HEADER_SIZE + EVENT_SIZE * |events|
            && Parsed(host, snappy, file) ==
               if h.magic != MAGIC then Err(CorruptData)
               else if h.version != VERSION then Err(UnknownVersion)
               else if |file| == HEADER_SIZE then Err(Undefined)
               else if h.eventCount != |events| then Err(CorruptData)
               else Ok(Trace(h.(strategy := Used(host, codec, strategy, events)), events))
  {
    var codec := MakeCompressor(strategy, snappy).value;
    var used := h.(strategy := Used(host, codec, strategy, events));
    FileParts(host, codec, strategy, h, events);
    HeaderRoundTrip(host, used);
    ParsedAs(host, snappy, Written(host, codec, strategy, h, events), used);
    BodySameOrder(host, snappy, strategy, h, events);
  }

  /**
   * On a host of the other byte order an uncompressed file loses the kinds of its events, and a
   * compressed file is rejected because its strategy is lost.
   */
  lemma {:induction false} ReadAcrossByteOrders(host: Endian, snappy: Codec, strategy: Byte, h: Header, events: seq<Event>)
    requires Inverts(snappy) && IsStrategy(strategy) && EVENT_SIZE * |events| < WORD / 2
    requires h.endianness == EndianByte(host) && h.magic == MAGIC && h.version == VERSION && h.eventCount == |events|
    ensures var codec := MakeCompressor(strategy, snappy).value;
            var file := Written(host, codec, strategy, h, events);
            Parsed(Other(host), snappy, file) ==
              if |file| == HEADER_SIZE then Err(Undefined)
              else if Used(host, codec, strategy, events) != NONE then Err(CorruptData)
              else Ok(Trace(h.(strategy := NONE), WithoutKind(events)))
  {
    var codec := MakeCompressor(strategy, snappy).value;
    FileParts(host, codec, strategy, h, events);
    HeaderAcross(host, h.(strategy := Used(host, codec, strategy, events)));
    ParsedAs(Other(host), snappy, Written(host, codec, strategy, h, events), h.(strategy := NONE));
    BodyOtherOrder(host, snappy, strategy, h, events);
  }

  /** So the other byte order reads a trace correctly only if it was stored plain and no event has a kind. */
  lemma {:induction false} AcrossByteOrdersIff(host: Endian, snappy: Codec, strategy: Byte, h: Header, events: seq<Event>)
    requires Inverts(snappy) && IsStrategy(strategy) && EVENT_SIZE * |events| < WORD / 2
    requires h.endianness == EndianByte(host) && h.magic == MAGIC && h.version == VERSION && h.eventCount == |events|
    ensures var codec := MakeCompressor(strategy, snappy).value;
            var file := Written(host, codec, strategy, h, events);
            |file| != HEADER_SIZE ==>
              (Parsed(Other(host), snappy, file) == Parsed(host, snappy, file) <==>
               Used(host, codec, strategy, events) == NONE && forall k :: 0 <= k < |events| ==> events[k].kind == 0)
  {
    ReadAfterWrite(host, snappy, strategy, h, events);
    ReadAcrossByteOrders(host, snappy, strategy, h, events);
    KindsMatter(events);
  }

  lemma {:induction false} KindsMatter(events: seq<Event>)
    ensures WithoutKind(events) == events <==> forall k :: 0 <= k < |events| ==> events[k].kind == 0
  {
    forall k | 0 <= k < |events|
      ensures WithoutKind(events)[k] == events[k] <==> events[k].kind == 0
    {
    }
  }

  /** The header that the flush queue makes for a buffer of `size` events. */
  function HeaderFor(host: Endian, session: Uint64, process: Int64, thread: Uint64, system: Int64, steady: Int64,
                     size: nat): Header
  {
    Header(MAGIC, EndianByte(host), NONE, VERSION, session, process, thread, system, steady, ToInt32(size), [0, 0, 0, 0])
  }

  /** A file that the flush queue has written for a buffer reads back exactly if the number of events fits 31 bits. */
  lemma {:induction false} FlushedFileReads(host: Endian, snappy: Codec, strategy: Byte, session: Uint64, process: Int64,
                                            thread: Uint64, system: Int64, steady: Int64, events: seq<Event>)
    requires Inverts(snappy) && IsStrategy(strategy) && EVENT_SIZE * |events| < WORD / 2
    ensures var codec := MakeCompressor(strategy, snappy).value;
            var h := HeaderFor(host, session, process, thread, system, steady, |events|);
            var file := Written(host, codec, strategy, h, events);
            Parsed(host, snappy, file) ==
              if |file| == HEADER_SIZE then Err(Undefined)
              else if |events| < 0x8000_0000 then Ok(Trace(h.(strategy := Used(host, codec, strategy, events)), events))
              else Err(CorruptData)
  {
    ReadAfterWrite(host, snappy, strategy, HeaderFor(host, session, process, thread, system, steady, |events|), events);
  }

  /** Where the fields of a file that the flush queue has written lie. */
  lemma {:induction false} FlushedFileLayout(host: Endian, codec: Codec, strategy: Byte, session: Uint64, process: Int64,
                                             thread: Uint64, system: Int64, steady: Int64, events: seq<Event>)
    ensures var file := Written(host, codec, strategy, HeaderFor(host, session, process, thread, system, steady, |events|), events);
            && HEADER_SIZE <= |file|
            && file[..10] == [0xC8, 0x53, 0x70, 0x6F, 0x6F, 0x72, 0x0D, 0x0A, 0x1A, 0x0A]
            && file[10] == (if host == Little then 0 else 1) && file[12..16] == Store(host, 0, 4)
            && file[16..24] == Store(host, session, 8) && file[24..32] == Store(host, process, 8)
            && file[32..40] == Store(host, thread, 8)
            && file[40..48] == Store(host, system, 8) && file[48..56] == Store(host, steady, 8)
            && (|events| < 0x8000_0000 ==> file[56..60] == Store(host, |events|, 4)) && file[60..64] == [0, 0, 0, 0]
  {
    var h := HeaderFor(host, session, process, thread, system, steady, |events|);
    FileParts(host, codec, strategy, h, events);
    HeaderLayout(host, h.(strategy := Used(host, codec, strategy, events)));
    HeadOf(Written(host, codec, strategy, h, events));
  }

  lemma {:induction false} HeadOf(file: seq<Byte>)
    requires HEADER_SIZE <= |file|
    ensures var b := file[..HEADER_SIZE];
            && b[..10] == file[..10] && b[12..16] == file[12..16] && b[16..24] == file[16..24] && b[24..32] == file[24..32]
            && b[32..40] == file[32..40] && b[40..48] == file[40..48] && b[48..56] == file[48..56]
            && b[56..60] == file[56..60] && b[60..64] == file[60..64]
  {
  }
}
