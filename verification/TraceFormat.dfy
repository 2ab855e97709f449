/** The layout of a trace file: a 64-byte header, then 24 bytes for each event, in the writer's byte order. */
module TraceFormat {
  import opened Bytes

  type Uint32 = x: int | 0 <= x < 0x1_0000_0000
  type Uint64 = x: int | 0 <= x < 0x1_0000_0000_0000_0000
  type Int32 = x: int | -0x8000_0000 <= x < 0x8000_0000
  type Int64 = x: int | -0x8000_0000_0000_0000 <= x < 0x8000_0000_0000_0000
  type Bytes4 = b: seq<Byte> | |b| == 4 witness [0, 0, 0, 0]
  type Bytes10 = b: seq<Byte> | |b| == 10 witness MAGIC

  /** 0xC8 "Spoor" CR LF SUB LF */
  const MAGIC: seq<Byte> := [0xC8, 0x53, 0x70, 0x6F, 0x6F, 0x72, 0x0D, 0x0A, 0x1A, 0x0A]
  const VERSION: Uint32 := 0
  const NONE: Byte := 0
  const SNAPPY: Byte := 1
  const HEADER_SIZE: nat := 64
  const EVENT_SIZE: nat := 24

  function EndianByte(e: Endian): Byte {
    if e == Little then 0 else 1
  }

  datatype Header = Header(
    magic: Bytes10, endianness: Byte, strategy: Byte, version: Uint32, session: Uint64, process: Int64,
    thread: Uint64, systemClock: Int64, steadyClock: Int64, eventCount: Int32, padding: Bytes4)

  datatype Event = Event(steadyClock: Int64, payload1: Uint64, kind: Uint32, payload2: Uint32)

  lemma {:induction false} Powers()
    ensures Pow256(4) == 0x1_0000_0000 && Pow256(8) == 0x1_0000_0000_0000_0000
  {
    assert Pow256(2) == 65536;
  }

  /** Fields read from memory in the host's order. */
  function GetU32(e: Endian, b: seq<Byte>): (x: Uint32)
    requires |b| == 4
  {
    Powers();
    Load(e, b)
  }

  function GetU64(e: Endian, b: seq<Byte>): (x: Uint64)
    requires |b| == 8
  {
    Powers();
    Load(e, b)
  }

  function GetI32(e: Endian, b: seq<Byte>): (x: Int32)
    requires |b| == 4
  {
    Powers();
    Signed(Load(e, b), 4)
  }

  function GetI64(e: Endian, b: seq<Byte>): (x: Int64)
    requires |b| == 8
  {
    Powers();
    Signed(Load(e, b), 8)
  }

  /** A field of `w` bytes, signed or not, as it lies in memory. */
  function Put(e: Endian, x: int, w: nat): (b: seq<Byte>)
    ensures |b| == w
  {
    Store(e, Unsigned(x, w), w)
  }

  function Swap32(x: Uint32): (y: Uint32) {
    Powers();
    Swap(x, 4)
  }

  function Swap64(x: Uint64): (y: Uint64) {
    Powers();
    Swap(x, 8)
  }

  /** A signed field is swapped as the unsigned word of the same bits. */
  function SwapI32(x: Int32): (y: Int32) {
    Powers();
    Signed(Swap(Unsigned(x, 4), 4), 4)
  }

  function SwapI64(x: Int64): (y: Int64) {
    Powers();
    Signed(Swap(Unsigned(x, 8), 8), 8)
  }

  lemma {:induction false} U32(e: Endian, x: Uint32)
    ensures GetU32(e, Put(e, x, 4)) == x
    ensures Swap32(GetU32(Other(e), Put(e, x, 4))) == x
  {
    Powers();
    LoadStore(e, x, 4);
    LoadForeign(e, x, 4);
  }

  lemma {:induction false} U64(e: Endian, x: Uint64)
    ensures GetU64(e, Put(e, x, 8)) == x
    ensures Swap64(GetU64(Other(e), Put(e, x, 8))) == x
  {
    Powers();
    LoadStore(e, x, 8);
    LoadForeign(e, x, 8);
  }

  lemma {:induction false} SignedField(e: Endian, x: int, w: nat)
    requires 0 <= 2 * x + Pow256(w) && 2 * x < Pow256(w)
    ensures Signed(Load(e, Put(e, x, w)), w) == x
    ensures Signed(Swap(Unsigned(Signed(Load(Other(e), Put(e, x, w)), w), w), w), w) == x
  {
    LoadStore(e, Unsigned(x, w), w);
    LoadForeign(e, Unsigned(x, w), w);
  }

  lemma {:induction false} I32(e: Endian, x: Int32)
    ensures GetI32(e, Put(e, x, 4)) == x
    ensures SwapI32(GetI32(Other(e), Put(e, x, 4))) == x
  {
    Powers();
    SignedField(e, x, 4);
  }

  lemma {:induction false} I64(e: Endian, x: Int64)
    ensures GetI64(e, Put(e, x, 8)) == x
    ensures SwapI64(GetI64(Other(e), Put(e, x, 8))) == x
  {
    Powers();
    SignedField(e, x, 8);
  }

  /** Four fields laid one after another. */
  function Four(a: seq<Byte>, b: seq<Byte>, c: seq<Byte>, d: seq<Byte>): (r: seq<Byte>)
    ensures |r| == |a| + |b| + |c| + |d|
    ensures r[..|a|] == a && r[|a|..|a| + |b|] == b
    ensures r[|a| + |b|..|a| + |b| + |c|] == c && r[|a| + |b| + |c|..] == d
  {
    a + b + c + d
  }

  /** The bytes of a header on a host of order `e`, and the header those bytes are read as. */
  function StoreHeader(e: Endian, h: Header): (b: seq<Byte>)
    ensures |b| == HEADER_SIZE
  {
    Identity(e, h) + Place(e, h) + Extent(e, h)
  }

  /** The first 16 bytes of a header, the 32 in the middle, and the last 16. */
  function Identity(e: Endian, h: Header): (b: seq<Byte>)
    ensures |b| == 16
  {
    Four(h.magic, [h.endianness], [h.strategy], Put(e, h.version, 4))
  }

  function Place(e: Endian, h: Header): (b: seq<Byte>)
    ensures |b| == 32
  {
    Four(Put(e, h.session, 8), Put(e, h.process, 8), Put(e, h.thread, 8), Put(e, h.systemClock, 8))
  }

  function Extent(e: Endian, h: Header): (b: seq<Byte>)
    ensures |b| == 16
  {
    Four(Put(e, h.steadyClock, 8), Put(e, h.eventCount, 4), h.padding, [])
  }

  function LoadHeader(e: Endian, b: seq<Byte>): Header
    requires |b| == HEADER_SIZE
  {
    Header(b[..10], b[10], b[11], GetU32(e, b[12..16]), GetU64(e, b[16..24]), GetI64(e, b[24..32]),
           GetU64(e, b[32..40]), GetI64(e, b[40..48]), GetI64(e, b[48..56]), GetI32(e, b[56..60]), b[60..64])
  }

  function StoreEvent(e: Endian, v: Event): (b: seq<Byte>)
    ensures |b| == EVENT_SIZE
  {
    Four(Put(e, v.steadyClock, 8), Put(e, v.payload1, 8), Put(e, v.kind, 4), Put(e, v.payload2, 4))
  }

  function LoadEvent(e: Endian, b: seq<Byte>): Event
    requires |b| == EVENT_SIZE
  {
    Event(GetI64(e, b[..8]), GetU64(e, b[8..16]), GetU32(e, b[16..20]), GetU32(e, b[20..24]))
  }

  /** Conversion of a header or an event read as it lay in the file. */
  function HeaderToHost(e: Endian, h: Header): Header {
    if h.endianness == EndianByte(e) then h
    else
      Header(h.magic, h.endianness, NONE, Swap32(h.version), Swap64(h.session), SwapI64(h.process),
             Swap64(h.thread), SwapI64(h.systemClock), SwapI64(h.steadyClock), SwapI32(h.eventCount), h.padding)
  }

  /** The event's kind goes through the 64-bit swap and back to 32 bits. */
  function EventToHost(e: Endian, v: Event, endianness: Byte): Event {
    if endianness == EndianByte(e) then v
    else Event(SwapI64(v.steadyClock), Swap64(v.payload1), Swap64(v.kind) % 0x1_0000_0000, Swap32(v.payload2))
  }

  /** The order in which the fields of a header lie: the host's if the header names it, the other one otherwise. */
  function OrderOf(e: Endian, b: seq<Byte>): Endian
    requires |b| == HEADER_SIZE
  {
    if b[10] == (if e == Little then 0 else 1) then e else Other(e)
  }

  /** What a host reads of any 64 bytes: the fields in the order in which they lie, the strategy only in its own order. */
  lemma {:induction false} HeaderRead(e: Endian, b: seq<Byte>)
    requires |b| == HEADER_SIZE
    ensures
      var h, order := HeaderToHost(e, LoadHeader(e, b)), OrderOf(e, b);
      && h.magic == b[..10] && h.endianness == b[10] && h.strategy == (if order == e then b[11] else NONE)
      && h.version == Load(order, b[12..16]) && h.session == Load(order, b[16..24])
      && h.process == Signed(Load(order, b[24..32]), 8) && h.thread == Load(order, b[32..40])
      && h.systemClock == Signed(Load(order, b[40..48]), 8) && h.steadyClock == Signed(Load(order, b[48..56]), 8)
      && h.eventCount == Signed(Load(order, b[56..60]), 4) && h.padding == b[60..64]
  {
    Powers();
    SwapLoaded(e, b[12..16]);
    SwapLoaded(e, b[16..24]);
    SwapSigned(e, b[24..32]);
    SwapLoaded(e, b[32..40]);
    SwapSigned(e, b[40..48]);
    SwapSigned(e, b[48..56]);
    SwapSigned(e, b[56..60]);
  }

  lemma {:induction false} SwapSigned(e: Endian, b: seq<Byte>)
    ensures Signed(Swap(Unsigned(Signed(Load(e, b), |b|), |b|), |b|), |b|) == Signed(Load(Other(e), b), |b|)
  {
    SwapLoaded(e, b);
  }

  lemma {:induction false} IdentityLayout(e: Endian, h: Header)
    ensures
      var b := StoreHeader(e, h);
      b[..10] == h.magic && b[10] == h.endianness && b[11] == h.strategy && b[12..16] == Put(e, h.version, 4)
  {
    var i, p, x := Identity(e, h), Place(e, h), Extent(e, h);
    Within(i, p, x, 0, 10);
    Within(i, p, x, 12, 16);
  }

  lemma {:induction false} PlaceLayout(e: Endian, h: Header)
    ensures
      var b := StoreHeader(e, h);
      && b[16..24] == Put(e, h.session, 8) && b[24..32] == Put(e, h.process, 8)
      && b[32..40] == Put(e, h.thread, 8) && b[40..48] == Put(e, h.systemClock, 8)
  {
    var i, p, x := Identity(e, h), Place(e, h), Extent(e, h);
    Within(i, p, x, 16, 24);
    Within(i, p, x, 24, 32);
    Within(i, p, x, 32, 40);
    Within(i, p, x, 40, 48);
  }

  lemma {:induction false} ExtentLayout(e: Endian, h: Header)
    ensures
      var b := StoreHeader(e, h);
      && b[48..56] == Put(e, h.steadyClock, 8) && b[56..60] == Put(e, h.eventCount, 4) && b[60..64] == h.padding
  {
    var i, p, x := Identity(e, h), Place(e, h), Extent(e, h);
    Within(i, p, x, 48, 56);
    Within(i, p, x, 56, 60);
    Within(i, p, x, 60, 64);
  }

  /** Where each field of a header lies. */
  lemma {:induction false} HeaderLayout(e: Endian, h: Header)
    ensures
      var b := StoreHeader(e, h);
      && b[..10] == h.magic && b[10] == h.endianness && b[11] == h.strategy && b[12..16] == Store(e, h.version, 4)
      && b[16..24] == Store(e, h.session, 8) && b[24..32] == Store(e, h.process, 8)
      && b[32..40] == Store(e, h.thread, 8) && b[40..48] == Store(e, h.systemClock, 8)
      && b[48..56] == Store(e, h.steadyClock, 8) && b[56..60] == Store(e, h.eventCount, 4) && b[60..64] == h.padding
  {
    IdentityLayout(e, h);
    PlaceLayout(e, h);
    ExtentLayout(e, h);
    StoreUnsigned(e, h.version, 4);
    StoreUnsigned(e, h.session, 8);
    StoreUnsigned(e, h.process, 8);
    StoreUnsigned(e, h.thread, 8);
    StoreUnsigned(e, h.systemClock, 8);
    StoreUnsigned(e, h.steadyClock, 8);
    StoreUnsigned(e, h.eventCount, 4);
  }

  /** A stretch of three joined parts that lies within one of them. */
  lemma {:induction false} Within(a: seq<Byte>, b: seq<Byte>, c: seq<Byte>, i: nat, j: nat)
    requires i <= j <= |a| + |b| + |c|
    ensures j <= |a| ==> (a + b + c)[i..j] == a[i..j]
    ensures |a| <= i && j <= |a| + |b| ==> (a + b + c)[i..j] == b[i - |a|..j - |a|]
    ensures |a| + |b| <= i ==> (a + b + c)[i..j] == c[i - |a| - |b|..j - |a| - |b|]
  {
  }

  /** A header survives storing and loading on hosts of the same order. */
  lemma {:induction false} HeaderRoundTrip(e: Endian, h: Header)
    requires h.endianness == EndianByte(e)
    ensures HeaderToHost(e, LoadHeader(e, StoreHeader(e, h))) == h
  {
    IdentityLayout(e, h);
    PlaceLayout(e, h);
    ExtentLayout(e, h);
    U32(e, h.version);
    U64(e, h.session);
    I64(e, h.process);
    U64(e, h.thread);
    I64(e, h.systemClock);
    I64(e, h.steadyClock);
    I32(e, h.eventCount);
  }

  /** Across byte orders only the compression strategy is lost. */
  lemma {:induction false} HeaderAcross(e: Endian, h: Header)
    requires h.endianness == EndianByte(e)
    ensures HeaderToHost(Other(e), LoadHeader(Other(e), StoreHeader(e, h))) == h.(strategy := NONE)
  {
    IdentityLayout(e, h);
    PlaceLayout(e, h);
    ExtentLayout(e, h);
    U32(e, h.version);
    U64(e, h.session);
    I64(e, h.process);
    U64(e, h.thread);
    I64(e, h.systemClock);
    I64(e, h.steadyClock);
    I32(e, h.eventCount);
  }

  lemma {:induction false} EventRoundTrip(e: Endian, v: Event)
    ensures EventToHost(e, LoadEvent(e, StoreEvent(e, v)), EndianByte(e)) == v
  {
    EventLayout(e, v);
    I64(e, v.steadyClock);
    U64(e, v.payload1);
    U32(e, v.kind);
    U32(e, v.payload2);
  }

  lemma {:induction false} EventLayout(e: Endian, v: Event)
    ensures
      var b := StoreEvent(e, v);
      && b[..8] == Put(e, v.steadyClock, 8) && b[8..16] == Put(e, v.payload1, 8)
      && b[16..20] == Put(e, v.kind, 4) && b[20..24] == Put(e, v.payload2, 4)
  {
  }

  /** Where each field of each event lies. */
  lemma {:induction false} EventsLayout(e: Endian, events: seq<Event>, k: nat)
    requires k < |events|
    ensures
      var b := StoreEvents(e, events)[EVENT_SIZE * k..EVENT_SIZE * k + EVENT_SIZE];
      && b[..8] == Store(e, events[k].steadyClock, 8) && b[8..16] == Store(e, events[k].payload1, 8)
      && b[16..20] == Store(e, events[k].kind, 4) && b[20..24] == Store(e, events[k].payload2, 4)
  {
    StoredEvent(e, events, k);
    EventLayout(e, events[k]);
    StoreUnsigned(e, events[k].steadyClock, 8);
    StoreUnsigned(e, events[k].payload1, 8);
    StoreUnsigned(e, events[k].kind, 4);
    StoreUnsigned(e, events[k].payload2, 4);
  }

  /** Across byte orders the kind of every event reads as 0; the other fields are kept. */
  lemma {:induction false} EventAcross(e: Endian, v: Event)
    ensures EventToHost(Other(e), LoadEvent(Other(e), StoreEvent(e, v)), EndianByte(e)) == v.(kind := 0)
  {
    EventLayout(e, v);
    I64(e, v.steadyClock);
    U64(e, v.payload1);
    U32(e, v.payload2);
    KindAcross(GetU32(Other(e), Put(e, v.kind, 4)));
  }

  lemma {:induction false} KindAcross(kind: Uint32)
    ensures Swap64(kind) % 0x1_0000_0000 == 0
  {
    Powers();
    WideKind(kind, 4);
  }

  lemma {:induction false} WideKind(kind: Uint32, w: nat)
    requires Pow256(w) == 0x1_0000_0000
    ensures Swap(kind, 2 * w) % 0x1_0000_0000 == 0
  {
    var high := WideSwap(kind, w);
    assert Swap(kind, 2 * w) == high * 0x1_0000_0000;
  }

  /** The memory of a vector of events. */
  function StoreEvents(e: Endian, events: seq<Event>): (b: seq<Byte>)
    ensures |b| == EVENT_SIZE * |events|
  {
    if events == [] then [] else StoreEvents(e, events[..|events| - 1]) + StoreEvent(e, events[|events| - 1])
  }

  lemma {:induction false} StoredEvent(e: Endian, events: seq<Event>, k: nat)
    requires k < |events|
    ensures StoreEvents(e, events)[EVENT_SIZE * k..EVENT_SIZE * k + EVENT_SIZE] == StoreEvent(e, events[k])
  {
    var n := |events| - 1;
    if k < n {
      StoredEvent(e, events[..n], k);
    }
    LastEvent(StoreEvents(e, events[..n]), StoreEvent(e, events[n]), n, k);
  }

  lemma {:induction false} LastEvent(a: seq<Byte>, b: seq<Byte>, n: nat, k: nat)
    requires |a| == EVENT_SIZE * n && |b| == EVENT_SIZE && k <= n
    ensures (a + b)[EVENT_SIZE * k..EVENT_SIZE * k + EVENT_SIZE] ==
            if k == n then b else a[EVENT_SIZE * k..EVENT_SIZE * k + EVENT_SIZE]
  {
  }
}
