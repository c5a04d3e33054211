/** Parsing of the buffer that a read of the fanotify descriptor fills. */
module EventBuffer {
  import opened Wrappers

  /** sizeof(EventMetadata) and sizeof(InfoHeader). */
  const METADATA_SIZE := 24
  const HEADER_SIZE := 4
  const PIDFD_RECORD: byte := 4
  const NO_PIDFD := -1

  // ---- Little-endian fields ------------------------------------------------

  const TWO_16 := 0x1_0000

  function U16(buf: seq<byte>, i: nat): nat
    requires i + 2 <= |buf|
  {
    var low: nat, high: nat := buf[i], buf[i + 1];
    low + 0x100 * high
  }

  function U32(buf: seq<byte>, i: nat): nat
    requires i + 4 <= |buf|
  {
    U16(buf, i) + TWO_16 * U16(buf, i + 2)
  }

  function U64(buf: seq<byte>, i: nat): nat
    requires i + 8 <= |buf|
  {
    U32(buf, i) + TWO_32 * U32(buf, i + 4)
  }

  /** The low 16, 32 and 64 bits of a number as bytes. */
  function Le16(n: nat): (bytes: seq<byte>)
    ensures |bytes| == 2
  {
    [n % 0x100, n / 0x100 % 0x100]
  }

  function Le32(n: nat): (bytes: seq<byte>)
    ensures |bytes| == 4
  {
    Le16(n % TWO_16) + Le16(n / TWO_16)
  }

  function Le64(n: nat): (bytes: seq<byte>)
    ensures |bytes| == 8
  {
    Le32(n % TWO_32) + Le32(n / TWO_32)
  }

  /** A 32-bit field read as a signed number, and back. */
  function ToSigned(n: nat): int {
    if n < 0x8000_0000 then n else n - 0x1_0000_0000
  }

  function FromSigned(n: int): nat {
    n % 0x1_0000_0000
  }

  predicate IsI32(n: int) {
    -0x8000_0000 <= n < 0x8000_0000
  }

  // ---- The parser ----------------------------------------------------------

  /** The descriptors are raw numbers; the pid is the field as an unsigned number. */
  datatype Event = Event(mask: nat, pid: nat, fd: int, pidfd: Option<int>)

  /** The last pidfd of an event, or a read that would leave the buffer. */
  datatype InfoResult = RawPidfd(value: int) | InfoOverrun

  datatype ParseResult = Events(events: seq<Event>) | Overrun

  /** The info records of one event, from `off` up to `end`. */
  function ParseInfos(buf: seq<byte>, off: nat, end: nat, found: int): InfoResult
    requires end <= |buf|
    decreases end - off
  {
    if off + HEADER_SIZE > end then RawPidfd(found)
    else if buf[off] == PIDFD_RECORD && off + HEADER_SIZE + 4 > |buf| then InfoOverrun
    else
      var found' := if buf[off] == PIDFD_RECORD then ToSigned(U32(buf, off + HEADER_SIZE)) else found;
      var len := U16(buf, off + 2);
      if len == 0 then RawPidfd(found') else ParseInfos(buf, off + len, end, found')
  }

  function EventAt(buf: seq<byte>, off: nat, rawPidfd: int): Event
    requires off + METADATA_SIZE <= |buf|
  {
    Event(U64(buf, off + 8), U32(buf, off + 20), ToSigned(U32(buf, off + 16)),
          if rawPidfd >= 0 then Some(rawPidfd) else None)
  }

  /** Prepend already parsed events. */
  function Prepend(events: seq<Event>, rest: ParseResult): ParseResult {
    match rest
    case Overrun => Overrun
    case Events(more) => Events(events + more)
  }

  /** The events in the first `n` bytes, from `off` on. */
  function ParseEvents(buf: seq<byte>, n: nat, off: nat): ParseResult
    requires n <= |buf|
    decreases n - off
  {
    if off + METADATA_SIZE > n then Events([])
    else
      var len := U32(buf, off);
      if len < METADATA_SIZE || off + len > n then Events([])
      else
        match ParseInfos(buf, off + U16(buf, off + 6), off + len, NO_PIDFD)
        case InfoOverrun => Overrun
        case RawPidfd(raw) =>
          Prepend([EventAt(buf, off, raw)], ParseEvents(buf, n, off + len))
  }

  method ReadInfos(buf: seq<byte>, start: nat, end: nat) returns (r: InfoResult)
    requires end <= |buf|
    ensures r == ParseInfos(buf, start, end, NO_PIDFD)
  {
    var found := NO_PIDFD;
    var off := start;
    while off + HEADER_SIZE <= end
      invariant ParseInfos(buf, off, end, found) == ParseInfos(buf, start, end, NO_PIDFD)
      decreases end - off
    {
      if buf[off] == PIDFD_RECORD {
        if off + HEADER_SIZE + 4 > |buf| {
          return InfoOverrun;
        }
        found := ToSigned(U32(buf, off + HEADER_SIZE));
      }
      var len := U16(buf, off + 2);
      if len == 0 {
        break;
      }
      off := off + len;
    }
    return RawPidfd(found);
  }

  /** One more parsed event at the end of `events`. */
  lemma ParseOne(events: seq<Event>, buf: seq<byte>, n: nat, off: nat, len: nat, raw: int)
    requires off + METADATA_SIZE <= n <= |buf| && METADATA_SIZE <= len == U32(buf, off) && off + len <= n
    requires ParseInfos(buf, off + U16(buf, off + 6), off + len, NO_PIDFD) == RawPidfd(raw)
    ensures Prepend(events, ParseEvents(buf, n, off))
            == Prepend(events + [EventAt(buf, off, raw)], ParseEvents(buf, n, off + len))
  {
    PrependOne(events, EventAt(buf, off, raw), ParseEvents(buf, n, off + len));
  }

  lemma PrependOne(events: seq<Event>, e: Event, rest: ParseResult)
    ensures Prepend(events + [e], rest) == Prepend(events, Prepend([e], rest))
  {
    if rest.Events? {
      assert (events + [e]) + rest.events == events + ([e] + rest.events);
    }
  }

  /** Parse what one read delivered: the first `n` bytes of the buffer. */
  method ReadReady(buf: seq<byte>, n: nat) returns (r: ParseResult)
    requires n <= |buf|
    ensures r == ParseEvents(buf, n, 0)
  {
    var events: seq<Event> := [];
    var off := 0;
    while off + METADATA_SIZE <= n
      invariant Prepend(events, ParseEvents(buf, n, off)) == ParseEvents(buf, n, 0)
      decreases n - off
    {
      var len := U32(buf, off);
      if len < METADATA_SIZE || off + len > n {
        break;
      }
      var info := ReadInfos(buf, off + U16(buf, off + 6), off + len);
      match info {
        case InfoOverrun =>
          return Overrun;
        case RawPidfd(raw) =>
          ParseOne(events, buf, n, off, len, raw);
          events := events + [EventAt(buf, off, raw)];
          off := off + len;
      }
    }
    return Events(events);
  }

  /** Whatever the bytes, four bytes of slack behind the data are enough to stay
  inside the buffer. */
  lemma {:induction false} SlackPreventsOverrun(buf: seq<byte>, n: nat, off: nat)
    requires n + 4 <= |buf|
    ensures ParseEvents(buf, n, off).Events?
    decreases n - off
  {
    if off + METADATA_SIZE <= n {
      var len := U32(buf, off);
      if METADATA_SIZE <= len && off + len <= n {
        SlackForInfos(buf, off + U16(buf, off + 6), off + len, NO_PIDFD);
        SlackPreventsOverrun(buf, n, off + len);
      }
    }
  }

  lemma {:induction false} SlackForInfos(buf: seq<byte>, off: nat, end: nat, found: int)
    requires end + 4 <= |buf|
    ensures ParseInfos(buf, off, end, found).RawPidfd?
    decreases end - off
  {
    if off + HEADER_SIZE <= end {
      var found' := if buf[off] == PIDFD_RECORD then ToSigned(U32(buf, off + HEADER_SIZE)) else found;
      var len := U16(buf, off + 2);
      if len != 0 {
        SlackForInfos(buf, off + len, end, found');
      }
    }
  }

  // ---- The kernel's layout -------------------------------------------------

  datatype Info = PidfdInfo(fd: int) | OtherInfo(kind: byte, body: seq<byte>) {
    predicate Valid() {
      match this
      case PidfdInfo(fd) => IsI32(fd)
      case OtherInfo(kind, body) => kind != PIDFD_RECORD && HEADER_SIZE + |body| < TWO_16
    }

    /** The pidfd after this record, if it was `found` before it. */
    function Found(found: int): int {
      if PidfdInfo? then fd else found
    }

    function Bytes(): (bytes: seq<byte>)
      ensures |bytes| >= HEADER_SIZE
    {
      match this
      case PidfdInfo(fd) => [PIDFD_RECORD, 0] + Le16(8) + Le32(FromSigned(fd))
      case OtherInfo(kind, body) => [kind, 0] + Le16(HEADER_SIZE + |body|) + body
    }
  }

  predicate ValidInfos(infos: seq<Info>) {
    infos == [] || (infos[0].Valid() && ValidInfos(infos[1..]))
  }

  function InfoBytes(infos: seq<Info>): seq<byte> {
    if infos == [] then [] else infos[0].Bytes() + InfoBytes(infos[1..])
  }

  /** The pidfd that counts: the last one. */
  function LastPidfd(infos: seq<Info>, found: int): int {
    if infos == [] then found
    else LastPidfd(infos[1..], infos[0].Found(found))
  }

  datatype Record = Record(version: byte, reserved: byte, mask: nat, fd: int, pid: int, infos: seq<Info>) {
    predicate Valid() {
      && mask < TWO_64 && IsI32(fd) && IsI32(pid)
      && ValidInfos(infos) && METADATA_SIZE + |InfoBytes(infos)| < TWO_32
    }

    function Head(): (bytes: seq<byte>)
      ensures |bytes| == METADATA_SIZE
    {
      Le32(METADATA_SIZE + |InfoBytes(infos)|) + [version, reserved] + Le16(METADATA_SIZE)
      + Le64(mask) + Le32(FromSigned(fd)) + Le32(FromSigned(pid))
    }

    function Bytes(): (bytes: seq<byte>) {
      Head() + InfoBytes(infos)
    }

    function Meaning(): Event {
      var raw := LastPidfd(infos, NO_PIDFD);
      Event(mask, FromSigned(pid), fd, if raw >= 0 then Some(raw) else None)
    }
  }

  predicate ValidRecords(records: seq<Record>) {
    records == [] || (records[0].Valid() && ValidRecords(records[1..]))
  }

  function AllBytes(records: seq<Record>): seq<byte> {
    if records == [] then [] else records[0].Bytes() + AllBytes(records[1..])
  }

  function Meanings(records: seq<Record>): seq<Event> {
    if records == [] then [] else [records[0].Meaning()] + Meanings(records[1..])
  }

  // ---- The parser inverts the layout ---------------------------------------

  /** `part` stands in the buffer at `off`. */
  predicate At(buf: seq<byte>, off: nat, part: seq<byte>) {
    off + |part| <= |buf| && buf[off..off + |part|] == part
  }

  lemma AtSplit(buf: seq<byte>, off: nat, a: seq<byte>, b: seq<byte>)
    requires At(buf, off, a + b)
    ensures At(buf, off, a) && At(buf, off + |a|, b)
  {
    var all := buf[off..off + |a + b|];
    assert buf[off..off + |a|] == all[..|a|] == a;
    assert buf[off + |a|..off + |a| + |b|] == all[|a|..] == b;
  }

  lemma AtTwo(buf: seq<byte>, off: nat, part: seq<byte>)
    requires At(buf, off, part) && |part| == 2
    ensures off + 2 <= |buf| && buf[off] == part[0] && buf[off + 1] == part[1]
  {
    var both := buf[off..off + 2];
    assert both[0] == buf[off] && both[1] == buf[off + 1];
  }

  /** A field that stands in the buffer is read back. */
  lemma U16At(buf: seq<byte>, off: nat, n: nat)
    requires n < TWO_16 && At(buf, off, Le16(n))
    ensures off + 2 <= |buf| && U16(buf, off) == n
  {
    AtTwo(buf, off, Le16(n));
  }

  lemma U32At(buf: seq<byte>, off: nat, n: nat)
    requires n < TWO_32 && At(buf, off, Le32(n))
    ensures off + 4 <= |buf| && U32(buf, off) == n
  {
    AtSplit(buf, off, Le16(n % TWO_16), Le16(n / TWO_16));
    U16At(buf, off, n % TWO_16);
    U16At(buf, off + 2, n / TWO_16);
  }

  lemma U64At(buf: seq<byte>, off: nat, n: nat)
    requires n < TWO_64 && At(buf, off, Le64(n))
    ensures off + 8 <= |buf| && U64(buf, off) == n
  {
    AtSplit(buf, off, Le32(n % TWO_32), Le32(n / TWO_32));
    U32At(buf, off, n % TWO_32);
    U32At(buf, off + 4, n / TWO_32);
  }

  lemma HeaderFields(buf: seq<byte>, off: nat, kind: byte, len: nat, body: seq<byte>)
    requires len < TWO_16 && At(buf, off, [kind, 0] + Le16(len) + body)
    ensures off + 4 <= |buf| && buf[off] == kind && U16(buf, off + 2) == len && At(buf, off + 4, body)
  {
    AtSplit(buf, off, [kind, 0] + Le16(len), body);
    AtSplit(buf, off, [kind, 0], Le16(len));
    AtTwo(buf, off, [kind, 0]);
    U16At(buf, off + 2, len);
  }

  lemma SignedRoundTrip(n: int)
    requires IsI32(n)
    ensures ToSigned(FromSigned(n)) == n && FromSigned(n) < TWO_32
  {
  }

  // -- from the bytes to the fields

  /** The fields of one info record stand in the buffer, from `off` to `next`. */
  predicate InfoAt(buf: seq<byte>, off: nat, next: nat, info: Info) {
    && off + HEADER_SIZE <= next <= |buf|
    && (buf[off] == PIDFD_RECORD <==> info.PidfdInfo?)
    && U16(buf, off + 2) == next - off
    && (info.PidfdInfo? ==> next == off + 8 && ToSigned(U32(buf, off + HEADER_SIZE)) == info.fd)
  }

  ghost predicate InfosAt(buf: seq<byte>, off: nat, end: nat, infos: seq<Info>)
    decreases |infos|
  {
    if infos == [] then off == end <= |buf|
    else exists next: nat {:trigger InfoAt(buf, off, next, infos[0])} ::
      InfoAt(buf, off, next, infos[0]) && InfosAt(buf, next, end, infos[1..])
  }

  ghost predicate RecordAt(buf: seq<byte>, off: nat, next: nat, r: Record) {
    && off + METADATA_SIZE <= next <= |buf|
    && U32(buf, off) == next - off && U16(buf, off + 6) == METADATA_SIZE && U64(buf, off + 8) == r.mask
    && ToSigned(U32(buf, off + 16)) == r.fd && U32(buf, off + 20) == FromSigned(r.pid)
    && InfosAt(buf, off + METADATA_SIZE, next, r.infos)
  }

  /** The records lie end to end in the buffer, from `off` to `n`. */
  ghost predicate RecordsAt(buf: seq<byte>, off: nat, n: nat, records: seq<Record>)
    decreases |records|
  {
    if records == [] then off == n <= |buf|
    else exists next: nat {:trigger RecordAt(buf, off, next, records[0])} ::
      RecordAt(buf, off, next, records[0]) && RecordsAt(buf, next, n, records[1..])
  }

  lemma InfoIsLaid(buf: seq<byte>, off: nat, next: nat, info: Info)
    requires info.Valid() && At(buf, off, info.Bytes()) && next == off + |info.Bytes()|
    ensures InfoAt(buf, off, next, info)
  {
    match info {
      case PidfdInfo(fd) =>
        HeaderFields(buf, off, PIDFD_RECORD, 8, Le32(FromSigned(fd)));
        U32At(buf, off + 4, FromSigned(fd));
        SignedRoundTrip(fd);
      case OtherInfo(kind, body) =>
        HeaderFields(buf, off, kind, HEADER_SIZE + |body|, body);
    }
  }

  /** `first` and `rest` stand in the buffer one behind the other. */
  lemma InTwoParts(buf: seq<byte>, off: nat, whole: seq<byte>, first: seq<byte>, rest: seq<byte>)
    requires At(buf, off, whole) && whole == first + rest
    ensures At(buf, off, first) && At(buf, off + |first|, rest)
    ensures off + |whole| == off + |first| + |rest| <= |buf|
  {
    AtSplit(buf, off, first, rest);
  }

  lemma OneMoreInfo(buf: seq<byte>, off: nat, next: nat, end: nat, infos: seq<Info>)
    requires infos != [] && infos[0].Valid() && At(buf, off, infos[0].Bytes())
    requires next == off + |infos[0].Bytes()| && InfosAt(buf, next, end, infos[1..])
    ensures InfosAt(buf, off, end, infos)
  {
    InfoIsLaid(buf, off, next, infos[0]);
  }

  lemma {:induction false} InfosAreLaid(buf: seq<byte>, off: nat, end: nat, infos: seq<Info>)
    requires ValidInfos(infos) && At(buf, off, InfoBytes(infos)) && end == off + |InfoBytes(infos)|
    ensures InfosAt(buf, off, end, infos)
    decreases |infos|
  {
    if infos != [] {
      var first, rest := infos[0].Bytes(), InfoBytes(infos[1..]);
      InTwoParts(buf, off, InfoBytes(infos), first, rest);
      var next := off + |first|;
      InfosAreLaid(buf, next, end, infos[1..]);
      OneMoreInfo(buf, off, next, end, infos);
    }
  }

  /** Where the six fields of the metadata stand. */
  lemma HeadSplit(buf: seq<byte>, off: nat, len: seq<byte>, two: seq<byte>, meta: seq<byte>,
                  mask: seq<byte>, fd: seq<byte>, pid: seq<byte>)
    requires |len| == 4 && |two| == 2 && |meta| == 2 && |mask| == 8 && |fd| == 4
    requires At(buf, off, len + two + meta + mask + fd + pid)
    ensures At(buf, off, len) && At(buf, off + 6, meta) && At(buf, off + 8, mask)
    ensures At(buf, off + 16, fd) && At(buf, off + 20, pid)
  {
    AtSplit(buf, off, len + two + meta + mask + fd, pid);
    AtSplit(buf, off, len + two + meta + mask, fd);
    AtSplit(buf, off, len + two + meta, mask);
    AtSplit(buf, off, len + two, meta);
    AtSplit(buf, off, len, two);
  }

  lemma HeadFields(buf: seq<byte>, off: nat, r: Record, len: nat)
    requires r.Valid() && At(buf, off, r.Head()) && len == METADATA_SIZE + |InfoBytes(r.infos)|
    ensures off + METADATA_SIZE <= |buf| && U32(buf, off) == len && U16(buf, off + 6) == METADATA_SIZE
    ensures U64(buf, off + 8) == r.mask
    ensures ToSigned(U32(buf, off + 16)) == r.fd && U32(buf, off + 20) == FromSigned(r.pid)
  {
    HeadSplit(buf, off, Le32(len), [r.version, r.reserved], Le16(METADATA_SIZE), Le64(r.mask),
              Le32(FromSigned(r.fd)), Le32(FromSigned(r.pid)));
    U32At(buf, off, len);
    U16At(buf, off + 6, METADATA_SIZE);
    U64At(buf, off + 8, r.mask);
    U32At(buf, off + 16, FromSigned(r.fd));
    U32At(buf, off + 20, FromSigned(r.pid));
    SignedRoundTrip(r.fd);
  }

  lemma RecordIsLaid(buf: seq<byte>, off: nat, next: nat, r: Record)
    requires r.Valid() && At(buf, off, r.Bytes()) && next == off + |r.Bytes()|
    ensures RecordAt(buf, off, next, r)
  {
    var len := METADATA_SIZE + |InfoBytes(r.infos)|;
    InTwoParts(buf, off, r.Bytes(), r.Head(), InfoBytes(r.infos));
    HeadFields(buf, off, r, len);
    InfosAreLaid(buf, off + METADATA_SIZE, next, r.infos);
  }

  lemma OneMoreRecord(buf: seq<byte>, off: nat, next: nat, n: nat, records: seq<Record>)
    requires records != [] && records[0].Valid() && At(buf, off, records[0].Bytes())
    requires next == off + |records[0].Bytes()| && RecordsAt(buf, next, n, records[1..])
    ensures RecordsAt(buf, off, n, records)
  {
    RecordIsLaid(buf, off, next, records[0]);
  }

  lemma {:induction false} RecordsAreLaid(buf: seq<byte>, off: nat, n: nat, records: seq<Record>)
    requires ValidRecords(records) && At(buf, off, AllBytes(records)) && n == off + |AllBytes(records)|
    ensures RecordsAt(buf, off, n, records)
    decreases |records|
  {
    if records != [] {
      var first, rest := records[0].Bytes(), AllBytes(records[1..]);
      InTwoParts(buf, off, AllBytes(records), first, rest);
      var next := off + |first|;
      RecordsAreLaid(buf, next, n, records[1..]);
      OneMoreRecord(buf, off, next, n, records);
    }
  }

  // -- from the fields to the events

  lemma InfoStep(buf: seq<byte>, off: nat, next: nat, end: nat, found: int, info: Info)
    requires InfoAt(buf, off, next, info) && next <= end <= |buf|
    ensures ParseInfos(buf, off, end, found) == ParseInfos(buf, next, end, info.Found(found))
  {
  }

  lemma {:induction false} InfosEnd(buf: seq<byte>, off: nat, end: nat, infos: seq<Info>)
    requires InfosAt(buf, off, end, infos)
    ensures off <= end <= |buf|
    decreases |infos|
  {
    if infos != [] {
      var next: nat :| InfoAt(buf, off, next, infos[0]) && InfosAt(buf, next, end, infos[1..]);
      InfosEnd(buf, next, end, infos[1..]);
    }
  }

  /** Parsing goes on behind the last well-formed info record. */
  lemma {:induction false} InfosParse(buf: seq<byte>, off: nat, mid: nat, end: nat, infos: seq<Info>, found: int)
    requires InfosAt(buf, off, mid, infos) && mid <= end <= |buf|
    ensures ParseInfos(buf, off, end, found) == ParseInfos(buf, mid, end, LastPidfd(infos, found))
    decreases |infos|
  {
    if infos != [] {
      var next: nat :| InfoAt(buf, off, next, infos[0]) && InfosAt(buf, next, mid, infos[1..]);
      InfosEnd(buf, next, mid, infos[1..]);
      InfoStep(buf, off, next, end, found, infos[0]);
      InfosParse(buf, next, mid, end, infos[1..], infos[0].Found(found));
    }
  }

  lemma RecordStep(buf: seq<byte>, off: nat, next: nat, n: nat, r: Record)
    requires RecordAt(buf, off, next, r) && next <= n <= |buf|
    ensures ParseEvents(buf, n, off) == Prepend([r.Meaning()], ParseEvents(buf, n, next))
  {
    InfosParse(buf, off + METADATA_SIZE, next, next, r.infos, NO_PIDFD);
  }

  lemma {:induction false} RecordsEnd(buf: seq<byte>, off: nat, n: nat, records: seq<Record>)
    requires RecordsAt(buf, off, n, records)
    ensures off <= n <= |buf|
    decreases |records|
  {
    if records != [] {
      var next: nat :| RecordAt(buf, off, next, records[0]) && RecordsAt(buf, next, n, records[1..]);
      RecordsEnd(buf, next, n, records[1..]);
    }
  }

  /** Parsing goes on behind the last well-formed record. */
  lemma {:induction false} RecordsParse(buf: seq<byte>, off: nat, end: nat, n: nat, records: seq<Record>)
    requires RecordsAt(buf, off, end, records) && end <= n <= |buf|
    ensures ParseEvents(buf, n, off) == Prepend(Meanings(records), ParseEvents(buf, n, end))
    decreases |records|
  {
    if records == [] {
      PrependNone(ParseEvents(buf, n, end));
    } else {
      var next: nat :| RecordAt(buf, off, next, records[0]) && RecordsAt(buf, next, end, records[1..]);
      RecordsEnd(buf, next, end, records[1..]);
      RecordStep(buf, off, next, n, records[0]);
      RecordsParse(buf, next, end, n, records[1..]);
      PrependMany(records[0].Meaning(), Meanings(records[1..]), ParseEvents(buf, n, end));
    }
  }

  lemma PrependNone(rest: ParseResult)
    ensures Prepend([], rest) == rest
  {
    if rest.Events? {
      assert [] + rest.events == rest.events;
    }
  }

  lemma PrependMany(e: Event, events: seq<Event>, rest: ParseResult)
    ensures Prepend([e], Prepend(events, rest)) == Prepend([e] + events, rest)
  {
    if rest.Events? {
      assert [e] + (events + rest.events) == ([e] + events) + rest.events;
    }
  }

  /** Main theorem: for every sequence of well-formed records, whatever the buffer
  holds behind them, the parser returns the records' meanings, in order, and
  reads nothing outside the buffer. */
  lemma ParserInvertsLayout(records: seq<Record>, behind: seq<byte>)
    requires ValidRecords(records)
    ensures ParseEvents(AllBytes(records) + behind, |AllBytes(records)|, 0) == Events(Meanings(records))
  {
    var bytes := AllBytes(records);
    assert (bytes + behind)[0..|bytes|] == bytes;
    RecordsAreLaid(bytes + behind, 0, |bytes|, records);
    RecordsParse(bytes + behind, 0, |bytes|, |bytes|, records);
    assert Meanings(records) + [] == Meanings(records);
  }

  /** What a record says its length is. */
  function Declared(tail: seq<byte>): nat
    requires |tail| >= 4
  {
    Number(tail[3], tail[2], tail[1], tail[0])
  }

  /** The rest of the data does not hold one more whole record: it is shorter than the
  metadata, or declares a length below that of the metadata or beyond its end. */
  predicate BrokenTail(tail: seq<byte>) {
    |tail| < METADATA_SIZE || Declared(tail) < METADATA_SIZE || Declared(tail) > |tail|
  }

  /** A broken end of the data costs no event before it and adds none. */
  lemma BrokenTailIsDropped(records: seq<Record>, tail: seq<byte>, behind: seq<byte>)
    requires ValidRecords(records) && BrokenTail(tail)
    ensures var data := AllBytes(records) + tail;
            ParseEvents(data + behind, |data|, 0) == Events(Meanings(records))
  {
    var bytes := AllBytes(records);
    var buf, n := bytes + tail + behind, |bytes + tail|;
    assert buf[0..|bytes|] == bytes && buf[|bytes|..n] == tail;
    RecordsAreLaid(buf, 0, |bytes|, records);
    RecordsParse(buf, 0, |bytes|, n, records);
    TailStops(buf, |bytes|, n, tail);
    assert Meanings(records) + [] == Meanings(records);
  }

  lemma TailStops(buf: seq<byte>, off: nat, n: nat, tail: seq<byte>)
    requires off + |tail| == n <= |buf| && buf[off..n] == tail && BrokenTail(tail)
    ensures ParseEvents(buf, n, off) == Events([])
  {
    if |tail| >= 4 {
      forall k | 0 <= k < 4 ensures buf[off + k] == tail[k] {
        assert buf[off..n][k] == tail[k];
      }
      assert U32(buf, off) == Declared(tail);
    }
  }

  lemma FieldsByBytes(buf: seq<byte>, i: nat)
    ensures i + 4 <= |buf| ==> U32(buf, i) == Number(buf[i + 3], buf[i + 2], buf[i + 1], buf[i])
    ensures i + 8 <= |buf| ==>
              U64(buf, i) == Number(buf[i + 3], buf[i + 2], buf[i + 1], buf[i])
                             + TWO_32 * Number(buf[i + 7], buf[i + 6], buf[i + 5], buf[i + 4])
  {
  }

  /** One event of 32 bytes with one pidfd record, byte by byte: the length in bytes 0 to
  3, the metadata's length in 6 and 7, the mask in 8 to 15, the fd in 16 to 19, the
  pid in 20 to 23, the record's type in 24, its length in 26 and 27, and the pidfd
  in 28 to 31; in each field the lowest byte first. */
  lemma EventByBytes(buf: seq<byte>)
    requires |buf| >= 32 && buf[0] == 32 && buf[1] == buf[2] == buf[3] == 0 && buf[6] == 24 && buf[7] == 0
    requires buf[24] == 4 && buf[26] == 8 && buf[27] == 0
    ensures var mask := Number(buf[11], buf[10], buf[9], buf[8]) + TWO_32 * Number(buf[15], buf[14], buf[13], buf[12]);
            var fd, pid := Number(buf[19], buf[18], buf[17], buf[16]), Number(buf[23], buf[22], buf[21], buf[20]);
            var pidfd := Number(buf[31], buf[30], buf[29], buf[28]);
            ParseEvents(buf, 32, 0)
            == Events([Event(mask, pid, if fd < 0x8000_0000 then fd else fd - TWO_32,
                             if pidfd < 0x8000_0000 then Some(pidfd) else None)])
  {
    FieldsByBytes(buf, 0);
    FieldsByBytes(buf, 8);
    FieldsByBytes(buf, 16);
    FieldsByBytes(buf, 20);
    FieldsByBytes(buf, 28);
    var raw := ToSigned(U32(buf, 28));
    assert ParseInfos(buf, 24, 32, NO_PIDFD) == RawPidfd(raw);
    assert ParseEvents(buf, 32, 32) == Events([]);
    assert [EventAt(buf, 0, raw)] + [] == [EventAt(buf, 0, raw)];
  }

  /** An info record that declares length 0 ends the info records of its event. */
  lemma ZeroLengthEnds(infos: seq<Info>, kind: byte, rest: seq<byte>, behind: seq<byte>, found: int)
    requires ValidInfos(infos) && kind != PIDFD_RECORD
    ensures var bytes := InfoBytes(infos) + [kind, 0, 0, 0] + rest;
            ParseInfos(bytes + behind, 0, |bytes|, found) == RawPidfd(LastPidfd(infos, found))
  {
    var first := InfoBytes(infos);
    var bytes := first + [kind, 0, 0, 0] + rest;
    var buf := bytes + behind;
    assert buf[0..|first|] == first;
    InfosAreLaid(buf, 0, |first|, infos);
    InfosParse(buf, 0, |first|, |bytes|, infos, found);
    assert buf[|first|] == kind && buf[|first| + 2] == 0 && buf[|first| + 3] == 0;
  }
}
