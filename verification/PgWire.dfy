/** The Postgres wire protocol as the server writes it (crates/keystone/tpt-keystone/src/wire/messages.rs)
    and as the Go and the Rust client read it (crates/keystone/sdk-go/wire.go,
    crates/keystone/tpt-keystone-harbor/src/pgwire.rs). Text is kept as bytes. */
module PgWire {

  import opened Wrappers
  import opened Bytes

  type Cell = Option<seq<byte>>

  /** The Rust client turns text into strings with `from_utf8_lossy`, the Go client keeps the bytes. */
  datatype Client = Go | Rust(lossy: Text -> Text)

  function AsText(c: Client, s: Text): Text {
    if c.Go? then s else c.lossy(s)
  }

  // ----- integers -----

  const TWO15 := 0x8000
  const TWO16 := 0x1_0000
  const TWO31 := 0x8000_0000
  const TWO32 := 0x1_0000_0000

  predicate Int32(v: int) { -TWO31 <= v < TWO31 }

  function PutI16(v: int): (r: seq<byte>)
    ensures |r| == 2
  {
    BigEndian(v % TWO16, 2)
  }

  function PutI32(v: int): (r: seq<byte>)
    ensures |r| == 4
  {
    BigEndian(v % TWO32, 4)
  }

  function GetU16(data: seq<byte>): nat
    requires |data| >= 2
  {
    FromBigEndian(data[..2])
  }

  function GetI32(data: seq<byte>): int
    requires |data| >= 4
  {
    var n := FromBigEndian(data[..4]);
    if n < TWO31 then n else n - TWO32
  }

  lemma U16RoundTrip(v: int, tail: seq<byte>)
    ensures GetU16(PutI16(v) + tail) == v % TWO16
  {
    assert (PutI16(v) + tail)[..2] == PutI16(v);
    assert Power256(2) == TWO16;
    BigEndianRoundTrip(v % TWO16, 2);
  }

  lemma PowerFour()
    ensures Power256(4) == TWO32
  {
    assert Power256(2) == TWO16;
  }

  lemma I32RoundTrip(v: int, tail: seq<byte>)
    requires Int32(v)
    ensures GetI32(PutI32(v) + tail) == v
  {
    assert (PutI32(v) + tail)[..4] == PutI32(v);
    PowerFour();
    hide Power256, BigEndian, FromBigEndian;
    BigEndianRoundTrip(v % TWO32, 4);
  }

  // ----- what the server writes -----

  datatype Field = Field(name: Text, table: int, attribute: int, oid: int, size: int, modifier: int, format: int)

  datatype ServerMessage =
    | AuthenticationOk
    | ParameterStatus(name: Text, value: Text)
    | BackendKeyData(pid: int, secret: int)
    | ReadyForQuery(status: byte)
    | RowDescription(fields: seq<Field>)
    | DataRow(cells: seq<Cell>)
    | CommandComplete(tag: Text)
    | ErrorResponse(severity: Text, code: Text, message: Text)
    | EmptyQueryResponse
    | NoticeResponse(notice: Text)
    | ParseComplete | BindComplete | CloseComplete
    | ParameterDescription(types: seq<int>)
    | NoDataResponse | PortalSuspended
    | NotificationResponse(sender: int, channel: Text, payload: Text)
    | CopyData(data: seq<byte>) | CopyDone

  function Terminated(s: Text): Text {
    s + [0]
  }

  function FieldBytes(f: Field): seq<byte> {
    Terminated(f.name) + (PutI32(f.table) + PutI16(f.attribute)) + PutI32(f.oid)
    + (PutI16(f.size) + PutI32(f.modifier) + PutI16(f.format))
  }

  function FieldsBytes(fs: seq<Field>): seq<byte> {
    if |fs| == 0 then [] else FieldBytes(fs[0]) + FieldsBytes(fs[1..])
  }

  function CellBytes(c: Cell): seq<byte> {
    match c
    case None => PutI32(-1)
    case Some(data) => PutI32(|data|) + data
  }

  function CellsBytes(cs: seq<Cell>): seq<byte> {
    if |cs| == 0 then [] else CellBytes(cs[0]) + CellsBytes(cs[1..])
  }

  function TypesBytes(ts: seq<int>): seq<byte> {
    if |ts| == 0 then [] else PutI32(ts[0]) + TypesBytes(ts[1..])
  }

  function Tag(m: ServerMessage): byte {
    match m
    case AuthenticationOk => 0x52
    case ParameterStatus(_, _) => 0x53
    case BackendKeyData(_, _) => 0x4B
    case ReadyForQuery(_) => 0x5A
    case RowDescription(_) => 0x54
    case DataRow(_) => 0x44
    case CommandComplete(_) => 0x43
    case ErrorResponse(_, _, _) => 0x45
    case EmptyQueryResponse => 0x49
    case NoticeResponse(_) => 0x4E
    case ParseComplete => 0x31
    case BindComplete => 0x32
    case CloseComplete => 0x33
    case ParameterDescription(_) => 0x74
    case NoDataResponse => 0x6E
    case PortalSuspended => 0x73
    case NotificationResponse(_, _, _) => 0x41
    case CopyData(_) => 0x64
    case CopyDone => 0x63
  }

  function ErrorBytes(severity: Text, code: Text, message: Text): seq<byte> {
    [0x53] + (Terminated(severity) + ([0x56] + (Terminated(severity) +
    ([0x43] + (Terminated(code) + ([0x4D] + (Terminated(message) + [0])))))))
  }

  function Body(m: ServerMessage): seq<byte> {
    match m
    case AuthenticationOk => PutI32(0)
    case ParameterStatus(name, value) => Terminated(name) + Terminated(value)
    case BackendKeyData(pid, secret) => PutI32(pid) + PutI32(secret)
    case ReadyForQuery(status) => [status]
    case RowDescription(fields) => PutI16(|fields|) + FieldsBytes(fields)
    case DataRow(cells) => PutI16(|cells|) + CellsBytes(cells)
    case CommandComplete(tag) => Terminated(tag)
    case ErrorResponse(severity, code, message) => ErrorBytes(severity, code, message)
    case NoticeResponse(notice) => [0x4D] + (Terminated(notice) + [0])
    case ParameterDescription(types) => PutI16(|types|) + TypesBytes(types)
    case NotificationResponse(sender, channel, payload) => PutI32(sender) + Terminated(channel) + Terminated(payload)
    case CopyData(data) => data
    case _ => []
  }

  function Frame(tag: byte, body: seq<byte>): seq<byte> {
    [tag] + PutI32(4 + |body|) + body
  }

  function Encode(m: ServerMessage): seq<byte> {
    Frame(Tag(m), Body(m))
  }

  function EncodeAll(ms: seq<ServerMessage>): seq<byte> {
    if |ms| == 0 then [] else Encode(ms[0]) + EncodeAll(ms[1..])
  }

  /** messages.rs:363-371: the length word is a placeholder until the body is written. */
  method WriteMessage(buf: seq<byte>, tag: byte, body: seq<byte>) returns (r: seq<byte>)
    ensures r == buf + Frame(tag, body)
  {
    r := buf + [tag];
    var at := |r|;
    r := r + PutI32(0);
    r := r + body;
    r := Overwrite(r, at, PutI32(|r| - at));
  }

  // ----- what the clients read -----

  datatype Column = Column(name: Text, oid: int)

  datatype Message =
    | Ready(status: byte)
    | Columns(columns: seq<Column>)
    | Row(cells: seq<Cell>)
    | Complete(tag: Text)
    | ServerError(text: Text)
    | NoData
    | Suspended
    | Notice(text: Text)
    | Parameter(name: Text, value: Text)
    | KeyData(pid: int, secret: int)
    | Parameters(types: seq<int>)
    | Other(code: byte)

  /** The text up to the next NUL, and what follows the NUL. */
  function ReadCStr(data: seq<byte>): (r: (Text, seq<byte>))
    ensures |r.1| <= |data|
  {
    if |data| == 0 then ([], [])
    else if data[0] == 0 then ([], data[1..])
    else
      var (s, rest) := ReadCStr(data[1..]);
      ([data[0]] + s, rest)
  }

  /** `n` further cells appended to `acc`; None where the body is too short for a length word. */
  function ReadCells(n: nat, data: seq<byte>, acc: seq<Cell>): Option<seq<Cell>> {
    if n == 0 then Some(acc)
    else if |data| < 4 then None
    else
      var l, rest := GetI32(data), data[4..];
      if l < 0 then ReadCells(n - 1, rest, acc + [None])
      else
        var take := if l <= |rest| then l else |rest|;
        ReadCells(n - 1, rest[take..], acc + [Some(rest[..take])])
  }

  function ReadColumns(n: nat, data: seq<byte>, acc: seq<Column>): Option<seq<Column>> {
    if n == 0 then Some(acc)
    else
      var (name, rest) := ReadCStr(data);
      if |rest| < 18 then None
      else ReadColumns(n - 1, rest[18..], acc + [Column(name, GetI32(rest[6..]))])
  }

  function ReadTypes(n: nat, data: seq<byte>, acc: seq<int>): Option<seq<int>> {
    if n == 0 then Some(acc)
    else if |data| < 4 then None
    else ReadTypes(n - 1, data[4..], acc + [GetI32(data)])
  }

  /** The last `M` field, if any. */
  function ReadErrorFields(data: seq<byte>, message: Option<Text>): Option<Text>
    decreases |data|
  {
    if |data| == 0 || data[0] == 0 then message
    else
      var (value, rest) := ReadCStr(data[1..]);
      ReadErrorFields(rest, if data[0] == 0x4D then Some(value) else message)
  }

  const UNKNOWN_ERROR: Text := Ascii("unknown server error")

  /** The Go client also replaces an empty message, the Rust client only a missing one. */
  function ErrorText(c: Client, data: seq<byte>): Text {
    match ReadErrorFields(data, None)
    case None => UNKNOWN_ERROR
    case Some(m) => Shown(c, m)
  }

  /** The column count: unsigned in Go; in Rust signed, and a negative count cannot be allocated. */
  function Count(c: Client, data: seq<byte>): Option<nat> {
    if |data| < 2 then None
    else if c.Rust? && GetU16(data) >= TWO15 then None
    else Some(GetU16(data))
  }

  function Decode(c: Client, tag: byte, data: seq<byte>): Option<Message> {
    if tag == 0x53 then
      var (name, rest) := ReadCStr(data);
      Some(Parameter(AsText(c, name), AsText(c, ReadCStr(rest).0)))
    else if tag == 0x4B then
      if |data| < 8 then None else Some(KeyData(GetI32(data), GetI32(data[4..])))
    else if tag == 0x5A then Some(Ready(if |data| > 0 then data[0] else 0x49))
    else if tag == 0x54 then
      match Count(c, data)
      case None => None
      case Some(n) =>
        match ReadColumns(n, data[2..], [])
        case None => None
        case Some(columns) => Some(Columns(Renamed(c, columns)))
    else if tag == 0x44 then
      match Count(c, data)
      case None => None
      case Some(n) =>
        match ReadCells(n, data[2..], [])
        case None => None
        case Some(cells) => Some(Row(cells))
    else if tag == 0x43 then Some(Complete(AsText(c, ReadCStr(data).0)))
    else if tag == 0x45 then Some(ServerError(ErrorText(c, data)))
    else if tag == 0x4E then Some(Notice(ErrorText(c, data)))
    else if c.Go? && tag == 0x74 then
      match Count(c, data)
      case None => None
      case Some(n) =>
        match ReadTypes(n, data[2..], [])
        case None => None
        case Some(types) => Some(Parameters(types))
    else if c.Go? && tag == 0x6E then Some(NoData)
    else if c.Go? && tag == 0x73 then Some(Suspended)
    else Some(Other(tag))
  }

  /** What a message means to a client. */
  function View(c: Client, m: ServerMessage): Message {
    match m
    case ParameterStatus(name, value) => Parameter(AsText(c, name), AsText(c, value))
    case BackendKeyData(pid, secret) => KeyData(pid, secret)
    case ReadyForQuery(status) => Ready(status)
    case RowDescription(fields) => Columns(Renamed(c, ColumnsOf(fields)))
    case DataRow(cells) => Row(cells)
    case CommandComplete(tag) => Complete(AsText(c, tag))
    case ErrorResponse(_, _, message) => ServerError(Shown(c, message))
    case NoticeResponse(notice) => Notice(Shown(c, notice))
    case ParameterDescription(types) => if c.Go? then Parameters(types) else Other(Tag(m))
    case NoDataResponse => if c.Go? then NoData else Other(Tag(m))
    case PortalSuspended => if c.Go? then Suspended else Other(Tag(m))
    case _ => Other(Tag(m))
  }

  function Shown(c: Client, message: Text): Text {
    if c.Go? && message == [] then UNKNOWN_ERROR else AsText(c, message)
  }

  function Renamed(c: Client, columns: seq<Column>): (r: seq<Column>)
    ensures |r| == |columns|
  {
    seq(|columns|, i requires 0 <= i < |columns| => Column(AsText(c, columns[i].name), columns[i].oid))
  }

  function ColumnsOf(fields: seq<Field>): seq<Column> {
    seq(|fields|, i requires 0 <= i < |fields| => Column(fields[i].name, fields[i].oid))
  }

  /** What the encoder takes for granted: C strings without NUL, 32-bit numbers, counts that fit the
      client's reading of the count word, and a frame length that fits a signed 32-bit word. */
  predicate Sendable(c: Client, m: ServerMessage) {
    && 4 + |Body(m)| < TWO31
    && match m
       case ParameterStatus(name, value) => 0 !in name && 0 !in value
       case BackendKeyData(pid, secret) => Int32(pid) && Int32(secret)
       case RowDescription(fields) => |fields| < Limit(c) && forall f :: f in fields ==> 0 !in f.name && Int32(f.oid)
       case DataRow(cells) => |cells| < Limit(c)
       case CommandComplete(tag) => 0 !in tag
       case ErrorResponse(severity, code, message) => 0 !in severity && 0 !in code && 0 !in message
       case NoticeResponse(notice) => 0 !in notice
       case ParameterDescription(types) => |types| < Limit(c) && forall t :: t in types ==> Int32(t)
       case _ => true
  }

  function Limit(c: Client): nat {
    if c.Go? then TWO16 else TWO15
  }

  // ----- decoding undoes encoding -----

  lemma {:induction false} CStrRoundTrip(s: Text, tail: seq<byte>)
    requires 0 !in s
    ensures ReadCStr(Terminated(s) + tail) == (s, tail)
  {
    var data := Terminated(s) + tail;
    if |s| == 0 {
      assert data == [0] + tail;
    } else {
      CStrRoundTrip(s[1..], tail);
      assert data[0] == s[0] && data[1..] == Terminated(s[1..]) + tail;
      assert [s[0]] + s[1..] == s;
    }
  }

  lemma CellRead(n: nat, c: Cell, tail: seq<byte>, acc: seq<Cell>)
    requires n > 0 && (c.Some? ==> |c.value| < TWO31)
    ensures ReadCells(n, CellBytes(c) + tail, acc) == ReadCells(n - 1, tail, acc + [c])
  {
    var data := CellBytes(c) + tail;
    hide PutI32, GetI32;
    match c
    case None =>
      I32RoundTrip(-1, tail);
      assert data[4..] == tail;
    case Some(d) =>
      I32RoundTrip(|d|, d + tail);
      assert data == PutI32(|d|) + (d + tail);
      assert data[4..] == d + tail;
      assert (d + tail)[..|d|] == d && (d + tail)[|d|..] == tail;
  }

  lemma {:induction false} CellsFit(cs: seq<Cell>, i: nat)
    requires i < |cs|
    ensures cs[i].Some? ==> |cs[i].value| <= |CellsBytes(cs)|
  {
    if i > 0 {
      CellsFit(cs[1..], i - 1);
    }
  }

  /** The first `n` cells are read back, whatever follows. */
  lemma {:induction false} CellsRoundTrip(n: nat, cs: seq<Cell>, tail: seq<byte>, acc: seq<Cell>)
    requires n <= |cs|
    requires forall i :: 0 <= i < |cs| && cs[i].Some? ==> |cs[i].value| < TWO31
    ensures ReadCells(n, CellsBytes(cs) + tail, acc) == Some(acc + cs[..n])
    decreases n
  {
    hide ReadCells, CellBytes;
    if n == 0 {
      NoCells(CellsBytes(cs) + tail, acc);
      assert acc + cs[..0] == acc;
    } else {
      var rest := CellsBytes(cs[1..]) + tail;
      assert CellsBytes(cs) + tail == CellBytes(cs[0]) + rest;
      CellRead(n, cs[0], rest, acc);
      CellsRoundTrip(n - 1, cs[1..], tail, acc + [cs[0]]);
      assert acc + [cs[0]] + cs[1..][..n - 1] == acc + cs[..n];
    }
  }

  lemma NoCells(data: seq<byte>, acc: seq<Cell>)
    ensures ReadCells(0, data, acc) == Some(acc)
  {
  }

  lemma ColumnRead(n: nat, f: Field, tail: seq<byte>, acc: seq<Column>)
    requires n > 0 && 0 !in f.name && Int32(f.oid)
    ensures ReadColumns(n, FieldBytes(f) + tail, acc) == ReadColumns(n - 1, tail, acc + [Column(f.name, f.oid)])
  {
    hide PutI32, PutI16, GetI32;
    var before, after := PutI32(f.table) + PutI16(f.attribute), PutI16(f.size) + PutI32(f.modifier) + PutI16(f.format);
    var rest := before + (PutI32(f.oid) + (after + tail));
    assert FieldBytes(f) + tail == Terminated(f.name) + rest;
    CStrRoundTrip(f.name, rest);
    assert rest[6..] == PutI32(f.oid) + (after + tail);
    I32RoundTrip(f.oid, after + tail);
    assert rest[18..] == tail;
  }

  lemma {:induction false} ColumnsRoundTrip(fs: seq<Field>, tail: seq<byte>, acc: seq<Column>)
    requires forall f :: f in fs ==> 0 !in f.name && Int32(f.oid)
    ensures ReadColumns(|fs|, FieldsBytes(fs) + tail, acc) == Some(acc + ColumnsOf(fs))
    decreases |fs|
  {
    hide FieldBytes, ReadColumns;
    if |fs| > 0 {
      assert fs[0] in fs;
      var rest := FieldsBytes(fs[1..]) + tail;
      assert FieldsBytes(fs) + tail == FieldBytes(fs[0]) + rest;
      ColumnRead(|fs|, fs[0], rest, acc);
      var column := Column(fs[0].name, fs[0].oid);
      ColumnsRoundTrip(fs[1..], tail, acc + [column]);
      assert acc + [column] + ColumnsOf(fs[1..]) == acc + ColumnsOf(fs);
    } else {
      NoColumns(FieldsBytes(fs) + tail, acc);
      assert acc + ColumnsOf(fs) == acc;
    }
  }

  lemma NoColumns(data: seq<byte>, acc: seq<Column>)
    ensures ReadColumns(0, data, acc) == Some(acc)
  {
  }

  lemma {:induction false} TypesRoundTrip(ts: seq<int>, tail: seq<byte>, acc: seq<int>)
    requires forall t :: t in ts ==> Int32(t)
    ensures ReadTypes(|ts|, TypesBytes(ts) + tail, acc) == Some(acc + ts)
    decreases |ts|
  {
    hide PutI32, GetI32;
    if |ts| > 0 {
      assert ts[0] in ts;
      var rest := TypesBytes(ts[1..]) + tail;
      var data := TypesBytes(ts) + tail;
      assert data == PutI32(ts[0]) + rest;
      I32RoundTrip(ts[0], rest);
      assert data[4..] == rest;
      TypesRoundTrip(ts[1..], tail, acc + [ts[0]]);
      assert acc + [ts[0]] + ts[1..] == acc + ts;
    } else {
      assert acc + ts == acc;
    }
  }

  lemma ErrorFieldRead(code: byte, value: Text, rest: seq<byte>, message: Option<Text>)
    requires code != 0 && 0 !in value
    ensures ReadErrorFields([code] + (Terminated(value) + rest), message)
         == ReadErrorFields(rest, if code == 0x4D then Some(value) else message)
  {
    var data := [code] + (Terminated(value) + rest);
    assert data[0] == code && data[1..] == Terminated(value) + rest;
    CStrRoundTrip(value, rest);
  }

  lemma ErrorRoundTrip(severity: Text, code: Text, message: Text)
    requires 0 !in severity && 0 !in code && 0 !in message
    ensures ReadErrorFields(ErrorBytes(severity, code, message), None) == Some(message)
  {
    hide ReadErrorFields, Terminated;
    var end: seq<byte> := [0];
    var m := [0x4D] + (Terminated(message) + end);
    var c := [0x43] + (Terminated(code) + m);
    var v := [0x56] + (Terminated(severity) + c);
    ErrorFieldRead(0x53, severity, v, None);
    ErrorFieldRead(0x56, severity, c, None);
    ErrorFieldRead(0x43, code, m, None);
    ErrorFieldRead(0x4D, message, end, None);
    ErrorFieldsEnd(Some(message));
  }

  lemma ErrorFieldsEnd(message: Option<Text>)
    ensures ReadErrorFields([0], message) == message
  {
  }

  /** An error field: its code and its text. */
  datatype ErrorField = ErrorField(code: byte, text: Text)

  function ErrorFieldsBytes(fs: seq<ErrorField>): seq<byte> {
    if |fs| == 0 then [0] else [fs[0].code] + (Terminated(fs[0].text) + ErrorFieldsBytes(fs[1..]))
  }

  /** The text of the last field coded `M`, or `message`. */
  function LastMessage(fs: seq<ErrorField>, message: Option<Text>): Option<Text> {
    if |fs| == 0 then message
    else LastMessage(fs[1..], if fs[0].code == 0x4D then Some(fs[0].text) else message)
  }

  /** Whatever fields a server sends, the last message field is reported. */
  lemma {:induction false} LastMessageFound(fs: seq<ErrorField>, message: Option<Text>)
    requires forall f :: f in fs ==> f.code != 0 && 0 !in f.text
    ensures ReadErrorFields(ErrorFieldsBytes(fs), message) == LastMessage(fs, message)
    decreases |fs|
  {
    hide ReadErrorFields, Terminated;
    if |fs| == 0 {
      ErrorFieldsEnd(message);
    } else {
      assert fs[0] in fs;
      ErrorFieldRead(fs[0].code, fs[0].text, ErrorFieldsBytes(fs[1..]), message);
      LastMessageFound(fs[1..], if fs[0].code == 0x4D then Some(fs[0].text) else message);
    }
  }

  lemma NoticeRoundTrip(notice: Text)
    requires 0 !in notice
    ensures ReadErrorFields([0x4D] + (Terminated(notice) + [0]), None) == Some(notice)
  {
    hide ReadErrorFields, Terminated;
    ErrorFieldRead(0x4D, notice, [0], None);
    ErrorFieldsEnd(Some(notice));
  }

  lemma CountRead(c: Client, n: nat, tail: seq<byte>)
    requires n < Limit(c)
    ensures Count(c, PutI16(n) + tail) == Some(n) && (PutI16(n) + tail)[2..] == tail
  {
    U16RoundTrip(n, tail);
    hide PutI16, GetU16;
  }

  lemma RowBody(c: Client, cells: seq<Cell>)
    requires |cells| < Limit(c) && |CellsBytes(cells)| < TWO31
    ensures Decode(c, 0x44, PutI16(|cells|) + CellsBytes(cells)) == Some(Row(cells))
  {
    var data := CellsBytes(cells);
    forall i | 0 <= i < |cells| && cells[i].Some? ensures |cells[i].value| < TWO31 {
      CellsFit(cells, i);
    }
    CellsRoundTrip(|cells|, cells, [], []);
    assert data + [] == data && [] + cells[..|cells|] == cells;
    CountRead(c, |cells|, data);
    hide CellsBytes, ReadCells, Count, PutI16;
  }

  lemma ColumnsBody(c: Client, fields: seq<Field>)
    requires |fields| < Limit(c) && forall f :: f in fields ==> 0 !in f.name && Int32(f.oid)
    ensures Decode(c, 0x54, PutI16(|fields|) + FieldsBytes(fields)) == Some(Columns(Renamed(c, ColumnsOf(fields))))
  {
    hide FieldsBytes, ReadColumns, Count, PutI16, Renamed;
    var data := FieldsBytes(fields);
    ColumnsRoundTrip(fields, [], []);
    assert data + [] == data && [] + ColumnsOf(fields) == ColumnsOf(fields);
    CountRead(c, |fields|, data);
  }

  lemma TypesBody(types: seq<int>)
    requires |types| < Limit(Go) && forall t :: t in types ==> Int32(t)
    ensures Decode(Go, 0x74, PutI16(|types|) + TypesBytes(types)) == Some(Parameters(types))
  {
    hide TypesBytes, ReadTypes, Count, PutI16;
    var data := TypesBytes(types);
    TypesRoundTrip(types, [], []);
    assert data + [] == data && [] + types == types;
    CountRead(Go, |types|, data);
  }

  lemma TextBody(s: Text)
    requires 0 !in s
    ensures ReadCStr(Terminated(s)).0 == s
  {
    CStrRoundTrip(s, []);
    assert Terminated(s) + [] == Terminated(s);
  }

  lemma KeyBody(c: Client, pid: int, secret: int)
    requires Int32(pid) && Int32(secret)
    ensures Decode(c, 0x4B, PutI32(pid) + PutI32(secret)) == Some(KeyData(pid, secret))
  {
    hide PutI32, GetI32;
    var data := PutI32(pid) + PutI32(secret);
    I32RoundTrip(pid, PutI32(secret));
    I32RoundTrip(secret, []);
    assert data[4..] == PutI32(secret) + [];
  }

  lemma DecodeTexts(c: Client, m: ServerMessage)
    requires Sendable(c, m)
    requires m.ParameterStatus? || m.CommandComplete? || m.ErrorResponse? || m.NoticeResponse?
    ensures Decode(c, Tag(m), Body(m)) == Some(View(c, m))
  {
    hide ReadErrorFields, ReadCStr, ErrorBytes, Terminated, UNKNOWN_ERROR;
    match m
    case ParameterStatus(name, value) =>
      CStrRoundTrip(name, Terminated(value));
      TextBody(value);
    case CommandComplete(tag) => TextBody(tag);
    case ErrorResponse(severity, code, message) => ErrorRoundTrip(severity, code, message);
    case NoticeResponse(notice) => NoticeRoundTrip(notice);
  }

  lemma DecodeLists(c: Client, m: ServerMessage)
    requires Sendable(c, m)
    requires m.BackendKeyData? || m.RowDescription? || m.DataRow? || m.ParameterDescription?
    ensures Decode(c, Tag(m), Body(m)) == Some(View(c, m))
  {
    hide CellsBytes, FieldsBytes, TypesBytes, ReadCells, ReadColumns, ReadTypes, PutI16, PutI32, GetI32, GetU16;
    match m
    case BackendKeyData(pid, secret) => KeyBody(c, pid, secret);
    case RowDescription(fields) => ColumnsBody(c, fields);
    case DataRow(cells) => RowBody(c, cells);
    case ParameterDescription(types) =>
      if c.Go? {
        TypesBody(types);
      }
  }

  /** Decoding a message's body gives its meaning, for both clients. */
  lemma DecodeEncoded(c: Client, m: ServerMessage)
    requires Sendable(c, m)
    ensures Decode(c, Tag(m), Body(m)) == Some(View(c, m))
  {
    hide Decode, View, Tag, Body, Sendable;
    if m.ParameterStatus? || m.CommandComplete? || m.ErrorResponse? || m.NoticeResponse? {
      DecodeTexts(c, m);
    } else if m.BackendKeyData? || m.RowDescription? || m.DataRow? || m.ParameterDescription? {
      DecodeLists(c, m);
    } else {
      DecodeBare(c, m);
    }
  }

  lemma DecodeBare(c: Client, m: ServerMessage)
    requires !m.ParameterStatus? && !m.CommandComplete? && !m.ErrorResponse? && !m.NoticeResponse?
    requires !m.BackendKeyData? && !m.RowDescription? && !m.DataRow? && !m.ParameterDescription?
    ensures Decode(c, Tag(m), Body(m)) == Some(View(c, m))
  {
    hide Terminated, PutI32;
  }

  /** The column count is written into 16 bits, and read as unsigned in Go and as signed in Rust: a row is
      read back exactly when it has fewer than 65536 columns in Go, and fewer than 32768 in Rust. */
  lemma RowReadBackIff(c: Client, cells: seq<Cell>)
    requires |CellsBytes(cells)| < TWO31
    ensures Decode(c, 0x44, PutI16(|cells|) + CellsBytes(cells)) == Some(Row(cells)) <==> |cells| < Limit(c)
  {
    if |cells| < Limit(c) {
      RowBody(c, cells);
    } else {
      WideRowLost(c, cells);
    }
  }

  lemma WideRowLost(c: Client, cells: seq<Cell>)
    requires |CellsBytes(cells)| < TWO31 && |cells| >= Limit(c)
    ensures Decode(c, 0x44, PutI16(|cells|) + CellsBytes(cells)) != Some(Row(cells))
  {
    hide CellsBytes, ReadCells, PutI16, GetU16;
    var data, n := CellsBytes(cells), |cells| % TWO16;
    var body := PutI16(|cells|) + data;
    U16RoundTrip(|cells|, data);
    assert body[2..] == data;
    if c.Go? || n < TWO15 {
      forall i | 0 <= i < |cells| && cells[i].Some? ensures |cells[i].value| < TWO31 {
        CellsFit(cells, i);
      }
      CellsRoundTrip(n, cells, [], []);
      assert data + [] == data && [] + cells[..n] == cells[..n];
      assert Count(c, body) == Some(n);
      assert Decode(c, 0x44, body) == Some(Row(cells[..n]));
    } else {
      assert Count(c, body) == None;
    }
  }

  // ----- frames in a byte stream -----

  /** The first message of a byte stream and what follows it; None where the stream ends inside the
      message, its length word is too small, or its body is malformed. */
  function Take(c: Client, bytes: seq<byte>): (r: Option<(Message, seq<byte>)>)
    ensures r.Some? ==> |r.value.1| < |bytes|
  {
    if |bytes| < 5 then None
    else
      var len := GetI32(bytes[1..]);
      if len < 4 || |bytes| < 1 + len then None
      else
        match Decode(c, bytes[0], bytes[5..1 + len])
        case None => None
        case Some(m) => Some((m, bytes[1 + len..]))
  }

  lemma FrameParts(tag: byte, body: seq<byte>, rest: seq<byte>)
    requires 4 + |body| < TWO31
    ensures var bytes := Frame(tag, body) + rest;
      && |bytes| == 5 + |body| + |rest| && bytes[0] == tag && GetI32(bytes[1..]) == 4 + |body|
      && bytes[5..5 + |body|] == body && bytes[5 + |body|..] == rest
  {
    hide PutI32, GetI32;
    var bytes := Frame(tag, body) + rest;
    assert bytes[1..] == PutI32(4 + |body|) + (body + rest);
    I32RoundTrip(4 + |body|, body + rest);
  }

  lemma TakeEncoded(c: Client, m: ServerMessage, rest: seq<byte>)
    requires Sendable(c, m)
    ensures Take(c, Encode(m) + rest) == Some((View(c, m), rest))
  {
    DecodeEncoded(c, m);
    FrameParts(Tag(m), Body(m), rest);
    hide Decode, View, Body, Tag, PutI32, GetI32, Frame, Sendable;
  }

  /** A cell that claims more bytes than the body has takes what is there. */
  lemma ClampedCell(n: nat, l: int, data: seq<byte>, acc: seq<Cell>)
    requires n > 0 && |data| <= l < TWO31
    ensures ReadCells(n, PutI32(l) + data, acc) == ReadCells(n - 1, [], acc + [Some(data)])
  {
    hide PutI32, GetI32;
    I32RoundTrip(l, data);
    var bytes := PutI32(l) + data;
    assert bytes[4..] == data && data[..|data|] == data && data[|data|..] == [];
  }

  /** A length word below four, negative ones included, is refused. */
  lemma BadLengthRefused(c: Client, tag: byte, len: int, rest: seq<byte>)
    requires Int32(len) && len < 4
    ensures Take(c, [tag] + PutI32(len) + rest) == None
  {
    hide PutI32, GetI32, Decode;
    I32RoundTrip(len, rest);
    var bytes := [tag] + PutI32(len) + rest;
    assert bytes[1..] == PutI32(len) + rest;
  }

  /** A message cut short anywhere is not taken. */
  lemma CutMessage(c: Client, m: ServerMessage, k: nat)
    requires Sendable(c, m) && k < |Encode(m)|
    ensures Take(c, Encode(m)[..k]) == None
  {
    hide Decode, GetI32, Body, Tag, PutI32;
    FrameParts(Tag(m), Body(m), []);
    var bytes := Encode(m);
    assert bytes + [] == bytes;
    if k >= 5 {
      assert bytes[..k][1..][..4] == bytes[1..][..4];
      SameLength(bytes[..k][1..], bytes[1..]);
    }
  }

  /** `bytes` holds exactly the messages `ms` and then `rest`. */
  ghost predicate Carries(c: Client, bytes: seq<byte>, ms: seq<Message>, rest: seq<byte>)
    decreases |ms|
  {
    if |ms| == 0 then bytes == rest
    else
      var first := Take(c, bytes);
      first.Some? && first.value.0 == ms[0] && Carries(c, first.value.1, ms[1..], rest)
  }

  function Views(c: Client, ms: seq<ServerMessage>): (r: seq<Message>)
    ensures |r| == |ms|
  {
    seq(|ms|, i requires 0 <= i < |ms| => View(c, ms[i]))
  }

  lemma {:induction false} EncodedCarries(c: Client, ms: seq<ServerMessage>, rest: seq<byte>)
    requires forall m :: m in ms ==> Sendable(c, m)
    ensures Carries(c, EncodeAll(ms) + rest, Views(c, ms), rest)
    decreases |ms|
  {
    hide Sendable, View, Encode, Take;
    if |ms| > 0 {
      assert ms[0] in ms;
      var tail := EncodeAll(ms[1..]) + rest;
      assert EncodeAll(ms) + rest == Encode(ms[0]) + tail;
      TakeEncoded(c, ms[0], tail);
      EncodedCarries(c, ms[1..], rest);
      assert Views(c, ms)[1..] == Views(c, ms[1..]);
    } else {
      assert EncodeAll(ms) + rest == rest;
    }
  }

  // ----- the decoding loops -----

  lemma {:induction false} CStrAt(data: seq<byte>, pos: nat, end: nat)
    requires pos <= end <= |data| && (end < |data| ==> data[end] == 0)
    requires forall k :: pos <= k < end ==> data[k] != 0
    ensures ReadCStr(data[pos..]) == (data[pos..end], if end < |data| then data[end + 1..] else [])
    decreases end - pos
  {
    var rest := data[pos..];
    if pos < end {
      CStrAt(data, pos + 1, end);
      assert rest[1..] == data[pos + 1..];
      assert data[pos..end] == [data[pos]] + data[pos + 1..end];
    } else {
      assert data[pos..end] == [];
      if pos < |data| {
        assert rest[1..] == data[pos + 1..];
      }
    }
  }

  /** wire.go:210-222, pgwire.rs:210-215 */
  method ReadCString(data: seq<byte>, pos: nat) returns (s: Text, next: nat)
    requires pos <= |data|
    ensures next <= |data| && ReadCStr(data[pos..]) == (s, data[next..])
  {
    hide ReadCStr;
    var end := pos;
    while end < |data| && data[end] != 0
      invariant pos <= end <= |data|
      invariant forall k :: pos <= k < end ==> data[k] != 0
    {
      end := end + 1;
    }
    CStrAt(data, pos, end);
    s := data[pos..end];
    next := if end < |data| then end + 1 else end;
    assert end == |data| ==> data[next..] == [];
  }

  /** wire.go:321-341, pgwire.rs:171-185 */
  method DecodeCells(n: nat, data: seq<byte>) returns (r: Option<seq<Cell>>)
    ensures r == ReadCells(n, data, [])
  {
    hide GetI32;
    var pos, cols: seq<Cell> := 0, [];
    assert data[0..] == data;
    for i := 0 to n
      invariant pos <= |data|
      invariant ReadCells(n, data, []) == ReadCells(n - i, data[pos..], cols)
    {
      if pos + 4 > |data| {
        return None;
      }
      var l := GetI32(data[pos..]);
      ghost var here := pos;
      pos := pos + 4;
      assert data[here..][4..] == data[pos..];
      if l < 0 {
        cols := cols + [None];
      } else {
        var take := l;
        if pos + take > |data| {
          take := |data| - pos;
        }
        cols := cols + [Some(data[pos..pos + take])];
        assert data[pos..][..take] == data[pos..pos + take] && data[pos..][take..] == data[pos + take..];
        pos := pos + take;
      }
    }
    r := Some(cols);
  }

  /** wire.go:305-320, pgwire.rs:156-170 */
  method DecodeColumns(n: nat, data: seq<byte>) returns (r: Option<seq<Column>>)
    ensures r == ReadColumns(n, data, [])
  {
    hide GetI32, ReadCStr;
    var pos, columns: seq<Column> := 0, [];
    assert data[0..] == data;
    for i := 0 to n
      invariant pos <= |data|
      invariant ReadColumns(n, data, []) == ReadColumns(n - i, data[pos..], columns)
    {
      var name, next := ReadCString(data, pos);
      if next + 18 > |data| {
        return None;
      }
      assert data[next..][6..] == data[next + 6..] && data[next..][18..] == data[next + 18..];
      columns := columns + [Column(name, GetI32(data[next + 6..]))];
      pos := next + 18;
    }
    r := Some(columns);
  }

  /** wire.go:354-362 */
  method DecodeTypes(n: nat, data: seq<byte>) returns (r: Option<seq<int>>)
    ensures r == ReadTypes(n, data, [])
  {
    hide GetI32;
    var pos, types: seq<int> := 0, [];
    assert data[0..] == data;
    for i := 0 to n
      invariant pos <= |data|
      invariant ReadTypes(n, data, []) == ReadTypes(n - i, data[pos..], types)
    {
      if pos + 4 > |data| {
        return None;
      }
      types := types + [GetI32(data[pos..])];
      assert data[pos..][4..] == data[pos + 4..];
      pos := pos + 4;
    }
    r := Some(types);
  }

  /** wire.go:224-242, pgwire.rs:217-233 */
  method DecodeErrorText(c: Client, data: seq<byte>) returns (text: Text)
    ensures text == ErrorText(c, data)
  {
    hide ReadCStr, UNKNOWN_ERROR;
    var pos, message: Option<Text> := 0, None;
    assert data[0..] == data;
    while pos < |data| && data[pos] != 0
      invariant pos <= |data|
      invariant ReadErrorFields(data, None) == ReadErrorFields(data[pos..], message)
      decreases |data| - pos
    {
      assert data[pos..][1..] == data[pos + 1..];
      var value, next := ReadCString(data, pos + 1);
      assert |data[next..]| <= |data[pos + 1..]|;
      if data[pos] == 0x4D {
        message := Some(value);
      }
      pos := next;
    }
    text := if message.None? then UNKNOWN_ERROR else Shown(c, message.value);
  }

  /** wire.go:286-372, pgwire.rs:129-196 */
  method DecodeBody(c: Client, tag: byte, data: seq<byte>) returns (r: Option<Message>)
    ensures r == Decode(c, tag, data)
  {
    hide ReadCells, ReadColumns, ReadTypes, ErrorText, ReadCStr, GetI32, GetU16;
    if tag == 0x54 || tag == 0x44 || (c.Go? && tag == 0x74) {
      var n := Count(c, data);
      if n.None? {
        return None;
      }
      if tag == 0x54 {
        var columns := DecodeColumns(n.value, data[2..]);
        return if columns.None? then None else Some(Columns(Renamed(c, columns.value)));
      } else if tag == 0x44 {
        var cells := DecodeCells(n.value, data[2..]);
        return if cells.None? then None else Some(Row(cells.value));
      } else {
        var types := DecodeTypes(n.value, data[2..]);
        return if types.None? then None else Some(Parameters(types.value));
      }
    }
    if tag == 0x53 {
      assert data[0..] == data;
      var name, next := ReadCString(data, 0);
      var value, _ := ReadCString(data, next);
      return Some(Parameter(AsText(c, name), AsText(c, value)));
    }
    if tag == 0x43 {
      assert data[0..] == data;
      var text, _ := ReadCString(data, 0);
      return Some(Complete(AsText(c, text)));
    }
    if tag == 0x45 {
      var text := DecodeErrorText(c, data);
      return Some(ServerError(text));
    }
    if tag == 0x4E {
      var text := DecodeErrorText(c, data);
      return Some(Notice(text));
    }
    if tag == 0x4B {
      return if |data| < 8 then None else Some(KeyData(GetI32(data), GetI32(data[4..])));
    }
    if tag == 0x5A {
      var status: byte := 0x49;
      if |data| > 0 {
        status := data[0];
      }
      return Some(Ready(status));
    }
    if c.Go? && tag == 0x6E {
      return Some(NoData);
    }
    if c.Go? && tag == 0x73 {
      return Some(Suspended);
    }
    return Some(Other(tag));
  }

  // ----- reading however the bytes are split -----

  function Concat(chunks: seq<seq<byte>>): seq<byte> {
    if |chunks| == 0 then [] else chunks[0] + Concat(chunks[1..])
  }

  /** The Go client's reader. `chunks` are the byte strings the network still has to deliver, one per
      read; a read that is asked for fewer bytes leaves the remainder for the next one. */
  class GoWire {
    var chunks: seq<seq<byte>>

    ghost function Pending(): seq<byte>
      reads this
    {
      Concat(chunks)
    }

    constructor (network: seq<seq<byte>>)
      ensures chunks == network && Pending() == Concat(network)
    {
      chunks := network;
    }

    method Read(max: nat) returns (bytes: seq<byte>, eof: bool)
      modifies this
      ensures eof <==> old(chunks) == []
      ensures |bytes| <= max && old(Pending()) == bytes + Pending()
      ensures eof ==> Pending() == []
      ensures !eof && max > 0 ==>
        |chunks| < old(|chunks|) || (|chunks| == old(|chunks|) && |Pending()| < old(|Pending()|))
    {
      if chunks == [] {
        return [], true;
      }
      var head := chunks[0];
      eof := false;
      if |head| <= max {
        bytes := head;
        chunks := chunks[1..];
      } else {
        bytes := head[..max];
        assert head == bytes + head[max..];
        chunks := [head[max..]] + chunks[1..];
      }
    }

    /** wire.go:268-284 */
    method ReadFull(buf: array<byte>) returns (ok: bool)
      modifies this, buf
      ensures ok <==> buf.Length <= |old(Pending())|
      ensures ok ==> old(Pending()) == buf[..] + Pending()
    {
      var n := 0;
      while n < buf.Length
        invariant 0 <= n <= buf.Length
        invariant old(Pending()) == buf[..n] + Pending()
        decreases |chunks|, |Pending()|
      {
        var bytes, eof := Read(buf.Length - n);
        if eof {
          return false;
        }
        ghost var before := buf[..n];
        Copy(buf, n, bytes);
        assert buf[..n + |bytes|] == before + bytes;
        n := n + |bytes|;
      }
      assert buf[..n] == buf[..];
      ok := true;
    }

    /** wire.go:246-266 */
    method ReadMessage() returns (r: Option<Message>)
      modifies this
      ensures match Take(Go, old(Pending()))
              case None => r.None?
              case Some((m, rest)) => r == Some(m) && Pending() == rest
    {
      hide Decode, GetI32, Concat;
      var header := new byte[5];
      ghost var all := Pending();
      var ok := ReadFull(header);
      if !ok {
        return None;
      }
      assert all[..5] == header[..];
      assert all[1..][..4] == header[1..5];
      SameLength(all[1..], header[1..5]);
      var len := GetI32(header[1..5]);
      if len < 4 {
        return None;
      }
      var body := new byte[len - 4];
      ok := ReadFull(body);
      if !ok {
        return None;
      }
      assert all == header[..] + (body[..] + Pending());
      assert all[5..1 + len] == body[..] && all[1 + len..] == Pending();
      r := DecodeBody(Go, header[0], body[..]);
    }
  }

  lemma SameLength(x: seq<byte>, y: seq<byte>)
    requires |x| >= 4 && |y| >= 4 && x[..4] == y[..4]
    ensures GetI32(x) == GetI32(y)
  {
  }

  /** The Rust client's reader: what has been read and not yet used is kept in `buffer`. */
  class RustWire {
    const client: Client
    var chunks: seq<seq<byte>>
    var buffer: seq<byte>

    ghost predicate Valid()
      reads this
    {
      forall i :: 0 <= i < |chunks| ==> chunks[i] != []
    }

    ghost function Pending(): seq<byte>
      reads this
    {
      buffer + Concat(chunks)
    }

    constructor (lossy: Text -> Text, network: seq<seq<byte>>)
      requires forall i :: 0 <= i < |network| ==> network[i] != []
      ensures Valid() && Pending() == Concat(network) && client == Rust(lossy)
    {
      client := Rust(lossy);
      chunks := network;
      buffer := [];
      new;
      assert [] + Concat(chunks) == Concat(chunks);
    }

    /** pgwire.rs:199-207 */
    method Fill(n: nat) returns (ok: bool)
      requires Valid()
      modifies this
      ensures Valid() && Pending() == old(Pending())
      ensures ok <==> n <= |Pending()|
      ensures ok ==> n <= |buffer|
    {
      while |buffer| < n
        invariant Valid() && Pending() == old(Pending())
        decreases |chunks|
      {
        if chunks == [] {
          return false;
        }
        assert buffer + Concat(chunks) == (buffer + chunks[0]) + Concat(chunks[1..]);
        buffer := buffer + chunks[0];
        chunks := chunks[1..];
      }
      ok := true;
    }

    /** pgwire.rs:117-197 */
    method ReadMessage() returns (r: Option<Message>)
      requires Valid()
      modifies this
      ensures Valid()
      ensures match Take(client, old(Pending()))
              case None => r.None?
              case Some((m, rest)) => r == Some(m) && Pending() == rest
    {
      hide Decode, GetI32, Concat;
      var ok := Fill(5);
      if !ok {
        return None;
      }
      var tag := buffer[0];
      SameLength(Pending()[1..], buffer[1..5]);
      var len := GetI32(buffer[1..5]);
      if len < 4 {
        return None;
      }
      ok := Fill(1 + len);
      if !ok {
        return None;
      }
      ghost var all := Pending();
      var data := buffer[5..1 + len];
      assert all[5..1 + len] == data;
      assert all[1 + len..] == buffer[1 + len..] + Concat(chunks);
      buffer := buffer[1 + len..];
      r := DecodeBody(client, tag, data);
    }
  }
}
