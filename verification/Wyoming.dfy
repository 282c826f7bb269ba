/**
 Wyoming event framing (src/wyoming/protocol.rs): a JSON header line, then JSON data, then a
 binary payload. A stream is its bytes and a cursor.
 */
module Wyoming {
  import opened Common
  import J = Json

  const MAX_HEADER := 64 * 1024
  const MAX_DATA := 1024 * 1024
  const MAX_PAYLOAD := 16 * 1024 * 1024

  // "1.10.2"
  const VERSION: Bytes := [49, 46, 49, 48, 46, 50]
  // "type", "version", "data", "data_length", "payload_length"
  const TYPE_KEY: Bytes := [116, 121, 112, 101]
  const VERSION_KEY: Bytes := [118, 101, 114, 115, 105, 111, 110]
  const DATA_KEY: Bytes := [100, 97, 116, 97]
  const DATA_LENGTH: Bytes := [100, 97, 116, 97, 95, 108, 101, 110, 103, 116, 104]
  const PAYLOAD_LENGTH: Bytes := [112, 97, 121, 108, 111, 97, 100, 95, 108, 101, 110, 103, 116, 104]

  datatype Event = Event(kind: Bytes, data: seq<J.Field>, payload: Option<Bytes>)

  datatype Error = HeaderTooLong | BadHeader | NoType | BadLength | TooLarge | UnexpectedEnd | BadData

  function Fields(header: J.Json): seq<J.Field> {
    if header.Obj? then header.fields else []
  }

  function Length(header: J.Json, key: Bytes, max: nat): (r: Result<nat, Error>)
    ensures r.Ok? ==> r.value <= max
  {
    match J.Get(Fields(header), key)
    case None => Ok(0)
    case Some(v) =>
      if v.Null? then Ok(0)
      else if !v.Num? || v.n < 0 then Err(BadLength)
      else if v.n > max then Err(TooLarge)
      else Ok(v.n)
  }

  /** The end of the header line: behind its newline, at the end of the stream, or behind the
      longest prefix that the reader takes. */
  function LineEnd(f: Bytes, pos: nat, limit: nat): (end: nat)
    requires pos <= |f|
    ensures pos <= end <= |f| && end <= pos + limit
    ensures pos < |f| && limit > 0 ==> pos < end
    decreases limit
  {
    if pos == |f| || limit == 0 then pos
    else if f[pos] == J.NEWLINE then pos + 1
    else LineEnd(f, pos + 1, limit - 1)
  }

  /** An event and the position behind it; None at the end of the stream. */
  datatype At = At(event: Event, pos: nat)

  function HeaderData(header: J.Json): seq<J.Field> {
    match J.Get(Fields(header), DATA_KEY)
    case Some(v) => Fields(v)
    case None => []
  }

  function ExactAt(f: Bytes, pos: nat, n: nat): (r: Result<Bytes, Error>)
    requires pos <= |f|
    ensures r.Ok? ==> |r.value| == n && pos + n <= |f|
  {
    if pos + n <= |f| then Ok(f[pos..pos + n]) else Err(UnexpectedEnd)
  }

  function BodyAt(f: Bytes, pos: nat, header: J.Json, kind: Bytes): (r: Result<At, Error>)
    requires pos <= |f|
    ensures r.Ok? ==> pos <= r.value.pos <= |f|
  {
    var dataLength :- Length(header, DATA_LENGTH, MAX_DATA);
    var raw :- ExactAt(f, pos, dataLength);
    var data :- MergedData(HeaderData(header), raw);
    var payloadLength :- Length(header, PAYLOAD_LENGTH, MAX_PAYLOAD);
    var payload :- ExactAt(f, pos + dataLength, payloadLength);
    Ok(At(Event(kind, data, if payloadLength > 0 then Some(payload) else None),
          pos + dataLength + payloadLength))
  }

  /** The data of the header, extended by the data block if there is one. */
  function MergedData(inline: seq<J.Field>, raw: Bytes): Result<seq<J.Field>, Error> {
    if raw == [] then Ok(inline)
    else
      match J.Decode(raw)
      case Ok(v) => Ok(J.InsertAll(inline, Fields(v)))
      case Err(_) => Err(BadData)
  }

  function ReadAt(f: Bytes, pos: nat): (r: Result<Option<At>, Error>)
    requires pos <= |f|
    ensures r.Ok? && r.value.Some? ==> pos < r.value.value.pos <= |f|
    ensures r == Ok(None) <==> pos == |f|
  {
    var end := LineEnd(f, pos, MAX_HEADER + 1);
    if end == pos then Ok(None)
    else if end - pos > MAX_HEADER then Err(HeaderTooLong)
    else
      match J.Decode(f[pos..end])
      case Err(_) => Err(BadHeader)
      case Ok(header) =>
        match J.Get(Fields(header), TYPE_KEY)
        case Some(Str(kind)) =>
          var e :- BodyAt(f, end, header, kind);
          Ok(Some(e))
        case _ => Err(NoType)
  }

  /** The header of an event: the keys are sorted. */
  function HeaderOf(e: Event): J.Json {
    var data := if e.data == [] then [] else [J.Field(DATA_LENGTH, J.Num(|DataBytes(e)|))];
    var payload := match e.payload
      case None => []
      case Some(p) => [J.Field(PAYLOAD_LENGTH, J.Num(|p|))];
    J.Obj(data + payload + [J.Field(TYPE_KEY, J.Str(e.kind)), J.Field(VERSION_KEY, J.Str(VERSION))])
  }

  function DataBytes(e: Event): Bytes {
    if e.data == [] then [] else J.Encode(J.Obj(e.data))
  }

  function PayloadBytes(e: Event): Bytes {
    match e.payload
    case None => []
    case Some(p) => p
  }

  function HeaderLine(e: Event): Bytes {
    J.Encode(HeaderOf(e)) + [J.NEWLINE]
  }

  function Encode(e: Event): Bytes {
    HeaderLine(e) + (DataBytes(e) + PayloadBytes(e))
  }

  function EncodeAll(es: seq<Event>): Bytes {
    if es == [] then [] else Encode(es[0]) + EncodeAll(es[1..])
  }

  /** The receiving side of a connection. */
  class EventReader {
    const data: Bytes
    var pos: nat

    constructor (data: Bytes)
      ensures this.data == data && pos == 0
    {
      this.data := data;
      pos := 0;
    }

    /** `read_until` a newline, at most `limit` bytes. */
    method ReadLine(limit: nat) returns (line: Bytes)
      requires pos <= |data|
      modifies this
      ensures pos == LineEnd(data, old(pos), limit) && line == data[old(pos)..pos]
    {
      ghost var first := pos;
      line := [];
      while pos < |data| && |line| < limit
        invariant first <= pos <= |data| && |line| == pos - first <= limit
        invariant line == data[first..pos]
        invariant LineEnd(data, first, limit) == LineEnd(data, pos, limit - |line|)
        decreases |data| - pos
      {
        var c := data[pos];
        line := line + [c];
        pos := pos + 1;
        if c == J.NEWLINE {
          return;
        }
      }
    }

    method ReadExact(n: nat) returns (r: Result<Bytes, Error>)
      requires pos <= |data|
      modifies this
      ensures r == ExactAt(data, old(pos), n)
      ensures pos == if r.Ok? then old(pos) + n else |data|
    {
      if pos + n > |data| {
        pos := |data|;
        return Err(UnexpectedEnd);
      }
      r := Ok(data[pos..pos + n]);
      pos := pos + n;
    }

    method ReadEvent() returns (r: Result<Option<Event>, Error>)
      requires pos <= |data|
      modifies this
      ensures pos <= |data|
      ensures match ReadAt(data, old(pos))
              case Ok(Some(a)) => r == Ok(Some(a.event)) && pos == a.pos
              case Ok(None) => r == Ok(None) && pos == old(pos)
              case Err(e) => r == Err(e)
    {
      var line := ReadLine(MAX_HEADER + 1);
      if line == [] {
        return Ok(None);
      }
      if |line| > MAX_HEADER {
        return Err(HeaderTooLong);
      }
      var decoded := J.Decode(line);
      if decoded.Err? {
        return Err(BadHeader);
      }
      var header := decoded.value;
      var kind := J.Get(Fields(header), TYPE_KEY);
      if kind.None? || !kind.value.Str? {
        return Err(NoType);
      }
      var event :- ReadBody(header, kind.value.s);
      return Ok(Some(event));
    }

    method ReadBody(header: J.Json, kind: Bytes) returns (r: Result<Event, Error>)
      requires pos <= |data|
      modifies this
      ensures pos <= |data|
      ensures match BodyAt(data, old(pos), header, kind)
              case Ok(a) => r == Ok(a.event) && pos == a.pos
              case Err(e) => r == Err(e)
    {
      var fields := HeaderData(header);
      var dataLength :- Length(header, DATA_LENGTH, MAX_DATA);
      if dataLength > 0 {
        var raw :- ReadExact(dataLength);
        fields :- MergedData(fields, raw);
      }
      var payloadLength :- Length(header, PAYLOAD_LENGTH, MAX_PAYLOAD);
      var payload: Option<Bytes> := None;
      if payloadLength > 0 {
        var bytes :- ReadExact(payloadLength);
        payload := Some(bytes);
      }
      return Ok(Event(kind, fields, payload));
    }
  }

  /** The sending side of a connection. */
  class EventWriter {
    var out: Bytes

    constructor ()
      ensures out == []
    {
      out := [];
    }

    method WriteEvent(e: Event)
      modifies this
      ensures out == old(out) + Encode(e)
    {
      hide J.Encode;
      var header := [J.Field(TYPE_KEY, J.Str(e.kind)), J.Field(VERSION_KEY, J.Str(VERSION))];
      if e.payload.Some? {
        header := [J.Field(PAYLOAD_LENGTH, J.Num(|e.payload.value|))] + header;
      }
      var data := DataBytes(e);
      if e.data != [] {
        header := [J.Field(DATA_LENGTH, J.Num(|data|))] + header;
      }
      assert J.Obj(header) == HeaderOf(e);
      var buffer := J.Encode(J.Obj(header));
      buffer := buffer + [J.NEWLINE];
      if e.data != [] {
        buffer := buffer + data;
      }
      out := out + buffer;
      if e.payload.Some? {
        out := out + e.payload.value;
      }
    }
  }
}
