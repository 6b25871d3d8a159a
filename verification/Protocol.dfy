/** Engine.IO and Socket.IO packets as the gateway reads them. */
module Protocol {
  import opened Wrappers
  import opened Json

  /** JSON text is read by library code. */
  type JsonReader = string -> Option<Json>

  /** In nanoseconds. */
  datatype Heartbeat = Heartbeat(pingInterval: nat, pingTimeout: nat)

  datatype Packet =
    | EngineOpen(heartbeat: Heartbeat)
    | EnginePing
    | EngineClose
    | SocketConnected
    | SocketDisconnected
    | SocketEvent(name: string, payload: seq<Json>)
    | SocketError
    | Ignored

  const MILLISECOND := 1_000_000

  /** The first character, if it takes one byte, and the rest. */
  function SplitCode(text: string): Option<(char, string)> {
    if text == "" || text[0] as int >= 0x80 then None else Some((text[0], text[1..]))
  }

  /** A positive number of milliseconds that fits a u64. */
  function DurationMillis(m: map<string, Json>, name: string): (r: Option<nat>)
    ensures r.Some? ==> MILLISECOND <= r.value < 0x1_0000_0000_0000_0000 * MILLISECOND
  {
    match Get(m, name)
    case Some(Num(Integer(n))) => if 0 < n < 0x1_0000_0000_0000_0000 then Some(n * MILLISECOND) else None
    case _ => None
  }

  function DecodeEngineOpen(payload: string, read: JsonReader): Option<Packet> {
    var v :- read(payload);
    if !v.Obj? then None
    else
      var interval :- DurationMillis(v.fields, "pingInterval");
      var timeout :- DurationMillis(v.fields, "pingTimeout");
      Some(EngineOpen(Heartbeat(interval, timeout)))
  }

  function DecodeEvent(payload: string, read: JsonReader): Option<Packet> {
    var v :- read(payload);
    if !v.Arr? || v.items == [] then None
    else
      var name :- AsString(v.items[0]);
      Some(SocketEvent(name, v.items[1..]))
  }

  function DecodeSocketIo(text: string, read: JsonReader): Option<Packet> {
    var (code, payload) :- SplitCode(text);
    match code
    case '0' => Some(SocketConnected)
    case '1' => Some(SocketDisconnected)
    case '2' => DecodeEvent(payload, read)
    case '4' => Some(SocketError)
    case _ => Some(Ignored)
  }

  function Decode(text: string, read: JsonReader): Option<Packet> {
    var (code, payload) :- SplitCode(text);
    match code
    case '0' => DecodeEngineOpen(payload, read)
    case '1' => Some(EngineClose)
    case '2' => Some(EnginePing)
    case '4' => DecodeSocketIo(payload, read)
    case _ => Some(Ignored)
  }

  /** Which texts decode to an event, and to which. */
  lemma EventsDecode(text: string, read: JsonReader, name: string, payload: seq<Json>)
    ensures Decode(text, read) == Some(SocketEvent(name, payload)) <==>
            Starts(text, "42") && read(text[2..]) == Some(Arr([Str(name)] + payload))
  {
    if |text| >= 2 {
      assert text[..2] == "42" <==> text[0] == '4' && text[1] == '2';
      assert text[1..][1..] == text[2..];
      match read(text[2..])
      case Some(Arr(items)) =>
        assert items == [Str(name)] + payload <==> items != [] && items[0] == Str(name) && items[1..] == payload;
      case _ =>
    }
  }

  /** Which texts open the transport, and with which heartbeat: both durations present, positive and below 2^64 ms. */
  lemma OpensDecode(text: string, read: JsonReader, h: Heartbeat)
    ensures Decode(text, read) == Some(EngineOpen(h)) <==>
            && text != "" && text[0] == '0' && read(text[1..]).Some? && read(text[1..]).value.Obj?
            && var m := read(text[1..]).value.fields;
               HasMillis(m, "pingInterval", h.pingInterval) && HasMillis(m, "pingTimeout", h.pingTimeout)
  {
  }

  /** The field holds a whole number of milliseconds that makes `d`. */
  predicate HasMillis(m: map<string, Json>, name: string, d: nat) {
    name in m && exists n :: m[name] == Num(Integer(n)) && 0 < n < 0x1_0000_0000_0000_0000 && d == n * 1_000_000
  }

  predicate Starts(text: string, head: string) { |head| <= |text| && text[..|head|] == head }

  /** A packet code takes one byte. */
  predicate HasCode(text: string) { text != "" && text[0] as int < 0x80 }

  /** Codes of no packet, and texts without a code that decode to nothing. */
  predicate Unknown(text: string) {
    if Starts(text, "4") then HasCode(text[1..]) && text[1] !in {'0', '1', '2', '4'}
    else HasCode(text) && text[0] !in {'0', '1', '2'}
  }

  /** The packets without content, by their texts; all other texts are openings, events or no packets. */
  lemma CodesDecode(text: string, read: JsonReader)
    ensures Decode(text, read) == Some(EngineClose) <==> Starts(text, "1")
    ensures Decode(text, read) == Some(EnginePing) <==> Starts(text, "2")
    ensures Decode(text, read) == Some(SocketConnected) <==> Starts(text, "40")
    ensures Decode(text, read) == Some(SocketDisconnected) <==> Starts(text, "41")
    ensures Decode(text, read) == Some(SocketError) <==> Starts(text, "44")
    ensures Decode(text, read) == Some(Ignored) <==> Unknown(text)
    ensures Decode(text, read).Some? ==> HasCode(text) && (Starts(text, "4") ==> HasCode(text[1..]))
  {
    if text != "" {
      assert text[..1] == [text[0]];
      if |text| >= 2 { assert text[..2] == [text[0], text[1]]; }
      hide DecodeEngineOpen, DecodeEvent;
      OnlyOpens(text[1..], read);
      if |text| >= 2 { OnlyEvents(text[1..][1..], read); }
    }
  }

  lemma OnlyOpens(payload: string, read: JsonReader)
    ensures DecodeEngineOpen(payload, read).Some? ==> DecodeEngineOpen(payload, read).value.EngineOpen?
  {
  }

  lemma OnlyEvents(payload: string, read: JsonReader)
    ensures DecodeEvent(payload, read).Some? ==> DecodeEvent(payload, read).value.SocketEvent?
  {
  }
}
