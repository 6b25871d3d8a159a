/** One websocket connection: its frames, the joined flag and the deadline that ends a silent connection. */
module Liveness {
  import opened Wrappers
  import opened Json
  import opened Protocol

  const SECOND := 1_000_000_000
  const ENGINE_OPEN_TIMEOUT := 30 * SECOND
  const LIVENESS_GRACE := 5 * SECOND

  datatype Kind = Text(text: string) | Binary | Ping | Pong | Close | Eof | ReadError

  /** What reaches the loop, and how: when it arrives, how long handling it takes, whether the answer to it cannot be
      sent, who wins when the deadline falls on the same instant, and whether the session was healthy before the
      wait. */
  datatype Frame = Frame(at: nat, kind: Kind, handling: nat, sendFails: bool, timerWins: bool, authHealthy: bool)

  function Max(a: nat, b: nat): nat { if a < b then b else a }

  function AllowedSilence(h: Option<Heartbeat>): nat {
    match h
    case None => ENGINE_OPEN_TIMEOUT
    case Some(hb) => 2 * hb.pingInterval + hb.pingTimeout + LIVENESS_GRACE
  }

  /** What the gateway can say about its own receiving. Durations of this size never saturate. */
  class ReceiveLiveness {
    var lastInbound: nat
    var heartbeat: Option<Heartbeat>

    constructor (now: nat)
      ensures lastInbound == now && heartbeat == None
    {
      lastInbound, heartbeat := now, None;
    }

    method ObservePacket(now: nat)
      modifies this
      ensures lastInbound == now && heartbeat == old(heartbeat)
    {
      lastInbound := now;
    }

    method SetHeartbeat(h: Heartbeat)
      modifies this
      ensures heartbeat == Some(h) && lastInbound == old(lastInbound)
    {
      heartbeat := Some(h);
    }

    /** The wait until the deadline, none once it has passed. */
    function Remaining(now: nat): (r: nat)
      requires lastInbound <= now
      reads this
      ensures now + r == Max(now, lastInbound + AllowedSilence(heartbeat))
    {
      var silence := now - lastInbound;
      if AllowedSilence(heartbeat) < silence then 0 else AllowedSilence(heartbeat) - silence
    }
  }

  // ---------------------------------------------------------------- one frame

  predicate IsJoined(payload: seq<Json>) { Str("joined") in payload }

  predicate JoinsBy(k: Kind, read: JsonReader) {
    k.Text? && match Decode(k.text, read) case Some(SocketEvent(name, payload)) => name == "message" &&
      IsJoined(payload) case _ => false
  }

  /** Only a text that decodes and a websocket ping count as a sign of life. */
  predicate Observed(k: Kind, read: JsonReader) {
    k.Ping? || (k.Text? && Decode(k.text, read).Some?)
  }

  /** The heartbeat a frame announces. */
  function Announced(k: Kind, read: JsonReader): Option<Heartbeat> {
    if !k.Text? then None else match Decode(k.text, read) case Some(EngineOpen(h)) => Some(h) case _ => None
  }

  datatype Connection = Connection(now: nat, lastInbound: nat, heartbeat: Option<Heartbeat>, joined: bool)

  /** How a connection ended: in order, by the deadline, with an error, or not yet. */
  datatype Outcome =
    | Ended(joined: bool)
    | TimedOut(joined: bool, at: nat)
    | Failed(joined: bool)
    | Open(connection: Connection)

  datatype Step = Continue(connection: Connection) | Stop(outcome: Outcome)

  function Deadline(c: Connection): nat { c.lastInbound + AllowedSilence(c.heartbeat) }

  function TimerAt(c: Connection): nat { Max(c.now, Deadline(c)) }

  predicate TimerFires(c: Connection, f: Frame) {
    TimerAt(c) < Max(c.now, f.at) || (TimerAt(c) == Max(c.now, f.at) && f.timerWins)
  }

  predicate SendsAnswer(k: Kind, read: JsonReader) {
    k.Ping? || (k.Text? && match Decode(k.text, read)
                           case Some(EngineOpen(_)) | Some(EnginePing) | Some(SocketConnected) => true
                           case _ => false)
  }

  predicate Closes(k: Kind, read: JsonReader) {
    k.Close? || k.Eof? || (k.Text? &&
      match Decode(k.text, read) case Some(EngineClose) | Some(SocketDisconnected) => true case _ => false)
  }

  function After(c: Connection, f: Frame, read: JsonReader): Connection {
    var received := Max(c.now, f.at);
    Connection(received + f.handling,
               if Observed(f.kind, read) then received else c.lastInbound,
               if Announced(f.kind, read).Some? then Announced(f.kind, read) else c.heartbeat,
               c.joined || JoinsBy(f.kind, read))
  }

  function Handle(c: Connection, f: Frame, read: JsonReader): Step {
    if !f.authHealthy then Stop(Ended(c.joined))
    else if TimerFires(c, f) then Stop(TimedOut(c.joined, TimerAt(c)))
    else if f.kind.ReadError? || (f.sendFails && SendsAnswer(f.kind, read)) then Stop(Failed(c.joined))
    else if Closes(f.kind, read) then Stop(Ended(c.joined))
    else Continue(After(c, f, read))
  }

  function Run(c: Connection, fs: seq<Frame>, read: JsonReader): Outcome
    decreases |fs|
  {
    if fs == [] then Open(c) else
    match Handle(c, fs[0], read)
    case Stop(o) => o
    case Continue(c') => Run(c', fs[1..], read)
  }

  function Start(now: nat): Connection { Connection(now, now, None, false) }

  /** What a connection that still waits has come to by `horizon`: if its deadline is past, it has been timed out. */
  function Until(o: Outcome, horizon: nat): Outcome {
    if o.Open? && TimerAt(o.connection) < horizon then TimedOut(o.connection.joined, TimerAt(o.connection)) else o
  }

  /** The frames that arrive, and nothing more up to `horizon`. */
  function RunUntil(start: nat, fs: seq<Frame>, horizon: nat, read: JsonReader): Outcome {
    Until(Run(Start(start), fs, read), horizon)
  }

  // ---------------------------------------------------------------- the loop

  /** The status shared with the rest of the gateway. */
  class Status {
    var upstreamJoined: bool

    constructor ()
      ensures !upstreamJoined
    {
      upstreamJoined := false;
    }
  }

  /** Which packet a text frame's handling stops at, and what it does to the joined flags. */
  method HandlePacket(p: Packet, sendFails: bool, status: Status, wasJoined: bool) returns (joined: bool, failed: bool,
      closed: bool)
    modifies status
    ensures joined == (wasJoined || (p.SocketEvent? && p.name == "message" && IsJoined(p.payload)))
    ensures failed <==> sendFails && (p.EngineOpen? || p.EnginePing? || p.SocketConnected?)
    ensures closed <==> p.EngineClose? || p.SocketDisconnected?
    ensures status.upstreamJoined ==
            (old(status.upstreamJoined) || (p.SocketEvent? && p.name == "message" && IsJoined(p.payload)))
  {
    joined, failed, closed := wasJoined, false, false;
    match p
    case EngineOpen(_) => failed := sendFails;
    case EnginePing => failed := sendFails;
    case SocketConnected => failed := sendFails;
    case EngineClose => closed := true;
    case SocketDisconnected => closed := true;
    case SocketEvent(name, payload) =>
      if name == "message" && IsJoined(payload) {
        joined := true;
        status.upstreamJoined := true;
      }
    case _ =>
  }

  /** `run_socket_once` once connected, over the frames that arrive. `flags` is the flag other tasks see, before each
      frame and while it waits for more: up only when a joined message has been received on this very connection. A
      timed-out connection has taken it down. */
  method RunSocketOnce(status: Status, start: nat, fs: seq<Frame>, horizon: nat, read: JsonReader)
    returns (o: Outcome, flags: seq<bool>)
    requires !status.upstreamJoined
    modifies status
    ensures o == RunUntil(start, fs, horizon, read)
    ensures o.Ended? || o.Failed? ==> exists i :: 0 <= i < |fs| && CanEnd(fs[i], read)
    ensures status.upstreamJoined ==> exists i :: 0 <= i < |fs| && JoinsBy(fs[i].kind, read)
    ensures o.TimedOut? ==> !status.upstreamJoined
    ensures |flags| <= |fs| + 1
    ensures forall n | 0 <= n < |flags| && flags[n] :: exists i :: 0 <= i < n <= |fs| && JoinsBy(fs[i].kind, read)
  {
    OnlyTheseEnd(start, fs, horizon, read);
    hide Decode, CanEnd;
    var liveness := new ReceiveLiveness(start);
    var now, joined := start, false;
    flags := [];
    var i := 0;
    while i < |fs|
      invariant i <= |fs| && liveness.lastInbound <= now && |flags| == i
      invariant status.upstreamJoined == joined
      invariant joined ==> exists j :: 0 <= j < i && JoinsBy(fs[j].kind, read)
      invariant forall n | 0 <= n < i && flags[n] :: exists j :: 0 <= j < n && JoinsBy(fs[j].kind, read)
      invariant Run(Start(start), fs, read) ==
              Run(Connection(now, liveness.lastInbound, liveness.heartbeat, joined), fs[i..], read)
    {
      var f := fs[i];
      ghost var c := Connection(now, liveness.lastInbound, liveness.heartbeat, joined);
      assert fs[i..][0] == f && fs[i..][1..] == fs[i + 1..];
      if !f.authHealthy { return Ended(joined), flags; }
      var timerAt := now + liveness.Remaining(now);
      var received := Max(now, f.at);
      if timerAt < received || (timerAt == received && f.timerWins) {
        status.upstreamJoined := false;
        return TimedOut(joined, timerAt), flags;
      }
      flags := flags + [status.upstreamJoined];
      now := received;
      match f.kind {
        case ReadError => return Failed(joined), flags;
        case Eof => return Ended(joined), flags;
        case Close => return Ended(joined), flags;
        case Ping =>
          liveness.ObservePacket(now);
          if f.sendFails { return Failed(joined), flags; }
        case Text(text) =>
          var packet := Decode(text, read);
          if packet.Some? {
            liveness.ObservePacket(now);
            var j, failed, closed := HandlePacket(packet.value, f.sendFails, status, joined);
            if failed { return Failed(joined), flags; }
            if closed { return Ended(joined), flags; }
            joined := j;
            if packet.value.EngineOpen? { liveness.SetHeartbeat(packet.value.heartbeat); }
          }
        case Binary =>
        case Pong =>
      }
      now := now + f.handling;
      assert Handle(c, f, read) == Continue(Connection(now, liveness.lastInbound, liveness.heartbeat, joined));
      i := i + 1;
    }
    flags := flags + [status.upstreamJoined];
    var timerAt := now + liveness.Remaining(now);
    if timerAt < horizon {
      status.upstreamJoined := false;
      return TimedOut(joined, timerAt), flags;
    }
    return Open(Connection(now, liveness.lastInbound, liveness.heartbeat, joined)), flags;
  }

  // ---------------------------------------------------------------- what each frame does

  /** A text that opens the transport with this heartbeat. */
  ghost predicate Opens(text: string, read: JsonReader, h: Heartbeat) {
    && Starts(text, "0") && read(text[1..]).Some? && read(text[1..]).value.Obj?
    && var m := read(text[1..]).value.fields;
       HasMillis(m, "pingInterval", h.pingInterval) && HasMillis(m, "pingTimeout", h.pingTimeout)
  }

  /** A message event one of whose values is "joined". */
  ghost predicate TellsJoined(text: string, read: JsonReader) {
    && Starts(text, "42")
    && exists payload :: Str("joined") in payload && read(text[2..]) == Some(Arr([Str("message")] + payload))
  }

  lemma JoinsExactly(k: Kind, read: JsonReader)
    ensures JoinsBy(k, read) <==> k.Text? && TellsJoined(k.text, read)
  {
    if k.Text? {
      var packet := Decode(k.text, read);
      forall payload
        ensures packet == Some(SocketEvent("message", payload)) <==>
                Starts(k.text, "42") && read(k.text[2..]) == Some(Arr([Str("message")] + payload))
      {
        EventsDecode(k.text, read, "message", payload);
      }
      hide Decode, Starts;
      if JoinsBy(k, read) {
        var payload := packet.value.payload;
        assert packet == Some(SocketEvent("message", payload)) && Str("joined") in payload;
      }
    }
  }

  lemma AnnouncesExactly(k: Kind, read: JsonReader)
    ensures forall h :: Announced(k, read) == Some(h) <==> k.Text? && Opens(k.text, read, h)
  {
    if k.Text? {
      forall h ensures Decode(k.text, read) == Some(EngineOpen(h)) <==> Opens(k.text, read, h) {
        OpensDecode(k.text, read, h);
      }
      hide Decode, Opens;
    }
  }

  /** What is answered, and what closes, by the texts. */
  lemma AnswersAndCloses(k: Kind, read: JsonReader)
    ensures SendsAnswer(k, read) <==>
            k.Ping? || (k.Text? && (Starts(k.text, "2") || Starts(k.text, "40") || exists h :: Opens(k.text, read, h)))
    ensures Closes(k, read) <==> k.Close? || k.Eof? || (k.Text? && (Starts(k.text, "1") || Starts(k.text, "41")))
  {
    if k.Text? {
      CodesDecode(k.text, read);
      AnnouncesExactly(k, read);
      hide Decode, Opens, Starts;
      assert Announced(k, read).Some? ==> Opens(k.text, read, Announced(k, read).value);
    }
  }

  /** How long a connection may be silent: half a minute before the transport opens, and then twice the ping interval
      plus the ping timeout plus five seconds, in nanoseconds. */
  lemma AllowedSilenceIs(h: Option<Heartbeat>)
    ensures h.None? ==> AllowedSilence(h) == 30_000_000_000
    ensures h.Some? ==> AllowedSilence(h) == 2 * h.value.pingInterval + h.value.pingTimeout + 5_000_000_000
  {
  }

  lemma {:induction false} RunOneMore(c: Connection, fs: seq<Frame>, f: Frame, read: JsonReader)
    ensures Run(c, fs + [f], read) ==
            match Run(c, fs, read)
            case Open(c') => (match Handle(c', f, read) case Stop(o) => o case Continue(c'') => Open(c''))
            case o => o
    decreases |fs|
  {
    hide Handle;
    if fs == [] {
      assert (fs + [f])[1..] == [];
    } else {
      assert (fs + [f])[0] == fs[0] && (fs + [f])[1..] == fs[1..] + [f];
      NeverStopsOpen(c, fs, 0, read);
      if Handle(c, fs[0], read).Continue? { RunOneMore(Handle(c, fs[0], read).connection, fs[1..], f, read); }
    }
  }

  /** When the deadline of a connection falls, once nothing is in hand. */
  function SilentUntil(c: Connection): nat {
    Max(c.now, c.lastInbound + match c.heartbeat
                               case None => 30_000_000_000
                               case Some(h) => 2 * h.pingInterval + h.pingTimeout + 5_000_000_000)
  }

  /** What the next frame does to a connection that is still open, told by the texts of the frames. A ping whose answer
      goes out ends no connection that its deadline or its session does not end. */
  lemma FrameDecides(start: nat, fs: seq<Frame>, f: Frame, read: JsonReader)
    requires Run(Start(start), fs, read).Open?
    ensures var c, o, k := Run(Start(start), fs, read).connection, Run(Start(start), fs + [f], read), f.kind;
            var received, due := Max(c.now, f.at), SilentUntil(c);
            var answered := k.Ping? || (k.Text? && (Starts(k.text, "2") || Starts(k.text, "40")
                                                    || exists h :: Opens(k.text, read, h)));
            if !f.authHealthy then o == Ended(c.joined)
            else if due < received || (due == received && f.timerWins) then o == TimedOut(c.joined, due)
            else if k.ReadError? || (answered && f.sendFails) then o == Failed(c.joined)
            else if k.Close? || k.Eof? || (k.Text? && (Starts(k.text, "1") || Starts(k.text, "41"))) then
              o == Ended(c.joined)
            else
              && o.Open? && o.connection.now == received + f.handling
              && o.connection.joined == (c.joined || (k.Text? && TellsJoined(k.text, read)))
              && o.connection.lastInbound ==
                 (if k.Ping? || (k.Text? && Decode(k.text, read).Some?) then received else c.lastInbound)
              && (forall h | k.Text? && Opens(k.text, read, h) :: o.connection.heartbeat == Some(h))
              && ((!k.Text? || forall h :: !Opens(k.text, read, h)) ==> o.connection.heartbeat == c.heartbeat)
              && (k.Text? && Starts(k.text, "2") ==> o.connection.lastInbound == received)
  {
    RunOneMore(Start(start), fs, f, read);
    var c := Run(Start(start), fs, read).connection;
    AllowedSilenceIs(c.heartbeat);
    JoinsExactly(f.kind, read);
    AnnouncesExactly(f.kind, read);
    AnswersAndCloses(f.kind, read);
    PingsAreSigns(f.kind, read);
    hide Run, JoinsBy, Announced, SendsAnswer, Closes, Opens, TellsJoined, Starts, AllowedSilence, Decode;
    assert Announced(f.kind, read).Some? ==> Opens(f.kind.text, read, Announced(f.kind, read).value);
  }

  lemma PingsAreSigns(k: Kind, read: JsonReader)
    ensures k.Text? && Starts(k.text, "2") ==> Decode(k.text, read).Some?
  {
    if k.Text? { CodesDecode(k.text, read); }
    hide Decode, Starts;
  }

  // ---------------------------------------------------------------- receipts, apart from the deadline

  /** When the loop gets to the `i`th frame, and when it then has it in hand. */
  function Ready(start: nat, fs: seq<Frame>, i: nat): nat
    requires i <= |fs|
  {
    if i == 0 then start else Max(Ready(start, fs, i - 1), fs[i - 1].at) + fs[i - 1].handling
  }

  function Received(start: nat, fs: seq<Frame>, i: nat): nat
    requires i < |fs|
  {
    Max(Ready(start, fs, i), fs[i].at)
  }

  /** The last sign of life before the `i`th frame, or the start. */
  function LastSign(start: nat, fs: seq<Frame>, i: nat, read: JsonReader): nat
    requires i <= |fs|
  {
    if i == 0 then start
    else if Observed(fs[i - 1].kind, read) then Received(start, fs, i - 1)
    else LastSign(start, fs, i - 1, read)
  }

  /** The heartbeat in force at the `i`th frame. */
  function InForce(fs: seq<Frame>, i: nat, read: JsonReader): Option<Heartbeat>
    requires i <= |fs|
  {
    if i == 0 then None
    else if Announced(fs[i - 1].kind, read).Some? then Announced(fs[i - 1].kind, read)
    else InForce(fs, i - 1, read)
  }

  predicate Joins(fs: seq<Frame>, i: nat, read: JsonReader)
    requires i <= |fs|
  {
    exists j :: 0 <= j < i && JoinsBy(fs[j].kind, read)
  }

  /** The connection before the `i`th frame, if it gets that far. */
  ghost function Before(start: nat, fs: seq<Frame>, i: nat, read: JsonReader): Connection
    requires i <= |fs|
  {
    Connection(Ready(start, fs, i), LastSign(start, fs, i, read), InForce(fs, i, read), Joins(fs, i, read))
  }

  lemma AfterBefore(start: nat, fs: seq<Frame>, i: nat, read: JsonReader)
    requires i < |fs|
    ensures After(Before(start, fs, i, read), fs[i], read) == Before(start, fs, i + 1, read)
  {
  }

  lemma ContinuesAfter(c: Connection, f: Frame, read: JsonReader)
    ensures Handle(c, f, read).Continue? ==> Handle(c, f, read).connection == After(c, f, read)
  {
    hide After, Closes, SendsAnswer;
  }

  /** A run is decided at the first frame that stops it. */
  lemma {:induction false} RunStops(start: nat, fs: seq<Frame>, i: nat, read: JsonReader) returns (n: nat)
    requires i <= |fs|
    ensures i <= n <= |fs|
    ensures forall j | i <= j < n :: Handle(Before(start, fs, j, read), fs[j], read).Continue?
    ensures n < |fs| ==>
            Handle(Before(start, fs, n, read), fs[n], read) == Stop(Run(Before(start, fs, i, read), fs[i..], read))
    ensures n == |fs| ==> Run(Before(start, fs, i, read), fs[i..], read) == Open(Before(start, fs, n, read))
    decreases |fs| - i
  {
    if i == |fs| {
      n := i;
    } else {
      hide Before, After, Handle;
      assert fs[i..][0] == fs[i] && fs[i..][1..] == fs[i + 1..];
      var h := Handle(Before(start, fs, i, read), fs[i], read);
      if h.Stop? {
        n := i;
      } else {
        ContinuesAfter(Before(start, fs, i, read), fs[i], read);
        AfterBefore(start, fs, i, read);
        n := RunStops(start, fs, i + 1, read);
      }
    }
  }

  /** A frame that can end a connection before its deadline. */
  ghost predicate CanEnd(f: Frame, read: JsonReader) {
    var k := f.kind;
    || !f.authHealthy || k.ReadError? || k.Close? || k.Eof? || (k.Ping? && f.sendFails)
    || (k.Text? && (Starts(k.text, "1") || Starts(k.text, "41")))
    || (k.Text? && f.sendFails &&
          (Starts(k.text, "2") || Starts(k.text, "40") || exists h :: Opens(k.text, read, h)))
  }

  /** Nothing else ends one: no ping text, no event and no unknown text whose answer, if any, goes out. */
  lemma OnlyTheseEnd(start: nat, fs: seq<Frame>, horizon: nat, read: JsonReader)
    ensures var o := RunUntil(start, fs, horizon, read);
            o.Ended? || o.Failed? ==> exists i :: 0 <= i < |fs| && CanEnd(fs[i], read)
  {
    assert Before(start, fs, 0, read) == Start(start);
    assert fs[0..] == fs;
    var n := RunStops(start, fs, 0, read);
    if n < |fs| {
      AnswersAndCloses(fs[n].kind, read);
      hide Run, Before, SendsAnswer, Closes, Opens, Starts, TimerFires;
      assert Handle(Before(start, fs, n, read), fs[n], read).Stop?;
    }
  }

  // ---------------------------------------------------------------- soundness of the deadline

  /** The deadline ends a connection only after a full allowed silence: from the last sign of life on, nothing else was
      in hand before it. */
  lemma TimeoutMeansSilence(start: nat, fs: seq<Frame>, read: JsonReader) returns (n: nat)
    requires Run(Start(start), fs, read).TimedOut?
    ensures n < |fs|
    ensures var at := Run(Start(start), fs, read).at;
            && at >= LastSign(start, fs, n, read) + AllowedSilence(InForce(fs, n, read))
            && at <= Received(start, fs, n)
            && forall j | 0 <= j < n && Observed(fs[j].kind, read) ::
                 Received(start, fs, j) + AllowedSilence(InForce(fs, n, read)) <= at
  {
    assert Before(start, fs, 0, read) == Start(start);
    assert fs[0..] == fs;
    n := RunStops(start, fs, 0, read);
    forall j | 0 <= j < n && Observed(fs[j].kind, read) ensures Received(start, fs, j) <= LastSign(start, fs, n, read) {
      SignsGrow(start, fs, j, n, read);
    }
  }

  /** A connection that goes silent is ended at its deadline, or once the handling in progress then is over: until then,
      and no longer, it waits. */
  lemma SilentConnectionEnds(start: nat, fs: seq<Frame>, horizon: nat, read: JsonReader)
    requires Run(Start(start), fs, read).Open?
    ensures var n := |fs|;
            var silence := match InForce(fs, n, read)
                           case None => 30_000_000_000
                           case Some(h) => 2 * h.pingInterval + h.pingTimeout + 5_000_000_000;
            var deadline := Max(Ready(start, fs, n), LastSign(start, fs, n, read) + silence);
            && (RunUntil(start, fs, horizon, read).Open? <==> horizon <= deadline)
            && (horizon > deadline ==> RunUntil(start, fs, horizon, read) == TimedOut(Joins(fs, n, read), deadline))
  {
    assert Before(start, fs, 0, read) == Start(start);
    assert fs[0..] == fs;
    var n := RunStops(start, fs, 0, read);
    NeverStopsOpen(Before(start, fs, if n < |fs| then n else 0, read), fs, n, read);
    hide Run, Ready, LastSign, InForce, Joins;
  }

  lemma NeverStopsOpen(c: Connection, fs: seq<Frame>, n: nat, read: JsonReader)
    ensures n < |fs| && Handle(c, fs[n], read).Stop? ==> !Handle(c, fs[n], read).outcome.Open?
  {
    hide After, Closes, SendsAnswer;
  }

  lemma {:induction false} SignsGrow(start: nat, fs: seq<Frame>, j: nat, n: nat, read: JsonReader)
    requires j < n <= |fs| && Observed(fs[j].kind, read)
    ensures Received(start, fs, j) <= LastSign(start, fs, n, read) <= Ready(start, fs, n)
  {
    hide Observed;
    if j + 1 < n { SignsGrow(start, fs, j, n - 1, read); }
  }

  /** A server whose frames keep coming within the allowed silence of its last sign of life is never timed out, as long
      as handling a frame never takes that long. */
  ghost predicate Lively(start: nat, fs: seq<Frame>, read: JsonReader) {
    forall i | 0 <= i < |fs| ::
      var limit := LastSign(start, fs, i, read) + AllowedSilence(InForce(fs, i, read));
      fs[i].at < limit && Ready(start, fs, i) < limit
  }

  lemma LivelyIsNeverTimedOut(start: nat, fs: seq<Frame>, read: JsonReader)
    requires Lively(start, fs, read)
    ensures !Run(Start(start), fs, read).TimedOut?
  {
    if Run(Start(start), fs, read).TimedOut? {
      var n := TimeoutMeansSilence(start, fs, read);
      assert false;
    }
  }

  /** The arrival of the last sign of life before the `i`th frame, as the server would tell it. */
  function LastSent(start: nat, fs: seq<Frame>, i: nat, read: JsonReader): nat
    requires i <= |fs|
  {
    if i == 0 then start else if Observed(fs[i - 1].kind, read) then fs[i - 1].at else LastSent(start, fs, i - 1, read)
  }

  /** Every frame arrives within the allowed silence of the last sign of life before it; handling one takes less than
      that, and frames that are no sign of life take no handling. */
  ghost predicate Steady(start: nat, fs: seq<Frame>, read: JsonReader) {
    forall i | 0 <= i < |fs| :: InTime(start, fs, i, read)
  }

  ghost predicate InTime(start: nat, fs: seq<Frame>, i: nat, read: JsonReader)
    requires i < |fs|
  {
    && fs[i].at < LastSent(start, fs, i, read) + AllowedSilence(InForce(fs, i, read))
    && if Observed(fs[i].kind, read) then fs[i].handling < AllowedSilence(InForce(fs, i + 1, read))
       else fs[i].handling == 0
  }

  lemma {:induction false} SteadyUpTo(start: nat, fs: seq<Frame>, i: nat, read: JsonReader)
    requires i <= |fs| && Steady(start, fs, read)
    ensures LastSent(start, fs, i, read) <= LastSign(start, fs, i, read)
    ensures Ready(start, fs, i) < LastSign(start, fs, i, read) + AllowedSilence(InForce(fs, i, read))
  {
    hide Observed, Announced, AllowedSilence;
    if i == 0 {
      AllowedIsPositive(InForce(fs, i, read));
    } else {
      SteadyUpTo(start, fs, i - 1, read);
      assert InTime(start, fs, i - 1, read);
      QuietAnnouncesNothing(fs[i - 1].kind, read);
      hide Steady;
    }
  }

  lemma AllowedIsPositive(h: Option<Heartbeat>)
    ensures AllowedSilence(h) > 0
  {
  }

  lemma QuietAnnouncesNothing(k: Kind, read: JsonReader)
    ensures Announced(k, read).Some? ==> Observed(k, read)
  {
  }

  /** A server whose signs of life arrive within twice its ping interval plus its ping timeout plus five seconds of each
      other is never timed out. */
  lemma SteadyServerIsNeverTimedOut(start: nat, fs: seq<Frame>, read: JsonReader)
    requires Steady(start, fs, read)
    ensures !Run(Start(start), fs, read).TimedOut?
  {
    forall i | 0 <= i < |fs| ensures
      var limit := LastSign(start, fs, i, read) + AllowedSilence(InForce(fs, i, read));
      fs[i].at < limit && Ready(start, fs, i) < limit
    {
      SteadyUpTo(start, fs, i, read);
      assert InTime(start, fs, i, read);
    }
    LivelyIsNeverTimedOut(start, fs, read);
  }

  // ---------------------------------------------------------------- noise

  /** Frames the loop does nothing about. */
  predicate Noise(f: Frame, read: JsonReader) {
    f.authHealthy && f.handling == 0 &&
      (f.kind.Binary? || f.kind.Pong? || (f.kind.Text? && Decode(f.kind.text, read).None?))
  }

  /** Binary frames, pongs and texts that do not decode never put the deadline off: once one of them arrives after it,
      the connection has been timed out, at the very instant it would have been without them. */
  lemma {:induction false} NoiseDoesNotExtend(c: Connection, fs: seq<Frame>, read: JsonReader)
    requires forall i | 0 <= i < |fs| :: Noise(fs[i], read)
    requires exists i :: 0 <= i < |fs| && fs[i].at > TimerAt(c)
    ensures Run(c, fs, read) == TimedOut(c.joined, TimerAt(c))
    decreases |fs|
  {
    var f := fs[0];
    assert Noise(f, read);
    if !TimerFires(c, f) {
      var c' := After(c, f, read);
      assert Handle(c, f, read) == Continue(c') && TimerAt(c') == TimerAt(c);
      var i :| 0 <= i < |fs| && fs[i].at > TimerAt(c);
      assert fs[1..][i - 1] == fs[i];
      assert forall j | 0 <= j < |fs[1..]| :: fs[1..][j] == fs[j + 1];
      NoiseDoesNotExtend(c', fs[1..], read);
    }
  }
}
