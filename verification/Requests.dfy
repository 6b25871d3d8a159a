/** The signed API: who reaches the limiters, in which order requests are checked, and what an integration can spend. */
module Requests {
  import opened Wrappers
  import opened RateLimit
  import opened Config
  import Ingest
  import Event
  import Json
  import Signing
  import PublicPost

  // ---------------------------------------------------------------- two tiers

  datatype Capability = Reading | Posts
  datatype Slot = Slot(integration: string, capability: Capability)
  datatype Cell = Cell(quota: Quota, tat: int)

  /** Every limiter's state: one per integration and capability, one shared per capability. */
  datatype Tiers = Tiers(own: map<Slot, Cell>, reading: Cell, posting: Cell) {
    function Shared(c: Capability): Cell { if c == Reading then reading else posting }

    function WithShared(c: Capability, cell: Cell): Tiers {
      if c == Reading then this.(reading := cell) else this.(posting := cell)
    }
  }

  datatype Rejection = ByIntegration | ByGlobal

  predicate CellAdmits(c: Cell, now: int) { Admits(c.quota, c.tat, now) }

  function Spent(c: Cell, now: int): Cell { c.(tat := Spend(c.quota, c.tat, now)) }

  predicate OwnAdmits(t: Tiers, s: Slot, now: int) { s in t.own ==> CellAdmits(t.own[s], now) }

  /** The tiers after one check: the shared limiter is asked only once the integration's own has admitted. */
  function Checked(t: Tiers, s: Slot, now: int): Tiers {
    if !OwnAdmits(t, s, now) then t
    else
      var t1 := if s in t.own then t.(own := t.own[s := Spent(t.own[s], now)]) else t;
      t1.WithShared(s.capability, Spent(t.Shared(s.capability), now))
  }

  function Rejected(t: Tiers, s: Slot, now: int): Option<Rejection> {
    if !OwnAdmits(t, s, now) then Some(ByIntegration)
    else if !CellAdmits(t.Shared(s.capability), now) then Some(ByGlobal)
    else None
  }

  function NewCell(b: Bucket): (c: Cell)
    requires ValidBucket(b)
    ensures Some(c.quota) == Limiter(b) && Usable(c.quota) && c.tat == 0
  {
    ValidBucketsGiveLimiters(b);
    Cell(Limiter(b).value, 0)
  }

  predicate AllValid(fs: seq<Integration>) { forall i | 0 <= i < |fs| :: ValidLimits(fs[i].rateLimit) }

  /** A limiter per integration and capability; a later integration of the same name would take its place. */
  function NewCells(fs: seq<Integration>): map<Slot, Cell>
    requires AllValid(fs)
  {
    if fs == [] then map[]
    else
      var f := fs[|fs| - 1];
      NewCells(fs[..|fs| - 1])[Slot(f.name, Reading) := NewCell(f.rateLimit.reading)]
                              [Slot(f.name, Posts) := NewCell(f.rateLimit.posting)]
  }

  function BucketOf(f: Integration, c: Capability): Bucket {
    if c == Reading then f.rateLimit.reading else f.rateLimit.posting
  }

  /** Integrations with distinct names each have their own two fresh limiters, and nobody else has one. */
  lemma {:induction false} NewCellsExactly(fs: seq<Integration>)
    requires AllValid(fs) && forall i, j | 0 <= i < j < |fs| :: fs[i].name != fs[j].name
    ensures forall i, c | 0 <= i < |fs| ::
            Slot(fs[i].name, c) in NewCells(fs) && NewCells(fs)[Slot(fs[i].name, c)] == NewCell(BucketOf(fs[i], c))
    ensures forall s | s in NewCells(fs) :: exists i :: 0 <= i < |fs| && fs[i].name == s.integration
  {
    if fs != [] {
      var n := |fs| - 1;
      NewCellsExactly(fs[..n]);
      hide NewCell;
      var cells := NewCells(fs[..n]);
      forall i, c | 0 <= i < |fs|
        ensures Slot(fs[i].name, c) in NewCells(fs) && NewCells(fs)[Slot(fs[i].name, c)] == NewCell(BucketOf(fs[i], c))
      {
        if i < n {
          assert fs[..n][i] == fs[i];
          assert Slot(fs[i].name, c) in cells && cells[Slot(fs[i].name, c)] == NewCell(BucketOf(fs[i], c));
        } else {
          match c case Reading => case Posts =>
        }
      }
      forall s | s in NewCells(fs) ensures exists i :: 0 <= i < |fs| && fs[i].name == s.integration {
        if s in cells {
          var i :| 0 <= i < n && fs[..n][i].name == s.integration;
          assert fs[i].name == s.integration;
        } else {
          assert fs[n].name == s.integration;
        }
      }
    }
  }

  class RateLimiters {
    var own: map<Slot, Cell>
    var reading: Cell
    var posting: Cell

    function State(): Tiers
      reads this
    {
      Tiers(own, reading, posting)
    }

    constructor (integrations: seq<Integration>, global: Config.RateLimit)
      requires AllValid(integrations) && ValidLimits(global)
      ensures State() == Tiers(NewCells(integrations), NewCell(global.reading), NewCell(global.posting))
    {
      var cells: map<Slot, Cell> := map[];
      var i := 0;
      assert integrations[..0] == [];
      while i < |integrations|
        invariant i <= |integrations| && cells == NewCells(integrations[..i])
      {
        var f := integrations[i];
        assert integrations[..i + 1][..i] == integrations[..i] && integrations[..i + 1][i] == f;
        cells := cells[Slot(f.name, Reading) := NewCell(f.rateLimit.reading)]
                      [Slot(f.name, Posts) := NewCell(f.rateLimit.posting)];
        i := i + 1;
      }
      assert integrations[..i] == integrations;
      own := cells;
      reading, posting := NewCell(global.reading), NewCell(global.posting);
    }

    /** One limiter's own check: it changes only when it admits. */
    method CheckShared(c: Capability, now: int) returns (ok: bool)
      modifies this
      ensures ok <==> CellAdmits(old(State()).Shared(c), now)
      ensures State() == old(State()).WithShared(c, Spent(old(State()).Shared(c), now))
    {
      match c
      case Reading => ok := CellAdmits(reading, now); reading := Spent(reading, now);
      case Posts => ok := CellAdmits(posting, now); posting := Spent(posting, now);
    }

    method Check(integration: string, c: Capability, now: int) returns (r: Option<Rejection>)
      modifies this
      ensures r == Rejected(old(State()), Slot(integration, c), now)
      ensures State() == Checked(old(State()), Slot(integration, c), now)
    {
      var s := Slot(integration, c);
      if s in own {
        if !CellAdmits(own[s], now) { return Some(ByIntegration); }
        own := own[s := Spent(own[s], now)];
      }
      var ok := CheckShared(c, now);
      if !ok { return Some(ByGlobal); }
      return None;
    }
  }

  // ---------------------------------------------------------------- requests

  datatype ErrorCode = Unauthorized | CapabilityNotEnabled | BoardNotAllowed | RateLimited
                     | InvalidBoard | InvalidThreadId | InvalidQuery | PayloadTooLarge
                     | InvalidJson | MissingMessage | MessageTooLong | InvalidMessage

  /** The three headers, where present and readable. */
  datatype Headers = Headers(integration: Option<string>, timestamp: Option<string>, signature: Option<string>)

  datatype ReplyBody = ReplyBody(message: string, sage: bool)

  /** A request when it is handled; `now` is the gateway's clock. The query of a read may not parse; the body of a
      reply may be too large or break off. */
  datatype Request =
    | Read(now: int, headers: Headers, verb: string, target: string, board: string, threadId: string,
           limit: Result<Option<nat>, ()>)
    | Reply(now: int, headers: Headers, verb: string, target: string, board: string, threadId: string,
            body: Result<string, ErrorCode>)

  datatype App = App(integrations: map<string, Integration>, postings: map<string, Posting>,
                     parseDate: string -> Option<int>, hmac: Signing.Hmac, parseReply: string -> Option<ReplyBody>)

  /** Whole seconds, cut towards zero. */
  function WholeSeconds(nanos: int): int { if nanos < 0 then -(-nanos / 1_000_000_000) else nanos / 1_000_000_000 }

  function Abs(n: int): int { if n < 0 then -n else n }

  predicate WithinSkew(now: int, at: int) { Abs(WholeSeconds(now - at)) <= 5 * 60 }

  /** The allowed skew is a second wider than the five minutes it is documented as: cutting to whole seconds admits
      every difference below 301 seconds. */
  lemma SkewExactly(now: int, at: int)
    ensures WithinSkew(now, at) <==> Abs(now - at) < 301 * 1_000_000_000
  {
  }

  predicate Verified(app: App, secret: string, h: Headers, verb: string, target: string, body: Option<string>,
      now: int) {
    && h.timestamp.Some? && app.parseDate(h.timestamp.value).Some?
    && WithinSkew(now, app.parseDate(h.timestamp.value).value)
    && h.signature.Some?
    && Signing.SignatureMatches(app.hmac, secret, Signing.ClientMessage(h.timestamp.value, verb, target, body),
                                h.signature.value)
  }

  function CapabilityOf(r: Request): Capability { if r.Read? then Reading else Posts }

  /** The request proves that it comes from the integration it names. */
  predicate Authenticated(app: App, r: Request) {
    match r.headers.integration
    case None => false
    case Some(name) =>
      if r.Read? then
        name in app.integrations &&
          Verified(app, app.integrations[name].secret, r.headers, r.verb, r.target, None, r.now)
      else
        r.body.Ok? && name in app.postings
        && Verified(app, app.postings[name].secret, r.headers, r.verb, r.target, Some(r.body.value), r.now)
  }

  /** What a request has to show: it names an integration that is served, its timestamp is less than 301 seconds off,
      and it carries the signature the secret makes for its timestamp, method, target and body. */
  ghost predicate Proven(app: App, r: Request) {
    var h := r.headers;
    && (r.Reply? ==> r.body.Ok?)
    && h.integration.Some? && h.timestamp.Some? && h.signature.Some?
    && (match app.parseDate(h.timestamp.value)
        case Some(at) => -301 * 1_000_000_000 < r.now - at < 301 * 1_000_000_000
        case None => false)
    && var name := h.integration.value;
       if r.Read? then
         && name in app.integrations
         && Signing.ServerAccepts(Signing.HttpRequest(r.verb, r.target, "", h.timestamp.value, h.signature.value),
                                  false, app.hmac, app.integrations[name].secret)
       else
         && name in app.postings
         && Signing.ServerAccepts(Signing.HttpRequest(r.verb, r.target, r.body.value, h.timestamp.value,
                                                      h.signature.value), true, app.hmac, app.postings[name].secret)
  }

  lemma AuthenticatedExactly(app: App, r: Request)
    ensures Authenticated(app, r) <==> Proven(app, r)
  {
    if r.headers.timestamp.Some? && app.parseDate(r.headers.timestamp.value).Some? {
      SkewExactly(r.now, app.parseDate(r.headers.timestamp.value).value);
    }
    hide Signing.SignatureMatches, Signing.ClientMessage, WithinSkew;
  }

  /** How a request of the SDK reaches the gateway. */
  function Arrived(c: Signing.Call, q: Signing.HttpRequest, now: int, name: string, board: string, threadId: string,
      limit: Result<Option<nat>, ()>): Request
  {
    var headers := Headers(Some(name), Some(q.timestamp), Some(q.signature));
    if c.ReadThread? then Read(now, headers, q.verb, q.target, board, threadId, limit)
    else Reply(now, headers, q.verb, q.target, board, threadId, Ok(q.body))
  }

  /** Every request the SDK builds under an integration's secret is authenticated while its timestamp is less than 301
      seconds off, on both routes. */
  lemma SdkIsAuthenticated(app: App, c: Signing.Call, name: string, secret: string, timestamp: string, now: int,
      board: string, threadId: string, limit: Result<Option<nat>, ()>)
    requires Signing.Sendable(c) && Signing.DigestIsBytes(app.hmac)
    requires if c.ReadThread? then name in app.integrations && app.integrations[name].secret == secret
             else name in app.postings && app.postings[name].secret == secret
    requires app.parseDate(timestamp).Some?
    requires Abs(now - app.parseDate(timestamp).value) < 301 * 1_000_000_000
    ensures var q := Signing.Build(c, app.hmac, secret, timestamp);
            Authenticated(app, Arrived(c, q, now, name, board, threadId, limit))
  {
    var q := Signing.Build(c, app.hmac, secret, timestamp);
    Signing.SigningAgreement(c, timestamp, c, timestamp, app.hmac, secret);
    AuthenticatedExactly(app, Arrived(c, q, now, name, board, threadId, limit));
    BuildKeeps(c, app.hmac, secret, timestamp);
    hide Signing.Build, Signing.SignatureMatches, Signing.ClientMessage, Authenticated;
  }

  lemma BuildKeeps(c: Signing.Call, hmac: Signing.Hmac, secret: string, timestamp: string)
    requires Signing.Sendable(c) && Signing.DigestIsBytes(hmac)
    ensures Signing.Build(c, hmac, secret, timestamp).timestamp == timestamp
    ensures c.ReadThread? ==> Signing.Build(c, hmac, secret, timestamp).body == ""
  {
  }

  /** It may use the capability, on that board. */
  predicate Permitted(app: App, r: Request)
    requires Authenticated(app, r)
  {
    var name := r.headers.integration.value;
    if r.Read? then
      app.integrations[name].reading && Ingest.BoardAllowed(app.integrations[name].allowedBoards, r.board)
    else Ingest.BoardAllowed(app.postings[name].allowedBoards, r.board)
  }

  predicate ReachesLimiter(app: App, r: Request) { Authenticated(app, r) && Permitted(app, r) }

  function SlotOf(app: App, r: Request): Slot
    requires Authenticated(app, r)
  {
    var name := r.headers.integration.value;
    Slot(if r.Read? then app.integrations[name].name else app.postings[name].name, CapabilityOf(r))
  }

  /** The tiers after a request, whatever becomes of it. */
  function AfterRequest(app: App, t: Tiers, r: Request): Tiers {
    if ReachesLimiter(app, r) then Checked(t, SlotOf(app, r), r.now) else t
  }

  predicate LetThrough(app: App, t: Tiers, r: Request) {
    ReachesLimiter(app, r) && Rejected(t, SlotOf(app, r), r.now).None?
  }

  function ThreadIdOf(s: string): int { match Event.ParseI64(s) case Some(n) => n case None => 0 }

  /** The thread a path names: a whole number in decimal, or none. */
  lemma ThreadIdExactly(s: string, n: int)
    requires n > 0
    ensures ThreadIdOf(s) == n <==> PublicPost.Denotes(s, n) && Json.IsI64(n)
  {
    PublicPost.ParseI64Exactly(s, n);
    hide Event.ParseI64, PublicPost.Denotes;
  }

  datatype PreparedRead = PreparedRead(integration: string, board: string, threadId: int, limit: nat)

  const DEFAULT_THREAD_LIMIT := 50

  /** The reading route: authentication, then `PreparedRead::new`. */
  method PrepareRead(app: App, limiters: RateLimiters, r: Request) returns (res: Result<PreparedRead, ErrorCode>)
    requires r.Read?
    modifies limiters
    ensures limiters.State() == AfterRequest(app, old(limiters.State()), r)
    ensures res.Ok? <==>
              && LetThrough(app, old(limiters.State()), r)
              && ValidBoardName(r.board) && ThreadIdOf(r.threadId) > 0 && r.limit.Ok?
    ensures res == Err(RateLimited) <==> ReachesLimiter(app, r) && !LetThrough(app, old(limiters.State()), r)
    ensures res == Err(Unauthorized) <==> !Proven(app, r)
    ensures Proven(app, r) ==>
              var i := app.integrations[r.headers.integration.value];
              var allowed := i.allowedBoards == [] || r.board in i.allowedBoards;
              && (res == Err(CapabilityNotEnabled) <==> !i.reading)
              && (res == Err(BoardNotAllowed) <==> i.reading && !allowed)
              && (ReachesLimiter(app, r) <==> i.reading && allowed)
    ensures LetThrough(app, old(limiters.State()), r) && res.Err? ==>
              res.error == if !ValidBoardName(r.board) then InvalidBoard
                           else if ThreadIdOf(r.threadId) <= 0 then InvalidThreadId
                           else InvalidQuery
    ensures res.Ok? ==> && res.value.integration == SlotOf(app, r).integration && res.value.board == r.board
                        && PublicPost.Denotes(r.threadId, res.value.threadId) && res.value.threadId > 0
                        && res.value.limit == match r.limit.value case Some(n) => n case None => 50
  {
    AuthenticatedExactly(app, r);
    if ThreadIdOf(r.threadId) > 0 { ThreadIdExactly(r.threadId, ThreadIdOf(r.threadId)); }
    hide Verified, Proven, ThreadIdOf, ValidBoardName;
    if !Authenticated(app, r) { return Err(Unauthorized); }
    var integration := app.integrations[r.headers.integration.value];
    var threadId := ThreadIdOf(r.threadId);
    if !integration.reading { return Err(CapabilityNotEnabled); }
    if !Ingest.BoardAllowed(integration.allowedBoards, r.board) { return Err(BoardNotAllowed); }
    var rejection := limiters.Check(integration.name, Reading, r.now);
    if rejection.Some? { return Err(RateLimited); }
    if !ValidBoardName(r.board) { return Err(InvalidBoard); }
    if threadId <= 0 { return Err(InvalidThreadId); }
    if r.limit.Err? { return Err(InvalidQuery); }
    var limit := match r.limit.value case Some(n) => n case None => DEFAULT_THREAD_LIMIT;
    return Ok(PreparedRead(integration.name, r.board, threadId, limit));
  }

  // ---------------------------------------------------------------- replies

  const MAX_REPLY_MESSAGE_BYTES := 8_000

  function Utf8Length(s: string): nat {
    if s == "" then 0 else
    var c := s[0] as int;
    (if c < 0x80 then 1 else if c < 0x800 then 2 else if c < 0x1_0000 then 3 else 4) + Utf8Length(s[1..])
  }

  predicate IsControl(c: char) { c as int < 0x20 || 0x7F <= c as int < 0xA0 }

  /** The length of UTF-8: that of its characters together, each by its code. */
  lemma {:induction false} Utf8LengthAdds(s: string, t: string)
    ensures Utf8Length(s + t) == Utf8Length(s) + Utf8Length(t)
    ensures |s| == 1 ==>
              var c := s[0] as int;
              Utf8Length(s) == if c < 128 then 1 else if c < 2048 then 2 else if c < 65536 then 3 else 4
  {
    if s == "" {
      assert s + t == t;
    } else {
      assert (s + t)[1..] == s[1..] + t;
      Utf8LengthAdds(s[1..], t);
    }
  }

  /** No control characters but line breaks and tabs. */
  predicate Printable(s: string) { forall c | c in s :: MayPrint(c) }

  predicate MayPrint(c: char) { 32 <= c as int < 127 || c as int > 159 || c in {'\n', '\r', '\t'} }

  predicate ValidMessage(s: string) { !Json.Blank(s) && Utf8Length(s) <= 8_000 && Printable(s) }

  method ValidateReply(board: string, threadId: int, message: string) returns (r: Option<ErrorCode>)
    ensures r.None? <==> ValidBoardName(board) && threadId > 0 && ValidMessage(message)
    ensures r.Some? ==>
            r.value == if !ValidBoardName(board) then InvalidBoard else if threadId <= 0 then InvalidThreadId
                                   else if Json.Blank(message) then MissingMessage
                                   else if Utf8Length(message) > 8_000 then MessageTooLong
                                   else InvalidMessage
  {
    Json.TrimExactly(message, "");
    hide Json.Trim, Json.Blank;
    if !ValidBoardName(board) { return Some(InvalidBoard); }
    if threadId <= 0 { return Some(InvalidThreadId); }
    if Json.Trim(message) == "" { return Some(MissingMessage); }
    if Utf8Length(message) > MAX_REPLY_MESSAGE_BYTES { return Some(MessageTooLong); }
    for i := 0 to |message|
      invariant forall j | 0 <= j < i :: MayPrint(message[j])
    {
      if IsControl(message[i]) && message[i] != '\n' && message[i] != '\r' && message[i] != '\t' {
        assert message[i] in message;
        return Some(InvalidMessage);
      }
    }
    return None;
  }

  datatype PreparedReply = PreparedReply(posting: Posting, board: string, threadId: int, body: ReplyBody)

  /** The posting route: the body is read first, and its JSON is looked at only once the quota is spent. */
  method PrepareReply(app: App, limiters: RateLimiters, r: Request) returns (res: Result<PreparedReply, ErrorCode>)
    requires r.Reply? && (r.body.Err? ==> r.body.error in {PayloadTooLarge, InvalidJson})
    modifies limiters
    ensures limiters.State() == AfterRequest(app, old(limiters.State()), r)
    ensures res.Ok? <==> LetThrough(app, old(limiters.State()), r) && app.parseReply(r.body.value).Some?
                         && ValidBoardName(r.board) && ThreadIdOf(r.threadId) > 0 &&
                              ValidMessage(app.parseReply(r.body.value).value.message)
    ensures res == Err(RateLimited) <==> ReachesLimiter(app, r) && !LetThrough(app, old(limiters.State()), r)
    ensures res == Err(Unauthorized) <==> r.body.Ok? && !Proven(app, r)
    ensures res == Err(PayloadTooLarge) <==> r.body == Err(PayloadTooLarge)
    ensures Proven(app, r) ==>
              var p := app.postings[r.headers.integration.value];
              var allowed := p.allowedBoards == [] || r.board in p.allowedBoards;
              (res == Err(BoardNotAllowed) <==> !allowed) && (ReachesLimiter(app, r) <==> allowed)
    ensures LetThrough(app, old(limiters.State()), r) ==>
            (res == Err(InvalidJson) <==> app.parseReply(r.body.value).None?)
    ensures res.Ok? ==> && res.value.board == r.board
                        && PublicPost.Denotes(r.threadId, res.value.threadId) && res.value.threadId > 0
                        && Some(res.value.body) == app.parseReply(r.body.value)
                        && res.value.posting == app.postings[r.headers.integration.value]
  {
    AuthenticatedExactly(app, r);
    if ThreadIdOf(r.threadId) > 0 { ThreadIdExactly(r.threadId, ThreadIdOf(r.threadId)); }
    hide Verified, ValidMessage, Proven, ThreadIdOf, ValidBoardName;
    if r.body.Err? { return Err(r.body.error); }
    if !Authenticated(app, r) { return Err(Unauthorized); }
    var posting := app.postings[r.headers.integration.value];
    if !Ingest.BoardAllowed(posting.allowedBoards, r.board) { return Err(BoardNotAllowed); }
    var rejection := limiters.Check(posting.name, Posts, r.now);
    if rejection.Some? { return Err(RateLimited); }
    var body := app.parseReply(r.body.value);
    if body.None? { return Err(InvalidJson); }
    var invalid := ValidateReply(r.board, ThreadIdOf(r.threadId), body.value.message);
    if invalid.Some? { return Err(invalid.value); }
    return Ok(PreparedReply(posting, r.board, ThreadIdOf(r.threadId), body.value));
  }

  // ---------------------------------------------------------------- isolation over a run

  function After(app: App, t: Tiers, rs: seq<Request>): Tiers {
    if rs == [] then t else AfterRequest(app, After(app, t, rs[..|rs| - 1]), rs[|rs| - 1])
  }

  predicate Asks(app: App, s: Slot, r: Request) { ReachesLimiter(app, r) && SlotOf(app, r) == s }

  /** When the slot's requests came to the limiter. */
  function TimesOf(app: App, s: Slot, rs: seq<Request>): seq<int> {
    if rs == [] then []
    else
      var n := |rs| - 1;
      TimesOf(app, s, rs[..n]) + if Asks(app, s, rs[n]) then [rs[n].now] else []
  }

  /** Shared quota spent by the slot's requests. */
  function SharedSpent(app: App, t: Tiers, s: Slot, rs: seq<Request>): nat {
    if rs == [] then 0
    else
      var n := |rs| - 1;
      SharedSpent(app, t, s, rs[..n]) +
      if Asks(app, s, rs[n]) && LetThrough(app, After(app, t, rs[..n]), rs[n]) then 1 else 0
  }

  lemma OtherSlotsStay(app: App, t: Tiers, r: Request, s: Slot)
    requires s in t.own
    ensures var t' := AfterRequest(app, t, r);
            && s in t'.own && t'.own[s] == if Asks(app, s, r) then Spent(t.own[s], r.now) else t.own[s]
  {
  }

  /** A slot's limiter sees exactly its own requests, and the shared quota it spends is no more than it admits. */
  lemma {:induction false} OwnLimiterDecides(app: App, t: Tiers, s: Slot, rs: seq<Request>)
    requires s in t.own
    ensures var t' := After(app, t, rs);
            && s in t'.own
            && t'.own[s] == t.own[s].(tat := TatAfter(t.own[s].quota, t.own[s].tat, TimesOf(app, s, rs)))
            && SharedSpent(app, t, s, rs) <= Admitted(t.own[s].quota, t.own[s].tat, TimesOf(app, s, rs))
  {
    if rs != [] {
      var n := |rs| - 1;
      OwnLimiterDecides(app, t, s, rs[..n]);
      OtherSlotsStay(app, After(app, t, rs[..n]), rs[n], s);
      var times := TimesOf(app, s, rs[..n]);
      assert (times + [rs[n].now])[..|times|] == times && times + [] == times;
      hide ReachesLimiter, AfterRequest, Admits;
    }
  }

  lemma {:induction false} TimesAreOrdered(app: App, s: Slot, rs: seq<Request>)
    requires forall i, j | 0 <= i <= j < |rs| :: rs[i].now <= rs[j].now
    ensures Ordered(TimesOf(app, s, rs))
    ensures forall i | 0 <= i < |TimesOf(app, s, rs)| :: rs[0].now <= TimesOf(app, s, rs)[i] <= rs[|rs| - 1].now
  {
    if rs != [] {
      var n := |rs| - 1;
      TimesAreOrdered(app, s, rs[..n]);
      var times := TimesOf(app, s, rs[..n]);
      hide Asks, TimesOf;
      forall i | 0 <= i < |times| ensures rs[0].now <= times[i] <= rs[n].now {
        assert n > 0 && rs[..n][0] == rs[0] && rs[..n][n - 1] == rs[n - 1];
      }
      OneMoreTime(app, s, rs);
      assert rs[0].now <= rs[n].now;
    } else {
      hide Asks;
    }
  }

  lemma OneMoreTime(app: App, s: Slot, rs: seq<Request>)
    requires rs != []
    ensures TimesOf(app, s, rs) == TimesOf(app, s, rs[..|rs| - 1])
         || TimesOf(app, s, rs) == TimesOf(app, s, rs[..|rs| - 1]) + [rs[|rs| - 1].now]
  {
  }

  /** However much an integration sends, and whatever the others do, within any span it spends no more of the shared
      quota than its own burst and one request per period of its own. */
  lemma QuotaIsolation(app: App, t: Tiers, s: Slot, rs: seq<Request>, span: nat)
    requires s in t.own && Usable(t.own[s].quota)
    requires forall i, j | 0 <= i <= j < |rs| :: rs[i].now <= rs[j].now
    requires rs != [] ==> rs[|rs| - 1].now - rs[0].now <= span
    ensures SharedSpent(app, t, s, rs) <= t.own[s].quota.burst + span / t.own[s].quota.period
  {
    OwnLimiterDecides(app, t, s, rs);
    TimesAreOrdered(app, s, rs);
    var times := TimesOf(app, s, rs);
    assert times != [] ==> rs != [];
    hide TimesOf, SharedSpent, Admitted, Usable;
    RateBound(t.own[s].quota, t.own[s].tat, times, span);
  }

  /** Who asks for what and when, if the request gets to the limiters at all. */
  function Cost(app: App, r: Request): Option<(Slot, int)> {
    if ReachesLimiter(app, r) then Some((SlotOf(app, r), r.now)) else None
  }

  /** The same request but for its thread and query, or but for its thread. */
  ghost predicate Alike(r: Request, r': Request) {
    match r
    case Read(_, _, _, _, _, _, _) => r'.Read? && r' == r.(threadId := r'.threadId, limit := r'.limit)
    case Reply(_, _, _, _, _, _, _) => r'.Reply? && r' == r.(threadId := r'.threadId)
  }

  /** Thread and query have no part in the cost of a request, and neither has what its body reads as. */
  lemma CostSeesNoContent(app: App, parse: string -> Option<ReplyBody>, r: Request, r': Request)
    requires Alike(r, r')
    ensures Cost(app.(parseReply := parse), r') == Cost(app, r)
  {
    var app' := app.(parseReply := parse);
    assert forall secret, body ::
        Verified(app', secret, r'.headers, r'.verb, r'.target, body, r'.now) ==
          Verified(app, secret, r.headers, r.verb, r.target, body, r.now);
    hide Verified;
  }

  lemma CostStep(app: App, app': App, t: Tiers, r: Request, r': Request)
    requires Cost(app, r) == Cost(app', r')
    ensures AfterRequest(app, t, r) == AfterRequest(app', t, r') && LetThrough(app, t, r) == LetThrough(app', t, r')
    ensures forall s :: Asks(app, s, r) == Asks(app', s, r')
  {
    hide Authenticated, Permitted;
  }

  /** Over whole runs, requests cost by who asks and when: the threads and queries they name and the JSON their bodies
      hold have no part in any limiter, in who is let through, or in what is spent of the shared quota. */
  lemma {:induction false} CostIsWhoAndWhen(app: App,
      parse: string -> Option<ReplyBody>, t: Tiers, rs: seq<Request>, rs': seq<Request>)
    requires |rs| == |rs'| && forall i | 0 <= i < |rs| :: Alike(rs[i], rs'[i])
    ensures var app' := app.(parseReply := parse);
            && After(app, t, rs) == After(app', t, rs')
            && (forall s :: SharedSpent(app, t, s, rs) == SharedSpent(app', t, s, rs'))
            && (rs != [] ==>
                  var n := |rs| - 1;
                  LetThrough(app, After(app, t, rs[..n]), rs[n]) == LetThrough(app', After(app', t, rs'[..n]), rs'[n]))
    decreases |rs|
  {
    hide Cost, AfterRequest, LetThrough, Asks, Alike;
    if rs != [] {
      var n := |rs| - 1;
      CostIsWhoAndWhen(app, parse, t, rs[..n], rs'[..n]);
      CostSeesNoContent(app, parse, rs[n], rs'[n]);
      CostStep(app, app.(parseReply := parse), After(app, t, rs[..n]), rs[n], rs'[n]);
    }
  }
}
