/** From an upstream payload to what the store keeps and every webhook receives. */
module Ingest {
  import opened Wrappers
  import opened Json
  import opened Event
  import opened Upstream
  import S = Schema
  import Db = Store
  import P = PublicPost
  import Rfc3339
  import Text

  datatype WebhookConfig = WebhookConfig(name: string, allowedBoards: seq<string>, includePosterFingerprint: bool)

  /** An empty list allows every board. */
  predicate BoardAllowed(allowed: seq<string>, board: string) { allowed == [] || board in allowed }

  /** The gateway as configured: `origins` gives the integration a public tripcode belongs to. */
  datatype Gateway = Gateway(baseUrl: string, webhooks: seq<WebhookConfig>, origins: map<string, string>,
                             fingerprintSecret: Option<string>, lib: Libraries)

  function FingerprintMessage(scope: string, source: string): string { scope + "\0" + source }

  function PosterFingerprint(lib: Libraries, secret: string, scope: string, source: Option<string>): Option<string> {
    match source
    case None => None
    case Some(s) => Some("hmac-sha256:" + lib.hmac(secret, FingerprintMessage(scope, s)))
  }

  /** The payload for one webhook. */
  function DeliveryFor(g: Gateway, built: BuiltEvent, w: WebhookConfig): Result<S.EventDelivery, ()> {
    if w.includePosterFingerprint then
      if g.fingerprintSecret.None? then Err(())
      else
        var fingerprint := PosterFingerprint(g.lib, g.fingerprintSecret.value, w.name, built.posterIdentity);
        var payload :- Encode(built.event.(post := built.event.post.(posterFingerprint := fingerprint)), g.lib);
        Ok(S.EventDelivery(w.name, payload))
    else
      var payload :- Encode(built.event, g.lib);
      Ok(S.EventDelivery(w.name, payload))
  }

  /** `event_deliveries`: the webhooks that may see the board, in their order; the first failure ends it. */
  function EventDeliveries(g: Gateway, built: BuiltEvent, ws: seq<WebhookConfig>): Result<seq<S.EventDelivery>, ()> {
    if ws == [] then Ok([])
    else if !BoardAllowed(ws[0].allowedBoards, built.event.post.board) then EventDeliveries(g, built, ws[1..])
    else
      var first :- DeliveryFor(g, built, ws[0]);
      var rest :- EventDeliveries(g, built, ws[1..]);
      Ok([first] + rest)
  }

  function Annotate(post: Event.Post, origins: map<string, string>): Event.Post {
    post.(origin := match post.tripcode
                    case Some(t) => if t in origins then Some(origins[t]) else None
                    case None => None)
  }

  /** What a payload gives the store: the event, its stored payload and its deliveries. */
  datatype Prepared = Prepared(event: WebhookEvent, payload: S.Bytes, deliveries: seq<S.EventDelivery>)

  /** The built event attributed, encoded and addressed; none when no webhook may see it. */
  function Address(g: Gateway, built: BuiltEvent): Option<Prepared> {
    var event := built.event.(post := Annotate(built.event.post, g.origins));
    match Encode(event, g.lib)
    case Err(_) => None
    case Ok(bytes) =>
      match EventDeliveries(g, BuiltEvent(event, bytes, built.posterIdentity), g.webhooks)
      case Err(_) => None
      case Ok(ds) => if ds == [] then None else Some(Prepared(event, bytes, ds))
  }

  /** Everything `new_post` does before it writes; nothing is written when the payload is refused. */
  function Prepare(g: Gateway, payload: seq<Json>, now: int): Option<Prepared> {
    if payload == [] || !payload[0].Obj? then None
    else
      match GatewayEvent(g.baseUrl, payload[0], now, g.lib)
      case Err(_) => None
      case Ok(built) => Address(g, built)
  }

  function StoredEvent(p: Prepared): S.Event<int> {
    S.Event(KindText(p.event.kind), p.event.post.board, p.event.post.threadId, p.event.post.id, p.payload,
            p.event.observedAt)
  }

  /** `new_post` over the store; `notify` is the wake-up given to the delivery loop. */
  method NewPost(g: Gateway, store: Db.Store, payload: seq<Json>, now: int, fault: bool) returns (notify: bool)
    requires store.Valid() && Rfc3339.InRange(now)
    modifies store
    ensures store.Valid()
    ensures match Prepare(g, payload, now)
            case None => !notify && store.Model() == old(store.Model())
            case Some(p) =>
              match S.CreateEvent(old(store.Model()), p.event.id, StoredEvent(p), p.deliveries)
              case None => !notify && store.Model() == old(store.Model())
              case Some((db, isNew)) =>
                notify == (isNew && !fault) && store.Model() == if fault then old(store.Model()) else db
  {
    PreparedNow(g, payload, now);
    hide *;
    var prepared := Prepare(g, payload, now);
    if prepared.None? { return false; }
    var p := prepared.value;
    var r := StorePrepared(store, p, fault);
    return r;
  }

  method StorePrepared(store: Db.Store, p: Prepared, fault: bool) returns (notify: bool)
    requires store.Valid() && Rfc3339.InRange(p.event.observedAt)
    modifies store
    ensures store.Valid()
    ensures match S.CreateEvent(old(store.Model()), p.event.id, StoredEvent(p), p.deliveries)
            case None => !notify && store.Model() == old(store.Model())
            case Some((db, isNew)) =>
              notify == (isNew && !fault) && store.Model() == if fault then old(store.Model()) else db
  {
    hide Rfc3339.Render, Rfc3339.Parse, Rfc3339.InRange, S.CreateEvent, Db.InTime;
    var post := p.event.post;
    var r := store.CreateEvent(p.event.id, KindText(p.event.kind), post.board, post.threadId, post.id, p.payload,
                               p.event.observedAt, p.deliveries, fault);
    return r == Ok(true);
  }

  lemma PreparedNow(g: Gateway, payload: seq<Json>, now: int)
    ensures Prepare(g, payload, now).Some? ==> Prepare(g, payload, now).value.event.observedAt == now
  {
  }

  // ---------------------------------------------------------------- who receives what

  function Audience(ws: seq<WebhookConfig>, board: string): seq<WebhookConfig> {
    if ws == [] then [] else
    (if BoardAllowed(ws[0].allowedBoards, board) then [ws[0]] else []) + Audience(ws[1..], board)
  }

  lemma {:induction false} AudienceIsAllowed(ws: seq<WebhookConfig>, board: string)
    ensures forall w :: w in Audience(ws, board) <==> w in ws && (w.allowedBoards == [] || board in w.allowedBoards)
  {
    if ws != [] {
      AudienceIsAllowed(ws[1..], board);
      assert forall w :: w in ws <==> w == ws[0] || w in ws[1..];
    }
  }

  ghost predicate DistinctNames(ws: seq<WebhookConfig>) {
    forall i, j | 0 <= i < j < |ws| :: ws[i].name != ws[j].name
  }

  lemma {:induction false} AudienceIsDistinct(ws: seq<WebhookConfig>, board: string)
    requires DistinctNames(ws)
    ensures DistinctNames(Audience(ws, board))
  {
    if ws != [] {
      AudienceIsDistinct(ws[1..], board);
      AudienceIsAllowed(ws[1..], board);
      var rest := Audience(ws[1..], board);
      forall i | 0 <= i < |rest| ensures rest[i].name != ws[0].name {
        assert rest[i] in ws[1..];
      }
    }
  }

  /** A secret is loaded whenever it will be needed. */
  predicate SecretLoaded(g: Gateway, ws: seq<WebhookConfig>) {
    g.fingerprintSecret.Some? || forall i | 0 <= i < |ws| :: !ws[i].includePosterFingerprint
  }

  /** The event a webhook receives: fingerprints only where asked for, scoped to the webhook's name. */
  function Received(g: Gateway, built: BuiltEvent, w: WebhookConfig): WebhookEvent {
    if w.includePosterFingerprint && g.fingerprintSecret.Some? then
      built.event.(post := built.event.post.(posterFingerprint :=
        PosterFingerprint(g.lib, g.fingerprintSecret.value, w.name, built.posterIdentity)))
    else built.event
  }

  function DeliveryTo(g: Gateway, built: BuiltEvent, w: WebhookConfig): S.EventDelivery {
    S.EventDelivery(w.name, g.lib.write(Tree(Received(g, built, w), g.lib)))
  }

  function Addressed(g: Gateway, built: BuiltEvent, to: seq<WebhookConfig>): seq<S.EventDelivery> {
    seq(|to|, i requires 0 <= i < |to| => DeliveryTo(g, built, to[i]))
  }

  lemma DeliveryExactly(g: Gateway, built: BuiltEvent, w: WebhookConfig)
    requires Faithful(g.lib) && Fits(built.event.post)
    ensures DeliveryFor(g, built, w) ==
            if w.includePosterFingerprint && g.fingerprintSecret.None? then Err(())
            else Ok(DeliveryTo(g, built, w))
  {
    EncodingNeverFails(Received(g, built, w), g.lib);
    hide Encode, Tree, Faithful;
  }

  lemma AddressedHead(g: Gateway, built: BuiltEvent, w: WebhookConfig, rest: seq<WebhookConfig>)
    ensures Addressed(g, built, [w] + rest) == [DeliveryTo(g, built, w)] + Addressed(g, built, rest)
    ensures SecretLoaded(g, [w] + rest) <==>
            (g.fingerprintSecret.Some? || !w.includePosterFingerprint) && SecretLoaded(g, rest)
  {
    hide DeliveryTo;
    var to := [w] + rest;
    assert to[0] == w && forall i | 1 <= i < |to| :: to[i] == rest[i - 1];
    if SecretLoaded(g, to) && g.fingerprintSecret.None? {
      forall i | 0 <= i < |rest| ensures !rest[i].includePosterFingerprint { assert rest[i] == to[i + 1]; }
    }
  }

  lemma NobodyAddressed(g: Gateway, built: BuiltEvent)
    ensures Addressed(g, built, []) == [] && SecretLoaded(g, [])
  {
  }

  /** One more webhook, in terms of the two functions alone. */
  lemma DeliveriesStep(g: Gateway, built: BuiltEvent, ws: seq<WebhookConfig>)
    requires ws != []
    ensures EventDeliveries(g, built, ws) ==
            var rest := EventDeliveries(g, built, ws[1..]);
            if !BoardAllowed(ws[0].allowedBoards, built.event.post.board) then rest
            else match DeliveryFor(g, built, ws[0])
                 case Err(e) => Err(e)
                 case Ok(first) => match rest case Err(e) => Err(e) case Ok(ds) => Ok([first] + ds)
    ensures Audience(ws, built.event.post.board) ==
            var rest := Audience(ws[1..], built.event.post.board);
            if BoardAllowed(ws[0].allowedBoards, built.event.post.board) then [ws[0]] + rest else rest
  {
    hide DeliveryFor, BoardAllowed;
  }

  /** Deliveries go to the webhooks that may see the board, each getting its event; they fail exactly when a
      fingerprint is asked for without a secret. */
  lemma {:induction false} DeliveriesExactly(g: Gateway, built: BuiltEvent, ws: seq<WebhookConfig>)
    requires Faithful(g.lib) && Fits(built.event.post)
    ensures var to := Audience(ws, built.event.post.board);
            EventDeliveries(g, built, ws) == if SecretLoaded(g, to) then Ok(Addressed(g, built, to)) else Err(())
  {
    if ws == [] {
      NobodyAddressed(g, built);
    } else {
      hide *;
      DeliveriesExactly(g, built, ws[1..]);
      DeliveryExactly(g, built, ws[0]);
      DeliveriesStep(g, built, ws);
      AddressedHead(g, built, ws[0], Audience(ws[1..], built.event.post.board));
    }
  }

  lemma {:induction false} DeliveryNames(g: Gateway, built: BuiltEvent, ws: seq<WebhookConfig>)
    requires EventDeliveries(g, built, ws).Ok?
    ensures var to, ds := Audience(ws, built.event.post.board), EventDeliveries(g, built, ws).value;
            |ds| == |to| && forall i | 0 <= i < |ds| :: ds[i].webhook == to[i].name
  {
    hide DeliveryFor, BoardAllowed;
    if ws != [] {
      hide *;
      DeliveriesStep(g, built, ws);
      DeliveryName(g, built, ws[0]);
      if EventDeliveries(g, built, ws[1..]).Ok? { DeliveryNames(g, built, ws[1..]); }
    }
  }

  lemma DeliveryName(g: Gateway, built: BuiltEvent, w: WebhookConfig)
    ensures DeliveryFor(g, built, w).Ok? ==> DeliveryFor(g, built, w).value.webhook == w.name
  {
    hide Encode;
  }

  /** One delivery per allowed webhook, under names that are distinct when the configured names are. */
  lemma PreparedDeliveries(g: Gateway, payload: seq<Json>, now: int)
    requires Prepare(g, payload, now).Some? && DistinctNames(g.webhooks)
    ensures S.DistinctWebhooks(Prepare(g, payload, now).value.deliveries)
    ensures |Prepare(g, payload, now).value.deliveries| ==
            |Audience(g.webhooks, Prepare(g, payload, now).value.event.post.board)| > 0
    ensures var p := Prepare(g, payload, now).value;
            forall w | w in g.webhooks ::
              (w.allowedBoards == [] || p.event.post.board in w.allowedBoards) <==>
              exists i :: 0 <= i < |p.deliveries| && p.deliveries[i].webhook == w.name
  {
    var built := GatewayEvent(g.baseUrl, payload[0], now, g.lib).value;
    var event := built.event.(post := Annotate(built.event.post, g.origins));
    hide GatewayEvent, Encode, EventDeliveries, Audience;
    DeliveryNames(g, BuiltEvent(event, Encode(event, g.lib).value, built.posterIdentity), g.webhooks);
    AudienceIsDistinct(g.webhooks, event.post.board);
    AudienceIsAllowed(g.webhooks, event.post.board);
    var to, ds := Audience(g.webhooks, event.post.board), Prepare(g, payload, now).value.deliveries;
    forall w | w in g.webhooks ensures w in to <==> exists i :: 0 <= i < |ds| && ds[i].webhook == w.name {
      WebhookNamed(g.webhooks, to, w, ds);
    }
  }

  lemma WebhookNamed(ws: seq<WebhookConfig>, to: seq<WebhookConfig>, w: WebhookConfig, ds: seq<S.EventDelivery>)
    requires DistinctNames(ws) && w in ws && forall x | x in to :: x in ws
    requires |ds| == |to| && forall i | 0 <= i < |ds| :: ds[i].webhook == to[i].name
    ensures w in to <==> exists i :: 0 <= i < |ds| && ds[i].webhook == w.name
  {
    var n :| 0 <= n < |ws| && ws[n] == w;
    forall i | 0 <= i < |ds| && ds[i].webhook == w.name ensures to[i] == w {
      assert to[i] in to;
      var m :| 0 <= m < |ws| && ws[m] == to[i];
      assert m < n || n < m || m == n;
    }
    if w in to {
      var i :| 0 <= i < |to| && to[i] == w;
      assert ds[i].webhook == w.name;
    }
  }

  /** The fingerprint a webhook gets: one keyed by its name where it asks for one and the poster is known. */
  ghost predicate FingerprintOf(g: Gateway, v: Json, w: WebhookConfig, r: Option<string>) {
    forall f :: r == Some(f) <==>
      && w.includePosterFingerprint && g.fingerprintSecret.Some?
      && exists t ::
           IdentifiedBy(v, t) && f == "hmac-sha256:" + g.lib.hmac(g.fingerprintSecret.value, w.name + "\0" + t)
  }

  lemma ReceivedFingerprint(g: Gateway, built: BuiltEvent, v: Json, w: WebhookConfig)
    requires forall t :: built.posterIdentity == Some(t) <==> IdentifiedBy(v, t)
    requires built.event.post.posterFingerprint == None
    ensures FingerprintOf(g, v, w, Received(g, built, w).post.posterFingerprint)
    ensures Received(g, built, w) ==
            built.event.(post :=
              built.event.post.(posterFingerprint := Received(g, built, w).post.posterFingerprint))
  {
    hide IdentifiedBy;
    assert built.posterIdentity.Some? ==> IdentifiedBy(v, built.posterIdentity.value);
  }

  /** The event that is addressed, as it was built and attributed. */
  function Ready(g: Gateway, v: Json, now: int): BuiltEvent
    requires GatewayEvent(g.baseUrl, v, now, g.lib).Ok?
  {
    var built := GatewayEvent(g.baseUrl, v, now, g.lib).value;
    var event := built.event.(post := Annotate(built.event.post, g.origins));
    BuiltEvent(event, g.lib.write(Tree(event, g.lib)), built.posterIdentity)
  }

  lemma PreparedIsAddressed(g: Gateway, payload: seq<Json>, now: int)
    requires Faithful(g.lib) && Prepare(g, payload, now).Some?
    ensures payload != [] && payload[0].Obj? && GatewayEvent(g.baseUrl, payload[0], now, g.lib).Ok?
    ensures var ready, p := Ready(g, payload[0], now), Prepare(g, payload, now).value;
            && ready.event == p.event && Fits(p.event.post) && p.event.id != "" && p.event.post.url != ""
            && p.event.observedAt == now && p.event.post.posterFingerprint == None
            && EventDeliveries(g, ready, g.webhooks) == Ok(p.deliveries)
            && forall t :: ready.posterIdentity == Some(t) <==> IdentifiedBy(payload[0], t)
  {
    BuiltEventsFit(g.baseUrl, payload[0], now, g.lib);
    P.EventTells(g.baseUrl, payload[0], now, g.lib);
    hide GatewayEvent, P.Tells, P.Accepted, IdentifiedBy;
    EncodingNeverFails(Ready(g, payload[0], now).event, g.lib);
    hide Encode, Tree, Faithful, EventDeliveries;
  }

  /** A delivery goes to a webhook that may see the board. Its bytes are the prepared event, at most with the
      fingerprint that webhook gets. */
  lemma PreparedPayload(g: Gateway, payload: seq<Json>, now: int, i: nat)
    returns (w: WebhookConfig, fingerprint: Option<string>)
    requires Faithful(g.lib) && Prepare(g, payload, now).Some? && i < |Prepare(g, payload, now).value.deliveries|
    ensures var p := Prepare(g, payload, now).value;
            && Fits(p.event.post) && p.event.id != "" && p.event.post.url != "" && p.event.observedAt == now
            && w in g.webhooks && (w.allowedBoards == [] || p.event.post.board in w.allowedBoards)
            && p.deliveries[i].webhook == w.name && FingerprintOf(g, payload[0], w, fingerprint)
            && g.lib.read(p.deliveries[i].payload) ==
               Some(Tree(p.event.(post := p.event.post.(posterFingerprint := fingerprint)), g.lib))
  {
    PreparedIsAddressed(g, payload, now);
    hide GatewayEvent, Prepare, Ready, Received, Tree, Annotate, EventDeliveries, Audience, SecretLoaded, IdentifiedBy;
    var ready, p := Ready(g, payload[0], now), Prepare(g, payload, now).value;
    DeliveriesExactly(g, ready, g.webhooks);
    AudienceIsAllowed(g.webhooks, p.event.post.board);
    var to := Audience(g.webhooks, p.event.post.board);
    w := to[i];
    assert w in to;
    ReceivedFingerprint(g, ready, payload[0], w);
    hide FingerprintOf;
    fingerprint := Received(g, ready, w).post.posterFingerprint;
    assert p.deliveries[i] == DeliveryTo(g, ready, w);
  }

  /** The integration a post's tripcode belongs to, and none for other posts. */
  ghost predicate Attributed(origins: map<string, string>, p: Event.Post) {
    forall n :: p.origin == Some(n) <==>
      p.tripcode.Some? && p.tripcode.value in origins && origins[p.tripcode.value] == n
  }

  /** Some webhook may see the board, and none of those needs a secret that is not there. */
  ghost predicate Deliverable(g: Gateway, board: string) {
    && (exists w :: w in g.webhooks && (w.allowedBoards == [] || board in w.allowedBoards))
    && (g.fingerprintSecret.None? ==>
          forall w | w in g.webhooks && (w.allowedBoards == [] || board in w.allowedBoards) ::
            !w.includePosterFingerprint)
  }

  lemma DeliverableExactly(g: Gateway, built: BuiltEvent)
    requires Faithful(g.lib) && Fits(built.event.post)
    ensures var ds := EventDeliveries(g, built, g.webhooks);
            ds.Ok? && ds.value != [] <==> Deliverable(g, built.event.post.board)
  {
    var to := Audience(g.webhooks, built.event.post.board);
    DeliveriesExactly(g, built, g.webhooks);
    AudienceIsAllowed(g.webhooks, built.event.post.board);
    hide EventDeliveries, Audience, Faithful, Fits, DeliveryTo;
    assert to != [] ==> to[0] in to;
    assert forall i | 0 <= i < |to| :: to[i] in to;
    assert forall w | w in to :: exists i :: 0 <= i < |to| && to[i] == w;
  }

  /** What is stored and told of a payload. */
  ghost predicate Announces(g: Gateway, v: Json, now: int, p: Prepared)
    requires v.Obj?
  {
    var e := p.event;
    && P.Tells(v, g.baseUrl, g.lib.parseDate, now, e.(post := e.post.(origin := None)))
    && Attributed(g.origins, e.post)
    && g.lib.read(p.payload) == Some(Tree(e, g.lib))
    && StoredEvent(p) ==
       S.Event(if e.kind == PostCreated then "post.created" else "thread.created", e.post.board, e.post.threadId,
               e.post.id, p.payload, now)
  }

  /** A payload gives an event exactly when its first item is an object that is accepted and whose event can be
      delivered to somebody. What is stored then is what the payload's keys say. */
  lemma PreparedExactly(g: Gateway, payload: seq<Json>, now: int)
    requires Faithful(g.lib)
    ensures Prepare(g, payload, now).Some? <==>
            && payload != [] && payload[0].Obj? && P.Accepted(payload[0], g.lib.parseDate)
            && Deliverable(g, DropIp(payload[0]).fields["board"].text)
    ensures Prepare(g, payload, now).Some? ==> Announces(g, payload[0], now, Prepare(g, payload, now).value)
  {
    if payload != [] && payload[0].Obj? {
      var v := payload[0];
      P.EventTells(g.baseUrl, v, now, g.lib);
      var r := GatewayEvent(g.baseUrl, v, now, g.lib);
      if r.Ok? {
        BuiltEventsFit(g.baseUrl, v, now, g.lib);
        AddressExactly(g, r.value);
        BoardIsSaid(g, v, now, r.value.event);
        Reattributed(g, r.value.event);
      }
      hide GatewayEvent, P.Tells, IdentifiedBy, P.Accepted, DropIp, Faithful, Fits, Tree;
      hide Address, Deliverable, Attributed;
    }
  }

  lemma AddressExactly(g: Gateway, built: BuiltEvent)
    requires Faithful(g.lib) && Fits(built.event.post)
    ensures Address(g, built).Some? <==> Deliverable(g, built.event.post.board)
    ensures Address(g, built).Some? ==>
              var p := Address(g, built).value;
              && p.event == built.event.(post := Annotate(built.event.post, g.origins))
              && g.lib.read(p.payload) == Some(Tree(p.event, g.lib))
  {
    var event := built.event.(post := Annotate(built.event.post, g.origins));
    EncodingNeverFails(event, g.lib);
    var bytes := g.lib.write(Tree(event, g.lib));
    DeliverableExactly(g, BuiltEvent(event, bytes, built.posterIdentity));
    hide Encode, EventDeliveries, Deliverable, Tree;
  }

  lemma BoardIsSaid(g: Gateway, v: Json, now: int, e: WebhookEvent)
    requires v.Obj? && P.Tells(v, g.baseUrl, g.lib.parseDate, now, e)
    ensures DropIp(v).Obj? && var m := DropIp(v).fields; "board" in m && m["board"] == Str(e.post.board)
    ensures e.observedAt == now && e.post.origin == None
  {
    hide P.TextOf, P.MessageOf, P.RefsOf, P.UrlOf;
  }

  lemma Reattributed(g: Gateway, e: WebhookEvent)
    requires e.post.origin == None
    ensures var post := Annotate(e.post, g.origins); post.(origin := None) == e.post && Attributed(g.origins, post)
  {
  }

  lemma PreparedId(g: Gateway, payload: seq<Json>, now: int)
    requires Prepare(g, payload, now).Some?
    ensures var e := Prepare(g, payload, now).value.event; e.id == EventId(e.kind, e.post.board, e.post.id)
  {
    hide Decode, Encode, EventDeliveries, EventId;
  }

  /** Two payloads are taken for the same event exactly when they are the same kind of post, with the same id, on the
      same board. */
  lemma DeduplicationIsExact(g: Gateway, a: seq<Json>, b: seq<Json>, n: int, m: int)
    requires Prepare(g, a, n).Some? && Prepare(g, b, m).Some?
    ensures var x, y := Prepare(g, a, n).value.event, Prepare(g, b, m).value.event;
            x.id == y.id <==> x.kind == y.kind && x.post.board == y.post.board && x.post.id == y.post.id
  {
    PreparedId(g, a, n);
    PreparedId(g, b, m);
    hide Prepare, EventId;
    var x, y := Prepare(g, a, n).value.event, Prepare(g, b, m).value.event;
    if x.id == y.id { EventIdIsInjective(x.kind, x.post.board, x.post.id, y.kind, y.post.board, y.post.id); }
  }

  // ---------------------------------------------------------------- noninterference

  /** Events built from payloads that agree outside `ip` differ at most in the identity kept for fingerprints. */
  lemma GatewayEventIgnoresIp(g: Gateway, a: Json, b: Json, now: int)
    requires SameOutsideIp(a, b)
    ensures var x, y := GatewayEvent(g.baseUrl, a, now, g.lib), GatewayEvent(g.baseUrl, b, now, g.lib);
            && (x.Ok? <==> y.Ok?)
            && (x.Ok? ==> x.value.event == y.value.event && x.value.posterIdentity == PosterIdentity(a)
                          && y.value.posterIdentity == PosterIdentity(b))
  {
    hide DropIp, Safe, PostFromValue, SameOutsideIp, SameIdentity, PosterIdentity, ContractPost, EventId, Encode;
    DecodeIgnoresIp(a, b, g.lib.parseDate);
  }

  /** Whoever sees only what webhooks without fingerprints receive, or what the store keeps of the event, cannot tell
      two payloads apart that differ only inside `ip` fields. */
  ghost predicate Indistinguishable(g: Gateway, x: Option<Prepared>, y: Option<Prepared>) {
    && (x.Some? <==> y.Some?)
    && (x.Some? ==>
          && x.value.event == y.value.event && x.value.payload == y.value.payload
          && |x.value.deliveries| == |y.value.deliveries|
          && (forall i | 0 <= i < |x.value.deliveries| ::
                x.value.deliveries[i].webhook == y.value.deliveries[i].webhook)
          && (forall i | 0 <= i < |x.value.deliveries| && !Fingerprinted(g, x.value.deliveries[i].webhook) ::
                x.value.deliveries[i] == y.value.deliveries[i]))
  }

  /** Some webhook of that name asks for fingerprints. */
  predicate Fingerprinted(g: Gateway, name: string) {
    exists w :: w in g.webhooks && w.name == name && w.includePosterFingerprint
  }

  lemma DeliveriesIgnoreIdentity(g: Gateway, x: BuiltEvent, y: BuiltEvent)
    requires Faithful(g.lib) && Fits(x.event.post) && x.event == y.event
    ensures var dx, dy := EventDeliveries(g, x, g.webhooks), EventDeliveries(g, y, g.webhooks);
            && (dx.Ok? <==> dy.Ok?)
            && (dx.Ok? ==>
                  && |dx.value| == |dy.value|
                  && (forall i | 0 <= i < |dx.value| :: dx.value[i].webhook == dy.value[i].webhook)
                  && (forall i | 0 <= i < |dx.value| && !Fingerprinted(g, dx.value[i].webhook) ::
                        dx.value[i] == dy.value[i]))
  {
    DeliveriesExactly(g, x, g.webhooks);
    DeliveriesExactly(g, y, g.webhooks);
    AudienceIsAllowed(g.webhooks, x.event.post.board);
    var to := Audience(g.webhooks, x.event.post.board);
    hide Encode, Tree, Faithful, EventDeliveries, Audience;
    assert forall i | 0 <= i < |to| :: to[i] in to;
    assert forall w: WebhookConfig | !w.includePosterFingerprint :: Received(g, x, w) == Received(g, y, w);
  }

  lemma AddressIgnoresIdentity(g: Gateway, x: BuiltEvent, y: BuiltEvent)
    requires Faithful(g.lib) && Fits(x.event.post) && x.event == y.event
    ensures Indistinguishable(g, Address(g, x), Address(g, y))
    ensures x.posterIdentity == y.posterIdentity ==> Address(g, x) == Address(g, y)
  {
    var event := x.event.(post := Annotate(x.event.post, g.origins));
    EncodingNeverFails(event, g.lib);
    var bytes := g.lib.write(Tree(event, g.lib));
    DeliveriesIgnoreIdentity(g, BuiltEvent(event, bytes, x.posterIdentity), BuiltEvent(event, bytes, y.posterIdentity));
    hide Encode, Tree, Faithful, EventDeliveries, Annotate, Fingerprinted;
  }

  lemma Noninterference(g: Gateway, a: seq<Json>, b: seq<Json>, now: int)
    requires Faithful(g.lib) && (a == [] <==> b == []) && (a != [] ==> SameOutsideIp(a[0], b[0]))
    ensures Indistinguishable(g, Prepare(g, a, now), Prepare(g, b, now))
    ensures a == [] || SameIdentity(a[0], b[0]) ==> Prepare(g, a, now) == Prepare(g, b, now)
  {
    if a == [] { return; }
    RootsAgree(a[0], b[0]);
    PosterIdentityExactly(a[0]);
    PosterIdentityExactly(b[0]);
    GatewayEventIgnoresIp(g, a[0], b[0], now);
    var x, y := GatewayEvent(g.baseUrl, a[0], now, g.lib), GatewayEvent(g.baseUrl, b[0], now, g.lib);
    if a[0].Obj? && x.Ok? {
      BuiltEventsFit(g.baseUrl, a[0], now, g.lib);
      AddressIgnoresIdentity(g, x.value, y.value);
    }
    hide Fits, GatewayEvent, Address, Faithful, SameOutsideIp, PosterIdentity, IdentifiedBy, Fingerprinted;
  }

  lemma RootsAgree(a: Json, b: Json)
    requires SameOutsideIp(a, b)
    ensures a.Obj? <==> b.Obj?
  {
    assert HeadAt(a, []) == HeadAt(b, []);
  }

  /** A fingerprint's message names the webhook and the identity, as long as webhook names hold no NUL. */
  lemma FingerprintMessageIsInjective(scope: string, source: string, scope': string, source': string)
    requires '\0' !in scope && '\0' !in scope'
    requires FingerprintMessage(scope, source) == FingerprintMessage(scope', source')
    ensures scope == scope' && source == source'
  {
    Text.CutAtFirst('\0', scope, scope', source, source');
  }
}
