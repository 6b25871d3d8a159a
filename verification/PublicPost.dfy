/** What a public post says, key by key of the payload it is made from. */
module PublicPost {
  import opened Wrappers
  import opened Json
  import opened Event
  import Upstream
  import Text

  // ---------------------------------------------------------------- what a post is made of

  /** The key holds text, and `t` is its core. */
  ghost predicate SaysText(m: map<string, Json>, k: string, t: string) {
    k in m && m[k].Str? && Core(m[k].text, t)
  }

  /** `r` is the core of the text under the key, and none exactly when there is no such text. */
  ghost predicate TextOf(m: map<string, Json>, k: string, r: Option<string>) {
    forall t :: r == Some(t) <==> SaysText(m, k, t)
  }

  /** The readable text where there is any, and otherwise the rendered one. */
  ghost predicate MessageOf(m: map<string, Json>, r: Option<string>) {
    if exists t :: SaysText(m, "nomarkup", t) then TextOf(m, "nomarkup", r) else TextOf(m, "message", r)
  }

  /** The country's code, in an object or as the one item of an array. */
  ghost predicate SaysCode(m: map<string, Json>, t: string) {
    && "country" in m
    && match m["country"]
       case Obj(c) => SaysText(c, "code", t)
       case Arr(xs) => xs != [] && xs[0].Str? && Core(xs[0].text, t)
       case _ => false
  }

  /** A whole number in decimal, with or without a sign. */
  predicate Denotes(s: string, n: int) {
    || (s != "" && Text.AllDigits(s) && n == Text.Value(s))
    || (|s| > 1 && s[0] == '+' && Text.AllDigits(s[1..]) && n == Text.Value(s[1..]))
    || (|s| > 1 && s[0] == '-' && Text.AllDigits(s[1..]) && n + Text.Value(s[1..]) == 0)
  }

  predicate IsId(v: Json, n: int) { v == Num(Integer(n)) && IsI64(n) }

  /** The first of the two keys that is there holds the number. */
  predicate SaysId(m: map<string, Json>, k: string, k': string, n: int) {
    if k in m then IsId(m[k], n) else k' in m && IsId(m[k'], n)
  }

  /** A quote as a number, as text, or as an object that may name another board and thread. */
  ghost predicate RefersTo(v: Json, board: string, threadId: int, r: PostRef) {
    match v
    case Num(_) => IsId(v, r.id) && r.board == board && r.threadId == threadId
    case Str(s) => Denotes(s, r.id) && IsI64(r.id) && r.board == board && r.threadId == threadId
    case Obj(m) =>
      && SaysId(m, "postId", "post_id", r.id)
      && (SaysText(m, "board", r.board) || (r.board == board && forall t :: !SaysText(m, "board", t)))
      && (SaysId(m, "thread", "thread_id", r.threadId)
          || (r.threadId == threadId && forall n :: !SaysId(m, "thread", "thread_id", n)))
    case _ => false
  }

  /** The references are those of the items that refer to a post, in their order. */
  ghost predicate RefsOf(vs: seq<Json>, board: string, threadId: int, rs: seq<PostRef>) {
    if vs == [] then rs == []
    else if exists r :: RefersTo(vs[0], board, threadId, r) then
      rs != [] && RefersTo(vs[0], board, threadId, rs[0]) && RefsOf(vs[1..], board, threadId, rs[1..])
    else RefsOf(vs[1..], board, threadId, rs)
  }

  /** A list, empty where the key is missing. */
  function ListAt(m: map<string, Json>, k: string): seq<Json> {
    if k in m && m[k].Arr? then m[k].items else []
  }

  /** The post's page: the base without its trailing slashes, the board, the thread and the post. */
  ghost predicate UrlOf(baseUrl: string, p: Post) {
    exists k: nat ::
      && BaseEnds(baseUrl, k)
      && p.url == baseUrl[..k] + "/" + p.board + "/thread/" + Text.Decimal(p.threadId) + ".html#" + Text.Decimal(p.id)
  }

  predicate BaseEnds(baseUrl: string, k: nat) {
    && k <= |baseUrl| && (forall i | k <= i < |baseUrl| :: baseUrl[i] == '/')
    && (k > 0 ==> baseUrl[k - 1] != '/')
  }

  /** Everything a post made from an object says, before it is attributed to an integration. */
  ghost predicate Says(m: map<string, Json>, baseUrl: string, parseDate: Upstream.DateParser, p: Post) {
    && "board" in m && m["board"] == Str(p.board)
    && "postId" in m && IsId(m["postId"], p.id)
    && (if "thread" in m && m["thread"] != Null then IsId(m["thread"], p.threadId) else p.threadId == p.id)
    && UrlOf(baseUrl, p)
    && "date" in m && m["date"].Str? && parseDate(m["date"].text) == Some(p.date)
    && TextOf(m, "subject", p.subject) && MessageOf(m, p.message) && TextOf(m, "name", p.name)
    && TextOf(m, "tripcode", p.tripcode) && TextOf(m, "capcode", p.capcode)
    && (forall b :: p.donor == Some(b) <==> "donor" in m && m["donor"] == Bool(b))
    && (forall t :: p.country == Some(t) <==> SaysCode(m, t))
    && p.posterFingerprint == None && p.origin == None
    && (|ListAt(m, "files")| < 0x8000_0000_0000_0000 ==> p.attachmentCount == |ListAt(m, "files")|)
    && RefsOf(ListAt(m, "quotes"), p.board, p.threadId, p.references)
    && RefsOf(ListAt(m, "backlinks"), p.board, p.threadId, p.referencedBy)
  }

  predicate TextOrNone(m: map<string, Json>, k: string) { k in m ==> m[k].Str? || m[k].Null? }

  predicate IdOrNone(m: map<string, Json>, k: string) { k in m ==> m[k].Null? || AsI64(m[k]).Some? }

  /** A country as it may come. */
  predicate CodeOrNone(v: Json) {
    match v
    case Null => true
    case Obj(c) => TextOrNone(c, "code")
    case Arr(xs) => |xs| <= 1 && (xs != [] ==> xs[0].Str? || xs[0].Null?)
    case _ => false
  }

  /** The objects that are posts. */
  predicate IsPost(m: map<string, Json>, parseDate: Upstream.DateParser) {
    && "date" in m && m["date"].Str? && parseDate(m["date"].text).Some?
    && "board" in m && m["board"].Str?
    && "postId" in m && AsI64(m["postId"]).Some? && IdOrNone(m, "thread")
    && TextOrNone(m, "name") && TextOrNone(m, "tripcode") && TextOrNone(m, "capcode") && TextOrNone(m, "subject")
    && TextOrNone(m, "message") && TextOrNone(m, "nomarkup")
    && ("donor" in m ==> m["donor"].Bool? || m["donor"].Null?)
    && ("country" in m ==> CodeOrNone(m["country"]))
    && ("files" in m ==> m["files"].Arr?) && ("quotes" in m ==> m["quotes"].Arr?)
    && ("backlinks" in m ==> m["backlinks"].Arr?)
  }

  // ---------------------------------------------------------------- which objects are posts

  lemma CodeInArray(xs: seq<Json>)
    ensures Upstream.RecordFields(Arr(xs), ["code"]) ==
            if |xs| > 1 then Err(()) else if xs == [] then Ok(map[]) else Ok(map["code" := xs[0]])
  {
    if |xs| == 1 { assert Upstream.InOrder(["code"], xs[..0]) == map[]; }
  }

  lemma CountryExactly(m: map<string, Json>)
    ensures Upstream.CountryField(m).Ok? <==> ("country" in m ==> CodeOrNone(m["country"]))
    ensures Upstream.CountryField(m).Ok? ==>
            forall t :: Clean(Upstream.CountryField(m).value) == Some(t) <==> SaysCode(m, t)
  {
    if Upstream.CountryField(m).Ok? {
      var value := Upstream.CountryField(m).value;
      forall t ensures Clean(value) == Some(t) <==> value.Some? && Core(value.value, t) { CleanExactly(value, t); }
    }
    hide Clean, Core;
    if "country" in m {
      match m["country"]
      case Obj(c) => assert Upstream.RecordFields(Obj(c), ["code"]) == Ok(c);
      case Arr(xs) => CodeInArray(xs);
      case _ =>
    }
  }

  lemma OnlyPosts(m: map<string, Json>, parseDate: Upstream.DateParser)
    requires Upstream.PostFromValue(Obj(m), parseDate).Ok?
    ensures IsPost(m, parseDate)
  {
    hide Upstream.CountryField, CodeOrNone, SaysCode, Clean, TextOrNone, IdOrNone, AsI64;
    hide Upstream.TextField, Upstream.IdField, Upstream.FlagField, Upstream.ListField;
    CountryExactly(m);
    FieldsExactly(m);
    assert Upstream.RecordFields(Obj(m), Upstream.POST_FIELDS) == Ok(m);
  }

  lemma AllPosts(m: map<string, Json>, parseDate: Upstream.DateParser)
    requires IsPost(m, parseDate)
    ensures Upstream.PostFromValue(Obj(m), parseDate).Ok?
  {
    hide Upstream.CountryField, CodeOrNone, SaysCode, Clean, TextOrNone, IdOrNone, AsI64;
    hide Upstream.TextField, Upstream.IdField, Upstream.FlagField, Upstream.ListField;
    CountryExactly(m);
    FieldsExactly(m);
    assert Upstream.RecordFields(Obj(m), Upstream.POST_FIELDS) == Ok(m);
  }

  /** An object decodes exactly when its date, board and id are there and no other key holds anything else than it may;
      keys a post does not have do not matter. */
  lemma PostsExactly(m: map<string, Json>, parseDate: Upstream.DateParser)
    ensures Upstream.PostFromValue(Obj(m), parseDate).Ok? <==> IsPost(m, parseDate)
  {
    hide *;
    if Upstream.PostFromValue(Obj(m), parseDate).Ok? {
      OnlyPosts(m, parseDate);
    } else if IsPost(m, parseDate) {
      AllPosts(m, parseDate);
    }
  }

  lemma FieldsExactly(m: map<string, Json>)
    ensures forall k :: Upstream.TextField(m, k).Ok? <==> TextOrNone(m, k)
    ensures forall k | Upstream.TextField(m, k).Ok? ::
              Upstream.TextField(m, k).value == if k in m && m[k].Str? then Some(m[k].text) else None
    ensures forall k :: Upstream.IdField(m, k).Ok? <==> IdOrNone(m, k)
    ensures forall k | Upstream.IdField(m, k).Ok? ::
              Upstream.IdField(m, k).value == if k in m then AsI64(m[k]) else None
    ensures forall k | k in m && AsI64(m[k]).Some? :: IdOrNone(m, k)
    ensures forall k | k in m && m[k].Str? :: TextOrNone(m, k)
    ensures Upstream.FlagField(m, "donor").Ok? <==> ("donor" in m ==> m["donor"].Bool? || m["donor"].Null?)
    ensures forall k :: Upstream.ListField(m, k).Ok? <==> (k in m ==> m[k].Arr?)
  {
  }

  // ---------------------------------------------------------------- the parts

  lemma FieldIsText(m: map<string, Json>, k: string)
    requires Upstream.TextField(m, k).Ok?
    ensures TextOf(m, k, Clean(Upstream.TextField(m, k).value))
  {
    var value := Upstream.TextField(m, k).value;
    forall t ensures Clean(value) == Some(t) <==> SaysText(m, k, t) { CleanExactly(value, t); }
  }

  lemma MessageIsText(m: map<string, Json>)
    requires Upstream.TextField(m, "nomarkup").Ok? && Upstream.TextField(m, "message").Ok?
    ensures MessageOf(m, OrElse(Clean(Upstream.TextField(m, "nomarkup").value),
                                Clean(Upstream.TextField(m, "message").value)))
  {
    FieldIsText(m, "nomarkup");
    FieldIsText(m, "message");
    hide Clean, SaysText, Upstream.TextField;
    var plain := Clean(Upstream.TextField(m, "nomarkup").value);
    assert plain.Some? <==> exists t :: SaysText(m, "nomarkup", t) by {
      assert plain.Some? ==> SaysText(m, "nomarkup", plain.value);
    }
  }

  lemma ParseI64Exactly(s: string, n: int)
    ensures ParseI64(s) == Some(n) <==> Denotes(s, n) && IsI64(n)
  {
    if s != "" && (s[0] == '-' || s[0] == '+') { assert !Text.IsDigit(s[0]); }
  }

  lemma RefExactly(v: Json, board: string, threadId: int, r: PostRef)
    ensures ToPostRef(v, board, threadId) == Some(r) <==> RefersTo(v, board, threadId, r)
  {
    match v
    case Str(s) =>
      ParseI64Exactly(s, r.id);
      hide ParseI64, Denotes;
    case Obj(m) => QuoteExactly(m, board, threadId, r);
    case _ =>
  }

  function FirstId(m: map<string, Json>, k: string, k': string): Option<int> {
    match OrElse(Get(m, k), Get(m, k')) case Some(v) => AsI64(v) case None => None
  }

  lemma FirstIdExactly(m: map<string, Json>, k: string, k': string)
    ensures forall n :: FirstId(m, k, k') == Some(n) <==> SaysId(m, k, k', n)
  {
  }

  lemma QuoteExactly(m: map<string, Json>, board: string, threadId: int, r: PostRef)
    ensures ToPostRef(Obj(m), board, threadId) == Some(r) <==> RefersTo(Obj(m), board, threadId, r)
  {
    var own := match Get(m, "board") case Some(b) => Clean(AsString(b)) case None => None;
    forall t ensures own == Some(t) <==> SaysText(m, "board", t) {
      CleanExactly(match Get(m, "board") case Some(b) => AsString(b) case None => None, t);
    }
    FirstIdExactly(m, "thread", "thread_id");
    FirstIdExactly(m, "postId", "post_id");
    var thread, id := FirstId(m, "thread", "thread_id"), FirstId(m, "postId", "post_id");
    assert ToPostRef(Obj(m), board, threadId) ==
      if id.None? then None
      else Some(PostRef(if own.Some? then own.value else board, if thread.Some? then thread.value else threadId,
                        id.value));
    hide Clean, Core, SaysText, SaysId, AsI64, FirstId, ToPostRef;
  }

  lemma {:induction false} RefsExactly(vs: seq<Json>, board: string, threadId: int)
    ensures RefsOf(vs, board, threadId, PostRefs(vs, board, threadId))
  {
    if vs != [] {
      RefsExactly(vs[1..], board, threadId);
      var first := ToPostRef(vs[0], board, threadId);
      forall r ensures first == Some(r) <==> RefersTo(vs[0], board, threadId, r) {
        RefExactly(vs[0], board, threadId, r);
      }
      hide ToPostRef, RefersTo;
      assert first.Some? ==> RefersTo(vs[0], board, threadId, first.value);
    }
  }

  lemma {:induction false} SlashesEnd(baseUrl: string) returns (k: nat)
    ensures BaseEnds(baseUrl, k) && TrimSlashes(baseUrl) == baseUrl[..k]
  {
    k := |baseUrl|;
    if baseUrl != "" && baseUrl[k - 1] == '/' {
      var shorter := baseUrl[..k - 1];
      var j := SlashesEnd(shorter);
      assert forall i | 0 <= i < |shorter| :: shorter[i] == baseUrl[i];
      k := j;
    }
  }

  // ---------------------------------------------------------------- the whole post

  lemma TextsAreSaid(m: map<string, Json>, baseUrl: string, parseDate: Upstream.DateParser)
    requires Upstream.PostFromValue(Obj(m), parseDate).Ok?
    ensures var p := ContractPost(baseUrl, Upstream.PostFromValue(Obj(m), parseDate).value);
            && TextOf(m, "subject", p.subject) && MessageOf(m, p.message) && TextOf(m, "name", p.name)
            && TextOf(m, "tripcode", p.tripcode) && TextOf(m, "capcode", p.capcode)
  {
    hide Clean, OrElse, TextOf, MessageOf, PostRefs, PostUrl, Upstream.TextField, Upstream.CountryField;
    FieldIsText(m, "subject");
    FieldIsText(m, "name");
    FieldIsText(m, "tripcode");
    FieldIsText(m, "capcode");
    MessageIsText(m);
  }

  lemma FlagsAreSaid(m: map<string, Json>, baseUrl: string, parseDate: Upstream.DateParser)
    requires Upstream.PostFromValue(Obj(m), parseDate).Ok?
    ensures var p := ContractPost(baseUrl, Upstream.PostFromValue(Obj(m), parseDate).value);
            && (forall b :: p.donor == Some(b) <==> "donor" in m && m["donor"] == Bool(b))
            && (forall t :: p.country == Some(t) <==> SaysCode(m, t))
  {
    hide Clean, OrElse, SaysCode, PostRefs, PostUrl, Upstream.TextField, Upstream.CountryField;
    CountryExactly(m);
  }

  lemma RefsAreSaid(m: map<string, Json>, baseUrl: string, parseDate: Upstream.DateParser)
    requires Upstream.PostFromValue(Obj(m), parseDate).Ok?
    ensures var p := ContractPost(baseUrl, Upstream.PostFromValue(Obj(m), parseDate).value);
            && (|ListAt(m, "files")| < 0x8000_0000_0000_0000 ==> p.attachmentCount == |ListAt(m, "files")|)
            && RefsOf(ListAt(m, "quotes"), p.board, p.threadId, p.references)
            && RefsOf(ListAt(m, "backlinks"), p.board, p.threadId, p.referencedBy)
  {
    var p := ContractPost(baseUrl, Upstream.PostFromValue(Obj(m), parseDate).value);
    RefsExactly(ListAt(m, "quotes"), p.board, p.threadId);
    RefsExactly(ListAt(m, "backlinks"), p.board, p.threadId);
    hide Clean, RefsOf, PostRefs, PostUrl, Upstream.TextField, Upstream.CountryField;
  }

  lemma IdsAreSaid(m: map<string, Json>, baseUrl: string, parseDate: Upstream.DateParser)
    requires Upstream.PostFromValue(Obj(m), parseDate).Ok?
    ensures var p := ContractPost(baseUrl, Upstream.PostFromValue(Obj(m), parseDate).value);
            && "board" in m && m["board"] == Str(p.board)
            && "postId" in m && IsId(m["postId"], p.id)
            && (if "thread" in m && m["thread"] != Null then IsId(m["thread"], p.threadId) else p.threadId == p.id)
            && UrlOf(baseUrl, p)
            && "date" in m && m["date"].Str? && parseDate(m["date"].text) == Some(p.date)
            && p.posterFingerprint == None && p.origin == None
  {
    var k := SlashesEnd(baseUrl);
    hide Clean, PostRefs, Upstream.CountryField, BaseEnds, TrimSlashes;
  }

  /** A post made from an object says what the object's keys say, and nothing else. */
  lemma PostSays(m: map<string, Json>, baseUrl: string, parseDate: Upstream.DateParser)
    requires Upstream.PostFromValue(Obj(m), parseDate).Ok?
    ensures Says(m, baseUrl, parseDate, ContractPost(baseUrl, Upstream.PostFromValue(Obj(m), parseDate).value))
  {
    TextsAreSaid(m, baseUrl, parseDate);
    FlagsAreSaid(m, baseUrl, parseDate);
    RefsAreSaid(m, baseUrl, parseDate);
    IdsAreSaid(m, baseUrl, parseDate);
    hide ContractPost, Upstream.PostFromValue, TextOf, MessageOf, SaysCode, RefsOf, UrlOf;
  }

  /** The objects that are taken: no sensitive key stands in them outside `ip` fields, and what is left without those
      fields is a post. */
  ghost predicate Accepted(v: Json, parseDate: Upstream.DateParser)
    requires v.Obj?
  {
    && (forall p, k | KeyAt(v, p, k) && k in {"raw", "cloak", "session", "permissions"} :: Upstream.ThroughIp(p))
    && IsPost(Upstream.DropIp(v).fields, parseDate)
  }

  /** Exactly those decode, to the post their keys describe. */
  lemma AcceptedExactly(baseUrl: string, v: Json, parseDate: Upstream.DateParser)
    requires v.Obj?
    ensures Upstream.Decode(v, parseDate).Ok? <==> Accepted(v, parseDate)
    ensures Upstream.Decode(v, parseDate).Ok? ==>
              Says(Upstream.DropIp(v).fields, baseUrl, parseDate,
                   ContractPost(baseUrl, Upstream.Decode(v, parseDate).value.post))
  {
    var m := Upstream.DropIp(v).fields;
    assert Upstream.DropIp(v) == Obj(m);
    Upstream.RedactionExactly(v);
    PostsExactly(m, parseDate);
    hide KeyAt, IsPost, Upstream.DropIp, Upstream.ThroughIp, Upstream.Safe;
    hide Says, ContractPost, Upstream.PostFromValue, Upstream.PosterIdentity;
    if Upstream.Decode(v, parseDate).Ok? { PostSays(m, baseUrl, parseDate); }
  }

  // ---------------------------------------------------------------- the event

  /** Everything an event built from an object says, before it is attributed to an integration. */
  ghost predicate Tells(v: Json, baseUrl: string, parseDate: Upstream.DateParser, now: int, e: WebhookEvent)
    requires v.Obj?
  {
    var m := Upstream.DropIp(v).fields;
    && Says(m, baseUrl, parseDate, e.post) && e.observedAt == now
    && e.kind == (if "thread" in m && m["thread"] != Null then PostCreated else ThreadCreated)
    && e.id == (if e.kind == PostCreated then "ptchan:post.created:" else "ptchan:thread.created:")
               + e.post.board + ":" + Text.Decimal(e.post.id)
  }

  lemma EventIdSpells(kind: EventKind, board: string, id: int)
    ensures EventId(kind, board, id) ==
            (if kind == PostCreated then "ptchan:post.created:" else "ptchan:thread.created:")
            + board + ":" + Text.Decimal(id)
  {
    var digits := Text.Decimal(id);
    hide Text.Decimal;
    match kind
    case PostCreated => assert "ptchan" + ":" + "post.created" + ":" == "ptchan:post.created:";
    case ThreadCreated => assert "ptchan" + ":" + "thread.created" + ":" == "ptchan:thread.created:";
  }

  lemma KindIsSaid(m: map<string, Json>, parseDate: Upstream.DateParser)
    requires Upstream.PostFromValue(Obj(m), parseDate).Ok?
    ensures Upstream.PostFromValue(Obj(m), parseDate).value.thread.Some? <==> "thread" in m && m["thread"] != Null
  {
    hide Upstream.CountryField, Upstream.TextField, Upstream.ListField, Upstream.FlagField;
  }

  /** An object is turned into an event exactly when it is accepted. The event then tells what the keys say. */
  lemma EventTells(baseUrl: string, v: Json, now: int, lib: Libraries)
    requires v.Obj? && Faithful(lib)
    ensures GatewayEvent(baseUrl, v, now, lib).Ok? <==> Accepted(v, lib.parseDate)
    ensures GatewayEvent(baseUrl, v, now, lib).Ok? ==>
              var b := GatewayEvent(baseUrl, v, now, lib).value;
              && Tells(v, baseUrl, lib.parseDate, now, b.event)
              && forall t :: b.posterIdentity == Some(t) <==> Upstream.IdentifiedBy(v, t)
  {
    hide Accepted, Says, Upstream.DropIp, Upstream.IdentifiedBy, Upstream.Safe, Upstream.PostFromValue;
    hide Upstream.PosterIdentity, Encode, Faithful, ContractPost, EventId;
    Upstream.PosterIdentityExactly(v);
    AcceptedExactly(baseUrl, v, lib.parseDate);
    if Upstream.Decode(v, lib.parseDate).Ok? {
      var p := Upstream.Decode(v, lib.parseDate).value.post;
      CleanedIsObject(v);
      KindIsSaid(Upstream.DropIp(v).fields, lib.parseDate);
      ContractPostFits(baseUrl, p);
      var kind := if p.thread.Some? then PostCreated else ThreadCreated;
      EventIdSpells(kind, p.board, p.id);
      EncodingNeverFails(WebhookEvent(EventId(kind, p.board, p.id), kind, now, ContractPost(baseUrl, p)), lib);
      PostKeeps(baseUrl, p);
    }
  }

  lemma CleanedIsObject(v: Json)
    requires v.Obj?
    ensures Upstream.DropIp(v).Obj? && Upstream.DropIp(v) == Obj(Upstream.DropIp(v).fields)
  {
  }

  lemma PostKeeps(baseUrl: string, p: Upstream.Post)
    ensures ContractPost(baseUrl, p).board == p.board && ContractPost(baseUrl, p).id == p.id
  {
  }
}
