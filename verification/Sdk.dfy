/** The Go SDK reading what the gateway writes: it decodes every event and thread, and accepts those its own rules
    allow. */
module Sdk {
  import opened Wrappers
  import opened Json
  import Event
  import Upstream
  import Ingest
  import Reading
  import opened Rfc3339
  import Calendar

  /** Absent texts are empty here. */
  datatype Post = Post(board: string, threadId: int, id: int, url: string, date: int, subject: string, message: string,
                       name: string, tripcode: string, capcode: string, donor: Option<bool>, country: string,
                       posterFingerprint: string, origin: Option<Origin>, attachmentCount: int,
                       references: seq<Event.PostRef>, referencedBy: seq<Event.PostRef>)

  datatype Origin = Origin(kind: string, name: string)

  datatype WebhookEvent = WebhookEvent(schemaVersion: string, id: string, kind: string, source: string,
      observedAt: int, post: Post)

  /** How Go reads a date. */
  type DateParser = string -> Option<int>

  /** Go's zero time. */
  const ZERO := Calendar.YearInstant(1)

  // ---------------------------------------------------------------- decoding

  /** A required field is there and not null. */
  predicate HasFields(m: map<string, Json>, names: seq<string>) {
    forall i | 0 <= i < |names| :: names[i] in m && !m[names[i]].Null?
  }

  function TextOr(m: map<string, Json>, k: string): Result<string, ()> {
    match Get(m, k) case None | Some(Null) => Ok("") case Some(Str(s)) => Ok(s) case _ => Err(())
  }

  function IntOr(m: map<string, Json>, k: string): Result<int, ()> {
    match Get(m, k)
    case None | Some(Null) => Ok(0)
    case Some(v) => match AsI64(v) case Some(n) => Ok(n) case None => Err(())
  }

  function DateOr(m: map<string, Json>, k: string, parse: DateParser): Result<int, ()> {
    match Get(m, k)
    case None | Some(Null) => Ok(ZERO)
    case Some(Str(s)) => (match parse(s) case Some(n) => Ok(n) case None => Err(()))
    case _ => Err(())
  }

  function FlagOr(m: map<string, Json>, k: string): Result<Option<bool>, ()> {
    match Get(m, k) case None | Some(Null) => Ok(None) case Some(Bool(b)) => Ok(Some(b)) case _ => Err(())
  }

  function OriginOr(m: map<string, Json>, k: string): Result<Option<Origin>, ()> {
    match Get(m, k)
    case None | Some(Null) => Ok(None)
    case Some(Obj(o)) =>
      var kind :- TextOr(o, "kind");
      var name :- TextOr(o, "name");
      Ok(Some(Origin(kind, name)))
    case _ => Err(())
  }

  function DecodeRef(v: Json): Result<Event.PostRef, ()> {
    match v
    case Obj(m) =>
      var board :- TextOr(m, "board");
      var threadId :- IntOr(m, "thread_id");
      var id :- IntOr(m, "post_id");
      Ok(Event.PostRef(board, threadId, id))
    case Null => Ok(Event.PostRef("", 0, 0))
    case _ => Err(())
  }

  function DecodeRefs(vs: seq<Json>): Result<seq<Event.PostRef>, ()> {
    if vs == [] then Ok([])
    else
      var first :- DecodeRef(vs[0]);
      var rest :- DecodeRefs(vs[1..]);
      Ok([first] + rest)
  }

  function RefsOr(m: map<string, Json>, k: string): Result<seq<Event.PostRef>, ()> {
    match Get(m, k) case None | Some(Null) => Ok([]) case Some(Arr(vs)) => DecodeRefs(vs) case _ => Err(())
  }

  datatype Coordinates = Coordinates(board: string, threadId: int, id: int, url: string, date: int,
      attachmentCount: int)

  function DecodeCoordinates(m: map<string, Json>, parse: DateParser): Result<Coordinates, ()> {
    var board :- TextOr(m, "board");
    var threadId :- IntOr(m, "thread_id");
    var id :- IntOr(m, "post_id");
    var url :- TextOr(m, "url");
    var date :- DateOr(m, "date", parse);
    var count :- IntOr(m, "attachment_count");
    Ok(Coordinates(board, threadId, id, url, date, count))
  }

  datatype Texts = Texts(subject: string, message: string, name: string, tripcode: string, capcode: string,
      country: string,
                         posterFingerprint: string)

  function DecodeTexts(m: map<string, Json>): Result<Texts, ()> {
    var subject :- TextOr(m, "subject");
    var message :- TextOr(m, "message");
    var name :- TextOr(m, "name");
    var tripcode :- TextOr(m, "tripcode");
    var capcode :- TextOr(m, "capcode");
    var country :- TextOr(m, "country");
    var fingerprint :- TextOr(m, "poster_fingerprint");
    Ok(Texts(subject, message, name, tripcode, capcode, country, fingerprint))
  }

  function DecodePost(v: Json, parse: DateParser): Result<Post, ()> {
    if !v.Obj? then Err(())
    else if !HasFields(v.fields, ["board", "thread_id", "post_id", "url", "date", "attachment_count"]) then Err(())
    else
      var c :- DecodeCoordinates(v.fields, parse);
      var t :- DecodeTexts(v.fields);
      var donor :- FlagOr(v.fields, "donor");
      var origin :- OriginOr(v.fields, "origin");
      var references :- RefsOr(v.fields, "references");
      var referencedBy :- RefsOr(v.fields, "referenced_by");
      Ok(Post(c.board, c.threadId, c.id, c.url, c.date, t.subject, t.message, t.name, t.tripcode, t.capcode, donor,
              t.country, t.posterFingerprint, origin, c.attachmentCount, references, referencedBy))
  }

  function DecodeEvent(v: Json, parse: DateParser): Result<WebhookEvent, ()> {
    if !v.Obj? then Err(())
    else if !HasFields(v.fields, ["schema_version", "event_id", "kind", "source", "observed_at", "post"]) then Err(())
    else
      var m := v.fields;
      var version :- TextOr(m, "schema_version");
      var id :- TextOr(m, "event_id");
      var kind :- TextOr(m, "kind");
      var source :- TextOr(m, "source");
      var observedAt :- DateOr(m, "observed_at", parse);
      var post :- (match Get(m, "post") case Some(v) => DecodePost(v, parse) case None => Err(()));
      Ok(WebhookEvent(version, id, kind, source, observedAt, post))
  }

  // ---------------------------------------------------------------- what a gateway post becomes

  function OrEmpty(s: Option<string>): string { match s case Some(t) => t case None => "" }

  function View(p: Event.Post): Post {
    Post(p.board, p.threadId, p.id, p.url, p.date, OrEmpty(p.subject), OrEmpty(p.message), OrEmpty(p.name),
         OrEmpty(p.tripcode), OrEmpty(p.capcode), p.donor, OrEmpty(p.country), OrEmpty(p.posterFingerprint),
         match p.origin case Some(name) => Some(Origin("integration", name)) case None => None,
         p.attachmentCount, p.references, p.referencedBy)
  }

  /** Of the dates the gateway writes, Go reads those of the years 0 to 9999. */
  ghost predicate DatesAgree(lib: Event.Libraries, parse: DateParser) {
    forall n :: parse(lib.writeDate(n)) == if InRange(n) then Some(n) else None
  }

  lemma {:induction false} RecordReads(names: seq<string>, values: seq<Option<Json>>, i: nat)
    requires |values| <= |names| && i < |values|
    requires forall j, k | 0 <= j < k < |names| :: names[j] != names[k]
    ensures Get(Event.Record(names, values), names[i]) == values[i]
  {
    var n := |values| - 1;
    if i < n { RecordReads(names, values[..n], i); } else { RecordLacks(names, values[..n], n); }
  }

  lemma {:induction false} RecordLacks(names: seq<string>, values: seq<Option<Json>>, i: nat)
    requires |values| <= i < |names|
    requires forall j, k | 0 <= j < k < |names| :: names[j] != names[k]
    ensures names[i] !in Event.Record(names, values)
  {
    if values != [] { RecordLacks(names, values[..|values| - 1], i); }
  }

  lemma {:induction false} RefsRead(rs: seq<Event.PostRef>)
    requires forall i | 0 <= i < |rs| :: Event.RefFits(rs[i])
    ensures DecodeRefs(seq(|rs|, i requires 0 <= i < |rs| => Event.RefTree(rs[i]))) == Ok(rs)
  {
    if rs != [] {
      var vs := seq(|rs|, i requires 0 <= i < |rs| => Event.RefTree(rs[i]));
      assert vs[0] == Event.RefTree(rs[0]) && DecodeRef(vs[0]) == Ok(rs[0]);
      var rest := rs[1..];
      assert vs[1..] == seq(|rest|, i requires 0 <= i < |rest| => Event.RefTree(rest[i]));
      RefsRead(rest);
      assert rs == [rs[0]] + rest;
    }
  }

  lemma NamesDiffer()
    ensures forall j, k | 0 <= j < k < |Event.POST_NAMES| :: Event.POST_NAMES[j] != Event.POST_NAMES[k]
  {
  }

  lemma ValuesRead(p: Event.Post, date: string)
    ensures var m, vs := Event.PostFields(p, date), Event.PostValues(p, date);
            forall i | 0 <= i < |vs| :: Get(m, Event.POST_NAMES[i]) == vs[i]
  {
    NamesDiffer();
    forall i | 0 <= i < |Event.PostValues(p, date)|
      ensures Get(Event.PostFields(p, date), Event.POST_NAMES[i]) == Event.PostValues(p, date)[i]
    {
      RecordReads(Event.POST_NAMES, Event.PostValues(p, date), i);
    }
  }

  lemma FieldsRead(p: Event.Post, date: string)
    ensures var m := Event.PostFields(p, date);
            && Get(m, "board") == Some(Str(p.board)) && Get(m, "thread_id") == Some(Num(Integer(p.threadId)))
            && Get(m, "post_id") == Some(Num(Integer(p.id))) && Get(m, "url") == Some(Str(p.url)) &&
                 Get(m, "date") == Some(Str(date))
            && Get(m, "attachment_count") == Some(Num(Integer(p.attachmentCount)))
            && Get(m, "subject") == Event.TextTree(p.subject) && Get(m, "message") == Event.TextTree(p.message)
            && Get(m, "name") == Event.TextTree(p.name) && Get(m, "tripcode") == Event.TextTree(p.tripcode)
            && Get(m, "capcode") == Event.TextTree(p.capcode) && Get(m, "donor") == Event.FlagTree(p.donor)
            && Get(m, "country") == Event.TextTree(p.country)
            && Get(m, "poster_fingerprint") == Event.TextTree(p.posterFingerprint) &&
                 Get(m, "origin") == Event.OriginTree(p.origin)
            && Get(m, "references") == Event.RefsTree(p.references) &&
                 Get(m, "referenced_by") == Event.RefsTree(p.referencedBy)
  {
    ValuesRead(p, date);
    var vs := Event.PostValues(p, date);
    hide Event.PostFields, Event.TextTree, Event.FlagTree, Event.OriginTree, Event.RefsTree, Get;
    assert |vs| == 17;
    assert forall i | 0 <= i < 17 :: Get(Event.PostFields(p, date), Event.POST_NAMES[i]) == vs[i];
    assert Event.POST_NAMES[0] == "board" && Event.POST_NAMES[1] == "thread_id" && Event.POST_NAMES[2] == "post_id";
    assert Event.POST_NAMES[3] == "url" && Event.POST_NAMES[4] == "date" && Event.POST_NAMES[5] == "subject";
    assert Event.POST_NAMES[6] == "message" && Event.POST_NAMES[7] == "name" && Event.POST_NAMES[8] == "tripcode";
    assert Event.POST_NAMES[9] == "capcode" && Event.POST_NAMES[10] == "donor" && Event.POST_NAMES[11] == "country";
    assert Event.POST_NAMES[12] == "poster_fingerprint" && Event.POST_NAMES[13] == "origin" &&
      Event.POST_NAMES[14] == "attachment_count";
    assert Event.POST_NAMES[15] == "references" && Event.POST_NAMES[16] == "referenced_by";
  }

  lemma OptionalsRead(m: map<string, Json>, k: string, text: Option<string>, flag: Option<bool>, origin: Option<string>)
    ensures Get(m, k) == Event.TextTree(text) ==> TextOr(m, k) == Ok(OrEmpty(text))
    ensures Get(m, k) == Event.FlagTree(flag) ==> FlagOr(m, k) == Ok(flag)
    ensures Get(m, k) == Event.OriginTree(origin) ==>
              OriginOr(m, k) == Ok(match origin case Some(name) => Some(Origin("integration", name)) case None => None)
  {
    if origin.Some? && Get(m, k) == Event.OriginTree(origin) {
      var o := Get(m, k).value.fields;
      assert Get(o, "kind") == Some(Str("integration")) && Get(o, "name") == Some(Str(origin.value));
    }
  }

  lemma RefListRead(m: map<string, Json>, k: string, rs: seq<Event.PostRef>)
    requires forall i | 0 <= i < |rs| :: Event.RefFits(rs[i])
    requires Get(m, k) == Event.RefsTree(rs)
    ensures RefsOr(m, k) == Ok(rs)
  {
    RefsRead(rs);
  }

  lemma CoordinatesRead(p: Event.Post, date: string, parse: DateParser)
    requires Event.Fits(p) && parse(date) == Some(p.date)
    ensures var m := Event.PostFields(p, date);
            && DecodeCoordinates(m, parse) ==
               Ok(Coordinates(p.board, p.threadId, p.id, p.url, p.date, p.attachmentCount))
            && HasFields(m, ["board", "thread_id", "post_id", "url", "date", "attachment_count"])
  {
    FieldsRead(p, date);
    hide Event.PostFields, Event.TextTree, Event.FlagTree, Event.OriginTree, Event.RefsTree;
    RequiredAreThere(Event.PostFields(p, date));
    hide HasFields;
  }

  lemma TextsRead(p: Event.Post, date: string)
    ensures DecodeTexts(Event.PostFields(p, date)) ==
            Ok(Texts(OrEmpty(p.subject), OrEmpty(p.message), OrEmpty(p.name), OrEmpty(p.tripcode), OrEmpty(p.capcode),
                     OrEmpty(p.country), OrEmpty(p.posterFingerprint)))
  {
    FieldsRead(p, date);
    hide Event.PostFields, Event.FlagTree, Event.OriginTree, Event.RefsTree;
    var m := Event.PostFields(p, date);
    forall k: string, text ensures Get(m, k) == Event.TextTree(text) ==> TextOr(m, k) == Ok(OrEmpty(text)) {
      OptionalsRead(m, k, text, None, None);
    }
    hide TextOr, Event.TextTree, OrEmpty, Get;
  }

  /** The SDK reads a post as the gateway wrote it. */
  lemma PostReads(p: Event.Post, date: string, parse: DateParser)
    requires Event.Fits(p) && parse(date) == Some(p.date)
    ensures DecodePost(Obj(Event.PostFields(p, date)), parse) == Ok(View(p))
  {
    var m := Event.PostFields(p, date);
    FieldsRead(p, date);
    RefListRead(m, "references", p.references);
    RefListRead(m, "referenced_by", p.referencedBy);
    OptionalsRead(m, "donor", None, p.donor, None);
    OptionalsRead(m, "origin", None, None, p.origin);
    CoordinatesRead(p, date, parse);
    TextsRead(p, date);
    hide Event.PostFields, FlagOr, OriginOr, RefsOr, HasFields, DecodeCoordinates, DecodeTexts, OrEmpty,
        Event.TextTree, Event.Fits, Get;
  }

  lemma RequiredAreThere(m: map<string, Json>)
    requires Get(m, "board").Some? && !Get(m, "board").value.Null? && Get(m, "thread_id").Some?
    requires !Get(m, "thread_id").value.Null?
    requires Get(m, "post_id").Some? && !Get(m, "post_id").value.Null? && Get(m, "url").Some?
    requires !Get(m, "url").value.Null?
    requires Get(m, "date").Some? && !Get(m, "date").value.Null?
    requires Get(m, "attachment_count").Some? && !Get(m, "attachment_count").value.Null?
    ensures HasFields(m, ["board", "thread_id", "post_id", "url", "date", "attachment_count"])
  {
  }

  lemma EnvelopeReads(e: Event.WebhookEvent, lib: Event.Libraries)
    ensures var m := Event.Tree(e, lib).fields;
            && Get(m, "schema_version") == Some(Str("1")) && Get(m, "event_id") == Some(Str(e.id))
            && Get(m, "kind") == Some(Str(Event.KindText(e.kind))) && Get(m, "source") == Some(Str("ptchan"))
            && Get(m, "observed_at") == Some(Str(lib.writeDate(e.observedAt)))
            && Get(m, "post") == Some(Obj(Event.PostFields(e.post, lib.writeDate(e.post.date))))
            && HasFields(m, ["schema_version", "event_id", "kind", "source", "observed_at", "post"])
  {
    hide Event.PostFields, Event.KindText;
  }

  lemma EventDecodes(e: Event.WebhookEvent, lib: Event.Libraries, parse: DateParser)
    requires Event.Fits(e.post) && parse(lib.writeDate(e.observedAt)) == Some(e.observedAt)
    requires parse(lib.writeDate(e.post.date)) == Some(e.post.date)
    ensures DecodeEvent(Event.Tree(e, lib), parse) ==
            Ok(WebhookEvent("1", e.id, Event.KindText(e.kind), "ptchan", e.observedAt, View(e.post)))
  {
    PostReads(e.post, lib.writeDate(e.post.date), parse);
    EnvelopeReads(e, lib);
    assert Event.Tree(e, lib).Obj?;
    hide Event.PostFields, DecodePost, View, Event.Tree, HasFields, Event.KindText, Event.Fits;
  }

  lemma UnreadableDate(e: Event.WebhookEvent, lib: Event.Libraries, parse: DateParser)
    requires parse(lib.writeDate(e.observedAt)).None? || parse(lib.writeDate(e.post.date)).None?
    ensures DecodeEvent(Event.Tree(e, lib), parse).Err?
  {
    EnvelopeReads(e, lib);
    FieldsRead(e.post, lib.writeDate(e.post.date));
    hide Event.PostFields, Event.Tree, HasFields, DecodeTexts, FlagOr, OriginOr, RefsOr, Event.TextTree,
        Event.RefsTree, Event.KindText;
    var m := Event.PostFields(e.post, lib.writeDate(e.post.date));
    assert DateOr(m, "date", parse).Err? ==> DecodeCoordinates(m, parse).Err?;
    assert DecodeCoordinates(m, parse).Err? ==> DecodePost(Obj(m), parse).Err?;
    hide DecodeCoordinates, DecodePost;
  }

  /** And an event, as long as its dates have four-digit years; otherwise it does not decode. */
  lemma EventReads(e: Event.WebhookEvent, lib: Event.Libraries, parse: DateParser)
    requires Event.Fits(e.post) && DatesAgree(lib, parse)
    ensures DecodeEvent(Event.Tree(e, lib), parse).Ok? <==> InRange(e.observedAt) && InRange(e.post.date)
    ensures DecodeEvent(Event.Tree(e, lib), parse).Ok? ==>
              DecodeEvent(Event.Tree(e, lib), parse).value ==
              WebhookEvent("1", e.id, Event.KindText(e.kind), "ptchan", e.observedAt, View(e.post))
  {
    hide InRange, Event.Tree, DecodeEvent, View, Event.Fits, Event.KindText;
    if InRange(e.observedAt) && InRange(e.post.date) {
      EventDecodes(e, lib, parse);
    } else {
      UnreadableDate(e, lib, parse);
    }
  }

  // ---------------------------------------------------------------- what the SDK accepts

  predicate ValidRef(r: Event.PostRef) { r.board != "" && r.threadId > 0 && r.id > 0 }

  predicate ValidPost(p: Post) {
    && p.board != "" && p.threadId > 0 && p.id > 0 && p.url != "" && p.date != ZERO && p.attachmentCount >= 0
    && (p.origin.Some? ==> p.origin.value.kind == "integration" && p.origin.value.name != "")
    && (forall i | 0 <= i < |p.references| :: ValidRef(p.references[i]))
    && (forall i | 0 <= i < |p.referencedBy| :: ValidRef(p.referencedBy[i]))
  }

  /** The check of one post, which walks all its references and stops at the first bad one. */
  method ValidatePost(p: Post) returns (ok: bool)
    ensures ok <==> ValidPost(p)
  {
    hide Calendar.YearInstant;
    if p.board == "" || p.threadId <= 0 || p.id <= 0 || p.url == "" { return false; }
    if p.date == Calendar.YearInstant(1) || p.attachmentCount < 0 { return false; }
    if p.origin.Some? && (p.origin.value.kind != "integration" || p.origin.value.name == "") { return false; }
    var refs := p.references + p.referencedBy;
    assert forall i | 0 <= i < |p.references| :: refs[i] == p.references[i];
    assert forall i | 0 <= i < |p.referencedBy| :: refs[|p.references| + i] == p.referencedBy[i];
    for i := 0 to |refs|
      invariant forall j | 0 <= j < i :: ValidRef(refs[j])
    {
      if refs[i].board == "" || refs[i].threadId <= 0 || refs[i].id <= 0 {
        assert !ValidRef(refs[i]);
        return false;
      }
    }
    return true;
  }

  /** `decodeWebhookEvent` on the body. */
  predicate Accepts(v: Json, parse: DateParser) {
    match DecodeEvent(v, parse)
    case Err(_) => false
    case Ok(e) =>
      && e.id != "" && e.kind != "" && e.source != "" && e.observedAt != ZERO && e.schemaVersion == "1" &&
           ValidPost(e.post)
  }

  /** A year of four digits, and not Go's zero time. */
  predicate ReadableDate(n: int) { InRange(n) && n != Calendar.YearInstant(1) }

  /** What the SDK asks of a post beyond what the gateway asks of upstream. */
  predicate Ordinary(p: Event.Post) {
    && p.board != "" && p.threadId > 0 && p.id > 0 && (p.origin.Some? ==> p.origin.value != "")
    && (forall r | r in p.references :: r.board != "" && r.threadId > 0 && r.id > 0)
    && (forall r | r in p.referencedBy :: r.board != "" && r.threadId > 0 && r.id > 0)
    && ReadableDate(p.date)
  }

  /** A reference is taken exactly when it is an object with a board and two positive ids. */
  lemma RefTakenExactly(v: Json, r: Event.PostRef)
    ensures DecodeRef(v) == Ok(r) && ValidRef(r) <==>
            && v.Obj? && Get(v.fields, "board") == Some(Str(r.board)) && r.board != ""
            && Get(v.fields, "thread_id") == Some(Num(Integer(r.threadId))) && IsI64(r.threadId) && r.threadId > 0
            && Get(v.fields, "post_id") == Some(Num(Integer(r.id))) && IsI64(r.id) && r.id > 0
  {
  }

  predicate Misses(m: map<string, Json>, k: string) { k !in m || m[k].Null? }

  /** Nothing is accepted that misses a field the contract requires. */
  lemma IncompleteIsRefused(v: Json, k: string, parse: DateParser)
    requires v.Obj? && Misses(v.fields, k)
    ensures k in ["schema_version", "event_id", "kind", "source", "observed_at", "post"] ==> DecodeEvent(v, parse).Err?
    ensures k in ["board", "thread_id", "post_id", "url", "date", "attachment_count"] ==> DecodePost(v, parse).Err?
  {
    hide DecodeCoordinates, DecodeTexts, FlagOr, OriginOr, RefsOr, TextOr, DateOr;
    forall names: seq<string> | k in names ensures !HasFields(v.fields, names) {}
    hide HasFields;
  }

  lemma FingerprintIsOrdinary(p: Event.Post, fingerprint: Option<string>)
    ensures Ordinary(p.(posterFingerprint := fingerprint)) <==> Ordinary(p)
    ensures Event.Fits(p.(posterFingerprint := fingerprint)) <==> Event.Fits(p)
  {
    hide ReadableDate;
  }

  lemma AcceptsMeans(v: Json, parse: DateParser)
    ensures Accepts(v, parse) <==>
            && DecodeEvent(v, parse).Ok?
            && var e := DecodeEvent(v, parse).value;
               e.id != "" && e.kind != "" && e.source != "" && e.observedAt != ZERO && e.schemaVersion == "1" &&
                 ValidPost(e.post)
  {
    hide DecodeEvent, ValidPost, Calendar.YearInstant;
  }

  lemma KindIsNamed(k: Event.EventKind)
    ensures Event.KindText(k) != ""
  {
  }

  lemma ReadableMeans(n: int)
    ensures ReadableDate(n) <==> InRange(n) && n != ZERO
  {
    hide InRange, Calendar.YearInstant;
  }

  lemma AcceptsByContent(e: Event.WebhookEvent, lib: Event.Libraries, parse: DateParser)
    requires Event.Fits(e.post) && DatesAgree(lib, parse) && e.id != "" && e.post.url != ""
    ensures Accepts(Event.Tree(e, lib), parse) <==> Ordinary(e.post) && ReadableDate(e.observedAt)
  {
    hide *;
    EventReads(e, lib, parse);
    AcceptsMeans(Event.Tree(e, lib), parse);
    KindIsNamed(e.kind);
    ReadableMeans(e.observedAt);
    OrdinaryIsValid(e.post);
  }

  /** The SDK accepts what the gateway delivers, with or without a fingerprint, exactly when the post and every post
      it refers to have a board and positive ids, its origin a name, and its dates four-digit years and not Go's zero
      time. */
  lemma AcceptsExactly(g: Ingest.Gateway, payload: seq<Json>, now: int, parse: DateParser, i: nat)
    requires Event.Faithful(g.lib) && DatesAgree(g.lib, parse)
    requires Ingest.Prepare(g, payload, now).Some? && i < |Ingest.Prepare(g, payload, now).value.deliveries|
    ensures var p := Ingest.Prepare(g, payload, now).value; var body := g.lib.read(p.deliveries[i].payload);
            body.Some? && (Accepts(body.value, parse) <==> Ordinary(p.event.post) && ReadableDate(now))
  {
    var _, fingerprint := Ingest.PreparedPayload(g, payload, now, i);
    var e := Ingest.Prepare(g, payload, now).value.event;
    var sent := e.(post := e.post.(posterFingerprint := fingerprint));
    hide *;
    FingerprintIsOrdinary(e.post, fingerprint);
    AcceptsByContent(sent, g.lib, parse);
  }

  /** A post that quotes post 0. */
  function ZeroQuote(date: string): Json {
    Obj(map["date" := Str(date), "board" := Str("i"), "postId" := Num(Integer(1)), "quotes" := Arr([Num(Integer(0))])])
  }

  lemma ZeroQuoteDecodes(date: string, parseDate: Upstream.DateParser)
    requires parseDate(date).Some?
    ensures Upstream.Decode(ZeroQuote(date), parseDate).Ok?
    ensures Upstream.Decode(ZeroQuote(date), parseDate).value.post.quotes == [Num(Integer(0))]
  {
    var v := ZeroQuote(date);
    var quotes := Arr([Num(Integer(0))]);
    assert Upstream.DropIp(quotes) == quotes by { assert Upstream.DropIp(quotes).items == quotes.items; }
    assert Upstream.DropIp(v) == v by { assert Upstream.DropIp(v).fields == v.fields; }
    assert Upstream.Safe(quotes);
    assert Upstream.Safe(v) by { assert forall k | k in v.fields :: !Upstream.Sensitive(k); }
    ZeroQuotePost(date, parseDate);
    hide Upstream.PostFromValue, Upstream.DropIp, Upstream.Safe;
  }

  lemma ZeroQuotePost(date: string, parseDate: Upstream.DateParser)
    requires parseDate(date).Some?
    ensures Upstream.PostFromValue(ZeroQuote(date), parseDate).Ok?
    ensures Upstream.PostFromValue(ZeroQuote(date), parseDate).value.quotes == [Num(Integer(0))]
  {
    var m := ZeroQuote(date).fields;
    assert Get(m, "date") == Some(Str(date)) && Get(m, "board") == Some(Str("i")) &&
      Get(m, "postId") == Some(Num(Integer(1)));
    assert Get(m, "quotes") == Some(Arr([Num(Integer(0))])) && Get(m, "name").None? && Get(m, "country").None?;
    assert Get(m, "tripcode").None? && Get(m, "capcode").None? && Get(m, "donor").None? && Get(m, "subject").None?;
    assert Get(m, "message").None? && Get(m, "nomarkup").None? && Get(m, "thread").None? && Get(m, "files").None?;
    assert Get(m, "backlinks").None?;
    hide Get;
  }

  /** The gateway builds an event from a post that quotes post 0, and the SDK refuses it, whatever else is
      configured. */
  lemma ZeroQuoteIsRefused(baseUrl: string, date: string, now: int, lib: Event.Libraries, parse: DateParser)
    requires Event.Faithful(lib) && DatesAgree(lib, parse) && lib.parseDate(date).Some?
    ensures Event.GatewayEvent(baseUrl, ZeroQuote(date), now, lib).Ok?
    ensures !Accepts(Event.Tree(Event.GatewayEvent(baseUrl, ZeroQuote(date), now, lib).value.event, lib), parse)
  {
    ZeroQuoteDecodes(date, lib.parseDate);
    hide ZeroQuote, Upstream.Decode, Event.Faithful, DatesAgree, Event.Tree, Accepts;
    var post := Upstream.Decode(ZeroQuote(date), lib.parseDate).value.post;
    QuoteIsPassedOn(baseUrl, post);
    DecodedEventIsBuilt(baseUrl, ZeroQuote(date), now, lib);
    Event.BuiltEventsFit(baseUrl, ZeroQuote(date), now, lib);
    AcceptsByContent(Event.GatewayEvent(baseUrl, ZeroQuote(date), now, lib).value.event, lib, parse);
  }

  lemma QuoteIsPassedOn(baseUrl: string, p: Upstream.Post)
    requires p.quotes == [Num(Integer(0))]
    ensures !Ordinary(Event.ContractPost(baseUrl, p))
  {
    var c := Event.ContractPost(baseUrl, p);
    assert p.quotes[1..] == [] && Event.PostRefs([], c.board, c.threadId) == [];
    assert Event.ToPostRef(p.quotes[0], c.board, c.threadId) == Some(Event.PostRef(c.board, c.threadId, 0));
    assert c.references == Event.PostRefs(p.quotes, c.board, c.threadId) == [Event.PostRef(c.board, c.threadId, 0)];
    assert !ValidRef(c.references[0]);
  }

  /** A payload that decodes becomes an event with its contract post. */
  lemma DecodedEventIsBuilt(baseUrl: string, v: Json, now: int, lib: Event.Libraries)
    requires Event.Faithful(lib) && Upstream.Decode(v, lib.parseDate).Ok?
    ensures var r := Event.GatewayEvent(baseUrl, v, now, lib);
            r.Ok? && r.value.event.post == Event.ContractPost(baseUrl, Upstream.Decode(v, lib.parseDate).value.post)
  {
    var post := Upstream.Decode(v, lib.parseDate).value.post;
    assert IsI64(post.id) && (post.thread.Some? ==> IsI64(post.thread.value)) by {
      hide Upstream.DropIp, Upstream.Safe;
    }
    hide Upstream.Decode;
    Event.ContractPostFits(baseUrl, post);
    var kind := if post.thread.Some? then Event.PostCreated else Event.ThreadCreated;
    var e := Event.WebhookEvent(Event.EventId(kind, post.board, post.id), kind, now, Event.ContractPost(baseUrl, post));
    hide Event.ContractPost, Event.EventId, Event.Fits;
    Event.EncodingNeverFails(e, lib);
    hide Event.Encode, Event.Faithful;
  }

  // ---------------------------------------------------------------- threads

  /** What the SDK asks of a thread: the coordinates it asked for, throughout, valid posts and dates in order. */
  predicate ThreadIsValid(board: string, threadId: int, posts: seq<Post>, askedBoard: string, askedId: int) {
    && board != "" && threadId > 0 && board == askedBoard && threadId == askedId
    && (forall i | 0 <= i < |posts| ::
          ValidPost(posts[i]) && posts[i].board == askedBoard && posts[i].threadId == askedId)
    && (forall i, j | 0 <= i <= j < |posts| :: posts[i].date <= posts[j].date)
  }

  /** Its check, which compares each post with the one before. */
  method ValidateThread(board: string, threadId: int, posts: seq<Post>, askedBoard: string,
      askedId: int) returns (ok: bool)
    ensures ok <==> ThreadIsValid(board, threadId, posts, askedBoard, askedId)
  {
    hide ValidPost;
    if board == "" || threadId <= 0 || board != askedBoard || threadId != askedId { return false; }
    for i := 0 to |posts|
      invariant forall j | 0 <= j < i ::
              ValidPost(posts[j]) && posts[j].board == askedBoard && posts[j].threadId == askedId
      invariant forall j, k | 0 <= j <= k < i :: posts[j].date <= posts[k].date
    {
      var valid := ValidatePost(posts[i]);
      if !valid || posts[i].board != askedBoard || posts[i].threadId != askedId { return false; }
      if i > 0 && posts[i].date < posts[i - 1].date { return false; }
    }
    return true;
  }

  /** The SDK can read the dates of the thread, and what it sees passes its check. */
  predicate AcceptsThread(t: Reading.Thread, board: string, id: int) {
    && (forall i | 0 <= i < |t.posts| :: InRange(t.posts[i].date))
    && ThreadIsValid(t.board, t.id, seq(|t.posts|, i requires 0 <= i < |t.posts| => View(t.posts[i])), board, id)
  }

  predicate Chronological(posts: seq<Event.Post>) {
    forall i, j | 0 <= i <= j < |posts| :: posts[i].date <= posts[j].date
  }

  lemma AcceptsThreadBy(t: Reading.Thread, board: string, id: int)
    ensures AcceptsThread(t, board, id) <==>
            && t.board != "" && t.id > 0 && t.board == board && t.id == id && Chronological(t.posts)
            && (forall i | 0 <= i < |t.posts| :: InRange(t.posts[i].date))
            && (forall i | 0 <= i < |t.posts| ::
                  ValidPost(View(t.posts[i])) && t.posts[i].board == board && t.posts[i].threadId == id)
  {
    hide ValidPost, InRange;
    var views := seq(|t.posts|, i requires 0 <= i < |t.posts| => View(t.posts[i]));
    assert forall i | 0 <= i < |t.posts| :: views[i] == View(t.posts[i]) && views[i].date == t.posts[i].date;
  }

  /** Later ids never carry earlier dates, and posts with one id come in order of theirs. */
  ghost predicate DatesFollowIds(posts: seq<Event.Post>) {
    && (forall p, q | p in posts && q in posts && p.id < q.id :: p.date <= q.date)
    && (forall i, j | 0 <= i <= j < |posts| && posts[i].id == posts[j].id :: posts[i].date <= posts[j].date)
  }

  lemma ChronologyById(posts: seq<Event.Post>)
    requires Reading.SortedById(posts)
    ensures Chronological(posts) <==> DatesFollowIds(posts)
  {
    if Chronological(posts) {
      forall p, q | p in posts && q in posts && p.id < q.id ensures p.date <= q.date {
        var i :| 0 <= i < |posts| && posts[i] == p;
        var j :| 0 <= j < |posts| && posts[j] == q;
        assert i < j || j <= i;
      }
    } else {
      var i, j :| 0 <= i <= j < |posts| && posts[i].date > posts[j].date;
      assert posts[i] in posts && posts[j] in posts && posts[i].id <= posts[j].id;
    }
  }

  lemma OrdinaryIsValid(p: Event.Post)
    requires p.url != ""
    ensures InRange(p.date) && ValidPost(View(p)) <==> Ordinary(p)
  {
    hide InRange;
  }

  /** The gateway orders posts by id, the SDK insists on dates: a thread read for the SDK is accepted exactly when its
      posts are ordinary, belong to the thread, and later ids never carry earlier dates. */
  lemma ThreadsAcceptedExactly(baseUrl: string, board: string, id: int, v: Json, limit: nat, lib: Event.Libraries,
                               t: Reading.Thread)
    requires board != "" && id > 0 && Reading.AllPosts(baseUrl, board, id, v, lib).Ok?
    requires Reading.IsThread(t, board, id, Reading.AllPosts(baseUrl, board, id, v, lib).value, Reading.Clamp(limit))
    ensures AcceptsThread(t, board, id) <==>
            DatesFollowIds(t.posts) && forall p | p in t.posts :: Ordinary(p) && p.board == board && p.threadId == id
  {
    hide *;
    var all := Reading.AllPosts(baseUrl, board, id, v, lib).value;
    Reading.AllPostsHaveUrls(baseUrl, board, id, v, lib);
    ThreadIsOf(t, board, id, all, Reading.Clamp(limit));
    Reading.ThreadReads(t, board, id, all, limit);
    ChronologyById(t.posts);
    AcceptsThreadBy(t, board, id);
    OrdinaryPosts(t.posts, board, id);
  }

  lemma ThreadIsOf(t: Reading.Thread, board: string, id: int, all: seq<Event.Post>, limit: nat)
    requires Reading.IsThread(t, board, id, all, limit)
    ensures t.board == board && t.id == id
  {
    hide Reading.IsStableSort;
  }

  lemma OrdinaryPosts(posts: seq<Event.Post>, board: string, id: int)
    requires forall p | p in posts :: p.url != ""
    ensures (forall p | p in posts :: Ordinary(p) && p.board == board && p.threadId == id) <==>
            && (forall i | 0 <= i < |posts| :: InRange(posts[i].date))
            && (forall i | 0 <= i < |posts| ::
                  ValidPost(View(posts[i])) && posts[i].board == board && posts[i].threadId == id)
  {
    hide *;
    forall p | p in posts ensures InRange(p.date) && ValidPost(View(p)) <==> Ordinary(p) { OrdinaryIsValid(p); }
    assert forall i | 0 <= i < |posts| :: posts[i] in posts;
  }

  // ---------------------------------------------------------------- a thread the SDK refuses

  /** A post with nothing but date and id. */
  function BarePost(date: string, id: int): map<string, Json> { map["date" := Str(date), "postId" := Num(Integer(id))] }

  /** A thread whose reply is dated before the post that opens it. */
  function EarlyReply(first: string, second: string): Json {
    Obj(BarePost(first, 1)["replies" := Arr([Obj(BarePost(second, 2))])])
  }

  /** What the reader makes of a bare post: its board, and the thread of a reply, are filled in. */
  function Filled(date: string, id: int, isReply: bool): map<string, Json> {
    var m := BarePost(date, id)["board" := Str("i")];
    if isReply then m["thread" := Num(Integer(1))] else m
  }

  lemma FilledDecodes(date: string, id: int, isReply: bool, parseDate: Upstream.DateParser)
    requires parseDate(date).Some? && IsI64(id)
    ensures Upstream.Decode(Obj(Filled(date, id, isReply)), parseDate).Ok?
    ensures var p := Upstream.Decode(Obj(Filled(date, id, isReply)), parseDate).value.post;
            && p.date == parseDate(date).value && p.id == id && p.board == "i" && p.quotes == [] && p.backlinks == []
            && p.thread == if isReply then Some(1) else None
  {
    var m := Filled(date, id, isReply);
    assert Upstream.DropIp(Obj(m)).fields == m;
    assert Upstream.Safe(Obj(m)) by { assert forall k | k in m :: !Upstream.Sensitive(k); }
    FilledPost(date, id, isReply, parseDate);
    hide Upstream.PostFromValue, Upstream.DropIp, Upstream.Safe, Filled;
  }

  lemma FilledPost(date: string, id: int, isReply: bool, parseDate: Upstream.DateParser)
    requires parseDate(date).Some? && IsI64(id)
    ensures Upstream.PostFromValue(Obj(Filled(date, id, isReply)), parseDate).Ok?
    ensures var p := Upstream.PostFromValue(Obj(Filled(date, id, isReply)), parseDate).value;
            && p.date == parseDate(date).value && p.id == id && p.board == "i" && p.quotes == [] && p.backlinks == []
            && p.thread == if isReply then Some(1) else None
  {
    var m := Filled(date, id, isReply);
    assert Get(m, "date") == Some(Str(date)) && Get(m, "board") == Some(Str("i")) &&
      Get(m, "postId") == Some(Num(Integer(id)));
    assert Get(m, "thread") == if isReply then Some(Num(Integer(1))) else None;
    assert Get(m, "name").None? && Get(m, "country").None? && Get(m, "tripcode").None? && Get(m, "capcode").None?;
    assert Get(m, "donor").None? && Get(m, "subject").None? && Get(m, "message").None? && Get(m, "nomarkup").None?;
    assert Get(m, "files").None? && Get(m, "quotes").None? && Get(m, "backlinks").None?;
    hide Get, Filled;
  }

  lemma BareContract(baseUrl: string, p: Upstream.Post)
    requires p.quotes == [] && p.backlinks == [] && p.board == "i" && p.id > 0
    requires (p.thread.Some? ==> p.thread.value > 0)
    ensures var c := Event.ContractPost(baseUrl, p);
            && c.id == p.id && c.date == p.date && c.board == "i" && (ReadableDate(c.date) ==> Ordinary(c))
            && c.threadId == if p.thread.Some? then p.thread.value else p.id
  {
    hide ReadableDate, Event.Clean, Event.PostUrl;
    var c := Event.ContractPost(baseUrl, p);
    assert c.references == [] && c.referencedBy == [];
  }

  /** The reader's post: ordinary if its date is. */
  lemma FilledReads(baseUrl: string, date: string, id: int, isReply: bool, lib: Event.Libraries)
    requires lib.parseDate(date).Some? && 0 < id && IsI64(id) && (!isReply ==> id == 1)
    ensures var r := Reading.ContractPostFromValue(baseUrl, Obj(Filled(date, id, isReply)), lib);
            && r.Ok? && r.value.id == id && r.value.date == lib.parseDate(date).value
            && (ReadableDate(r.value.date) ==> Ordinary(r.value)) && r.value.board == "i" && r.value.threadId == 1
  {
    hide Upstream.Decode, Filled, ReadableDate, Ordinary, Event.ContractPost;
    FilledDecodes(date, id, isReply, lib.parseDate);
    BareContract(baseUrl, Upstream.Decode(Obj(Filled(date, id, isReply)), lib.parseDate).value.post);
  }

  lemma ReaderFills(first: string, second: string)
    ensures var root, reply := EarlyReply(first, second).fields, BarePost(second, 2);
            && Reading.Replies(root) == [Obj(reply)]
            && Reading.Ensure(root - {"replies"}, "board", Str("i")) == Filled(first, 1, false)
            && Reading.Ensure(Reading.Ensure(reply, "board", Str("i")), "thread", Num(Integer(1))) ==
               Filled(second, 2, true)
  {
    var root := EarlyReply(first, second).fields;
    assert "replies" !in BarePost(first, 1);
    assert root - {"replies"} == BarePost(first, 1);
  }

  lemma SmallIds()
    ensures IsI64(1) && IsI64(2)
  {
  }

  lemma IsObject(first: string, second: string)
    ensures EarlyReply(first, second).Obj?
  {
  }

  lemma EarlyReplyIsRead(baseUrl: string, first: string, second: string, lib: Event.Libraries)
    returns (p: Event.Post, q: Event.Post)
    requires lib.parseDate(first).Some? && lib.parseDate(second).Some?
    ensures Reading.AllPosts(baseUrl, "i", 1, EarlyReply(first, second), lib) == Ok([p, q])
    ensures Ok(p) == Reading.ContractPostFromValue(baseUrl, Obj(Filled(first, 1, false)), lib)
    ensures Ok(q) == Reading.ContractPostFromValue(baseUrl, Obj(Filled(second, 2, true)), lib)
  {
    hide Filled, Reading.ContractPostFromValue, EarlyReply, BarePost, Reading.Ensure, Reading.Replies, Reading.AllPosts,
         Reading.ReplyPosts, Ordinary, ReadableDate, IsI64;
    SmallIds();
    IsObject(first, second);
    var root, reply := EarlyReply(first, second).fields, BarePost(second, 2);
    ReaderFills(first, second);
    FilledReads(baseUrl, first, 1, false, lib);
    FilledReads(baseUrl, second, 2, true, lib);
    p := Reading.RootPost(baseUrl, "i", root, lib).value;
    q := Reading.ReplyPost(baseUrl, "i", 1, reply, lib).value;
    OneReply(baseUrl, reply, lib);
    TwoPosts(baseUrl, "i", 1, root, p, q, lib);
  }

  lemma OneReply(baseUrl: string, reply: map<string, Json>, lib: Event.Libraries)
    requires Reading.ReplyPost(baseUrl, "i", 1, reply, lib).Ok?
    ensures Reading.ReplyPosts(baseUrl, "i", 1, [Obj(reply)], lib) ==
            Ok([Reading.ReplyPost(baseUrl, "i", 1, reply, lib).value])
  {
    hide Reading.ReplyPost;
    var replies, post := [Obj(reply)], Reading.ReplyPost(baseUrl, "i", 1, reply, lib).value;
    assert replies[..0] == [] && Reading.ReplyPosts(baseUrl, "i", 1, replies[..0], lib) == Ok([]);
    assert [] + [post] == [post];
  }

  lemma TwoPosts(baseUrl: string, board: string, id: int, root: map<string, Json>, p: Event.Post, q: Event.Post,
      lib: Event.Libraries)
    requires Reading.RootPost(baseUrl, board, root, lib) == Ok(p)
    requires Reading.ReplyPosts(baseUrl, board, id, Reading.Replies(root), lib) == Ok([q])
    ensures Reading.AllPosts(baseUrl, board, id, Obj(root), lib) == Ok([p, q])
  {
    hide Reading.RootPost, Reading.ReplyPosts, Reading.Replies;
    assert [p] + [q] == [p, q];
  }

  /** Two dates Go can read, the second before the first. */
  predicate SecondIsEarlier(first: string, second: string, lib: Event.Libraries) {
    match (lib.parseDate(first), lib.parseDate(second))
    case (Some(n), Some(m)) => m < n && ReadableDate(n) && ReadableDate(m)
    case _ => false
  }

  lemma EarlierDates(first: string, second: string, lib: Event.Libraries)
    requires SecondIsEarlier(first, second, lib)
    ensures lib.parseDate(first).Some? && lib.parseDate(second).Some?
    ensures lib.parseDate(second).value < lib.parseDate(first).value
    ensures ReadableDate(lib.parseDate(first).value) && ReadableDate(lib.parseDate(second).value)
  {
    hide ReadableDate;
  }

  /** A thread that is read, with ordinary posts, and whose answer the SDK refuses. */
  ghost predicate ReadButRefused(all: Result<seq<Event.Post>, ()>, board: string, id: int, limit: nat,
      t: Reading.Thread) {
    && all.Ok? && (forall p | p in all.value :: Ordinary(p))
    && (Reading.IsThread(t, board, id, all.value, Reading.Clamp(limit)) ==> !AcceptsThread(t, board, id))
  }

  /** The gateway reads such a thread, both posts ordinary, and whatever it answers with the SDK refuses. */
  lemma EarlyReplyIsRefused(baseUrl: string, first: string, second: string, limit: nat, lib: Event.Libraries,
      t: Reading.Thread)
    requires limit >= 2 && SecondIsEarlier(first, second, lib)
    ensures ReadButRefused(Reading.AllPosts(baseUrl, "i", 1, EarlyReply(first, second), lib), "i", 1, limit, t)
  {
    hide *;
    SmallIds();
    EarlierDates(first, second, lib);
    var p, q := EarlyReplyIsRead(baseUrl, first, second, lib);
    FilledReads(baseUrl, first, 1, false, lib);
    FilledReads(baseUrl, second, 2, true, lib);
    RefusedByDates(t, p, q, limit);
  }

  lemma RefusedByDates(t: Reading.Thread, p: Event.Post, q: Event.Post, limit: nat)
    requires p.id < q.id && p.date > q.date && Ordinary(p) && Ordinary(q) && limit >= 2
    ensures ReadButRefused(Ok([p, q]), "i", 1, limit, t)
  {
    hide Ordinary, Reading.IsThread, AcceptsThread, Chronological;
    if Reading.IsThread(t, "i", 1, [p, q], Reading.Clamp(limit)) {
      BothStay(t, p, q, limit);
      AcceptsThreadBy(t, "i", 1);
      NotChronological(p, q);
    }
  }

  lemma NotChronological(p: Event.Post, q: Event.Post)
    requires p.date > q.date
    ensures !Chronological([p, q])
  {
    assert [p, q][0].date > [p, q][1].date;
  }

  lemma BothStay(t: Reading.Thread, p: Event.Post, q: Event.Post, limit: nat)
    requires p.id < q.id && limit >= 2 && Reading.IsThread(t, "i", 1, [p, q], Reading.Clamp(limit))
    ensures t.posts == [p, q]
  {
    assert Reading.IsStableSort([p, q], [p, q]) by { hide Reading.WithId; }
    forall sorted | Reading.IsStableSort([p, q], sorted) ensures sorted == [p, q] {
      Reading.StableSortIsUnique([p, q], sorted, [p, q]);
    }
    hide Reading.IsStableSort;
  }
}
