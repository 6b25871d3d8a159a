/** From an upstream post to the public event. */
module Event {
  import opened Wrappers
  import opened Json
  import Upstream
  import Schema
  import Text

  datatype EventKind = ThreadCreated | PostCreated

  function KindText(k: EventKind): string {
    match k case ThreadCreated => "thread.created" case PostCreated => "post.created"
  }

  datatype PostRef = PostRef(board: string, threadId: int, id: int)

  datatype Post = Post(board: string, threadId: int, id: int, url: string, date: int, subject: Option<string>,
                       message: Option<string>, name: Option<string>, tripcode: Option<string>, capcode: Option<string>,
                       donor: Option<bool>, country: Option<string>, posterFingerprint: Option<string>,
                       origin: Option<string>, attachmentCount: nat, references: seq<PostRef>,
                       referencedBy: seq<PostRef>)

  datatype WebhookEvent = WebhookEvent(id: string, kind: EventKind, observedAt: int, post: Post)

  datatype BuiltEvent = BuiltEvent(event: WebhookEvent, payload: Schema.Bytes, posterIdentity: Option<string>)

  /** Library code that is not part of this model: reading and writing dates, JSON text, and HMAC-SHA-256 in hex. */
  datatype Libraries = Libraries(parseDate: string -> Option<int>, writeDate: int -> string,
                                 write: Json -> Schema.Bytes, read: Schema.Bytes -> Option<Json>,
                                 hmac: (string, string) -> string)

  // ---------------------------------------------------------------- the contract post

  function Clean(value: Option<string>): (r: Option<string>)
    ensures r.Some? ==> r.value != ""
  {
    var text :- value;
    if Trim(text) == "" then None else Some(Trim(text))
  }

  /** Cleaning gives the core of a text, and finds nothing exactly in absent and blank texts. */
  lemma CleanExactly(value: Option<string>, t: string)
    ensures Clean(value) == Some(t) <==> value.Some? && Core(value.value, t)
    ensures Clean(value).None? <==> value.None? || Blank(value.value)
  {
    if value.Some? { TrimExactly(value.value, t); }
  }

  function OrElse<T>(a: Option<T>, b: Option<T>): Option<T> { if a.Some? then a else b }

  function ParseI64(s: string): (r: Option<int>)
    ensures r.Some? ==> IsI64(r.value)
  {
    var negative := s != "" && s[0] == '-';
    var digits := if s != "" && (s[0] == '-' || s[0] == '+') then s[1..] else s;
    if digits == "" || !Text.AllDigits(digits) then None
    else
      var value: int := Text.Value(digits);
      var n := if negative then -value else value;
      if IsI64(n) then Some(n) else None
  }

  /** Reading back what `Decimal` writes. */
  lemma ParseDecimal(n: int)
    requires IsI64(n)
    ensures ParseI64(Text.Decimal(n)) == Some(n)
  {
    if n < 0 {
      assert Text.Decimal(n)[1..] == Text.NatText(-n);
      Text.ValueOfNatText(-n);
    } else {
      assert Text.IsDigit(Text.Decimal(n)[0]);
      Text.ValueOfNatText(n);
    }
  }

  /** One quoted post, with the quoting post's board and thread where it names none. */
  function ToPostRef(v: Json, board: string, threadId: int): Option<PostRef> {
    match v
    case Num(_) => (var id :- AsI64(v); Some(PostRef(board, threadId, id)))
    case Str(s) => (var id :- ParseI64(s); Some(PostRef(board, threadId, id)))
    case Obj(m) =>
      var idField :- OrElse(Get(m, "postId"), Get(m, "post_id"));
      var id :- AsI64(idField);
      var ownBoard := match Get(m, "board") case Some(b) => Clean(AsString(b)) case None => None;
      var ownThread := match OrElse(Get(m, "thread"), Get(m, "thread_id")) case Some(t) => AsI64(t) case None => None;
      Some(PostRef(if ownBoard.Some? then ownBoard.value else board,
                   if ownThread.Some? then ownThread.value else threadId, id))
    case _ => None
  }

  function PostRefs(vs: seq<Json>, board: string, threadId: int): seq<PostRef> {
    if vs == [] then [] else
    var rest := PostRefs(vs[1..], board, threadId);
    match ToPostRef(vs[0], board, threadId) case Some(r) => [r] + rest case None => rest
  }

  function TrimSlashes(s: string): string {
    if s != "" && s[|s| - 1] == '/' then TrimSlashes(s[..|s| - 1]) else s
  }

  function PostUrl(baseUrl: string, board: string, threadId: int, id: int): string {
    TrimSlashes(baseUrl) + "/" + board + "/thread/" + Text.Decimal(threadId) + ".html#" + Text.Decimal(id)
  }

  /** `Vec::len`: no vector has more than `isize::MAX` elements. */
  const MAX_LENGTH := 0x7FFF_FFFF_FFFF_FFFF

  function Length<T>(xs: seq<T>): (n: nat)
    ensures n <= MAX_LENGTH && (|xs| <= MAX_LENGTH ==> n == |xs|)
  {
    if |xs| <= MAX_LENGTH then |xs| else MAX_LENGTH
  }

  function ContractPost(baseUrl: string, p: Upstream.Post): Post {
    var threadId := if p.thread.Some? then p.thread.value else p.id;
    Post(p.board, threadId, p.id, PostUrl(baseUrl, p.board, threadId, p.id), p.date, Clean(p.subject),
         OrElse(Clean(p.nomarkup), Clean(p.message)), Clean(p.name), Clean(p.tripcode), Clean(p.capcode), p.donor,
         Clean(p.country), None, None, Length(p.files),
         PostRefs(p.quotes, p.board, threadId), PostRefs(p.backlinks, p.board, threadId))
  }

  // ---------------------------------------------------------------- encoding

  function TextTree(value: Option<string>): Option<Json> {
    match value case Some(s) => Some(Str(s)) case None => None
  }

  function FlagTree(value: Option<bool>): Option<Json> {
    match value case Some(b) => Some(Bool(b)) case None => None
  }

  function OriginTree(value: Option<string>): Option<Json> {
    match value
    case Some(name) => Some(Obj(map["kind" := Str("integration"), "name" := Str(name)]))
    case None => None
  }

  function RefTree(r: PostRef): Json {
    Obj(map["board" := Str(r.board), "thread_id" := Num(Integer(r.threadId)), "post_id" := Num(Integer(r.id))])
  }

  function RefsTree(rs: seq<PostRef>): Option<Json> {
    if rs == [] then None else Some(Arr(seq(|rs|, i requires 0 <= i < |rs| => RefTree(rs[i]))))
  }

  const POST_NAMES := ["board", "thread_id", "post_id", "url", "date", "subject", "message", "name", "tripcode",
                       "capcode", "donor", "country", "poster_fingerprint", "origin", "attachment_count", "references",
                       "referenced_by"]

  function PostValues(p: Post, date: string): seq<Option<Json>> {
    [Some(Str(p.board)), Some(Num(Integer(p.threadId))), Some(Num(Integer(p.id))), Some(Str(p.url)), Some(Str(date)),
     TextTree(p.subject), TextTree(p.message), TextTree(p.name), TextTree(p.tripcode), TextTree(p.capcode),
     FlagTree(p.donor), TextTree(p.country), TextTree(p.posterFingerprint), OriginTree(p.origin),
     Some(Num(Integer(p.attachmentCount))), RefsTree(p.references), RefsTree(p.referencedBy)]
  }

  /** An object of named values; absent ones are left out. */
  function Record(names: seq<string>, values: seq<Option<Json>>): map<string, Json>
    requires |values| <= |names|
  {
    if values == [] then map[]
    else
      var n := |values| - 1;
      var rest := Record(names, values[..n]);
      match values[n] case Some(v) => rest[names[n] := v] case None => rest
  }

  function PostFields(p: Post, date: string): map<string, Json> { Record(POST_NAMES, PostValues(p, date)) }

  /** What serde writes for an event. */
  function Tree(e: WebhookEvent, lib: Libraries): Json {
    Obj(map["schema_version" := Str("1"), "event_id" := Str(e.id), "kind" := Str(KindText(e.kind)),
            "source" := Str("ptchan"), "observed_at" := Str(lib.writeDate(e.observedAt)),
            "post" := Obj(PostFields(e.post, lib.writeDate(e.post.date)))])
  }

  /** Encoding, with the check of the bytes read back. */
  function Encode(e: WebhookEvent, lib: Libraries): Result<Schema.Bytes, ()> {
    var bytes := lib.write(Tree(e, lib));
    match lib.read(bytes)
    case Some(v) => if Upstream.Safe(v) then Ok(bytes) else Err(())
    case None => Err(())
  }

  predicate RefFits(r: PostRef) { IsI64(r.threadId) && IsI64(r.id) }

  /** Every number of the post is an i64. */
  predicate Fits(p: Post) {
    && IsI64(p.threadId) && IsI64(p.id) && IsI64(p.attachmentCount)
    && (forall i | 0 <= i < |p.references| :: RefFits(p.references[i]))
    && (forall i | 0 <= i < |p.referencedBy| :: RefFits(p.referencedBy[i]))
  }

  /** The JSON of an event with such numbers is read back as it was written. */
  ghost predicate Faithful(lib: Libraries) {
    forall e: WebhookEvent | Fits(e.post) :: lib.read(lib.write(Tree(e, lib))) == Some(Tree(e, lib))
  }

  predicate SafeValue(v: Option<Json>) { v.Some? ==> Upstream.Safe(v.value) }

  lemma RefsAreSafe(rs: seq<PostRef>)
    ensures SafeValue(RefsTree(rs))
  {
    forall i | 0 <= i < |rs| ensures Upstream.Safe(RefTree(rs[i])) {
      assert forall k | k in RefTree(rs[i]).fields :: !Upstream.Sensitive(k);
    }
  }

  lemma OriginIsSafe(origin: Option<string>)
    ensures SafeValue(OriginTree(origin))
  {
  }

  lemma {:induction false} SafeRecord(names: seq<string>, values: seq<Option<Json>>)
    requires |values| <= |names|
    requires forall i | 0 <= i < |names| :: !Upstream.Sensitive(names[i])
    requires forall i | 0 <= i < |values| :: SafeValue(values[i])
    ensures Upstream.Safe(Obj(Record(names, values)))
  {
    if values != [] { SafeRecord(names, values[..|values| - 1]); }
  }

  lemma PostNamesArePublic()
    ensures forall i | 0 <= i < |POST_NAMES| :: !Upstream.Sensitive(POST_NAMES[i])
  {
  }

  lemma PostValuesAreSafe(p: Post, date: string)
    ensures forall i | 0 <= i < |PostValues(p, date)| :: SafeValue(PostValues(p, date)[i])
  {
    OriginIsSafe(p.origin);
    RefsAreSafe(p.references);
    RefsAreSafe(p.referencedBy);
    hide OriginTree, RefsTree;
  }

  lemma PostIsSafe(p: Post, date: string)
    ensures Upstream.Safe(Obj(PostFields(p, date)))
  {
    PostNamesArePublic();
    PostValuesAreSafe(p, date);
    hide Upstream.Safe, Upstream.Sensitive, SafeValue;
    SafeRecord(POST_NAMES, PostValues(p, date));
  }

  lemma TreeIsSafe(e: WebhookEvent, lib: Libraries)
    ensures Upstream.Safe(Tree(e, lib))
  {
    PostIsSafe(e.post, lib.writeDate(e.post.date));
    hide PostFields;
    assert forall k | k in Tree(e, lib).fields :: !Upstream.Sensitive(k);
  }

  /** Whatever the JSON library does, bytes are passed on exactly when they read as a tree without a sensitive key. */
  lemma EncodedBytesAreChecked(e: WebhookEvent, lib: Libraries)
    ensures var bytes := lib.write(Tree(e, lib));
            match Encode(e, lib)
            case Ok(r) =>
              && r == bytes && lib.read(bytes).Some?
              && forall p, k | KeyAt(lib.read(bytes).value, p, k) :: k !in {"raw", "cloak", "session", "permissions"}
            case Err(_) =>
              lib.read(bytes).None? ||
                exists p, k :: KeyAt(lib.read(bytes).value, p, k) && k in {"raw", "cloak", "session", "permissions"}
  {
    var bytes := lib.write(Tree(e, lib));
    if lib.read(bytes).Some? { Upstream.SafeExactly(lib.read(bytes).value); }
    hide Tree, Upstream.Safe, KeyAt;
  }

  /** The check on encoded events never refuses one, whatever its texts say. */
  lemma EncodingNeverFails(e: WebhookEvent, lib: Libraries)
    requires Faithful(lib) && Fits(e.post)
    ensures Encode(e, lib) == Ok(lib.write(Tree(e, lib)))
  {
    TreeIsSafe(e, lib);
    hide Tree;
  }

  // ---------------------------------------------------------------- the event

  function EventId(kind: EventKind, board: string, id: int): string {
    "ptchan" + ":" + (KindText(kind) + ":" + (board + ":" + Text.Decimal(id)))
  }

  function GatewayEvent(baseUrl: string, v: Json, observedAt: int, lib: Libraries): Result<BuiltEvent, ()> {
    var decoded :- Upstream.Decode(v, lib.parseDate);
    var post := decoded.post;
    var kind := if post.thread.Some? then PostCreated else ThreadCreated;
    var event := WebhookEvent(EventId(kind, post.board, post.id), kind, observedAt, ContractPost(baseUrl, post));
    var payload :- Encode(event, lib);
    Ok(BuiltEvent(event, payload, decoded.posterIdentity))
  }

  /** The id of an event names its kind, board and post, whatever characters the board has. */
  lemma EventIdIsInjective(k: EventKind, board: string, id: int, k': EventKind, board': string, id': int)
    requires EventId(k, board, id) == EventId(k', board', id')
    ensures k == k' && board == board' && id == id'
  {
    Text.CutAtFirst(':', "ptchan", "ptchan", KindText(k) + ":" + (board + ":" + Text.Decimal(id)),
                    KindText(k') + ":" + (board' + ":" + Text.Decimal(id')));
    Text.CutAtFirst(':', KindText(k), KindText(k'), board + ":" + Text.Decimal(id), board' + ":" + Text.Decimal(id'));
    Text.CutAtLast(':', board, board', Text.Decimal(id), Text.Decimal(id'));
    Text.DecimalIsInjective(id, id');
  }

  // ---------------------------------------------------------------- built events fit

  lemma {:induction false} RefsFit(vs: seq<Json>, board: string, threadId: int)
    requires IsI64(threadId)
    ensures forall i | 0 <= i < |PostRefs(vs, board, threadId)| :: RefFits(PostRefs(vs, board, threadId)[i])
  {
    if vs != [] {
      RefsFit(vs[1..], board, threadId);
      hide ParseI64, Clean;
    }
  }

  lemma ContractPostFits(baseUrl: string, p: Upstream.Post)
    requires IsI64(p.id) && (p.thread.Some? ==> IsI64(p.thread.value))
    ensures Fits(ContractPost(baseUrl, p)) && ContractPost(baseUrl, p).url != ""
  {
    var threadId := if p.thread.Some? then p.thread.value else p.id;
    RefsFit(p.quotes, p.board, threadId);
    RefsFit(p.backlinks, p.board, threadId);
    hide PostRefs, Clean, RefFits;
  }

  /** Whatever upstream sends, an event built from it has numbers that fit an i64, an id and a URL. */
  lemma BuiltEventsFit(baseUrl: string, v: Json, observedAt: int, lib: Libraries)
    requires GatewayEvent(baseUrl, v, observedAt, lib).Ok?
    ensures var e := GatewayEvent(baseUrl, v, observedAt, lib).value.event;
            Fits(e.post) && e.id != "" && e.post.url != "" && e.observedAt == observedAt &&
              e.post.posterFingerprint == None
  {
    hide Upstream.PostFromValue, Upstream.DropIp, Upstream.Safe, Encode;
    ContractPostFits(baseUrl, Upstream.Decode(v, lib.parseDate).value.post);
    hide Fits, KindText;
  }
}
