/** The privacy boundary: what of an upstream payload is dropped, what makes it refused, and what is decoded. */
module Upstream {
  import opened Wrappers
  import opened Json
  import Text

  const IP := "ip"

  predicate Sensitive(k: string) { k == "raw" || k == "cloak" || k == "session" || k == "permissions" }

  /** The tree without anything stored under an `ip` key, at any depth. */
  function DropIp(v: Json): Json {
    match v
    case Obj(m) => Obj(map k | k in m && k != IP :: DropIp(m[k]))
    case Arr(xs) => Arr(seq(|xs|, i requires 0 <= i < |xs| => DropIp(xs[i])))
    case _ => v
  }

  /** No object anywhere in the tree has a sensitive key. */
  predicate Safe(v: Json) {
    match v
    case Obj(m) => forall k | k in m :: !Sensitive(k) && Safe(m[k])
    case Arr(xs) => forall i | 0 <= i < |xs| :: Safe(xs[i])
    case _ => true
  }

  /** `drop_ip_fields`, which removes the key and then works through the children. */
  method DropIpFields(v: Json) returns (r: Json)
    ensures r == DropIp(v)
    decreases v
  {
    match v
    case Obj(m) =>
      var fields := map k | k in m && k != IP :: m[k];
      var todo := fields.Keys;
      while todo != {}
        invariant todo <= m.Keys && fields.Keys == m.Keys - {IP} && IP !in todo
        invariant forall k | k in fields :: fields[k] == if k in todo then m[k] else DropIp(m[k])
      {
        var k :| k in todo;
        var child := DropIpFields(m[k]);
        fields := fields[k := child];
        todo := todo - {k};
      }
      assert fields == (map k | k in m && k != IP :: DropIp(m[k]));
      return Obj(fields);
    case Arr(xs) =>
      var items := xs;
      var i := 0;
      while i < |xs|
        invariant i <= |xs| == |items|
        invariant forall j | 0 <= j < |xs| :: items[j] == if j < i then DropIp(xs[j]) else xs[j]
      {
        var child := DropIpFields(xs[i]);
        items := items[i := child];
        i := i + 1;
      }
      assert items == seq(|xs|, i requires 0 <= i < |xs| => DropIp(xs[i]));
      return Arr(items);
    case _ => return v;
  }

  /** `reject_sensitive_fields`: stops at the first sensitive key it meets, in whatever order it meets them. */
  method RejectSensitiveFields(v: Json) returns (r: Result<(), string>)
    ensures r.Ok? <==> Safe(v)
    ensures r.Err? ==> Sensitive(r.error) && exists p :: KeyAt(v, p, r.error)
    decreases v
  {
    match v
    case Obj(m) =>
      var todo := m.Keys;
      while todo != {}
        invariant todo <= m.Keys
        invariant forall k | k in m && k !in todo :: !Sensitive(k) && Safe(m[k])
      {
        var k :| k in todo;
        if Sensitive(k) {
          assert KeyAt(v, [], k);
          return Err(k);
        }
        var child := RejectSensitiveFields(m[k]);
        if child.Err? {
          ghost var p :| KeyAt(m[k], p, child.error);
          KeyBelow(v, Field(k), p, child.error);
          return child;
        }
        todo := todo - {k};
      }
      return Ok(());
    case Arr(xs) =>
      var i := 0;
      while i < |xs|
        invariant i <= |xs| && forall j | 0 <= j < i :: Safe(xs[j])
      {
        var child := RejectSensitiveFields(xs[i]);
        if child.Err? {
          ghost var p :| KeyAt(xs[i], p, child.error);
          KeyBelow(v, Item(i), p, child.error);
          return child;
        }
        i := i + 1;
      }
      return Ok(());
    case _ => return Ok(());
  }

  // ---------------------------------------------------------------- exactness

  predicate ThroughIp(p: Path) { Field("ip") in p }

  /** Below an `ip` key nothing is left; elsewhere every node is left, itself cleaned. */
  lemma {:induction false} DropIpAt(v: Json, p: Path)
    ensures At(DropIp(v), p) ==
            if ThroughIp(p) then None else match At(v, p) case Some(x) => Some(DropIp(x)) case None => None
    decreases |p|
  {
    if p != [] {
      var s := p[0];
      assert p == [s] + p[1..];
      assert Child(DropIp(v), s) ==
        if s == Field(IP) then None else match Child(v, s) case Some(x) => Some(DropIp(x)) case None => None;
      if Child(v, s).Some? { DropIpAt(Child(v, s).value, p[1..]); }
    }
  }

  /** Exactly the keys outside `ip`, and not `ip` itself, survive. */
  lemma KeptKeys(v: Json, p: Path, k: string)
    ensures KeyAt(DropIp(v), p, k) <==> KeyAt(v, p, k) && k != "ip" && !ThroughIp(p)
  {
    DropIpAt(v, p);
  }

  /** Safety, path by path. */
  lemma {:induction false} SafeExactly(v: Json)
    ensures Safe(v) <==> forall p, k | KeyAt(v, p, k) :: k !in {"raw", "cloak", "session", "permissions"}
  {
    if Safe(v) {
      forall p, k | KeyAt(v, p, k) ensures !Sensitive(k) { SafeAlong(v, p, k); }
    } else {
      var p, k := UnsafeKey(v);
    }
  }

  lemma {:induction false} SafeAlong(v: Json, p: Path, k: string)
    requires Safe(v) && KeyAt(v, p, k)
    ensures !Sensitive(k)
    decreases |p|
  {
    if p != [] { SafeAlong(Child(v, p[0]).value, p[1..], k); }
  }

  lemma {:induction false} UnsafeKey(v: Json) returns (p: Path, k: string)
    requires !Safe(v)
    ensures KeyAt(v, p, k) && Sensitive(k)
  {
    match v
    case Obj(m) =>
      var f :| f in m && (Sensitive(f) || !Safe(m[f]));
      if Sensitive(f) {
        p, k := [], f;
      } else {
        p, k := UnsafeKey(m[f]);
        KeyBelow(v, Field(f), p, k);
        p := [Field(f)] + p;
      }
    case Arr(xs) =>
      var i :| 0 <= i < |xs| && !Safe(xs[i]);
      p, k := UnsafeKey(xs[i]);
      KeyBelow(v, Item(i), p, k);
      p := [Item(i)] + p;
  }

  /** The redaction stage accepts a payload exactly when every sensitive key in it lies below an `ip` key; what it
      passes on then has none of the five keys. */
  lemma RedactionExactly(v: Json)
    ensures Safe(DropIp(v)) <==>
            forall p, k | KeyAt(v, p, k) && k in {"raw", "cloak", "session", "permissions"} :: ThroughIp(p)
    ensures Safe(DropIp(v)) ==>
            forall p, k | KeyAt(DropIp(v), p, k) :: k !in {"raw", "cloak", "session", "permissions", "ip"}
  {
    SafeExactly(DropIp(v));
    forall p, k ensures KeyAt(DropIp(v), p, k) <==> KeyAt(v, p, k) && k != IP && !ThroughIp(p) { KeptKeys(v, p, k); }
    hide DropIp, Safe, KeyAt, ThroughIp;
    if forall p, k | KeyAt(v, p, k) && Sensitive(k) :: ThroughIp(p) {
      forall p, k | KeyAt(DropIp(v), p, k) ensures !Sensitive(k) {}
    }
    if Safe(DropIp(v)) {
      forall p, k | KeyAt(v, p, k) && Sensitive(k) ensures ThroughIp(p) {
        assert k != IP;
        assert KeyAt(DropIp(v), p, k) <==> !ThroughIp(p);
      }
    }
  }

  // ---------------------------------------------------------------- the same outside ip

  /** A node without its children: an object shows the keys it has besides `ip`. */
  datatype Head = Scalar(value: Json) | Items(count: nat) | Fields(keys: set<string>)

  function HeadOf(v: Json): Head {
    match v
    case Obj(m) => Fields(m.Keys - {IP})
    case Arr(xs) => Items(|xs|)
    case _ => Scalar(v)
  }

  function HeadAt(v: Json, p: Path): Option<Head> {
    match At(v, p) case Some(x) => Some(HeadOf(x)) case None => None
  }

  /** Two payloads that agree at every path that does not pass an `ip` key. */
  ghost predicate SameOutsideIp(a: Json, b: Json) {
    forall p | !ThroughIp(p) :: HeadAt(a, p) == HeadAt(b, p)
  }

  lemma HeadBelow(v: Json, s: Step, p: Path)
    requires Child(v, s).Some?
    ensures HeadAt(v, [s] + p) == HeadAt(Child(v, s).value, p)
    ensures ThroughIp([s] + p) <==> s == Field(IP) || ThroughIp(p)
  {
  }

  lemma SameBelow(a: Json, b: Json, s: Step)
    requires SameOutsideIp(a, b) && s != Field(IP) && Child(a, s).Some? && Child(b, s).Some?
    ensures SameOutsideIp(Child(a, s).value, Child(b, s).value)
  {
    forall p | !ThroughIp(p) ensures HeadAt(Child(a, s).value, p) == HeadAt(Child(b, s).value, p) {
      HeadBelow(a, s, p);
      HeadBelow(b, s, p);
    }
  }

  lemma {:induction false} SameDropsSame(a: Json, b: Json)
    requires SameOutsideIp(a, b)
    ensures DropIp(a) == DropIp(b)
  {
    assert HeadAt(a, []) == HeadAt(b, []);
    assert HeadOf(a) == HeadOf(b);
    match a
    case Obj(m) =>
      var n := b.fields;
      forall k | k in m && k != IP ensures k in n && DropIp(m[k]) == DropIp(n[k]) {
        assert k in m.Keys - {IP};
        SameBelow(a, b, Field(k));
        SameDropsSame(m[k], n[k]);
      }
      assert forall k | k in n && k != IP :: k in n.Keys - {IP};
    case Arr(xs) =>
      forall i | 0 <= i < |xs| ensures DropIp(xs[i]) == DropIp(b.items[i]) {
        SameBelow(a, b, Item(i));
        SameDropsSame(xs[i], b.items[i]);
      }
    case _ =>
  }

  lemma HeadOfDropped(v: Json)
    ensures HeadOf(DropIp(v)) == HeadOf(v)
  {
  }

  /** Dropping identifies exactly the payloads that differ only inside `ip` fields. */
  lemma DropIpForgetsExactlyIp(a: Json, b: Json)
    ensures DropIp(a) == DropIp(b) <==> SameOutsideIp(a, b)
  {
    if SameOutsideIp(a, b) { SameDropsSame(a, b); }
    if DropIp(a) == DropIp(b) {
      forall p | !ThroughIp(p) ensures HeadAt(a, p) == HeadAt(b, p) {
        DropIpAt(a, p);
        DropIpAt(b, p);
        if At(a, p).Some? && At(b, p).Some? {
          HeadOfDropped(At(a, p).value);
          HeadOfDropped(At(b, p).value);
        }
      }
    }
  }

  // ---------------------------------------------------------------- decoding a post

  /** How chrono reads a date; not part of this model. */
  type DateParser = string -> Option<int>

  /** The upstream post. Dates are instants; `country` is the code of a country object, if it has one. */
  datatype Post = Post(date: int, name: Option<string>, country: Option<string>, board: string,
      tripcode: Option<string>,
                       capcode: Option<string>, donor: Option<bool>, subject: Option<string>, message: Option<string>,
                       nomarkup: Option<string>, thread: Option<int>, id: int, files: seq<Json>, quotes: seq<Json>,
                       backlinks: seq<Json>)

  /** An optional field: absent and null are none, anything but a string is refused. */
  function TextField(m: map<string, Json>, k: string): Result<Option<string>, ()> {
    match Get(m, k)
    case None | Some(Null) => Ok(None)
    case Some(Str(s)) => Ok(Some(s))
    case _ => Err(())
  }

  function FlagField(m: map<string, Json>, k: string): Result<Option<bool>, ()> {
    match Get(m, k)
    case None | Some(Null) => Ok(None)
    case Some(Bool(b)) => Ok(Some(b))
    case _ => Err(())
  }

  function IdField(m: map<string, Json>, k: string): (r: Result<Option<int>, ()>)
    ensures r.Ok? && r.value.Some? ==> IsI64(r.value.value)
  {
    match Get(m, k)
    case None | Some(Null) => Ok(None)
    case Some(v) => match AsI64(v) case Some(n) => Ok(Some(n)) case None => Err(())
  }

  /** A list that may be absent, but not null. */
  function ListField(m: map<string, Json>, k: string): Result<seq<Json>, ()> {
    match Get(m, k)
    case None => Ok([])
    case Some(Arr(xs)) => Ok(xs)
    case _ => Err(())
  }

  function Required<T>(r: Result<Option<T>, ()>): Result<T, ()> {
    match r case Ok(Some(x)) => Ok(x) case _ => Err(())
  }

  function InOrder(names: seq<string>, xs: seq<Json>): map<string, Json>
    requires |xs| <= |names|
  {
    if xs == [] then map[]
    else
      var n := |xs| - 1;
      InOrder(names, xs[..n])[names[n] := xs[n]]
  }

  /** A record may also come as an array holding a prefix of its fields in order. */
  function RecordFields(v: Json, names: seq<string>): Result<map<string, Json>, ()> {
    match v
    case Obj(m) => Ok(m)
    case Arr(xs) => if |xs| > |names| then Err(()) else Ok(InOrder(names, xs))
    case _ => Err(())
  }

  lemma {:induction false} InOrderKeeps(names: seq<string>, xs: seq<Json>, i: nat)
    requires i < |xs| <= |names| && forall j, k | 0 <= j < k < |names| :: names[j] != names[k]
    ensures names[i] in InOrder(names, xs) && InOrder(names, xs)[names[i]] == xs[i]
  {
    if i < |xs| - 1 { InOrderKeeps(names, xs[..|xs| - 1], i); }
  }

  /** The order in which an array gives the fields of a post. */
  lemma ArrayOfFields(xs: seq<Json>, i: nat)
    requires i < |xs| <= 15
    ensures var names := ["date", "name", "country", "board", "tripcode", "capcode", "donor", "subject", "message",
                          "nomarkup", "thread", "postId", "files", "quotes", "backlinks"];
            var fields := RecordFields(Arr(xs), POST_FIELDS);
            fields.Ok? && names[i] in fields.value && fields.value[names[i]] == xs[i]
  {
    InOrderKeeps(POST_FIELDS, xs, i);
  }

  function CountryField(m: map<string, Json>): Result<Option<string>, ()> {
    match Get(m, "country")
    case None | Some(Null) => Ok(None)
    case Some(v) =>
      var fields :- RecordFields(v, ["code"]);
      TextField(fields, "code")
  }

  const POST_FIELDS := ["date", "name", "country", "board", "tripcode", "capcode", "donor", "subject", "message",
                        "nomarkup", "thread", "postId", "files", "quotes", "backlinks"]

  function PostFromValue(v: Json, parseDate: DateParser): (r: Result<Post, ()>)
    ensures r.Ok? ==> IsI64(r.value.id) && (r.value.thread.Some? ==> IsI64(r.value.thread.value))
  {
    var m :- RecordFields(v, POST_FIELDS);
    var dateText :- Required(TextField(m, "date"));
    var date :- (match parseDate(dateText) case Some(at) => Ok(at) case None => Err(()));
    var name :- TextField(m, "name");
    var country :- CountryField(m);
    var board :- Required(TextField(m, "board"));
    var tripcode :- TextField(m, "tripcode");
    var capcode :- TextField(m, "capcode");
    var donor :- FlagField(m, "donor");
    var subject :- TextField(m, "subject");
    var message :- TextField(m, "message");
    var nomarkup :- TextField(m, "nomarkup");
    var thread :- IdField(m, "thread");
    var id :- Required(IdField(m, "postId"));
    var files :- ListField(m, "files");
    var quotes :- ListField(m, "quotes");
    var backlinks :- ListField(m, "backlinks");
    Ok(Post(date, name, country, board, tripcode, capcode, donor, subject, message, nomarkup, thread, id, files, quotes,
            backlinks))
  }

  /** The trimmed `/ip/cloak` of the payload, if it is text and not blank. */
  function PosterIdentity(v: Json): Option<string> {
    var ip :- Child(v, Field(IP));
    var cloak :- Child(ip, Field("cloak"));
    var text :- AsString(cloak);
    if Trim(text) == "" then None else Some(Trim(text))
  }

  /** `t` is what is left of the text at `/ip/cloak` without its blank ends, and something is left. */
  ghost predicate IdentifiedBy(v: Json, t: string) {
    match At(v, [Field("ip"), Field("cloak")]) case Some(Str(s)) => Core(s, t) case _ => false
  }

  /** The two payloads name the same poster, or neither names one. */
  ghost predicate SameIdentity(a: Json, b: Json) { forall t :: IdentifiedBy(a, t) <==> IdentifiedBy(b, t) }

  /** Who posted is read from `/ip/cloak` alone. */
  lemma PosterIdentityExactly(v: Json)
    ensures match PosterIdentity(v) case Some(t) => IdentifiedBy(v, t) case None => forall t :: !IdentifiedBy(v, t)
    ensures forall t :: PosterIdentity(v) == Some(t) <==> IdentifiedBy(v, t)
  {
    CloakIs(v);
    match At(v, [Field("ip"), Field("cloak")])
    case Some(Str(s)) =>
      forall t ensures Core(s, t) <==> Trim(s) == t && t != "" { TrimExactly(s, t); }
      hide Core, Trim;
    case _ =>
  }

  lemma CloakIs(v: Json)
    ensures At(v, [Field("ip"), Field("cloak")]) ==
            match Child(v, Field("ip")) case Some(ip) => Child(ip, Field("cloak")) case None => None
  {
    var path := [Field("ip"), Field("cloak")];
    assert path[1..] == [Field("cloak")] && path[1..][1..] == [];
    if Child(v, path[0]).Some? {
      var ip := Child(v, path[0]).value;
      assert At(ip, [Field("cloak")]) == match Child(ip, Field("cloak")) case Some(c) => At(c, []) case None => None;
    }
  }

  datatype DecodedPost = DecodedPost(post: Post, posterIdentity: Option<string>)

  /** `DecodedPost::try_from` on the whole payload. */
  function Decode(v: Json, parseDate: DateParser): Result<DecodedPost, ()> {
    var clean := DropIp(v);
    if !Safe(clean) then Err(())
    else
      var post :- PostFromValue(clean, parseDate);
      Ok(DecodedPost(post, PosterIdentity(v)))
  }

  /** The same in the order the gateway does it: what is refused is a sensitive key outside `ip`, or a cleaned payload
      that is no post, and the identity is the one the payload came with. */
  method TryFrom(v: Json, parseDate: DateParser) returns (r: Result<DecodedPost, ()>)
    ensures r == Decode(v, parseDate)
    ensures r.Ok? <==>
            && (forall p, k | KeyAt(v, p, k) && k in {"raw", "cloak", "session", "permissions"} :: ThroughIp(p))
            && PostFromValue(DropIp(v), parseDate).Ok?
    ensures r.Ok? ==> forall t :: r.value.posterIdentity == Some(t) <==> IdentifiedBy(v, t)
  {
    RedactionExactly(v);
    PosterIdentityExactly(v);
    hide DropIp, Safe, PostFromValue, PosterIdentity, KeyAt, ThroughIp, IdentifiedBy;
    var identity := PosterIdentity(v);
    var clean := DropIpFields(v);
    var safe := RejectSensitiveFields(clean);
    if safe.Err? { return Err(()); }
    var post := PostFromValue(clean, parseDate);
    if post.Err? { return Err(post.error); }
    return Ok(DecodedPost(post.value, identity));
  }

  /** Whether a payload decodes, and to which post, does not depend on what its `ip` fields hold. */
  lemma DecodeIgnoresIp(a: Json, b: Json, parseDate: DateParser)
    requires SameOutsideIp(a, b)
    ensures Decode(a, parseDate).Ok? <==> Decode(b, parseDate).Ok?
    ensures Decode(a, parseDate).Ok? ==> Decode(a, parseDate).value.post == Decode(b, parseDate).value.post
    ensures SameIdentity(a, b) ==> Decode(a, parseDate) == Decode(b, parseDate)
  {
    DropIpForgetsExactlyIp(a, b);
    PosterIdentityExactly(a);
    PosterIdentityExactly(b);
    hide PosterIdentity, IdentifiedBy, DropIp, Safe, PostFromValue;
  }
}
