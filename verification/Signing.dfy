/** Signed messages: the Go SDK that builds them and the gateway that checks them, and the other way round for
    webhooks. Text stands for its UTF-8 bytes here, one character for each byte. */
module Signing {
  import opened Wrappers
  import opened Text
  import opened Rfc3339
  import Calendar

  /** HMAC-SHA-256 of a message under a secret. */
  type Hmac = (string, string) -> string

  predicate IsBytes(s: string) { forall i | 0 <= i < |s| :: s[i] as int < 256 }

  // ---------------------------------------------------------------- hexadecimal

  function HexDigit(d: nat, upper: bool): (c: char)
    requires d < 16
  {
    if d < 10 then ('0' as int + d) as char else ((if upper then 'A' else 'a') as int + d - 10) as char
  }

  /** Both cases are read. */
  function FromHex(c: char): (r: Option<nat>)
    ensures r.Some? ==> r.value < 16
  {
    if '0' <= c <= '9' then Some(c as int - '0' as int)
    else if 'a' <= c <= 'f' then Some(c as int - 'a' as int + 10)
    else if 'A' <= c <= 'F' then Some(c as int - 'A' as int + 10)
    else None
  }

  function HexPair(c: char, upper: bool): string
    requires c as int < 256
  {
    [HexDigit(c as int / 16, upper), HexDigit(c as int % 16, upper)]
  }

  function ReadPair(a: char, b: char): Option<char> {
    var hi :- FromHex(a);
    var lo :- FromHex(b);
    Some((hi * 16 + lo) as char)
  }

  lemma PairIsRead(c: char, upper: bool)
    requires c as int < 256
    ensures ReadPair(HexPair(c, upper)[0], HexPair(c, upper)[1]) == Some(c)
  {
  }

  function HexEncode(s: string): string
    requires IsBytes(s)
  {
    if s == "" then "" else HexPair(s[0], false) + HexEncode(s[1..])
  }

  function HexDecode(s: string): Option<string> {
    if s == "" then Some("")
    else if |s| == 1 then None
    else
      var first :- ReadPair(s[0], s[1]);
      var rest :- HexDecode(s[2..]);
      Some([first] + rest)
  }

  lemma {:induction false} HexRoundTrip(s: string)
    requires IsBytes(s)
    ensures HexDecode(HexEncode(s)) == Some(s)
  {
    if s != "" {
      PairIsRead(s[0], false);
      var p := HexPair(s[0], false);
      assert |p| == 2;
      hide HexPair, ReadPair;
      HexRoundTrip(s[1..]);
      assert HexEncode(s) == p + HexEncode(s[1..]);
      assert HexEncode(s)[2..] == HexEncode(s[1..]);
      assert s == [s[0]] + s[1..];
    }
  }

  /** Two digits for each byte, in lower case. */
  lemma {:induction false} HexIsLower(s: string)
    requires IsBytes(s)
    ensures |HexEncode(s)| == 2 * |s| && forall c | c in HexEncode(s) :: '0' <= c <= '9' || 'a' <= c <= 'f'
  {
    if s != "" { HexIsLower(s[1..]); }
  }

  // ---------------------------------------------------------------- percent-encoding of a path segment

  /** What Go leaves as it is in a path segment. */
  predicate Plain(c: char) {
    || 'a' <= c <= 'z' || 'A' <= c <= 'Z' || IsDigit(c)
    || c in {'-', '_', '.', '~', '$', '&', '+', ':', '=', '@'}
  }

  function Escape(s: string): string
    requires IsBytes(s)
  {
    if s == "" then "" else (if Plain(s[0]) then [s[0]] else ['%'] + HexPair(s[0], true)) + Escape(s[1..])
  }

  /** Which bytes stay, by their codes; the others become a percent sign and two digits. */
  lemma EscapedByte(c: char)
    requires c as int < 256
    ensures var n := c as int;
            if 48 <= n <= 58 || 64 <= n <= 90 || 97 <= n <= 122 || n in {36, 38, 43, 45, 46, 61, 95, 126}
            then Escape([c]) == [c]
            else |Escape([c])| == 3 && Escape([c])[0] == '%' && ReadPair(Escape([c])[1], Escape([c])[2]) == Some(c)
  {
    PairIsRead(c, true);
    assert [c][1..] == "" && Escape([c]) == if Plain(c) then [c] else ['%'] + HexPair(c, true);
    hide ReadPair;
  }

  /** The gateway's decoding of the segment. */
  function Unescape(s: string): Option<string> {
    if s == "" then Some("")
    else if s[0] != '%' then
      var rest :- Unescape(s[1..]);
      Some([s[0]] + rest)
    else if |s| < 3 then None
    else
      var first :- ReadPair(s[1], s[2]);
      var rest :- Unescape(s[3..]);
      Some([first] + rest)
  }

  /** The gateway sees the board the SDK was given, whatever bytes it has. */
  lemma {:induction false} SegmentRoundTrip(s: string)
    requires IsBytes(s)
    ensures Unescape(Escape(s)) == Some(s) && '/' !in Escape(s)
  {
    if s != "" {
      SegmentRoundTrip(s[1..]);
      PairIsRead(s[0], true);
      var e := Escape(s);
      assert s == [s[0]] + s[1..];
      if Plain(s[0]) {
        assert e[1..] == Escape(s[1..]);
      } else {
        assert e[3..] == Escape(s[1..]);
        assert '/' !in HexPair(s[0], true);
      }
    }
  }

  // ---------------------------------------------------------------- requests of the SDK

  const PREFIX := "/integration/v1/threads/"

  datatype Call =
    | ReadThread(board: string, id: int, limit: int)
    | PostReply(board: string, id: int, body: string)

  /** What the SDK checks before it sends. */
  predicate Sendable(c: Call) { IsBytes(c.board) && c.id > 0 }

  function Path(board: string, id: int): string
    requires IsBytes(board)
  {
    PREFIX + (Escape(board) + "/" + Decimal(id))
  }

  function Query(limit: int): string { if limit > 0 then "?limit=" + Decimal(limit) else "" }

  /** The HTTP request as it goes out: `body` is what is sent, empty for reads. */
  datatype HttpRequest = HttpRequest(verb: string, target: string, body: string, timestamp: string, signature: string)

  /** The message of the SDK: no body part at all without a body. */
  function ClientMessage(timestamp: string, verb: string, path: string, body: Option<string>): string {
    timestamp + "." + (verb + "." + (path + match body case Some(b) => "." + b case None => ""))
  }

  function ClientSignature(hmac: Hmac, secret: string, timestamp: string, verb: string, path: string,
      body: Option<string>): string
    requires IsBytes(hmac(secret, ClientMessage(timestamp, verb, path, body)))
  {
    "hmac-sha256=" + HexEncode(hmac(secret, ClientMessage(timestamp, verb, path, body)))
  }

  function Method(c: Call): string { if c.ReadThread? then "GET" else "POST" }

  function Target(c: Call): string
    requires Sendable(c)
  {
    match c
    case ReadThread(board, id, limit) => Path(board, id) + Query(limit)
    case PostReply(board, id, _) => Path(board, id) + "/replies"
  }

  function Body(c: Call): Option<string> { if c.PostReply? then Some(c.body) else None }

  function CallMessage(c: Call, timestamp: string): string
    requires Sendable(c)
  {
    ClientMessage(timestamp, Method(c), Target(c), Body(c))
  }

  lemma {:induction false} PlainStays(s: string)
    requires forall c | c in s :: IsDigit(c) || 'a' <= c <= 'z' || 'A' <= c <= 'Z' || c == '_'
    ensures IsBytes(s) && Escape(s) == s
  {
    assert forall i | 0 <= i < |s| :: s[i] in s;
    if s != "" {
      assert forall c | c in s[1..] :: c in s;
      PlainStays(s[1..]);
      assert s == [s[0]] + s[1..];
    }
  }

  /** The request line of a call on a board whose name is valid. */
  lemma RequestLine(c: Call)
    requires c.id > 0 && forall d | d in c.board :: IsDigit(d) || 'a' <= d <= 'z' || 'A' <= d <= 'Z' || d == '_'
    ensures Sendable(c) && Method(c) == (if c.ReadThread? then "GET" else "POST")
    ensures Target(c) ==
            "/integration/v1/threads/" + c.board + "/" + Decimal(c.id) +
            match c
            case ReadThread(_, _, limit) => (if limit > 0 then "?limit=" + Decimal(limit) else "")
            case PostReply(_, _, _) => "/replies"
  {
    PlainStays(c.board);
    hide Escape, Decimal;
    assert PREFIX + (c.board + "/" + Decimal(c.id)) == "/integration/v1/threads/" + c.board + "/" + Decimal(c.id);
  }

  /** HMACs are bytes. */
  ghost predicate DigestIsBytes(hmac: Hmac) { forall secret, message :: IsBytes(hmac(secret, message)) }

  function Build(c: Call, hmac: Hmac, secret: string, timestamp: string): HttpRequest
    requires Sendable(c) && IsBytes(hmac(secret, CallMessage(c, timestamp)))
  {
    HttpRequest(Method(c), Target(c), match Body(c) case Some(b) => b case None => "", timestamp,
                ClientSignature(hmac, secret, timestamp, Method(c), Target(c), Body(c)))
  }

  // ---------------------------------------------------------------- the gateway's check

  function StripPrefix(s: string, prefix: string): Option<string> {
    if |prefix| <= |s| && s[..|prefix|] == prefix then Some(s[|prefix|..]) else None
  }

  /** The hasher of `verify_request_signature`, fed piece by piece. */
  method ServerMessage(timestamp: string, verb: string, target: string, body: Option<string>) returns (fed: string)
    ensures fed == ClientMessage(timestamp, verb, target, body)
  {
    fed := timestamp;
    fed := fed + ".";
    fed := fed + verb;
    fed := fed + ".";
    fed := fed + target;
    if body.Some? {
      fed := fed + ".";
      fed := fed + body.value;
    }
    assert fed == ClientMessage(timestamp, verb, target, body);
  }

  predicate SignatureMatches(hmac: Hmac, secret: string, message: string, signature: string) {
    match StripPrefix(signature, "hmac-sha256=")
    case None => false
    case Some(hex) => HexDecode(hex) == Some(hmac(secret, message))
  }

  /** The reading route leaves the body out, the posting route always has it in. */
  predicate ServerAccepts(r: HttpRequest, posting: bool, hmac: Hmac, secret: string) {
    SignatureMatches(hmac, secret, ClientMessage(r.timestamp, r.verb, r.target, if posting then Some(r.body) else None),
                     r.signature)
  }

  lemma SignatureIsAccepted(hmac: Hmac, secret: string, message: string, digest: string)
    requires IsBytes(digest)
    ensures SignatureMatches(hmac, secret, message, "hmac-sha256=" + HexEncode(digest)) <==>
            digest == hmac(secret, message)
  {
    var prefix := "hmac-sha256=";
    HexRoundTrip(digest);
    assert (prefix + HexEncode(digest))[..|prefix|] == prefix &&
      (prefix + HexEncode(digest))[|prefix|..] == HexEncode(digest);
  }

  /** A request of the SDK carries the digest of another one's message: it is accepted exactly when the digests of the
      two messages agree, in particular when it carries its own. */
  lemma SigningAgreement(c: Call, timestamp: string, c': Call, timestamp': string, hmac: Hmac, secret: string)
    requires Sendable(c) && Sendable(c') && DigestIsBytes(hmac)
    ensures ServerAccepts(Build(c, hmac, secret, timestamp), c.PostReply?, hmac, secret)
    ensures var own, other := Build(c, hmac, secret, timestamp), Build(c', hmac, secret, timestamp');
            ServerAccepts(own.(signature := other.signature), c.PostReply?, hmac, secret)
            <==> hmac(secret, CallMessage(c, timestamp)) == hmac(secret, CallMessage(c', timestamp'))
  {
    SignatureIsAccepted(hmac, secret, CallMessage(c, timestamp), hmac(secret, CallMessage(c, timestamp)));
    SignatureIsAccepted(hmac, secret, CallMessage(c, timestamp), hmac(secret, CallMessage(c', timestamp')));
    hide SignatureMatches, HexEncode, Target, ClientMessage;
  }

  // ---------------------------------------------------------------- what a message determines

  /** Calls that ask for the same: a limit that is not positive is no limit. */
  function Normal(c: Call): Call {
    if c.ReadThread? && c.limit <= 0 then c.(limit := 0) else c
  }

  lemma SamePrefix(p: string, s: string, t: string)
    requires p + s == p + t
    ensures s == t
  {
    assert (p + s)[|p|..] == s && (p + t)[|p|..] == t;
  }

  lemma PathsCut(board: string, rest: string, board': string, rest': string)
    requires IsBytes(board) && IsBytes(board')
    requires PREFIX + (Escape(board) + "/" + rest) == PREFIX + (Escape(board') + "/" + rest')
    ensures board == board' && rest == rest'
  {
    SamePrefix(PREFIX, Escape(board) + "/" + rest, Escape(board') + "/" + rest');
    SegmentRoundTrip(board);
    SegmentRoundTrip(board');
    CutAtFirst('/', Escape(board), Escape(board'), rest, rest');
  }

  lemma QueryIsSeen(digits: string, limit: int)
    requires AllDigits(digits)
    ensures '?' in digits + Query(limit) <==> limit > 0
    ensures limit > 0 ==> digits + Query(limit) == digits + "?" + ("limit=" + Decimal(limit))
    ensures limit <= 0 ==> digits + Query(limit) == digits
  {
  }

  lemma QueriesCut(id: int, limit: int, id': int, limit': int)
    requires id > 0 && id' > 0 && Decimal(id) + Query(limit) == Decimal(id') + Query(limit')
    ensures id == id' && (limit == limit' || (limit <= 0 && limit' <= 0))
  {
    var d, d' := Decimal(id), Decimal(id');
    assert AllDigits(d) && AllDigits(d');
    hide Decimal, Query;
    QueryIsSeen(d, limit);
    QueryIsSeen(d', limit');
    if limit > 0 {
      LimitsCut(d, limit, d', limit');
    }
    DecimalIsInjective(id, id');
  }

  lemma LimitsCut(d: string, limit: int, d': string, limit': int)
    requires AllDigits(d) && AllDigits(d')
    requires d + "?" + ("limit=" + Decimal(limit)) == d' + "?" + ("limit=" + Decimal(limit'))
    ensures d == d' && limit == limit'
  {
    hide Decimal;
    CutAtFirst('?', d, d', "limit=" + Decimal(limit), "limit=" + Decimal(limit'));
    SamePrefix("limit=", Decimal(limit), Decimal(limit'));
    DecimalIsInjective(limit, limit');
  }

  /** The part of a message after the method. */
  function Tail(c: Call): string
    requires Sendable(c)
  {
    Target(c) + match Body(c) case Some(b) => "." + b case None => ""
  }

  lemma TailOf(c: Call)
    requires Sendable(c)
    ensures Tail(c) == PREFIX + (Escape(c.board) + "/" +
                       if c.ReadThread? then Decimal(c.id) + Query(c.limit)
                       else Decimal(c.id) + "/" + ("replies." + c.body))
  {
    hide Escape, Decimal, Query, PREFIX;
    var e, d := Escape(c.board) + "/", Decimal(c.id);
    assert Path(c.board, c.id) == PREFIX + (e + d);
    if c.ReadThread? {
      Regroup(PREFIX, e, d, Query(c.limit));
      NoTail(PREFIX + (e + d) + Query(c.limit));
    } else {
      ReplyTail(PREFIX + (e + d), c.body);
      Regroup(PREFIX, e, d, "/" + ("replies." + c.body));
      Regroup("", d, "/", "replies." + c.body);
      NoTail(d + "/" + ("replies." + c.body));
    }
  }

  lemma NoTail(s: string)
    ensures s + "" == s && "" + s == s
  {
  }

  lemma ReplyTail(path: string, body: string)
    ensures path + "/replies" + ("." + body) == path + ("/" + ("replies." + body))
  {
  }

  lemma Regroup(a: string, b: string, c: string, d: string)
    ensures a + (b + c) + d == a + (b + (c + d))
  {
  }

  lemma TailDetermines(c: Call, c': Call)
    requires Sendable(c) && Sendable(c') && c.ReadThread? == c'.ReadThread? && Tail(c) == Tail(c')
    ensures Normal(c) == Normal(c')
  {
    TailOf(c);
    TailOf(c');
    hide Tail, Escape, Query, Decimal;
    if c.ReadThread? {
      PathsCut(c.board, Decimal(c.id) + Query(c.limit), c'.board, Decimal(c'.id) + Query(c'.limit));
      QueriesCut(c.id, c.limit, c'.id, c'.limit);
    } else {
      var r, r' := "replies." + c.body, "replies." + c'.body;
      PathsCut(c.board, Decimal(c.id) + "/" + r, c'.board, Decimal(c'.id) + "/" + r');
      CutAtFirst('/', Decimal(c.id), Decimal(c'.id), r, r');
      SamePrefix("replies.", c.body, c'.body);
      DecimalIsInjective(c.id, c'.id);
    }
  }

  /** The signed bytes say everything: timestamp, method, target, and whether there is a body and which. Go prints
      timestamps in whole seconds, without a dot. */
  lemma MessageDetermines(c: Call, timestamp: string, c': Call, timestamp': string)
    requires Sendable(c) && Sendable(c') && '.' !in timestamp && '.' !in timestamp'
    ensures CallMessage(c, timestamp) == CallMessage(c', timestamp') <==>
            timestamp == timestamp' && Normal(c) == Normal(c')
    ensures Normal(c) == Normal(c') ==> Method(c) == Method(c') && Target(c) == Target(c') && Body(c) == Body(c')
  {
    assert CallMessage(c, timestamp) == timestamp + "." + (Method(c) + "." + Tail(c));
    assert CallMessage(c', timestamp') == timestamp' + "." + (Method(c') + "." + Tail(c'));
    if CallMessage(c, timestamp) == CallMessage(c', timestamp') {
      CutAtFirst('.', timestamp, timestamp', Method(c) + "." + Tail(c), Method(c') + "." + Tail(c'));
      CutAtFirst('.', Method(c), Method(c'), Tail(c), Tail(c'));
      assert Method(c)[0] == 'G' <==> c.ReadThread?;
      assert Method(c')[0] == 'G' <==> c'.ReadThread?;
      TailDetermines(c, c');
    }
  }

  // ---------------------------------------------------------------- webhooks

  function WebhookMessage(timestamp: string, payload: string): string { timestamp + "." + payload }

  /** The gateway's header for a delivery. */
  function WebhookSignature(hmac: Hmac, secret: string, timestamp: string, payload: string): string
    requires IsBytes(hmac(secret, WebhookMessage(timestamp, payload)))
  {
    "hmac-sha256=" + HexEncode(hmac(secret, WebhookMessage(timestamp, payload)))
  }

  /** Go's `validSignature`: both sides are decoded and compared as bytes. */
  predicate ValidSignature(got: string, want: string) {
    match StripPrefix(got, "hmac-sha256=")
    case None => false
    case Some(gotHex) =>
      var wantHex := match StripPrefix(want, "hmac-sha256=") case Some(h) => h case None => want;
      HexDecode(gotHex).Some? && HexDecode(wantHex).Some? && HexDecode(gotHex) == HexDecode(wantHex)
  }

  /** The receiver accepts a header exactly when it decodes to the digest of what was sent, in particular the
      gateway's own header. */
  lemma WebhookAgreement(hmac: Hmac, secret: string, timestamp: string, payload: string, header: string)
    requires DigestIsBytes(hmac)
    ensures var want := WebhookSignature(hmac, secret, timestamp, payload);
            && (ValidSignature(header, want) <==>
                  SignatureMatches(hmac, secret, WebhookMessage(timestamp, payload), header))
            && ValidSignature(want, want)
  {
    var message, prefix := WebhookMessage(timestamp, payload), "hmac-sha256=";
    var digest := hmac(secret, message);
    HexRoundTrip(digest);
    var want := WebhookSignature(hmac, secret, timestamp, payload);
    assert want[..|prefix|] == prefix && want[|prefix|..] == HexEncode(digest);
    hide HexEncode, HexDecode;
  }

  predicate Sober(s: string) { '{' !in s && '/' !in s }

  lemma SoberField(v: nat, w: nat, sep: string, rest: string)
    requires Sober(sep) && Sober(rest)
    ensures Sober(Field(v, w, sep, rest))
  {
  }

  lemma SoberFraction(nano: nat)
    requires nano < Calendar.SECOND
    ensures Sober(Fraction(nano) + OFFSET)
  {
  }

  /** The gateway's timestamps hold neither a brace nor a slash. */
  lemma TimestampsAreSober(n: int)
    requires InRange(n)
    ensures Sober(Render(n))
  {
    RangeIsFourDigitYears(n);
    var c := Calendar.ToCivil(n);
    hide Calendar.ToCivil, Calendar.YearInstant, Fraction;
    SoberFraction(c.nano);
    var s := Fraction(c.nano) + OFFSET;
    SoberField(c.second, 2, "", s);
    SoberField(c.minute, 2, ":", Field(c.second, 2, "", s));
    SoberField(c.hour, 2, ":", Field(c.minute, 2, ":", Field(c.second, 2, "", s)));
    SoberField(c.day, 2, "T", Field(c.hour, 2, ":", Field(c.minute, 2, ":", Field(c.second, 2, "", s))));
    SoberField(c.month, 2, "-",
               Field(c.day, 2, "T", Field(c.hour, 2, ":", Field(c.minute, 2, ":", Field(c.second, 2, "", s)))));
    SoberField(c.year, 4, "-", AfterYear(c));
  }

  lemma BraceCut(t: string, payload: string, t': string, payload': string)
    requires Sober(t) && Sober(t') && payload != "" && payload[0] == '{' && payload' != "" && payload'[0] == '{'
    requires WebhookMessage(t, payload) == WebhookMessage(t', payload')
    ensures t == t' && payload == payload'
  {
    var a, b := t + ".", t' + ".";
    assert payload == "{" + payload[1..] && payload' == "{" + payload'[1..];
    assert a + payload == a + "{" + payload[1..] && b + payload' == b + "{" + payload'[1..];
    CutAtFirst('{', a, b, payload[1..], payload'[1..]);
    assert t == a[..|a| - 1] && t' == b[..|b| - 1];
  }

  /** A webhook message determines timestamp and payload, though timestamps may hold dots: payloads are JSON objects. */
  lemma WebhookMessageDetermines(n: int, payload: string, n': int, payload': string)
    requires InRange(n) && InRange(n') && payload != "" && payload[0] == '{' && payload' != "" && payload'[0] == '{'
    requires WebhookMessage(Render(n), payload) == WebhookMessage(Render(n'), payload')
    ensures n == n' && payload == payload'
  {
    hide *;
    TimestampsAreSober(n);
    TimestampsAreSober(n');
    ParseRender(n);
    ParseRender(n');
    BraceCut(Render(n), payload, Render(n'), payload');
  }

  lemma SlashBeforeBrace(t: string, payload: string, timestamp: string, verb: string, target: string,
      body: Option<string>)
    requires Sober(t) && payload != "" && payload[0] == '{'
    requires '{' !in timestamp && '{' !in verb && target != "" && target[0] == '/'
    ensures WebhookMessage(t, payload) != ClientMessage(timestamp, verb, target, body)
  {
    var w, m := WebhookMessage(t, payload), ClientMessage(timestamp, verb, target, body);
    var head := timestamp + "." + (verb + ".");
    var rest := target + match body case Some(b) => "." + b case None => "";
    assert m == head + rest;
    assert m[|head|] == '/' && forall i | 0 <= i < |head| :: m[i] == head[i] != '{';
    assert w[|t| + 1] == '{' && forall i | 0 <= i <= |t| :: w[i] != '/';
  }

  /** One secret serves both directions: no webhook message is the message of a request to the API. */
  lemma DirectionsAreSeparate(n: int, payload: string, timestamp: string, verb: string, target: string,
      body: Option<string>)
    requires InRange(n) && payload != "" && payload[0] == '{'
    requires '{' !in timestamp && '{' !in verb && target != "" && target[0] == '/'
    ensures WebhookMessage(Render(n), payload) != ClientMessage(timestamp, verb, target, body)
  {
    hide *;
    TimestampsAreSober(n);
    SlashBeforeBrace(Render(n), payload, timestamp, verb, target, body);
  }
}
