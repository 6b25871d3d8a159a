/** Validation of the configuration file and what the running gateway may rely on afterwards. */
module Config {
  import opened Wrappers
  import opened Json
  import Text
  import S = Schema
  import Outbox
  import Event
  import Ingest

  /** Window in nanoseconds; counts are u32. */
  datatype Bucket = Bucket(requests: nat, window: nat, burst: nat)
  datatype RateLimit = RateLimit(reading: Bucket, posting: Bucket)

  datatype FileWebhook = FileWebhook(url: string, includePosterFingerprint: bool)
  datatype FilePosting = FilePosting(displayName: Option<string>, publicTripcode: string)
  datatype FileIntegration = FileIntegration(name: string, allowedBoards: seq<string>, reading: bool,
                                             webhook: Option<FileWebhook>, posting: Option<FilePosting>,
                                             rateLimit: RateLimit)
  datatype FileConfig = FileConfig(baseUrl: string, httpAddr: string, sqlitePath: string, eventRetention: nat,
                                   rateLimit: RateLimit, integrations: seq<FileIntegration>)

  /** URL and socket address syntax, which is library code. */
  datatype Syntax = Syntax(isUrl: string -> bool, isAddress: string -> bool)

  // ---------------------------------------------------------------- names

  predicate IsAlphanumeric(c: char) { '0' <= c <= '9' || 'a' <= c <= 'z' || 'A' <= c <= 'Z' }

  predicate ValidBoardName(s: string) {
    0 < |s| <= 32 && forall i | 0 <= i < |s| :: IsAlphanumeric(s[i]) || s[i] == '_'
  }

  predicate ValidIntegrationName(s: string) {
    0 < |s| <= 64 && forall i | 0 <= i < |s| :: IsAlphanumeric(s[i]) || s[i] == '_' || s[i] == '-'
  }

  predicate ValidPublicTripcode(s: string) {
    |s| == 12 && s[..2] == "!!" && s[11] == '=' && forall i | 2 <= i < 11 ::
      IsAlphanumeric(s[i]) || s[i] == '+' || s[i] == '/'
  }

  function EnvChar(c: char): char {
    if 'a' <= c <= 'z' then (c as int - 32) as char else if IsAlphanumeric(c) then c else '_'
  }

  function EnvSafeName(s: string): string { seq(|s|, i requires 0 <= i < |s| => EnvChar(s[i])) }

  /** ASCII digits and letters, by their codes. */
  predicate IsWordCode(c: char) { 48 <= c as int <= 57 || 65 <= c as int <= 90 || 97 <= c as int <= 122 }

  /** The characters of names, and what becomes of them in the names of environment variables. */
  lemma NamesAre(s: string)
    ensures ValidBoardName(s) <==> 1 <= |s| <= 32 && forall c | c in s :: IsWordCode(c) || c == '_'
    ensures ValidIntegrationName(s) <==> 1 <= |s| <= 64 && forall c | c in s :: IsWordCode(c) || c == '_' || c == '-'
    ensures ValidPublicTripcode(s) <==>
            |s| == 12 && s[..2] == "!!" && s[11..] == "=" && forall c | c in s[2..11] ::
              IsWordCode(c) || c == '+' || c == '/'
    ensures |EnvSafeName(s)| == |s|
    ensures forall i | 0 <= i < |s| ::
              EnvSafeName(s)[i] as int ==
              if 97 <= s[i] as int <= 122 then s[i] as int - 32 else if IsWordCode(s[i]) then s[i] as int else 95
  {
    forall c ensures IsAlphanumeric(c) <==> IsWordCode(c) {}
    hide IsWordCode, IsAlphanumeric;
    forall i | 0 <= i < |s| ensures s[i] in s {}
    if |s| == 12 {
      assert s[11..] == [s[11]];
      assert forall i | 2 <= i < 11 :: s[i] == s[2..11][i - 2];
    }
  }

  // ---------------------------------------------------------------- what validation means

  predicate ValidBucket(b: Bucket) {
    0 < b.burst <= b.requests && b.window >= b.requests
  }

  predicate ValidLimits(r: RateLimit) { ValidBucket(r.reading) && ValidBucket(r.posting) }

  predicate ValidPosting(p: FilePosting) {
    (p.displayName.Some? ==> Trim(p.displayName.value) != "") && ValidPublicTripcode(p.publicTripcode)
  }

  predicate ValidIntegration(f: FileIntegration, syn: Syntax) {
    && ValidIntegrationName(f.name)
    && (f.reading || f.webhook.Some? || f.posting.Some?)
    && (forall i | 0 <= i < |f.allowedBoards| :: ValidBoardName(f.allowedBoards[i]))
    && (f.webhook.Some? ==> syn.isUrl(f.webhook.value.url))
    && (f.posting.Some? ==> ValidPosting(f.posting.value))
    && ValidLimits(f.rateLimit)
  }

  /** No two integrations share a name, an environment name or a public tripcode. */
  ghost predicate Separate(fs: seq<FileIntegration>) {
    && (forall i, j | 0 <= i < j < |fs| :: fs[i].name != fs[j].name)
    && (forall i, j | 0 <= i < j < |fs| :: EnvSafeName(fs[i].name) != EnvSafeName(fs[j].name))
    && (forall i, j | 0 <= i < j < |fs| && fs[i].posting.Some? && fs[j].posting.Some? ::
          fs[i].posting.value.publicTripcode != fs[j].posting.value.publicTripcode)
  }

  ghost predicate ValidConfig(c: FileConfig, syn: Syntax) {
    && Trim(c.baseUrl) != "" && syn.isUrl(c.baseUrl) && syn.isAddress(c.httpAddr)
    && Trim(c.sqlitePath) != "" && c.eventRetention > 0 && ValidLimits(c.rateLimit)
    && (forall i | 0 <= i < |c.integrations| :: ValidIntegration(c.integrations[i], syn))
    && Separate(c.integrations)
  }

  // ---------------------------------------------------------------- how it is checked

  /** `validate_rate_limit_bucket`: its four checks come to `ValidBucket`. */
  method ValidateBucket(b: Bucket) returns (ok: bool)
    ensures ok <==> ValidBucket(b)
  {
    if b.requests == 0 || b.window == 0 { return false; }
    if b.burst == 0 || b.burst > b.requests { return false; }
    PeriodIsPositive(b.window, b.requests);
    return b.window / b.requests != 0;
  }

  lemma PeriodIsPositive(window: nat, requests: nat)
    requires requests > 0
    ensures window / requests >= 1 <==> window >= requests
  {
  }

  method ValidateLimits(r: RateLimit) returns (ok: bool)
    ensures ok <==> ValidLimits(r)
  {
    ok := ValidateBucket(r.reading);
    if ok { ok := ValidateBucket(r.posting); }
  }

  method ValidatePosting(p: FilePosting) returns (ok: bool)
    ensures ok <==> ValidPosting(p)
  {
    if p.displayName.Some? && Trim(p.displayName.value) == "" { return false; }
    return ValidPublicTripcode(p.publicTripcode);
  }

  /** The three sets hold what the first `n` integrations use. */
  ghost predicate Seen(fs: seq<FileIntegration>, n: nat, names: set<string>, envNames: set<string>,
      tripcodes: set<string>) {
    && n <= |fs|
    && (forall s :: s in names <==> exists i :: 0 <= i < n && fs[i].name == s)
    && (forall s :: s in envNames <==> exists i :: 0 <= i < n && EnvSafeName(fs[i].name) == s)
    && (forall s :: s in tripcodes <==>
          exists i :: 0 <= i < n && fs[i].posting.Some? && fs[i].posting.value.publicTripcode == s)
  }

  /** What the three sets are asked about the next integration. */
  predicate Unseen(f: FileIntegration, names: set<string>, envNames: set<string>, tripcodes: set<string>) {
    f.name !in names && EnvSafeName(f.name) !in envNames &&
      (f.posting.Some? ==> f.posting.value.publicTripcode !in tripcodes)
  }

  function TripcodesOf(f: FileIntegration): set<string> {
    if f.posting.Some? then {f.posting.value.publicTripcode} else {}
  }

  lemma SeenNext(fs: seq<FileIntegration>, n: nat, names: set<string>, envNames: set<string>, tripcodes: set<string>)
    requires n < |fs| && Seen(fs, n, names, envNames, tripcodes)
    ensures Seen(fs, n + 1, names + {fs[n].name}, envNames + {EnvSafeName(fs[n].name)}, tripcodes + TripcodesOf(fs[n]))
  {
  }

  /** The two clash over nothing. */
  predicate Apart(f: FileIntegration, g: FileIntegration) {
    && f.name != g.name && EnvSafeName(f.name) != EnvSafeName(g.name)
    && (f.posting.Some? && g.posting.Some? ==> f.posting.value.publicTripcode != g.posting.value.publicTripcode)
  }

  lemma SeparateExactly(fs: seq<FileIntegration>)
    ensures Separate(fs) <==> forall i, j | 0 <= i < j < |fs| :: Apart(fs[i], fs[j])
  {
  }

  lemma SeparateNext(fs: seq<FileIntegration>, n: nat, names: set<string>, envNames: set<string>,
      tripcodes: set<string>)
    requires n < |fs| && Seen(fs, n, names, envNames, tripcodes)
    ensures Separate(fs[..n + 1]) <==> Separate(fs[..n]) && Unseen(fs[n], names, envNames, tripcodes)
  {
  }

  method ValidateIntegration(f: FileIntegration, syn: Syntax) returns (ok: bool)
    ensures ok <==> ValidIntegration(f, syn)
  {
    if !ValidIntegrationName(f.name) { return false; }
    if !f.reading && f.webhook.None? && f.posting.None? { return false; }
    for i := 0 to |f.allowedBoards|
      invariant forall j | 0 <= j < i :: ValidBoardName(f.allowedBoards[j])
    {
      if !ValidBoardName(f.allowedBoards[i]) { return false; }
    }
    if f.webhook.Some? && !syn.isUrl(f.webhook.value.url) { return false; }
    if f.posting.Some? {
      ok := ValidatePosting(f.posting.value);
      if !ok { return; }
    }
    ok := ValidateLimits(f.rateLimit);
  }

  /** `validate`. The source interleaves the lookups in the three sets with the other checks of an integration; the
      verdict is that of all of them. */
  method Validate(c: FileConfig, syn: Syntax) returns (ok: bool)
    ensures ok <==> ValidConfig(c, syn)
  {
    hide EnvSafeName, ValidIntegration, ValidLimits, Separate, Unseen, TripcodesOf;
    if Trim(c.baseUrl) == "" || !syn.isUrl(c.baseUrl) || !syn.isAddress(c.httpAddr) { return false; }
    if Trim(c.sqlitePath) == "" || c.eventRetention == 0 { return false; }
    ok := ValidateLimits(c.rateLimit);
    if !ok { return; }
    var names, envNames, tripcodes := {}, {}, {};
    var fs := c.integrations;
    var i := 0;
    SeparateExactly(fs[..0]);
    while i < |fs|
      invariant i <= |fs| && Seen(fs, i, names, envNames, tripcodes)
      invariant Separate(fs[..i]) && forall j | 0 <= j < i :: ValidIntegration(fs[j], syn)
    {
      SeenNext(fs, i, names, envNames, tripcodes);
      SeparateNext(fs, i, names, envNames, tripcodes);
      var f := fs[i];
      var valid := ValidateIntegration(f, syn);
      if !valid { return false; }
      if !Unseen(f, names, envNames, tripcodes) {
        NotSeparate(fs, i + 1);
        return false;
      }
      names, envNames, tripcodes := names + {f.name}, envNames + {EnvSafeName(f.name)}, tripcodes + TripcodesOf(f);
      i := i + 1;
    }
    assert fs[..i] == fs;
    return true;
  }

  lemma NotSeparate(fs: seq<FileIntegration>, n: nat)
    requires n <= |fs| && !Separate(fs[..n])
    ensures !Separate(fs)
  {
  }

  // ---------------------------------------------------------------- resolving

  datatype Integration = Integration(name: string, allowedBoards: seq<string>, reading: bool, rateLimit: RateLimit,
      secret: string)

  datatype Posting = Posting(name: string, allowedBoards: seq<string>, displayName: Option<string>, secret: string,
                             tripcodeSecret: string, publicTripcode: string, postPassword: string)

  datatype Resolved = Resolved(integrations: seq<Integration>, webhooks: seq<Ingest.WebhookConfig>,
      postings: seq<Posting>,
                               fingerprintSecret: Option<string>)

  /** The environment: a value for each variable that is set and not blank. */
  type Environment = string -> Option<string>

  datatype Purpose = Secret | Tripcode | PostPassword

  function PurposeText(p: Purpose): string {
    match p case Secret => "_SECRET" case Tripcode => "_TRIPCODE" case PostPassword => "_POST_PASSWORD"
  }

  function EnvName(name: string, p: Purpose): string { "PTCHAN_INTEGRATION_" + EnvSafeName(name) + PurposeText(p) }

  const FINGERPRINT_ENV := "PTCHAN_FINGERPRINT_SECRET"
  const POSTING_NAME_MAX_CHARS := 25

  function FormName(p: Posting): string {
    Trim(if p.displayName.Some? then p.displayName.value else p.name) + "##" + p.tripcodeSecret
  }

  function WebhookOf(f: FileIntegration): Option<Ingest.WebhookConfig> {
    match f.webhook
    case Some(w) => Some(Ingest.WebhookConfig(f.name, f.allowedBoards, w.includePosterFingerprint))
    case None => None
  }

  /** What one integration adds, if its secrets are there and its form name fits. */
  datatype Share = Share(integration: Integration, webhook: Option<Ingest.WebhookConfig>, posting: Option<Posting>)

  function ShareOf(f: FileIntegration, env: Environment): (r: Option<Share>)
    ensures r.Some? ==> r.value.integration.name == f.name && r.value.webhook == WebhookOf(f)
    ensures r.Some? && r.value.posting.Some? ==> r.value.posting.value.name == f.name
    ensures r.Some? ==> (r.value.posting.Some? <==> f.posting.Some?)
  {
    var secret :- env(EnvName(f.name, Secret));
    var integration := Integration(f.name, f.allowedBoards, f.reading, f.rateLimit, secret);
    match f.posting
    case None => Some(Share(integration, WebhookOf(f), None))
    case Some(p) =>
      var tripcode :- env(EnvName(f.name, Tripcode));
      var password :- env(EnvName(f.name, PostPassword));
      var posting := Posting(f.name, f.allowedBoards, p.displayName, secret, tripcode, p.publicTripcode, password);
      if |FormName(posting)| > POSTING_NAME_MAX_CHARS then None
      else Some(Share(integration, WebhookOf(f), Some(posting)))
  }

  /** An integration's share is there exactly when its secret is, and with a posting capability its tripcode secret and
      post password too, the form name they make having at most 25 characters. */
  lemma ShareExactly(f: FileIntegration, env: Environment)
    ensures var prefix := "PTCHAN_INTEGRATION_" + EnvSafeName(f.name);
            var secret, tripcode, password :=
              env(prefix + "_SECRET"), env(prefix + "_TRIPCODE"), env(prefix + "_POST_PASSWORD");
            var webhook := match f.webhook
                           case Some(w) =>
                             Some(Ingest.WebhookConfig(f.name, f.allowedBoards, w.includePosterFingerprint))
                           case None => None;
            match f.posting
            case None =>
              ShareOf(f, env) ==
              (if secret.None? then None
               else Some(Share(Integration(f.name, f.allowedBoards, f.reading, f.rateLimit, secret.value), webhook,
                               None)))
            case Some(p) =>
              var shown := Trim(match p.displayName case Some(name) => name case None => f.name);
              && (ShareOf(f, env).Some? <==>
                    secret.Some? && tripcode.Some? && password.Some? && |shown| + 2 + |tripcode.value| <= 25)
              && (ShareOf(f, env).Some? ==>
                    ShareOf(f, env).value ==
                    Share(Integration(f.name, f.allowedBoards, f.reading, f.rateLimit, secret.value), webhook,
                          Some(Posting(f.name, f.allowedBoards, p.displayName, secret.value, tripcode.value,
                                       p.publicTripcode, password.value))))
  {
    hide EnvSafeName, Trim;
  }

  function IfAny<T>(o: Option<T>): seq<T> { match o case Some(x) => [x] case None => [] }

  /** The webhooks of a file, in its order. */
  function WebhooksOf(fs: seq<FileIntegration>): seq<Ingest.WebhookConfig> {
    if fs == [] then [] else WebhooksOf(fs[..|fs| - 1]) + IfAny(WebhookOf(fs[|fs| - 1]))
  }

  predicate AllShares(fs: seq<FileIntegration>, env: Environment) {
    forall i | 0 <= i < |fs| :: ShareOf(fs[i], env).Some?
  }

  function PostingsOf(fs: seq<FileIntegration>, env: Environment): seq<Posting>
    requires AllShares(fs, env)
  {
    if fs == [] then [] else PostingsOf(fs[..|fs| - 1], env) + IfAny(ShareOf(fs[|fs| - 1], env).value.posting)
  }

  /** The webhooks are exactly those the file has, under distinct names. */
  lemma {:induction false} WebhooksComeFromFile(fs: seq<FileIntegration>)
    requires forall i, j | 0 <= i < j < |fs| :: fs[i].name != fs[j].name
    ensures forall w :: w in WebhooksOf(fs) <==> exists i :: 0 <= i < |fs| && WebhookOf(fs[i]) == Some(w)
    ensures Ingest.DistinctNames(WebhooksOf(fs))
  {
    if fs != [] {
      var n := |fs| - 1;
      WebhooksComeFromFile(fs[..n]);
      var ws := WebhooksOf(fs[..n]);
      forall w ensures w in WebhooksOf(fs) <==> exists i :: 0 <= i < |fs| && WebhookOf(fs[i]) == Some(w) {
        if i :| 0 <= i < |fs| && WebhookOf(fs[i]) == Some(w) && i < n { assert fs[..n][i] == fs[i]; }
        if w in ws {
          var i :| 0 <= i < n && WebhookOf(fs[..n][i]) == Some(w);
          assert fs[i] == fs[..n][i];
        }
      }
      forall w | w in ws ensures w.name != fs[n].name {
        var i :| 0 <= i < n && WebhookOf(fs[..n][i]) == Some(w);
        assert fs[i] == fs[..n][i];
      }
      assert forall i | 0 <= i < |ws| :: ws[i] in ws;
    }
  }

  predicate Offers(f: FileIntegration, env: Environment, p: Posting) {
    match ShareOf(f, env) case Some(share) => share.posting == Some(p) case None => false
  }

  lemma LastPosting(fs: seq<FileIntegration>, env: Environment, p: Posting)
    requires fs != [] && AllShares(fs, env)
    ensures AllShares(fs[..|fs| - 1], env)
    ensures p in PostingsOf(fs, env) <==> p in PostingsOf(fs[..|fs| - 1], env) || Offers(fs[|fs| - 1], env, p)
  {
    hide ShareOf;
  }

  /** So are the postings, each with its own share of the environment. */
  lemma {:induction false} PostingsComeFromFile(fs: seq<FileIntegration>, env: Environment, p: Posting)
    requires AllShares(fs, env)
    ensures p in PostingsOf(fs, env) <==> exists i :: 0 <= i < |fs| && Offers(fs[i], env, p)
  {
    hide ShareOf, Offers, AllShares, IfAny;
    if fs != [] {
      var n := |fs| - 1;
      LastPosting(fs, env, p);
      hide *;
      PostingsComeFromFile(fs[..n], env, p);
      assert forall i | 0 <= i < n :: fs[..n][i] == fs[i];
    }
  }

  ghost predicate NeedsFingerprints(ws: seq<Ingest.WebhookConfig>) {
    exists i :: 0 <= i < |ws| && ws[i].includePosterFingerprint
  }

  /** The result for a valid file whose secrets are all there. */
  ghost predicate Resolves(c: FileConfig, env: Environment, r: Resolved) {
    && AllShares(c.integrations, env)
    && |r.integrations| == |c.integrations|
    && (forall i | 0 <= i < |c.integrations| :: r.integrations[i] == ShareOf(c.integrations[i], env).value.integration)
    && r.webhooks == WebhooksOf(c.integrations) && r.postings == PostingsOf(c.integrations, env)
    && r.fingerprintSecret == (if NeedsFingerprints(r.webhooks) then env("PTCHAN_FINGERPRINT_SECRET") else None)
    && (NeedsFingerprints(r.webhooks) ==> r.fingerprintSecret.Some?)
  }

  /** Everything a valid file needs from the environment. */
  ghost predicate Resolvable(c: FileConfig, env: Environment) {
    AllShares(c.integrations, env) && (NeedsFingerprints(WebhooksOf(c.integrations)) ==>
                                             env("PTCHAN_FINGERPRINT_SECRET").Some?)
  }

  lemma NoneYet(env: Environment)
    ensures WebhooksOf([]) == [] && AllShares([], env) && PostingsOf([], env) == []
  {
  }

  lemma OneMore(fs: seq<FileIntegration>, i: nat, env: Environment)
    requires i < |fs| && AllShares(fs[..i], env) && ShareOf(fs[i], env).Some?
    ensures AllShares(fs[..i + 1], env)
    ensures WebhooksOf(fs[..i + 1]) == WebhooksOf(fs[..i]) + IfAny(ShareOf(fs[i], env).value.webhook)
    ensures PostingsOf(fs[..i + 1], env) == PostingsOf(fs[..i], env) + IfAny(ShareOf(fs[i], env).value.posting)
  {
    assert fs[..i + 1][..i] == fs[..i] && fs[..i + 1][i] == fs[i];
    hide ShareOf, WebhookOf, IfAny;
  }

  method AnyNeedsFingerprints(ws: seq<Ingest.WebhookConfig>) returns (wanted: bool)
    ensures wanted <==> NeedsFingerprints(ws)
  {
    wanted := false;
    for j := 0 to |ws|
      invariant wanted <==> exists k :: 0 <= k < j && ws[k].includePosterFingerprint
    {
      wanted := wanted || ws[j].includePosterFingerprint;
    }
  }

  /** `resolve`, which pushes onto three vectors. */
  method Resolve(c: FileConfig, syn: Syntax, env: Environment) returns (r: Option<Resolved>)
    ensures r.Some? <==> ValidConfig(c, syn) && Resolvable(c, env)
    ensures r.Some? ==> Resolves(c, env, r.value)
  {
    hide ShareOf, ValidConfig, WebhookOf, IfAny, WebhooksOf, PostingsOf, NeedsFingerprints;
    NoneYet(env);
    var ok := Validate(c, syn);
    if !ok { return None; }
    var fs := c.integrations;
    var integrations: seq<Integration> := [];
    var webhooks: seq<Ingest.WebhookConfig> := [];
    var postings: seq<Posting> := [];
    var i := 0;
    assert fs[..0] == [];
    while i < |fs|
      invariant i <= |fs| && AllShares(fs[..i], env) && |integrations| == i
      invariant forall j | 0 <= j < i :: integrations[j] == ShareOf(fs[j], env).value.integration
      invariant webhooks == WebhooksOf(fs[..i]) && postings == PostingsOf(fs[..i], env)
    {
      var share := ShareOf(fs[i], env);
      if share.None? { return None; }
      OneMore(fs, i, env);
      webhooks := webhooks + IfAny(share.value.webhook);
      postings := postings + IfAny(share.value.posting);
      integrations := integrations + [share.value.integration];
      i := i + 1;
    }
    assert fs[..i] == fs;
    var wanted := AnyNeedsFingerprints(webhooks);
    if wanted && env(FINGERPRINT_ENV).None? { return None; }
    return Some(Resolved(integrations, webhooks, postings, if wanted then env(FINGERPRINT_ENV) else None));
  }

  // ---------------------------------------------------------------- what follows

  /** The gateway that runs with a resolved configuration. */
  ghost predicate RunsWith(g: Ingest.Gateway, r: Resolved) {
    g.webhooks == r.webhooks && g.fingerprintSecret == r.fingerprintSecret && Event.Faithful(g.lib)
  }

  /** With a valid configuration and any tables the outbox can reach, whatever payload arrives: its deliveries can be
      prepared, and storing it never hits the delivery key. */
  lemma IngestAlwaysCommits(c: FileConfig, syn: Syntax, env: Environment, r: Resolved, g: Ingest.Gateway,
      s: Outbox.System,
                            payload: seq<Json>, now: int)
    requires ValidConfig(c, syn) && Resolves(c, env, r) && RunsWith(g, r) && Outbox.Inv(s)
    ensures forall built: Event.BuiltEvent | Event.Fits(built.event.post) ::
            Ingest.EventDeliveries(g, built, g.webhooks).Ok?
    ensures var p := Ingest.Prepare(g, payload, now);
            p.Some? ==>
              Outbox.Enabled(s, Outbox.Ingest(p.value.event.id, Ingest.StoredEvent(p.value), p.value.deliveries))
  {
    WebhooksComeFromFile(c.integrations);
    forall built: Event.BuiltEvent | Event.Fits(built.event.post)
      ensures Ingest.EventDeliveries(g, built, g.webhooks).Ok?
    {
      Ingest.DeliveriesExactly(g, built, g.webhooks);
      Ingest.AudienceIsAllowed(g.webhooks, built.event.post.board);
      SecretsSuffice(g, Ingest.Audience(g.webhooks, built.event.post.board));
    }
    var p := Ingest.Prepare(g, payload, now);
    if p.Some? {
      Ingest.PreparedDeliveries(g, payload, now);
      S.CreateEventCommits(s.db, p.value.event.id, Ingest.StoredEvent(p.value), p.value.deliveries);
    }
  }

  lemma SecretsSuffice(g: Ingest.Gateway, to: seq<Ingest.WebhookConfig>)
    requires NeedsFingerprints(g.webhooks) ==> g.fingerprintSecret.Some?
    requires forall w | w in to :: w in g.webhooks
    ensures Ingest.SecretLoaded(g, to)
  {
    forall i | 0 <= i < |to| && to[i].includePosterFingerprint ensures NeedsFingerprints(g.webhooks) {
      assert to[i] in to;
      var j :| 0 <= j < |g.webhooks| && g.webhooks[j] == to[i];
    }
  }

  lemma EnvNameIsInjective(name: string, p: Purpose, name': string, q: Purpose)
    requires EnvName(name, p) == EnvName(name', q)
    ensures p == q && EnvSafeName(name) == EnvSafeName(name')
  {
    var a, b := EnvName(name, p), EnvName(name', q);
    assert a[|a| - 1] == PurposeText(p)[|PurposeText(p)| - 1] && b[|b| - 1] == PurposeText(q)[|PurposeText(q)| - 1];
    assert a[|a| - 2] == PurposeText(p)[|PurposeText(p)| - 2] && b[|b| - 2] == PurposeText(q)[|PurposeText(q)| - 2];
    assert a[19..|a| - |PurposeText(p)|] == EnvSafeName(name) && b[19..|b| - |PurposeText(q)|] == EnvSafeName(name');
  }

  /** No two integrations, and no two purposes, read the same environment variable. */
  lemma SecretsAreSeparate(fs: seq<FileIntegration>, i: nat, p: Purpose, j: nat, q: Purpose)
    requires Separate(fs) && i < |fs| && j < |fs| && (i != j || p != q)
    ensures EnvName(fs[i].name, p) != EnvName(fs[j].name, q)
    ensures EnvName(fs[i].name, p) != FINGERPRINT_ENV
  {
    var a, b := EnvName(fs[i].name, p), EnvName(fs[j].name, q);
    assert a[7] == 'I' && FINGERPRINT_ENV[7] == 'F';
    var x, y := fs[i].name, fs[j].name;
    assert i != j ==> EnvSafeName(x) != EnvSafeName(y) by { assert i < j || j <= i; }
    hide Separate, EnvName;
    if EnvName(x, p) == EnvName(y, q) {
      EnvNameIsInjective(x, p, y, q);
      assert false;
    }
  }
}
