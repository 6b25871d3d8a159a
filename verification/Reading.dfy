/** Reading a thread: decoding its posts, ordering them and keeping the most recent ones. */
module Reading {
  import opened Wrappers
  import opened Json
  import Upstream
  import opened Event
  import P = PublicPost

  const MAX_THREAD_LIMIT := 200

  datatype Thread = Thread(board: string, id: int, posts: seq<Post>, truncated: bool)

  // ---------------------------------------------------------------- stable sorting by id

  predicate SortedById(s: seq<Post>) { forall i, j | 0 <= i <= j < |s| :: s[i].id <= s[j].id }

  /** The posts with one id, in their order. */
  function WithId(s: seq<Post>, id: int): seq<Post> {
    if s == [] then [] else (if s[0].id == id then [s[0]] else []) + WithId(s[1..], id)
  }

  /** Sorted, with the posts of each id as they were: what a stable sort gives. */
  ghost predicate IsStableSort(s: seq<Post>, t: seq<Post>) {
    SortedById(t) && forall id :: WithId(t, id) == WithId(s, id)
  }

  lemma {:induction false} WithIdOfSum(s: seq<Post>, t: seq<Post>, id: int)
    ensures WithId(s + t, id) == WithId(s, id) + WithId(t, id)
    decreases |s|
  {
    if s == [] {
      assert s + t == t;
    } else {
      assert (s + t)[1..] == s[1..] + t && (s + t)[0] == s[0];
      WithIdOfSum(s[1..], t, id);
      var head := if s[0].id == id then [s[0]] else [];
      assert WithId(s + t, id) == head + (WithId(s[1..], id) + WithId(t, id));
    }
  }

  lemma {:induction false} WithIdFinds(s: seq<Post>, id: int)
    ensures WithId(s, id) == [] <==> forall i | 0 <= i < |s| :: s[i].id != id
  {
    if s != [] {
      WithIdFinds(s[1..], id);
      assert forall i | 0 < i < |s| :: s[i] == s[1..][i - 1];
    }
  }

  lemma HeadsAgree(s: seq<Post>, t: seq<Post>, u: seq<Post>)
    requires IsStableSort(s, t) && IsStableSort(s, u) && t != []
    ensures u != [] && t[0] == u[0]
  {
    assert WithId(t, t[0].id) == WithId(u, t[0].id);
    WithIdFinds(t, t[0].id);
    WithIdFinds(u, t[0].id);
    WithIdFinds(u, u[0].id);
    WithIdFinds(t, u[0].id);
    assert WithId(t, u[0].id) == WithId(u, u[0].id);
    assert WithId(t, t[0].id)[0] == t[0] && WithId(u, u[0].id)[0] == u[0];
  }

  /** There is only one stable sort. */
  lemma {:induction false} StableSortIsUnique(s: seq<Post>, t: seq<Post>, u: seq<Post>)
    requires IsStableSort(s, t) && IsStableSort(s, u)
    ensures t == u
    decreases |t|
  {
    if t == [] {
      if u != [] { HeadsAgree(s, u, t); }
    } else {
      HeadsAgree(s, t, u);
      forall id ensures WithId(t[1..], id) == WithId(u[1..], id) {
        assert WithId(t, id) == WithId(u, id);
        var head := if t[0].id == id then [t[0]] else [];
        assert WithId(t, id) == head + WithId(t[1..], id) && WithId(u, id) == head + WithId(u[1..], id);
        assert WithId(t[1..], id) == (head + WithId(t[1..], id))[|head|..];
        assert WithId(u[1..], id) == (head + WithId(u[1..], id))[|head|..];
      }
      StableSortIsUnique(t[1..], t[1..], u[1..]);
      assert t == [t[0]] + t[1..] && u == [u[0]] + u[1..];
    }
  }

  /** The sort of the posts vector: each post goes behind those with ids up to its own. */
  method SortById(s: seq<Post>) returns (t: seq<Post>)
    ensures IsStableSort(s, t) && |t| == |s|
  {
    t := [];
    assert s[..0] == [];
    var n := 0;
    while n < |s|
      invariant n <= |s| == n + (|s| - n) && |t| == n && IsStableSort(s[..n], t)
    {
      var k := n;
      while k > 0 && t[k - 1].id > s[n].id
        invariant k <= n && forall i | k <= i < n :: t[i].id > s[n].id
      {
        k := k - 1;
      }
      InsertKeepsStable(s[..n], t, s[n], k);
      assert s[..n] + [s[n]] == s[..n + 1];
      t := t[..k] + [s[n]] + t[k..];
      n := n + 1;
    }
    assert s[..n] == s;
  }

  lemma InsertKeepsStable(s: seq<Post>, t: seq<Post>, p: Post, k: nat)
    requires IsStableSort(s, t) && k <= |t|
    requires (k > 0 ==> t[k - 1].id <= p.id) && forall i | k <= i < |t| :: t[i].id > p.id
    ensures IsStableSort(s + [p], t[..k] + [p] + t[k..])
  {
    forall id ensures WithId(t[..k] + [p] + t[k..], id) == WithId(s + [p], id) { InsertWithId(s, t, p, k, id); }
    InsertKeepsOrder(t, p, k);
    hide SortedById, WithId;
  }

  lemma InsertKeepsOrder(t: seq<Post>, p: Post, k: nat)
    requires SortedById(t) && k <= |t|
    requires (k > 0 ==> t[k - 1].id <= p.id) && forall i | k <= i < |t| :: t[i].id > p.id
    ensures SortedById(t[..k] + [p] + t[k..])
  {
  }

  lemma InsertWithId(s: seq<Post>, t: seq<Post>, p: Post, k: nat, id: int)
    requires k <= |t| && WithId(t, id) == WithId(s, id) && forall i | k <= i < |t| :: t[i].id > p.id
    ensures WithId(t[..k] + [p] + t[k..], id) == WithId(s + [p], id)
  {
    var a, b := t[..k], t[k..];
    assert t == a + b;
    assert WithId([p], id) == if p.id == id then [p] else [];
    hide WithId;
    WithIdOfSum(a + [p], b, id);
    WithIdOfSum(a, [p], id);
    WithIdOfSum(a, b, id);
    WithIdOfSum(s, [p], id);
    WithIdFinds(b, id);
    var x, y := WithId(a, id), WithId(b, id);
    assert p.id == id ==> y == [] by { assert forall i | 0 <= i < |b| :: b[i] == t[k + i]; }
    assert p.id != id ==> x + [] + y == x + y + [];
  }

  // ---------------------------------------------------------------- collecting the posts

  function ContractPostFromValue(baseUrl: string, v: Json, lib: Libraries): Result<Post, ()> {
    var decoded :- Upstream.Decode(v, lib.parseDate);
    Ok(ContractPost(baseUrl, decoded.post))
  }

  /** A value for a key that has none. */
  function Ensure(m: map<string, Json>, k: string, v: Json): map<string, Json> { if k in m then m else m[k := v] }

  function Replies(root: map<string, Json>): seq<Json> {
    match Get(root, "replies") case Some(Arr(values)) => values case _ => []
  }

  function RootPost(baseUrl: string, board: string, root: map<string, Json>, lib: Libraries): Result<Post, ()> {
    ContractPostFromValue(baseUrl, Obj(Ensure(root - {"replies"}, "board", Str(board))), lib)
  }

  function ReplyPost(baseUrl: string, board: string, threadId: int, reply: map<string, Json>,
      lib: Libraries): Result<Post, ()> {
    var m := Ensure(Ensure(reply, "board", Str(board)), "thread", Num(Integer(threadId)));
    ContractPostFromValue(baseUrl, Obj(m), lib)
  }

  /** The posts of the replies that are objects, in order; one that does not decode spoils them all. */
  function ReplyPosts(baseUrl: string, board: string, threadId: int, replies: seq<Json>,
      lib: Libraries): Result<seq<Post>, ()> {
    if replies == [] then Ok([])
    else
      var n := |replies| - 1;
      var before :- ReplyPosts(baseUrl, board, threadId, replies[..n], lib);
      if !replies[n].Obj? then Ok(before)
      else
        var post :- ReplyPost(baseUrl, board, threadId, replies[n].fields, lib);
        Ok(before + [post])
  }

  function AllPosts(baseUrl: string, board: string, threadId: int, v: Json, lib: Libraries): Result<seq<Post>, ()> {
    if !v.Obj? then Err(())
    else
      var first :- RootPost(baseUrl, board, v.fields, lib);
      var rest :- ReplyPosts(baseUrl, board, threadId, Replies(v.fields), lib);
      Ok([first] + rest)
  }

  // ---------------------------------------------------------------- what the posts say

  /** The opening post's object: the root without its replies, with the board it is asked for where it names none. */
  function RootOf(m: map<string, Json>, board: string): (r: Json)
    ensures r.Obj?
  {
    Obj(map k | k in m.Keys + {"board"} && k != "replies" :: if k in m then m[k] else Str(board))
  }

  /** A reply's object, with the board and the thread it is read from where it names none. */
  function ReplyOf(m: map<string, Json>, board: string, threadId: int): (r: Json)
    ensures r.Obj?
  {
    Obj(map k | k in m.Keys + {"board", "thread"} ::
          if k in m then m[k] else if k == "board" then Str(board) else Num(Integer(threadId)))
  }

  lemma Filled(m: map<string, Json>, board: string, threadId: int)
    ensures Obj(Ensure(m - {"replies"}, "board", Str(board))) == RootOf(m, board)
    ensures Obj(Ensure(Ensure(m, "board", Str(board)), "thread", Num(Integer(threadId)))) == ReplyOf(m, board, threadId)
  {
    assert Ensure(m - {"replies"}, "board", Str(board)) == RootOf(m, board).fields;
    assert Ensure(Ensure(m, "board", Str(board)), "thread", Num(Integer(threadId))) ==
      ReplyOf(m, board, threadId).fields;
  }

  /** The post says what the object's keys say. */
  ghost predicate PostSays(baseUrl: string, v: Json, lib: Libraries, p: Post)
    requires v.Obj?
  {
    P.Says(Upstream.DropIp(v).fields, baseUrl, lib.parseDate, p)
  }

  /** One post for each reply that is an object, in their order. */
  ghost predicate RepliesSay(baseUrl: string, board: string, threadId: int, replies: seq<Json>, lib: Libraries,
      posts: seq<Post>)
  {
    if replies == [] then posts == []
    else
      var n, m := |replies| - 1, |posts| - 1;
      if !replies[n].Obj? then RepliesSay(baseUrl, board, threadId, replies[..n], lib, posts)
      else
        && posts != [] && RepliesSay(baseUrl, board, threadId, replies[..n], lib, posts[..m])
        && PostSays(baseUrl, ReplyOf(replies[n].fields, board, threadId), lib, posts[m])
  }

  lemma PostExactly(baseUrl: string, v: Json, lib: Libraries)
    requires v.Obj?
    ensures ContractPostFromValue(baseUrl, v, lib).Ok? <==> P.Accepted(v, lib.parseDate)
    ensures ContractPostFromValue(baseUrl, v, lib).Ok? ==>
              PostSays(baseUrl, v, lib, ContractPostFromValue(baseUrl, v, lib).value)
  {
    P.AcceptedExactly(baseUrl, v, lib.parseDate);
    hide Upstream.Decode, P.Accepted, P.Says, ContractPost;
  }

  lemma {:induction false} RepliesExactly(baseUrl: string, board: string, threadId: int, replies: seq<Json>,
      lib: Libraries)
    ensures var r := ReplyPosts(baseUrl, board, threadId, replies, lib);
            && (r.Ok? <==> forall i | 0 <= i < |replies| && replies[i].Obj? ::
                  P.Accepted(ReplyOf(replies[i].fields, board, threadId), lib.parseDate))
            && (r.Ok? ==> RepliesSay(baseUrl, board, threadId, replies, lib, r.value))
    decreases |replies|
  {
    hide P.Accepted, PostSays, ContractPostFromValue, Ensure, ReplyOf;
    if replies != [] {
      var n := |replies| - 1;
      RepliesExactly(baseUrl, board, threadId, replies[..n], lib);
      if replies[n].Obj? {
        Filled(replies[n].fields, board, threadId);
        PostExactly(baseUrl, ReplyOf(replies[n].fields, board, threadId), lib);
      }
    }
  }

  /** What a thread's posts are: the opening post's, and one for each reply that is an object. */
  ghost predicate ThreadSays(baseUrl: string, board: string, threadId: int, v: Json, lib: Libraries, all: seq<Post>)
    requires v.Obj?
  {
    && all != [] && PostSays(baseUrl, RootOf(v.fields, board), lib, all[0])
    && RepliesSay(baseUrl, board, threadId, P.ListAt(v.fields, "replies"), lib, all[1..])
  }

  /** A thread is read exactly when it is an object and its opening post and all replies that are objects are accepted;
      its posts then say what their keys say. */
  lemma ThreadExactly(baseUrl: string, board: string, threadId: int, v: Json, lib: Libraries)
    ensures AllPosts(baseUrl, board, threadId, v, lib).Ok? <==>
            && v.Obj? && P.Accepted(RootOf(v.fields, board), lib.parseDate)
            && var replies := P.ListAt(v.fields, "replies");
               forall i | 0 <= i < |replies| && replies[i].Obj? ::
                 P.Accepted(ReplyOf(replies[i].fields, board, threadId), lib.parseDate)
    ensures AllPosts(baseUrl, board, threadId, v, lib).Ok? ==>
              ThreadSays(baseUrl, board, threadId, v, lib, AllPosts(baseUrl, board, threadId, v, lib).value)
  {
    hide P.Accepted, PostSays, ContractPostFromValue, Ensure, RootOf, ReplyOf, ReplyPosts, RepliesSay;
    if v.Obj? {
      Filled(v.fields, board, threadId);
      PostExactly(baseUrl, RootOf(v.fields, board), lib);
      RepliesExactly(baseUrl, board, threadId, Replies(v.fields), lib);
      assert Replies(v.fields) == P.ListAt(v.fields, "replies");
      assert RootPost(baseUrl, board, v.fields, lib) ==
        ContractPostFromValue(baseUrl, RootOf(v.fields, board), lib);
      var rest := ReplyPosts(baseUrl, board, threadId, Replies(v.fields), lib);
      if AllPosts(baseUrl, board, threadId, v, lib).Ok? {
        assert AllPosts(baseUrl, board, threadId, v, lib).value[1..] == rest.value;
      }
    }
  }

  // ---------------------------------------------------------------- the thread

  /** The last `limit` of the sorted posts, or all of them. */
  ghost predicate IsThread(t: Thread, board: string, threadId: int, all: seq<Post>, limit: nat) {
    exists sorted ::
      && IsStableSort(all, sorted) && |sorted| == |all|
      && t == Thread(board, threadId, if |all| > limit then sorted[|all| - limit..] else sorted, |all| > limit)
  }

  lemma {:induction false} FailedPrefix(baseUrl: string, board: string, threadId: int, replies: seq<Json>, n: nat,
      lib: Libraries)
    requires n <= |replies| && ReplyPosts(baseUrl, board, threadId, replies[..n], lib).Err?
    ensures ReplyPosts(baseUrl, board, threadId, replies, lib).Err?
    decreases |replies|
  {
    if n == |replies| {
      assert replies[..n] == replies;
    } else {
      var o := replies[..|replies| - 1];
      assert o[..n] == replies[..n];
      FailedPrefix(baseUrl, board, threadId, o, n, lib);
    }
  }

  /** `thread_from_value`. */
  method ThreadFromValue(baseUrl: string, board: string, threadId: int, v: Json, limit: nat, lib: Libraries)
    returns (r: Result<Thread, ()>)
    ensures var all := AllPosts(baseUrl, board, threadId, v, lib);
            if all.Ok? then r.Ok? && IsThread(r.value, board, threadId, all.value, limit) else r.Err?
  {
    hide ContractPostFromValue, IsStableSort;
    if !v.Obj? { return Err(()); }
    var root := v.fields;
    var replies := Replies(root);
    root := root - {"replies"};
    root := Ensure(root, "board", Str(board));
    var first := ContractPostFromValue(baseUrl, Obj(root), lib);
    if first.Err? { return Err(()); }
    var posts := [first.value];
    var i := 0;
    assert replies[..0] == [];
    while i < |replies|
      invariant i <= |replies|
      invariant var before := ReplyPosts(baseUrl, board, threadId, replies[..i], lib);
                before.Ok? && posts == [first.value] + before.value
    {
      assert replies[..i + 1][..i] == replies[..i] && replies[..i + 1][i] == replies[i];
      if replies[i].Obj? {
        var reply := replies[i].fields;
        reply := Ensure(reply, "board", Str(board));
        reply := Ensure(reply, "thread", Num(Integer(threadId)));
        var post := ContractPostFromValue(baseUrl, Obj(reply), lib);
        if post.Err? {
          FailedPrefix(baseUrl, board, threadId, replies, i + 1, lib);
          return Err(());
        }
        posts := posts + [post.value];
      }
      i := i + 1;
    }
    assert replies[..i] == replies;
    var sorted := SortById(posts);
    var truncated := |sorted| > limit;
    return Ok(Thread(board, threadId, if truncated then sorted[|sorted| - limit..] else sorted, truncated));
  }

  function Clamp(limit: nat): (r: nat)
    ensures limit == 0 ==> r == 1
    ensures 1 <= limit <= 200 ==> r == limit
    ensures limit > 200 ==> r == 200
  {
    if limit < 1 then 1 else if limit > MAX_THREAD_LIMIT then MAX_THREAD_LIMIT else limit
  }

  /** A thread read with any limit has at least one and at most two hundred posts, in order of their ids; none left out
      has a higher id than one kept, and it says whether any was left out. */
  lemma ThreadReads(t: Thread, board: string, threadId: int, all: seq<Post>, limit: nat)
    requires all != [] && IsThread(t, board, threadId, all, Clamp(limit))
    ensures 1 <= |t.posts| <= 200 && SortedById(t.posts)
    ensures |t.posts| == if |all| > Clamp(limit) then Clamp(limit) else |all|
    ensures t.truncated <==> |t.posts| < |all|
    ensures forall p | p in all && p !in t.posts :: p.id <= t.posts[0].id
    ensures forall p | p in t.posts :: p in all
  {
    var sorted :| IsStableSort(all, sorted) && |sorted| == |all|
      && t == Thread(board, threadId, if |all| > Clamp(limit) then sorted[|all| - Clamp(limit)..] else sorted,
                     |all| > Clamp(limit));
    var cut := if |all| > Clamp(limit) then |all| - Clamp(limit) else 0;
    assert t.posts == sorted[cut..] && sorted == sorted[..cut] + sorted[cut..];
    forall p | p in all && p !in t.posts ensures p.id <= t.posts[0].id {
      SameMembers(all, sorted, p);
      var i :| 0 <= i < |sorted| && sorted[i] == p;
      assert p in sorted[..cut];
    }
    forall p | p in t.posts ensures p in all {
      SameMembers(all, sorted, p);
    }
  }

  lemma {:induction false} WithIdKeeps(s: seq<Post>, p: Post)
    ensures p in WithId(s, p.id) <==> p in s
  {
    if s != [] {
      WithIdKeeps(s[1..], p);
      assert p in s <==> p == s[0] || p in s[1..];
    }
  }

  lemma SameMembers(s: seq<Post>, t: seq<Post>, p: Post)
    requires IsStableSort(s, t)
    ensures p in s <==> p in t
  {
    WithIdKeeps(s, p);
    WithIdKeeps(t, p);
  }

  lemma PostHasUrl(baseUrl: string, v: Json, lib: Libraries)
    ensures ContractPostFromValue(baseUrl, v, lib).Ok? ==> ContractPostFromValue(baseUrl, v, lib).value.url != ""
  {
    hide Upstream.PostFromValue, Upstream.DropIp, Upstream.Safe, ContractPost, Fits;
    if ContractPostFromValue(baseUrl, v, lib).Ok? {
      ContractPostFits(baseUrl, Upstream.Decode(v, lib.parseDate).value.post);
    }
  }

  lemma {:induction false} ReplyPostsHaveUrls(baseUrl: string, board: string, threadId: int, replies: seq<Json>,
      lib: Libraries)
    requires ReplyPosts(baseUrl, board, threadId, replies, lib).Ok?
    ensures forall p | p in ReplyPosts(baseUrl, board, threadId, replies, lib).value :: p.url != ""
    decreases |replies|
  {
    if replies != [] {
      hide ContractPostFromValue, Ensure;
      var n := |replies| - 1;
      ReplyPostsHaveUrls(baseUrl, board, threadId, replies[..n], lib);
      if replies[n].Obj? {
        var m := Ensure(Ensure(replies[n].fields, "board", Str(board)), "thread", Num(Integer(threadId)));
        PostHasUrl(baseUrl, Obj(m), lib);
      }
    }
  }

  /** Every thread that is read has a post, and every post of it a URL. */
  lemma AllPostsHaveUrls(baseUrl: string, board: string, threadId: int, v: Json, lib: Libraries)
    requires AllPosts(baseUrl, board, threadId, v, lib).Ok?
    ensures AllPosts(baseUrl, board, threadId, v, lib).value != []
    ensures forall p | p in AllPosts(baseUrl, board, threadId, v, lib).value :: p.url != ""
  {
    hide ContractPostFromValue, Ensure, ReplyPosts;
    ReplyPostsHaveUrls(baseUrl, board, threadId, Replies(v.fields), lib);
    PostHasUrl(baseUrl, Obj(Ensure(v.fields - {"replies"}, "board", Str(board))), lib);
  }

  // ---------------------------------------------------------------- privacy of reads

  /** What a post is read from is the cleaned tree alone. */
  lemma PostFromCleaned(baseUrl: string, a: Json, b: Json, lib: Libraries)
    requires Upstream.DropIp(a) == Upstream.DropIp(b)
    ensures ContractPostFromValue(baseUrl, a, lib) == ContractPostFromValue(baseUrl, b, lib)
  {
  }

  function Cleaned(m: map<string, Json>): map<string, Json> { Upstream.DropIp(Obj(m)).fields }

  /** Cleaning forgets no key but `ip`, and goes through an added value. */
  lemma CleanedAdds(m: map<string, Json>, k: string, v: Json)
    requires k != Upstream.IP && Upstream.DropIp(v) == v
    ensures Cleaned(Ensure(m, k, v)) == Ensure(Cleaned(m), k, v)
  {
  }

  lemma CleanedEnsure(m: map<string, Json>, n: map<string, Json>, k: string, v: Json)
    requires Cleaned(m) == Cleaned(n) && k != Upstream.IP && Upstream.DropIp(v) == v
    ensures Cleaned(Ensure(m, k, v)) == Cleaned(Ensure(n, k, v))
  {
    CleanedAdds(m, k, v);
    CleanedAdds(n, k, v);
    hide Cleaned, Ensure, Upstream.DropIp;
  }

  lemma CleanedWithoutReplies(m: map<string, Json>, n: map<string, Json>)
    requires Cleaned(m) == Cleaned(n)
    ensures Cleaned(m - {"replies"}) == Cleaned(n - {"replies"})
    ensures |Replies(m)| == |Replies(n)|
    ensures forall i | 0 <= i < |Replies(m)| :: Upstream.DropIp(Replies(m)[i]) == Upstream.DropIp(Replies(n)[i])
  {
    assert "replies" != Upstream.IP;
    assert forall j: string | j != Upstream.IP :: j in m <==> j in Cleaned(m);
    assert forall j: string | j != Upstream.IP :: j in n <==> j in Cleaned(n);
    assert Cleaned(m - {"replies"}) == Cleaned(m) - {"replies"};
    assert Cleaned(n - {"replies"}) == Cleaned(n) - {"replies"};
    if "replies" in m {
      assert Upstream.DropIp(m["replies"]) == Cleaned(m)["replies"] == Upstream.DropIp(n["replies"]);
      if m["replies"].Arr? {
        assert forall i | 0 <= i < |m["replies"].items| ::
            Upstream.DropIp(m["replies"].items[i]) == Upstream.DropIp(m["replies"]).items[i];
        assert forall i | 0 <= i < |n["replies"].items| ::
            Upstream.DropIp(n["replies"].items[i]) == Upstream.DropIp(n["replies"]).items[i];
      }
    }
  }

  lemma {:induction false} RepliesFromCleaned(baseUrl: string, board: string, threadId: int, a: seq<Json>,
      b: seq<Json>, lib: Libraries)
    requires |a| == |b| && forall i | 0 <= i < |a| :: Upstream.DropIp(a[i]) == Upstream.DropIp(b[i])
    ensures ReplyPosts(baseUrl, board, threadId, a, lib) == ReplyPosts(baseUrl, board, threadId, b, lib)
    decreases |a|
  {
    if a != [] {
      var n := |a| - 1;
      RepliesFromCleaned(baseUrl, board, threadId, a[..n], b[..n], lib);
      assert a[n].Obj? <==> b[n].Obj?;
      if a[n].Obj? { ReplyFromCleaned(baseUrl, board, threadId, a[n].fields, b[n].fields, lib); }
      hide ReplyPost, Upstream.DropIp;
    }
  }

  lemma ReplyFromCleaned(baseUrl: string, board: string, threadId: int, m: map<string, Json>, n: map<string, Json>,
      lib: Libraries)
    requires Upstream.DropIp(Obj(m)) == Upstream.DropIp(Obj(n))
    ensures ReplyPost(baseUrl, board, threadId, m, lib) == ReplyPost(baseUrl, board, threadId, n, lib)
  {
    CleanedEnsure(m, n, "board", Str(board));
    var m1, n1 := Ensure(m, "board", Str(board)), Ensure(n, "board", Str(board));
    CleanedEnsure(m1, n1, "thread", Num(Integer(threadId)));
    var m2, n2 := Ensure(m1, "thread", Num(Integer(threadId))), Ensure(n1, "thread", Num(Integer(threadId)));
    CleanedObjects(m2, n2);
    PostFromCleaned(baseUrl, Obj(m2), Obj(n2), lib);
    hide ContractPostFromValue, Ensure;
  }

  lemma CleanedObjects(m: map<string, Json>, n: map<string, Json>)
    ensures Upstream.DropIp(Obj(m)) == Upstream.DropIp(Obj(n)) <==> Cleaned(m) == Cleaned(n)
  {
  }

  /** Threads that differ only inside `ip` fields read the same: the same posts, or refused both. */
  lemma ReadingIgnoresIp(baseUrl: string, board: string, threadId: int, a: Json, b: Json, lib: Libraries)
    requires Upstream.SameOutsideIp(a, b)
    ensures AllPosts(baseUrl, board, threadId, a, lib) == AllPosts(baseUrl, board, threadId, b, lib)
  {
    Upstream.DropIpForgetsExactlyIp(a, b);
    assert a.Obj? <==> b.Obj?;
    if a.Obj? {
      var m, n := a.fields, b.fields;
      CleanedObjects(m, n);
      CleanedWithoutReplies(m, n);
      CleanedEnsure(m - {"replies"}, n - {"replies"}, "board", Str(board));
      var m1, n1 := Ensure(m - {"replies"}, "board", Str(board)), Ensure(n - {"replies"}, "board", Str(board));
      CleanedObjects(m1, n1);
      PostFromCleaned(baseUrl, Obj(m1), Obj(n1), lib);
      RepliesFromCleaned(baseUrl, board, threadId, Replies(m), Replies(n), lib);
      hide ContractPostFromValue, Ensure, Upstream.DropIp, ReplyPosts, Upstream.SameOutsideIp;
    }
  }
}
