/** JSON trees and the paths into them. */
module Json {
  import opened Wrappers

  /** An integer of any size, or any other number by its text. */
  datatype Number = Integer(value: int) | Decimal(text: string)

  datatype Json =
    | Null
    | Bool(flag: bool)
    | Num(number: Number)
    | Str(text: string)
    | Arr(items: seq<Json>)
    | Obj(fields: map<string, Json>)

  datatype Step = Field(name: string) | Item(index: nat)
  type Path = seq<Step>

  function Child(v: Json, s: Step): Option<Json> {
    match (v, s)
    case (Obj(m), Field(k)) => if k in m then Some(m[k]) else None
    case (Arr(xs), Item(i)) => if i < |xs| then Some(xs[i]) else None
    case _ => None
  }

  /** The node a path leads to. */
  function At(v: Json, p: Path): Option<Json> {
    if p == [] then Some(v) else
    match Child(v, p[0])
    case None => None
    case Some(c) => At(c, p[1..])
  }

  /** There is an object at `p`, and it has the key `k`. */
  predicate KeyAt(v: Json, p: Path, k: string) {
    match At(v, p) case Some(Obj(m)) => k in m case _ => false
  }

  lemma KeyBelow(v: Json, s: Step, p: Path, k: string)
    ensures KeyAt(v, [s] + p, k) <==> Child(v, s).Some? && KeyAt(Child(v, s).value, p, k)
  {
  }

  // ---------------------------------------------------------------- reading values

  function AsString(v: Json): Option<string> { if v.Str? then Some(v.text) else None }

  predicate IsI64(n: int) { -0x8000_0000_0000_0000 <= n < 0x8000_0000_0000_0000 }

  function AsI64(v: Json): (r: Option<int>)
    ensures r.Some? ==> IsI64(r.value)
  {
    match v
    case Num(Integer(n)) => if IsI64(n) then Some(n) else None
    case _ => None
  }

  /** The numbers that are read: those of 64 bits with a sign. */
  lemma AsI64Exactly(v: Json, n: int)
    ensures AsI64(v) == Some(n) <==>
            v == Num(Integer(n)) && -9_223_372_036_854_775_808 <= n <= 9_223_372_036_854_775_807
  {
  }

  function Get(m: map<string, Json>, k: string): Option<Json> { if k in m then Some(m[k]) else None }

  // ---------------------------------------------------------------- trimming

  /** Unicode White_Space. */
  predicate IsSpace(c: char) {
    || '\t' <= c <= '\r' || c == ' ' || c == '\U{0085}' || c == '\U{00A0}' || c == '\U{1680}'
    || '\U{2000}' <= c <= '\U{200A}' || c == '\U{2028}' || c == '\U{2029}' || c == '\U{202F}'
    || c == '\U{205F}' || c == '\U{3000}'
  }

  /** The 25 characters with the property White_Space. */
  lemma WhiteSpaceIs(c: char)
    ensures IsSpace(c) <==>
            c as int in {0x9, 0xA, 0xB, 0xC, 0xD, 0x20, 0x85, 0xA0, 0x1680, 0x2000, 0x2001, 0x2002, 0x2003, 0x2004,
                         0x2005, 0x2006, 0x2007, 0x2008, 0x2009, 0x200A, 0x2028, 0x2029, 0x202F, 0x205F, 0x3000}
  {
  }

  function TrimStart(s: string): string {
    if s != [] && IsSpace(s[0]) then TrimStart(s[1..]) else s
  }

  function TrimEnd(s: string): string {
    if s != [] && IsSpace(s[|s| - 1]) then TrimEnd(s[..|s| - 1]) else s
  }

  function Trim(s: string): string { TrimEnd(TrimStart(s)) }

  predicate Blank(s: string) { forall i | 0 <= i < |s| :: IsSpace(s[i]) }

  predicate Trimmed(s: string) { s != [] ==> !IsSpace(s[0]) && !IsSpace(s[|s| - 1]) }

  lemma {:induction false} TrimStartCuts(s: string) returns (i: nat)
    ensures i <= |s| && TrimStart(s) == s[i..] && Blank(s[..i])
    ensures TrimStart(s) != [] ==> !IsSpace(TrimStart(s)[0])
  {
    i := 0;
    if s != [] && IsSpace(s[0]) {
      var j := TrimStartCuts(s[1..]);
      i := j + 1;
      assert forall k | 0 < k < i :: s[k] == s[1..][..j][k - 1];
    }
  }

  lemma {:induction false} TrimEndCuts(s: string) returns (j: nat)
    ensures j <= |s| && TrimEnd(s) == s[..j] && Blank(s[j..])
    ensures TrimEnd(s) != [] ==> !IsSpace(TrimEnd(s)[|TrimEnd(s)| - 1])
  {
    j := |s|;
    if s != [] && IsSpace(s[|s| - 1]) {
      var n := |s| - 1;
      j := TrimEndCuts(s[..n]);
      assert forall k | j <= k < n :: s[k] == s[..n][j..][k - j];
    }
  }

  /** Trimming removes a blank head and a blank tail and leaves neither. */
  lemma TrimIs(s: string) returns (i: nat, j: nat)
    ensures i <= j <= |s| && Trim(s) == s[i..j] && Trimmed(Trim(s))
    ensures Blank(s[..i]) && Blank(s[j..])
  {
    i := TrimStartCuts(s);
    var t := TrimEndCuts(s[i..]);
    j := i + t;
    assert s[j..] == s[i..][t..];
    if Trim(s) != [] { assert Trim(s)[0] == TrimStart(s)[0]; }
  }

  /** `t` is what is left of `s` without its blank ends, and something is left. */
  ghost predicate Core(s: string, t: string) {
    t != "" && Trimmed(t) && exists i, j :: CutAt(s, t, i, j)
  }

  ghost predicate CutAt(s: string, t: string, i: int, j: int) {
    0 <= i <= j <= |s| && t == s[i..j] && Blank(s[..i]) && Blank(s[j..])
  }

  lemma NotInBlankEnds(s: string, i: int, j: int, k: int)
    requires 0 <= i <= j <= |s| && Blank(s[..i]) && Blank(s[j..]) && 0 <= k < |s| && !IsSpace(s[k])
    ensures i <= k < j
  {
    assert forall m | 0 <= m < i :: s[..i][m] == s[m];
    assert forall m | j <= m < |s| :: s[j..][m - j] == s[m];
  }

  lemma CutsAgree(s: string, t: string, i: int, j: int, t': string, i': int, j': int)
    requires CutAt(s, t, i, j) && CutAt(s, t', i', j') && t != "" && t' != "" && Trimmed(t) && Trimmed(t')
    ensures t == t'
  {
    assert t[0] == s[i] && t'[0] == s[i'] && t[|t| - 1] == s[j - 1] && t'[|t'| - 1] == s[j' - 1];
    NotInBlankEnds(s, i, j, i');
    NotInBlankEnds(s, i', j', i);
    NotInBlankEnds(s, i, j, j' - 1);
    NotInBlankEnds(s, i', j', j - 1);
  }

  lemma CoresAreNotBlank(s: string, t: string)
    requires Core(s, t)
    ensures !Blank(s)
  {
    var i, j :| CutAt(s, t, i, j);
    assert s[i] == t[0];
  }

  /** Trimming finds the core, and nothing exactly in blank texts. */
  lemma TrimExactly(s: string, t: string)
    ensures Core(s, t) <==> Trim(s) == t && t != ""
    ensures Trim(s) == "" <==> Blank(s)
  {
    var i, j := TrimIs(s);
    assert CutAt(s, Trim(s), i, j);
    assert forall k | 0 <= k < |s| ::
        s[k] == if k < i then s[..i][k] else if k < j then s[i..j][k - i] else s[j..][k - j];
    assert i < j ==> s[i..j][0] == s[i];
    if Core(s, t) {
      CoresAreNotBlank(s, t);
      var i', j' :| CutAt(s, t, i', j');
      CutsAgree(s, t, i', j', Trim(s), i, j);
    }
  }
}
