/** The glob matcher of src/fnmatch_loop.c.

    `Fct` is the source's backtracking loop, written step by step over a pattern index `p` and a
    subject index `n`.  Its specification is independent of it: `Parse` reads a pattern as a sequence
    of elements, and `Matches` says which subjects a sequence of elements denotes.

    Patterns and subjects are C strings: sequences of bytes that are never NUL, with a NUL read one
    past the end (`At`). */
module Fnmatch {
  import opened Wrappers

  type Ch = x: int | 1 <= x <= 255 witness 1
  type Str = seq<Ch>

  const BANG := 33
  const STAR := 42
  const DASH := 45
  const DOT := 46
  const COLON := 58
  const EQUALS := 61
  const QUESTION := 63
  const LBRACKET := 91
  const BACKSLASH := 92
  const RBRACKET := 93
  const CARET := 94

  const FNM_NOMATCH := 1

  /** What the matcher takes from its surroundings: the `FNM_NOESCAPE` flag, whether `^` negates a
      bracket (`posixly_correct < 0`), and whether plain `char` is signed on the platform. */
  datatype Env = Env(noEscape: bool, caretNegates: bool, charSigned: bool)

  // ---------------------------------------------------------------------------------------------
  // What a pattern denotes
  // ---------------------------------------------------------------------------------------------

  datatype Item = One(c: Ch) | Span(lo: Ch, hi: Ch)
  datatype Elem = Lit(c: Ch) | Any | Star | Set(neg: bool, items: seq<Item>)

  /** The lower end of a range as the platform reads it: the source keeps it in a plain `char`. */
  function LowEnd(env: Env, c: Ch): int {
    if env.charSigned && c >= 128 then c - 256 else c
  }

  predicate ItemHas(env: Env, it: Item, x: Ch) {
    match it
    case One(c) => x == c
    case Span(lo, hi) => LowEnd(env, lo) <= x <= hi
  }

  predicate SetHas(env: Env, items: seq<Item>, x: Ch) {
    exists i | 0 <= i < |items| :: ItemHas(env, items[i], x)
  }

  /** The characters that one non-star element stands for. */
  predicate Admits(env: Env, e: Elem, x: Ch)
    requires !e.Star?
  {
    match e
    case Lit(c) => x == c
    case Any => true
    case Set(neg, items) => SetHas(env, items, x) != neg
  }

  /** The subjects that a sequence of elements denotes. */
  ghost predicate Matches(env: Env, es: seq<Elem>, s: Str) {
    if es == [] then s == []
    else if es[0].Star? then exists k | 0 <= k <= |s| :: Matches(env, es[1..], s[k..])
    else s != [] && Admits(env, es[0], s[0]) && Matches(env, es[1..], s[1..])
  }

  // ---------------------------------------------------------------------------------------------
  // Reading a pattern
  // ---------------------------------------------------------------------------------------------

  /** `*p` on a C string. */
  function At(s: Str, p: nat): int
    requires p <= |s|
  {
    if p < |s| then s[p] else 0
  }

  predicate Escapes(env: Env, c: int) {
    c == BACKSLASH && !env.noEscape
  }

  /** One character of a bracket, taken literally after a backslash, and the position after it. */
  function BracketChar(env: Env, pat: Str, p: nat): (r: Option<(Ch, nat)>)
    ensures r.Some? ==> p < r.value.1 <= |pat|
  {
    if p >= |pat| then None
    else if !Escapes(env, pat[p]) then Some((pat[p], p + 1))
    else if p + 1 >= |pat| then None
    else Some((pat[p + 1], p + 2))
  }

  predicate IsRangeAt(pat: Str, q: nat) {
    q + 1 < |pat| && pat[q] == DASH && pat[q + 1] != RBRACKET
  }

  function Prepend(its: seq<Item>, o: Option<(seq<Item>, nat)>): Option<(seq<Item>, nat)> {
    match o
    case None => None
    case Some((rest, e)) => Some((its + rest, e))
  }

  /** The items of a bracket expression from `p`, and the position after its closing `]`; `None` when
      it is never closed.  A `]` in `first` position is an ordinary character. */
  function Items(env: Env, pat: Str, p: nat, first: bool): (r: Option<(seq<Item>, nat)>)
    ensures r.Some? ==> p < r.value.1 <= |pat|
    decreases |pat| - p
  {
    if p >= |pat| then None
    else if pat[p] == RBRACKET && !first then Some(([], p + 1))
    else
      match BracketChar(env, pat, p)
      case None => None
      case Some((lo, q)) =>
        if IsRangeAt(pat, q) then
          match BracketChar(env, pat, q + 1)
          case None => None
          case Some((hi, r)) => Prepend([Span(lo, hi)], Items(env, pat, r, false))
        else Prepend([One(lo)], Items(env, pat, q, false))
  }

  predicate NegatesAt(env: Env, pat: Str, p: nat) {
    p < |pat| && (pat[p] == BANG || (env.caretNegates && pat[p] == CARET))
  }

  function BracketBody(env: Env, pat: Str, p: nat): nat {
    if NegatesAt(env, pat, p) then p + 1 else p
  }

  function PrependElem(e: Elem, o: Option<seq<Elem>>): Option<seq<Elem>> {
    match o
    case None => None
    case Some(es) => Some([e] + es)
  }

  /** The elements of a pattern from `p`.  `None`, which denotes no subject at all, when a bracket is
      never closed or the pattern ends in an escaping backslash. */
  function Parse(env: Env, pat: Str, p: nat): Option<seq<Elem>>
    decreases |pat| - p
  {
    if p >= |pat| then Some([])
    else if pat[p] == QUESTION then PrependElem(Any, Parse(env, pat, p + 1))
    else if pat[p] == STAR then PrependElem(Star, Parse(env, pat, p + 1))
    else if pat[p] == LBRACKET then
      match Items(env, pat, BracketBody(env, pat, p + 1), true)
      case None => None
      case Some((items, e)) => PrependElem(Set(NegatesAt(env, pat, p + 1), items), Parse(env, pat, e))
    else
      match BracketChar(env, pat, p)
      case None => None
      case Some((c, q)) => PrependElem(Lit(c), Parse(env, pat, q))
  }

  /** The pattern from `p` denotes the subject from `n`. */
  ghost predicate Denotes(env: Env, pat: Str, p: nat, s: Str, n: nat)
    requires n <= |s|
  {
    var o := Parse(env, pat, p);
    o.Some? && Matches(env, o.value, s[n..])
  }

  /** No `[:`, `[=` or `[.` inside the bracket whose body is at `p`. */
  predicate NoSubBrackets(env: Env, pat: Str, p: nat, first: bool)
    decreases |pat| - p
  {
    p >= |pat| || (pat[p] == RBRACKET && !first) ||
    if Escapes(env, pat[p]) then NoSubBrackets(env, pat, p + 2, false)
    else
      && !(pat[p] == LBRACKET && p + 1 < |pat| && pat[p + 1] in {COLON, EQUALS, DOT})
      && NoSubBrackets(env, pat, p + 1, false)
  }

  /** No bracket of the pattern from `p` holds a sub-bracket. */
  predicate Simple(env: Env, pat: Str, p: nat)
    decreases |pat| - p
  {
    p >= |pat| ||
    if pat[p] == LBRACKET then
      var b := BracketBody(env, pat, p + 1);
      && NoSubBrackets(env, pat, b, true)
      && var o := Items(env, pat, b, true); o.Some? ==> Simple(env, pat, o.value.1)
    else if Escapes(env, pat[p]) then Simple(env, pat, p + 2)
    else Simple(env, pat, p + 1)
  }

  // ---------------------------------------------------------------------------------------------
  // Where a bracket closes
  // ---------------------------------------------------------------------------------------------

  /** The closing position found by the "skip the rest" loop, which looks at one character at a time. */
  function SkipTo(env: Env, pat: Str, p: nat): (r: Option<nat>)
    ensures r.Some? ==> p < r.value <= |pat|
    decreases |pat| - p
  {
    if p >= |pat| then None
    else if pat[p] == RBRACKET then Some(p + 1)
    else if !Escapes(env, pat[p]) then SkipTo(env, pat, p + 1)
    else if p + 1 >= |pat| then None
    else SkipTo(env, pat, p + 2)
  }

  lemma SkipsOne(env: Env, pat: Str, p: nat)
    requires p >= |pat| || pat[p] != RBRACKET
    ensures SkipTo(env, pat, p) == match BracketChar(env, pat, p) case None => None case Some((_, q)) => SkipTo(env, pat, q)
  {
  }

  /** Skipping and scanning agree on where a bracket closes: the position depends on the pattern alone,
      and not on the subject character that made the matcher stop scanning. */
  lemma {:induction false} SkipClosesLikeScan(env: Env, pat: Str, p: nat)
    ensures SkipTo(env, pat, p).Some? <==> Items(env, pat, p, false).Some?
    ensures SkipTo(env, pat, p).Some? ==> SkipTo(env, pat, p).value == Items(env, pat, p, false).value.1
    decreases |pat| - p
  {
    hide BracketChar;
    if p >= |pat| || pat[p] != RBRACKET {
      SkipsOne(env, pat, p);
    }
    if p < |pat| && pat[p] != RBRACKET && BracketChar(env, pat, p).Some? {
      var q := BracketChar(env, pat, p).value.1;
      if IsRangeAt(pat, q) {
        SkipsOne(env, pat, q + 1);
        assert SkipTo(env, pat, q) == SkipTo(env, pat, q + 1);
        if BracketChar(env, pat, q + 1).Some? {
          var r := BracketChar(env, pat, q + 1).value.1;
          SkipClosesLikeScan(env, pat, r);
        }
      } else {
        SkipClosesLikeScan(env, pat, q);
      }
    }
  }

  /** The loop after `matched:`, entered with `p` past the character or range that matched. */
  method SkipRest(env: Env, pat: Str, p0: nat) returns (closed: bool, p: nat)
    requires p0 <= |pat| && NoSubBrackets(env, pat, p0, false)
    ensures closed <==> SkipTo(env, pat, p0).Some?
    ensures closed ==> p == SkipTo(env, pat, p0).value
  {
    p := p0;
    var c := 0;
    while c != RBRACKET
      invariant p <= |pat|
      invariant c != RBRACKET ==> SkipTo(env, pat, p0) == SkipTo(env, pat, p)
      invariant c != RBRACKET ==> NoSubBrackets(env, pat, p, false)
      invariant c == RBRACKET ==> SkipTo(env, pat, p0) == Some(p)
      decreases |pat| - p, c != RBRACKET
    {
      c := At(pat, p);
      if c == 0 {
        return false, p;
      }
      p := p + 1;
      if Escapes(env, c) {
        if At(pat, p) == 0 {
          return false, p;
        }
        p := p + 1;
      }
    }
    closed := true;
  }

  ghost predicate NoneHas(env: Env, items: seq<Item>, x: Ch) {
    forall i | 0 <= i < |items| :: !ItemHas(env, items[i], x)
  }

  /** One character of a bracket, with its escape; `ok` is false when the pattern ends first. */
  method ReadChar(env: Env, pat: Str, at: nat, ghost first: bool) returns (ok: bool, c: Ch, p: nat)
    requires at <= |pat| && NoSubBrackets(env, pat, at, first)
    requires at < |pat| && pat[at] == RBRACKET ==> first
    ensures ok <==> BracketChar(env, pat, at).Some?
    ensures ok ==> BracketChar(env, pat, at) == Some((c, p)) && NoSubBrackets(env, pat, p, false)
  {
    c, p := 1, at;
    if At(pat, p) == 0 {
      return false, c, p;
    }
    c := At(pat, p);
    p := p + 1;
    if Escapes(env, c) {
      if At(pat, p) == 0 {
        return false, c, p;
      }
      c := At(pat, p);
      p := p + 1;
    }
    ok := true;
  }

  /** A `-` that ends the pattern: whether it is read as a range or as a character, the bracket is
      not closed. */
  lemma DashAtEnd(env: Env, pat: Str, q: nat)
    requires q < |pat| && pat[q] == DASH && q + 1 == |pat|
    ensures Items(env, pat, q, false).None?
  {
    assert BracketChar(env, pat, q) == Some((pat[q], q + 1));
    assert Items(env, pat, q + 1, false).None?;
  }

  /** One round of the scanning loop: the item at `at` and whether it has `x`; `ok` is false when the
      pattern ends inside it. */
  method ScanItem(env: Env, pat: Str, at: nat, first: bool, x: Ch)
    returns (ok: bool, has: bool, p: nat, ghost it: Item)
    requires at <= |pat| && NoSubBrackets(env, pat, at, first)
    requires at < |pat| && pat[at] == RBRACKET ==> first
    ensures !ok ==> Items(env, pat, at, first).None?
    ensures ok ==> at < p <= |pat| && Items(env, pat, at, first) == Prepend([it], Items(env, pat, p, false))
    ensures ok ==> has == ItemHas(env, it, x) && NoSubBrackets(env, pat, p, false)
  {
    var c;
    ok, c, p := ReadChar(env, pat, at, first);
    it := One(c);
    if !ok {
      return false, false, p, it;
    }
    var isRange := At(pat, p) == DASH && At(pat, p + 1) != 0 && At(pat, p + 1) != RBRACKET;
    if !isRange && c == x {
      return true, true, p, it;
    }
    if At(pat, p) == DASH && At(pat, p + 1) != RBRACKET {
      ghost var q := p;
      if At(pat, p + 1) == 0 {
        DashAtEnd(env, pat, p);
      }
      var cend;
      ok, cend, p := ReadChar(env, pat, p + 1, false);
      if !ok {
        return false, false, p, it;
      }
      assert IsRangeAt(pat, q);
      it := Span(c, cend);
      return true, LowEnd(env, c) <= x <= cend, p, it;
    }
    has := false;
  }

  /** The `[` case for a subject character `x`, with `p0` past the bracket: whether the bracket is
      well-formed and admits the character, and where it closes. */
  method Bracket(env: Env, pat: Str, p0: nat, x: Ch) returns (hit: bool, p: nat)
    requires p0 <= |pat| && NoSubBrackets(env, pat, BracketBody(env, pat, p0), true)
    ensures
      var o := Items(env, pat, BracketBody(env, pat, p0), true);
      hit <==> o.Some? && Admits(env, Set(NegatesAt(env, pat, p0), o.value.0), x)
    ensures hit ==> p == Items(env, pat, BracketBody(env, pat, p0), true).value.1
  {
    p := p0;
    var negated := At(pat, p) == BANG || (env.caretNegates && At(pat, p) == CARET);
    if negated {
      p := p + 1;
    }
    ghost var all := Items(env, pat, p, true);
    ghost var done: seq<Item> := [];
    var first := true;
    PrependNothing(all);
    while first || At(pat, p) != RBRACKET
      invariant p <= |pat| && NoSubBrackets(env, pat, p, first)
      invariant all == Prepend(done, Items(env, pat, p, first))
      invariant NoneHas(env, done, x)
      decreases |pat| - p
    {
      var ok, has;
      ghost var it;
      ok, has, p, it := ScanItem(env, pat, p, first, x);
      if !ok {
        return false, p;
      }
      first := false;
      if has {
        SkipClosesLikeScan(env, pat, p);
        HitAt(env, pat, all, done, it, Items(env, pat, p, false), x);
        var closed;
        closed, p := SkipRest(env, pat, p);
        return closed && !negated, p;
      }
      PrependTwice(done, [it], Items(env, pat, p, false));
      done := done + [it];
    }
    assert done + [] == done;
    p := p + 1;
    hit := negated;
  }

  lemma PrependNothing(o: Option<(seq<Item>, nat)>)
    ensures Prepend([], o) == o
  {
    if o.Some? {
      assert [] + o.value.0 == o.value.0;
    }
  }

  lemma PrependTwice(a: seq<Item>, b: seq<Item>, o: Option<(seq<Item>, nat)>)
    ensures Prepend(a, Prepend(b, o)) == Prepend(a + b, o)
  {
    if o.Some? {
      assert a + (b + o.value.0) == (a + b) + o.value.0;
    }
  }

  lemma HitAt(env: Env, pat: Str, all: Option<(seq<Item>, nat)>, done: seq<Item>, it: Item,
              o: Option<(seq<Item>, nat)>, x: Ch)
    requires all == Prepend(done, Prepend([it], o)) && ItemHas(env, it, x)
    ensures all.Some? <==> o.Some?
    ensures all.Some? ==> SetHas(env, all.value.0, x) && all.value.1 == o.value.1
  {
    if o.Some? {
      assert all.value.0[|done|] == it;
    }
  }

  // ---------------------------------------------------------------------------------------------
  // The matcher
  // ---------------------------------------------------------------------------------------------

  /** Some tail of the subject from `n` on is denoted by the pattern from `p`: what a `*` before `p`
      asks for. */
  ghost predicate SomeTail(env: Env, pat: Str, p: nat, s: Str, n: nat)
    requires n <= |s|
  {
    exists k | n <= k <= |s| :: Denotes(env, pat, p, s, k)
  }

  lemma StarDenotes(env: Env, pat: Str, p: nat, s: Str, n: nat)
    requires n <= |s| && p < |pat| && pat[p] == STAR
    ensures Denotes(env, pat, p, s, n) <==> SomeTail(env, pat, p + 1, s, n)
  {
    var o := Parse(env, pat, p + 1);
    if o.Some? {
      var es := Parse(env, pat, p).value;
      assert es[0] == Star && es[1..] == o.value;
      var t := s[n..];
      if k :| 0 <= k <= |t| && Matches(env, es[1..], t[k..]) {
        assert t[k..] == s[n + k..];
        assert Denotes(env, pat, p + 1, s, n + k);
      }
      if SomeTail(env, pat, p + 1, s, n) {
        var k :| n <= k <= |s| && Denotes(env, pat, p + 1, s, k);
        assert t[k - n..] == s[k..];
      }
    }
  }

  /** A pattern that starts with an element other than a star consumes exactly one character first. */
  lemma ElemDenotes(env: Env, pat: Str, p: nat, e: Elem, q: nat, s: Str, n: nat)
    requires n <= |s| && !e.Star?
    requires Parse(env, pat, p) == PrependElem(e, Parse(env, pat, q))
    ensures Denotes(env, pat, p, s, n) <==> n < |s| && Admits(env, e, s[n]) && Denotes(env, pat, q, s, n + 1)
  {
    var o := Parse(env, pat, q);
    if o.Some? {
      var es := Parse(env, pat, p).value;
      assert es[0] == e && es[1..] == o.value;
      if n < |s| {
        assert s[n..][1..] == s[n + 1..] && s[n..][0] == s[n];
      }
    }
  }

  /** A second star adds nothing to the first. */
  lemma StarAfterStar(env: Env, pat: Str, p: nat, s: Str, n: nat)
    requires n <= |s| && p < |pat| && pat[p] == STAR
    ensures SomeTail(env, pat, p, s, n) <==> SomeTail(env, pat, p + 1, s, n)
  {
    forall k | n <= k <= |s| {
      StarDenotes(env, pat, p, s, k);
    }
    if SomeTail(env, pat, p, s, n) {
      var k :| n <= k <= |s| && Denotes(env, pat, p, s, k);
      var j :| k <= j <= |s| && Denotes(env, pat, p + 1, s, j);
    }
    if SomeTail(env, pat, p + 1, s, n) {
      assert Denotes(env, pat, p, s, n);
    }
  }

  /** A `?` after a star takes one character at once: it does not matter which. */
  lemma QuestionAfterStar(env: Env, pat: Str, p: nat, s: Str, n: nat)
    requires n <= |s| && p < |pat| && pat[p] == QUESTION
    ensures SomeTail(env, pat, p, s, n) <==> n < |s| && SomeTail(env, pat, p + 1, s, n + 1)
  {
    forall k | n <= k <= |s| {
      ElemDenotes(env, pat, p, Any, p + 1, s, k);
    }
    if SomeTail(env, pat, p, s, n) {
      var k :| n <= k <= |s| && Denotes(env, pat, p, s, k);
      assert Denotes(env, pat, p + 1, s, k + 1);
    }
    if n < |s| && SomeTail(env, pat, p + 1, s, n + 1) {
      var k :| n + 1 <= k <= |s| && Denotes(env, pat, p + 1, s, k);
      assert Denotes(env, pat, p, s, k - 1);
    }
  }

  lemma EndDenotes(env: Env, pat: Str, p: nat, s: Str, n: nat)
    requires n <= |s| && p >= |pat|
    ensures Denotes(env, pat, p, s, n) <==> n == |s|
    ensures SomeTail(env, pat, p, s, n)
  {
    assert s[n..] == [] <==> n == |s|;
    assert s[|s|..] == [];
    assert Denotes(env, pat, p, s, |s|);
  }

  /** The character a subject must start with for the pattern after a star to have a chance:  the
      look-ahead of the source, used for every element but a bracket. */
  lemma LookAhead(env: Env, pat: Str, p: nat, s: Str, n: nat)
    requires n <= |s| && p < |pat| && pat[p] !in {STAR, QUESTION}
    requires Denotes(env, pat, p, s, n)
    ensures n < |s|
    ensures pat[p] != LBRACKET ==> s[n] == if Escapes(env, pat[p]) then At(pat, p + 1) else pat[p]
  {
    if pat[p] == LBRACKET {
      var o := Items(env, pat, BracketBody(env, pat, p + 1), true);
      ElemDenotes(env, pat, p, Set(NegatesAt(env, pat, p + 1), o.value.0), o.value.1, s, n);
    } else {
      var (c, q) := BracketChar(env, pat, p).value;
      ElemDenotes(env, pat, p, Lit(c), q, s, n);
    }
  }

  /** `FCT` with `flags` 0 or `FNM_NOESCAPE`: zero exactly when the pattern denotes the subject. */
  method Fct(env: Env, pat: Str, p0: nat, s: Str, n0: nat) returns (r: int)
    requires p0 <= |pat| && n0 <= |s| && Simple(env, pat, p0)
    ensures r in {0, FNM_NOMATCH}
    ensures r == 0 <==> Denotes(env, pat, p0, s, n0)
    decreases |pat| - p0, 0
  {
    var p: nat, n: nat := p0, n0;
    while At(pat, p) != 0
      invariant p0 <= p <= |pat| && n <= |s| && Simple(env, pat, p)
      invariant Denotes(env, pat, p0, s, n0) <==> Denotes(env, pat, p, s, n)
      decreases |pat| - p
    {
      var c := At(pat, p);
      ghost var at := p;
      p := p + 1;
      if c == QUESTION {
        ElemDenotes(env, pat, at, Any, p, s, n);
        if n == |s| {
          return FNM_NOMATCH;
        }
      } else if c == BACKSLASH {
        if !env.noEscape {
          c := At(pat, p);
          if c == 0 {
            return FNM_NOMATCH;
          }
          p := p + 1;
        }
        ElemDenotes(env, pat, at, Lit(c), p, s, n);
        if n == |s| || s[n] != c {
          return FNM_NOMATCH;
        }
      } else if c == STAR {
        StarDenotes(env, pat, at, s, n);
        r := AfterStar(env, pat, p, s, n);
        return;
      } else if c == LBRACKET {
        ghost var o := Items(env, pat, BracketBody(env, pat, p), true);
        if o.Some? {
          ElemDenotes(env, pat, at, Set(NegatesAt(env, pat, p), o.value.0), o.value.1, s, n);
        }
        if n == |s| {
          return FNM_NOMATCH;
        }
        var hit;
        hit, p := Bracket(env, pat, p, s[n]);
        if !hit {
          return FNM_NOMATCH;
        }
      } else {
        ElemDenotes(env, pat, at, Lit(c), p, s, n);
        if n == |s| || c != s[n] {
          return FNM_NOMATCH;
        }
      }
      n := n + 1;
    }
    EndDenotes(env, pat, p, s, n);
    r := if n == |s| then 0 else FNM_NOMATCH;
  }

  /** The `*` case of `FCT`, with `p0` past the star. */
  method AfterStar(env: Env, pat: Str, p0: nat, s: Str, n0: nat) returns (r: int)
    requires p0 <= |pat| && n0 <= |s| && Simple(env, pat, p0)
    ensures r in {0, FNM_NOMATCH}
    ensures r == 0 <==> SomeTail(env, pat, p0, s, n0)
    decreases |pat| - p0, 1
  {
    var p: nat, n: nat := p0, n0;
    var c := At(pat, p);
    while c == QUESTION || c == STAR
      invariant p0 <= p <= |pat| && n <= |s| && c == At(pat, p) && Simple(env, pat, p)
      invariant SomeTail(env, pat, p0, s, n0) <==> SomeTail(env, pat, p, s, n)
      decreases |pat| - p
    {
      if c == QUESTION {
        QuestionAfterStar(env, pat, p, s, n);
        if n == |s| {
          return FNM_NOMATCH;
        }
        n := n + 1;
      } else {
        StarAfterStar(env, pat, p, s, n);
      }
      p := p + 1;
      c := At(pat, p);
    }
    if c == 0 {
      EndDenotes(env, pat, p, s, n);
      return 0;
    }
    var bracket := c == LBRACKET;
    if Escapes(env, c) {
      c := At(pat, p + 1);
    }
    ghost var from := n;
    while n < |s|
      invariant from <= n <= |s|
      invariant forall k | from <= k < n :: !Denotes(env, pat, p, s, k)
    {
      if bracket || s[n] == c {
        var sub := Fct(env, pat, p, s, n);
        if sub == 0 {
          return 0;
        }
      } else if Denotes(env, pat, p, s, n) {
        LookAhead(env, pat, p, s, n);
      }
      n := n + 1;
    }
    if Denotes(env, pat, p, s, |s|) {
      LookAhead(env, pat, p, s, |s|);
    }
    r := FNM_NOMATCH;
  }

  /** `fnmatch` on whole strings. */
  method Fnmatch(env: Env, pattern: Str, subject: Str) returns (r: int)
    requires Simple(env, pattern, 0)
    ensures r in {0, FNM_NOMATCH}
    ensures r == 0 <==>
            var o := Parse(env, pattern, 0); o.Some? && Matches(env, o.value, subject)
  {
    assert subject[0..] == subject;
    r := Fct(env, pattern, 0, subject, 0);
  }

  // ---------------------------------------------------------------------------------------------
  // Ranges of bytes above 127
  // ---------------------------------------------------------------------------------------------

  /** The same surroundings with ranges compared by byte value, as the standard's "C" locale has them. */
  function Standard(env: Env): Env {
    env.(charSigned := false)
  }

  predicate HighStart(it: Item) {
    it.Span? && it.lo >= 128
  }

  /** What the standard has an item mean. */
  ghost predicate PlainlyHas(it: Item, x: Ch) {
    if it.One? then x == it.c else it.lo <= x <= it.hi
  }

  lemma StandardIsPlain(env: Env, it: Item, x: Ch)
    ensures ItemHas(Standard(env), it, x) <==> PlainlyHas(it, x)
  {
  }

  /** An item has the meaning of the standard exactly when `char` is not signed or it is not a range that starts
      at 128 or above; such a start is read as a negative number, and the range has everything up to its end. */
  lemma RangeIsStandard(env: Env, it: Item)
    ensures (forall x: Ch :: ItemHas(env, it, x) <==> PlainlyHas(it, x)) <==>
              !(env.charSigned && it.Span? && it.lo >= 128)
    ensures env.charSigned && it.Span? && it.lo >= 128 ==> forall x: Ch :: ItemHas(env, it, x) <==> x <= it.hi
  {
    if env.charSigned && HighStart(it) {
      assert ItemHas(env, it, 1) && !PlainlyHas(it, 1);
    }
  }

  /** Reading a pattern does not depend on the signedness of `char`. */
  lemma CharsIgnoreSign(env: Env, pat: Str, p: nat)
    ensures BracketChar(env, pat, p) == BracketChar(Standard(env), pat, p)
  {
  }

  lemma {:induction false} ItemsIgnoreSign(env: Env, pat: Str, p: nat, first: bool)
    ensures Items(env, pat, p, first) == Items(Standard(env), pat, p, first)
    decreases |pat| - p
  {
    hide BracketChar;
    CharsIgnoreSign(env, pat, p);
    if p < |pat| && !(pat[p] == RBRACKET && !first) && BracketChar(env, pat, p).Some? {
      var q := BracketChar(env, pat, p).value.1;
      CharsIgnoreSign(env, pat, q + 1);
      if !IsRangeAt(pat, q) {
        ItemsIgnoreSign(env, pat, q, false);
      } else if BracketChar(env, pat, q + 1).Some? {
        ItemsIgnoreSign(env, pat, BracketChar(env, pat, q + 1).value.1, false);
      }
    }
  }

  lemma {:induction false} ParseIgnoresSign(env: Env, pat: Str, p: nat)
    ensures Parse(env, pat, p) == Parse(Standard(env), pat, p)
    decreases |pat| - p
  {
    if p < |pat| {
      if pat[p] in {QUESTION, STAR} {
        ParseIgnoresSign(env, pat, p + 1);
      } else if pat[p] == LBRACKET {
        ItemsIgnoreSign(env, pat, BracketBody(env, pat, p + 1), true);
        var o := Items(env, pat, BracketBody(env, pat, p + 1), true);
        if o.Some? {
          ParseIgnoresSign(env, pat, o.value.1);
        }
      } else if BracketChar(env, pat, p).Some? {
        ParseIgnoresSign(env, pat, BracketChar(env, pat, p).value.1);
      }
    }
  }

  /** The elements that take a character each. */
  function Takers(es: seq<Elem>): (r: seq<Elem>)
    ensures forall i | 0 <= i < |r| :: !r[i].Star?
  {
    if es == [] then []
    else if es[0].Star? then Takers(es[1..])
    else [es[0]] + Takers(es[1..])
  }

  ghost predicate Pointwise(env: Env, ts: seq<Elem>, s: Str)
    requires forall i | 0 <= i < |ts| :: !ts[i].Star?
  {
    |ts| == |s| && forall i | 0 <= i < |ts| :: Admits(env, ts[i], s[i])
  }

  /** A subject with one character per taker leaves nothing for the stars: it is denoted exactly when
      it is admitted character by character.  A shorter subject is never denoted. */
  lemma {:induction false} TightMatch(env: Env, es: seq<Elem>, s: Str)
    requires |s| <= |Takers(es)|
    ensures Matches(env, es, s) <==> Pointwise(env, Takers(es), s)
    decreases |es|
  {
    if es == [] {
    } else if es[0].Star? {
      forall k | 0 <= k <= |s| {
        TightMatch(env, es[1..], s[k..]);
      }
      assert s[0..] == s;
      if Matches(env, es, s) {
        var k :| 0 <= k <= |s| && Matches(env, es[1..], s[k..]);
        assert |s[k..]| == |s| - k;
      }
    } else if s != [] {
      TightMatch(env, es[1..], s[1..]);
      var ts := Takers(es[1..]);
      assert Takers(es) == [es[0]] + ts;
      if Pointwise(env, ts, s[1..]) && Admits(env, es[0], s[0]) {
        assert forall i | 0 <= i < |s| :: Admits(env, Takers(es)[i], s[i]);
      }
      if Pointwise(env, Takers(es), s) {
        assert Admits(env, Takers(es)[0], s[0]);
        forall i | 0 <= i < |ts|
          ensures Admits(env, ts[i], s[1..][i])
        {
          assert Admits(env, Takers(es)[i + 1], s[i + 1]);
        }
      }
    }
  }

  ghost predicate Barren(env: Env, e: Elem)
    requires !e.Star?
  {
    forall x: Ch :: !Admits(env, e, x)
  }

  ghost predicate SomeBarren(env: Env, ts: seq<Elem>)
    requires forall i | 0 <= i < |ts| :: !ts[i].Star?
  {
    exists i | 0 <= i < |ts| :: Barren(env, ts[i])
  }

  ghost predicate SameElem(env: Env, e: Elem)
    requires !e.Star?
  {
    forall x: Ch :: Admits(env, e, x) == Admits(Standard(env), e, x)
  }

  /** Every element means what the standard says it means, or the pattern has an element that admits
      nothing under either reading, so that it denotes nothing whichever way ranges are read. */
  ghost predicate KeepsMeaning(env: Env, es: seq<Elem>) {
    var ts := Takers(es);
    || (forall i | 0 <= i < |ts| :: SameElem(env, ts[i]))
    || (SomeBarren(env, ts) && SomeBarren(Standard(env), ts))
  }

  lemma {:induction false} SameElemsMatchAlike(env: Env, es: seq<Elem>, s: Str)
    requires forall i | 0 <= i < |Takers(es)| :: SameElem(env, Takers(es)[i])
    ensures Matches(env, es, s) <==> Matches(Standard(env), es, s)
    decreases |es|
  {
    if es == [] {
    } else if es[0].Star? {
      assert Takers(es) == Takers(es[1..]);
      forall k | 0 <= k <= |s| {
        SameElemsMatchAlike(env, es[1..], s[k..]);
      }
    } else if s != [] {
      assert SameElem(env, Takers(es)[0]);
      assert forall i | 0 <= i < |Takers(es[1..])| :: Takers(es[1..])[i] == Takers(es)[i + 1];
      SameElemsMatchAlike(env, es[1..], s[1..]);
    }
  }

  lemma {:induction false} BarrenDenotesNothing(env: Env, es: seq<Elem>, s: Str)
    requires SomeBarren(env, Takers(es))
    ensures !Matches(env, es, s)
    decreases |es|
  {
    if es != [] && es[0].Star? {
      forall k | 0 <= k <= |s| {
        BarrenDenotesNothing(env, es[1..], s[k..]);
      }
    } else if es != [] && s != [] && Admits(env, es[0], s[0]) {
      var i :| 0 <= i < |Takers(es)| && Barren(env, Takers(es)[i]);
      assert Takers(es[1..])[i - 1] == Takers(es)[i];
      BarrenDenotesNothing(env, es[1..], s[1..]);
    }
  }

  /** A subject admitted character by character, with `x` at position `i`. */
  lemma {:induction false} Witness(env: Env, ts: seq<Elem>, i: nat, x: Ch) returns (s: Str)
    requires forall j | 0 <= j < |ts| :: !ts[j].Star?
    requires !SomeBarren(env, ts) && i < |ts| && Admits(env, ts[i], x)
    ensures Pointwise(env, ts, s) && s[i] == x
  {
    s := [];
    while |s| < |ts|
      invariant |s| <= |ts|
      invariant forall j | 0 <= j < |s| :: Admits(env, ts[j], s[j])
      invariant i < |s| ==> s[i] == x
    {
      assert !Barren(env, ts[|s|]);
      var y: Ch :| Admits(env, ts[|s|], y);
      s := s + [if |s| == i then x else y];
    }
  }

  /** On a platform with signed `char`, a pattern keeps its standard meaning on every subject exactly
      when `KeepsMeaning` holds of it. */
  lemma SignedCharMeaning(env: Env, es: seq<Elem>)
    ensures (forall s: Str :: Matches(env, es, s) <==> Matches(Standard(env), es, s)) <==> KeepsMeaning(env, es)
  {
    var std, ts := Standard(env), Takers(es);
    if KeepsMeaning(env, es) {
      forall s: Str
        ensures Matches(env, es, s) <==> Matches(std, es, s)
      {
        if forall i | 0 <= i < |ts| :: SameElem(env, ts[i]) {
          SameElemsMatchAlike(env, es, s);
        } else {
          BarrenDenotesNothing(env, es, s);
          BarrenDenotesNothing(std, es, s);
        }
      }
    } else {
      var i :| 0 <= i < |ts| && !SameElem(env, ts[i]);
      var x: Ch :| Admits(env, ts[i], x) != Admits(std, ts[i], x);
      var s: Str := [];
      if !SomeBarren(env, ts) && (Admits(env, ts[i], x) || SomeBarren(std, ts)) {
        if Admits(env, ts[i], x) {
          s := Witness(env, ts, i, x);
        } else {
          assert !Barren(env, ts[i]);
          var y: Ch :| Admits(env, ts[i], y);
          s := Witness(env, ts, i, y);
        }
      } else {
        if Admits(std, ts[i], x) {
          s := Witness(std, ts, i, x);
        } else {
          assert !Barren(std, ts[i]);
          var y: Ch :| Admits(std, ts[i], y);
          s := Witness(std, ts, i, y);
        }
      }
      TightMatch(env, es, s);
      TightMatch(std, es, s);
      assert Matches(env, es, s) != Matches(std, es, s);
    }
  }

  /** What a caller can look for: a pattern whose ranges all start below 128 keeps its meaning. */
  lemma LowRangesKeepMeaning(env: Env, es: seq<Elem>)
    requires forall e, it | e in es && e.Set? && it in e.items :: !HighStart(it)
    ensures KeepsMeaning(env, es)
  {
    var ts := Takers(es);
    forall i | 0 <= i < |ts|
      ensures SameElem(env, ts[i])
    {
      TakersAreElems(es, i);
      if ts[i].Set? {
        var items := ts[i].items;
        forall x: Ch
          ensures SetHas(env, items, x) == SetHas(Standard(env), items, x)
        {
          forall j | 0 <= j < |items|
            ensures ItemHas(env, items[j], x) == ItemHas(Standard(env), items[j], x)
          {
            assert ts[i] in es && items[j] in ts[i].items;
            assert !HighStart(items[j]);
          }
        }
      }
    }
  }

  lemma {:induction false} TakersAreElems(es: seq<Elem>, i: nat)
    requires i < |Takers(es)|
    ensures Takers(es)[i] in es
  {
    if es[0].Star? {
      TakersAreElems(es[1..], i);
    } else if i > 0 {
      TakersAreElems(es[1..], i - 1);
    }
  }

  /** `[é-ü]` in ISO 8859-1, which also admits every plain letter when `char` is signed. */
  lemma SignedRangeExample(env: Env)
    requires env.charSigned
    ensures !KeepsMeaning(env, [Set(false, [Span(233, 252)])])
  {
    var e := Set(false, [Span(233, 252)]);
    assert Takers([e]) == [e];
    assert ItemHas(env, e.items[0], 97);
    assert Admits(env, e, 97) && !Admits(Standard(env), e, 97);
    assert ItemHas(Standard(env), e.items[0], 240);
    assert Admits(Standard(env), e, 240);
  }
}
