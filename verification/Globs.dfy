/** What the glob matcher of src/fnmatch_loop.c says about patterns that are written out: `Write` puts elements
    down as a pattern, and the laws after it say what each means, without any of the matcher's own terms. */
module Globs {
  import opened Wrappers
  import opened Fnmatch

  // ---------------------------------------------------------------------------------------------
  // Writing patterns
  // ---------------------------------------------------------------------------------------------

  /** A character in a bracket, behind a backslash when it could mean something there. */
  function Inside(c: Ch): (s: Str) {
    if c in {'[' as int, ']' as int, '-' as int, '!' as int, '^' as int, '\\' as int} then ['\\' as int, c] else [c]
  }

  function WriteItem(it: Item): Str {
    match it
    case One(c) => Inside(c)
    case Span(lo, hi) => Inside(lo) + ['-' as int] + Inside(hi)
  }

  function WriteItems(items: seq<Item>): Str {
    if items == [] then [] else WriteItem(items[0]) + WriteItems(items[1..])
  }

  function WriteElem(e: Elem): Str {
    match e
    case Lit(c) => if c in {'*' as int, '?' as int, '[' as int, '\\' as int} then ['\\' as int, c] else [c]
    case Any => ['?' as int]
    case Star => ['*' as int]
    case Set(neg, items) => ['[' as int] + (if neg then ['!' as int] else []) + WriteItems(items) + [']' as int]
  }

  function Write(es: seq<Elem>): Str {
    if es == [] then [] else WriteElem(es[0]) + Write(es[1..])
  }

  predicate Writable(es: seq<Elem>) {
    forall i | 0 <= i < |es| && es[i].Set? :: es[i].items != []
  }

  lemma Front(pat: Str, p: nat, front: Str, rest: Str)
    requires p <= |pat| && pat[p..] == front + rest
    ensures p + |front| <= |pat| && pat[p + |front|..] == rest
    ensures forall i | 0 <= i < |front| :: pat[p + i] == front[i]
    ensures rest != [] ==> p + |front| < |pat| && pat[p + |front|] == rest[0]
  {
    assert pat[p..][|front|..] == rest;
    forall i | 0 <= i < |front|
      ensures pat[p + i] == front[i]
    {
      assert pat[p..][i] == front[i];
    }
    if rest != [] {
      assert pat[p..][|front|] == rest[0];
    }
  }

  lemma ReadsInside(env: Env, pat: Str, p: nat, c: Ch, rest: Str)
    requires !env.noEscape && p <= |pat| && pat[p..] == Inside(c) + rest
    ensures BracketChar(env, pat, p) == Some((c, p + |Inside(c)|))
    ensures p + |Inside(c)| <= |pat| && pat[p + |Inside(c)|..] == rest
    ensures pat[p] != ']' as int && pat[p] != '!' as int && pat[p] != '^' as int
    ensures NoSubBrackets(env, pat, p + |Inside(c)|, false) ==> forall first :: NoSubBrackets(env, pat, p, first)
  {
    Front(pat, p, Inside(c), rest);
    assert pat[p] == Inside(c)[0];
    if |Inside(c)| == 2 {
      assert pat[p + 1] == Inside(c)[1];
    }
  }

  lemma ReadsOne(env: Env, pat: Str, p: nat, c: Ch, items: seq<Item>, e: nat, rest: Str, first: bool)
    requires !env.noEscape && p <= |pat| && pat[p..] == Inside(c) + rest && rest != [] && rest[0] != '-' as int
    requires Items(env, pat, p + |Inside(c)|, false) == Some((items, e)) && NoSubBrackets(env, pat, p + |Inside(c)|, false)
    ensures Items(env, pat, p, first) == Some(([One(c)] + items, e)) && NoSubBrackets(env, pat, p, first)
  {
    hide Inside, BracketChar, NoSubBrackets;
    ReadsInside(env, pat, p, c, rest);
    Front(pat, p, Inside(c), rest);
  }

  lemma ReadsSpan(env: Env, pat: Str, p: nat, lo: Ch, hi: Ch, items: seq<Item>, e: nat, rest: Str, first: bool)
    requires !env.noEscape && p <= |pat| && pat[p..] == Inside(lo) + (['-' as int] + (Inside(hi) + rest))
    requires
      var r := p + |Inside(lo)| + 1 + |Inside(hi)|;
      Items(env, pat, r, false) == Some((items, e)) && NoSubBrackets(env, pat, r, false)
    ensures Items(env, pat, p, first) == Some(([Span(lo, hi)] + items, e)) && NoSubBrackets(env, pat, p, first)
  {
    hide Inside, BracketChar, NoSubBrackets, Items, IsRangeAt;
    SpanChars(env, pat, p, lo, hi, rest);
    SpanItems(env, pat, p, lo, p + |Inside(lo)|, hi, p + |Inside(lo)| + 1 + |Inside(hi)|, items, e, first);
  }

  lemma SpanChars(env: Env, pat: Str, p: nat, lo: Ch, hi: Ch, rest: Str)
    requires !env.noEscape && p <= |pat| && pat[p..] == Inside(lo) + (['-' as int] + (Inside(hi) + rest))
    ensures
      var q := p + |Inside(lo)|;
      var r := q + 1 + |Inside(hi)|;
      && p < |pat| && pat[p] != ']' as int && BracketChar(env, pat, p) == Some((lo, q)) && IsRangeAt(pat, q)
      && BracketChar(env, pat, q + 1) == Some((hi, r))
      && (NoSubBrackets(env, pat, r, false) ==> forall first :: NoSubBrackets(env, pat, p, first))
  {
    hide Inside, BracketChar, NoSubBrackets;
    var q := p + |Inside(lo)|;
    var tail := ['-' as int] + (Inside(hi) + rest);
    SomeInside(lo);
    SomeInside(hi);
    Front(pat, p, Inside(lo), tail);
    Front(pat, q, ['-' as int], Inside(hi) + rest);
    assert pat[q] == '-' as int;
    Front(pat, q + 1, Inside(hi), rest);
    ReadsInside(env, pat, q + 1, hi, rest);
    ReadsInside(env, pat, p, lo, tail);
    RangeIs(pat, q);
    if NoSubBrackets(env, pat, q + 1, false) {
      NoSubDash(env, pat, q);
    }
  }

  lemma SpanItems(env: Env, pat: Str, p: nat, lo: Ch, q: nat, hi: Ch, r: nat, items: seq<Item>, e: nat, first: bool)
    requires p < |pat| && pat[p] != ']' as int && BracketChar(env, pat, p) == Some((lo, q)) && IsRangeAt(pat, q)
    requires BracketChar(env, pat, q + 1) == Some((hi, r)) && Items(env, pat, r, false) == Some((items, e))
    ensures Items(env, pat, p, first) == Some(([Span(lo, hi)] + items, e))
  {
    hide BracketChar, IsRangeAt;
  }

  lemma SomeInside(c: Ch)
    ensures |Inside(c)| >= 1
  {
  }

  lemma RangeIs(pat: Str, q: nat)
    requires q + 1 < |pat| && pat[q] == '-' as int && pat[q + 1] != ']' as int
    ensures IsRangeAt(pat, q)
  {
  }

  lemma NoSubDash(env: Env, pat: Str, q: nat)
    requires q < |pat| && pat[q] == '-' as int && NoSubBrackets(env, pat, q + 1, false)
    ensures NoSubBrackets(env, pat, q, false)
  {
  }

  lemma {:induction false} ReadsItems(env: Env, pat: Str, p: nat, items: seq<Item>, rest: Str, first: bool)
    requires !env.noEscape && p <= |pat| && pat[p..] == WriteItems(items) + ([']' as int] + rest)
    requires first ==> items != []
    ensures Items(env, pat, p, first) == Some((items, |pat| - |rest|))
    ensures NoSubBrackets(env, pat, p, first)
    decreases |items|
  {
    hide Items, NoSubBrackets, Inside, WriteItem, WriteItems, BracketChar;
    if items == [] {
      ReadsEnd(env, pat, p, rest);
    } else {
      var it, more := items[0], WriteItems(items[1..]) + ([']' as int] + rest);
      FirstItem(items, [']' as int] + rest);
      Front(pat, p, WriteItem(it), more);
      ReadsItems(env, pat, p + |WriteItem(it)|, items[1..], rest, false);
      NotDash(items[1..], rest);
      match it {
        case One(c) =>
          OneIs(c);
          ReadsOne(env, pat, p, c, items[1..], |pat| - |rest|, more, first);
        case Span(lo, hi) =>
          SpanIs(lo, hi, more);
          ReadsSpan(env, pat, p, lo, hi, items[1..], |pat| - |rest|, more, first);
      }
    }
  }

  lemma ReadsEnd(env: Env, pat: Str, p: nat, rest: Str)
    requires p <= |pat| && pat[p..] == WriteItems([]) + ([']' as int] + rest)
    ensures Items(env, pat, p, false) == Some(([], |pat| - |rest|)) && NoSubBrackets(env, pat, p, false)
  {
    assert pat[p..] == [']' as int] + rest;
    Front(pat, p, [']' as int], rest);
    assert pat[p] == ']' as int;
  }

  lemma FirstItem(items: seq<Item>, tail: Str)
    requires items != []
    ensures [items[0]] + items[1..] == items
    ensures WriteItems(items) + tail == WriteItem(items[0]) + (WriteItems(items[1..]) + tail)
  {
    hide WriteItem;
  }

  lemma OneIs(c: Ch)
    ensures WriteItem(One(c)) == Inside(c)
  {
  }

  lemma SpanIs(lo: Ch, hi: Ch, more: Str)
    ensures |WriteItem(Span(lo, hi))| == |Inside(lo)| + 1 + |Inside(hi)|
    ensures WriteItem(Span(lo, hi)) + more == Inside(lo) + (['-' as int] + (Inside(hi) + more))
  {
    hide Inside;
  }

  lemma NotDash(items: seq<Item>, rest: Str)
    ensures
      var more := WriteItems(items) + ([']' as int] + rest);
      more[0] != '-' as int
  {
    if items != [] {
      var it := items[0];
      assert WriteItem(it)[0] != '-' as int;
    }
  }

  /** A pattern that has been written reads as what was meant. */
  lemma {:induction false} ReadsBack(env: Env, pat: Str, p: nat, es: seq<Elem>)
    requires !env.noEscape && Writable(es) && p <= |pat| && pat[p..] == Write(es)
    ensures Parse(env, pat, p) == Some(es) && Simple(env, pat, p)
    decreases |es|
  {
    hide Items, NoSubBrackets, Parse, Simple, WriteElem, Write;
    if es == [] {
      ReadsNothing(env, pat, p);
    } else {
      var e, rest := es[0], Write(es[1..]);
      FirstElem(es);
      Front(pat, p, WriteElem(e), rest);
      assert forall i | 0 <= i < |es[1..]| :: es[1..][i] == es[i + 1];
      ReadsBack(env, pat, p + |WriteElem(e)|, es[1..]);
      if e.Set? {
        ReadsSet(env, pat, p, e, es[1..], rest);
      } else {
        ReadsPlain(env, pat, p, e, es[1..], rest);
      }
    }
  }

  lemma ReadsNothing(env: Env, pat: Str, p: nat)
    requires p <= |pat| && pat[p..] == Write([])
    ensures Parse(env, pat, p) == Some([]) && Simple(env, pat, p)
  {
    assert |pat[p..]| == 0;
  }

  lemma FirstElem(es: seq<Elem>)
    requires es != []
    ensures [es[0]] + es[1..] == es && Write(es) == WriteElem(es[0]) + Write(es[1..])
  {
    hide WriteElem;
  }

  lemma ReadsPlain(env: Env, pat: Str, p: nat, e: Elem, es: seq<Elem>, rest: Str)
    requires !env.noEscape && p <= |pat| && !e.Set? && pat[p..] == WriteElem(e) + rest
    requires Parse(env, pat, p + |WriteElem(e)|) == Some(es) && Simple(env, pat, p + |WriteElem(e)|)
    ensures Parse(env, pat, p) == Some([e] + es) && Simple(env, pat, p)
  {
    Front(pat, p, WriteElem(e), rest);
    assert pat[p] == WriteElem(e)[0];
    if |WriteElem(e)| == 2 {
      assert pat[p + 1] == WriteElem(e)[1];
    }
  }

  lemma ReadsSet(env: Env, pat: Str, p: nat, e: Elem, es: seq<Elem>, rest: Str)
    requires !env.noEscape && p <= |pat| && e.Set? && e.items != [] && pat[p..] == WriteElem(e) + rest
    requires Parse(env, pat, p + |WriteElem(e)|) == Some(es) && Simple(env, pat, p + |WriteElem(e)|)
    ensures Parse(env, pat, p) == Some([e] + es) && Simple(env, pat, p)
  {
    ReadsBody(env, pat, p, e, rest);
    hide Items, NoSubBrackets, WriteElem, NegatesAt, BracketBody;
  }

  lemma ReadsBody(env: Env, pat: Str, p: nat, e: Elem, rest: Str)
    requires !env.noEscape && p <= |pat| && e.Set? && e.items != [] && pat[p..] == WriteElem(e) + rest
    ensures p < |pat| && pat[p] == '[' as int && NegatesAt(env, pat, p + 1) == e.neg
    ensures
      var b := BracketBody(env, pat, p + 1);
      Items(env, pat, b, true) == Some((e.items, p + |WriteElem(e)|)) && NoSubBrackets(env, pat, b, true)
  {
    hide Items, NoSubBrackets, WriteItems, WriteElem;
    var mark: Str := ['[' as int] + if e.neg then ['!' as int] else [];
    var body := WriteItems(e.items) + ([']' as int] + rest);
    SetIs(e, rest);
    Front(pat, p, mark, body);
    FirstInside(e.items, [']' as int] + rest);
    ReadsItems(env, pat, p + |mark|, e.items, rest, true);
    assert pat[p] == mark[0];
    if e.neg {
      assert pat[p + 1] == mark[1];
    }
  }

  lemma SetIs(e: Elem, rest: Str)
    requires e.Set?
    ensures
      var mark: Str := ['[' as int] + if e.neg then ['!' as int] else [];
      && WriteElem(e) + rest == mark + (WriteItems(e.items) + ([']' as int] + rest))
      && |WriteElem(e)| == |mark| + |WriteItems(e.items)| + 1
  {
    hide WriteItems;
  }

  lemma FirstInside(items: seq<Item>, rest: Str)
    requires items != []
    ensures
      var body := WriteItems(items) + rest;
      body != [] && body[0] != '!' as int && body[0] != '^' as int
  {
    var c := if items[0].One? then items[0].c else items[0].lo;
    assert WriteItem(items[0])[0] == Inside(c)[0];
  }

  // ---------------------------------------------------------------------------------------------
  // What they mean
  // ---------------------------------------------------------------------------------------------

  /** Elements one after another take the subject apart. */
  lemma {:induction false} Together(env: Env, a: seq<Elem>, b: seq<Elem>, s: Str)
    ensures Matches(env, a + b, s) <==>
              exists k | 0 <= k <= |s| :: Matches(env, a, s[..k]) && Matches(env, b, s[k..])
    decreases |a|
  {
    if a == [] {
      assert a + b == b && s[0..] == s && s[..0] == [];
      if k :| 0 <= k <= |s| && Matches(env, a, s[..k]) && Matches(env, b, s[k..]) {
        assert k == 0;
      }
    } else {
      assert (a + b)[1..] == a[1..] + b;
      if a[0].Star? {
        StarTogether(env, a, b, s);
      } else {
        OneTogether(env, a, b, s);
      }
    }
  }

  lemma StarTogether(env: Env, a: seq<Elem>, b: seq<Elem>, s: Str)
    requires a != [] && a[0].Star?
    ensures Matches(env, a + b, s) <==>
              exists k | 0 <= k <= |s| :: Matches(env, a, s[..k]) && Matches(env, b, s[k..])
    decreases |a|, 0
  {
    assert (a + b)[1..] == a[1..] + b;
    if Matches(env, a + b, s) {
      var j :| 0 <= j <= |s| && Matches(env, (a + b)[1..], s[j..]);
      Together(env, a[1..], b, s[j..]);
      var k :| 0 <= k <= |s[j..]| && Matches(env, a[1..], s[j..][..k]) && Matches(env, b, s[j..][k..]);
      assert s[..j + k][j..] == s[j..][..k] && s[j..][k..] == s[j + k..];
      assert Matches(env, a, s[..j + k]) && Matches(env, b, s[j + k..]);
    }
    if k :| 0 <= k <= |s| && Matches(env, a, s[..k]) && Matches(env, b, s[k..]) {
      var j :| 0 <= j <= k && Matches(env, a[1..], s[..k][j..]);
      assert s[..k][j..] == s[j..][..k - j] && s[k..] == s[j..][k - j..];
      Together(env, a[1..], b, s[j..]);
      assert Matches(env, (a + b)[1..], s[j..]);
    }
  }

  lemma OneTogether(env: Env, a: seq<Elem>, b: seq<Elem>, s: Str)
    requires a != [] && !a[0].Star?
    ensures Matches(env, a + b, s) <==>
              exists k | 0 <= k <= |s| :: Matches(env, a, s[..k]) && Matches(env, b, s[k..])
    decreases |a|, 0
  {
    assert (a + b)[1..] == a[1..] + b;
    if s != [] {
      Together(env, a[1..], b, s[1..]);
      if Matches(env, a + b, s) {
        var k :| 0 <= k <= |s[1..]| && Matches(env, a[1..], s[1..][..k]) && Matches(env, b, s[1..][k..]);
        assert s[..k + 1][1..] == s[1..][..k] && s[1..][k..] == s[k + 1..];
        assert Matches(env, a, s[..k + 1]) && Matches(env, b, s[k + 1..]);
      }
      if k :| 0 <= k <= |s| && Matches(env, a, s[..k]) && Matches(env, b, s[k..]) {
        assert s[..k][1..] == s[1..][..k - 1] && s[k..] == s[1..][k - 1..];
      }
    }
  }

  /** What each element means by itself. */
  lemma Alone(env: Env, s: Str)
    ensures Matches(env, [], s) <==> s == []
    ensures Matches(env, [Star], s)
    ensures Matches(env, [Any], s) <==> |s| == 1
    ensures forall c: Ch :: Matches(env, [Lit(c)], s) <==> s == [c]
  {
    assert s[|s|..] == [];
    forall e: Elem
      ensures [e][1..] == []
    {
    }
  }

  /** A bracket takes one character: one that it lists, or with `!` one that it does not; but for ranges from 128
      up where `char` is signed. */
  lemma Bracketed(env: Env, neg: bool, items: seq<Item>, s: Str)
    requires env.charSigned ==> forall i | 0 <= i < |items| && items[i].Span? :: items[i].lo < 128
    ensures Matches(env, [Set(neg, items)], s) <==>
              |s| == 1 && (neg <==> !exists i | 0 <= i < |items| :: PlainlyHas(items[i], s[0]))
  {
    assert [Set(neg, items)][1..] == [];
    forall i, x: Ch | 0 <= i < |items|
      ensures ItemHas(env, items[i], x) <==> PlainlyHas(items[i], x)
    {
      RangeIsStandard(env, items[i]);
    }
  }

  /** The matcher on a pattern that has been written. */
  method MatchWritten(env: Env, es: seq<Elem>, s: Str) returns (r: int)
    requires !env.noEscape && Writable(es)
    ensures r in {0, FNM_NOMATCH} && (r == 0 <==> Matches(env, es, s))
  {
    var pat := Write(es);
    assert pat[0..] == pat;
    ReadsBack(env, pat, 0, es);
    r := Fnmatch.Fnmatch(env, pat, s);
  }

  /** `!` after the bracket negates it, and so does `^` where it does. */
  lemma NegationSpelled(env: Env, pat: Str, p: nat)
    ensures NegatesAt(env, pat, p) <==>
              p < |pat| && (pat[p] == '!' as int || (env.caretNegates && pat[p] == '^' as int))
  {
  }

  /** The patterns that are left out have `[:`, `[=` or `[.` in a bracket; no others are. */
  lemma {:induction false} SubBracketsSpelled(env: Env, pat: Str, p: nat, first: bool)
    ensures (forall i | p <= i < |pat| - 1 :: !(pat[i] == '[' as int && pat[i + 1] in {':' as int, '=' as int, '.' as int})) ==>
              NoSubBrackets(env, pat, p, first)
    ensures p + 1 < |pat| && pat[p] == '[' as int && pat[p + 1] in {':' as int, '=' as int, '.' as int} ==>
              !NoSubBrackets(env, pat, p, first)
    decreases |pat| - p
  {
    if p < |pat| {
      SubBracketsSpelled(env, pat, p + 1, false);
      if p + 1 < |pat| {
        SubBracketsSpelled(env, pat, p + 2, false);
      }
    }
  }
}
