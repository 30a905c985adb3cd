/** The text of a metadata block, from src/format_mp3.c: how it is put together from the title, artist, URL
    and other items of a source, and how it is taken apart again. */
module Mp3Title {
  import opened Bytes
  import opened Wrappers
  import opened Icy

  // StreamTitle=' and StreamUrl=' and '; and " - "
  const TITLE: seq<Byte> := [83, 116, 114, 101, 97, 109, 84, 105, 116, 108, 101, 61, 39]
  const URL: seq<Byte> := [83, 116, 114, 101, 97, 109, 85, 114, 108, 61, 39]
  const END: seq<Byte> := [39, 59]
  const DASH: seq<Byte> := [32, 45, 32]

  const MAX_META_LEN := 4080

  type Text = seq<Byte>

  /** The metadata fields of `mp3_state`. */
  datatype Fields = Fields(
    title: Option<Text>,
    artist: Option<Text>,
    inlineUrl: Option<Text>,
    url: Option<Text>,
    extra: Option<Text>)

  function Or(a: Option<Text>, b: Text): Text {
    if a.Some? then a.value else b
  }

  /** What listeners are shown: the title, after the artist if there is one as well. */
  function Name(f: Fields): Text {
    if f.artist.Some? && f.title.Some? then f.artist.value + DASH + f.title.value else Or(f.title, [])
  }

  function UrlOf(f: Fields): Option<Text> {
    if f.inlineUrl.Some? then f.inlineUrl else f.url
  }

  function UrlItem(f: Fields): Text {
    if UrlOf(f).Some? then URL + UrlOf(f).value + END else []
  }

  /** The whole text. */
  function Shown(f: Fields): Text {
    TITLE + Name(f) + END + UrlItem(f) + Or(f.extra, [])
  }

  /** What listeners are shown, in letters. */
  lemma ShownSpelled(f: Fields)
    ensures f.artist.Some? && f.title.Some? ==> Name(f) == f.artist.value + Letters(" - ") + f.title.value
    ensures f.artist.None? && f.title.Some? ==> Name(f) == f.title.value
    ensures f.title.None? ==> Name(f) == []
    ensures
      var url :=
        match (f.inlineUrl, f.url)
        case (Some(u), _) => Letters("StreamUrl='") + u + Letters("';")
        case (None, Some(u)) => Letters("StreamUrl='") + u + Letters("';")
        case (None, None) => [];
      var extra := if f.extra.Some? then f.extra.value else [];
      Shown(f) == Letters("StreamTitle='") + Name(f) + Letters("';") + url + extra
  {
    assert TITLE == Letters("StreamTitle='") && URL == Letters("StreamUrl='") && END == Letters("';") && DASH == Letters(" - ");
    hide Name;
  }

  /** `strstr (s + from, "';")` */
  function FindEnd(s: Text, from: nat): (i: Option<nat>)
    requires from <= |s|
    ensures i.Some? ==> from <= i.value && EndAt(s, i.value) && forall k | from <= k < i.value :: !EndAt(s, k)
    ensures i.None? ==> forall k: nat | from <= k :: !EndAt(s, k)
    decreases |s| - from
  {
    if from + 2 > |s| then None else if EndAt(s, from) then Some(from) else FindEnd(s, from + 1)
  }

  predicate EndAt(s: Text, i: nat) {
    i + 2 <= |s| && s[i] == 39 && s[i + 1] == 59
  }

  lemma EndSpelled(s: Text, i: nat)
    ensures EndAt(s, i) <==> i + 2 <= |s| && s[i..i + 2] == Letters("';")
  {
  }

  /** A text with no end of item in it. */
  predicate Plain(s: Text) {
    forall i | 0 <= i < |s| :: !EndAt(s, i)
  }

  /** An item that is none of the two that are known, and ends where it is seen to end. */
  predicate GoodItem(s: Text) {
    |s| >= 2 && FindEnd(s, 0) == Some(|s| - 2) && !(TITLE <= s) && !(URL <= s)
  }

  function Others(extra: Text): Option<Text> {
    if extra == [] then None else Some(extra)
  }

  /** What the items of a text make of the fields; `extra` is what other items there have been. */
  function Parsed(f: Fields, text: Text, extra: Text): Fields
    decreases |text|
  {
    var from := if TITLE <= text then |TITLE| else if URL <= text then |URL| else 0;
    match FindEnd(text, from)
    case None => f.(extra := Others(extra))
    case Some(end) =>
      var rest := text[end + 2..];
      if TITLE <= text then Parsed(f.(title := Some(text[from..end]), artist := None), rest, extra)
      else if URL <= text then Parsed(f.(inlineUrl := Some(text[from..end])), rest, extra)
      else Parsed(f, rest, extra + text[..end + 2])
  }

  /** The end of a plain text that is followed by an end of item. */
  lemma EndAfter(lead: Text, s: Text, rest: Text)
    requires Plain(s)
    ensures FindEnd(lead + s + END + rest, |lead|) == Some(|lead| + |s|)
  {
    var t := lead + s + END + rest;
    assert EndAt(t, |lead| + |s|);
    forall k | |lead| <= k < |lead| + |s|
      ensures !EndAt(t, k)
    {
      assert t[k] == s[k - |lead|];
      assert !EndAt(s, k - |lead|);
    }
  }

  lemma ParsedTitle(f: Fields, name: Text, rest: Text, extra: Text)
    requires Plain(name)
    ensures Parsed(f, TITLE + name + END + rest, extra) == Parsed(f.(title := Some(name), artist := None), rest, extra)
  {
    var text := TITLE + name + END + rest;
    EndAfter(TITLE, name, rest);
    hide FindEnd;
    assert text[..|TITLE|] == TITLE;
    assert text[|TITLE|..|TITLE| + |name|] == name && text[|TITLE| + |name| + 2..] == rest;
  }

  lemma ParsedUrl(f: Fields, url: Text, rest: Text, extra: Text)
    requires Plain(url)
    ensures Parsed(f, URL + url + END + rest, extra) == Parsed(f.(inlineUrl := Some(url)), rest, extra)
  {
    var text := URL + url + END + rest;
    EndAfter(URL, url, rest);
    hide FindEnd;
    assert text[..|URL|] == URL;
    assert text[6] == URL[6] != TITLE[6];
    assert text[|URL|..|URL| + |url|] == url && text[|URL| + |url| + 2..] == rest;
  }

  /** An item that is not known, and what follows. */
  lemma ParsedItem(f: Fields, item: Text, rest: Text, extra: Text)
    requires GoodItem(item)
    ensures Parsed(f, item + rest, extra) == Parsed(f, rest, extra + item)
  {
    var text, end := item + rest, |item| - 2;
    assert EndAt(text, end);
    forall k | 0 <= k < end
      ensures !EndAt(text, k)
    {
      assert !EndAt(item, k);
    }
    assert FindEnd(text, 0) == Some(end);
    hide FindEnd;
    NotThat(TITLE, item, rest);
    NotThat(URL, item, rest);
    assert text[end + 2..] == rest && text[..end + 2] == item;
  }

  /** No semicolon in it, so it is not the beginning of something known. */
  lemma NotThat(known: Text, item: Text, rest: Text)
    requires !(known <= item) && |item| >= 2 && item[|item| - 1] == 59 && forall i | 0 <= i < |known| :: known[i] != 59
    ensures !(known <= item + rest)
  {
    var text := item + rest;
    assert text[|item| - 1] == 59;
    assert |known| <= |item| ==> text[..|known|] == item[..|known|];
  }

  lemma {:induction false} ParsedItems(f: Fields, items: seq<Text>, extra: Text)
    requires forall i | 0 <= i < |items| :: GoodItem(items[i])
    ensures Parsed(f, Join(items), extra)
         == f.(extra := Others(extra + Join(items)))
    decreases |items|
  {
    if items == [] {
      ParsedNothing(f, extra);
      assert extra + [] == extra;
    } else {
      hide Parsed, Join, GoodItem, Others;
      var first, rest := items[0], items[1..];
      FirstItem(items);
      ParsedItem(f, first, Join(rest), extra);
      ParsedItems(f, rest, extra + first);
      Regroup(extra, first, Join(rest));
    }
  }

  lemma Regroup(a: Text, b: Text, c: Text)
    ensures (a + b) + c == a + (b + c)
  {
  }

  lemma ParsedNothing(f: Fields, extra: Text)
    ensures Parsed(f, [], extra) == f.(extra := Others(extra))
  {
  }

  lemma FirstItem(items: seq<Text>)
    requires items != []
    ensures Join(items) == items[0] + Join(items[1..])
  {
    hide Join;
    JoinSplit(items, 1);
    assert items[..1] == [] + [items[0]];
    JoinSnoc([], items[0]);
    JoinNone(items);
    assert items[..0] == [];
  }

  /** What a source is told is what it shows: title, URL and other items come back, for fields that do not
      hold an end of item and other items that do end. */
  lemma {:induction false} TextReadsBack(f: Fields, g: Fields, items: seq<Text>)
    requires Plain(Name(f)) && (UrlOf(f).Some? ==> Plain(UrlOf(f).value))
    requires Or(f.extra, []) == Join(items) && forall i | 0 <= i < |items| :: GoodItem(items[i])
    ensures Parsed(g, Shown(f), [])
        == Fields(Some(Name(f)), None, if UrlOf(f).Some? then UrlOf(f) else g.inlineUrl, g.url, Others(Join(items)))
  {
    hide Parsed, GoodItem, Join, Plain, EndAt;
    var extra := Or(f.extra, []);
    var g1 := g.(title := Some(Name(f)), artist := None);
    assert Shown(f) == TITLE + Name(f) + END + (UrlItem(f) + extra);
    ParsedTitle(g, Name(f), UrlItem(f) + extra, []);
    assert [] + extra == extra;
    if UrlOf(f).Some? {
      var url := UrlOf(f).value;
      assert UrlItem(f) + extra == URL + url + END + extra;
      ParsedUrl(g1, url, extra, []);
      ParsedItems(g1.(inlineUrl := Some(url)), items, []);
    } else {
      assert UrlItem(f) + extra == extra;
      ParsedItems(g1, items, []);
    }
  }

  lemma CutIsPlain(text: Text, from: nat)
    requires from <= |text| && FindEnd(text, from).Some?
    ensures Plain(text[from..FindEnd(text, from).value])
  {
    var end := FindEnd(text, from).value;
    forall i | 0 <= i < end - from
      ensures !EndAt(text[from..end], i)
    {
      assert !EndAt(text, from + i);
    }
  }

  lemma {:induction false} TitlesArePlain(f: Fields, text: Text, extra: Text)
    ensures
      var title := Parsed(f, text, extra).title;
      title == f.title || (title.Some? && Plain(title.value))
    decreases |text|
  {
    hide Plain, FindEnd;
    var from := if TITLE <= text then |TITLE| else if URL <= text then |URL| else 0;
    match FindEnd(text, from)
    case None =>
    case Some(end) =>
      CutIsPlain(text, from);
      var rest := text[end + 2..];
      if TITLE <= text {
        TitlesArePlain(f.(title := Some(text[from..end]), artist := None), rest, extra);
      } else if URL <= text {
        TitlesArePlain(f.(inlineUrl := Some(text[from..end])), rest, extra);
      } else {
        TitlesArePlain(f, rest, extra + text[..end + 2]);
      }
  }

  /** The title comes back exactly when there is no end of item in it. */
  lemma {:induction false} TitleReadsBackWhen(f: Fields, g: Fields, items: seq<Text>)
    requires UrlOf(f).Some? ==> Plain(UrlOf(f).value)
    requires Or(f.extra, []) == Join(items) && forall i | 0 <= i < |items| :: GoodItem(items[i])
    ensures Parsed(g, Shown(f), []).title == Some(Name(f)) <==> Plain(Name(f))
  {
    if Plain(Name(f)) {
      TextReadsBack(f, g, items);
    } else {
      hide Parsed, Plain, GoodItem;
      PlainIsTaken(g, Name(f), UrlItem(f) + Or(f.extra, []));
      assert Shown(f) == TITLE + Name(f) + END + (UrlItem(f) + Or(f.extra, []));
    }
  }

  lemma EndsAfter(lead: Text, rest: Text)
    ensures EndAt(lead + END + rest, |lead|)
  {
  }

  lemma {:induction false} PlainIsTaken(g: Fields, name: Text, rest: Text)
    ensures
      var title := Parsed(g, TITLE + name + END + rest, []).title;
      title.Some? && Plain(title.value)
  {
    hide Plain, FindEnd, EndAt;
    var text := TITLE + name + END + rest;
    assert text[..|TITLE|] == TITLE;
    EndsAfter(TITLE + name, rest);
    CutIsPlain(text, |TITLE|);
    var end := FindEnd(text, |TITLE|).value;
    TitlesArePlain(g.(title := Some(text[|TITLE|..end]), artist := None), text[end + 2..], []);
  }

  // ---------------------------------------------------------------------------------------------
  // The block
  // ---------------------------------------------------------------------------------------------

  /** A C string: what comes before the first NUL. */
  function CString(s: seq<Byte>): (t: Text)
    ensures t <= s && |t| <= |s| && forall i | 0 <= i < |t| :: t[i] != 0
    ensures |t| < |s| ==> s[|t|] == 0
  {
    if s == [] || s[0] == 0 then [] else [s[0]] + CString(s[1..])
  }

  /** The text of a metadata block. */
  function TextOf(block: seq<Byte>): Text
    requires block != []
  {
    CString(block[1..])
  }

  predicate NoNul(s: Text) {
    forall i | 0 <= i < |s| :: s[i] != 0
  }

  /** The block for a text: its length byte, the text, and at least one NUL. */
  predicate IsBlock(block: seq<Byte>, text: Text) {
    && WellFormed(block) && 1 + |text| < |block| <= 4081
    && block[1..1 + |text|] == text
    && forall i | 1 + |text| <= i < |block| :: block[i] == 0
  }

  lemma BlockText(block: seq<Byte>, text: Text)
    requires IsBlock(block, text) && NoNul(text)
    ensures TextOf(block) == text
  {
    var t := TextOf(block);
    forall i | 0 <= i < |text|
      ensures block[1..][i] == text[i]
    {
      assert block[1..1 + |text|][i] == text[i];
    }
    assert block[1..][|text|] == 0;
    assert t == block[1..][..|t|] && text == block[1..][..|text|];
  }

  /** A listener that takes a block of ours apart has the title, the URL and the other items. */
  lemma BlockReadsBack(block: seq<Byte>, f: Fields, g: Fields, items: seq<Text>)
    requires IsBlock(block, Shown(f)) && NoNul(Shown(f))
    requires Plain(Name(f)) && (UrlOf(f).Some? ==> Plain(UrlOf(f).value))
    requires Or(f.extra, []) == Join(items) && forall i | 0 <= i < |items| :: GoodItem(items[i])
    ensures Parsed(g, TextOf(block), [])
         == Fields(Some(Name(f)), None, if UrlOf(f).Some? then UrlOf(f) else g.inlineUrl, g.url, Others(Join(items)))
  {
    hide Parsed, Shown, IsBlock, TextOf, Plain, GoodItem, Join;
    BlockText(block, Shown(f));
    TextReadsBack(f, g, items);
  }

  /** The length that `mp3_set_title` works out: a NUL more than what is printed, or than what would be,
      had the artist been printed although there is no title. */
  function Length(f: Fields): nat {
    16 + |Or(f.artist, [])| + |Or(f.title, [])| + (if f.artist.Some? && f.title.Some? then 3 else 0)
    + (if UrlOf(f).Some? then |UrlOf(f).value| + 13 else 0) + |Or(f.extra, [])|
  }

  lemma LengthIs(f: Fields)
    ensures Length(f) >= |Shown(f)| + 1
    ensures f.title.Some? || f.artist.None? ==> Length(f) == |Shown(f)| + 1
    ensures f.title.None? && f.artist.Some? ==> Length(f) == |Shown(f)| + 1 + |f.artist.value|
  {
  }

  class Metadata {
    var fields: Fields
    var icy: seq<Byte>              // the block that listeners are being sent
    var update: bool

    /** `snprintf (buf + r, room, "%s", text)`: what does not fit is cut off. */
    method Print(buf: array<Byte>, r: nat, text: Text) returns (n: nat)
      requires r < buf.Length
      modifies buf
      ensures n == |text| && buf[..r] == old(buf[..r])
      ensures
        var k := Min(|text|, buf.Length - r - 1);
        buf[r..r + k] == text[..k] && buf[r + k] == 0 && buf[r + k + 1..] == old(buf[r + k + 1..])
    {
      var k := Min(|text|, buf.Length - r - 1);
      Store(buf, r, text[..k]);
      ghost var mid := buf[..];
      assert mid[r + k + 1..] == mid[r + k..][1..];
      assert old(buf[r + k + 1..]) == old(buf[r + k..])[1..];
      buf[r + k] := 0;
      assert buf[..r] == mid[..r] && buf[r..r + k] == mid[r..r + k] && buf[r + k + 1..] == mid[r + k + 1..];
      n := |text|;
    }

    /** A print that has room for all of the text. */
    method Put(buf: array<Byte>, r: nat, text: Text) returns (next: nat)
      requires r + |text| < buf.Length && forall i | r <= i < buf.Length :: buf[i] == 0
      modifies buf
      ensures next == r + |text| && buf[..next] == old(buf[..r]) + text
      ensures forall i | next <= i < buf.Length :: buf[i] == 0
    {
      ghost var tail := buf[r + |text| + 1..];
      var n := Print(buf, r, text);
      next := r + n;
      assert buf[..next] == buf[..r] + buf[r..next];
      forall i | next <= i < buf.Length
        ensures buf[i] == 0
      {
        assert i > next ==> buf[i] == tail[i - next - 1];
      }
    }

    /** `mp3_set_title`: nothing is ever cut off. */
    method SetTitle(onQueue: bool, queueSize: nat) returns (block: Option<seq<Byte>>)
      ensures block.Some? <==> (onQueue || queueSize == 0) && Length(fields) <= 4080
      ensures block.Some? ==> IsBlock(block.value, Shown(fields))
    {
      if !onQueue && queueSize > 0 {
        return None;
      }
      var f := fields;
      var len := Length(f);
      if len > MAX_META_LEN {
        return None;
      }
      var lenByte := (len - 1) / 16 + 1;
      var size := lenByte * 16 + 1;
      LengthIs(f);
      var buf := new Byte[size](_ => 0);
      var r := PutTitle(buf, lenByte, f);
      r := PutUrl(buf, r, f);
      hide Name, Shown, UrlItem;
      ghost var before := buf[..r];
      if f.extra.Some? {
        r := Put(buf, r, f.extra.value);
      }
      assert buf[..r] == before + Or(f.extra, []);
      assert buf[0] == buf[..r][0];
      Composed([lenByte], f, buf[..], r);
      block := Some(buf[..]);
    }

    method PutTitle(buf: array<Byte>, lenByte: Byte, f: Fields) returns (r: nat)
      requires 1 + |Shown(f)| < buf.Length && forall i | 0 <= i < buf.Length :: buf[i] == 0
      modifies buf
      ensures r == 1 + |TITLE + Name(f) + END| && buf[..r] == [lenByte] + (TITLE + Name(f) + END)
      ensures forall i | r <= i < buf.Length :: buf[i] == 0
    {
      var name := if f.artist.Some? && f.title.Some? then f.artist.value + DASH + f.title.value else Or(f.title, []);
      r := Put(buf, 0, [lenByte] + TITLE + name);
      r := Put(buf, r, END);
      assert buf[..r] == [] + ([lenByte] + TITLE + name) + END;
    }

    /** The source's own URL comes before the one that is set for it, and there is always room. */
    method PutUrl(buf: array<Byte>, r: nat, f: Fields) returns (next: nat)
      requires r == 1 + |TITLE + Name(f) + END| && 1 + |Shown(f)| < buf.Length
      requires forall i | r <= i < buf.Length :: buf[i] == 0
      modifies buf
      ensures next == r + |UrlItem(f)| && buf[..next] == old(buf[..r]) + UrlItem(f)
      ensures forall i | next <= i < buf.Length :: buf[i] == 0
    {
      next := r;
      if f.inlineUrl.Some? && buf.Length - r > |f.inlineUrl.value| + 13 {
        next := Put(buf, r, URL + f.inlineUrl.value + END);
      } else if f.url.Some? {
        next := Put(buf, r, URL + f.url.value + END);
      } else {
        assert buf[..r] + [] == buf[..r];
      }
    }

    lemma Composed(lead: seq<Byte>, f: Fields, buf: seq<Byte>, r: nat)
      requires |lead| == 1 && WellFormed(buf) && r < |buf| <= MAX_META_LEN + 1
      requires buf[..r] == lead + (TITLE + Name(f) + END) + UrlItem(f) + Or(f.extra, [])
      requires forall i | r <= i < |buf| :: buf[i] == 0
      ensures IsBlock(buf, Shown(f))
    {
      hide Name, UrlItem, Or;
      AfterLead(lead, TITLE + Name(f) + END, UrlItem(f), Or(f.extra, []));
      TextAt(lead, Shown(f), buf, r);
    }

    lemma AfterLead(lead: seq<Byte>, a: Text, b: Text, c: Text)
      ensures lead + a + b + c == lead + (a + b + c)
    {
    }

    lemma TextAt(lead: seq<Byte>, text: Text, buf: seq<Byte>, r: nat)
      requires |lead| == 1 && r < |buf| && buf[..r] == lead + text
      ensures r == 1 + |text| && buf[1..1 + |text|] == text
    {
      assert buf[1..r] == buf[..r][1..];
    }

    /** `parse_icy_metadata` on a block as the filter has put it together, the last byte a NUL. */
    method ParseIcy(block: seq<Byte>) returns (ret: int)
      requires block != [] ==> block[|block| - 1] == 0
      modifies this`fields, this`update
      ensures |block| <= 1 || block == icy ==> ret == 0 && fields == old(fields)
      ensures |block| > 1 && block != icy ==> ret == if WellFormed(block) then 0 else -1
      ensures ret == -1 ==> fields == old(fields)
      ensures |block| > 1 && block != icy && ret == 0 ==> fields == Parsed(old(fields), TextOf(block), [])
    {
      if |block| <= 1 || block == icy {
        return 0;
      }
      if |block| < 16 || |block| > MAX_META_LEN + 1 || BlockLength(block[0]) != |block| {
        return -1;
      }
      var rest, extra := TextOf(block), [];
      var left := |block| - 1;
      while left > 0
        invariant |rest| < left
        invariant Parsed(fields, rest, extra) == Parsed(old(fields), TextOf(block), [])
        decreases left
      {
        var from := if TITLE <= rest then |TITLE| else if URL <= rest then |URL| else 0;
        var found := FindEnd(rest, from);
        if found == None {
          break;
        }
        var end := found.value;
        if TITLE <= rest {
          fields := fields.(title := Some(rest[from..end]), artist := None);
        } else if URL <= rest {
          fields := fields.(inlineUrl := Some(rest[from..end]));
        } else {
          extra := extra + rest[..end + 2];
        }
        left := left - (end + 2);
        rest := rest[end + 2..];
        update := true;
      }
      fields := fields.(extra := Others(extra));
      ret := 0;
    }
  }
}
