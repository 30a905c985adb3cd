/** The metadata buffer of an FLV stream, from src/flv.c: an ECMA array as in section 2.10 of the AMF 0
    specification, its entries appended one by one. */
module FlvMeta {
  import opened Bytes
  import opened Wrappers

  /** A name and a value: a boolean, eight bytes of a double, or a string. */
  datatype Value = Bool(b: Byte) | Number(bytes: seq<Byte>) | Str(text: seq<Byte>)
  datatype Entry = Entry(name: seq<Byte>, value: Value)

  predicate ValueFits(v: Value) {
    (v.Number? ==> |v.bytes| == 8) && (v.Str? ==> |v.text| < 0x1_0000)
  }

  predicate Fits(e: Entry) {
    0 < |e.name| < 0x1_0000 && ValueFits(e.value)
  }

  // "onMetaData" as a string, then the marker of an ECMA array
  const LEAD: seq<Byte> := [2, 0, 10, 111, 110, 77, 101, 116, 97, 68, 97, 116, 97, 8]
  const END: seq<Byte> := [0, 0, 9]

  function UI16(n: nat): (s: seq<Byte>)
    requires n < 0x1_0000
    ensures |s| == 2
  {
    [n / 256, n % 256]
  }

  function From16(s: seq<Byte>): nat
    requires |s| >= 2
  {
    var hi: int, lo: int := s[0], s[1];
    hi * 256 + lo
  }

  lemma From16Is(n: nat, rest: seq<Byte>)
    requires n < 0x1_0000
    ensures From16(UI16(n) + rest) == n
  {
  }

  function ValueBytes(v: Value): seq<Byte>
    requires ValueFits(v)
  {
    match v
    case Bool(b) => [1, b]
    case Number(bytes) => [0] + bytes
    case Str(text) => [2] + UI16(|text|) + text
  }

  function EntryBytes(e: Entry): (s: seq<Byte>)
    requires Fits(e)
  {
    UI16(|e.name|) + e.name + ValueBytes(e.value)
  }

  function Entries(es: seq<Entry>): seq<Byte>
    requires forall i | 0 <= i < |es| :: Fits(es[i])
  {
    if es == [] then [] else Entries(es[..|es| - 1]) + EntryBytes(es[|es| - 1])
  }

  lemma EntriesSnoc(es: seq<Entry>, e: Entry)
    requires Fits(e) && forall i | 0 <= i < |es| :: Fits(es[i])
    ensures Entries(es + [e]) == Entries(es) + EntryBytes(e)
  {
    hide EntryBytes, Fits;
    assert (es + [e])[..|es|] == es;
  }

  lemma ValueLen(v: Value)
    requires ValueFits(v)
    ensures |ValueBytes(v)| > 0
  {
  }

  // ---------------------------------------------------------------------------------------------
  // Reading
  // ---------------------------------------------------------------------------------------------

  /** A value at the front, and how long it is. */
  function ReadValue(s: seq<Byte>): (r: Option<(Value, nat)>)
    ensures r.Some? ==> 2 <= r.value.1 <= |s|
  {
    if |s| < 3 then
      if |s| == 2 && s[0] == 1 then Some((Bool(s[1]), 2)) else None
    else if s[0] == 1 then Some((Bool(s[1]), 2))
    else if s[0] == 0 && |s| >= 9 then Some((Number(s[1..9]), 9))
    else if s[0] == 2 && |s| >= 3 + From16(s[1..]) then Some((Str(s[3..3 + From16(s[1..])]), 3 + From16(s[1..])))
    else None
  }

  /** The entries up to the end marker, which must be the end. */
  function ReadEntries(s: seq<Byte>): Option<seq<Entry>>
    decreases |s|
  {
    if |s| < 3 then None
    else if From16(s) == 0 then if s == END then Some([]) else None
    else if |s| < 2 + From16(s) then None
    else
      var n := From16(s);
      match ReadValue(s[2 + n..])
      case None => None
      case Some(v) =>
        match ReadEntries(s[2 + n + v.1..])
        case None => None
        case Some(es) => Some([Entry(s[2..2 + n], v.0)] + es)
  }

  /** The whole metadata: the entries, of which there are as many as it says. */
  function ReadMeta(s: seq<Byte>): Option<seq<Entry>> {
    if |s| < 18 || s[..14] != LEAD || s[14] != 0 || s[15] != 0 then None
    else
      match ReadEntries(s[18..])
      case None => None
      case Some(es) => if |es| == From16(s[16..]) then Some(es) else None
  }

  lemma ReadsValue(v: Value, rest: seq<Byte>)
    requires ValueFits(v)
    ensures ReadValue(ValueBytes(v) + rest) == Some((v, |ValueBytes(v)|))
  {
    var s := ValueBytes(v) + rest;
    match v
    case Bool(b) =>
      assert s[0] == 1 && s[1] == b;
    case Number(bytes) =>
      assert s[0] == 0 && s[1..9] == bytes;
    case Str(text) =>
      ReadsStr(text, rest);
  }

  lemma ReadsStr(text: seq<Byte>, rest: seq<Byte>)
    requires |text| < 0x1_0000
    ensures ReadValue([2] + UI16(|text|) + text + rest) == Some((Str(text), 3 + |text|))
  {
    var s := [2] + UI16(|text|) + text + rest;
    assert s[1..] == UI16(|text|) + (text + rest);
    From16Is(|text|, text + rest);
    hide UI16, From16;
    assert s[0] == 2 && s[3..3 + |text|] == text;
  }

  lemma ReadsEntry(e: Entry, rest: seq<Byte>)
    requires Fits(e)
    ensures
      ReadEntries(EntryBytes(e) + rest) ==
        match ReadEntries(rest) case None => None case Some(es) => Some([e] + es)
  {
    hide UI16, From16, ReadValue, ValueBytes;
    var s, n, v := EntryBytes(e) + rest, |e.name|, ValueBytes(e.value);
    EntryParts(UI16(n), e.name, v, rest);
    From16Is(n, e.name + v + rest);
    ReadsValue(e.value, rest);
  }

  lemma EntryParts(size: seq<Byte>, name: seq<Byte>, v: seq<Byte>, rest: seq<Byte>)
    requires |size| == 2
    ensures
      var s, n := size + name + v + rest, |name|;
      s == size + (name + v + rest) && s[2..2 + n] == name && s[2 + n..] == v + rest && s[2 + n + |v|..] == rest
  {
  }

  lemma {:induction false} ReadsEntries(es: seq<Entry>, rest: seq<Byte>)
    requires forall i | 0 <= i < |es| :: Fits(es[i])
    ensures
      ReadEntries(Entries(es) + rest) ==
        match ReadEntries(rest) case None => None case Some(more) => Some(es + more)
    decreases |es|
  {
    hide ReadEntries, EntryBytes, Fits;
    if es == [] {
      assert Entries(es) + rest == rest;
      assert forall more: seq<Entry> :: es + more == more;
    } else {
      var n := |es| - 1;
      assert Entries(es) + rest == Entries(es[..n]) + (EntryBytes(es[n]) + rest);
      ReadsEntry(es[n], rest);
      ReadsEntries(es[..n], EntryBytes(es[n]) + rest);
      assert es == es[..n] + [es[n]];
      assert forall more: seq<Entry> :: es[..n] + ([es[n]] + more) == es + more;
    }
  }

  /** What comes before the entries, when there are `n`. */
  function Head(n: nat): (s: seq<Byte>)
    ensures |s| == 18
  {
    LEAD + [0, 0] + UI16(n % 0x1_0000)
  }

  /** The beginning, byte by byte: the name, the marker of an array, and the count of its entries in four bytes, of
      which the low two are used. */
  lemma HeadSpelled(n: nat)
    ensures Head(n) == [2, 0, 10] + Letters("onMetaData") + [8, 0, 0, n / 256 % 256, n % 256]
    ensures END == [0, 0, 9]
  {
    assert LEAD == [2, 0, 10] + Letters("onMetaData") + [8];
    assert n % 0x1_0000 / 256 == n / 256 % 256 by {
      HighByte(n);
    }
    assert n % 0x1_0000 % 256 == n % 256;
  }

  lemma HighByte(n: nat)
    ensures n % 0x1_0000 / 256 == n / 256 % 256
  {
    var q, r := n / 0x1_0000, n % 0x1_0000;
    assert n / 256 == 256 * q + r / 256;
  }

  /** An entry, byte by byte: the length of its name and that, then 1 and a truth value, 0 and a number, or 2 and the
      length of a string and that. */
  lemma EntrySpelled(e: Entry)
    requires Fits(e)
    ensures
      var name := [|e.name| / 256, |e.name| % 256] + e.name;
      EntryBytes(e) ==
        match e.value
        case Bool(b) => name + [1, b]
        case Number(bytes) => name + ([0] + bytes)
        case Str(text) => name + ([2, |text| / 256, |text| % 256] + text)
  {
    if e.value.Str? {
      var text := e.value.text;
      assert [2] + UI16(|text|) + text == [2, |text| / 256, |text| % 256] + text;
    }
  }

  lemma HeadReads(n: nat, rest: seq<Byte>)
    ensures
      ReadMeta(Head(n) + rest) ==
        match ReadEntries(rest) case None => None case Some(es) => if |es| == n % 0x1_0000 then Some(es) else None
  {
    hide ReadEntries;
    var s := Head(n) + rest;
    assert s[..14] == LEAD;
    assert s[14] == Head(n)[14] == 0 && s[15] == Head(n)[15] == 0;
    assert s[16..] == UI16(n % 0x1_0000) + rest;
    From16Is(n % 0x1_0000, rest);
    assert s[18..] == rest;
  }

  lemma HeadNext(n: nat, m: nat)
    ensures Head(m) == Head(n)[..16] + UI16(m % 0x1_0000)
  {
    assert Head(n)[..16] == LEAD + [0, 0];
  }

  /** What is in a finished buffer reads as its entries, if the count of them can be written. */
  lemma MetaReadsBack(es: seq<Entry>)
    requires forall i | 0 <= i < |es| :: Fits(es[i])
    ensures ReadMeta(Head(|es|) + (Entries(es) + END)) == if |es| < 0x1_0000 then Some(es) else None
  {
    hide Entries, ReadEntries, ReadMeta, Head, Fits;
    HeadReads(|es|, Entries(es) + END);
    ReadsEntries(es, END);
    EndReads();
    assert es + [] == es;
  }

  lemma EndReads()
    ensures ReadEntries(END) == Some([])
  {
  }

  /** `struct flvmeta`, with its data. */
  class MetaBuffer {
    const buffer: array<Byte>
    var metaPos: nat
    var arrayLen: nat
    ghost var entries: seq<Entry>
    ghost var closed: bool

    ghost predicate Valid()
      reads this, buffer
    {
      && arrayLen == |entries| && (forall i | 0 <= i < |entries| :: Fits(entries[i]))
      && metaPos + (if closed then 0 else 3) <= buffer.Length
      && buffer[..metaPos] == Head(arrayLen) + (Entries(entries) + if closed then END else [])
    }

    /** `flv_meta_allocate` */
    constructor (len: nat)
      ensures Valid() && entries == [] && !closed && fresh(buffer) && buffer.Length == len + 30
    {
      buffer := new Byte[len + 30](i => if i < 14 then LEAD[i] else 0);
      metaPos, arrayLen, entries, closed := 18, 0, [], false;
      new;
      assert buffer[..18] == Head(0);
      assert Head(0) + (Entries([]) + []) == Head(0);
    }

    /** `flv_meta_increase`: room for an entry, or the end of the metadata. */
    method Increase(tagLen: nat, valueLen: nat) returns (ok: bool)
      requires Valid() && !closed
      modifies this`metaPos, this`arrayLen, this`closed, buffer
      ensures ok <==> 0 < tagLen && old(metaPos) + 2 + tagLen + 1 + valueLen + 3 <= buffer.Length
      ensures !ok ==> Valid() && closed && arrayLen == old(arrayLen)
      ensures ok ==>
                && !closed && arrayLen == old(arrayLen) + 1 && metaPos == old(metaPos) + 2 + tagLen + 1 + valueLen
                && buffer[..old(metaPos)] == Head(arrayLen) + Entries(entries)
    {
      hide Head, Entries, UI16, Fits;
      var n := tagLen;
      if n + valueLen + 3 + metaPos > buffer.Length - 3 {
        n := 0;
      }
      ghost var was := buffer[..metaPos];
      if n == 0 {
        Store(buffer, metaPos, END);
        metaPos, closed := metaPos + 3, true;
        assert buffer[..metaPos] == was + END;
        assert was + END == Head(arrayLen) + (Entries(entries) + END);
        return false;
      }
      ghost var body := Entries(entries);
      assert was == Head(arrayLen) + body;
      assert was[..16] == Head(arrayLen)[..16] && was[18..] == body;
      HeadNext(arrayLen, arrayLen + 1);
      ghost var before := buffer[..];
      arrayLen := arrayLen + 1;
      Store(buffer, 16, UI16(arrayLen % 0x1_0000));
      Patched(before, buffer[..], metaPos, arrayLen, body);
      metaPos := metaPos + (2 + n + 1 + valueLen);
      ok := true;
    }

    lemma Patched(was: seq<Byte>, now: seq<Byte>, pos: nat, n: nat, body: seq<Byte>)
      requires 18 <= pos <= |now| == |was| && was[..pos][18..] == body
      requires now[..16] == was[..16] && now[16..18] == UI16(n % 0x1_0000) && now[18..] == was[18..]
      requires Head(n) == was[..16] + UI16(n % 0x1_0000)
      ensures now[..pos] == Head(n) + body
    {
      hide Head, UI16;
      assert now[18..pos] == now[18..][..pos - 18] == was[..pos][18..];
      assert now[..pos] == now[..16] + now[16..18] + now[18..pos];
    }

    /** `flv_meta_append_bool`, `flv_meta_append_number` and `flv_meta_append_string`: the entry as long as it
        fits, else the end. */
    method Append(e: Entry)
      requires Valid() && !closed && Fits(e)
      modifies this, buffer
      ensures Valid()
      ensures
        var fits := old(metaPos) + |EntryBytes(e)| + 3 <= buffer.Length;
        closed == !fits && entries == old(entries) + if fits then [e] else []
    {
      var ptr := metaPos;
      hide Head, Entries, UI16, ValueBytes;
      ghost var was := entries;
      ValueLen(e.value);
      var ok := Increase(|e.name|, |ValueBytes(e.value)| - 1);
      if !ok {
        return;
      }
      ghost var front := buffer[..ptr];
      Store(buffer, ptr, UI16(|e.name|) + e.name + ValueBytes(e.value));
      EntriesSnoc(was, e);
      entries := entries + [e];
      assert buffer[..metaPos] == front + EntryBytes(e);
      assert front + EntryBytes(e) == Head(arrayLen) + (Entries(was) + EntryBytes(e) + []);
    }

    /** `flv_meta_append_string` with no name. */
    method Close()
      requires Valid() && !closed
      modifies this`metaPos, this`arrayLen, this`closed, buffer
      ensures Valid() && closed
    {
      var _ := Increase(0, 2);
    }

    /** A finished buffer reads as its entries exactly when there are fewer than 65536. */
    lemma ReadsBack()
      requires Valid() && closed
      ensures ReadMeta(buffer[..metaPos]) == if |entries| < 0x1_0000 then Some(entries) else None
    {
      MetaReadsBack(entries);
    }
  }
}
