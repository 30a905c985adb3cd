/** Scatter buffers and chunked sending, from src/connection.c.

    The peer sees `wire`, the bytes the socket has taken.  What the network does to one call is a value
    of `Net`: every theorem is for all of them. */
module Connection {
  import opened Bytes

  /** An I/O vector entry: a base address inside some memory, and a length. */
  datatype IoVec = IoVec(mem: seq<Byte>, base: nat, len: nat) {
    predicate Valid() {
      base + len <= |mem|
    }

    function Advanced(offset: nat): IoVec
      requires offset <= len
    {
      IoVec(mem, base + offset, len - offset)
    }

    function View(): (s: seq<Byte>)
      ensures Valid() ==> |s| == len
    {
      if Valid() then mem[base..base + len] else []
    }
  }

  predicate AllValid(vs: seq<IoVec>) {
    forall i | 0 <= i < |vs| :: vs[i].Valid()
  }

  function Views(vs: seq<IoVec>): (r: seq<seq<Byte>>)
    ensures |r| == |vs|
    ensures forall i | 0 <= i < |vs| :: r[i] == vs[i].View()
  {
    seq(|vs|, i requires 0 <= i < |vs| => vs[i].View())
  }

  /** The bytes that a vector gathers. */
  function Flat(vs: seq<IoVec>): seq<Byte> {
    Join(Views(vs))
  }

  lemma {:induction false} FlatAppend(a: seq<IoVec>, b: seq<IoVec>)
    ensures Flat(a + b) == Flat(a) + Flat(b)
  {
    hide IoVec.View, Join;
    assert Views(a + b) == Views(a) + Views(b);
    JoinAppend(Views(a), Views(b));
  }

  lemma {:induction false} FlatOne(v: IoVec)
    ensures Flat([v]) == v.View()
  {
    hide IoVec.View;
    assert Views([v]) == [] + [v.View()];
    JoinSnoc([], v.View());
  }

  lemma {:induction false} FlatNone(vs: seq<IoVec>)
    ensures Flat(vs[..0]) == []
  {
  }

  lemma {:induction false} FlatBreak(vs: seq<IoVec>, i: nat)
    requires i <= |vs|
    ensures Flat(vs) == Flat(vs[..i]) + Flat(vs[i..])
  {
    hide Flat, IoVec.View;
    assert vs[..i] + vs[i..] == vs;
    FlatAppend(vs[..i], vs[i..]);
  }

  lemma {:induction false} FlatStep(vs: seq<IoVec>, i: nat)
    requires i < |vs|
    ensures Flat(vs[..i + 1]) == Flat(vs[..i]) + vs[i].View()
    ensures Flat(vs[i..]) == vs[i].View() + Flat(vs[i + 1..])
  {
    hide Flat, IoVec.View;
    assert vs[..i + 1] == vs[..i] + [vs[i]];
    FlatAppend(vs[..i], [vs[i]]);
    FlatOne(vs[i]);
    FlatAppend([vs[i]], vs[i + 1..]);
    assert vs[i..] == [vs[i]] + vs[i + 1..];
  }

  lemma {:induction false} FlatGrows(vs: seq<IoVec>, i: nat, j: nat)
    requires i <= j <= |vs|
    ensures |Flat(vs[..i])| <= |Flat(vs[..j])|
  {
    hide Flat, IoVec.View;
    FlatBreak(vs[..j], i);
    assert vs[..j][..i] == vs[..i];
  }

  /** Entry `i`, `offset` bytes in, is byte `skip` of what the vector gathers. */
  ghost predicate Locates(vs: seq<IoVec>, skip: nat, i: nat, offset: nat) {
    i < |vs| && offset < vs[i].len && skip == |Flat(vs[..i])| + offset
  }

  /** At most one entry and offset hold a given byte, whatever empty entries lie around it. */
  lemma {:induction false} LocatesOnce(vs: seq<IoVec>, skip: nat, i: nat, x: nat, j: nat, y: nat)
    requires AllValid(vs) && Locates(vs, skip, i, x) && Locates(vs, skip, j, y)
    ensures i == j && x == y
  {
    FlatStep(vs, i);
    FlatStep(vs, j);
    if i < j {
      FlatGrows(vs, i + 1, j);
    } else if j < i {
      FlatGrows(vs, j + 1, i);
    }
  }

  /** The byte is not the first of its entry. */
  ghost predicate StartsInside(vs: seq<IoVec>, skip: nat) {
    exists i, offset :: Locates(vs, skip, i, offset) && offset > 0
  }

  lemma StartsAt(vs: seq<IoVec>, skip: nat, i: nat, offset: nat)
    requires AllValid(vs) && Locates(vs, skip, i, offset)
    ensures StartsInside(vs, skip) <==> offset > 0
  {
    hide Flat, Locates;
    LocatedOnce(vs, skip, i, offset);
  }

  lemma LocatedOnce(vs: seq<IoVec>, skip: nat, i: nat, x: nat)
    requires AllValid(vs) && Locates(vs, skip, i, x)
    ensures forall j, y | Locates(vs, skip, j, y) :: j == i && y == x
  {
    hide Flat, Locates, AllValid;
    forall j, y | Locates(vs, skip, j, y)
      ensures j == i && y == x
    {
      LocatesOnce(vs, skip, i, x, j, y);
    }
  }

  lemma LocatedNowhere(vs: seq<IoVec>, skip: nat)
    requires AllValid(vs) && skip >= |Flat(vs)|
    ensures forall j, y :: !Locates(vs, skip, j, y)
  {
    hide Flat;
    forall j, y | Locates(vs, skip, j, y)
      ensures false
    {
      FlatAt(vs, j);
    }
  }

  /** With one byte of two to skip, a vector is left altered when the socket turns out closed. */
  lemma AlteredExample(x: Byte, y: Byte)
    ensures StartsInside([IoVec([x, y], 0, 2)], 1)
  {
    var vs := [IoVec([x, y], 0, 2)];
    FlatNone(vs);
    assert Locates(vs, 1, 0, 1);
  }

  /** What the network does to one send: a plain socket turns out closed before anything is written, or it
      is offered the bytes and takes up to `takes` of them (an error when negative), `broken` telling a
      lasting error from a temporary one.  A TLS connection is offered one entry at a time. */
  datatype Net = Closed | Plain(takes: int, broken: bool) | Tls(each: seq<int>, broken: bool)

  class Connection {
    const ssl: bool
    var error: bool
    var sentBytes: nat
    var chunkPos: nat
    ghost var wire: seq<Byte>

    constructor (ssl: bool)
      ensures this.ssl == ssl && !error && sentBytes == 0 && chunkPos == 0 && wire == []
    {
      this.ssl := ssl;
      error, sentBytes, chunkPos, wire := false, 0, 0, [];
    }

    /** The socket takes a front part of what it is offered. */
    method Write(bytes: seq<Byte>, takes: int) returns (ret: int)
      modifies this`wire
      ensures -1 <= ret <= |bytes| && (takes >= 0 ==> ret == Min(takes, |bytes|)) && (takes < 0 ==> ret == -1)
      ensures wire == old(wire) + bytes[..Max(ret, 0)]
    {
      ret := if takes < 0 then -1 else Min(takes, |bytes|);
      wire := wire + bytes[..Max(ret, 0)];
    }
  }

  /** `connection_send` and `connection_send_ssl`, as `client_send_bytes` of src/client.c picks them. */
  method SendBytes(con: Connection, bytes: seq<Byte>, net: Net) returns (ret: int)
    requires net.Tls? == con.ssl
    modifies con`error, con`sentBytes, con`wire
    ensures -1 <= ret <= |bytes|
    ensures con.wire == old(con.wire) + bytes[..Max(ret, 0)]
    ensures con.sentBytes == old(con.sentBytes) + Max(ret, 0)
    ensures net.Plain? && net.takes >= 0 ==> ret == Min(net.takes, |bytes|)
  {
    if net.Closed? {
      con.error := true;
      return -1;
    }
    if con.ssl {
      ret := con.Write(bytes, if |net.each| > 0 then net.each[0] else -1);
    } else {
      ret := con.Write(bytes, net.takes);
    }
    if ret < 0 && net.broken {
      con.error := true;
    }
    con.sentBytes := con.sentBytes + Max(ret, 0);
  }

  class Bufs {
    var block: array<IoVec>
    var count: nat
    var total: nat

    ghost predicate Valid()
      reads this, block
    {
      count <= block.Length && AllValid(block[..count]) && total == |Flat(block[..count])|
    }

    ghost function Vectors(): seq<IoVec>
      reads this, block
      requires count <= block.Length
    {
      block[..count]
    }

    /** `connection_bufs_init`. */
    constructor (start: nat)
      ensures Valid() && Vectors() == [] && Flat(Vectors()) == [] && fresh(block)
    {
      block := new IoVec[if start < 500 then start else 0];
      count, total := 0, 0;
      new;
      assert block[..0] == [];
    }

    /** `connection_bufs_append`. */
    method Append(v: IoVec) returns (sum: nat)
      requires Valid() && v.Valid() && v.len <= 0xFFFFFF
      modifies this, block
      ensures Valid() && (block == old(block) || fresh(block))
      ensures Vectors() == old(Vectors()) + [v]
      ensures Flat(Vectors()) == old(Flat(Vectors())) + v.View()
      ensures sum == total
    {
      ghost var before := Vectors();
      if count >= block.Length {
        var arr := new IoVec[block.Length + 16];
        forall i | 0 <= i < count {
          arr[i] := block[i];
        }
        block := arr;
        assert block[..count] == before;
      }
      block[count] := v;
      count := count + 1;
      assert block[..count] == before + [v];
      FlatOne(v);
      FlatAppend(before, [v]);
      total := total + v.len;
      sum := total;
    }

    /** The search of `connbufs_locate_start`: -1 when there is no byte `skip`. */
    method FindStart(skip: nat) returns (i: int, offset: nat)
      requires Valid()
      ensures i == -1 <==> skip >= total
      ensures i != -1 ==> 0 <= i < count && Locates(Vectors(), skip, i, offset)
    {
      FlatNone(Vectors());
      var sum: nat, p: nat := 0, 0;
      ghost var vs := Vectors();
      assert AllValid(vs) && total == |Flat(vs)|;
      hide Flat, IoVec.View, AllValid;
      if skip < total {
        assert vs[..count] == vs;
        while p < count
          invariant p <= count && sum == |Flat(vs[..p])| && sum <= skip
        {
          FlatAt(vs, p);
          if sum + block[p].len > skip {
            return p, skip - sum;
          }
          sum := sum + block[p].len;
          p := p + 1;
        }
      }
      i, offset := -1, 0;
    }

    /** `connbufs_locate_start`: the entry holding byte `skip`, moved forward by the offset within it;
        -1 when there is no such byte. */
    method LocateStart(skip: nat) returns (i: int, offset: nat, was: IoVec)
      requires Valid()
      modifies block
      ensures i == -1 <==> skip >= total
      ensures i == -1 ==> block[..] == old(block[..])
      ensures i != -1 ==> 0 <= i < count && Locates(old(Vectors()), skip, i, offset) && was == old(block[i])
      ensures i != -1 ==>
                block[..] == old(block[..])[i := was.Advanced(offset)]
    {
      hide Flat, AllValid;
      was := IoVec([], 0, 0);
      i, offset := FindStart(skip);
      if i >= 0 {
        was := block[i];
        if offset != 0 {
          block[i] := was.Advanced(offset);
        }
      }
    }

    /** What is left to gather after `LocateStart` is everything from byte `skip` on. */
    lemma {:induction false} RestFrom(vs: seq<IoVec>, skip: nat, i: nat, offset: nat)
      requires AllValid(vs) && Locates(vs, skip, i, offset)
      ensures
        var moved := [IoVec(vs[i].mem, vs[i].base + offset, vs[i].len - offset)] + vs[i + 1..];
        AllValid(moved) && skip <= |Flat(vs)| && Flat(moved) == Flat(vs)[skip..]
    {
      hide Flat;
      var v := IoVec(vs[i].mem, vs[i].base + offset, vs[i].len - offset);
      FlatBreak(vs, i);
      FlatStep(vs, i);
      FlatOne(v);
      FlatAppend([v], vs[i + 1..]);
      assert vs[i].View()[offset..] == v.View();
      assert Flat(vs)[skip..] == Flat(vs[i..])[offset..];
    }

    /** `connection_bufs_send`: the bytes taken are the next ones after `skip`.  The vector is as before but when
        the socket was found closed and an entry had been moved forward; that entry is left so. */
    method Send(con: Connection, skip: nat, net: Net) returns (ret: int)
      requires Valid() && skip <= total
      requires net.Tls? == con.ssl
      modifies con`error, con`sentBytes, con`wire, block
      ensures -1 <= ret <= total - skip
      ensures con.wire == old(con.wire) + old(Flat(Vectors()))[skip..skip + Max(ret, 0)]
      ensures con.error ==> old(con.error) || net.Closed? || net.broken
      ensures block[..] == old(block[..]) <==> !(net.Closed? && StartsInside(old(Vectors()), skip))
      ensures net.Closed? ==> forall i: nat, offset: nat | Locates(old(Vectors()), skip, i, offset) ::
                ret == -1 && con.error && block[..] == old(block[..])[i := old(block[i]).Advanced(offset)]
      ensures con.sentBytes == old(con.sentBytes) + (if con.ssl then 2 else 1) * Max(ret, 0)
      ensures net.Plain? && net.takes >= 0 && skip < total ==> ret == Min(net.takes, total - skip)
    {
      hide Flat;
      ghost var vs, all := Vectors(), Flat(Vectors());
      var i, offset, was := LocateStart(skip);
      ret := -1;
      if i < 0 {
        assert all[skip..skip] == [];
        LocatedNowhere(vs, skip);
        return;
      }
      StartsAt(vs, skip, i, offset);
      RestFrom(vs, skip, i, offset);
      ghost var rest := [block[i]] + vs[i + 1..];
      assert block[i..count] == rest;
      if net.Closed? {
        con.error := true;
        LocatedOnce(vs, skip, i, offset);
        return;
      }
      ret := WriteVectors(con, block[i..count], net);
      assert Flat(rest)[..Max(ret, 0)] == all[skip..skip + Max(ret, 0)];
      if offset != 0 {
        block[i] := was;
      }
      assert block[..] == old(block[..]);
      con.sentBytes := con.sentBytes + Max(ret, 0);
    }
  }

  /** The two ways a vector is written: in one call, or over TLS an entry at a time. */
  method WriteVectors(con: Connection, vs: seq<IoVec>, net: Net) returns (ret: int)
    requires AllValid(vs) && !net.Closed? && net.Tls? == con.ssl
    modifies con`error, con`sentBytes, con`wire
    ensures -1 <= ret <= |Flat(vs)|
    ensures con.wire == old(con.wire) + Flat(vs)[..Max(ret, 0)]
    ensures con.error ==> old(con.error) || net.broken
    ensures con.sentBytes == old(con.sentBytes) + if con.ssl then Max(ret, 0) else 0
    ensures net.Plain? && net.takes >= 0 ==> ret == Min(net.takes, |Flat(vs)|)
  {
    if con.ssl {
      ret := WriteTls(con, vs, net.each, net.broken);
    } else {
      ret := con.Write(Flat(vs), net.takes);
      if ret < 0 && net.broken {
        con.error := true;
      }
    }
  }

  /** How much goes out when entry `i` and those after it are offered one by one, each taking what it does. */
  function TlsTaken(vs: seq<IoVec>, each: seq<int>, i: nat): nat
    requires i <= |vs|
    decreases |vs| - i
  {
    if i == |vs| then 0
    else
      var takes := if i < |each| then each[i] else -1;
      if takes < vs[i].len then Min(Max(takes, 0), vs[i].len) else vs[i].len + TlsTaken(vs, each, i + 1)
  }

  method WriteTls(con: Connection, vs: seq<IoVec>, each: seq<int>, broken: bool) returns (ret: int)
    requires AllValid(vs)
    modifies con`error, con`sentBytes, con`wire
    ensures con.error ==> old(con.error) || broken
    ensures -1 <= ret <= |Flat(vs)|
    ensures ret == if TlsTaken(vs, each, 0) > 0 then TlsTaken(vs, each, 0) else -1
    ensures con.wire == old(con.wire) + Flat(vs)[..Max(ret, 0)]
    ensures con.sentBytes == old(con.sentBytes) + Max(ret, 0)
  {
    hide Flat, IoVec.View;
    var i, bytes := 0, 0;
    ghost var all := Flat(vs);
    FlatNone(vs);
    while i < |vs|
      invariant i <= |vs| && bytes == |Flat(vs[..i])| <= |all|
      invariant bytes + TlsTaken(vs, each, i) == TlsTaken(vs, each, 0)
      invariant con.wire == old(con.wire) + all[..bytes]
      invariant con.sentBytes == old(con.sentBytes) + bytes && con.error == old(con.error)
    {
      FlatAt(vs, i);
      var view := vs[i].View();
      var took := con.Write(view, if i < |each| then each[i] else -1);
      ghost var more := Max(took, 0);
      assert all[bytes..bytes + |view|][..more] == all[bytes..bytes + more];
      assert all[..bytes + more] == all[..bytes] + all[bytes..bytes + more];
      bytes := bytes + Max(took, 0);
      con.sentBytes := con.sentBytes + Max(took, 0);
      if took < 0 && broken {
        con.error := true;
      }
      if took < 0 || took < vs[i].len {
        return if bytes > 0 then bytes else -1;
      }
      i := i + 1;
    }
    assert vs[..i] == vs;
    ret := if bytes > 0 then bytes else -1;
  }

  /** Where entry `i` lies in what the vector gathers. */
  lemma {:induction false} FlatAt(vs: seq<IoVec>, i: nat)
    requires AllValid(vs) && i < |vs|
    ensures
      var at := |Flat(vs[..i])|;
      && at + vs[i].len == |Flat(vs[..i + 1])| <= |Flat(vs)|
      && Flat(vs)[at..at + vs[i].len] == vs[i].View()
  {
    hide Flat, IoVec.View;
    FlatStep(vs, i);
    FlatBreak(vs, i);
    FlatGrows(vs, i + 1, |vs|);
    assert vs[..|vs|] == vs;
  }
}
