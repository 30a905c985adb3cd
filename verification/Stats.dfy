/** The queue of event lines of a statistics client, from src/stats.c.

    Lines come in from any thread while the client is being registered and while it is being sent to; the
    methods are the parts done under the lock of the listeners. */
module Stats {
  import opened Bytes
  import opened Wrappers

  type Line = seq<Byte>

  const BLOCK_MAX := 4096
  const SNAPSHOT_MAX := 8192
  const QUEUE_MAX := 6000000

  /** `_append_to_bufferv`: a line goes in whole, with room for a NUL, or not at all. */
  function Append(data: seq<Byte>, maxLen: nat, line: Line): (r: Option<seq<Byte>>)
    ensures r.Some? <==> |data| + |line| < maxLen
  {
    if maxLen - |data| <= 0 || |line| >= maxLen - |data| then None else Some(data + line)
  }

  /** The lines of all blocks. */
  function Concat(texts: seq<seq<Line>>): seq<Line> {
    if texts == [] then [] else texts[0] + Concat(texts[1..])
  }

  function Total(texts: seq<seq<Line>>): nat {
    if texts == [] then 0 else |Join(texts[0])| + Total(texts[1..])
  }

  lemma {:induction false} ConcatAppend(a: seq<seq<Line>>, b: seq<seq<Line>>)
    ensures Concat(a + b) == Concat(a) + Concat(b) && Total(a + b) == Total(a) + Total(b)
    decreases |a|
  {
    if a == [] {
      assert a + b == b;
    } else {
      ConcatAppend(a[1..], b);
      assert (a + b)[1..] == a[1..] + b;
    }
  }

  lemma {:induction false} TotalIs(texts: seq<seq<Line>>)
    ensures Total(texts) == |Join(Concat(texts))|
    decreases |texts|
  {
    if texts != [] {
      TotalIs(texts[1..]);
      JoinAppend(texts[0], Concat(texts[1..]));
    }
  }

  lemma ConcatOne(t: seq<Line>)
    ensures Concat([t]) == t && Total([t]) == |Join(t)|
  {
    assert [t][1..] == [];
  }

  /** A line more in the last block. */
  lemma {:induction false} ConcatLast(texts: seq<seq<Line>>, line: Line)
    requires texts != []
    ensures
      var n := |texts| - 1;
      var more := texts[n := texts[n] + [line]];
      Concat(more) == Concat(texts) + [line] && Total(more) == Total(texts) + |line|
  {
    hide Concat, Total, Join;
    var n := |texts| - 1;
    var more := texts[n := texts[n] + [line]];
    assert texts == texts[..n] + [texts[n]] && more == texts[..n] + [texts[n] + [line]];
    ConcatAppend(texts[..n], [texts[n]]);
    ConcatAppend(texts[..n], [texts[n] + [line]]);
    ConcatOne(texts[n]);
    ConcatOne(texts[n] + [line]);
    JoinSnoc(texts[n], line);
  }

  class Refbuf {
    var data: seq<Byte>
    var next: Refbuf?
    var connection: bool              // STATS_BLOCK_CONNECTION

    constructor ()
      ensures data == [] && next == null && !connection
    {
      data, next, connection := [], null, false;
    }
  }

  predicate Distinct(s: seq<Refbuf>) {
    forall i, j | 0 <= i < j < |s| :: s[i] != s[j]
  }

  ghost function NodeAt(nodes: seq<Refbuf>, i: nat): Refbuf? {
    if i < |nodes| then nodes[i] else null
  }

  /** A chain of blocks, each with whole lines. */
  ghost predicate Chain(nodes: seq<Refbuf>, texts: seq<seq<Line>>, first: Refbuf?)
    reads nodes
  {
    && |nodes| == |texts| && Distinct(nodes)
    && first == NodeAt(nodes, 0)
    && (forall i | 0 <= i < |nodes| :: nodes[i].data == Join(texts[i]) && nodes[i].data != [])
    && (forall i | 0 <= i < |nodes| :: nodes[i].next == NodeAt(nodes, i + 1))
  }

  class StatsClient {
    var refbuf: Refbuf?
    var pos: nat
    var recent: Refbuf?
    var contentLen: int
    var error: bool
    var hasWorker: bool
    var active: bool

    ghost var wire: seq<Byte>
    ghost var accepted: seq<Line>
    ghost var done: seq<Line>         // the lines of the blocks sent whole
    ghost var nodes: seq<Refbuf>
    ghost var texts: seq<seq<Line>>   // the lines of the blocks that are queued

    ghost predicate Valid()
      reads this, nodes
    {
      && Chain(nodes, texts, refbuf)
      && recent == (if nodes == [] then null else nodes[|nodes| - 1])
      && contentLen == Total(texts)
      && accepted == done + Concat(texts)
      && Placed()
    }

    /** How far sending has got. */
    ghost predicate Placed()
      reads this, nodes
    {
      && (if nodes == [] then pos == 0 else pos < |nodes[0].data|)
      && wire == Join(done) + (if nodes == [] then [] else nodes[0].data[..pos])
      && (!active ==> wire == [] && done == [] && pos == 0)
    }

    constructor ()
      ensures Valid() && accepted == [] && wire == [] && !active && nodes == [] && hasWorker
    {
      refbuf, pos, recent, contentLen, error, hasWorker, active := null, 0, null, 0, false, true, false;
      wire, accepted, done, nodes, texts := [], [], [], [], [];
      new;
      hide Chain, Join, Concat, Total, Distinct;
      NothingYet();
    }

    /** What has been sent is the beginning of what has been accepted. */
    lemma WirePrefix()
      requires Valid()
      ensures wire <= Join(accepted)
    {
      hide Join;
      JoinAppend(done, Concat(texts));
      if nodes != [] {
        JoinAppend(texts[0], Concat(texts[1..]));
        var data, rest := nodes[0].data, Join(Concat(texts[1..]));
        assert Join(accepted) == Join(done) + (data + rest);
        assert Join(accepted)[..|wire|] == wire;
      } else {
        assert wire == Join(done) && Join(accepted) == wire + Join(Concat(texts));
      }
    }

    /** `_add_stats_to_stats_client`: a line is taken whole or, when it is too large, the queue is too long
        or the client is going, not at all. */
    method AddLine(line: Line)
      requires Valid() && line != []
      modifies this, nodes
      ensures Valid() && wire == old(wire) && active == old(active) && pos == old(pos) && done == old(done)
      ensures accepted == old(accepted)
                + if old(hasWorker) && old(contentLen) <= 6000000 && |line| < 4096 then [line] else []
      ensures nodes == old(nodes) || (|nodes| == |old(nodes)| + 1 && nodes[..|old(nodes)|] == old(nodes)
                                      && fresh(nodes[|nodes| - 1]))
      ensures error == (old(error) || (old(hasWorker) && old(contentLen) > 6000000)) && hasWorker == old(hasWorker)
    {
      hide Join, Concat, Total, Chain, Placed, Distinct, Valid;
      RecentIs();
      if !hasWorker {
        return;
      }
      if contentLen > QUEUE_MAX {
        FlagError();
        return;
      }
      var r := recent;
      if r != null && !r.connection && |r.data| < 4000 {
        var more := Append(r.data, BLOCK_MAX, line);
        if more.Some? {
          Extend(r, line);
          return;
        }
      }
      r := new Refbuf();
      var data := Append(r.data, BLOCK_MAX, line);
      if data == None {
        return;
      }
      r.data := data.value;
      AddNode(r, line);
    }

    lemma RecentIs()
      requires Valid()
      ensures recent == (if nodes == [] then null else nodes[|nodes| - 1])
    {
    }

    method FlagError()
      requires Valid()
      modifies this`error
      ensures Valid() && error
    {
      error := true;
    }

    /** A line more in the most recent block. */
    method Extend(r: Refbuf, line: Line)
      requires Valid() && r == recent && line != []
      modifies this`contentLen, this`accepted, this`texts, r`data
      ensures Valid()
      ensures accepted == old(accepted) + [line]
    {
      hide Join, Concat, Total, Chain, Distinct;
      LastOfChain(nodes, texts, refbuf);
      ghost var n, data := |texts| - 1, nodes[0].data;
      ConcatLast(texts, line);
      ExtendLast(r, line, refbuf, nodes, texts);
      contentLen := contentLen + |line|;
      texts := texts[n := texts[n] + [line]];
      Regroup(done, old(Concat(texts)), [line]);
      accepted := accepted + [line];
      assert data <= nodes[0].data;
      assert nodes[0].data[..pos] == data[..pos];
    }

    /** `_add_node_to_stats_client` */
    method AddNode(r: Refbuf, line: Line)
      requires Valid() && r !in nodes && r.next == null && r.data == [] + line && line != []
      modifies this`recent, this`refbuf, this`contentLen, this`nodes, this`texts, this`accepted, nodes
      ensures Valid() && nodes == old(nodes) + [r]
      ensures accepted == old(accepted) + [line]
    {
      hide Join, Concat, Total, Chain, Distinct, Placed, Valid;
      Parts();
      JoinOne(line);
      ConcatAppend(texts, [[line]]);
      ConcatOne([line]);
      Regroup(done, Concat(texts), [line]);
      ghost var was, data := nodes, if nodes == [] then [] else nodes[0].data;
      refbuf := LinkAfter(recent, refbuf, r, nodes, texts, [line]);
      assert was != [] ==> nodes[0].data == data;
      recent := r;
      contentLen := contentLen + |r.data|;
      nodes, texts := nodes + [r], texts + [[line]];
      accepted := accepted + [line];
      StillPlaced(was, data);
      Whole();
    }

    lemma Parts()
      requires Valid()
      ensures Chain(nodes, texts, refbuf) && recent == (if nodes == [] then null else nodes[|nodes| - 1])
      ensures contentLen == Total(texts) && accepted == done + Concat(texts)
      ensures !active ==> wire == [] && done == [] && pos == 0
      ensures if nodes == [] then pos == 0 else pos < |nodes[0].data|
      ensures wire == Join(done) + (if nodes == [] then [] else nodes[0].data[..pos])
    {
      hide Chain, Join, Concat, Total;
    }

    lemma Whole()
      requires Chain(nodes, texts, refbuf) && recent == (if nodes == [] then null else nodes[|nodes| - 1])
      requires contentLen == Total(texts) && accepted == done + Concat(texts) && Placed()
      ensures Valid()
    {
    }

    lemma StillPlaced(was: seq<Refbuf>, data: seq<Byte>)
      requires nodes != [] && was == nodes[..|nodes| - 1] && nodes[|nodes| - 1].data != []
      requires !active ==> wire == [] && done == [] && pos == 0
      requires if was == [] then pos == 0 else nodes[0].data == data && pos < |data|
      requires wire == Join(done) + if was == [] then [] else data[..pos]
      ensures Placed()
    {
    }

    /** One write of `stats_listeners_send`, of what is left of the first block. */
    method SendBlock(take: int) returns (sent: nat, whole: bool)
      requires Valid() && nodes != [] && active
      modifies this`pos, this`wire, this`refbuf, this`recent, this`contentLen, this`nodes, this`texts, this`done
      modifies nodes[0]
      ensures Valid() && accepted == old(accepted) && old(wire) <= wire
      ensures nodes == if whole then old(nodes)[1..] else old(nodes)
      ensures sent == Min(Max(take, 0), |old(nodes[0].data)| - old(pos)) && |wire| == |old(wire)| + sent
      ensures whole <==> old(pos) + sent == |old(nodes[0].data)|
      ensures pos == if whole then 0 else old(pos) + sent
    {
      hide Join, Concat, Total, Chain, Distinct, Placed, Valid;
      Parts();
      FirstOfChain(nodes, texts, refbuf);
      ghost var data, before := refbuf.data, wire;
      sent := Min(Max(take, 0), |refbuf.data| - pos);
      wire := wire + refbuf.data[pos..pos + sent];
      pos := pos + sent;
      assert data[..pos] == data[..pos - sent] + data[pos - sent..pos];
      whole := pos == |refbuf.data|;
      if whole {
        assert data[..pos] == data;
        Pop();
      } else {
        NowPlaced();
        Whole();
      }
    }

    lemma NowPlaced()
      requires nodes != [] && active && pos < |nodes[0].data| && wire == Join(done) + nodes[0].data[..pos]
      ensures Placed()
    {
    }

    /** The first block has been sent. */
    method Pop()
      requires Chain(nodes, texts, refbuf) && recent == (if nodes == [] then null else nodes[|nodes| - 1])
      requires contentLen == Total(texts) && accepted == done + Concat(texts) && active
      requires nodes != [] && wire == Join(done) + nodes[0].data
      modifies this`pos, this`refbuf, this`recent, this`contentLen, this`nodes, this`texts, this`done
      modifies nodes[0]
      ensures Valid() && nodes == old(nodes)[1..] && pos == 0
    {
      hide Join, Concat, Total, Chain, Distinct, Placed, Valid;
      FirstOfChain(nodes, texts, refbuf);
      FirstText(texts);
      Regroup(done, texts[0], Concat(texts[1..]));
      JoinAppend(done, texts[0]);
      contentLen := contentLen - |refbuf.data|;
      refbuf := Unlink(refbuf, nodes, texts);
      pos := 0;
      done := done + texts[0];
      nodes, texts := nodes[1..], texts[1..];
      ChainEnds(nodes, texts, refbuf);
      if refbuf == null {
        recent := null;
      }
      StartPlaced();
      Whole();
    }

    lemma StartPlaced()
      requires active && pos == 0 && wire == Join(done) && (nodes != [] ==> nodes[0].data != [])
      ensures Placed()
    {
    }

    predicate AtConnection()
      reads this, refbuf
    {
      refbuf != null && refbuf.connection
    }

    /** Too much is queued for a client that has been there for long. */
    predicate GivenUp(long: bool)
      reads this, refbuf
    {
      !AtConnection() && contentLen > 2000000 && long
    }

    /** `stats_listeners_send`: what is queued goes out in order, until it has all gone, twelve blocks (fourteen
        at first) or 50000 bytes have, or a write is short. */
    method Send(net: nat -> int, long: bool, broken: bool) returns (ret: int, whole: nat)
      requires Valid() && active
      modifies this, nodes
      ensures Valid() && active && accepted == old(accepted) && old(wire) <= wire && hasWorker == old(hasWorker)
      ensures
        var marked := old(nodes != [] && nodes[0].connection);
        var over := old(!(nodes != [] && nodes[0].connection) && contentLen > 2000000) && long;
        && ret == (if error || over then -1 else 0)
        && error == (old(error) || (broken && !over))
        && (old(error) || over ==> wire == old(wire) && nodes == old(nodes))
        && (!old(error) && !over ==>
              && whole <= |old(nodes)| && nodes == old(nodes)[whole..]
              && (|| nodes == [] || whole == (if marked then 14 else 12) || |wire| - |old(wire)| > 50000
                  || pos == (if whole == 0 then old(pos) else 0) + Max(net(whole), 0)))
    {
      hide Join, Concat, Total, Chain, Distinct, Placed, Valid;
      First();
      whole := 0;
      if error || GivenUp(long) {
        return -1, 0;
      }
      ghost var most := if AtConnection() then 14 else 12;
      var loop, total := if AtConnection() then 14 else 12, 0;
      Ends();
      assert nodes == old(nodes)[0..];
      while refbuf != null && loop > 0 && total <= 50000
        invariant Valid() && active && accepted == old(accepted) && old(wire) <= wire && !error
        invariant hasWorker == old(hasWorker)
        invariant refbuf == null <==> nodes == []
        invariant whole + loop == most && whole <= |old(nodes)| && nodes == old(nodes)[whole..]
        invariant total == |wire| - |old(wire)|
        invariant pos == (if whole == 0 then old(pos) else 0)
        decreases |nodes|
      {
        var sent, all := SendBlock(net(whole));
        total := total + sent;
        Ends();
        if !all {
          break;
        }
        whole := whole + 1;
        loop := loop - 1;
      }
      if broken {
        FlagError();
      }
      ret := if error then -1 else 0;
    }

    method LeaveWorker()
      requires Valid()
      modifies this`hasWorker
      ensures Valid() && !hasWorker
    {
      hasWorker := false;
    }

    /** No more is queued than has been accepted. */
    lemma QueuedOnce()
      requires Valid()
      ensures contentLen <= |Join(accepted)|
    {
      hide Join, Chain;
      JoinAppend(done, Concat(texts));
      TotalIs(texts);
    }

    lemma Inactive()
      requires Valid()
      ensures !active ==> wire == []
    {
    }

    lemma First()
      requires Valid()
      ensures refbuf == (if nodes == [] then null else nodes[0])
    {
    }

    lemma Ends()
      requires Valid()
      ensures refbuf == null <==> nodes == []
    {
    }

    /** The end of `_register_listener`: the snapshot goes in front of what has come in meanwhile. */
    method Prepend(first: Refbuf, last: Refbuf, len: nat, ghost ns: seq<Refbuf>, ghost ts: seq<seq<Line>>)
      requires Valid() && !active && ns != [] && Chain(ns, ts, first) && last == ns[|ns| - 1] && len == Total(ts)
      requires forall n | n in ns :: n !in nodes
      modifies this, ns
      ensures Valid() && active && nodes == ns + old(nodes) && hasWorker == old(hasWorker)
      ensures accepted == Concat(ts) + old(accepted)
    {
      hide Join, Concat, Total, Chain, Distinct, Placed, Valid;
      Parts();
      ConcatAppend(ts, texts);
      HangInFront(first, last, len, ns, ts);
      FirstOfChain(ns + nodes, ts + texts, first);
      accepted := Concat(ts) + accepted;
      nodes, texts := ns + nodes, ts + texts;
      active := true;
      NoneSent();
      StartPlaced();
      Whole();
    }

    method HangInFront(first: Refbuf, last: Refbuf, len: nat, ghost ns: seq<Refbuf>, ghost ts: seq<seq<Line>>)
      requires Chain(nodes, texts, refbuf) && ns != [] && Chain(ns, ts, first) && last == ns[|ns| - 1]
      requires forall n | n in ns :: n !in nodes
      modifies this`refbuf, this`contentLen, this`recent, last`next
      ensures Chain(ns + nodes, ts + texts, first) && refbuf == first && contentLen == old(contentLen) + len
      ensures recent == (ns + nodes)[|ns + nodes| - 1]
    {
      hide Join, Chain, Distinct;
      JoinChains(last, refbuf, ns, ts, nodes, texts, first);
      AtEnd(ns, nodes, last);
      refbuf := first;
      contentLen := contentLen + len;
      recent := WalkToEnd(last, ns + nodes, ts + texts, first, |ns| - 1);
    }

    lemma NoneSent()
      requires done == []
      ensures Join(done) == [] && done + Concat(texts) == Concat(texts)
    {
    }
  }

  /** Hangs a block after the last one. */
  method LinkAfter(last: Refbuf?, first: Refbuf?, r: Refbuf,
                   ghost nodes: seq<Refbuf>, ghost texts: seq<seq<Line>>, ghost text: seq<Line>)
      returns (head: Refbuf)
    requires Chain(nodes, texts, first) && last == (if nodes == [] then null else nodes[|nodes| - 1])
    requires r !in nodes && r.next == null && r.data == Join(text) && r.data != []
    modifies if last == null then {} else {last}`next
    ensures Chain(nodes + [r], texts + [text], head)
    ensures head == if first == null then r else first
  {
    hide Join;
    DistinctSnoc(nodes, r);
    if nodes != [] {
      DistinctLast(nodes);
    }
    hide Distinct;
    if last != null {
      last.next := r;
      head := first;
    } else {
      head := r;
    }
    forall i | 0 <= i < |nodes + [r]|
      ensures (nodes + [r])[i].next == NodeAt(nodes + [r], i + 1)
    {
      if i < |nodes| - 1 {
        assert nodes[i].next == NodeAt(nodes, i + 1);
      }
    }
  }

  lemma DistinctSnoc(a: seq<Refbuf>, r: Refbuf)
    requires Distinct(a) && r !in a
    ensures Distinct(a + [r])
  {
  }

  lemma Regroup(a: seq<Line>, b: seq<Line>, c: seq<Line>)
    ensures (a + b) + c == a + (b + c)
  {
  }

  lemma LastOfChain(nodes: seq<Refbuf>, texts: seq<seq<Line>>, first: Refbuf?)
    requires Chain(nodes, texts, first)
    ensures |nodes| == |texts|
    ensures nodes != [] ==> (|nodes| == 1 || nodes[|nodes| - 1] != nodes[0])
  {
  }

  /** Puts a line more into the last block. */
  method ExtendLast(r: Refbuf, line: Line, first: Refbuf?, ghost nodes: seq<Refbuf>, ghost texts: seq<seq<Line>>)
    requires Chain(nodes, texts, first) && nodes != [] && r == nodes[|nodes| - 1]
    modifies r`data
    ensures r.data == old(r.data) + line
    ensures Chain(nodes, texts[|nodes| - 1 := texts[|nodes| - 1] + [line]], first)
  {
    hide Join;
    ghost var n := |nodes| - 1;
    JoinSnoc(texts[n], line);
    r.data := r.data + line;
    assert |r.data| > 0;
    forall i | 0 <= i < n
      ensures nodes[i] != r
    {
    }
  }

  lemma NothingYet()
    ensures Chain([], [], null) && Concat([]) == [] && Total([]) == 0 && Join([]) == []
  {
  }

  lemma FirstText(texts: seq<seq<Line>>)
    requires texts != []
    ensures Concat(texts) == texts[0] + Concat(texts[1..]) && Total(texts) == |Join(texts[0])| + Total(texts[1..])
  {
  }

  lemma FirstOfChain(nodes: seq<Refbuf>, texts: seq<seq<Line>>, first: Refbuf?)
    requires Chain(nodes, texts, first) && nodes != []
    ensures |nodes| == |texts| && first == nodes[0]
    ensures first.data == Join(texts[0]) && first.data != []
    ensures |nodes| > 1 ==> nodes[1].data != []
  {
  }

  lemma ChainEnds(nodes: seq<Refbuf>, texts: seq<seq<Line>>, first: Refbuf?)
    requires Chain(nodes, texts, first)
    ensures |nodes| == |texts| && (first == null <==> nodes == [])
  {
  }

  /** Takes the first block off a chain. */
  method Unlink(first: Refbuf, ghost nodes: seq<Refbuf>, ghost texts: seq<seq<Line>>) returns (head: Refbuf?)
    requires nodes != [] && Chain(nodes, texts, first)
    modifies first`next
    ensures Chain(nodes[1..], texts[1..], head)
  {
    hide Join;
    head := first.next;
    first.next := null;
    assert forall i | 1 <= i < |nodes| :: nodes[i] != nodes[0];
    forall i | 0 <= i < |nodes| - 1
      ensures nodes[1..][i].next == NodeAt(nodes[1..], i + 1)
    {
      assert nodes[i + 1].next == NodeAt(nodes, i + 2);
    }
  }

  /** Hangs a chain after another. */
  method JoinChains(last: Refbuf, next: Refbuf?, ghost ns: seq<Refbuf>, ghost ts: seq<seq<Line>>,
                    ghost nodes: seq<Refbuf>, ghost texts: seq<seq<Line>>, first: Refbuf)
    requires ns != [] && Chain(ns, ts, first) && last == ns[|ns| - 1] && Chain(nodes, texts, next)
    requires forall n | n in ns :: n !in nodes
    modifies last`next
    ensures Chain(ns + nodes, ts + texts, first)
  {
    hide Join;
    DistinctJoin(ns, nodes);
    DistinctLast(ns);
    assert last in ns && last !in nodes;
    hide Distinct;
    last.next := next;
    forall i | 0 <= i < |ns| + |nodes|
      ensures (ns + nodes)[i].next == NodeAt(ns + nodes, i + 1)
    {
      if i < |ns| - 1 {
        assert ns[i].next == NodeAt(ns, i + 1);
      } else if i >= |ns| {
        assert nodes[i - |ns|] in nodes;
        assert nodes[i - |ns|].next == NodeAt(nodes, i - |ns| + 1);
      }
    }
    DataJoins(ns, ts, nodes, texts);
  }

  lemma DataJoins(ns: seq<Refbuf>, ts: seq<seq<Line>>, nodes: seq<Refbuf>, texts: seq<seq<Line>>)
    requires |ns| == |ts| && |nodes| == |texts|
    requires forall i | 0 <= i < |ns| :: ns[i].data == Join(ts[i]) && ns[i].data != []
    requires forall i | 0 <= i < |nodes| :: nodes[i].data == Join(texts[i]) && nodes[i].data != []
    ensures forall i | 0 <= i < |ns + nodes| :: (ns + nodes)[i].data == Join((ts + texts)[i]) && (ns + nodes)[i].data != []
  {
    hide Join;
    forall i | |ns| <= i < |ns| + |nodes|
      ensures (ns + nodes)[i].data == Join((ts + texts)[i]) && (ns + nodes)[i].data != []
    {
      assert nodes[i - |ns|].data == Join(texts[i - |ns|]);
    }
  }

  lemma DistinctJoin(a: seq<Refbuf>, b: seq<Refbuf>)
    requires Distinct(a) && Distinct(b) && forall n | n in a :: n !in b
    ensures Distinct(a + b)
  {
    forall i, j | 0 <= i < j < |a + b|
      ensures (a + b)[i] != (a + b)[j]
    {
      assert i < |a| ==> (a + b)[i] in a;
      assert j >= |a| ==> (a + b)[j] in b;
    }
  }

  lemma DistinctLast(a: seq<Refbuf>)
    requires Distinct(a) && a != []
    ensures forall i | 0 <= i < |a| - 1 :: a[i] != a[|a| - 1]
  {
  }

  lemma AtEnd(a: seq<Refbuf>, b: seq<Refbuf>, last: Refbuf)
    requires a != [] && last == a[|a| - 1]
    ensures last == (a + b)[|a| - 1]
  {
  }

  /** From a block to the end of its chain. */
  method WalkToEnd(from: Refbuf, ghost nodes: seq<Refbuf>, ghost texts: seq<seq<Line>>, ghost first: Refbuf?, ghost at: nat)
      returns (last: Refbuf)
    requires Chain(nodes, texts, first) && at < |nodes| && from == nodes[at]
    ensures last == nodes[|nodes| - 1]
  {
    last := from;
    ghost var i := at;
    while last.next != null
      invariant i < |nodes| && last == nodes[i]
      decreases |nodes| - i
    {
      assert nodes[i].next == NodeAt(nodes, i + 1);
      last := last.next;
      i := i + 1;
    }
    assert nodes[i].next == NodeAt(nodes, i + 1);
  }

  /** The lines that fit a block of their own; the others are left out of a snapshot. */
  function Fitting(lines: seq<Line>): seq<Line> {
    if lines == [] then []
    else
      var last := lines[|lines| - 1];
      Fitting(lines[..|lines| - 1]) + if |last| < SNAPSHOT_MAX then [last] else []
  }

  /** The lines of a snapshot are, in order, those that are shorter than 8192 bytes. */
  lemma {:induction false} FittingIs(lines: seq<Line>, more: Line)
    ensures Fitting([]) == []
    ensures Fitting(lines + [more]) == Fitting(lines) + if |more| < 8192 then [more] else []
  {
    assert (lines + [more])[..|lines|] == lines;
  }

  /** A snapshot being put together: the blocks that are full, and the one that is being filled. */
  class Snapshot {
    var first: Refbuf?
    var last: Refbuf?
    var len: nat
    var block: Refbuf
    ghost var nodes: seq<Refbuf>
    ghost var texts: seq<seq<Line>>
    ghost var text: seq<Line>

    ghost predicate Valid()
      reads this, nodes, block
    {
      && Chain(nodes, texts, first) && last == (if nodes == [] then null else nodes[|nodes| - 1])
      && len == Total(texts)
      && block !in nodes && block.next == null && block.data == Join(text) && (block.data == [] <==> text == [])
    }

    constructor ()
      ensures Valid() && nodes == [] && text == [] && Concat(texts) == [] && fresh(block) && last == null
    {
      first, last, len := null, null, 0;
      block := new Refbuf();
      nodes, texts, text := [], [], [];
    }

    /** The block is full: on to the next. */
    method Close()
      requires Valid() && text != []
      modifies this, last
      ensures Valid() && text == [] && nodes == old(nodes) + [old(block)] && fresh(block) && last == old(block)
      ensures Concat(texts) == old(Concat(texts)) + old(text)
    {
      hide Join, Concat, Total, Chain, Distinct;
      ConcatAppend(texts, [text]);
      ConcatOne(text);
      NoText();
      first := LinkAfter(last, first, block, nodes, texts, text);
      last := block;
      len := len + |block.data|;
      nodes, texts, text := nodes + [block], texts + [text], [];
      block := new Refbuf();
    }

    lemma TextSeen()
      requires Valid()
      ensures block.data == [] <==> text == []
    {
    }

    lemma Whole()
      requires Valid() && Concat(texts) != []
      ensures nodes != [] && first != null && Chain(nodes, texts, first) && last == nodes[|nodes| - 1] && len == Total(texts)
    {
    }

    lemma NoText()
      ensures Join([]) == []
    {
    }

    /** `_append_to_buffer`, and again with the next block when a line does not go in; a line that does not
        go into an empty block is left out. */
    method Add(line: Line)
      requires Valid() && line != []
      modifies this, last, block
      ensures Valid() && (block == old(block) || fresh(block))
      ensures (nodes == old(nodes) && last == old(last)) || (nodes == old(nodes) + [old(block)] && last == old(block))
      ensures Concat(texts) + text == old(Concat(texts) + text) + if |line| < 8192 then [line] else []
    {
      hide Join, Concat, Total, Chain, Distinct;
      var more := Append(block.data, SNAPSHOT_MAX, line);
      if more == None && block.data != [] {
        Close();
        more := Append(block.data, SNAPSHOT_MAX, line);
      }
      if more.Some? {
        Fill(line);
      }
    }

    method Fill(line: Line)
      requires Valid() && line != []
      modifies block`data, this`text
      ensures Valid() && text == old(text) + [line]
    {
      hide Join, Concat, Total, Distinct;
      JoinSnoc(text, line);
      assert |block.data + line| > 0;
      block.data := block.data + line;
      text := text + [line];
    }
  }

  /** The list that `_register_listener` builds: all the lines that fit, in order, whole. */
  method BuildSnapshot(lines: seq<Line>) returns (s: Snapshot)
    requires forall i | 0 <= i < |lines| :: lines[i] != []
    ensures s.Valid() && s.text == [] && Concat(s.texts) == Fitting(lines)
    ensures fresh(s) && forall n | n in s.nodes :: fresh(n)
  {
    hide Join, Concat, Total, Chain, Distinct, Snapshot.Valid;
    s := new Snapshot();
    assert [] + s.text == [];
    for i := 0 to |lines|
      invariant s.Valid() && fresh(s) && fresh(s.block) && (s.last == null || fresh(s.last))
      invariant forall n | n in s.nodes :: fresh(n)
      invariant Concat(s.texts) + s.text == Fitting(lines[..i])
    {
      assert lines[..i + 1][..i] == lines[..i];
      s.Add(lines[i]);
    }
    assert lines[..|lines|] == lines;
    s.TextSeen();
    if s.block.data != [] {
      s.Close();
    }
    assert Concat(s.texts) + [] == Concat(s.texts);
  }

  /** What can happen to a client: an event anywhere in the server, the end of its registration, a turn on its
      worker, and leaving that. */
  datatype Step = Event(line: Line) | Register(lines: seq<Line>) | Turn(net: nat -> int, long: bool, broken: bool) | Leave

  predicate Proper(step: Step) {
    && (step.Event? ==> step.line != [])
    && (step.Register? ==> step.lines != [] && |step.lines[0]| < SNAPSHOT_MAX && forall i | 0 <= i < |step.lines| :: step.lines[i] != [])
  }

  /** The lines of the events that were taken. */
  function Taken(steps: seq<Step>, took: seq<bool>): seq<Line>
    requires |took| == |steps|
  {
    if steps == [] then []
    else
      var n := |steps| - 1;
      Taken(steps[..n], took[..n]) + if took[n] && steps[n].Event? then [steps[n].line] else []
  }

  lemma TakenNext(steps: seq<Step>, i: nat, took: seq<bool>, t: bool)
    requires i < |steps| && |took| == i
    ensures Taken(steps[..i + 1], took + [t])
         == Taken(steps[..i], took) + if steps[i].Event? && t then [steps[i].line] else []
  {
    assert steps[..i + 1][..i] == steps[..i] && (took + [t])[..i] == took;
  }

  /** On the worker still, when step `k` comes. */
  ghost predicate Stayed(steps: seq<Step>, k: nat)
    requires k <= |steps|
  {
    forall j | 0 <= j < k :: !steps[j].Leave?
  }

  /** Any of these in any order, registration once.  What has been sent is the beginning of the snapshot and
      then the events taken, in the order they came, whether that was before the registration or after.  Those are
      all that fit a block and come before the client leaves its worker, unless too much is queued. */
  method RunSteps(c: StatsClient, steps: seq<Step>) returns (ghost took: seq<bool>, ghost snapshot: seq<Line>)
    requires c.Valid() && !c.active && c.accepted == [] && c.nodes == [] && c.hasWorker
    requires forall i | 0 <= i < |steps| :: Proper(steps[i])
    modifies c
    ensures c.Valid() && |took| == |steps| && c.accepted == snapshot + Taken(steps, took)
    ensures Registered(steps, |steps|, c.active, snapshot)
    ensures RightlyTaken(steps, took, |Join(c.accepted)| <= 6000000)
    ensures c.wire <= Join(snapshot + Taken(steps, took)) && (!c.active ==> c.wire == [])
  {
    hide Join, Concat, Total, Chain, Distinct, StatsClient.Valid, Taken, Fitting, Proper, Stayed, Registered, RightlyTaken;
    took, snapshot := [], [];
    Nothing(steps);
    var i := 0;
    while i < |steps|
      invariant i <= |steps| && c.Valid() && |took| == i && (forall k | 0 <= k < |c.nodes| :: fresh(c.nodes[k]))
      invariant c.accepted == snapshot + Taken(steps[..i], took)
      invariant Registered(steps, i, c.active, snapshot)
      invariant c.hasWorker <==> Stayed(steps, i)
      invariant RightlyTaken(steps, took, |Join(c.accepted)| <= QUEUE_MAX)
    {
      ghost var was, before := c.active, c.accepted;
      c.QueuedOnce();
      ghost var t := TakeStep(c, steps[i]);
      LongerFrom(c.accepted, steps[i], was, before, t);
      RegisteredNext(steps, i, was, snapshot);
      RightNext(steps, took, t, |Join(before)| <= QUEUE_MAX, |Join(c.accepted)| <= QUEUE_MAX);
      TakenNext(steps, i, took, t);
      if steps[i].Register? && !was {
        snapshot := Fitting(steps[i].lines);
      }
      took := took + [t];
      i := i + 1;
    }
    assert steps[..|steps|] == steps;
    c.WirePrefix();
    c.Inactive();
  }

  /** Only events that fit a block, and come before the client leaves its worker, are taken; and those all are
      while not too much is queued. */
  ghost predicate RightlyTaken(steps: seq<Step>, took: seq<bool>, room: bool)
    requires |took| <= |steps|
  {
    forall i | 0 <= i < |took| :: (took[i] ==> Takes(steps, i)) && (room && Takes(steps, i) ==> took[i])
  }

  ghost predicate Takes(steps: seq<Step>, i: nat)
    requires i < |steps|
  {
    steps[i].Event? && |steps[i].line| < 4096 && Stayed(steps, i)
  }

  /** A client is active once there has been a registration, and its snapshot is that of the first. */
  ghost predicate Registered(steps: seq<Step>, n: nat, active: bool, snapshot: seq<Line>)
    requires n <= |steps|
  {
    if active then exists i | 0 <= i < n :: IsFirst(steps, i) && snapshot == Fitting(steps[i].lines)
    else snapshot == [] && forall i | 0 <= i < n :: !steps[i].Register?
  }

  lemma Nothing(steps: seq<Step>)
    ensures Taken(steps[..0], []) == [] && Stayed(steps, 0)
    ensures Registered(steps, 0, false, []) && forall room :: RightlyTaken(steps, [], room)
  {
  }

  lemma RegisteredNext(steps: seq<Step>, n: nat, active: bool, snapshot: seq<Line>)
    requires n < |steps| && Registered(steps, n, active, snapshot)
    ensures !active ==> snapshot == []
    ensures
      var first := steps[n].Register? && !active;
      Registered(steps, n + 1, active || steps[n].Register?, if first then Fitting(steps[n].lines) else snapshot)
  {
    hide Fitting;
    if steps[n].Register? && !active {
      assert IsFirst(steps, n);
    }
  }

  lemma RightNext(steps: seq<Step>, took: seq<bool>, t: bool, before: bool, room: bool)
    requires |took| < |steps| && RightlyTaken(steps, took, before) && (room ==> before)
    requires t ==> Takes(steps, |took|)
    requires before && Takes(steps, |took|) ==> t
    ensures RightlyTaken(steps, took + [t], room)
    ensures Stayed(steps, |took| + 1) <==> Stayed(steps, |took|) && !steps[|took|].Leave?
  {
  }

  /** The first registration, which is the one that is done. */
  ghost predicate IsFirst(steps: seq<Step>, i: nat) {
    i < |steps| && steps[i].Register? && forall j | 0 <= j < i :: !steps[j].Register?
  }

  lemma LongerFrom(now: seq<Line>, step: Step, was: bool, before: seq<Line>, took: bool)
    requires now == (if step.Register? && !was then Fitting(step.lines) else []) + before
                    + (if step.Event? && took then [step.line] else [])
    ensures |Join(before)| <= |Join(now)|
  {
    hide Join, Fitting;
    var first := if step.Register? && !was then Fitting(step.lines) else [];
    JoinAppend(first + before, if step.Event? && took then [step.line] else []);
    JoinAppend(first, before);
  }

  method TakeStep(c: StatsClient, step: Step) returns (ghost took: bool)
    requires c.Valid() && Proper(step)
    modifies c, c.nodes
    ensures c.Valid() && c.active == (old(c.active) || step.Register?)
    ensures c.hasWorker == (old(c.hasWorker) && !step.Leave?)
    ensures c.accepted == (if step.Register? && !old(c.active) then Fitting(step.lines) else [])
                          + old(c.accepted) + (if step.Event? && took then [step.line] else [])
    ensures took == (step.Event? && old(c.hasWorker) && old(c.contentLen) <= 6000000 && |step.line| < 4096)
    ensures forall k | 0 <= k < |c.nodes| :: c.nodes[k] in old(c.nodes) || fresh(c.nodes[k])
  {
    hide Join, Concat, Total, Chain, Distinct, StatsClient.Valid;
    took := step.Event? && c.hasWorker && c.contentLen <= QUEUE_MAX && |step.line| < BLOCK_MAX;
    match step {
      case Event(line) =>
        c.AddLine(line);
      case Register(lines) =>
        if !c.active {
          ghost var _ := RegisterWith(c, lines);
        }
      case Turn(net, long, broken) =>
        if c.active {
          var _, _ := c.Send(net, long, broken);
        }
      case Leave =>
        c.LeaveWorker();
    }
  }

  method RegisterWith(c: StatsClient, lines: seq<Line>) returns (ghost snapshot: seq<Line>)
    requires c.Valid() && !c.active && Proper(Register(lines))
    modifies c
    ensures c.Valid() && c.active && c.hasWorker == old(c.hasWorker)
    ensures snapshot == Fitting(lines) && c.accepted == snapshot + old(c.accepted)
    ensures forall k | 0 <= k < |c.nodes| :: c.nodes[k] in old(c.nodes) || fresh(c.nodes[k])
  {
    hide Join, Concat, Total, Chain, Distinct, StatsClient.Valid;
    var s := BuildSnapshot(lines);
    snapshot := Fitting(lines);
    FirstFits(lines);
    s.Whole();
    assert forall k | 0 <= k < |s.nodes| :: s.nodes[k] in s.nodes;
    c.Prepend(s.first, s.last, s.len, s.nodes, s.texts);
  }

  lemma {:induction false} FirstFits(lines: seq<Line>)
    requires lines != [] && |lines[0]| < SNAPSHOT_MAX
    ensures Fitting(lines) != []
    decreases |lines|
  {
    if |lines| > 1 {
      FirstFits(lines[..|lines| - 1]);
    }
  }
}
