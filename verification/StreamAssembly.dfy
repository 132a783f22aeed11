/**
  Putting streamed tool calls together (bfg2/bfg/core/agent_views.py, lines 664-699).  A call's
  id, name and arguments arrive in fragments, and fragments of different calls interleave.
  What is assembled for an index depends on that index's own fragments alone
  (`ProjectionDecides`), so every interleaving that keeps the order of each index gives back the
  calls that were fragmented (`Reassembled`).
 */
module StreamAssembly {
  import opened Wrappers

  /** A missing or empty part is "". */
  datatype Delta = Delta(index: Option<int>, id: string, name: string, arguments: string)

  /** `choices` is false for the final chunk that only carries usage. */
  datatype Chunk = Chunk(choices: bool, content: string, deltas: seq<Delta>)

  datatype Call = Call(id: string, name: string, arguments: string)

  type Calls = map<int, Call>

  function Absorb(calls: Calls, d: Delta): Calls {
    match d.index
    case None => calls
    case Some(i) => calls[i := Extend(if i in calls then calls[i] else Call("", "", ""), d)]
  }

  function Extend(c: Call, d: Delta): Call {
    Call(if d.id != "" then d.id else c.id, if d.name != "" then d.name else c.name, c.arguments + d.arguments)
  }

  function AbsorbAll(calls: Calls, ds: seq<Delta>): Calls
    decreases |ds|
  {
    if ds == [] then calls else AbsorbAll(Absorb(calls, ds[0]), ds[1..])
  }

  function DeltasOf(chunks: seq<Chunk>): seq<Delta> {
    if chunks == [] then []
    else (if chunks[0].choices then chunks[0].deltas else []) + DeltasOf(chunks[1..])
  }

  /** The content pieces sent on to the client, in order. */
  function SentBy(chunks: seq<Chunk>): seq<string> {
    if chunks == [] then []
    else (if chunks[0].choices && chunks[0].content != "" then [chunks[0].content] else []) + SentBy(chunks[1..])
  }

  function Joined(parts: seq<string>): string {
    if parts == [] then "" else parts[0] + Joined(parts[1..])
  }

  // ---- Sorted keys ----

  ghost predicate IsLeast(m: int, s: set<int>) {
    m in s && forall k :: k in s ==> m <= k
  }

  lemma Inhabited(s: set<int>)
    ensures s == {} || exists x :: x in s
  {
    if forall x :: x !in s {
      assert s == {};
    }
  }

  lemma {:induction false} LeastExists(s: set<int>) returns (m: int)
    requires s != {}
    ensures IsLeast(m, s)
    decreases s
  {
    Inhabited(s);
    var x :| x in s;
    m := x;
    if s != {x} {
      var n := LeastExists(s - {x});
      m := if n < x then n else x;
      assert forall k :: k in s ==> k == x || k in s - {x};
    }
  }

  ghost function Least(s: set<int>): (m: int)
    requires s != {}
    ensures IsLeast(m, s)
  {
    assert exists m :: IsLeast(m, s) by { var m := LeastExists(s); assert IsLeast(m, s); }
    var m :| IsLeast(m, s);
    m
  }

  /** The elements of a set in increasing order. */
  ghost function Sorted(s: set<int>): (ks: seq<int>)
    ensures forall k :: k in ks <==> k in s
    ensures forall i, j :: 0 <= i < j < |ks| ==> ks[i] < ks[j]
    decreases s
  {
    if s == {} then [] else [Least(s)] + Sorted(s - {Least(s)})
  }

  function InOrder(calls: Calls, ks: seq<int>): seq<Call>
    requires forall k :: k in ks ==> k in calls
  {
    if ks == [] then []
    else
      var first := ks[0];
      assert first in ks;
      assert forall k :: k in ks[1..] ==> k in ks;
      [calls[first]] + InOrder(calls, ks[1..])
  }

  // ---- The loops over the stream ----

  lemma {:induction false} AbsorbBoth(calls: Calls, a: seq<Delta>, b: seq<Delta>)
    ensures AbsorbAll(calls, a + b) == AbsorbAll(AbsorbAll(calls, a), b)
    decreases |a|
  {
    hide Absorb;
    if a == [] {
      assert a + b == b;
    } else {
      assert (a + b)[1..] == a[1..] + b;
      AbsorbBoth(Absorb(calls, a[0]), a[1..], b);
    }
  }

  method AbsorbChunk(before: Calls, deltas: seq<Delta>) returns (calls: Calls)
    ensures calls == AbsorbAll(before, deltas)
  {
    calls := before;
    var k := 0;
    assert deltas[0..] == deltas;
    while k < |deltas|
      invariant 0 <= k <= |deltas|
      invariant AbsorbAll(before, deltas) == AbsorbAll(calls, deltas[k..])
    {
      var d := deltas[k];
      ghost var was := calls;
      assert deltas[k..][1..] == deltas[k + 1..];
      if d.index.Some? {
        var i := d.index.value;
        if i !in calls {
          calls := calls[i := Call("", "", "")];
        }
        if d.id != "" {
          calls := calls[i := calls[i].(id := d.id)];
        }
        if d.name != "" {
          calls := calls[i := calls[i].(name := d.name)];
        }
        calls := calls[i := calls[i].(arguments := calls[i].arguments + d.arguments)];
      }
      assert calls == Absorb(was, d);
      k := k + 1;
    }
  }

  method Assemble(chunks: seq<Chunk>) returns (content: string, sent: seq<string>, calls: Calls)
    ensures sent == SentBy(chunks) && content == Joined(sent)
    ensures calls == AbsorbAll(map[], DeltasOf(chunks))
  {
    hide AbsorbAll;
    calls := map[];
    sent := [];
    var n := 0;
    assert chunks[0..] == chunks;
    while n < |chunks|
      invariant 0 <= n <= |chunks|
      invariant SentBy(chunks) == sent + SentBy(chunks[n..])
      invariant AbsorbAll(map[], DeltasOf(chunks)) == AbsorbAll(calls, DeltasOf(chunks[n..]))
    {
      var chunk := chunks[n];
      assert chunks[n..][1..] == chunks[n + 1..];
      n := n + 1;
      if chunk.choices {
        if chunk.content != "" {
          sent := sent + [chunk.content];
        }
        AbsorbBoth(calls, chunk.deltas, DeltasOf(chunks[n..]));
        calls := AbsorbChunk(calls, chunk.deltas);
      } else {
        assert [] + DeltasOf(chunks[n..]) == DeltasOf(chunks[n..]);
      }
    }
    NothingMore(calls);
    content := Joined(sent);
  }

  lemma NothingMore(calls: Calls)
    ensures AbsorbAll(calls, []) == calls
  {
  }

  /** The calls under the indices in a set, in index order. */
  ghost function Listed(calls: Calls, left: set<int>): seq<Call>
    requires left <= calls.Keys
  {
    InOrder(calls, Sorted(left))
  }

  lemma NoneListed(calls: Calls)
    ensures Listed(calls, {}) == []
  {
  }

  lemma LeastFirst(calls: Calls, left: set<int>)
    requires left != {} && left <= calls.Keys
    ensures Least(left) in calls
    ensures Listed(calls, left) == [calls[Least(left)]] + Listed(calls, left - {Least(left)})
  {
    assert Sorted(left)[1..] == Sorted(left - {Least(left)});
  }

  /** `sorted(tool_calls_accum.keys())`, taking the least index left each time. */
  method ListCalls(calls: Calls) returns (list: seq<Call>)
    ensures list == Listed(calls, calls.Keys)
  {
    hide Listed, Least;
    NoneListed(calls);
    list := [];
    var left := calls.Keys;
    while left != {}
      invariant left <= calls.Keys
      invariant Listed(calls, calls.Keys) == list + Listed(calls, left)
      decreases left
    {
      LeastFirst(calls, left);
      var i := FindLeast(left);
      list := list + [calls[i]];
      left := left - {i};
    }
  }

  method FindLeast(s: set<int>) returns (m: int)
    requires s != {}
    ensures m == Least(s)
  {
    Inhabited(s);
    m :| m in s;
    var left := s - {m};
    while left != {}
      invariant left <= s && m in s
      invariant forall k :: k in s && k !in left ==> m <= k
      decreases left
    {
      Inhabited(left);
      var n :| n in left;
      if n < m {
        m := n;
      }
      left := left - {n};
    }
    assert IsLeast(m, s) && IsLeast(Least(s), s);
  }

  // ---- Only an index's own fragments matter ----

  /** The fragments of one call, in the order they came. */
  function Own(ds: seq<Delta>, i: int): seq<Delta> {
    if ds == [] then [] else (if ds[0].index == Some(i) then [ds[0]] else []) + Own(ds[1..], i)
  }

  function Grown(c: Call, ds: seq<Delta>): Call
    decreases |ds|
  {
    if ds == [] then c else Grown(Extend(c, ds[0]), ds[1..])
  }

  lemma {:induction false} ProjectionAt(calls: Calls, ds: seq<Delta>, i: int)
    ensures i in AbsorbAll(calls, ds) <==> i in calls || Own(ds, i) != []
    ensures i in AbsorbAll(calls, ds) ==>
      AbsorbAll(calls, ds)[i] == Grown(if i in calls then calls[i] else Call("", "", ""), Own(ds, i))
    decreases |ds|
  {
    hide Extend;
    if ds != [] {
      ProjectionAt(Absorb(calls, ds[0]), ds[1..], i);
      if ds[0].index == Some(i) {
        assert Own(ds, i)[1..] == Own(ds[1..], i);
      } else {
        assert Own(ds, i) == Own(ds[1..], i);
      }
    }
  }

  /** Two streams with the same fragments per index assemble to the same calls. */
  lemma ProjectionDecides(ds1: seq<Delta>, ds2: seq<Delta>)
    requires forall i :: Own(ds1, i) == Own(ds2, i)
    ensures AbsorbAll(map[], ds1) == AbsorbAll(map[], ds2)
  {
    var a, b := AbsorbAll(map[], ds1), AbsorbAll(map[], ds2);
    forall i
      ensures (i in a <==> i in b) && (i in a ==> a[i] == b[i])
    {
      ProjectionAt(map[], ds1, i);
      ProjectionAt(map[], ds2, i);
    }
  }

  // ---- Reassembly ----

  function ArgumentsOf(ds: seq<Delta>): string {
    if ds == [] then "" else ds[0].arguments + ArgumentsOf(ds[1..])
  }

  /**
    ds is some cutting of the call: no fragment contradicts its id or name, each that is not
    empty is given at least once, and the argument pieces add up.
   */
  predicate Fragments(ds: seq<Delta>, c: Call) {
    && ds != []
    && (forall k :: 0 <= k < |ds| ==>
      (ds[k].id == "" || ds[k].id == c.id) && (ds[k].name == "" || ds[k].name == c.name))
    && (c.id == "" || exists k :: 0 <= k < |ds| && ds[k].id == c.id)
    && (c.name == "" || exists k :: 0 <= k < |ds| && ds[k].name == c.name)
    && ArgumentsOf(ds) == c.arguments
  }

  /** The fragments under each index are a cutting of the call there, in any interleaving. */
  ghost predicate FragmentedAs(ds: seq<Delta>, calls: Calls) {
    && (forall i :: i in calls ==> Fragments(Own(ds, i), calls[i]))
    && (forall i :: i !in calls ==> Own(ds, i) == [])
  }

  lemma {:induction false} GrownParts(c: Call, ds: seq<Delta>, id: string, name: string)
    requires forall k :: 0 <= k < |ds| ==>
      (ds[k].id == "" || ds[k].id == id) && (ds[k].name == "" || ds[k].name == name)
    ensures var g := Grown(c, ds);
      && g.arguments == c.arguments + ArgumentsOf(ds)
      && (g.id == if exists k :: 0 <= k < |ds| && ds[k].id != "" then id else c.id)
      && (g.name == if exists k :: 0 <= k < |ds| && ds[k].name != "" then name else c.name)
    decreases |ds|
  {
    if ds != [] {
      var tail, next := ds[1..], Extend(c, ds[0]);
      assert forall k :: 0 <= k < |tail| ==> tail[k] == ds[k + 1];
      GrownParts(next, tail, id, name);
      assert (exists k :: 0 <= k < |tail| && tail[k].id != "") ==> (exists k :: 0 <= k < |ds| && ds[k].id != "");
      assert (exists k :: 0 <= k < |tail| && tail[k].name != "") ==> (exists k :: 0 <= k < |ds| && ds[k].name != "");
      assert (c.arguments + ds[0].arguments) + ArgumentsOf(tail) == c.arguments + (ds[0].arguments + ArgumentsOf(tail));
      FirstOrLater(ds);
    }
  }

  lemma FirstOrLater(ds: seq<Delta>)
    requires ds != []
    ensures (exists k :: 0 <= k < |ds| && ds[k].id != "") ==>
      ds[0].id != "" || exists k :: 0 <= k < |ds[1..]| && ds[1..][k].id != ""
    ensures (exists k :: 0 <= k < |ds| && ds[k].name != "") ==>
      ds[0].name != "" || exists k :: 0 <= k < |ds[1..]| && ds[1..][k].name != ""
  {
    forall k | 0 < k < |ds|
      ensures ds[k] == ds[1..][k - 1]
    {
    }
  }

  /**
    For any cutting of any calls into fragments, interleaved in any way that keeps the order of
    each index, assembling gives back exactly those calls.
   */
  lemma Reassembled(ds: seq<Delta>, calls: Calls)
    requires FragmentedAs(ds, calls)
    ensures AbsorbAll(map[], ds) == calls
  {
    var a := AbsorbAll(map[], ds);
    forall i
      ensures (i in a <==> i in calls) && (i in a ==> a[i] == calls[i])
    {
      ProjectionAt(map[], ds, i);
      if i in calls {
        var own, c := Own(ds, i), calls[i];
        GrownParts(Call("", "", ""), own, c.id, c.name);
        assert "" + ArgumentsOf(own) == ArgumentsOf(own);
      }
    }
  }

  /** The list handed on has the calls in increasing order of index, each once. */
  lemma {:induction false} OrderKept(calls: Calls, ks: seq<int>, n: nat)
    requires forall k :: k in ks ==> k in calls
    ensures |InOrder(calls, ks)| == |ks| && (n < |ks| ==> InOrder(calls, ks)[n] == calls[ks[n]])
  {
    if ks != [] {
      OrderKept(calls, ks[1..], if n > 0 then n - 1 else 0);
    }
  }

  // ---- What is read of a stream ----

  lemma {:induction false} JoinedBoth(a: seq<string>, b: seq<string>)
    ensures Joined(a + b) == Joined(a) + Joined(b)
  {
    if a == [] {
      assert a + b == b;
    } else {
      assert (a + b)[0] == a[0] && (a + b)[1..] == a[1..] + b;
      JoinedBoth(a[1..], b);
    }
  }

  /** Every piece stands whole in the content, between the pieces before it and those after it. */
  lemma JoinedExact(a: seq<string>, x: string, b: seq<string>)
    ensures Joined(a + ([x] + b)) == Joined(a) + (x + Joined(b)) && Joined([]) == ""
  {
    assert ([x] + b)[1..] == b;
    JoinedBoth(a, [x] + b);
  }

  lemma {:induction false} SentBoth(a: seq<Chunk>, b: seq<Chunk>)
    ensures SentBy(a + b) == SentBy(a) + SentBy(b)
  {
    if a == [] {
      assert a + b == b;
    } else {
      assert (a + b)[0] == a[0] && (a + b)[1..] == a[1..] + b;
      SentBoth(a[1..], b);
    }
  }

  lemma {:induction false} DeltasBoth(a: seq<Chunk>, b: seq<Chunk>)
    ensures DeltasOf(a + b) == DeltasOf(a) + DeltasOf(b)
  {
    if a == [] {
      assert a + b == b;
    } else {
      assert (a + b)[0] == a[0] && (a + b)[1..] == a[1..] + b;
      DeltasBoth(a[1..], b);
    }
  }

  /** Of each chunk with a choice its text, unless empty, and its fragments are read, in the order of the chunks. */
  lemma StreamExact(a: seq<Chunk>, c: Chunk, b: seq<Chunk>)
    ensures SentBy([]) == [] && DeltasOf([]) == []
    ensures !c.choices ==> SentBy(a + ([c] + b)) == SentBy(a + b) && DeltasOf(a + ([c] + b)) == DeltasOf(a + b)
    ensures c.choices ==> DeltasOf(a + ([c] + b)) == DeltasOf(a) + (c.deltas + DeltasOf(b))
    ensures c.choices && c.content == "" ==> SentBy(a + ([c] + b)) == SentBy(a) + SentBy(b)
    ensures c.choices && c.content != "" ==> SentBy(a + ([c] + b)) == SentBy(a) + ([c.content] + SentBy(b))
  {
    assert ([c] + b)[1..] == b;
    SentBoth(a, [c] + b);
    SentBoth(a, b);
    DeltasBoth(a, [c] + b);
    DeltasBoth(a, b);
  }
}
