/*
 * Logical basic blocks (logical BBs) of a Handshake function.
 *
 * After control flow is flattened, every operation of a function may carry a
 * BB attribute: a non-negative integer naming the basic block it came from.
 * The function's operations are modelled as the indices 0 .. n-1 of an array
 * holding each operation's BB attribute (`None` when the operation has none).
 * A value is produced either by one of these operations or by nothing (a
 * function argument).
 */
module LogicBB {

  datatype Option<+T> = None | Some(value: T)

  /** The BB attribute of one operation: `Some(bb)` or absent. */
  type Tag = Option<nat>

  /** Id of the function's entry logical BB. */
  const EntryBB: nat := 0

  /** An SSA value: the result of the operation at index `defOp`, or a function argument. */
  datatype Value = Defined(defOp: nat) | Argument

  /** The grouping of a function's operations by logical BB. */
  datatype LogicBBs = LogicBBs(blocks: map<nat, seq<nat>>, outOfBlocks: seq<nat>)

  // ---------------------------------------------------------------------------
  // Reference definition of the grouping
  // ---------------------------------------------------------------------------

  /** The indices of the operations whose BB attribute is `t`, in program order. */
  function Bucket(tags: seq<Tag>, t: Tag): seq<nat>
    decreases |tags|
  {
    if tags == [] then []
    else Bucket(tags[..|tags| - 1], t) + (if tags[|tags| - 1] == t then [|tags| - 1] else [])
  }

  /** The BB ids that some operation carries. */
  function CarriedIds(tags: seq<Tag>): set<nat>
  {
    set op | 0 <= op < |tags| && tags[op].Some? :: tags[op].value
  }

  /** What grouping the operations `tags` must produce: one bucket per carried id, and the untagged ones. */
  function LogicBBsOf(tags: seq<Tag>): LogicBBs
  {
    LogicBBs(map b | b in CarriedIds(tags) :: Bucket(tags, Some(b)), Bucket(tags, None))
  }

  /** Strictly increasing: program order, with no operation listed twice. */
  predicate Increasing(s: seq<nat>)
  {
    forall j, k :: 0 <= j < k < |s| ==> s[j] < s[k]
  }

  /** Sum of the lengths of the buckets of `m`. */
  ghost function BucketTotal(m: map<nat, seq<nat>>): nat
    decreases |m|
  {
    if m == map[] then 0
    else
      var k :| k in m;
      assert (m - {k}).Keys == m.Keys - {k};
      |m[k]| + BucketTotal(m - {k})
  }

  // ---------------------------------------------------------------------------
  // The operations of LogicBB.cpp
  // ---------------------------------------------------------------------------

  /** Groups the operations of a function by logical BB, visiting them in program order. */
  method GetLogicBBs(tags: array<Tag>) returns (r: LogicBBs)
    ensures r == LogicBBsOf(tags[..])
  {
    var blocks: map<nat, seq<nat>> := map[];
    var outOfBlocks: seq<nat> := [];
    for op := 0 to tags.Length
      invariant LogicBBs(blocks, outOfBlocks) == LogicBBsOf(tags[..op])
    {
      LogicBBsOfSnoc(tags[..op], tags[op]);
      assert tags[..op + 1] == tags[..op] + [tags[op]];
      match tags[op]
      case Some(bb) =>
        var members := if bb in blocks then blocks[bb] else [];
        blocks := blocks[bb := members + [op]];
      case None =>
        outOfBlocks := outOfBlocks + [op];
    }
    assert tags[..tags.Length] == tags[..];
    r := LogicBBs(blocks, outOfBlocks);
  }

  /** Copies the BB attribute of `src` onto `dst`; fails, changing nothing, when `src` has none. */
  method InheritBB(tags: array<Tag>, src: nat, dst: nat) returns (ok: bool)
    requires src < tags.Length && dst < tags.Length
    modifies tags
    ensures ok <==> old(tags[src]).Some?
    ensures ok ==> GetLogicBB(tags, dst) == old(GetLogicBB(tags, src))
    ensures !ok ==> GetLogicBB(tags, dst) == old(GetLogicBB(tags, dst))
    ensures forall op :: 0 <= op < tags.Length && op != dst ==> tags[op] == old(tags[op])
    ensures tags[..] == if ok then old(tags[..])[dst := old(tags[src])] else old(tags[..])
  {
    match tags[src]
    case Some(bb) =>
      tags[dst] := Some(bb);
      ok := true;
    case None =>
      ok := false;
  }

  /**
   * Gives `dst` the BB of the operation defining `v`, as InheritBB does; when `v`
   * is a function argument, `dst` is put in the entry BB and the call succeeds.
   */
  method InheritBBFromValue(tags: array<Tag>, v: Value, dst: nat) returns (ok: bool)
    requires dst < tags.Length
    requires v.Defined? ==> v.defOp < tags.Length
    modifies tags
    ensures v.Defined? ==> (ok <==> old(tags[v.defOp]).Some?)
    ensures v.Defined? ==> tags[..] == if ok then old(tags[..])[dst := old(tags[v.defOp])] else old(tags[..])
    ensures v.Argument? ==> ok && GetLogicBB(tags, dst) == Some(EntryBB)
    ensures v.Argument? ==> tags[..] == old(tags[..])[dst := Some(EntryBB)]
  {
    match v
    case Defined(defOp) =>
      ok := InheritBB(tags, defOp, dst);
    case Argument =>
      tags[dst] := Some(EntryBB);
      ok := true;
  }

  /** The BB attribute of `op`, or `None`; no default is ever substituted. */
  function GetLogicBB(tags: array<Tag>, op: nat): (r: Tag)
    reads tags
    requires op < tags.Length
    ensures r.None? <==> tags[op].None?
    ensures forall bb :: r == Some(bb) <==> tags[op] == Some(bb)
  {
    match tags[op]
    case Some(bb) => Some(bb)
    case None => None
  }

  // ---------------------------------------------------------------------------
  // Properties of the grouping
  // ---------------------------------------------------------------------------

  lemma BucketSnoc(s: seq<Tag>, x: Tag, t: Tag)
    ensures Bucket(s + [x], t) == Bucket(s, t) + (if x == t then [|s|] else [])
  {
    assert (s + [x])[..|s|] == s;
  }

  /** An operation is in bucket `t` exactly when its BB attribute is `t`. */
  lemma {:induction false} BucketMembership(tags: seq<Tag>, t: Tag, op: int)
    ensures op in Bucket(tags, t) <==> 0 <= op < |tags| && tags[op] == t
    decreases |tags|
  {
    if tags != [] {
      var s := tags[..|tags| - 1];
      BucketMembership(s, t, op);
    }
  }

  /** Each bucket lists its operations in program order, each once. */
  lemma {:induction false} BucketOrdered(tags: seq<Tag>, t: Tag)
    ensures Increasing(Bucket(tags, t))
    ensures forall op :: op in Bucket(tags, t) ==> op < |tags|
    decreases |tags|
  {
    if tags != [] {
      var s := tags[..|tags| - 1];
      var b := Bucket(s, t);
      BucketOrdered(s, t);
      if tags[|s|] == t {
        var b' := b + [|s|];
        assert Bucket(tags, t) == b';
        forall j, k | 0 <= j < k < |b'|
          ensures b'[j] < b'[k]
        {
          if k == |b| {
            assert b[j] in b;
          }
        }
      }
    }
  }

  lemma {:induction false} IncreasingCountsOnce(s: seq<nat>, x: nat)
    requires Increasing(s) && x in s
    ensures multiset(s)[x] == 1
  {
    assert s == [s[0]] + s[1..];
    if s[0] == x {
      assert x !in s[1..];
    } else {
      IncreasingCountsOnce(s[1..], x);
    }
  }

  lemma CarriedIdsSnoc(s: seq<Tag>, x: Tag)
    ensures CarriedIds(s + [x]) == CarriedIds(s) + (if x.Some? then {x.value} else {})
  {
    var s' := s + [x];
    forall b | b in CarriedIds(s')
      ensures b in CarriedIds(s) + (if x.Some? then {x.value} else {})
    {
      var op :| 0 <= op < |s'| && s'[op].Some? && s'[op].value == b;
      if op < |s| {
        assert s[op] == s'[op];
      }
    }
    forall b | b in CarriedIds(s)
      ensures b in CarriedIds(s')
    {
      var op :| 0 <= op < |s| && s[op].Some? && s[op].value == b;
      assert s'[op] == s[op];
    }
    if x.Some? {
      assert s'[|s|] == x;
    }
  }

  /** One step of the grouping loop: the next operation joins the end of exactly one bucket. */
  lemma LogicBBsOfSnoc(s: seq<Tag>, x: Tag)
    ensures var g := LogicBBsOf(s);
      LogicBBsOf(s + [x]) ==
        match x
        case Some(bb) =>
          LogicBBs(g.blocks[bb := (if bb in g.blocks then g.blocks[bb] else []) + [|s|]], g.outOfBlocks)
        case None =>
          LogicBBs(g.blocks, g.outOfBlocks + [|s|])
  {
    var g, g' := LogicBBsOf(s), LogicBBsOf(s + [x]);
    CarriedIdsSnoc(s, x);
    BucketSnoc(s, x, None);
    forall b | b in CarriedIds(s + [x])
      ensures g'.blocks[b] == Bucket(s, Some(b)) + (if x == Some(b) then [|s|] else [])
    {
      BucketSnoc(s, x, Some(b));
    }
    match x
    case Some(bb) =>
      if bb !in g.blocks {
        if Bucket(s, Some(bb)) != [] {
          BucketMembership(s, Some(bb), Bucket(s, Some(bb))[0]);
          assert false;
        }
      }
      var m := g.blocks[bb := (if bb in g.blocks then g.blocks[bb] else []) + [|s|]];
      assert g'.blocks.Keys == m.Keys;
      forall b | b in m
        ensures g'.blocks[b] == m[b]
      {
        BucketSnoc(s, x, Some(b));
      }
      assert g'.blocks == m;
    case None =>
      assert g'.blocks.Keys == g.blocks.Keys;
      forall b | b in g.blocks
        ensures g'.blocks[b] == g.blocks[b]
      {
        BucketSnoc(s, x, Some(b));
      }
      assert g'.blocks == g.blocks;
  }

  /** Every operation is in exactly one bucket: the one of its BB, or the untagged list. */
  lemma ExactlyOneBucket(tags: seq<Tag>, op: nat)
    requires op < |tags|
    ensures var g := LogicBBsOf(tags);
      tags[op].None? ==>
        && multiset(g.outOfBlocks)[op] == 1
        && forall b :: b in g.blocks ==> op !in g.blocks[b]
    ensures var g := LogicBBsOf(tags);
      tags[op].Some? ==>
        && tags[op].value in g.blocks
        && multiset(g.blocks[tags[op].value])[op] == 1
        && op !in g.outOfBlocks
        && forall b :: b in g.blocks && b != tags[op].value ==> op !in g.blocks[b]
  {
    var g := LogicBBsOf(tags);
    BucketMembership(tags, tags[op], op);
    BucketOrdered(tags, tags[op]);
    IncreasingCountsOnce(Bucket(tags, tags[op]), op);
    BucketMembership(tags, None, op);
    forall b | b in g.blocks
      ensures op in g.blocks[b] <==> tags[op] == Some(b)
    {
      BucketMembership(tags, Some(b), op);
    }
  }

  /** The keys of `blocks` are exactly the BB ids some operation carries, and no bucket is empty. */
  lemma BlockIdsAreCarried(tags: seq<Tag>, bb: nat)
    ensures var g := LogicBBsOf(tags);
      bb in g.blocks <==> exists op :: 0 <= op < |tags| && tags[op] == Some(bb)
    ensures var g := LogicBBsOf(tags);
      bb in g.blocks ==> g.blocks[bb] != []
  {
    if bb in CarriedIds(tags) {
      var op :| 0 <= op < |tags| && tags[op].Some? && tags[op].value == bb;
      BucketMembership(tags, Some(bb), op);
    }
  }

  lemma {:induction false} BucketTotalRemove(m: map<nat, seq<nat>>, k: nat)
    requires k in m
    ensures BucketTotal(m) == |m[k]| + BucketTotal(m - {k})
    decreases |m|
  {
    var j :| j in m && BucketTotal(m) == |m[j]| + BucketTotal(m - {j});
    if j != k {
      assert (m - {j}).Keys == m.Keys - {j};
      assert (m - {k}).Keys == m.Keys - {k};
      BucketTotalRemove(m - {j}, k);
      BucketTotalRemove(m - {k}, j);
      assert m - {j} - {k} == m - {k} - {j};
    }
  }

  /** The bucket sizes add up to the number of operations. */
  lemma {:induction false} BucketSizesSum(tags: seq<Tag>)
    ensures var g := LogicBBsOf(tags);
      |g.outOfBlocks| + BucketTotal(g.blocks) == |tags|
    decreases |tags|
  {
    if tags != [] {
      var s, x := tags[..|tags| - 1], tags[|tags| - 1];
      assert tags == s + [x];
      BucketSizesSum(s);
      LogicBBsOfSnoc(s, x);
      var g := LogicBBsOf(s);
      match x
      case Some(bb) =>
        var members := (if bb in g.blocks then g.blocks[bb] else []) + [|s|];
        var m := g.blocks[bb := members];
        BucketTotalRemove(m, bb);
        assert m - {bb} == g.blocks - {bb};
        if bb in g.blocks {
          BucketTotalRemove(g.blocks, bb);
        } else {
          assert g.blocks - {bb} == g.blocks;
        }
      case None =>
    }
  }

  /** The query and the grouping agree on every operation. */
  lemma QueryAgreesWithGrouping(tags: array<Tag>, op: nat)
    requires op < tags.Length
    ensures var g := LogicBBsOf(tags[..]);
      GetLogicBB(tags, op) == None <==> op in g.outOfBlocks
    ensures var g := LogicBBsOf(tags[..]);
      forall bb :: GetLogicBB(tags, op) == Some(bb) <==> bb in g.blocks && op in g.blocks[bb]
  {
    ExactlyOneBucket(tags[..], op);
  }

  /**
   * Setting the BB attribute of `dst` to `bb` (what a successful InheritBB or
   * InheritBBFromValue does) moves `dst` into block `bb` alone; every other
   * operation stays in the bucket it was in.
   */
  lemma RetagJoinsBlock(tags: seq<Tag>, dst: nat, bb: nat)
    requires dst < |tags|
    ensures var g := LogicBBsOf(tags[dst := Some(bb)]);
      && bb in g.blocks && dst in g.blocks[bb] && dst !in g.outOfBlocks
      && forall b :: b in g.blocks && b != bb ==> dst !in g.blocks[b]
    ensures forall op, t :: op != dst ==>
      (op in Bucket(tags[dst := Some(bb)], t) <==> op in Bucket(tags, t))
  {
    var tags' := tags[dst := Some(bb)];
    ExactlyOneBucket(tags', dst);
    forall op, t | op != dst
      ensures op in Bucket(tags', t) <==> op in Bucket(tags, t)
    {
      BucketMembership(tags', t, op);
      BucketMembership(tags, t, op);
    }
  }

  /** A worked grouping: [A(bb 1), B(bb 1), C(no BB), D(bb 2)] gives {1: [A, B], 2: [D]} and [C]. */
  lemma GroupingExample()
    ensures LogicBBsOf([Some(1), Some(1), None, Some(2)]) == LogicBBs(map[1 := [0, 1], 2 := [3]], [2])
  {
    var t0: seq<Tag> := [];
    var t1 := t0 + [Some(1)];
    var t2 := t1 + [Some(1)];
    var t3 := t2 + [None];
    var t4 := t3 + [Some(2)];
    assert LogicBBsOf(t0) == LogicBBs(map[], []);
    LogicBBsOfSnoc(t0, Some(1));
    assert [] + [0] == [0];
    assert LogicBBsOf(t1) == LogicBBs(map[1 := [0]], []);
    LogicBBsOfSnoc(t1, Some(1));
    assert [0] + [1] == [0, 1];
    assert LogicBBsOf(t2) == LogicBBs(map[1 := [0, 1]], []);
    LogicBBsOfSnoc(t2, None);
    assert LogicBBsOf(t3) == LogicBBs(map[1 := [0, 1]], [2]);
    LogicBBsOfSnoc(t3, Some(2));
    assert [] + [3] == [3];
    assert map[1 := [0, 1]][2 := [3]] == map[1 := [0, 1], 2 := [3]];
    assert LogicBBsOf(t4) == LogicBBs(map[1 := [0, 1], 2 := [3]], [2]);
    assert t4 == [Some(1), Some(1), None, Some(2)];
  }

  /** A caller's view: an argument puts its user in the entry BB; an untagged source leaves the destination alone. */
  method InheritanceExample()
  {
    var tags := new Tag[3](_ => None);
    var ok := InheritBBFromValue(tags, Argument, 1);
    assert ok && GetLogicBB(tags, 1) == Some(EntryBB);
    ok := InheritBB(tags, 0, 2);
    assert !ok && GetLogicBB(tags, 2) == None;
    ok := InheritBBFromValue(tags, Defined(1), 2);
    assert ok && GetLogicBB(tags, 2) == Some(EntryBB);
  }
}
