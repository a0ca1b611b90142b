/** Batching: the dimension bookkeeping of the vmap transform.

    `AddBatchDim` enters a level by hiding a dimension; `HasLevel` looks a level up;
    `RemoveExistingBatchDim` strips the hidden dimension of a level and says at which logical index
    it became visible; `MoveDim` moves one axis while keeping the others in order; and
    `RemoveBatchDim`, the exit point of a level, either synthesises the batch axis by broadcasting
    (the value never depended on the level) or strips it and moves it to `outDim`. */
module Batching {
  import opened Shapes
  import opened BatchedTensors

  // ------------------------------------------------------------------------------------------
  // Looking a level up

  /** Some batch dim carries `level`. */
  predicate Carries(bdims: seq<BatchDim>, level: int) {
    exists j :: 0 <= j < |bdims| && bdims[j].level == level
  }

  /** `std::find_if` over the batch dims: the first index whose level is `level`, or |bdims|. */
  function FindLevel(bdims: seq<BatchDim>, level: int): (i: nat)
    ensures i <= |bdims|
    ensures i < |bdims| ==> bdims[i].level == level
    ensures forall j :: 0 <= j < i ==> bdims[j].level != level
    decreases |bdims|
  {
    if bdims == [] then 0
    else if bdims[0].level == level then 0
    else 1 + FindLevel(bdims[1..], level)
  }

  /** `has_level`: false for a plain tensor; for a batched one, whether a batch dim has `level`. */
  function HasLevel(t: Tensor, level: int): (b: bool)
    ensures b <==> t.Batched? && Carries(t.bdims, level)
  {
    match t
    case Plain(_) => false
    case Batched(_, bdims) => FindLevel(bdims, level) != |bdims|
  }

  /** The physical size of the dimension hidden under `level`. */
  function LevelSize(t: Tensor, level: int): nat
    requires Valid(t) && HasLevel(t, level)
  {
    t.physical[t.bdims[FindLevel(t.bdims, level)].dim]
  }

  /** Levels are distinct, so the size of a level is the size under any entry carrying it. */
  lemma LevelSizeAt(t: Tensor, j: nat)
    requires Valid(t) && t.Batched? && j < |t.bdims|
    ensures HasLevel(t, t.bdims[j].level)
    ensures LevelSize(t, t.bdims[j].level) == t.physical[t.bdims[j].dim]
  {
    var i := FindLevel(t.bdims, t.bdims[j].level);
    assert i <= j && t.bdims[i].level == t.bdims[j].level;
  }

  /** a and b carry the same levels with the same sizes, apart from `level`. */
  ghost predicate AgreeBut(a: Tensor, b: Tensor, level: int)
    requires Valid(a) && Valid(b)
  {
    forall m :: m != level ==>
      && (HasLevel(a, m) <==> HasLevel(b, m))
      && (HasLevel(a, m) ==> LevelSize(a, m) == LevelSize(b, m))
  }

  /** a and b carry the same levels with the same sizes. */
  ghost predicate SameLevels(a: Tensor, b: Tensor)
    requires Valid(a) && Valid(b)
  {
    forall m ::
      && (HasLevel(a, m) <==> HasLevel(b, m))
      && (HasLevel(a, m) ==> LevelSize(a, m) == LevelSize(b, m))
  }

  /** A view keeps every hidden level and its size. */
  lemma ViewKeepsLevels(t: Tensor, logical: Shape)
    requires Valid(t)
    ensures SameLevels(t, ViewAs(t, logical))
  {
    var r := ViewAs(t, logical);
    forall m ensures (HasLevel(t, m) <==> HasLevel(r, m)) && (HasLevel(t, m) ==> LevelSize(t, m) == LevelSize(r, m)) {
      if HasLevel(t, m) {
        var j := FindLevel(t.bdims, m);
        LevelSizeAt(t, j);
        LevelSizeAt(r, j);
      }
      if HasLevel(r, m) {
        var j := FindLevel(r.bdims, m);
        assert t.bdims[j].level == m;
      }
    }
  }

  // ------------------------------------------------------------------------------------------
  // Entering a level

  /** The physical index of the d-th dimension at or after p that `bdims` leaves visible. */
  function NthVisible(bdims: seq<BatchDim>, n: nat, d: nat, p: nat): nat
    requires p <= n
    decreases n - p
  {
    if p == n then n
    else if Hidden(bdims, p) then NthVisible(bdims, n, d, p + 1)
    else if d == 0 then p
    else NthVisible(bdims, n, d - 1, p + 1)
  }

  lemma {:induction false} NthVisibleIsVisible(physical: Shape, bdims: seq<BatchDim>, d: nat, p: nat)
    requires p <= |physical| && d < |Visible(physical, bdims, p, |physical|)|
    ensures var q := NthVisible(bdims, |physical|, d, p);
      p <= q < |physical| && !Hidden(bdims, q) && |Visible(physical, bdims, p, q)| == d
    decreases |physical| - p
  {
    var n := |physical|;
    if Hidden(bdims, p) {
      NthVisibleIsVisible(physical, bdims, d, p + 1);
    } else if d > 0 {
      NthVisibleIsVisible(physical, bdims, d - 1, p + 1);
    }
  }

  /** `_add_batch_dim(self, batch_dim, level)`, which hands over to the engine's `addBatchDim`:
      logical dimension `batchDim` of `t` becomes hidden under `level`. A plain tensor gets the
      single batch dim (level, batchDim); a batched one gets (level, physical index of that
      logical dimension) appended to its batch dims. */
  function AddBatchDim(t: Tensor, batchDim: nat, level: int): (r: Tensor)
    requires Valid(t) && !HasLevel(t, level) && batchDim < |Logical(t)|
    ensures Valid(r) && HasLevel(r, level)
    ensures Logical(r) == Logical(t)[..batchDim] + Logical(t)[batchDim + 1..]
    ensures LevelSize(r, level) == Logical(t)[batchDim]
    ensures AgreeBut(t, r, level)
  {
    match t
    case Plain(sizes) =>
      AddToPlain(sizes, batchDim, level);
      Batched(sizes, [BatchDim(level, batchDim)])
    case Batched(physical, bdims) =>
      AddToBatched(t, batchDim, level);
      Batched(physical, bdims + [BatchDim(level, NthVisible(bdims, |physical|, batchDim, 0))])
  }

  /** Hiding logical dimension d of a batched tensor under `level`. */
  lemma AddToBatched(t: Tensor, d: nat, level: int)
    requires Valid(t) && t.Batched? && !HasLevel(t, level) && d < |Logical(t)|
    ensures var r := Batched(t.physical, t.bdims + [BatchDim(level, NthVisible(t.bdims, |t.physical|, d, 0))]);
      && Valid(r) && HasLevel(r, level)
      && Logical(r) == Logical(t)[..d] + Logical(t)[d + 1..]
      && LevelSize(r, level) == Logical(t)[d]
      && AgreeBut(t, r, level)
  {
    var q := NthVisible(t.bdims, |t.physical|, d, 0);
    NthVisibleIsVisible(t.physical, t.bdims, d, 0);
    AddToBatchedValid(t, q, level);
    AddToBatchedShape(t, q, level);
    AddToBatchedLevels(t, q, level);
  }

  /** Hiding dimension d of a plain tensor under `level`. */
  lemma AddToPlain(sizes: Shape, d: nat, level: int)
    requires d < |sizes|
    ensures var r := Batched(sizes, [BatchDim(level, d)]);
      && Valid(r) && HasLevel(r, level)
      && Logical(r) == sizes[..d] + sizes[d + 1..]
      && LevelSize(r, level) == sizes[d]
      && AgreeBut(Plain(sizes), r, level)
  {
    var r := Batched(sizes, [BatchDim(level, d)]);
    assert forall x :: Hidden(r.bdims, x) <==> x == d by {
      assert r.bdims[0].dim == d;
    }
    HideOne(sizes, [], r.bdims, d);
    VisibleNoneHidden(sizes, [], 0, d);
    VisibleNoneHidden(sizes, [], d + 1, |sizes|);
    LevelSizeAt(r, 0);
  }

  /** Appending a batch dim that hides a visible dimension q under a new level keeps the tensor
      valid, and hides exactly q more. */
  lemma AddToBatchedValid(t: Tensor, q: nat, level: int)
    requires Valid(t) && t.Batched? && !HasLevel(t, level)
    requires q < |t.physical| && !Hidden(t.bdims, q)
    ensures var more := t.bdims + [BatchDim(level, q)];
      && Valid(Batched(t.physical, more))
      && forall x :: Hidden(more, x) <==> Hidden(t.bdims, x) || x == q
  {
    var bdims := t.bdims;
    var more := bdims + [BatchDim(level, q)];
    forall x ensures Hidden(more, x) <==> Hidden(bdims, x) || x == q {
      if Hidden(bdims, x) {
        var j :| 0 <= j < |bdims| && bdims[j].dim == x;
        assert more[j].dim == x;
      }
      if Hidden(more, x) && x != q {
        var j :| 0 <= j < |more| && more[j].dim == x;
        assert j < |bdims| && bdims[j].dim == x;
      }
      if x == q {
        assert more[|bdims|].dim == x;
      }
    }
    forall j | 0 <= j < |bdims| ensures bdims[j].dim != q && bdims[j].level != level {
      assert Hidden(bdims, bdims[j].dim);
      assert Carries(bdims, bdims[j].level);
    }
  }

  /** Hiding the visible dimension q, the d-th visible one, removes logical axis d. */
  lemma AddToBatchedShape(t: Tensor, q: nat, level: int)
    requires Valid(t) && t.Batched? && q < |t.physical| && !Hidden(t.bdims, q)
    requires forall x :: Hidden(t.bdims + [BatchDim(level, q)], x) <==> Hidden(t.bdims, x) || x == q
    ensures var d := |Visible(t.physical, t.bdims, 0, q)|;
      && d < |Logical(t)|
      && Logical(Batched(t.physical, t.bdims + [BatchDim(level, q)])) == Logical(t)[..d] + Logical(t)[d + 1..]
      && Logical(t)[d] == t.physical[q]
  {
    var physical, bdims := t.physical, t.bdims;
    var before := Visible(physical, bdims, 0, q);
    var after := Visible(physical, bdims, q + 1, |physical|);
    VisibleAround(physical, bdims, q);
    HideOne(physical, bdims, bdims + [BatchDim(level, q)], q);
    assert Logical(t) == before + [physical[q]] + after;
    assert Logical(t)[..|before|] == before;
    assert Logical(t)[|before| + 1..] == after;
  }

  /** Appending a batch dim under a new level keeps every other level with its size. */
  lemma AddToBatchedLevels(t: Tensor, q: nat, level: int)
    requires Valid(t) && t.Batched? && !HasLevel(t, level) && q < |t.physical|
    requires Valid(Batched(t.physical, t.bdims + [BatchDim(level, q)]))
    ensures var r := Batched(t.physical, t.bdims + [BatchDim(level, q)]);
      && HasLevel(r, level) && LevelSize(r, level) == t.physical[q]
      && AgreeBut(t, r, level)
  {
    var bdims := t.bdims;
    var more := bdims + [BatchDim(level, q)];
    var r := Batched(t.physical, more);
    assert more[|bdims|].level == level;
    LevelSizeAt(r, |bdims|);
    forall m | m != level
      ensures (HasLevel(t, m) <==> HasLevel(r, m)) && (HasLevel(t, m) ==> LevelSize(t, m) == LevelSize(r, m))
    {
      if HasLevel(t, m) {
        var j := FindLevel(bdims, m);
        assert more[j] == bdims[j];
        LevelSizeAt(t, j);
        LevelSizeAt(r, j);
      }
      if HasLevel(r, m) {
        var j := FindLevel(more, m);
        assert j < |bdims| && bdims[j].level == m;
      }
    }
  }

  // ------------------------------------------------------------------------------------------
  // Removing the hidden dimension of a level

  /** The batch dims whose level is not `level`, in their order (the `push_back` loop). */
  function Without(bdims: seq<BatchDim>, level: int): (r: seq<BatchDim>)
    ensures |r| <= |bdims|
    decreases |bdims|
  {
    if bdims == [] then []
    else
      var last := bdims[|bdims| - 1];
      Without(bdims[..|bdims| - 1], level) + (if last.level == level then [] else [last])
  }

  /** `std::count_if`: how many batch dims sit at a physical index below p. */
  function CountBelow(bdims: seq<BatchDim>, p: int): (c: nat)
    ensures c <= |bdims|
    decreases |bdims|
  {
    if bdims == [] then 0
    else CountBelow(bdims[..|bdims| - 1], p) + (if bdims[|bdims| - 1].dim < p then 1 else 0)
  }

  /** The physical index of the last batch dim with `level`: the value the loop leaves in
      `newly_exposed_physical_dim`. */
  function LastMatch(bdims: seq<BatchDim>, level: int): (p: int)
    requires Carries(bdims, level)
    decreases |bdims|
  {
    var last := bdims[|bdims| - 1];
    if last.level == level then last.dim
    else
      var prefix := bdims[..|bdims| - 1];
      assert Carries(prefix, level) by {
        var j :| 0 <= j < |bdims| && bdims[j].level == level;
        assert prefix[j].level == level;
      }
      LastMatch(prefix, level)
  }

  /** `LastMatch` is the physical index of a batch dim of `level` after which no other batch dim
      has `level`. */
  lemma {:induction false} LastMatchIsLast(bdims: seq<BatchDim>, level: int)
    requires Carries(bdims, level)
    ensures exists j :: 0 <= j < |bdims| && bdims[j].level == level && bdims[j].dim == LastMatch(bdims, level) &&
                        forall k :: j < k < |bdims| ==> bdims[k].level != level
    decreases |bdims|
  {
    var n := |bdims|;
    if bdims[n - 1].level != level {
      var prefix := bdims[..n - 1];
      assert Carries(prefix, level) by {
        var j :| 0 <= j < n && bdims[j].level == level;
        assert prefix[j].level == level;
      }
      LastMatchIsLast(prefix, level);
      var j :| 0 <= j < |prefix| && prefix[j].level == level && prefix[j].dim == LastMatch(prefix, level) &&
               forall k :: j < k < |prefix| ==> prefix[k].level != level;
      assert bdims[j] == prefix[j];
    }
  }

  /** What `remove_existing_batch_dim` returns: the tensor and the logical index of the
      dimension that became visible. */
  datatype Exposed = Exposed(tensor: Tensor, logicalDim: int)

  /** The result of `remove_existing_batch_dim` as a function of its inputs. With two or more
      batch dims and none of `level` the source reads an uninitialised variable; the requires
      excludes that case, which its only caller never reaches. */
  function Strip(t: Tensor, level: int): Result<Exposed>
    requires t.Batched? && |t.bdims| != 1 ==> HasLevel(t, level)
  {
    match t
    case Plain(_) => Err(InternalAssert)
    case Batched(physical, bdims) =>
      if |bdims| == 1 then
        if bdims[0].level == level then Ok(Exposed(Plain(physical), bdims[0].dim))
        else Err(InternalAssert)
      else
        var p := LastMatch(bdims, level);
        var rest := Without(bdims, level);
        Ok(Exposed(Batched(physical, rest), p - CountBelow(rest, p)))
  }

  /** `remove_existing_batch_dim`: a plain input, or a single batch dim of another level, fails
      the internal assertions; otherwise the batch dim of `level` is dropped and the physical
      index it had is translated to a logical index by subtracting the surviving batch dims
      that sit below it. */
  method RemoveExistingBatchDim(t: Tensor, level: int) returns (r: Result<Exposed>)
    requires t.Batched? && |t.bdims| != 1 ==> HasLevel(t, level)
    ensures r == Strip(t, level)
    ensures r.Err? <==> t.Plain? || (|t.bdims| == 1 && t.bdims[0].level != level)
  {
    if t.Plain? {
      return Err(InternalAssert);
    }
    var bdims := t.bdims;
    if |bdims| == 1 {
      if bdims[0].level != level {
        return Err(InternalAssert);
      }
      return Ok(Exposed(Plain(t.physical), bdims[0].dim));
    }
    var newBdims: seq<BatchDim> := [];
    var exposedPhysical := 0;  // left uninitialised by the source; always overwritten here
    for i := 0 to |bdims|
      invariant newBdims == Without(bdims[..i], level)
      invariant Carries(bdims[..i], level) ==> exposedPhysical == LastMatch(bdims[..i], level)
    {
      WithoutPrefixStep(bdims, i, level);
      LastMatchPrefixStep(bdims, i, level);
      if bdims[i].level == level {
        exposedPhysical := bdims[i].dim;
      } else {
        newBdims := newBdims + [bdims[i]];
      }
    }
    assert bdims[..|bdims|] == bdims;
    var below := 0;
    for j := 0 to |newBdims|
      invariant below == CountBelow(newBdims[..j], exposedPhysical)
    {
      CountBelowPrefixStep(newBdims, j, exposedPhysical);
      if newBdims[j].dim < exposedPhysical {
        below := below + 1;
      }
    }
    assert newBdims[..|newBdims|] == newBdims;
    r := Ok(Exposed(Batched(t.physical, newBdims), exposedPhysical - below));
  }

  lemma WithoutPrefixStep(bdims: seq<BatchDim>, i: nat, level: int)
    requires i < |bdims|
    ensures Without(bdims[..i + 1], level)
         == Without(bdims[..i], level) + (if bdims[i].level == level then [] else [bdims[i]])
  {
    assert bdims[..i + 1][..i] == bdims[..i];
  }

  lemma LastMatchPrefixStep(bdims: seq<BatchDim>, i: nat, level: int)
    requires i < |bdims|
    ensures Carries(bdims[..i + 1], level) <==> Carries(bdims[..i], level) || bdims[i].level == level
    ensures bdims[i].level == level ==> LastMatch(bdims[..i + 1], level) == bdims[i].dim
    ensures bdims[i].level != level && Carries(bdims[..i], level) ==>
              LastMatch(bdims[..i + 1], level) == LastMatch(bdims[..i], level)
  {
    var pre, ext := bdims[..i], bdims[..i + 1];
    assert ext[..i] == pre && ext[i] == bdims[i];
    if Carries(ext, level) && bdims[i].level != level {
      var j :| 0 <= j < i + 1 && ext[j].level == level;
      assert pre[j].level == level;
    }
    if Carries(pre, level) {
      var j :| 0 <= j < i && pre[j].level == level;
      assert ext[j].level == level;
    }
  }

  lemma CountBelowPrefixStep(bdims: seq<BatchDim>, j: nat, p: int)
    requires j < |bdims|
    ensures CountBelow(bdims[..j + 1], p) == CountBelow(bdims[..j], p) + (if bdims[j].dim < p then 1 else 0)
  {
    assert bdims[..j + 1][..j] == bdims[..j];
  }

  /** With distinct levels, dropping the entries of `level` drops exactly the one at i. */
  lemma {:induction false} WithoutDropsOne(bdims: seq<BatchDim>, i: nat)
    requires i < |bdims| && DistinctLevels(bdims)
    ensures Without(bdims, bdims[i].level) == bdims[..i] + bdims[i + 1..]
    decreases |bdims|
  {
    var level := bdims[i].level;
    var prefix := bdims[..|bdims| - 1];
    var last := bdims[|bdims| - 1];
    if i == |bdims| - 1 {
      WithoutNone(prefix, level);
      assert bdims[..i] == prefix;
    } else {
      WithoutDropsOne(prefix, i);
      assert prefix[i].level == level;
      assert last.level != level;
      assert bdims[..i] + bdims[i + 1..] == prefix[..i] + prefix[i + 1..] + [last];
    }
  }

  lemma {:induction false} WithoutNone(bdims: seq<BatchDim>, level: int)
    requires forall j :: 0 <= j < |bdims| ==> bdims[j].level != level
    ensures Without(bdims, level) == bdims
    decreases |bdims|
  {
    if bdims != [] {
      WithoutNone(bdims[..|bdims| - 1], level);
    }
  }

  lemma {:induction false} CountBelowZero(bdims: seq<BatchDim>)
    requires forall j :: 0 <= j < |bdims| ==> 0 <= bdims[j].dim
    ensures CountBelow(bdims, 0) == 0
    decreases |bdims|
  {
    if bdims != [] {
      CountBelowZero(bdims[..|bdims| - 1]);
    }
  }

  /** Raising the bound by one counts the batch dim at p, if there is one (there is at most one). */
  lemma {:induction false} CountBelowStep(bdims: seq<BatchDim>, p: int)
    requires DistinctDims(bdims)
    ensures CountBelow(bdims, p + 1) == CountBelow(bdims, p) + (if Hidden(bdims, p) then 1 else 0)
    decreases |bdims|
  {
    if bdims != [] {
      var prefix, last := bdims[..|bdims| - 1], bdims[|bdims| - 1];
      CountBelowStep(prefix, p);
      assert Hidden(bdims, p) <==> Hidden(prefix, p) || last.dim == p by {
        if Hidden(bdims, p) {
          var j :| 0 <= j < |bdims| && bdims[j].dim == p;
          if j < |prefix| { assert prefix[j].dim == p; }
        }
        if Hidden(prefix, p) {
          var j :| 0 <= j < |prefix| && prefix[j].dim == p;
          assert bdims[j].dim == p;
        }
      }
      if last.dim == p {
        assert !Hidden(prefix, p) by {
          forall j | 0 <= j < |prefix| ensures prefix[j].dim != p {
            assert bdims[j].dim != bdims[|bdims| - 1].dim;
          }
        }
      }
    }
  }

  /** The number of visible physical dimensions below p is p minus the hidden ones below p. */
  lemma {:induction false} VisibleCount(physical: Shape, bdims: seq<BatchDim>, p: nat)
    requires p <= |physical| && DistinctDims(bdims)
    requires forall j :: 0 <= j < |bdims| ==> 0 <= bdims[j].dim
    ensures |Visible(physical, bdims, 0, p)| + CountBelow(bdims, p) == p
    decreases p
  {
    if p == 0 {
      CountBelowZero(bdims);
    } else {
      VisibleCount(physical, bdims, p - 1);
      VisibleSplit(physical, bdims, 0, p - 1, p);
      assert Visible(physical, bdims, p, p) == [];
      CountBelowStep(bdims, p - 1);
    }
  }

  /** Dropping entry i: entry k of the rest is entry k, or k + 1 from i on. */
  lemma DropIndex(bdims: seq<BatchDim>, i: nat)
    requires i < |bdims|
    ensures var rest := bdims[..i] + bdims[i + 1..];
      && |rest| == |bdims| - 1
      && forall k :: 0 <= k < |rest| ==> rest[k] == bdims[if k < i then k else k + 1]
  {
  }

  /** Dropping an entry of a valid batched tensor with several leaves a valid one. */
  lemma DropValid(t: Tensor, i: nat)
    requires Valid(t) && t.Batched? && |t.bdims| > 1 && i < |t.bdims|
    ensures Valid(Batched(t.physical, t.bdims[..i] + t.bdims[i + 1..]))
  {
    var bdims := t.bdims;
    var rest := bdims[..i] + bdims[i + 1..];
    DropIndex(bdims, i);
    forall k1, k2 | 0 <= k1 < k2 < |rest|
      ensures rest[k1].dim != rest[k2].dim && rest[k1].level != rest[k2].level
    {
      var s1, s2 := if k1 < i then k1 else k1 + 1, if k2 < i then k2 else k2 + 1;
      assert s1 < s2 && rest[k1] == bdims[s1] && rest[k2] == bdims[s2];
    }
  }

  /** Dropping entry i unhides exactly its dimension. */
  lemma DropHidden(bdims: seq<BatchDim>, i: nat)
    requires i < |bdims| && DistinctDims(bdims)
    ensures var rest := bdims[..i] + bdims[i + 1..];
      && !Hidden(rest, bdims[i].dim)
      && forall x :: Hidden(bdims, x) <==> Hidden(rest, x) || x == bdims[i].dim
  {
    var rest := bdims[..i] + bdims[i + 1..];
    var p := bdims[i].dim;
    DropIndex(bdims, i);
    forall k | 0 <= k < |rest| ensures rest[k].dim != p {
      var s := if k < i then k else k + 1;
      assert rest[k] == bdims[s] && s != i;
    }
    forall x ensures Hidden(bdims, x) <==> Hidden(rest, x) || x == p {
      if Hidden(bdims, x) && x != p {
        var j :| 0 <= j < |bdims| && bdims[j].dim == x;
        var k := if j < i then j else j - 1;
        assert rest[k].dim == x;
      }
      if Hidden(rest, x) {
        var k :| 0 <= k < |rest| && rest[k].dim == x;
        assert bdims[if k < i then k else k + 1].dim == x;
      }
      if x == p {
        assert bdims[i].dim == x;
      }
    }
  }

  /** Dropping entry i loses its level and keeps every other level with its size. */
  lemma DropLevels(t: Tensor, i: nat)
    requires Valid(t) && t.Batched? && |t.bdims| > 1 && i < |t.bdims|
    requires Valid(Batched(t.physical, t.bdims[..i] + t.bdims[i + 1..]))
    ensures var u := Batched(t.physical, t.bdims[..i] + t.bdims[i + 1..]);
      !HasLevel(u, t.bdims[i].level) && AgreeBut(t, u, t.bdims[i].level)
  {
    var bdims := t.bdims;
    var rest := bdims[..i] + bdims[i + 1..];
    var u := Batched(t.physical, rest);
    var level := bdims[i].level;
    DropIndex(bdims, i);
    forall k | 0 <= k < |rest| ensures rest[k].level != level {
      var s := if k < i then k else k + 1;
      assert rest[k] == bdims[s] && s != i;
    }
    forall m | m != level
      ensures (HasLevel(t, m) <==> HasLevel(u, m)) && (HasLevel(t, m) ==> LevelSize(t, m) == LevelSize(u, m))
    {
      if HasLevel(t, m) {
        var j := FindLevel(bdims, m);
        var k := if j < i then j else j - 1;
        assert rest[k] == bdims[j];
        LevelSizeAt(t, j);
        LevelSizeAt(u, k);
      }
      if HasLevel(u, m) {
        var k := FindLevel(rest, m);
        assert bdims[if k < i then k else k + 1].level == m;
      }
    }
  }

  /** Dropping entry i does not change how many batch dims sit below p when entry i is not
      below p; in particular, how many sit below entry i's own dimension. */
  lemma {:induction false} DropCount(bdims: seq<BatchDim>, i: nat, p: int)
    requires i < |bdims| && p <= bdims[i].dim
    ensures CountBelow(bdims[..i] + bdims[i + 1..], p) == CountBelow(bdims, p)
    decreases |bdims|
  {
    var n := |bdims|;
    var prefix, rest := bdims[..n - 1], bdims[..i] + bdims[i + 1..];
    if i == n - 1 {
      assert rest == prefix;
    } else {
      var shorter := prefix[..i] + prefix[i + 1..];
      DropCount(prefix, i, p);
      assert rest == shorter + [bdims[n - 1]];
      assert rest[..|rest| - 1] == shorter;
    }
  }

  /** What stripping a level does to a valid tensor that carries it: the result is valid and no
      longer carries the level, keeps every other level and its size, and its logical shape is
      the input's logical shape with the level's size inserted at the returned logical index. */
  lemma StripShape(t: Tensor, level: int)
    requires Valid(t) && HasLevel(t, level)
    ensures Strip(t, level).Ok?
    ensures var ex := Strip(t, level).value;
      && Valid(ex.tensor)
      && |Logical(ex.tensor)| == |Logical(t)| + 1
      && 0 <= ex.logicalDim < |Logical(ex.tensor)|
      && Logical(ex.tensor) == Insert(Logical(t), ex.logicalDim, LevelSize(t, level))
      && !HasLevel(ex.tensor, level)
      && AgreeBut(t, ex.tensor, level)
  {
    var i := FindLevel(t.bdims, level);
    assert i < |t.bdims| && t.bdims[i].level == level;
    if |t.bdims| == 1 {
      StripSingle(t);
      assert Strip(t, level) == Ok(Exposed(Plain(t.physical), t.bdims[0].dim));
    } else {
      var rest, p := t.bdims[..i] + t.bdims[i + 1..], t.bdims[i].dim;
      StripDropsEntry(t, i);
      StripMany(t, i);
      assert Strip(t, level) == Ok(Exposed(Batched(t.physical, rest), p - CountBelow(rest, p)));
    }
  }

  /** A single batch dim: its dimension becomes visible at its physical index. */
  lemma StripSingle(t: Tensor)
    requires Valid(t) && t.Batched? && |t.bdims| == 1
    ensures var level, p := t.bdims[0].level, t.bdims[0].dim;
      && HasLevel(t, level) && 0 <= p <= |Logical(t)|
      && Logical(Plain(t.physical)) == Insert(Logical(t), p, LevelSize(t, level))
      && AgreeBut(t, Plain(t.physical), level)
  {
    var physical, bdims := t.physical, t.bdims;
    var level, p := bdims[0].level, bdims[0].dim;
    LevelSizeAt(t, 0);
    assert forall x :: Hidden(bdims, x) <==> Hidden([], x) || x == p by {
      assert bdims[0].dim == p;
    }
    HideOne(physical, [], bdims, p);
    VisibleNoneHidden(physical, [], 0, p);
    VisibleNoneHidden(physical, [], p + 1, |physical|);
    InsertRemoved(physical, p);
    forall m | m != level ensures !Carries(bdims, m) {
      assert bdims[0].level == level;
    }
  }

  /** Several batch dims: dropping entry i makes its dimension visible at its physical index minus
      the batch dims left below it. */
  lemma StripMany(t: Tensor, i: nat)
    requires Valid(t) && t.Batched? && |t.bdims| > 1 && i < |t.bdims|
    ensures var rest, p := t.bdims[..i] + t.bdims[i + 1..], t.bdims[i].dim;
      var u := Batched(t.physical, rest);
      && Valid(u) && HasLevel(t, t.bdims[i].level)
      && 0 <= p - CountBelow(rest, p) <= |Logical(t)|
      && Logical(u) == Insert(Logical(t), p - CountBelow(rest, p), LevelSize(t, t.bdims[i].level))
      && !HasLevel(u, t.bdims[i].level)
      && AgreeBut(t, u, t.bdims[i].level)
  {
    var physical, bdims := t.physical, t.bdims;
    var rest, p := bdims[..i] + bdims[i + 1..], bdims[i].dim;
    LevelSizeAt(t, i);
    DropValid(t, i);
    DropHidden(bdims, i);
    DropLevels(t, i);
    VisibleAround(physical, rest, p);
    HideOne(physical, rest, bdims, p);
    VisibleCount(physical, rest, p);
  }

  /** With several batch dims, stripping a level keeps the physical sizes and the batch dims in
      their order with exactly the entry of that level taken out, and exposes the entry's
      physical index minus the number of surviving batch dims below it. */
  lemma StripDropsEntry(t: Tensor, i: nat)
    requires Valid(t) && t.Batched? && |t.bdims| > 1 && i < |t.bdims|
    ensures var rest := t.bdims[..i] + t.bdims[i + 1..];
      Strip(t, t.bdims[i].level)
        == Ok(Exposed(Batched(t.physical, rest), t.bdims[i].dim - CountBelow(rest, t.bdims[i].dim)))
  {
    WithoutDropsOne(t.bdims, i);
    LastMatchUnique(t.bdims, i);
    LevelSizeAt(t, i);
  }

  lemma LastMatchUnique(bdims: seq<BatchDim>, i: nat)
    requires i < |bdims| && DistinctLevels(bdims)
    ensures Carries(bdims, bdims[i].level) && LastMatch(bdims, bdims[i].level) == bdims[i].dim
  {
    assert Carries(bdims, bdims[i].level);
    var p := LastMatch(bdims, bdims[i].level);
    LastMatchIsLast(bdims, bdims[i].level);
    var j :| 0 <= j < |bdims| && bdims[j].level == bdims[i].level && bdims[j].dim == p &&
             forall k :: j < k < |bdims| ==> bdims[k].level != bdims[i].level;
    assert j == i;
  }

  // ------------------------------------------------------------------------------------------
  // Moving one axis

  /** [0, n) in order with `src` left out. */
  function Skipping(n: nat, src: nat): (r: seq<nat>)
    ensures |r| == if src < n then n - 1 else n
    ensures forall i :: 0 <= i < |r| ==> r[i] == if i < src then i else i + 1
    decreases n
  {
    if n == 0 then [] else Skipping(n - 1, src) + (if n - 1 == src then [] else [n - 1])
  }

  /** The permutation `movedim` builds: the other axes in order, with `src` inserted at `dst`.
      It is a permutation of [0, n), holds `src` at `dst`, and lists the other axes in
      ascending order. */
  function MovePerm(n: nat, src: nat, dst: nat): (perm: seq<nat>)
    requires src < n && dst < n
    ensures IsPermutation(perm, n)
    ensures perm[dst] == src
    ensures forall i, j :: 0 <= i < j < n && i != dst && j != dst ==> perm[i] < perm[j]
  {
    SkippingWithSrc(n, src, dst);
    Insert(Skipping(n, src), dst, src)
  }

  lemma SkippingWithSrc(n: nat, src: nat, dst: nat)
    requires src < n && dst < n
    ensures var perm := Insert(Skipping(n, src), dst, src);
      && IsPermutation(perm, n)
      && perm[dst] == src
      && forall i, j :: 0 <= i < j < n && i != dst && j != dst ==> perm[i] < perm[j]
  {
    var kept := Skipping(n, src);
    var perm := Insert(kept, dst, src);
    forall i | 0 <= i < n && i != dst ensures perm[i] == kept[if i < dst then i else i - 1] {
    }
    forall i | 0 <= i < n ensures perm[i] < n && (i != dst ==> perm[i] != src) {
      if i != dst {
        var k := if i < dst then i else i - 1;
        assert perm[i] == kept[k];
      }
    }
    forall i, j | 0 <= i < j < n && i != dst && j != dst ensures perm[i] < perm[j] {
      var ki, kj := if i < dst then i else i - 1, if j < dst then j else j - 1;
      assert perm[i] == kept[ki] && perm[j] == kept[kj] && ki < kj;
    }
  }

  /** The loop of `movedim` that lists every axis but `src`, then the `insert` of `src` at `dst`. */
  method MoveDimPermutation(n: nat, src: nat, dst: nat) returns (perm: seq<nat>)
    requires src < n && dst < n
    ensures perm == MovePerm(n, src, dst)
  {
    var kept: seq<nat> := [];
    for d := 0 to n
      invariant kept == Skipping(d, src)
    {
      if d == src {
        continue;
      }
      kept := kept + [d];
    }
    perm := kept[..dst] + [src] + kept[dst..];
  }

  /** Moving an axis to where it already is changes nothing: the early return of `movedim`
      agrees with the permutation it would otherwise build. */
  lemma MovePermIdentity(n: nat, k: nat)
    requires k < n
    ensures MovePerm(n, k, k) == seq(n, i => i)
  {
    var perm := MovePerm(n, k, k);
    forall i | 0 <= i < n ensures perm[i] == i {
      if i < k {
      } else if i > k {
        assert perm[i] == Skipping(n, k)[i - 1];
      }
    }
  }

  /** Permuting by `MovePerm(n, k, o)` takes the axis at k to o and keeps the others in order. */
  lemma MovePermMovesAxis<T>(rest: seq<T>, k: nat, x: T, o: nat)
    requires k <= |rest| && o <= |rest|
    ensures var perm := MovePerm(|rest| + 1, k, o);
      && (forall i :: 0 <= i < |perm| ==> perm[i] < |rest| + 1)
      && seq(|perm|, i requires 0 <= i < |perm| => Insert(rest, k, x)[perm[i]]) == Insert(rest, o, x)
  {
    var n := |rest| + 1;
    var perm := MovePerm(n, k, o);
    var kept := Skipping(n, k);
    var s := Insert(rest, k, x);
    var l := seq(|perm|, i requires 0 <= i < |perm| => s[perm[i]]);
    forall i | 0 <= i < n ensures l[i] == Insert(rest, o, x)[i] {
      if i < o {
        assert perm[i] == kept[i];
      } else if i > o {
        assert perm[i] == kept[i - 1];
      }
    }
  }

  /** `movedim(self, src, dst)`: both indices are normalised against the logical rank; equal
      indices return the tensor itself, otherwise the tensor is permuted by `MovePerm`. */
  function MovedDim(t: Tensor, src: int, dst: int): (r: Result<Tensor>)
    requires Valid(t)
  {
    var n := |Logical(t)|;
    match WrapDim(src, n)
    case Err(e) => Err(e)
    case Ok(s) =>
      match WrapDim(dst, n)
      case Err(e) => Err(e)
      case Ok(d) => if s == d then Ok(t) else Ok(Permute(t, MovePerm(n, s, d)))
  }

  method MoveDim(t: Tensor, src: int, dst: int) returns (r: Result<Tensor>)
    requires Valid(t)
    ensures r == MovedDim(t, src, dst)
  {
    var logicalDim := |Logical(t)|;
    var s := WrapDim(src, logicalDim);
    if s.Err? {
      return Err(s.error);
    }
    var d := WrapDim(dst, logicalDim);
    if d.Err? {
      return Err(d.error);
    }
    if s.value == d.value {
      return Ok(t);
    }
    var permutation := MoveDimPermutation(logicalDim, s.value, d.value);
    r := Ok(Permute(t, permutation));
  }

  /** What `movedim` does: an IndexError unless both indices are in range; otherwise a valid
      tensor with the same levels whose logical shape is the input's with the axis at the
      normalised `src` taken out and put back at the normalised `dst`. */
  lemma MovedDimShape(t: Tensor, src: int, dst: int)
    requires Valid(t)
    ensures var n := |Logical(t)|;
      MovedDim(t, src, dst).Ok? <==> 0 < n && -(n as int) <= src < n && -(n as int) <= dst < n
    ensures MovedDim(t, src, dst).Err? ==> MovedDim(t, src, dst).error == IndexError
    ensures MovedDim(t, src, dst).Ok? ==>
      var n := |Logical(t)|;
      var s, d, r := WrapDim(src, n).value, WrapDim(dst, n).value, MovedDim(t, src, dst).value;
      && Valid(r)
      && SameLevels(t, r)
      && Logical(r) == Insert(Logical(t)[..s] + Logical(t)[s + 1..], d, Logical(t)[s])
  {
    var n := |Logical(t)|;
    if MovedDim(t, src, dst).Ok? {
      var s, d := WrapDim(src, n).value, WrapDim(dst, n).value;
      if s == d {
        MovedInPlace(t, s);
      } else {
        MovedByPermute(t, s, d);
      }
    }
  }

  /** Taking an axis out and putting it back where it was gives the shape back. */
  lemma MovedInPlace(t: Tensor, s: nat)
    requires Valid(t) && s < |Logical(t)|
    ensures SameLevels(t, t)
    ensures Logical(t) == Insert(Logical(t)[..s] + Logical(t)[s + 1..], s, Logical(t)[s])
  {
    InsertRemoved(Logical(t), s);
  }

  /** Permuting by `MovePerm(n, s, d)` moves logical axis s to d and keeps the levels. */
  lemma MovedByPermute(t: Tensor, s: nat, d: nat)
    requires Valid(t) && s < |Logical(t)| && d < |Logical(t)|
    ensures var r := Permute(t, MovePerm(|Logical(t)|, s, d));
      && SameLevels(t, r)
      && Logical(r) == Insert(Logical(t)[..s] + Logical(t)[s + 1..], d, Logical(t)[s])
  {
    var l := Logical(t);
    var rest := l[..s] + l[s + 1..];
    InsertRemoved(l, s);
    MovePermMovesAxis(rest, s, l[s], d);
    ViewKeepsLevels(t, Permuted(l, MovePerm(|l|, s, d)));
  }

  // ------------------------------------------------------------------------------------------
  // Leaving a level

  /** The absent-level branch as written: `expand` the tensor to its sizes with `batchSize`
      inserted at `outDim`. */
  function SynthesizeAsWritten(t: Tensor, batchSize: nat, outDim: nat): (r: Result<Tensor>)
    requires Valid(t) && outDim <= |Logical(t)|
    ensures r.Ok? <==> CanExpand(Logical(t), Insert(Logical(t), outDim, batchSize))
    ensures r.Err? ==> r.error == ExpandError
    ensures r.Ok? ==> Valid(r.value) && Logical(r.value) == Insert(Logical(t), outDim, batchSize)
  {
    Expand(t, Insert(Logical(t), outDim, batchSize))
  }

  /** When the written branch succeeds: `expand` aligns the input with the trailing target
      sizes, so every axis from `outDim` on meets its own size, and each axis i before `outDim`
      meets the size that follows it (`batchSize` for the last one). It succeeds exactly when
      each of those axes is 1 or equal to that size. */
  lemma SynthesizeAsWrittenAccepts(t: Tensor, batchSize: nat, outDim: nat)
    requires Valid(t) && outDim <= |Logical(t)|
    ensures var l := Logical(t);
      SynthesizeAsWritten(t, batchSize, outDim).Ok?
      <==> forall i {:trigger l[i]} :: 0 <= i < outDim ==> l[i] == 1 || l[i] == (if i + 1 == outDim then batchSize else l[i + 1])
  {
    InsertedCanExpand(Logical(t), outDim, batchSize);
  }

  /** The absent-level branch as corrected: `unsqueeze(outDim)` first, so that `expand` only
      broadcasts the new unit axis. It never fails, keeps the levels, and yields the input's
      logical shape with `batchSize` inserted at `outDim`. */
  function Synthesize(t: Tensor, batchSize: nat, outDim: nat): (r: Result<Tensor>)
    requires Valid(t) && outDim <= |Logical(t)|
    ensures r.Ok? && Valid(r.value)
    ensures Logical(r.value) == Insert(Logical(t), outDim, batchSize)
    ensures SameLevels(t, r.value)
  {
    var target := Insert(Logical(t), outDim, batchSize);
    var u := Unsqueeze(t, outDim);
    UnitAxisExpands(Logical(t), outDim, batchSize);
    ViewKeepsLevels(t, Insert(Logical(t), outDim, 1));
    ViewKeepsLevels(u, target);
    SameLevelsTrans(t, u, ViewAs(u, target));
    Expand(u, target)
  }

  /** A unit axis broadcasts to any size. */
  lemma UnitAxisExpands(l: Shape, d: nat, size: nat)
    requires d <= |l|
    ensures CanExpand(Insert(l, d, 1), Insert(l, d, size))
  {
  }

  lemma SameLevelsTrans(a: Tensor, b: Tensor, c: Tensor)
    requires Valid(a) && Valid(b) && Valid(c) && SameLevels(a, b) && SameLevels(b, c)
    ensures SameLevels(a, c)
  {
  }

  /** `_remove_batch_dim` as a function of its inputs. Without the level, `outDim` goes straight
      into `insert`, so it must already lie in [0, rank]; with the level, `movedim` normalises
      it. */
  function ExitBatch(t: Tensor, level: int, batchSize: nat, outDim: int): Result<Tensor>
    requires Valid(t)
    requires !HasLevel(t, level) ==> 0 <= outDim <= |Logical(t)|
  {
    if !HasLevel(t, level) then Synthesize(t, batchSize, outDim)
    else
      match Strip(t, level)
      case Err(e) => Err(e)
      case Ok(ex) =>
        StripShape(t, level);
        MovedDim(ex.tensor, ex.logicalDim, outDim)
  }

  /** `_remove_batch_dim` with the absent-level branch as written, `expand` without `unsqueeze`.
      It agrees with `ExitBatch` when the level is present and when `outDim` is 0; without the
      level it fails exactly when `expand` refuses the sizes with `batchSize` inserted, and where
      it succeeds it yields the same tensor as the corrected exit. */
  function ExitBatchAsWritten(t: Tensor, level: int, batchSize: nat, outDim: int): (r: Result<Tensor>)
    requires Valid(t)
    requires !HasLevel(t, level) ==> 0 <= outDim <= |Logical(t)|
    ensures HasLevel(t, level) || outDim == 0 ==> r == ExitBatch(t, level, batchSize, outDim)
    ensures !HasLevel(t, level) ==> (r.Ok? <==> CanExpand(Logical(t), Insert(Logical(t), outDim, batchSize)))
    ensures r.Ok? ==> r == ExitBatch(t, level, batchSize, outDim)
  {
    if !HasLevel(t, level) then
      AsWrittenAgrees(t, batchSize, outDim);
      SynthesizeAsWritten(t, batchSize, outDim)
    else
      ExitBatch(t, level, batchSize, outDim)
  }

  /** Where the written branch succeeds it yields the same tensor as the corrected one, and at
      `outDim` 0 it always succeeds. */
  lemma AsWrittenAgrees(t: Tensor, batchSize: nat, outDim: nat)
    requires Valid(t) && outDim <= |Logical(t)|
    ensures outDim == 0 ==> SynthesizeAsWritten(t, batchSize, outDim).Ok?
    ensures SynthesizeAsWritten(t, batchSize, outDim).Ok? ==>
      SynthesizeAsWritten(t, batchSize, outDim) == Synthesize(t, batchSize, outDim)
  {
    if outDim == 0 {
      AsWrittenAtFront(t, batchSize);
    }
    ViewAsTwice(t, Insert(Logical(t), outDim, 1), Insert(Logical(t), outDim, batchSize));
  }

  /** At `outDim` 0 the written branch and the corrected one give the same tensor. */
  lemma AsWrittenAtFront(t: Tensor, batchSize: nat)
    requires Valid(t)
    ensures SynthesizeAsWritten(t, batchSize, 0) == Synthesize(t, batchSize, 0)
  {
    var l := Logical(t);
    var target := Insert(l, 0, batchSize);
    assert CanExpand(l, target) by {
      forall i | 0 <= i < |l| ensures target[i + 1] == l[i] {
      }
    }
    ViewAsTwice(t, Insert(l, 0, 1), target);
  }

  /** `_remove_batch_dim(self, level, batch_size, out_dim)`. */
  method RemoveBatchDim(t: Tensor, level: int, batchSize: nat, outDim: int) returns (r: Result<Tensor>)
    requires Valid(t)
    requires !HasLevel(t, level) ==> 0 <= outDim <= |Logical(t)|
    ensures r == ExitBatch(t, level, batchSize, outDim)
  {
    if !HasLevel(t, level) {
      var selfSizes := Logical(t);
      var expandedSizes := selfSizes[..outDim] + [batchSize] + selfSizes[outDim..];
      r := Expand(Unsqueeze(t, outDim), expandedSizes);
      return;
    }
    var stripped := RemoveExistingBatchDim(t, level);
    match stripped
    case Err(e) =>
      r := Err(e);
    case Ok(ex) =>
      StripShape(t, level);
      r := MoveDim(ex.tensor, ex.logicalDim, outDim);
  }

  /** What leaving a level does. The result is an IndexError only when the level is present and
      `outDim` is outside [-(rank+1), rank+1), rank being the input's logical rank. Otherwise it
      is a valid tensor that no longer carries the level, keeps every other level and its size,
      and whose logical shape is the input's with one axis inserted at the normalised `outDim`:
      the hidden dimension of the level, or a broadcast axis of `batchSize` when the level is
      absent. */
  lemma ExitBatchShape(t: Tensor, level: int, batchSize: nat, outDim: int)
    requires Valid(t)
    requires !HasLevel(t, level) ==> 0 <= outDim <= |Logical(t)|
    ensures var n := |Logical(t)| + 1;
      ExitBatch(t, level, batchSize, outDim).Ok? <==> -(n as int) <= outDim < n
    ensures ExitBatch(t, level, batchSize, outDim).Ok? ==>
      var n := |Logical(t)| + 1;
      var r := ExitBatch(t, level, batchSize, outDim).value;
      var o := if outDim < 0 then outDim + n else outDim;
      var size := if HasLevel(t, level) then LevelSize(t, level) else batchSize;
      && 0 <= o < n
      && Valid(r)
      && Logical(r) == Insert(Logical(t), o, size)
      && !HasLevel(r, level)
      && AgreeBut(t, r, level)
  {
    if HasLevel(t, level) {
      ExitPresent(t, level, batchSize, outDim);
    } else {
      var r := Synthesize(t, batchSize, outDim);
      SameLevelsAgree(t, r.value, level);
    }
  }

  /** Leaving a level the tensor carries: strip it, then move the exposed axis to `outDim`. */
  lemma ExitPresent(t: Tensor, level: int, batchSize: nat, outDim: int)
    requires Valid(t) && HasLevel(t, level)
    ensures var n := |Logical(t)| + 1;
      ExitBatch(t, level, batchSize, outDim).Ok? <==> -(n as int) <= outDim < n
    ensures ExitBatch(t, level, batchSize, outDim).Ok? ==>
      var n := |Logical(t)| + 1;
      var r := ExitBatch(t, level, batchSize, outDim).value;
      var o := if outDim < 0 then outDim + n else outDim;
      && Valid(r)
      && Logical(r) == Insert(Logical(t), o, LevelSize(t, level))
      && !HasLevel(r, level)
      && AgreeBut(t, r, level)
  {
    StripShape(t, level);
    var ex := Strip(t, level).value;
    assert ExitBatch(t, level, batchSize, outDim) == MovedDim(ex.tensor, ex.logicalDim, outDim);
    MoveExposed(ex.tensor, ex.logicalDim, outDim, Logical(t), LevelSize(t, level));
    if ExitBatch(t, level, batchSize, outDim).Ok? {
      AgreeButThenSame(t, ex.tensor, ExitBatch(t, level, batchSize, outDim).value, level);
    }
  }

  /** Moving an axis inserted at k into a shape l to `outDim` inserts it at `outDim` instead. */
  lemma MoveExposed(u: Tensor, k: nat, outDim: int, l: Shape, size: nat)
    requires Valid(u) && k <= |l| && Logical(u) == Insert(l, k, size)
    ensures var n := |l| + 1;
      MovedDim(u, k, outDim).Ok? <==> -(n as int) <= outDim < n
    ensures MovedDim(u, k, outDim).Ok? ==>
      var n := |l| + 1;
      var r := MovedDim(u, k, outDim).value;
      && Valid(r) && SameLevels(u, r)
      && Logical(r) == Insert(l, if outDim < 0 then outDim + n else outDim, size)
  {
    MovedDimShape(u, k, outDim);
    RemoveInserted(l, k, size);
  }

  lemma AgreeButThenSame(a: Tensor, b: Tensor, c: Tensor, level: int)
    requires Valid(a) && Valid(b) && Valid(c)
    requires AgreeBut(a, b, level) && SameLevels(b, c) && !HasLevel(b, level)
    ensures AgreeBut(a, c, level) && !HasLevel(c, level)
  {
  }

  lemma SameLevelsAgree(a: Tensor, b: Tensor, level: int)
    requires Valid(a) && Valid(b) && SameLevels(a, b) && !HasLevel(a, level)
    ensures AgreeBut(a, b, level) && !HasLevel(b, level)
  {
  }
}
