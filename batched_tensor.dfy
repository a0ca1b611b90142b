/** BatchedTensors: the data model of a tensor that may carry hidden batch dimensions.

    A `Batched` tensor wraps a physical tensor (only its sizes matter here) together with an
    ordered list of batch dims; each names a physical dimension that is hidden from the user and
    the vmap level that introduced it. The logical shape, the one `sizes()` and `dim()` report,
    is the physical shape with the hidden dimensions left out. */
module BatchedTensors {
  import opened Shapes

  /** A hidden dimension: the vmap `level` that introduced it and its physical index `dim`. */
  datatype BatchDim = BatchDim(level: int, dim: int)

  datatype Tensor =
    | Plain(sizes: Shape)
    | Batched(physical: Shape, bdims: seq<BatchDim>)

  /** Some batch dim hides physical dimension x. */
  predicate Hidden(bdims: seq<BatchDim>, x: int) {
    exists j :: 0 <= j < |bdims| && bdims[j].dim == x
  }

  predicate DimsInRange(bdims: seq<BatchDim>, rank: nat) {
    forall j :: 0 <= j < |bdims| ==> 0 <= bdims[j].dim < rank
  }

  predicate DistinctDims(bdims: seq<BatchDim>) {
    forall i, j :: 0 <= i < j < |bdims| ==> bdims[i].dim != bdims[j].dim
  }

  predicate DistinctLevels(bdims: seq<BatchDim>) {
    forall i, j :: 0 <= i < j < |bdims| ==> bdims[i].level != bdims[j].level
  }

  /** The invariant every batched tensor of the engine keeps: at least one batch dim (a tensor
      without any is plain), hidden dims inside the physical rank, no dimension and no level
      twice. */
  predicate Valid(t: Tensor) {
    match t
    case Plain(_) => true
    case Batched(physical, bdims) =>
      |bdims| > 0 && DimsInRange(bdims, |physical|) && DistinctDims(bdims) && DistinctLevels(bdims)
  }

  /** The sizes of the physical dimensions in [lo, hi) that `bdims` does not hide, in order. */
  function Visible(physical: Shape, bdims: seq<BatchDim>, lo: nat, hi: nat): (r: Shape)
    requires lo <= hi <= |physical|
    ensures |r| <= hi - lo
    decreases hi - lo
  {
    if lo == hi then []
    else (if Hidden(bdims, lo) then [] else [physical[lo]]) + Visible(physical, bdims, lo + 1, hi)
  }

  /** The logical shape: what `sizes()` reports, and whose length `dim()` reports. */
  function Logical(t: Tensor): Shape {
    match t
    case Plain(sizes) => sizes
    case Batched(physical, bdims) => Visible(physical, bdims, 0, |physical|)
  }

  lemma {:induction false} VisibleSplit(physical: Shape, bdims: seq<BatchDim>, lo: nat, mid: nat, hi: nat)
    requires lo <= mid <= hi <= |physical|
    ensures Visible(physical, bdims, lo, hi)
         == Visible(physical, bdims, lo, mid) + Visible(physical, bdims, mid, hi)
    decreases mid - lo
  {
    if lo < mid {
      VisibleSplit(physical, bdims, lo + 1, mid, hi);
    }
  }

  /** Two lists that hide the same positions of [lo, hi) leave the same sizes visible there. */
  lemma {:induction false} VisibleAgree(physical: Shape, b1: seq<BatchDim>, b2: seq<BatchDim>, lo: nat, hi: nat)
    requires lo <= hi <= |physical|
    requires forall x :: lo <= x < hi ==> (Hidden(b1, x) <==> Hidden(b2, x))
    ensures Visible(physical, b1, lo, hi) == Visible(physical, b2, lo, hi)
    decreases hi - lo
  {
    if lo < hi {
      VisibleAgree(physical, b1, b2, lo + 1, hi);
    }
  }

  lemma {:induction false} VisibleNoneHidden(physical: Shape, bdims: seq<BatchDim>, lo: nat, hi: nat)
    requires lo <= hi <= |physical|
    requires forall x :: lo <= x < hi ==> !Hidden(bdims, x)
    ensures Visible(physical, bdims, lo, hi) == physical[lo..hi]
    decreases hi - lo
  {
    if lo < hi {
      VisibleNoneHidden(physical, bdims, lo + 1, hi);
    }
  }

  lemma {:induction false} VisibleAllHidden(physical: Shape, bdims: seq<BatchDim>, lo: nat, hi: nat)
    requires lo <= hi <= |physical|
    requires forall x :: lo <= x < hi ==> Hidden(bdims, x)
    ensures Visible(physical, bdims, lo, hi) == []
    decreases hi - lo
  {
    if lo < hi {
      VisibleAllHidden(physical, bdims, lo + 1, hi);
    }
  }

  /** A visible physical dimension p splits the visible sizes into those before it, its own
      size, and those after it. */
  lemma VisibleAround(physical: Shape, bdims: seq<BatchDim>, p: nat)
    requires p < |physical| && !Hidden(bdims, p)
    ensures Visible(physical, bdims, 0, |physical|)
         == Visible(physical, bdims, 0, p) + [physical[p]] + Visible(physical, bdims, p + 1, |physical|)
  {
    VisibleSplit(physical, bdims, 0, p, |physical|);
    VisibleSplit(physical, bdims, p, p + 1, |physical|);
    assert Visible(physical, bdims, p + 1, p + 1) == [];
  }

  /** Hiding one more physical dimension p leaves exactly the sizes before and after it. */
  lemma HideOne(physical: Shape, fewer: seq<BatchDim>, more: seq<BatchDim>, p: nat)
    requires p < |physical|
    requires forall x :: Hidden(more, x) <==> Hidden(fewer, x) || x == p
    ensures Visible(physical, more, 0, |physical|)
         == Visible(physical, fewer, 0, p) + Visible(physical, fewer, p + 1, |physical|)
  {
    var n := |physical|;
    VisibleSplit(physical, more, 0, p, n);
    VisibleSplit(physical, more, p, p + 1, n);
    assert Visible(physical, more, p, p + 1) == [] by {
      assert Hidden(more, p);
      assert Visible(physical, more, p + 1, p + 1) == [];
    }
    VisibleAgree(physical, fewer, more, 0, p);
    VisibleAgree(physical, fewer, more, p + 1, n);
  }

  /** The physical sizes of the hidden dimensions, in bdim order. */
  function HiddenShape(physical: Shape, bdims: seq<BatchDim>): (r: Shape)
    requires DimsInRange(bdims, |physical|)
    ensures |r| == |bdims|
    ensures forall j :: 0 <= j < |bdims| ==> r[j] == physical[bdims[j].dim]
  {
    seq(|bdims|, j requires 0 <= j < |bdims| => physical[bdims[j].dim])
  }

  /** The same levels, hiding physical dimensions 0, 1, ... in bdim order. */
  function Front(bdims: seq<BatchDim>): (r: seq<BatchDim>)
    ensures |r| == |bdims|
    ensures forall j :: 0 <= j < |bdims| ==> r[j] == BatchDim(bdims[j].level, j)
  {
    seq(|bdims|, j requires 0 <= j < |bdims| => BatchDim(bdims[j].level, j))
  }

  /** A view of `t` whose logical shape is `logical`, as the engine's `expand`, `permute` and
      `unsqueeze` return it: a plain tensor stays plain, and a batched one keeps every hidden
      dimension with its level and size. Where a view places the hidden dims physically is a
      choice of the engine's batching rules; this model puts them first, in bdim order. */
  function ViewAs(t: Tensor, logical: Shape): (r: Tensor)
    requires Valid(t)
    ensures Valid(r) && Logical(r) == logical
    ensures r.Plain? <==> t.Plain?
    ensures r.Batched? ==> |r.bdims| == |t.bdims|
    ensures r.Batched? ==> forall j :: 0 <= j < |r.bdims| ==>
      r.bdims[j].level == t.bdims[j].level && r.physical[r.bdims[j].dim] == t.physical[t.bdims[j].dim]
  {
    match t
    case Plain(_) => Plain(logical)
    case Batched(physical, bdims) =>
      var hidden := HiddenShape(physical, bdims);
      var front := Front(bdims);
      var r := Batched(hidden + logical, front);
      assert forall x :: Hidden(front, x) <==> 0 <= x < |bdims| by {
        forall x | 0 <= x < |bdims| ensures Hidden(front, x) {
          assert front[x].dim == x;
        }
      }
      VisibleSplit(hidden + logical, front, 0, |bdims|, |hidden + logical|);
      VisibleAllHidden(hidden + logical, front, 0, |bdims|);
      VisibleNoneHidden(hidden + logical, front, |bdims|, |hidden + logical|);
      assert (hidden + logical)[|bdims|..] == logical;
      r
  }

  /** A view of a view is the view itself: viewing `t` as `mid` and then as `logical` gives the
      same tensor as viewing `t` as `logical` directly. */
  lemma ViewAsTwice(t: Tensor, mid: Shape, logical: Shape)
    requires Valid(t)
    ensures ViewAs(ViewAs(t, mid), logical) == ViewAs(t, logical)
  {
    if t.Batched? {
      var u := ViewAs(t, mid);
      var hidden := HiddenShape(t.physical, t.bdims);
      assert HiddenShape(u.physical, u.bdims) == hidden by {
        assert u.physical == hidden + mid;
      }
      assert Front(u.bdims) == u.bdims;
    }
  }

  /** `permute(perm)`, which the engine accepts only for a permutation of the logical dims. */
  function Permute(t: Tensor, perm: seq<nat>): (r: Tensor)
    requires Valid(t)
    requires IsPermutation(perm, |Logical(t)|)
    ensures Valid(r) && Logical(r) == Permuted(Logical(t), perm)
  {
    ViewAs(t, Permuted(Logical(t), perm))
  }

  /** `unsqueeze(d)`: a new axis of size 1 at logical position d. The view reads the input's
      axes around the new one: its layout is `InsertedAxis(|Logical(t)|, d)`. */
  function Unsqueeze(t: Tensor, d: nat): (r: Tensor)
    requires Valid(t) && d <= |Logical(t)|
    ensures Valid(r) && Logical(r) == Insert(Logical(t), d, 1)
  {
    ViewAs(t, Insert(Logical(t), d, 1))
  }

  /** `expand(target)`: an ExpandError unless the logical sizes broadcast to `target`. The view
      reads the input's axes as `ExpandLayout(Logical(t), target)` says. */
  function Expand(t: Tensor, target: Shape): (r: Result<Tensor>)
    requires Valid(t)
    ensures r.Ok? <==> CanExpand(Logical(t), target)
    ensures r.Ok? ==> Valid(r.value) && Logical(r.value) == target
  {
    if CanExpand(Logical(t), target) then Ok(ViewAs(t, target)) else Err(ExpandError)
  }
}
