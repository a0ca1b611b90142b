/** Shapes: a tensor seen only through its sizes, and the engine operations the batching core
    relies on at that level: inserting a size, permuting sizes, normalising a dimension index, and
    the broadcasting rule of `expand` described by which input axis each output axis reads. */
module Shapes {

  /** The sizes of a tensor, outermost dimension first. */
  type Shape = seq<nat>

  /** The failures the core can raise; each is fatal to the current operation. */
  datatype Error =
    | InternalAssert  // a failed internal assertion of the engine
    | IndexError      // a dimension index outside the range `maybe_wrap_dim` accepts
    | ExpandError     // `expand` asked for a shape it cannot broadcast to

  datatype Result<T> = Ok(value: T) | Err(error: Error)

  /** `s` with `x` placed at index `i`, as `insert(begin() + i, x)` does on a vector. */
  function Insert<T>(s: seq<T>, i: nat, x: T): (r: seq<T>)
    requires i <= |s|
    ensures |r| == |s| + 1 && r[i] == x
    ensures forall j :: 0 <= j < i ==> r[j] == s[j]
    ensures forall j :: i < j < |r| ==> r[j] == s[j - 1]
  {
    s[..i] + [x] + s[i..]
  }

  /** Taking the element at i out and inserting it back at i gives the sequence back. */
  lemma InsertRemoved<T>(s: seq<T>, i: nat)
    requires i < |s|
    ensures Insert(s[..i] + s[i + 1..], i, s[i]) == s
  {
    assert (s[..i] + s[i + 1..])[..i] == s[..i];
    assert (s[..i] + s[i + 1..])[i..] == s[i + 1..];
    assert s == s[..i] + [s[i]] + s[i + 1..];
  }

  /** Inserting x at i and taking the element at i out again gives the sequence back. */
  lemma RemoveInserted<T>(s: seq<T>, i: nat, x: T)
    requires i <= |s|
    ensures Insert(s, i, x)[..i] + Insert(s, i, x)[i + 1..] == s
  {
    var r := Insert(s, i, x);
    assert r[..i] == s[..i];
    assert r[i + 1..] == s[i..];
  }

  /** Inserting two values at positions that account for each other commutes. */
  lemma InsertCommutes<T>(s: seq<T>, a: nat, x: T, b: nat, y: T)
    requires a <= b <= |s|
    ensures Insert(Insert(s, a, x), b + 1, y) == Insert(Insert(s, b, y), a, x)
  {
    var l, r := Insert(Insert(s, a, x), b + 1, y), Insert(Insert(s, b, y), a, x);
    assert |l| == |r|;
    forall j | 0 <= j < |l| ensures l[j] == r[j] {
      if j < a {
      } else if j == a {
      } else if j <= b {
      } else if j == b + 1 {
      } else {
      }
    }
  }

  /** A permutation of [0, n): every index below n exactly once. */
  predicate IsPermutation(perm: seq<nat>, n: nat) {
    && |perm| == n
    && (forall i :: 0 <= i < n ==> perm[i] < n)
    && (forall i, j :: 0 <= i < j < n ==> perm[i] != perm[j])
  }

  /** The sizes after `permute(perm)`: output dimension i is input dimension perm[i]. */
  function Permuted(s: Shape, perm: seq<nat>): (r: Shape)
    requires forall i :: 0 <= i < |perm| ==> perm[i] < |s|
    ensures |r| == |perm|
    ensures forall i :: 0 <= i < |perm| ==> r[i] == s[perm[i]]
  {
    seq(|perm|, i requires 0 <= i < |perm| => s[perm[i]])
  }

  /** `maybe_wrap_dim` for a tensor of positive rank: an index in [-rank, rank) is normalised to
      [0, rank), negative indices counting from the end; any other index is an IndexError. */
  function WrapDim(d: int, rank: nat): (r: Result<nat>)
    ensures r.Ok? <==> 0 < rank && -(rank as int) <= d < rank
    ensures r.Ok? ==> r.value < rank && (d >= 0 ==> r.value == d) && (d < 0 ==> r.value == d + rank)
    ensures r.Err? ==> r.error == IndexError
  {
    if 0 < rank && -(rank as int) <= d < rank then Ok(if d < 0 then d + rank else d) else Err(IndexError)
  }

  /** Where an axis of a view gets its elements: an axis of the input, or nowhere (every index
      along it reads the same elements: a broadcast or freshly inserted axis). */
  datatype Axis = From(index: nat) | Broadcast

  /** `expand` accepts `target` when the input's sizes align with the trailing sizes of `target`,
      each equal to its partner or 1; the leading sizes of `target` become new axes. */
  predicate CanExpand(sizes: Shape, target: Shape) {
    && |sizes| <= |target|
    && forall i :: 0 <= i < |sizes| ==>
         sizes[i] == 1 || sizes[i] == target[i + |target| - |sizes|]
  }

  /** `expand` from `l` to `l` with `x` inserted at d: every axis from d on meets its own size,
      and each axis i before d meets the size that follows it (`x` for the last). */
  lemma InsertedCanExpand(l: Shape, d: nat, x: nat)
    requires d <= |l|
    ensures CanExpand(l, Insert(l, d, x))
      <==> forall i {:trigger l[i]} :: 0 <= i < d ==> l[i] == 1 || l[i] == (if i + 1 == d then x else l[i + 1])
  {
    var target := Insert(l, d, x);
    if CanExpand(l, target) {
      forall i | 0 <= i < d ensures l[i] == 1 || l[i] == (if i + 1 == d then x else l[i + 1]) {
        assert l[i] == 1 || l[i] == target[i + 1];
      }
    }
    if forall i {:trigger l[i]} :: 0 <= i < d ==> l[i] == 1 || l[i] == (if i + 1 == d then x else l[i + 1]) {
      PrefixFitsExpands(l, d, x);
    }
  }

  lemma PrefixFitsExpands(l: Shape, d: nat, x: nat)
    requires d <= |l|
    requires forall i {:trigger l[i]} :: 0 <= i < d ==> l[i] == 1 || l[i] == (if i + 1 == d then x else l[i + 1])
    ensures CanExpand(l, Insert(l, d, x))
  {
    var target := Insert(l, d, x);
    forall i | 0 <= i < |l| ensures l[i] == 1 || l[i] == target[i + |target| - |l|] {
      assert i + |target| - |l| == i + 1;
      if i < d {
        assert target[i + 1] == if i + 1 == d then x else l[i + 1];
      }
    }
  }

  /** What each axis of `expand(target)` reads: the layout of the view that
      `BatchedTensors.Expand` returns. */
  function ExpandLayout(sizes: Shape, target: Shape): (r: seq<Axis>)
    requires CanExpand(sizes, target)
    ensures |r| == |target|
    ensures forall j :: 0 <= j < |target| - |sizes| ==> r[j] == Broadcast
    ensures forall i :: 0 <= i < |sizes| && sizes[i] == target[i + |target| - |sizes|] ==>
              r[i + |target| - |sizes|] == From(i)
    ensures forall i :: 0 <= i < |sizes| && sizes[i] != target[i + |target| - |sizes|] ==>
              r[i + |target| - |sizes|] == Broadcast
  {
    var e := |target| - |sizes|;
    seq(|target|, j requires 0 <= j < |target| => if j < e || sizes[j - e] != target[j] then Broadcast else From(j - e))
  }

  /** The layout of a tensor of rank n with a new axis at d: the axes before d read the input's
      axes in place, axis d reads nothing, the axes after d read the input's axes shifted by one.
      This is the layout of the view that `BatchedTensors.Unsqueeze` returns. */
  function InsertedAxis(n: nat, d: nat): (r: seq<Axis>)
    requires d <= n
    ensures r == Insert(seq(n, (i: nat) => From(i)), d, Broadcast)
  {
    seq(n + 1, (j: nat) => if j < d then From(j) else if j == d then Broadcast else From(j - 1))
  }

  /** The layout of a view of a view: `outer` over the axes of the middle tensor, `inner` over
      the axes of the original. */
  function Compose(outer: seq<Axis>, inner: seq<Axis>): (r: seq<Axis>)
    requires forall j :: 0 <= j < |outer| && outer[j].From? ==> outer[j].index < |inner|
    ensures |r| == |outer|
    ensures forall j :: 0 <= j < |outer| ==>
              r[j] == if outer[j].From? then inner[outer[j].index] else Broadcast
  {
    seq(|outer|, j requires 0 <= j < |outer| =>
      match outer[j]
      case From(i) => inner[i]
      case Broadcast => Broadcast)
  }
}
