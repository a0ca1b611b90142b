/** BatchingProperties: what the vmap bookkeeping promises across several calls. A level entered
    by `AddBatchDim` and left by `RemoveBatchDim` at the same position gives the input back;
    leaving two nested levels gives the same shape in either order; the worked example of
    `remove_existing_batch_dim`; and the behaviour of the absent-level branch of
    `_remove_batch_dim`, as written and as corrected. */
module BatchingProperties {
  import opened Shapes
  import opened BatchedTensors
  import opened Batching

  // ------------------------------------------------------------------------------------------
  // The worked example of `remove_existing_batch_dim`

  /** Physical sizes [2, 3, 5] with level 0 hiding dimension 1 and level 1 hiding dimension 2:
      stripping level 1 keeps the batch dim of level 0 and reports logical index 1, the index of
      the size-5 dimension in the logical shape [2, 5] of the result. */
  lemma StripExample()
    ensures var t := Batched([2, 3, 5], [BatchDim(0, 1), BatchDim(1, 2)]);
      && Valid(t) && HasLevel(t, 1) && Logical(t) == [2]
      && Strip(t, 1) == Ok(Exposed(Batched([2, 3, 5], [BatchDim(0, 1)]), 1))
      && Logical(Batched([2, 3, 5], [BatchDim(0, 1)])) == [2, 5]
  {
    ExampleInput();
    ExampleStrip();
    ExampleResult();
  }

  lemma ExampleInput()
    ensures var t := Batched([2, 3, 5], [BatchDim(0, 1), BatchDim(1, 2)]);
      Valid(t) && HasLevel(t, 1) && Logical(t) == [2]
  {
    var physical: Shape := [2, 3, 5];
    var bdims := [BatchDim(0, 1), BatchDim(1, 2)];
    assert Hidden(bdims, 1) && Hidden(bdims, 2) && !Hidden(bdims, 0) by {
      assert bdims[0].dim == 1 && bdims[1].dim == 2;
    }
    assert Visible(physical, bdims, 1, 3) == [] by {
      assert Visible(physical, bdims, 2, 3) == [] by {
        assert Visible(physical, bdims, 3, 3) == [];
      }
    }
  }

  lemma ExampleStrip()
    ensures var t := Batched([2, 3, 5], [BatchDim(0, 1), BatchDim(1, 2)]);
      Strip(t, 1) == Ok(Exposed(Batched([2, 3, 5], [BatchDim(0, 1)]), 1))
  {
    var bdims := [BatchDim(0, 1), BatchDim(1, 2)];
    var rest := [BatchDim(0, 1)];
    var t := Batched([2, 3, 5], bdims);
    assert bdims[..1] + bdims[2..] == rest;
    assert CountBelow(rest, 2) == 1 by {
      assert rest[..0] == [];
    }
    StripDropsEntry(t, 1);
  }

  lemma ExampleResult()
    ensures Logical(Batched([2, 3, 5], [BatchDim(0, 1)])) == [2, 5]
  {
    var physical: Shape := [2, 3, 5];
    var rest := [BatchDim(0, 1)];
    assert Hidden(rest, 1) && !Hidden(rest, 2) && !Hidden(rest, 0) by {
      assert rest[0].dim == 1;
    }
    assert Visible(physical, rest, 1, 3) == [5] by {
      assert Visible(physical, rest, 2, 3) == [5] by {
        assert Visible(physical, rest, 3, 3) == [];
      }
    }
  }

  // ------------------------------------------------------------------------------------------
  // Entering and leaving a level

  /** Entering a level that hides logical dimension d and leaving it with `outDim` d gives back
      the logical shape and the levels of the input, whatever the batch size passed; a plain
      input comes back unchanged. */
  lemma AddThenExit(t: Tensor, d: nat, level: int, batchSize: nat)
    requires Valid(t) && !HasLevel(t, level) && d < |Logical(t)|
    ensures var entered := AddBatchDim(t, d, level);
      var r := ExitBatch(entered, level, batchSize, d);
      && r.Ok?
      && Valid(r.value)
      && Logical(r.value) == Logical(t)
      && SameLevels(t, r.value)
      && (t.Plain? ==> r.value == t)
  {
    var entered := AddBatchDim(t, d, level);
    var l := Logical(t);
    ExitPresent(entered, level, batchSize, d);
    var r := ExitBatch(entered, level, batchSize, d).value;
    assert Logical(r) == Insert(l[..d] + l[d + 1..], d, l[d]);
    InsertRemoved(l, d);
    AgreeButAbsent(t, entered, r, level);
    if t.Plain? {
      AddThenExitPlain(t.sizes, d, level, batchSize);
    }
  }

  /** Two steps that each keep every level but `level`, from and to a tensor without it, keep
      every level. */
  lemma AgreeButAbsent(a: Tensor, b: Tensor, c: Tensor, level: int)
    requires Valid(a) && Valid(b) && Valid(c)
    requires AgreeBut(a, b, level) && AgreeBut(b, c, level)
    requires !HasLevel(a, level) && !HasLevel(c, level)
    ensures SameLevels(a, c)
  {
    forall m ensures (HasLevel(a, m) <==> HasLevel(c, m)) && (HasLevel(a, m) ==> LevelSize(a, m) == LevelSize(c, m)) {
      if m != level {
        assert (HasLevel(a, m) <==> HasLevel(b, m)) && (HasLevel(b, m) <==> HasLevel(c, m));
      }
    }
  }

  /** A plain tensor that enters a level and leaves it at the same position comes back as it was. */
  lemma AddThenExitPlain(sizes: Shape, d: nat, level: int, batchSize: nat)
    requires d < |sizes|
    ensures ExitBatch(AddBatchDim(Plain(sizes), d, level), level, batchSize, d) == Ok(Plain(sizes))
  {
    var entered := AddBatchDim(Plain(sizes), d, level);
    assert entered.bdims == [BatchDim(level, d)];
    assert Strip(entered, level) == Ok(Exposed(Plain(sizes), d));
  }

  /** The size of the axis that leaving `level` inserts: the hidden dimension's, or `batchSize`
      when the level is absent. */
  function ExitSize(t: Tensor, level: int, batchSize: nat): nat
    requires Valid(t)
  {
    if HasLevel(t, level) then LevelSize(t, level) else batchSize
  }

  /** One exit at a non-negative `outDim`: it succeeds, inserts the level's axis at `outDim`,
      drops the level, and leaves any other level, with the size its exit would insert. */
  lemma ExitStep(t: Tensor, level: int, batchSize: nat, outDim: nat, other: int, otherSize: nat)
    requires Valid(t) && outDim <= |Logical(t)| && other != level
    ensures var r := ExitBatch(t, level, batchSize, outDim);
      && r.Ok? && Valid(r.value)
      && Logical(r.value) == Insert(Logical(t), outDim, ExitSize(t, level, batchSize))
      && !HasLevel(r.value, level)
      && (HasLevel(r.value, other) <==> HasLevel(t, other))
      && ExitSize(r.value, other, otherSize) == ExitSize(t, other, otherSize)
  {
    ExitBatchShape(t, level, batchSize, outDim);
  }

  /** Leaving `first` at c1 and then `second` at c2 inserts both axes, with the sizes the input
      gives them, and drops both levels. */
  lemma ExitTwice(t: Tensor, first: int, firstSize: nat, c1: nat, second: int, secondSize: nat, c2: nat)
    requires Valid(t) && first != second && c1 <= |Logical(t)| && c2 <= |Logical(t)| + 1
    ensures var r1 := ExitBatch(t, first, firstSize, c1);
      && r1.Ok? && Valid(r1.value) && |Logical(r1.value)| == |Logical(t)| + 1
      && var r2 := ExitBatch(r1.value, second, secondSize, c2);
         && r2.Ok?
         && Logical(r2.value)
            == Insert(Insert(Logical(t), c1, ExitSize(t, first, firstSize)), c2, ExitSize(t, second, secondSize))
         && !HasLevel(r2.value, first) && !HasLevel(r2.value, second)
  {
    ExitStep(t, first, firstSize, c1, second, secondSize);
    var r1 := ExitBatch(t, first, firstSize, c1).value;
    ExitStep(r1, second, secondSize, c2, first, firstSize);
  }

  /** Leaving two levels gives the same logical shape in either order, when the second exit
      accounts for the axis the first one inserted: leaving `inner` at a and then `outer` at
      b + 1 is leaving `outer` at b and then `inner` at a, for a <= b. */
  lemma ExitCommutes(t: Tensor, inner: int, outer: int, innerSize: nat, outerSize: nat, a: nat, b: nat)
    requires Valid(t) && inner != outer && a <= b <= |Logical(t)|
    ensures var r1 := ExitBatch(t, inner, innerSize, a);
      var s1 := ExitBatch(t, outer, outerSize, b);
      && r1.Ok? && Valid(r1.value) && |Logical(r1.value)| == |Logical(t)| + 1
      && s1.Ok? && Valid(s1.value) && |Logical(s1.value)| == |Logical(t)| + 1
      && var r2 := ExitBatch(r1.value, outer, outerSize, b + 1);
         var s2 := ExitBatch(s1.value, inner, innerSize, a);
         && r2.Ok? && s2.Ok?
         && Logical(r2.value) == Logical(s2.value)
         && !HasLevel(r2.value, inner) && !HasLevel(r2.value, outer)
         && !HasLevel(s2.value, inner) && !HasLevel(s2.value, outer)
  {
    var l, x, y := Logical(t), ExitSize(t, inner, innerSize), ExitSize(t, outer, outerSize);
    ExitTwice(t, inner, innerSize, a, outer, outerSize, b + 1);
    ExitTwice(t, outer, outerSize, b, inner, innerSize, a);
    var r1 := ExitBatch(t, inner, innerSize, a).value;
    var s1 := ExitBatch(t, outer, outerSize, b).value;
    var r2 := ExitBatch(r1, outer, outerSize, b + 1).value;
    var s2 := ExitBatch(s1, inner, innerSize, a).value;
    assert Logical(r2) == Insert(Insert(l, a, x), b + 1, y);
    assert Logical(s2) == Insert(Insert(l, b, y), a, x);
    InsertCommutes(l, a, x, b, y);
  }

  // ------------------------------------------------------------------------------------------
  // The absent-level branch: `expand` as written, `unsqueeze` then `expand` as corrected

  /** As written, a tensor of logical shape [3] that lacks the level cannot be given a batch axis
      of size 5 at `outDim` 1: `expand` aligns [3] with the trailing size 5 and refuses. The
      corrected branch yields shape [3, 5]. */
  lemma SynthesizeAsWrittenRefused()
    ensures SynthesizeAsWritten(Plain([3]), 5, 1) == Err(ExpandError)
    ensures Synthesize(Plain([3]), 5, 1).Ok? && Logical(Synthesize(Plain([3]), 5, 1).value) == [3, 5]
  {
    assert Insert([3], 1, 5) == [3, 5];
    assert !CanExpand([3], [3, 5]) by {
      assert [3][0] != [3, 5][1];
    }
  }

  /** The whole of `_remove_batch_dim` as written refuses a plain tensor of shape [3] that
      leaves level 0 with batch size 5 at `outDim` 1; the corrected exit yields shape [3, 5]. */
  lemma ExitAsWrittenRefused()
    ensures ExitBatchAsWritten(Plain([3]), 0, 5, 1) == Err(ExpandError)
    ensures ExitBatch(Plain([3]), 0, 5, 1) == Ok(Plain([3, 5]))
  {
    SynthesizeAsWrittenRefused();
    assert Insert([3], 1, 5) == [3, 5];
  }

  /** As written, a tensor of logical shape [3, 4] given a batch axis of size 3 at `outDim` 1 is
      accepted, but `expand` reads the input's axes 0 and 1 into output axes 1 and 2 and
      broadcasts output axis 0: the new axis lands in front, not at index 1 where the caller
      asked for it. */
  lemma SynthesizeAsWrittenMisplaces()
    ensures SynthesizeAsWritten(Plain([3, 4]), 3, 1).Ok?
    ensures ExpandLayout([3, 4], Insert([3, 4], 1, 3)) == [Broadcast, From(0), From(1)]
    ensures ExpandLayout([3, 4], Insert([3, 4], 1, 3)) != InsertedAxis(2, 1)
  {
    var target := Insert([3, 4], 1, 3);
    assert target == [3, 3, 4];
    assert CanExpand([3, 4], target);
    var layout := ExpandLayout([3, 4], target);
    assert layout[0] == Broadcast && layout[1] == From(0) && layout[2] == From(1);
    assert InsertedAxis(2, 1)[0] == From(0);
  }

  /** As written, the branch is right when `outDim` is 0: `expand` then only prepends the new
      axis, and reads every input axis into the next position. */
  lemma SynthesizeAsWrittenAtFront(t: Tensor, batchSize: nat)
    requires Valid(t)
    ensures SynthesizeAsWritten(t, batchSize, 0).Ok?
    ensures ExpandLayout(Logical(t), Insert(Logical(t), 0, batchSize)) == InsertedAxis(|Logical(t)|, 0)
  {
    var l := Logical(t);
    var target := Insert(l, 0, batchSize);
    assert CanExpand(l, target);
    var layout := ExpandLayout(l, target);
    forall j | 0 <= j < |target| ensures layout[j] == InsertedAxis(|l|, 0)[j] {
      if j > 0 {
        assert l[j - 1] == target[j];
      }
    }
  }

  /** As corrected, at any `outDim`: `unsqueeze` puts a unit axis at `outDim`, and `expand` to the
      sizes with `batchSize` there reads every other axis in place, so that the composed view
      reads the input's axes around a new axis at exactly `outDim`. */
  lemma SynthesizeLayout(l: Shape, outDim: nat, batchSize: nat)
    requires outDim <= |l|
    ensures CanExpand(Insert(l, outDim, 1), Insert(l, outDim, batchSize))
    ensures Compose(ExpandLayout(Insert(l, outDim, 1), Insert(l, outDim, batchSize)), InsertedAxis(|l|, outDim))
         == InsertedAxis(|l|, outDim)
  {
    var unit, target := Insert(l, outDim, 1), Insert(l, outDim, batchSize);
    var inner := InsertedAxis(|l|, outDim);
    var outer := ExpandLayout(unit, target);
    forall j | 0 <= j < |target| ensures outer[j] == if j == outDim && batchSize != 1 then Broadcast else From(j) {
      if j != outDim {
        assert unit[j] == target[j];
      }
    }
    var r := Compose(outer, inner);
    forall j | 0 <= j < |target| ensures r[j] == inner[j] {
    }
  }
}
