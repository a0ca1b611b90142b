# vmap batch-dimension bookkeeping, in Dafny

This project models the dimension bookkeeping behind PyTorch's `vmap` transform, in
`aten/src/ATen/native/Batching.cpp`. It proves properties of that model.

Under `vmap` a tensor may be a *batched tensor*: a physical tensor plus an ordered list of
*batch dims*. Each batch dim is a pair (vmap level, physical dimension index). The physical
dimensions named by batch dims are hidden. The *logical* shape, the one `sizes()` and `dim()`
report, is the physical shape with the hidden dimensions left out. The file implements five
functions:
- `_add_batch_dim` enters a level by hiding one logical dimension.
- `has_level` asks whether a tensor carries a level.
- `remove_existing_batch_dim` strips the batch dim of a level. It reports the logical index at
  which that dimension becomes visible.
- `movedim` moves one axis to a new position and keeps the others in order.
- `_remove_batch_dim` leaves a level. It either strips the level's dimension and moves it to
  `out_dim`, or, when the value never depended on the level, calls `expand` on the sizes with
  `batch_size` inserted at `out_dim`. That call places the new axis at `out_dim` only when
  `out_dim` is 0 (see Findings). The model's `ExitBatch` and `RemoveBatchDim` use the corrected
  branch, `unsqueeze` then `expand`; `ExitBatchAsWritten` keeps the branch as written.

Only shapes matter here, so a tensor is modelled by its sizes:

- `shapes.dfy` (module `Shapes`) covers the shape-level operations the file relies on:
  - `Insert`, the vector `insert`;
  - `Permuted`, the shape produced by `permute`;
  - `WrapDim`, the index normalisation of `maybe_wrap_dim`;
  - the broadcasting rule of `expand`, described both by the shapes it accepts and by which input
    axis each output axis reads (`ExpandLayout`).
- `batched_tensor.dfy` (module `BatchedTensors`) holds the data model:
  - `Tensor` is either `Plain(sizes)` or `Batched(physical, bdims)`;
  - `Valid` is the invariant every batched tensor keeps: at least one batch dim, dims in range,
    no dimension and no level twice;
  - `Logical` computes the logical shape;
  - the engine views: `permute` and `expand`, which the file calls, and `unsqueeze`, which
    only the corrected absent-level branch uses (see Findings).
- `batching.dfy` (module `Batching`) holds the five functions of the file:
  - `has_level` is a pure search;
  - `remove_existing_batch_dim`, `movedim` and `_remove_batch_dim` are methods with the loops of
    the source, each proved equal to a pure specification function;
  - lemmas state what these specification functions promise.
- `batching_properties.dfy` (module `BatchingProperties`) relates several calls:
  - the worked example in the comment of `remove_existing_batch_dim`;
  - entering and then leaving a level gives the input back;
  - leaving two nested levels gives the same shape in either order;
  - the absent-level branch of `_remove_batch_dim` as written and as corrected (see Findings).

Errors are values of `Result`:
- a failed `TORCH_INTERNAL_ASSERT` is `Err(InternalAssert)`;
- an index `maybe_wrap_dim` rejects is `Err(IndexError)`;
- a shape `expand` cannot broadcast to is `Err(ExpandError)`.

## Model

| member | source | states |
|---|---|---|
| `Shapes.WrapDim` | aten/src/ATen/native/Batching.cpp:67-68 | An index is accepted exactly when the rank is positive and the index lies in [-rank, rank). An accepted index is normalised into [0, rank): non-negative indices are kept and negative ones count from the end. A rejected index is an IndexError. |
| `Shapes.Insert` | aten/src/ATen/native/Batching.cpp:104 | Inserting `x` at `i` lengthens the vector by one and puts `x` at `i`. Elements before `i` stay in place and elements from `i` on shift up by one. |
| `Shapes.Permuted` | aten/src/ATen/native/Batching.cpp:81 | The shape after `permute(perm)` has one size per entry of `perm`. Output dimension `i` has the size of input dimension `perm[i]`. |
| `Shapes.ExpandLayout` | aten/src/ATen/native/Batching.cpp:105 | `expand` aligns the input's sizes with the trailing sizes of the target. Each leading target axis is a new broadcast axis. Each aligned axis of equal size reads the input axis it is aligned with. Each aligned axis of size 1 that the target enlarges is a broadcast axis. |
| `BatchedTensors.ViewAs` | aten/src/ATen/native/Batching.cpp:81 | A view has exactly the requested logical shape and stays valid. A plain tensor stays plain. A batched one keeps the same number of batch dims, with the same levels in the same order and the same hidden sizes. |
| `BatchedTensors.Permute` | aten/src/ATen/native/Batching.cpp:81 | `permute`, given a permutation of the logical dims as the engine requires, on a (batched) tensor yields a valid tensor whose logical shape is the input's logical shape permuted. |
| `BatchedTensors.Expand` | aten/src/ATen/native/Batching.cpp:105 | `expand` succeeds exactly when the logical sizes broadcast to the target. It then yields a valid tensor whose logical shape is the target. |
| `Batching.FindLevel` | aten/src/ATen/native/Batching.cpp:18-20 | `find_if` returns the first index whose batch dim has the level, or the end when none has. No earlier entry has the level. |
| `Batching.HasLevel` | aten/src/ATen/native/Batching.cpp:12-22 | False for a plain tensor. For a batched tensor, true exactly when some batch dim carries the level. |
| `Batching.AddBatchDim` | aten/src/ATen/native/Batching.cpp:8-10 | The result is valid, carries the new level, and keeps every other level with its size. Logical dimension `batch_dim` becomes hidden: the logical shape loses that axis, and the level's size is that axis's size. |
| `Batching.RemoveExistingBatchDim` | aten/src/ATen/native/Batching.cpp:32-59 | The two loops compute the same result as `Strip`. The result is an InternalAssert error exactly when the input is plain, or has a single batch dim of another level. |
| `Batching.StripSingle` | aten/src/ATen/native/Batching.cpp:36-39 | With a single batch dim, the returned underlying tensor's shape is the logical shape with the level's size inserted at the returned index, the batch dim's physical index. Every other level is absent from both. |
| `Batching.StripDropsEntry` | aten/src/ATen/native/Batching.cpp:40-57 | With several batch dims, the result keeps the physical sizes and the batch dims, in order and unchanged, except the one entry of the level. The exposed logical index is that entry's physical dim minus the number of surviving batch dims at smaller physical dims. |
| `Batching.WithoutDropsOne` | aten/src/ATen/native/Batching.cpp:43-49 | Levels are distinct, so the `push_back` loop drops exactly the one entry with the level and keeps the others in their order. |
| `Batching.VisibleCount` | aten/src/ATen/native/Batching.cpp:50-56 | The visible dimensions below a physical index p number p minus the hidden ones below p. Physical index minus the count of batch dims below it is therefore a logical index. |
| `Batching.StripShape` | aten/src/ATen/native/Batching.cpp:32-59 | For a valid tensor carrying the level, stripping succeeds. The result is valid and no longer carries the level, and every other level keeps its size. The returned logical index is in range. The new logical shape is the old one with the level's size inserted at that index: the hidden dimension becomes visible exactly there. |
| `Batching.Skipping` | aten/src/ATen/native/Batching.cpp:73-79 | The loop with `continue` lists [0, n) in ascending order with `src` left out. |
| `Batching.MovePerm` | aten/src/ATen/native/Batching.cpp:72-80 | The permutation `movedim` builds has length rank and is a permutation of [0, rank). It holds `src` at `dst`, and lists all other indices in ascending order. |
| `Batching.MoveDimPermutation` | aten/src/ATen/native/Batching.cpp:72-80 | The `push_back` loop followed by `insert` computes exactly `MovePerm`. |
| `Batching.MovePermIdentity` | aten/src/ATen/native/Batching.cpp:69-71 | When `src == dst` the permutation would be the identity. The early return of the input therefore agrees with the general path. |
| `Batching.MovePermMovesAxis` | aten/src/ATen/native/Batching.cpp:72-81 | Permuting by the built permutation takes the element at `src` to `dst` and leaves the others in order. |
| `Batching.MoveDim` | aten/src/ATen/native/Batching.cpp:65-82 | The method (normalise both indices, return early when equal, build the permutation, permute) computes exactly `MovedDim`. |
| `Batching.MovedDimShape` | aten/src/ATen/native/Batching.cpp:65-82 | `movedim` fails with IndexError exactly when an index is outside [-rank, rank). Otherwise the result is valid and keeps every level and size. Its logical shape is the input's with the axis at the normalised `src` removed and put back at the normalised `dst`. |
| `Batching.SynthesizeAsWritten` | aten/src/ATen/native/Batching.cpp:101-105 | The absent-level branch as written succeeds exactly when `expand` accepts the sizes with `batch_size` inserted at `out_dim`, and otherwise is an ExpandError. On success the result is valid and has exactly those sizes. |
| `Batching.SynthesizeAsWrittenAccepts` | aten/src/ATen/native/Batching.cpp:101-105 | The written branch succeeds exactly when each axis i before `out_dim` is 1 or equals the size that follows it, which is `batch_size` for the axis just before `out_dim`. |
| `Batching.Synthesize` | aten/src/ATen/native/Batching.cpp:101-105 | The absent-level branch as corrected (`unsqueeze` then `expand`) never fails and keeps every level. Its logical shape is the input's with `batch_size` inserted at `out_dim`. |
| `Batching.ExitBatchAsWritten` | aten/src/ATen/native/Batching.cpp:100-111 | `_remove_batch_dim` with line 105 as written. It gives the same result as the corrected `ExitBatch` when the level is present, when `out_dim` is 0, and wherever it succeeds. Without the level it fails exactly when `expand` refuses the sizes with `batch_size` inserted. |
| `Batching.AsWrittenAgrees` | aten/src/ATen/native/Batching.cpp:101-105 | Where the written branch succeeds it yields the same tensor as the corrected one. At `out_dim` 0 it always succeeds. |
| `Batching.AsWrittenAtFront` | aten/src/ATen/native/Batching.cpp:101-105 | At `out_dim` 0 the written branch and the corrected one yield the same tensor. |
| `Batching.RemoveBatchDim` | aten/src/ATen/native/Batching.cpp:100-111 | The method computes exactly `ExitBatch`, with the absent-level branch corrected (see Findings). Without the level it synthesises the batch axis; with it, it strips the level and then applies `movedim` to the exposed logical index. |
| `Batching.ExitBatchShape` | aten/src/ATen/native/Batching.cpp:100-111 | With the absent-level branch corrected, leaving a level fails only when the level is present and `out_dim` is outside [-(rank+1), rank+1). Otherwise the result is valid, no longer carries the level, and keeps every other level and its size. Its logical shape is the input's with one axis inserted at the normalised `out_dim`: the level's hidden dimension, or `batch_size` when the level is absent. |
| `BatchingProperties.StripExample` | aten/src/ATen/native/Batching.cpp:24-31 | The worked example: physical [2, 3, 5] with batch dims [(0, 1), (1, 2)], stripping level 1. The result has batch dims [(0, 1)] and logical index 1, which is a valid index into the result's logical shape [2, 5]. |
| `BatchingProperties.ExitStep` | aten/src/ATen/native/Batching.cpp:100-111 | With the absent-level branch corrected, leaving a level at a non-negative `out_dim` within the rank succeeds and inserts the level's axis there. Any other level is kept, with the size its own exit would insert. |
| `BatchingProperties.AddThenExit` | aten/src/ATen/native/Batching.cpp:84-111 | Entering a level at dimension d and leaving it at `out_dim` d restores the logical shape and the levels. A plain tensor comes back unchanged. |
| `BatchingProperties.ExitCommutes` | aten/src/ATen/native/Batching.cpp:100-111 | With the absent-level branch corrected, leaving two nested levels gives the same logical shape in either order, when the second exit's `out_dim` accounts for the axis the first one inserted. Neither level survives. |
| `BatchingProperties.SynthesizeAsWrittenRefused` | aten/src/ATen/native/Batching.cpp:101-105 | As written, logical shape [3] with `batch_size` 5 at `out_dim` 1 is refused by `expand`. The corrected branch gives [3, 5]. |
| `BatchingProperties.ExitAsWrittenRefused` | aten/src/ATen/native/Batching.cpp:100-111 | As written, `_remove_batch_dim` on a plain tensor of shape [3], leaving level 0 with `batch_size` 5 at `out_dim` 1, is an ExpandError. The corrected exit gives shape [3, 5]. |
| `BatchingProperties.SynthesizeAsWrittenMisplaces` | aten/src/ATen/native/Batching.cpp:101-105 | As written, logical shape [3, 4] with `batch_size` 3 at `out_dim` 1 is accepted. The broadcast axis then lands at index 0 rather than at `out_dim`. |
| `BatchingProperties.SynthesizeAsWrittenAtFront` | aten/src/ATen/native/Batching.cpp:101-105 | As written, the branch is right at `out_dim` 0 for every input: the new axis is placed at index 0 and every input axis follows in order. |
| `BatchingProperties.SynthesizeLayout` | aten/src/ATen/native/Batching.cpp:101-105 | As corrected, for every shape and every `out_dim`, the composed view reads the input's axes in order around a new broadcast axis at exactly `out_dim`. |

## Left out

- Tensor data, strides and storage are not modelled. A tensor is its sizes; `expand` and `permute` are modelled only by the shapes they produce and by which input axis each output axis reads.
- `BatchedTensors.ViewAs`: the model places the hidden dimensions of a view at the front, in batch-dim order. Where the engine's batching rules place them physically is not modelled. Only the logical shape and each level's hidden size are promised.
- `makeBatched` and `maybeGetBatched` become the `Batched` constructor and a match on the `Tensor` datatype. BatchedTensorImpl.h is not part of this model, so the engine's own checks on batch dims are stated as the `Valid` invariant.
- `Batching.AddBatchDim`: `addBatchDim` is defined in VmapTransforms.h and BatchedTensorImpl.h, which are not part of this model. Its arguments are modelled as already normalised: `batch_dim` in [0, rank), and a level the tensor does not carry. Which physical index a batch dim gets is a modelling choice. The engine's normalisation of a negative `batch_dim` is not modelled.
- `Shapes.WrapDim`: the special rules of `maybe_wrap_dim` for a rank-0 tensor are not modelled; every index is an IndexError at rank 0. WrapDimUtils.h is not part of this model.
- `Batching.RemoveExistingBatchDim`: with two or more batch dims and none of the level, the source reads the uninitialised `newly_exposed_physical_dim`. A `requires` excludes that case. The only caller reaches this function only after `has_level` succeeds.
- `Batching.RemoveBatchDim`: in the absent-level branch, an `out_dim` outside [0, rank] makes the vector `insert` undefined. A `requires` excludes it. That branch is the corrected `unsqueeze` then `expand`, not line 105's bare `expand`. As written, an absent level at `out_dim > 0` can be refused or misplace the axis; `Batching.ExitBatchAsWritten` models that (see Findings).
- `Batching.ExitBatchShape`: states the exit with the corrected absent-level branch. As written (line 105), an absent level at `out_dim > 0` fails whenever `expand` refuses the sizes (`Batching.SynthesizeAsWrittenAccepts`), so "fails only when the level is present" does not hold of the code as written.
- `BatchingProperties.ExitStep`: "succeeds" holds of the corrected absent-level branch. As written, an absent level at `out_dim > 0` can be refused (`BatchingProperties.ExitAsWrittenRefused`).
- `BatchingProperties.ExitCommutes`: holds of the corrected absent-level branch. As written, an exit of an absent level at `out_dim > 0` can fail, and then neither order yields a shape.
- `Batching.ExitBatchAsWritten`: shapes alone cannot tell a misplaced axis from a correctly placed one of the same size, so where the written branch succeeds its value equals the corrected one (`Batching.AsWrittenAgrees`). The misplacement is stated by the layout lemmas (`BatchingProperties.SynthesizeAsWrittenMisplaces`, `BatchingProperties.SynthesizeLayout`).
- Integer widths are not modelled. Sizes and indices are unbounded; the source uses `int64_t`, whose overflow needs ranks and sizes far beyond real tensors.
- Operator dispatch and the allocation of vmap levels are left out; levels are plain integers passed in.
- The comment above `movedim` (line 61) says it moves `dst` to `src`. The code moves `src` to `dst`, and the model follows the code.
- `movedim` returning `self` is modelled as returning the same value. The aliasing of the returned tensor is not modelled.

## Findings

| source | as written | input that shows it | evidently intended | confidence | as-written member | corrected member |
|---|---|---|---|---|---|---|
| aten/src/ATen/native/Batching.cpp:101-105 | With the level absent, `self.expand(sizes with batch_size inserted at out_dim)`. `expand` aligns the input's sizes with the TRAILING target sizes, so the new axis can only be created in front. | Logical shape [3], batch_size 5, out_dim 1: `expand` refuses [3] → [3, 5]. Logical shape [3, 4], batch_size 3, out_dim 1: accepted, but the broadcast axis lands at index 0. | `self.unsqueeze(out_dim).expand(...)`: a unit axis at `out_dim`, broadcast to `batch_size`. | medium, not executed; rests on the broadcasting rule of `expand`, which is defined outside this file | `BatchingProperties.SynthesizeAsWrittenMisplaces` | `BatchingProperties.SynthesizeLayout` |
