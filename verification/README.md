# Episode replay buffer — Dafny model

This project models the episode replay buffer of the QMIX training code
(`src/QMIX_NEAT/core/buffer.py`, class `Buffer`) and proves properties of it.
The buffer has a fixed number of slots. Each slot holds one episode, which is a
sequence of `Experience(obs, done, reward, action_onehot)` records. Two
counters drive the buffer:

- `episode_record` counts every episode ever added.
- `store_index` is the slot the next episode goes to, `episode_record % capacity`.

`add` overwrites the slot at `store_index` and advances both counters.
`sample` draws distinct slot indices without replacement: from the filled
prefix before the buffer wraps, and from every slot afterwards. For each drawn
index it builds a key `"transition_<slot>_idx_<position>"`, collects the
episodes into an insertion-ordered dict, and hands that dict to
`PreperationBatch`. `PreperationBatch` splits the episodes into four per-field
sequences in the order obs, action_onehot, reward, done. `__len__` returns
`store_index`.

Modules, one per concept:

- `EpisodeBuffer` (`episode_buffer.dfy`): the buffer state and its `Valid` invariant, the constructor, `add`, the ring-contents lemmas, the random draw, the gathering loop, `sample` and `__len__`.
- `Batch` (`batch.dfy`): the `Experience` record and `PreperationBatch`, with `Regroup` as its inverse.
- `SampleKeys` (`sample_keys.dfy`): the batch key strings and a parser for them. The round trip proves that keys never collide.
- `Decimal` (`decimal.dfy`): how Python's `str` prints a non-negative integer, and how to read it back.
- `OrderedDict` (`ordered_dict.dfy`): Python's `dict` as a list of items in insertion order. Assigning to an existing key keeps its place; a new key is appended.
- `RingArith` (`ring_arith.dfy`): facts about `%` used by the ring lemmas.
- `Outcomes` (`outcomes.dfy`): `Option` and `Result`.

Modelling decisions:

- The field values of an `Experience` are a type parameter `V`. The constructor's placeholder `experience(0, 0, 0, 0)` takes its `0` as an argument `zero`. The constructor's defaults are `capacity = 10000` and `episode_limit = 25`; `Init` takes both explicitly.
- `capacity` and `episode_limit` are unbounded `int`s, as in Python. A capacity of 0 or less builds an empty slot dict. `Valid` covers that case.
- Exceptions are `Err` results rather than preconditions. `add` on a buffer with no slots raises `KeyError`, because `store_index` 0 is not a key. `np.random.choice` raises `ValueError` for a negative size or one larger than the pool. So a full buffer sampled with `batch_size > capacity` yields `Err(ValueError)`; it is not a precondition.
- The random draw is nondeterministic. `Choose` repeatedly takes an arbitrarily chosen entry of what remains of the pool. Every contract about `Sample` holds for every possible draw.
- `utils.NumpyConcatenate` is not part of this model. Each field is extracted as a plain sequence: one sequence per episode, then one sequence of those per field.
- The constructor's docstring calls `capacity` a number of transitions. The code stores one episode per slot, and the model follows the code.

## Model

| member | source | states |
|---|---|---|
| `EpisodeBuffer.Placeholders` | src/QMIX_NEAT/core/buffer.py:40-41 | the inner constructor loop yields exactly `max(episode_limit, 0)` records, every one the placeholder |
| `EpisodeBuffer.InitialSlots` | src/QMIX_NEAT/core/buffer.py:38-41 | the outer constructor loop creates exactly the slots `0 .. capacity - 1`, each holding the placeholder episode |
| `EpisodeBuffer.Init` | src/QMIX_NEAT/core/buffer.py:30-41 | a new buffer satisfies the ring invariant, both counters are 0, and every slot holds `max(episode_limit, 0)` placeholder records |
| `EpisodeBuffer.Add` | src/QMIX_NEAT/core/buffer.py:44-51 | fails with `KeyError` exactly when there are no slots; otherwise it puts the trajectory in slot `store_index`, leaves every other slot and the slot set unchanged, raises `episode_record` by one, keeps `store_index` in `[0, capacity)` and preserves the invariant |
| `EpisodeBuffer.AddAll` | src/QMIX_NEAT/core/buffer.py:44-51 | a run of adds fails only when there are no slots; otherwise the invariant holds and `episode_record` grows by the number of episodes added |
| `EpisodeBuffer.InitRemembers` | src/QMIX_NEAT/core/buffer.py:30-41 | a new buffer with room has recorded nothing and every slot holds the placeholder episode |
| `EpisodeBuffer.AddRemembers` | src/QMIX_NEAT/core/buffer.py:47-51 | `add` on a buffer with room succeeds and keeps the ring: the new trajectory goes to the old write position, the rest of the last `capacity` trajectories stay in slot `k % capacity`, and unreached slots keep their initial contents |
| `EpisodeBuffer.RingContents` | src/QMIX_NEAT/core/buffer.py:30-51 | any run of adds to a new buffer with room succeeds, leaves `store_index == n % capacity` and the ring above with placeholders in the unreached slots |
| `EpisodeBuffer.FillsInOrder` | src/QMIX_NEAT/core/buffer.py:47-51 | before the buffer wraps, slot `i` holds the `i`-th added trajectory, so nothing is overwritten |
| `EpisodeBuffer.OverwritesOldest` | src/QMIX_NEAT/core/buffer.py:47-51 | once at least `capacity` episodes were added, the slot the next add writes holds the oldest episode still stored |
| `EpisodeBuffer.Range` | src/QMIX_NEAT/core/buffer.py:68-74 | `list(self.buffer.keys())` of a constructed buffer: the indices `0 .. n - 1` in insertion order, none for `n <= 0` |
| `EpisodeBuffer.Pool` | src/QMIX_NEAT/core/buffer.py:67-74 | the draw pool is the indices `0 .. episode_record - 1` before the buffer wraps and `0 .. capacity - 1` afterwards, in key order |
| `EpisodeBuffer.DrawSize` | src/QMIX_NEAT/core/buffer.py:67-75 | the `size` passed to the random choice never exceeds `batch_size`; before the buffer wraps it is `batch_size` capped at `episode_record`, afterwards exactly `batch_size` |
| `EpisodeBuffer.Choose` | src/QMIX_NEAT/core/buffer.py:70-75 | a draw without replacement: `ValueError` exactly for a negative size or one above the pool size, otherwise exactly `size` values forming a sub-multiset of the pool |
| `EpisodeBuffer.DrawFromDistinct` | src/QMIX_NEAT/core/buffer.py:70-75 | a draw without replacement from a duplicate-free pool is itself duplicate-free and takes only pool values |
| `EpisodeBuffer.DrawFromRange` | src/QMIX_NEAT/core/buffer.py:67-75 | a draw from the pool of slot indices is duplicate-free and in range |
| `EpisodeBuffer.DrawIndex` | src/QMIX_NEAT/core/buffer.py:78-83 | `buffer_index` gains one entry per round; `DrawIndexIsDraw` states its contents |
| `EpisodeBuffer.DrawKeys` | src/QMIX_NEAT/core/buffer.py:78-82 | `keys` only ever holds positions of rounds already run; `DrawKeysNamePositions` states its exact domain and values |
| `EpisodeBuffer.DrawIndexIsDraw` | src/QMIX_NEAT/core/buffer.py:78-83 | `buffer_index` lists the drawn indices in drawing order |
| `EpisodeBuffer.DrawKeysNamePositions` | src/QMIX_NEAT/core/buffer.py:78-82 | `keys` maps exactly the positions `0 .. n - 1`, and position `i` to the key built from the `i`-th drawn index and `i` |
| `EpisodeBuffer.FreshKey` | src/QMIX_NEAT/core/buffer.py:79-80 | the key built in a round is not yet in the batch dict |
| `EpisodeBuffer.EntriesGrow` | src/QMIX_NEAT/core/buffer.py:79-80 | each round adds exactly one new entry, with a key not used before, at the end of the batch |
| `EpisodeBuffer.DrawBatch` | src/QMIX_NEAT/core/buffer.py:78-80 | the batch dict built by the loop, one `batch[key] = ...` per round, has at most one item per round; `DrawBatchEntries` states that it holds one entry per round in drawing order |
| `EpisodeBuffer.DrawBatchEntries` | src/QMIX_NEAT/core/buffer.py:78-80 | the batch dict has one entry per drawn index in drawing order, keyed by slot and position, holding that slot's episode; no entry is overwritten |
| `EpisodeBuffer.Gather` | src/QMIX_NEAT/core/buffer.py:78-85 | for a given draw, `buffer_index` is the draw, `keys` names each position, and the returned batch splits exactly the drawn slots' episodes in drawing order |
| `EpisodeBuffer.Sample` | src/QMIX_NEAT/core/buffer.py:54-85 | `ValueError` exactly for a negative batch size, or a full buffer asked for more than `capacity`; otherwise the indices are pairwise distinct; before wrapping there are `min(episode_record, batch_size)` of them, all below `episode_record`; afterwards there are `batch_size`, all below `capacity`; keys and batch are those `Gather` builds from the draw |
| `EpisodeBuffer.Len` | src/QMIX_NEAT/core/buffer.py:154-157 | with at least one slot, `len` is in `[0, capacity)`; it is `episode_record % capacity`, so it equals `episode_record` exactly when the buffer has not yet wrapped |
| `EpisodeBuffer.LenWrapsToZero` | src/QMIX_NEAT/core/buffer.py:154-157 | a buffer that has taken exactly `capacity` episodes holds all of them, slot `i` the `i`-th, yet `len` reports 0 |
| `Batch.Column` | src/QMIX_NEAT/core/buffer.py:114-124 | one field of every transition of an episode, same length, in transition order |
| `Batch.Stack` | src/QMIX_NEAT/core/buffer.py:112-134 | one field, one column per episode, in episode order |
| `Batch.PrepareBatch` | src/QMIX_NEAT/core/buffer.py:88-152 | the output has four entries, obs, action_onehot, reward and done in that order; entry `k` holds field `k` of transition `t` of episode `j` at `[j][t]`, with episodes in dict order |
| `Batch.RegroupSplit` | src/QMIX_NEAT/core/buffer.py:112-134 | the split loses and reorders nothing: regrouping the four fields gives back exactly the episodes |
| `SampleKeys.KeyName` | src/QMIX_NEAT/core/buffer.py:79 | every batch key starts with `transition_` and has more after it; `ParseKeyName` shows slot and position can be read back |
| `SampleKeys.ParseKeyName` | src/QMIX_NEAT/core/buffer.py:79 | a batch key parses back to the slot and position it was built from |
| `SampleKeys.KeyNameInjective` | src/QMIX_NEAT/core/buffer.py:79 | two batch keys are equal only when both slot and position are equal |
| `Decimal.FromNat` | src/QMIX_NEAT/core/buffer.py:79 | `str` of a non-negative integer is a non-empty digit string with no leading zero |
| `Decimal.ToNatFromNat` | src/QMIX_NEAT/core/buffer.py:79 | reading back the printed digits gives the integer again |
| `OrderedDict.Lookup` | src/QMIX_NEAT/core/buffer.py:80 | a dict read finds a value exactly when the key is present |
| `OrderedDict.Insert` | src/QMIX_NEAT/core/buffer.py:80 | `d[k] = v` grows the dict by one item exactly when `k` is new; `InsertNew`, `InsertKeys`, `InsertLookupSame` and `InsertLookupOther` state where the item goes and what reads return |
| `OrderedDict.InsertNew` | src/QMIX_NEAT/core/buffer.py:80 | assigning to a key the dict lacks appends the item after all others |
| `OrderedDict.InsertKeys` | src/QMIX_NEAT/core/buffer.py:80 | assignment keeps the key order and adds the key at the end only when it is new |
| `OrderedDict.InsertLookupSame` | src/QMIX_NEAT/core/buffer.py:80 | after `d[k] = v`, reading `k` gives `v` |
| `OrderedDict.InsertLookupOther` | src/QMIX_NEAT/core/buffer.py:80 | `d[k] = v` leaves every other key's value unchanged |

## Left out

- EpisodeBuffer.Choose: says which draws are possible, not how likely each is. The uniform distribution of `np.random.choice` is not modelled.
- Batch.PrepareBatch: `utils.NumpyConcatenate` is not part of this model. Array shapes, dtypes and the extra list level that wraps each per-episode array (lines 128-134) become plain nested sequences.
- Slot lists are mutated in place (`[:] =`), and `sample`'s batch dict holds references to them. The model uses values instead. The batch is consumed by `PreperationBatch` inside the same call, so the difference cannot be observed through `sample`'s result.
- Slot indices come back from `np.random.choice` as numpy integers, and an empty pool comes back as a float array. Both are modelled as integers: numpy integers hash like Python ints, and an empty draw never reaches the loop.
- The unused imports (`torch`, `random`, `pdb`, `torch.multiprocessing.Manager`) are not modelled. The buffer has no concurrency.
- The rest of the repository is not modelled: the MADDPG trainer (neural networks, optimisers, floating-point targets, logging) and the gym environment constructor.
