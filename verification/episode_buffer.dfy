/** The episode replay buffer: a fixed number of slots, each holding one
    episode's transitions, written round-robin and sampled without replacement. */
module EpisodeBuffer {
  import opened Outcomes
  import opened Batch
  import opened OrderedDict
  import opened SampleKeys
  import RingArith

  /** The exceptions the buffer's operations can raise. */
  datatype Error = KeyError | ValueError

  /** `buffer_capacity`, `episode_limit`, the two counters and the slot dict. */
  datatype Buffer<V> = Buffer(
    capacity: int,
    episodeLimit: int,
    episodeRecord: nat,
    storeIndex: int,
    slots: map<int, seq<Experience<V>>>)

  /** What `sample` returns: the position-to-key dict, the prepared batch and
      the sampled slot indices. */
  datatype Sampled<V> = Sampled(keys: map<int, string>, batch: seq<seq<seq<V>>>, bufferIndex: seq<int>)

  function Max0(n: int): nat {
    if n > 0 then n else 0
  }

  function Min(a: int, b: int): int {
    if a < b then a else b
  }

  predicate Distinct(p: seq<int>) {
    forall i, j :: 0 <= i < j < |p| ==> p[i] != p[j]
  }

  /** The state every buffer is in: one slot per index below the capacity, and
      the write position is the record count modulo the capacity. A buffer
      built with no room has never accepted an episode. */
  ghost predicate Valid<V>(b: Buffer<V>) {
    && (forall s :: s in b.slots <==> 0 <= s < b.capacity)
    && (b.capacity > 0 ==> b.storeIndex == b.episodeRecord % b.capacity)
    && (b.capacity <= 0 ==> b.episodeRecord == 0 && b.storeIndex == 0)
  }

  /** `experience(0, 0, 0, 0)`, with `zero` standing for the field value 0. */
  function Placeholder<V>(zero: V): Experience<V> {
    Experience(zero, zero, zero, zero)
  }

  /** The inner loop of the constructor: `episodeLimit` placeholders. */
  function Placeholders<V>(episodeLimit: int, zero: V): (r: seq<Experience<V>>)
    ensures |r| == Max0(episodeLimit)
    ensures forall i :: 0 <= i < |r| ==> r[i] == Placeholder(zero)
    decreases episodeLimit
  {
    if episodeLimit <= 0 then [] else Placeholders(episodeLimit - 1, zero) + [Placeholder(zero)]
  }

  /** The outer loop of the constructor: slots `0 .. capacity - 1`, each filled with placeholders. */
  function InitialSlots<V>(capacity: int, episodeLimit: int, zero: V): (m: map<int, seq<Experience<V>>>)
    ensures forall s :: s in m <==> 0 <= s < capacity
    ensures forall s :: s in m ==> m[s] == Placeholders(episodeLimit, zero)
    decreases capacity
  {
    if capacity <= 0 then map[]
    else InitialSlots(capacity - 1, episodeLimit, zero)[capacity - 1 := Placeholders(episodeLimit, zero)]
  }

  /** `Buffer(capacity, episode_limit)`. */
  function Init<V>(capacity: int, episodeLimit: int, zero: V): (b: Buffer<V>)
    ensures Valid(b)
    ensures b.capacity == capacity && b.episodeLimit == episodeLimit
    ensures b.episodeRecord == 0 && b.storeIndex == 0
    ensures forall s :: s in b.slots ==> |b.slots[s]| == Max0(episodeLimit)
    ensures forall s, i :: s in b.slots && 0 <= i < |b.slots[s]| ==> b.slots[s][i] == Placeholder(zero)
  {
    Buffer(capacity, episodeLimit, 0, 0, InitialSlots(capacity, episodeLimit, zero))
  }

  /** `add(trajectory)`: overwrite the slot at the write position and advance
      the counters. With no slot at that position the dict lookup raises. */
  function Add<V>(b: Buffer<V>, trajectory: seq<Experience<V>>): (r: Result<Buffer<V>, Error>)
    requires Valid(b)
    ensures r.Err? <==> b.capacity <= 0
    ensures r.Err? ==> r.error == KeyError
    ensures r.Ok? ==> Valid(r.value)
    ensures r.Ok? ==> r.value.capacity == b.capacity && r.value.episodeLimit == b.episodeLimit
    ensures r.Ok? ==> r.value.episodeRecord == b.episodeRecord + 1
    ensures r.Ok? ==> 0 <= r.value.storeIndex < b.capacity
    ensures r.Ok? ==> b.storeIndex in r.value.slots && r.value.slots[b.storeIndex] == trajectory
    ensures r.Ok? ==> forall s :: s in r.value.slots <==> s in b.slots
    ensures r.Ok? ==> forall s :: s in b.slots && s != b.storeIndex ==> r.value.slots[s] == b.slots[s]
  {
    if b.storeIndex !in b.slots then Err(KeyError)
    else
      var record := b.episodeRecord + 1;
      Ok(b.(slots := b.slots[b.storeIndex := trajectory],
            episodeRecord := record,
            storeIndex := record % b.capacity))
  }

  /** A run of `add` calls, one per trajectory, in order; the first failure stops the run. */
  function AddAll<V>(b: Buffer<V>, trajectories: seq<seq<Experience<V>>>): (r: Result<Buffer<V>, Error>)
    requires Valid(b)
    ensures r.Err? <==> b.capacity <= 0 && |trajectories| > 0
    ensures r.Ok? ==> Valid(r.value)
    ensures r.Ok? ==> r.value.capacity == b.capacity && r.value.episodeLimit == b.episodeLimit
    ensures r.Ok? ==> r.value.episodeRecord == b.episodeRecord + |trajectories|
    decreases |trajectories|
  {
    if |trajectories| == 0 then Ok(b)
    else
      match AddAll(b, trajectories[..|trajectories| - 1])
      case Err(e) => Err(e)
      case Ok(b') => Add(b', trajectories[|trajectories| - 1])
  }

  /** The ring after the trajectories `added` went, in order, into a buffer
      whose slots all started out holding `initial`: the record counts the adds,
      each of the last `capacity` trajectories sits in the slot given by its
      counter modulo the capacity, and the slots never reached still hold `initial`. */
  ghost predicate Remembers<V>(b: Buffer<V>, added: seq<seq<Experience<V>>>, initial: seq<Experience<V>>) {
    && b.capacity > 0
    && b.episodeRecord == |added|
    && (forall k :: 0 <= k < |added| && |added| - b.capacity <= k ==>
          k % b.capacity in b.slots && b.slots[k % b.capacity] == added[k])
    && (forall s :: |added| <= s < b.capacity ==> s in b.slots && b.slots[s] == initial)
  }

  /** A new buffer with room has seen nothing and holds placeholders everywhere. */
  lemma InitRemembers<V>(capacity: int, episodeLimit: int, zero: V)
    requires capacity > 0
    ensures Remembers(Init(capacity, episodeLimit, zero), [], Placeholders(episodeLimit, zero))
  {
  }

  /** `add` keeps the ring: the new trajectory lands at the old write position,
      which is either a slot never reached or the slot of the trajectory that
      has just dropped out of the last `capacity`. */
  lemma AddRemembers<V>(b: Buffer<V>, added: seq<seq<Experience<V>>>, initial: seq<Experience<V>>,
                        trajectory: seq<Experience<V>>)
    requires Valid(b) && Remembers(b, added, initial)
    ensures Add(b, trajectory).Ok?
    ensures Remembers(Add(b, trajectory).value, added + [trajectory], initial)
  {
    var r := Add(b, trajectory).value;
    var added' := added + [trajectory];
    var n := |added'|;
    var c := b.capacity;
    forall k | 0 <= k < n && n - c <= k
      ensures k % c in r.slots && r.slots[k % c] == added'[k]
    {
      if k < n - 1 {
        RingArith.ModApart(k, n - 1, c);
        assert r.slots[k % c] == b.slots[k % c];
      }
    }
    forall s | n <= s < c
      ensures s in r.slots && r.slots[s] == initial
    {
      RingArith.ModOfSmall(n - 1, c);
      assert r.slots[s] == b.slots[s];
    }
  }

  /** Any run of adds to a new buffer with room succeeds and leaves it in the
      ring described by `Remembers`, its write position at the count modulo the capacity. */
  lemma {:induction false} RingContents<V>(capacity: int, episodeLimit: int, zero: V,
                                           trajectories: seq<seq<Experience<V>>>)
    requires capacity > 0
    ensures AddAll(Init(capacity, episodeLimit, zero), trajectories).Ok?
    ensures var b := AddAll(Init(capacity, episodeLimit, zero), trajectories).value;
      && b.storeIndex == |trajectories| % capacity
      && Remembers(b, trajectories, Placeholders(episodeLimit, zero))
    decreases |trajectories|
  {
    var n := |trajectories|;
    var b0 := Init(capacity, episodeLimit, zero);
    if n == 0 {
      InitRemembers(capacity, episodeLimit, zero);
    } else {
      var prefix := trajectories[..n - 1];
      RingContents(capacity, episodeLimit, zero, prefix);
      var p := AddAll(b0, prefix).value;
      AddRemembers(p, prefix, Placeholders(episodeLimit, zero), trajectories[n - 1]);
      assert prefix + [trajectories[n - 1]] == trajectories;
    }
  }

  /** Before the buffer wraps, slot `i` holds the `i`-th trajectory added:
      slots fill in order and nothing is overwritten. */
  lemma FillsInOrder<V>(b: Buffer<V>, added: seq<seq<Experience<V>>>, initial: seq<Experience<V>>)
    requires Remembers(b, added, initial) && |added| <= b.capacity
    ensures forall i :: 0 <= i < |added| ==> i in b.slots && b.slots[i] == added[i]
  {
    forall i | 0 <= i < |added|
      ensures i in b.slots && b.slots[i] == added[i]
    {
      RingArith.ModOfSmall(i, b.capacity);
      assert b.slots[i % b.capacity] == added[i];
    }
  }

  /** Once `capacity` or more episodes have been added, the slot the next add
      writes holds the oldest episode still stored. */
  lemma OverwritesOldest<V>(b: Buffer<V>, added: seq<seq<Experience<V>>>, initial: seq<Experience<V>>)
    requires Valid(b) && Remembers(b, added, initial) && b.capacity <= |added|
    ensures b.storeIndex in b.slots && b.slots[b.storeIndex] == added[|added| - b.capacity]
  {
    RingArith.ModAfterWrap(|added| - b.capacity, b.capacity);
  }

  /** `list(range(n))`, the slot indices in the order the constructor inserted them. */
  function Range(n: int): (r: seq<int>)
    ensures |r| == Max0(n)
    ensures forall i :: 0 <= i < |r| ==> r[i] == i
    decreases n
  {
    if n <= 0 then [] else Range(n - 1) + [n - 1]
  }

  /** The indices `sample` draws from: the filled prefix before the buffer
      wraps, every slot afterwards. */
  function Pool<V>(b: Buffer<V>): (pool: seq<int>)
    ensures |pool| == if b.episodeRecord < b.capacity then b.episodeRecord else Max0(b.capacity)
    ensures forall i :: 0 <= i < |pool| ==> pool[i] == i
  {
    if b.episodeRecord < b.capacity then Range(b.capacity)[0..b.episodeRecord] else Range(b.capacity)
  }

  /** The `size` argument `sample` passes to the random choice. */
  function DrawSize<V>(b: Buffer<V>, batchSize: int): (size: int)
    ensures size <= batchSize
    ensures b.episodeRecord >= b.capacity ==> size == batchSize
    ensures b.episodeRecord < b.capacity ==> size <= b.episodeRecord
    ensures b.episodeRecord < b.capacity ==> size == batchSize || size == b.episodeRecord
  {
    if b.episodeRecord < b.capacity then
      if b.episodeRecord < batchSize then b.episodeRecord else batchSize
    else batchSize
  }

  /** Drawing at distinct positions never yields a value more often than
      the pool holds it; from a duplicate-free pool the draw is duplicate-free. */
  lemma {:induction false} DistinctCount(p: seq<int>, x: int)
    requires Distinct(p)
    ensures multiset(p)[x] <= 1
    decreases |p|
  {
    if |p| > 0 {
      var q := p[..|p| - 1];
      assert p == q + [p[|p| - 1]];
      DistinctCount(q, x);
      if x == p[|p| - 1] {
        assert x !in q;
      }
    }
  }

  lemma DrawFromDistinct(picked: seq<int>, pool: seq<int>)
    requires Distinct(pool)
    requires multiset(picked) <= multiset(pool)
    ensures Distinct(picked)
    ensures forall i :: 0 <= i < |picked| ==> picked[i] in pool
  {
    forall i | 0 <= i < |picked|
      ensures picked[i] in pool
    {
      assert picked[i] in multiset(picked);
    }
    forall i, j | 0 <= i < j < |picked|
      ensures picked[i] != picked[j]
    {
      if picked[i] == picked[j] {
        var x := picked[i];
        assert picked == picked[..j] + [x] + picked[j + 1..];
        assert x in picked[..j];
        assert multiset(picked)[x] >= multiset(picked[..j])[x] + 1;
        DistinctCount(pool, x);
        assert false;
      }
    }
  }

  /** A draw from `0 .. |pool| - 1` is duplicate-free and stays in that range. */
  lemma DrawFromRange(picked: seq<int>, pool: seq<int>)
    requires forall i :: 0 <= i < |pool| ==> pool[i] == i
    requires multiset(picked) <= multiset(pool)
    ensures Distinct(picked)
    ensures forall i :: 0 <= i < |picked| ==> 0 <= picked[i] < |pool|
  {
    DrawFromDistinct(picked, pool);
    forall i | 0 <= i < |picked|
      ensures 0 <= picked[i] < |pool|
    {
      var k :| 0 <= k < |pool| && pool[k] == picked[i];
    }
  }

  /** `np.random.choice(pool, size, replace=False)`: draws `size` entries at
      distinct positions of `pool`, each picked arbitrarily among those left.
      A negative size, or more than the pool holds, raises. */
  method Choose(pool: seq<int>, size: int) returns (r: Result<seq<int>, Error>)
    ensures r.Err? <==> size < 0 || size > |pool|
    ensures r.Err? ==> r.error == ValueError
    ensures r.Ok? ==> |r.value| == size && multiset(r.value) <= multiset(pool)
  {
    if size < 0 || size > |pool| {
      return Err(ValueError);
    }
    var picked: seq<int> := [];
    var remaining := pool;
    while |picked| < size
      invariant |picked| <= size
      invariant |picked| + |remaining| == |pool|
      invariant multiset(picked) + multiset(remaining) == multiset(pool)
      decreases size - |picked|
    {
      var j :| 0 <= j < |remaining|;
      var x := remaining[j];
      assert remaining == remaining[..j] + [x] + remaining[j + 1..];
      picked := picked + [x];
      remaining := remaining[..j] + remaining[j + 1..];
    }
    return Ok(picked);
  }

  /** The loop over the drawn indices keeps three accumulators that do not
      depend on one another; each is written here as its own function of the
      number `n` of rounds done. */

  /** `buffer_index` after `n` rounds: each drawn index appended in turn. */
  function DrawIndex(picked: seq<int>, n: nat): (index: seq<int>)
    requires n <= |picked|
    ensures |index| == n
  {
    if n == 0 then [] else DrawIndex(picked, n - 1) + [picked[n - 1]]
  }

  /** `keys` after `n` rounds: entry `i` set to the `i`-th round's key. */
  function DrawKeys(picked: seq<int>, n: nat): (keys: map<int, string>)
    requires n <= |picked|
    requires forall i :: 0 <= i < |picked| ==> 0 <= picked[i]
    ensures forall i :: i in keys ==> 0 <= i < n
  {
    if n == 0 then map[] else DrawKeys(picked, n - 1)[n - 1 := KeyName(picked[n - 1], n - 1)]
  }

  /** `batch` after `n` rounds: the `i`-th round assigns the episode of the
      `i`-th drawn slot to that round's key. */
  function DrawBatch<V>(b: Buffer<V>, picked: seq<int>, n: nat): (batch: seq<(string, seq<Experience<V>>)>)
    requires n <= |picked|
    requires forall i :: 0 <= i < |picked| ==> 0 <= picked[i] && picked[i] in b.slots
    ensures |batch| <= n
  {
    if n == 0 then []
    else Insert(DrawBatch(b, picked, n - 1), KeyName(picked[n - 1], n - 1), b.slots[picked[n - 1]])
  }

  /** `buffer_index` is the drawn sequence itself, in drawing order. */
  lemma {:induction false} DrawIndexIsDraw(picked: seq<int>, n: nat)
    requires n <= |picked|
    ensures DrawIndex(picked, n) == picked[..n]
    decreases n
  {
    if n > 0 {
      DrawIndexIsDraw(picked, n - 1);
      assert picked[..n] == picked[..n - 1] + [picked[n - 1]];
    }
  }

  /** The `keys` dict maps exactly the positions `0 .. n - 1`, position `i`
      to the key naming the `i`-th drawn slot. */
  lemma {:induction false} DrawKeysNamePositions(picked: seq<int>, n: nat)
    requires n <= |picked|
    requires forall i :: 0 <= i < |picked| ==> 0 <= picked[i]
    ensures forall i :: i in DrawKeys(picked, n) <==> 0 <= i < n
    ensures forall i :: 0 <= i < n ==> DrawKeys(picked, n)[i] == KeyName(picked[i], i)
    decreases n
  {
    if n > 0 {
      DrawKeysNamePositions(picked, n - 1);
      var keys := DrawKeys(picked, n - 1);
      var keys' := DrawKeys(picked, n);
      forall i
        ensures i in keys' <==> 0 <= i < n
      {
        assert i in keys' <==> i == n - 1 || i in keys;
      }
    }
  }

  /** The batch dict the first `n` rounds should produce: one entry per drawn
      index, keyed by its slot and position, in drawing order. */
  function Entries<V>(b: Buffer<V>, picked: seq<int>, n: nat): seq<(string, seq<Experience<V>>)>
    requires n <= |picked|
    requires forall i :: 0 <= i < |picked| ==> 0 <= picked[i] && picked[i] in b.slots
  {
    seq(n, i requires 0 <= i < n => (KeyName(picked[i], i), b.slots[picked[i]]))
  }

  /** No two keys coincide, so the batch dict holds every drawn episode under
      its own key, in drawing order. */
  lemma {:induction false} DrawBatchEntries<V>(b: Buffer<V>, picked: seq<int>, n: nat)
    requires n <= |picked|
    requires forall i :: 0 <= i < |picked| ==> 0 <= picked[i] && picked[i] in b.slots
    ensures DrawBatch(b, picked, n) == Entries(b, picked, n)
    decreases n
  {
    if n > 0 {
      DrawBatchEntries(b, picked, n - 1);
      EntriesGrow(b, picked, n);
      InsertNew(Entries(b, picked, n - 1), KeyName(picked[n - 1], n - 1), b.slots[picked[n - 1]]);
    }
  }

  /** One more round adds one entry, under a key not used before. */
  lemma EntriesGrow<V>(b: Buffer<V>, picked: seq<int>, n: nat)
    requires 0 < n <= |picked|
    requires forall i :: 0 <= i < |picked| ==> 0 <= picked[i] && picked[i] in b.slots
    ensures KeyName(picked[n - 1], n - 1) !in KeysOf(Entries(b, picked, n - 1))
    ensures Entries(b, picked, n) ==
              Entries(b, picked, n - 1) + [(KeyName(picked[n - 1], n - 1), b.slots[picked[n - 1]])]
  {
    var prior := Entries(b, picked, n - 1);
    FreshKey(picked, prior);
  }

  /** The key of the next drawn index is not yet in the batch dict. */
  lemma FreshKey<T>(picked: seq<int>, d: seq<(string, T)>)
    requires |d| < |picked|
    requires forall i :: 0 <= i < |picked| ==> 0 <= picked[i]
    requires forall i :: 0 <= i < |d| ==> d[i].0 == KeyName(picked[i], i)
    ensures KeyName(picked[|d|], |d|) !in KeysOf(d)
  {
    var n := |d|;
    forall i | 0 <= i < n
      ensures KeysOf(d)[i] != KeyName(picked[n], n)
    {
      assert KeysOf(d)[i] == KeyName(picked[i], i);
      KeyNameInjective(picked[i], i, picked[n], n);
    }
  }

  /** The episodes stored at the given slots, in the given order. */
  function EpisodesAt<V>(b: Buffer<V>, picked: seq<int>): (episodes: seq<seq<Experience<V>>>)
    requires forall i :: 0 <= i < |picked| ==> picked[i] in b.slots
  {
    seq(|picked|, i requires 0 <= i < |picked| => b.slots[picked[i]])
  }

  /** The loop over the drawn indices followed by `PreperationBatch`: the part
      of `sample` that is fixed once the indices are drawn. */
  function Gather<V>(b: Buffer<V>, picked: seq<int>): (s: Sampled<V>)
    requires forall i :: 0 <= i < |picked| ==> 0 <= picked[i] && picked[i] in b.slots
    ensures s.bufferIndex == picked
    ensures forall i :: i in s.keys <==> 0 <= i < |picked|
    ensures forall i :: 0 <= i < |picked| ==> s.keys[i] == KeyName(picked[i], i)
    ensures SplitsInto(s.batch, EpisodesAt(b, picked))
  {
    var n := |picked|;
    DrawIndexIsDraw(picked, n);
    DrawKeysNamePositions(picked, n);
    DrawBatchEntries(b, picked, n);
    assert picked[..n] == picked;
    var batch := DrawBatch(b, picked, n);
    assert ValuesOf(batch) == EpisodesAt(b, picked);
    Sampled(DrawKeys(picked, n), PrepareBatch(batch), DrawIndex(picked, n))
  }

  /** `sample(batch_size)`: a random draw of distinct slot indices, then `Gather`. */
  method Sample<V>(b: Buffer<V>, batchSize: int) returns (r: Result<Sampled<V>, Error>)
    requires Valid(b)
    ensures r.Err? <==> batchSize < 0 || (b.episodeRecord >= b.capacity && batchSize > Max0(b.capacity))
    ensures r.Err? ==> r.error == ValueError
    ensures r.Ok? ==> Distinct(r.value.bufferIndex)
    ensures r.Ok? && b.episodeRecord < b.capacity ==>
              |r.value.bufferIndex| == Min(b.episodeRecord, batchSize)
              && forall i :: 0 <= i < |r.value.bufferIndex| ==> 0 <= r.value.bufferIndex[i] < b.episodeRecord
    ensures r.Ok? && b.episodeRecord >= b.capacity ==>
              |r.value.bufferIndex| == batchSize
              && forall i :: 0 <= i < |r.value.bufferIndex| ==> 0 <= r.value.bufferIndex[i] < b.capacity
    ensures r.Ok? ==>
              && (forall i :: 0 <= i < |r.value.bufferIndex| ==> 0 <= r.value.bufferIndex[i] && r.value.bufferIndex[i] in b.slots)
              && r.value == Gather(b, r.value.bufferIndex)
  {
    var pool := Pool(b);
    var drawn := Choose(pool, DrawSize(b, batchSize));
    if drawn.Err? {
      return Err(drawn.error);
    }
    var picked := drawn.value;
    DrawFromRange(picked, pool);
    r := Ok(Gather(b, picked));
  }

  /** `len(buffer)`: the write position, which counts the episodes added only
      until the buffer first wraps. */
  function Len<V>(b: Buffer<V>): (r: int)
    requires Valid(b)
    ensures b.capacity > 0 ==> 0 <= r < b.capacity
    ensures r == b.episodeRecord <==> b.episodeRecord < b.capacity || b.capacity <= 0
    ensures b.capacity > 0 ==> r == b.episodeRecord % b.capacity
  {
    if b.capacity > 0 && b.episodeRecord < b.capacity then
      RingArith.ModOfSmall(b.episodeRecord, b.capacity);
      b.storeIndex
    else
      b.storeIndex
  }

  /** `len` counts the adds only up to the capacity: a buffer that has taken
      exactly `capacity` episodes, and so holds no placeholder, reports 0. */
  lemma LenWrapsToZero<V>(b: Buffer<V>, added: seq<seq<Experience<V>>>, initial: seq<Experience<V>>)
    requires Valid(b) && Remembers(b, added, initial) && |added| == b.capacity
    ensures Len(b) == 0
    ensures forall s :: 0 <= s < b.capacity ==> s in b.slots && b.slots[s] == added[s]
  {
    FillsInOrder(b, added, initial);
  }
}
