/** Episode records and `PreperationBatch`: splitting sampled episodes into
    one sequence per field. */
module Batch {
  import opened OrderedDict

  /** One transition, with the fields in the order the record declares them. */
  datatype Experience<V> = Experience(obs: V, done: V, reward: V, actionOnehot: V)

  datatype Field = Obs | ActionOnehot | Reward | Done

  /** The order in which the prepared batch lists the fields; it is not the
      record's declaration order. */
  const OutputOrder: seq<Field> := [Obs, ActionOnehot, Reward, Done]

  function Project<V>(e: Experience<V>, f: Field): V {
    match f
    case Obs => e.obs
    case ActionOnehot => e.actionOnehot
    case Reward => e.reward
    case Done => e.done
  }

  /** The per-episode loop: one field of every transition, in transition order. */
  function Column<V>(episode: seq<Experience<V>>, f: Field): (r: seq<V>)
    ensures |r| == |episode|
    ensures forall t :: 0 <= t < |r| ==> r[t] == Project(episode[t], f)
  {
    if |episode| == 0 then []
    else Column(episode[..|episode| - 1], f) + [Project(episode[|episode| - 1], f)]
  }

  /** The per-batch loop: one column per episode, in episode order. */
  function Stack<V>(episodes: seq<seq<Experience<V>>>, f: Field): (r: seq<seq<V>>)
    ensures |r| == |episodes|
    ensures forall j :: 0 <= j < |r| ==> |r[j]| == |episodes[j]|
    ensures forall j, t :: 0 <= j < |r| && 0 <= t < |r[j]| ==> r[j][t] == Project(episodes[j][t], f)
  {
    if |episodes| == 0 then []
    else Stack(episodes[..|episodes| - 1], f) + [Column(episodes[|episodes| - 1], f)]
  }

  /** `r` lists, for each field in `OutputOrder`, that field of every
      transition of every episode, keeping episode and transition order. */
  ghost predicate SplitsInto<V>(r: seq<seq<seq<V>>>, episodes: seq<seq<Experience<V>>>) {
    && |r| == |OutputOrder|
    && (forall k :: 0 <= k < |r| ==> |r[k]| == |episodes|)
    && (forall k, j :: 0 <= k < |r| && 0 <= j < |episodes| ==> |r[k][j]| == |episodes[j]|)
    && (forall k, j, t :: 0 <= k < |r| && 0 <= j < |episodes| && 0 <= t < |episodes[j]| ==>
          r[k][j][t] == Project(episodes[j][t], OutputOrder[k]))
  }

  /** `PreperationBatch`: the episodes of the sampled batch, visited in the
      dict's insertion order, split into obs, action_onehot, reward and done. */
  function PrepareBatch<V>(input: seq<(string, seq<Experience<V>>)>): (r: seq<seq<seq<V>>>)
    ensures SplitsInto(r, ValuesOf(input))
  {
    var episodes := ValuesOf(input);
    var r := [Stack(episodes, Obs), Stack(episodes, ActionOnehot), Stack(episodes, Reward), Stack(episodes, Done)];
    assert forall k :: 0 <= k < |r| ==> r[k] == Stack(episodes, OutputOrder[k]);
    r
  }

  /** Shape of a prepared batch: four fields, each with the same episodes and lengths. */
  predicate WellShaped<V>(r: seq<seq<seq<V>>>) {
    && |r| == |OutputOrder|
    && (forall k :: 0 <= k < |r| ==> |r[k]| == |r[0]|)
    && (forall k, j :: 0 <= k < |r| && 0 <= j < |r[0]| ==> |r[k][j]| == |r[0][j]|)
  }

  /** Reassembles the transitions from the four field sequences of a prepared batch. */
  function Regroup<V>(r: seq<seq<seq<V>>>): (episodes: seq<seq<Experience<V>>>)
    requires WellShaped(r)
  {
    seq(|r[0]|, j requires 0 <= j < |r[0]| =>
      seq(|r[0][j]|, t requires 0 <= t < |r[0][j]| =>
        Experience(r[0][j][t], r[3][j][t], r[2][j][t], r[1][j][t])))
  }

  /** Splitting loses nothing and reorders nothing: a split batch has exactly
      one preimage, which regrouping recovers. */
  lemma RegroupSplit<V>(r: seq<seq<seq<V>>>, episodes: seq<seq<Experience<V>>>)
    requires SplitsInto(r, episodes)
    ensures WellShaped(r)
    ensures Regroup(r) == episodes
  {
    assert OutputOrder[0] == Obs && OutputOrder[1] == ActionOnehot;
    assert OutputOrder[2] == Reward && OutputOrder[3] == Done;
    forall k, j | 0 <= k < |r| && 0 <= j < |r[0]|
      ensures |r[k][j]| == |r[0][j]|
    {
      assert |r[k][j]| == |episodes[j]|;
    }
    var g := Regroup(r);
    forall j | 0 <= j < |episodes|
      ensures g[j] == episodes[j]
    {
      forall t | 0 <= t < |episodes[j]|
        ensures g[j][t] == episodes[j][t]
      {
        assert r[0][j][t] == episodes[j][t].obs;
        assert r[1][j][t] == episodes[j][t].actionOnehot;
        assert r[2][j][t] == episodes[j][t].reward;
        assert r[3][j][t] == episodes[j][t].done;
      }
    }
  }
}
