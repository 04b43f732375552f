/** The batch keys `sample` builds, `"transition_" + str(slot) + "_idx_" + str(position)`,
    and a parser that recovers slot and position from such a key. */
module SampleKeys {
  import opened Outcomes
  import opened Decimal

  const Head: string := "transition_"
  const Separator: string := "_idx_"

  /** The key under which the episode of `slot`, drawn at `position`, enters the batch. */
  function KeyName(slot: nat, position: nat): (k: string)
    ensures |k| > |Head| && k[..|Head|] == Head
  {
    Head + FromNat(slot) + Separator + FromNat(position)
  }

  /** Reads a key of the `KeyName` shape back into its slot and position. */
  function ParseKey(k: string): Option<(nat, nat)> {
    if |k| < |Head| || k[..|Head|] != Head then None
    else
      var t := k[|Head|..];
      var n := DigitRun(t);
      var u := t[n..];
      if n == 0 || |u| < |Separator| || u[..|Separator|] != Separator then None
      else
        var w := u[|Separator|..];
        if |w| == 0 || !AllDigits(w) then None
        else Some((ToNat(t[..n]), ToNat(w)))
  }

  /** Every key `sample` builds parses back to the slot and position it encodes. */
  lemma ParseKeyName(slot: nat, position: nat)
    ensures ParseKey(KeyName(slot, position)) == Some((slot, position))
  {
    var a, b := FromNat(slot), FromNat(position);
    var k := KeyName(slot, position);
    assert k == Head + (a + (Separator + b));
    assert k[..|Head|] == Head;
    var t := k[|Head|..];
    assert t == a + (Separator + b);
    DigitRunOf(a, Separator + b);
    assert t[..|a|] == a;
    var u := t[|a|..];
    assert u == Separator + b;
    assert u[..|Separator|] == Separator;
    assert u[|Separator|..] == b;
    ToNatFromNat(slot);
    ToNatFromNat(position);
  }

  /** Distinct (slot, position) pairs give distinct keys. */
  lemma KeyNameInjective(slot: nat, position: nat, slot': nat, position': nat)
    ensures KeyName(slot, position) == KeyName(slot', position') ==> slot == slot' && position == position'
  {
    ParseKeyName(slot, position);
    ParseKeyName(slot', position');
  }
}
