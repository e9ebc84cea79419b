/** `randint` and `choose` of src/lib/utils.ts. The value of `Math.random()`
    is a parameter `random` in [0, 1); arithmetic is on exact reals. */
module Random {
  import opened Wrappers

  /** `Math.floor(random * (max - min) + min)`: an integer in [min, max). */
  function RandInt(min: int, max: int, random: real): (r: int)
    requires 0.0 <= random < 1.0
    ensures min < max ==> min <= r < max
  {
    var span := (max - min) as real;
    assert min < max ==> random * span < span by {
      if min < max {
        assert (1.0 - random) * span > 0.0;
      }
    }
    (random * span + min as real).Floor
  }

  /** `choose`: none for no choices, otherwise the choice at a drawn index. */
  function Choose<T>(choices: seq<T>, random: real): (r: Option<T>)
    requires 0.0 <= random < 1.0
    ensures r.None? <==> |choices| == 0
    ensures r.Some? ==> r.value in choices
  {
    if |choices| == 0 then None
    else
      var index := RandInt(0, |choices|, random);
      Some(choices[index])
  }

  /** Every choice can be drawn: for each index some value of the random
      source yields it. */
  lemma ChooseReachesEveryIndex<T>(choices: seq<T>, i: int)
    requires 0 <= i < |choices|
    ensures var random := i as real / |choices| as real;
            0.0 <= random < 1.0 && Choose(choices, random) == Some(choices[i])
  {
    var n := |choices| as real;
    var random := i as real / n;
    assert random * n == i as real;
    assert 0.0 <= random < 1.0;
    assert (random * n + 0 as real).Floor == i;
  }
}
