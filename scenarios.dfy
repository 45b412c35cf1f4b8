/**
 * Concrete runs on the seed data of the command-line driver (the "Largest Planet" question):
 * the four option orders that are asked, and the scores of a small set of answers.
 */
module Scenarios {
  import opened AnswerStore
  import opened OrderDependency
  import opened Analysis

  const Planets: seq<string> := ["Earth", "Mars", "Jupiter", "Saturn"]

  /** The four orders asked for "Largest Planet": rotation 2 starts at Jupiter. */
  lemma LargestPlanetSeries()
    ensures OptionSeries(Planets) == [
      ["Earth", "Mars", "Jupiter", "Saturn"],
      ["Mars", "Jupiter", "Saturn", "Earth"],
      ["Jupiter", "Saturn", "Earth", "Mars"],
      ["Saturn", "Earth", "Mars", "Jupiter"]]
  {
    forall r | 1 <= r < 4 ensures Shift(Planets, r) == Planets[r..] + Planets[..r] {
      ShiftIsRotation(Planets, r);
      ModUnique(r, 4, 0, r);
    }
    assert Planets[1..] + Planets[..1] == ["Mars", "Jupiter", "Saturn", "Earth"];
    assert Planets[2..] + Planets[..2] == ["Jupiter", "Saturn", "Earth", "Mars"];
    assert Planets[3..] + Planets[..3] == ["Saturn", "Earth", "Mars", "Jupiter"];
  }

  /** The four orders of "Largest Planet" are different lists, so their rows never share a key. */
  lemma LargestPlanetOrdersDiffer()
    ensures forall a, b :: 0 <= a < b < 4 ==> Shift(Planets, a) != Shift(Planets, b)
  {
    assert Planets[0] != Planets[1] && Planets[0] != Planets[2] && Planets[0] != Planets[3];
    assert Planets[1] != Planets[2] && Planets[1] != Planets[3] && Planets[2] != Planets[3];
    forall a, b | 0 <= a < b < 4 ensures Shift(Planets, a) != Shift(Planets, b) {
      DistinctRotations(Planets, a, b);
    }
  }

  /** Three of four orders agreeing on Jupiter give a consistency of 3/4. */
  lemma ThreeOfFourAgree()
    ensures Consistency(["Jupiter", "Jupiter", "Saturn", "Jupiter"]) == 0.75
  {
    var w := ["Jupiter", "Jupiter", "Saturn", "Jupiter"];
    assert "Jupiter" != "Saturn" by { assert "Jupiter"[0] != "Saturn"[0]; }
    ConsistencyMeaning(w);
    MaxValueIsTopMultiplicity(w);
    assert multiset(w)["Jupiter"] == 3;
    assert multiset(w)["Saturn"] == 1;
    forall x | x in w ensures multiset(w)[x] <= 3 { }
    assert MaxValue(Tally(w)) == 3;
  }
}
