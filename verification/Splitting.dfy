/** The integer weighted splitter: request `index` of a route with weight `percent`. */
module Splitting {

  datatype Track = Canary | Stable

  function ChooseTrack(index: nat, percent: nat): Track {
    if index * percent % 100 + percent >= 100 then Canary else Stable
  }

  function Canaries(picks: seq<Track>): nat {
    if picks == [] then 0 else Canaries(picks[..|picks| - 1]) + (if picks[|picks| - 1].Canary? then 1 else 0)
  }

  /** The choices made for the first requests after a weight was set. */
  ghost predicate Split(picks: seq<Track>, percent: nat) {
    forall i :: 0 <= i < |picks| ==> picks[i] == ChooseTrack(i, percent)
  }

  /** Adding p to x carries into the next hundred exactly when the remainders say so. */
  lemma Carry(x: nat, p: nat)
    requires p <= 100
    ensures (x + p) / 100 == x / 100 + if x % 100 + p >= 100 then 1 else 0
  {
  }

  /** The first n requests send exactly floor(n * percent / 100) to the canary. */
  lemma {:induction false} PrefixIsExact(picks: seq<Track>, percent: nat)
    requires percent <= 100 && Split(picks, percent)
    ensures Canaries(picks) == |picks| * percent / 100
  {
    if picks == [] {
      assert 0 * percent == 0;
    } else {
      var n := |picks| - 1;
      PrefixIsExact(picks[..n], percent);
      assert |picks| * percent == n * percent + percent;
      Carry(n * percent, percent);
    }
  }

  lemma {:induction false} CanariesAdd(a: seq<Track>, b: seq<Track>)
    ensures Canaries(a + b) == Canaries(a) + Canaries(b)
  {
    if b == [] {
      assert a + b == a;
    } else {
      assert (a + b)[..|a + b| - 1] == a + b[..|b| - 1];
      CanariesAdd(a, b[..|b| - 1]);
    }
  }

  /** Every window of n requests is less than one request away from its share; a window of 100 is exact. */
  lemma WindowIsFair(picks: seq<Track>, percent: nat, from: nat, n: nat)
    requires percent <= 100 && Split(picks, percent) && from + n <= |picks|
    ensures var c := Canaries(picks[from..from + n]);
            && n * percent - 100 < 100 * c < n * percent + 100
            && (n == 100 ==> c == percent)
  {
    PrefixIsExact(picks[..from], percent);
    PrefixIsExact(picks[..from + n], percent);
    assert picks[..from + n] == picks[..from] + picks[from..from + n];
    CanariesAdd(picks[..from], picks[from..from + n]);
    hide Split;
    Share(from, n, percent, Canaries(picks[from..from + n]));
  }

  lemma Share(from: nat, n: nat, percent: nat, c: int)
    requires c == (from + n) * percent / 100 - from * percent / 100
    ensures n * percent - 100 < 100 * c < n * percent + 100
    ensures n == 100 ==> c == percent
  {
    var x, d := from * percent, n * percent;
    assert (from + n) * percent == x + d;
    Difference(x, d);
    if n == 100 {
      assert d == 100 * percent;
    }
  }

  lemma Difference(x: nat, d: nat)
    ensures d - 100 < 100 * ((x + d) / 100 - x / 100) < d + 100
    ensures d % 100 == 0 ==> 100 * ((x + d) / 100 - x / 100) == d
  {
  }

  /** Weight 0 never picks the canary and weight 100 always does. */
  lemma ExtremesAreConstant(index: nat)
    ensures ChooseTrack(index, 0).Stable? && ChooseTrack(index, 100).Canary?
  {
    assert index * 0 == 0;
  }
}
