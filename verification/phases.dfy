/** The two phases of a traffic light and the toggle between them. */
module Phases {

  /** TrafficLightPhase: exactly the two values red and green. */
  datatype Phase = Red | Green

  /** The phase a light switches to; the if/else-if of the cycle loop covers both values. */
  function Toggle(p: Phase): (q: Phase)
    ensures q != p
  {
    match p
    case Red => Green
    case Green => Red
  }

  /** Toggling twice is the identity: two transitions restore the phase. */
  lemma ToggleTwice(p: Phase)
    ensures Toggle(Toggle(p)) == p
  {
  }

  /** The phase reached from `first` after `n` toggles. */
  function PhaseAfter(first: Phase, n: nat): Phase
  {
    if n % 2 == 0 then first else Toggle(first)
  }

  /** One more toggle moves one step further along the alternation. */
  lemma PhaseAfterNext(first: Phase, n: nat)
    ensures PhaseAfter(first, n + 1) == Toggle(PhaseAfter(first, n))
    ensures PhaseAfter(Toggle(first), n) == PhaseAfter(first, n + 1)
  {
    ToggleTwice(first);
  }

  /** `xs` strictly alternates, starting with `first`. */
  ghost predicate AlternatesFrom(first: Phase, xs: seq<Phase>)
  {
    forall i :: 0 <= i < |xs| ==> xs[i] == PhaseAfter(first, i)
  }

  /** The last element of a non-empty sequence of phases. */
  function Last(xs: seq<Phase>): Phase
    requires xs != []
  {
    xs[|xs| - 1]
  }
}
