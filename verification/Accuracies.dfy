/** The accuracy of an approximate search. A point is out of reach of a bound when its distance,
    scaled by epsError = 1 + eps, is; equivalently, when its distance reaches the bound divided by it. */
module Accuracies {

  datatype Accuracy = Accuracy(up: real -> real, down: real -> real) {

    /** Scaling never brings a distance nearer, and up and down agree on what is below a bound. */
    ghost predicate Lawful() {
      && (forall x :: x >= 0.0 ==> up(x) >= x)
      && (forall x, t :: x < down(t) <==> up(x) < t)
    }
  }

  function Times(epsError: real): Accuracy
    requires epsError >= 1.0
  {
    Accuracy((x: real) => x * epsError, (t: real) => t / epsError)
  }

  lemma TimesLawful(epsError: real)
    requires epsError >= 1.0
    ensures Times(epsError).Lawful()
  {
  }

  lemma TimesIs(epsError: real, x: real)
    requires epsError >= 1.0
    ensures Times(epsError).up(x) == epsError * x
  {
  }

  /** The pruning test rules out everything at least as far as the bound it scales. */
  lemma Prunes(epsError: real, bound: real, dist: real, worst: real)
    requires epsError >= 1.0 && bound <= dist && bound * epsError > worst
    ensures Times(epsError).up(dist) >= worst
  {
  }

  lemma AtLeast(a: Accuracy, dist: real, worst: real)
    requires a.Lawful() && dist >= 0.0 && dist >= worst
    ensures a.up(dist) >= worst
  {
  }

  /** Without eps, nothing is scaled. */
  lemma ExactTimes(x: real)
    ensures Times(1.0).up(x) == x && Times(1.0).down(x) == x
  {
  }

  lemma NothingScaled(epsError: real)
    requires epsError == 1.0
    ensures forall x: real :: Times(epsError).up(x) == x
  {
    forall x: real
      ensures Times(epsError).up(x) == x
    {
      ExactTimes(x);
    }
  }
}
