/** Generation and revision counters of a resource. */
module Generation {
  import opened Common

  datatype AdvanceError = NotIncrementing(current: u64, desired: u64)

  datatype Counters = Counters(generation: u64, revision: u64)

  predicate TouchesSpec(paths: set<string>) {
    exists p :: p in paths && StartsWith(p, ".spec")
  }

  /** What `advance_from` leaves behind and answers: `own` are the counters of the new state,
      `current` those of the stored one. */
  function Advanced(own: Counters, paths: set<string>, current: Counters): (Counters, Result<u64, AdvanceError>) {
    var revision := Increment(current.revision);
    var generation := if TouchesSpec(paths) then Increment(current.generation) else current.generation;
    var result := if own.revision < revision then Ok(revision) else Err(NotIncrementing(own.revision, revision));
    var after := if result.Ok? then own.(revision := revision) else own;
    if own.generation <= generation then (after.(generation := generation), result)
    else (after, Err(NotIncrementing(own.generation, generation)))
  }

  class Versioned {
    var generation: u64
    var revision: u64

    constructor (counters: Counters)
      ensures Value() == counters
    {
      generation, revision := counters.generation, counters.revision;
    }

    function Value(): Counters
      reads this
    {
      Counters(generation, revision)
    }

    /** The generation may stay the same, but not decrease. */
    method SetGeneration(desired: u64) returns (r: Result<u64, AdvanceError>)
      modifies this
      ensures revision == old(revision)
      ensures if old(generation) <= desired then r == Ok(desired) && generation == desired
              else r == Err(NotIncrementing(old(generation), desired)) && generation == old(generation)
    {
      if generation <= desired {
        generation := desired;
        r := Ok(desired);
      } else {
        r := Err(NotIncrementing(generation, desired));
      }
    }

    /** The revision must always increment. */
    method SetRevision(desired: u64) returns (r: Result<u64, AdvanceError>)
      modifies this
      ensures generation == old(generation)
      ensures if old(revision) < desired then r == Ok(desired) && revision == desired
              else r == Err(NotIncrementing(old(revision), desired)) && revision == old(revision)
    {
      if revision < desired {
        revision := desired;
        r := Ok(desired);
      } else {
        r := Err(NotIncrementing(revision, desired));
      }
    }

    method AdvanceFrom(paths: seq<string>, current: Counters) returns (r: Result<u64, AdvanceError>)
      modifies this
      ensures (Value(), r) == Advanced(old(Value()), Elements(paths), current)
    {
      var result := SetRevision(Increment(current.revision));
      var changed := false;
      for i := 0 to |paths|
        invariant !changed && generation == old(generation)
        invariant forall j :: 0 <= j < i ==> !StartsWith(paths[j], ".spec")
        invariant result.Ok? ==> revision == Increment(current.revision)
        invariant result.Err? ==> revision == old(revision)
      {
        if StartsWith(paths[i], ".spec") {
          assert paths[i] in Elements(paths);
          var g := SetGeneration(Increment(current.generation));
          if g.Err? {
            return g;
          }
          changed := true;
          break;
        }
      }
      if !changed {
        var g := SetGeneration(current.generation);
        if g.Err? {
          return g;
        }
      }
      r := result;
    }

    method AdvanceRevision() returns (r: Result<u64, AdvanceError>)
      modifies this
      ensures generation == old(generation)
      ensures if old(revision) + 1 < TWO_64 then r == Ok(old(revision) + 1) && revision == old(revision) + 1
              else r.Err? && revision == old(revision)
    {
      r := SetRevision(Increment(revision));
    }
  }

  /** Below the ends of `u64`, counters that do not run ahead advance by exactly one revision, and by
      one generation exactly when the specification changed. */
  lemma AdvancesByOne(own: Counters, paths: set<string>, current: Counters)
    requires own.revision <= current.revision < TWO_64 - 1
    requires own.generation <= current.generation < TWO_64 - 1
    ensures Advanced(own, paths, current) ==
      (Counters(current.generation + (if TouchesSpec(paths) then 1 else 0), current.revision + 1),
       Ok(current.revision + 1))
  {
  }

  /** Advancing succeeds exactly if neither counter runs ahead of what it should become. Whatever the outcome, no counter
      decreases. */
  lemma AdvancesOrFails(own: Counters, paths: set<string>, current: Counters)
    requires current.revision < TWO_64 - 1 && current.generation < TWO_64 - 1
    ensures var (after, r) := Advanced(own, paths, current);
      && (r.Ok? <==> own.revision <= current.revision
                     && own.generation <= current.generation + if TouchesSpec(paths) then 1 else 0)
      && own.revision <= after.revision && own.generation <= after.generation
      && (r.Ok? ==> after.revision == r.value == current.revision + 1)
  {
  }
}
