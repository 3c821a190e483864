/**
 * Boosters: the weights a boosting director raises for the conflicts it
 * found hard. A never-boosted key weighs 1.0, and every boost multiplies
 * the key's weight by a fixed factor. The generic booster is keyed by the
 * conflict; the solver's booster is keyed by a conflict's resource and
 * uses the factor 1.05.
 */
module Boosters {
  import opened Common
  import Options

  /** A weight multiplied by a factor. */
  function Scaled(weight: real, factor: real): real
  {
    weight * factor
  }

  /** factor^k */
  function Power(factor: real, k: nat): real
  {
    if k == 0 then 1.0 else Scaled(Power(factor, k - 1), factor)
  }

  /** How many times `key` was boosted in `log`. */
  function Count<K(==)>(log: seq<K>, key: K): nat
  {
    if log == [] then 0
    else Count(log[..|log| - 1], key) + (if log[|log| - 1] == key then 1 else 0)
  }

  /** A key's weight in a weight map: 1.0 for a key the map lacks. */
  function WeightIn<K(==)>(weights: map<K, real>, key: K): real
  {
    if key in weights then weights[key] else 1.0
  }

  /** The weights after boosting the keys of `log`, in order, from an empty map. */
  function Boosted<K(==)>(factor: real, log: seq<K>): map<K, real>
  {
    if log == [] then map[]
    else
      var before := Boosted(factor, log[..|log| - 1]);
      var key := log[|log| - 1];
      before[key := Scaled(WeightIn(before, key), factor)]
  }

  /** After k boosts of a key its weight is factor^k, whatever else was boosted in between. */
  lemma {:induction false} BoostedWeight<K>(factor: real, log: seq<K>, key: K)
    ensures WeightIn(Boosted(factor, log), key) == Power(factor, Count(log, key))
    ensures key in Boosted(factor, log) <==> Count(log, key) > 0
  {
    if log != [] {
      BoostedWeight(factor, log[..|log| - 1], key);
    }
  }

  /** The generic booster, keyed by the conflict itself. */
  class SimpleBooster<K(==)> {
    const factor: real
    var boosts: map<K, real>
    ghost var log: seq<K>

    ghost predicate Valid()
      reads this
    {
      boosts == Boosted(factor, log)
    }

    constructor (factor: real)
      ensures Valid() && this.factor == factor && log == []
    {
      this.factor := factor;
      boosts := map[];
      log := [];
    }

    /** The weight of a conflict; factor^k after k boosts of it. */
    function GetBoost(key: K): (weight: real)
      requires Valid()
      reads this
      ensures weight == Power(factor, Count(log, key))
    {
      BoostedWeight(factor, log, key);
      WeightIn(boosts, key)
    }

    /** Multiplies the conflict's weight by the factor; every other weight stays. */
    method Boost(key: K)
      requires Valid()
      modifies this
      ensures Valid() && log == old(log) + [key]
      ensures boosts == old(boosts)[key := Scaled(old(GetBoost(key)), factor)]
    {
      boosts := boosts[key := Scaled(WeightIn(boosts, key), factor)];
      log := log + [key];
      assert log[..|log| - 1] == old(log);
    }
  }

  const ConflictFactor: real := 1.05

  /** The solver's booster, keyed by a conflict's resource. */
  class ConflictBooster {
    var boost: map<string, real>
    ghost var log: seq<string>

    ghost predicate Valid()
      reads this
    {
      boost == Boosted(ConflictFactor, log)
    }

    constructor ()
      ensures Valid() && log == []
    {
      boost := map[];
      log := [];
    }

    /** The weight of a resource; 1.05^k after k boosts of conflicts on it. */
    function GetBoost(resource: string): (weight: real)
      requires Valid()
      reads this
      ensures weight == Power(ConflictFactor, Count(log, resource))
    {
      BoostedWeight(ConflictFactor, log, resource);
      WeightIn(boost, resource)
    }

    /** A conflict has no weight of its own here: asking for one throws. */
    function GetConflictBoost(conflict: Options.Conflict): (weight: Outcome<real>)
      ensures weight.Thrown?
    {
      Thrown
    }

    /**
     * Multiplies the weight of the conflict's resource by 1.05; a
     * connection conflict, which has no resource, changes nothing.
     */
    method Boost(conflict: Options.Conflict)
      requires Valid()
      modifies this
      ensures Valid()
      ensures conflict.ConnectionConflict? ==> boost == old(boost) && log == old(log)
      ensures conflict.ResourceConflict? ==>
        && log == old(log) + [conflict.resource]
        && boost == old(boost)[conflict.resource := Scaled(old(GetBoost(conflict.resource)), ConflictFactor)]
    {
      match conflict
      case ConnectionConflict(_, _) =>
      case ResourceConflict(_, resource, _) =>
        boost := boost[resource := Scaled(WeightIn(boost, resource), ConflictFactor)];
        log := log + [resource];
        assert log[..|log| - 1] == old(log);
    }
  }
}
