/**
 * The alternative paths of one service intention (RouteGroup.java): a
 * non-empty set of paths that only grows, and a boost shared out evenly
 * among them.
 */
module RouteGroups {
  import opened Paths

  class RouteGroup {
    const intention: string
    const boost: real
    var paths: set<Path>

    /** The set is never empty: the constructor refuses an empty collection and paths are only added. */
    ghost predicate Valid()
      reads this
    {
      paths != {}
    }

    /** The constructor refuses an empty collection and drops duplicates. */
    constructor (intention: string, boost: real, initialPaths: seq<Path>)
      requires |initialPaths| > 0
      ensures Valid()
      ensures this.intention == intention && this.boost == boost
      ensures paths == set p | p in initialPaths
    {
      this.intention := intention;
      this.boost := boost;
      paths := set p | p in initialPaths;
      new;
      assert initialPaths[0] in paths;
    }

    /** getBoostedWeight: the boost divided by the number of distinct paths. */
    function BoostedWeight(): (r: real)
      requires Valid()
      reads this
      ensures r * (|paths| as real) == boost
    {
      boost / (|paths| as real)
    }

    /** addPath: a new path joins the set; an already present one is refused and nothing changes. */
    method AddPath(path: Path) returns (added: bool)
      requires Valid()
      modifies this
      ensures Valid()
      ensures added <==> path !in old(paths)
      ensures added ==> paths == old(paths) + {path} && Size() == old(Size()) + 1
      ensures !added ==> paths == old(paths)
    {
      if path in paths {
        return false;
      }
      paths := paths + {path};
      return true;
    }

    function Size(): nat
      reads this
    {
      |paths|
    }

    predicate IsEmpty()
      reads this
    {
      paths == {}
    }

    /** isEmpty holds exactly when size is 0, so a valid group is never empty. */
    lemma EmptyIffSizeZero()
      ensures IsEmpty() <==> Size() == 0
      ensures Valid() ==> !IsEmpty()
    {
    }
  }
}
