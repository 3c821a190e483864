/**
 * A source-to-sink path through a route graph (Path.java).  Java compares
 * paths by identity, so a path is an object; its edges are indices into the
 * edge list of its route graph.
 */
module Paths {

  class Path {
    const id: int
    const edges: seq<nat>
    const penalty: real

    constructor (id: int, edges: seq<nat>, penalty: real)
      ensures this.id == id && this.edges == edges && this.penalty == penalty
    {
      this.id := id;
      this.edges := edges;
      this.penalty := penalty;
    }
  }
}
