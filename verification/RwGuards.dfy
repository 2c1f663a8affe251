/** The abstract reader/writer lock: each operation is one atomic step on the guards that are
    outstanding. */
module RwGuards {

  datatype Kind = Shared | Exclusive

  datatype Guards = Guards(readers: nat, writers: nat)

  predicate Admits(g: Guards, k: Kind)
  {
    g.writers == 0 && (k.Exclusive? ==> g.readers == 0)
  }

  function Added(g: Guards, k: Kind): Guards
  {
    if k.Shared? then g.(readers := g.readers + 1) else g.(writers := g.writers + 1)
  }

  predicate Holds(g: Guards, k: Kind)
  {
    if k.Shared? then g.readers > 0 else g.writers > 0
  }

  function Removed(g: Guards, k: Kind): Guards
    requires Holds(g, k)
  {
    if k.Shared? then g.(readers := g.readers - 1) else g.(writers := g.writers - 1)
  }

  predicate Exclusion(g: Guards)
  {
    g.writers <= 1 && (g.writers == 1 ==> g.readers == 0)
  }
}
