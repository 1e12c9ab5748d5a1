/** Who refers to which physical page: the references that pp_ref counts, seen as a graph. */
module Graph {
  import opened Layout

  /** A place that holds a counted reference to a physical page. */
  datatype Slot =
    | Dir(e: nat)                  // envs[e].env_pgdir
    | Pde(e: nat, i: nat)          // user-half directory entry i of environment e
    | Pte(e: nat, i: nat, j: nat)  // entry j of the table behind Pde(e, i)
    | Kern(i: nat)                 // kernel-half entry i of kern_pgdir

  /** Every slot in use, with the word stored there. */
  type Graph = map<Slot, Word>

  /** The slots that refer to page `p`. */
  ghost function Refs(g: Graph, p: nat): set<Slot> {
    set s | s in g && g[s].addr == p
  }

  lemma RefsAdd(g: Graph, s: Slot, w: Word, p: nat)
    requires s !in g
    ensures |Refs(g[s := w], p)| == |Refs(g, p)| + if p == w.addr then 1 else 0
  {
    if p == w.addr {
      assert Refs(g[s := w], p) == Refs(g, p) + {s};
    } else {
      assert Refs(g[s := w], p) == Refs(g, p);
    }
  }

  lemma RefsRemove(g: Graph, s: Slot, p: nat)
    requires s in g
    ensures |Refs(g, p)| == |Refs(g - {s}, p)| + if p == g[s].addr then 1 else 0
  {
    var h := g - {s};
    assert g == h[s := g[s]];
    RefsAdd(h, s, g[s], p);
  }

  lemma NoRefs(g: Graph, p: nat)
    ensures |Refs(g, p)| == 0 <==> forall s | s in g :: g[s].addr != p
  {
    if |Refs(g, p)| == 0 {
      forall s | s in g ensures g[s].addr != p {
        assert s !in Refs(g, p);
      }
    } else {
      assert exists s :: s in Refs(g, p);
    }
  }
}
