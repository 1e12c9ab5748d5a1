/** The table of environments and its invariant. */
module EnvState {
  import opened Layout
  import opened Graph
  import opened EnvId

  datatype Status = Free | Dying | Runnable | Running | NotRunnable

  /** The saved registers; only eax is told apart. */
  datatype Trapframe = Trapframe(eax: int, rest: int)

  /** struct Env. */
  datatype Env = Env(tf: Trapframe, link: Option<nat>, id: int, parent: int, status: Status, runs: nat,
                     pgdir: Option<nat>,
                     recving: bool, dstva: nat, value: nat, from: int, perm: Flags)

  /** A slot cleared by mem_init. */
  const NO_ENV := Env(Trapframe(0, 0), None, 0, 0, Free, 0, None, false, 0, 0, 0, NO_FLAGS)

  /** A message is a value and the sender's id. */
  datatype Message = Message(value: nat, from: int)

  /** What happens to an environment as a receiver: it blocks in sys_ipc_recv, a send to it succeeds, and its call
      returns, with this message in its fields. */
  datatype Event = Asked | Sent(m: Message) | Got(m: Message)

  /** The events of an environment since it was allocated. */
  type History = seq<Event>

  /** An environment apart from all others that have had its slot: the slot, and which allocation of it. */
  datatype Party = Party(slot: nat, alloc: nat)

  /** A successful send. */
  datatype Delivery = Delivery(sender: Party, receiver: Party, m: Message)

  /** The links from the head run through `list` in order, never meeting a slot twice, and end there. */
  ghost predicate EnvChain(envs: seq<Env>, head: Option<nat>, list: seq<nat>)
    decreases list
  {
    if list == [] then
      head == None
    else
      && head == Some(list[0]) && list[0] < |envs| && list[0] !in list[1..]
      && EnvChain(envs, envs[list[0]].link, list[1..])
  }

  lemma {:induction false} EnvChainFrame(envs: seq<Env>, envs': seq<Env>, head: Option<nat>, list: seq<nat>)
    requires EnvChain(envs, head, list) && |envs'| == |envs|
    requires forall e | 0 <= e < |envs| && e in list :: envs'[e].link == envs[e].link
    ensures EnvChain(envs', head, list)
    decreases list
  {
    if list != [] {
      EnvChainFrame(envs, envs', envs[list[0]].link, list[1..]);
    }
  }

  /** A slot in use has a directory, its id is the one of its latest allocation, and a receiver asks for a whole page.
      */
  ghost predicate SlotOk(v: Env, e: nat, k: nat, g: Graph) {
    && v.pgdir == (if Dir(e) in g then Some(g[Dir(e)].addr) else None)
    && (v.status != Free <==> Dir(e) in g)
    && (v.status != Free ==> k > 0)
    && v.id == IdAfter(k, e)
    && (v.recving && v.dstva < UTOP ==> v.dstva % PGSIZE == 0)
  }

  /** The free list holds exactly the free slots. */
  ghost predicate EnvInv(envs: seq<Env>, head: Option<nat>, list: seq<nat>, allocs: seq<nat>, g: Graph) {
    && |envs| == |allocs| == NENV
    && EnvChain(envs, head, list)
    && (forall e | 0 <= e < NENV :: e in list <==> envs[e].status == Free)
    && (forall e | 0 <= e < NENV :: SlotOk(envs[e], e, allocs[e], g))
  }

  /** The same directories in both graphs, except perhaps that of slot `e`. */
  ghost predicate SameDirsExcept(g: Graph, g': Graph, e: nat) {
    forall e': nat | e' != e :: (Dir(e') in g <==> Dir(e') in g') && (Dir(e') in g ==> g'[Dir(e')] == g[Dir(e')])
  }

  lemma EnvSizes(envs: seq<Env>, head: Option<nat>, list: seq<nat>, allocs: seq<nat>, g: Graph)
    requires EnvInv(envs, head, list, allocs, g)
    ensures |envs| == |allocs| == NENV
    ensures head == if list == [] then None else Some(list[0])
    ensures list != [] ==> list[0] < NENV && envs[list[0]].status == Free && Dir(list[0]) !in g
    ensures forall e | 0 <= e < NENV :: SlotOk(envs[e], e, allocs[e], g)
  {
    if list != [] {
      assert list[0] in list;
    }
  }

  lemma SlotAligned(envs: seq<Env>, head: Option<nat>, list: seq<nat>, allocs: seq<nat>, g: Graph, e: nat)
    requires EnvInv(envs, head, list, allocs, g) && e < NENV
    ensures |envs| == |allocs| == NENV
    ensures envs[e].recving && envs[e].dstva < UTOP ==> envs[e].dstva % PGSIZE == 0
  {
  }

  lemma SlotInUse(envs: seq<Env>, head: Option<nat>, list: seq<nat>, allocs: seq<nat>, g: Graph, e: nat)
    requires EnvInv(envs, head, list, allocs, g)
    requires e < |envs| && e < NENV && envs[e].status != Free
    ensures Dir(e) in g && envs[e].pgdir == Some(g[Dir(e)].addr)
  {
  }

  /** Taking the first free slot. */
  lemma SlotTaken(envs: seq<Env>, head: Option<nat>, list: seq<nat>, allocs: seq<nat>, g: Graph, v: Env, g': Graph)
    requires EnvInv(envs, head, list, allocs, g) && list != []
    requires list[0] < |envs| == |allocs| && v.link == envs[list[0]].link && v.status != Free
    requires SlotOk(v, list[0], allocs[list[0]] + 1, g') && SameDirsExcept(g, g', list[0])
    ensures var e := list[0];
      EnvInv(envs[e := v], envs[e].link, list[1..], allocs[e := allocs[e] + 1], g')
  {
    var e := list[0];
    assert list == [e] + list[1..];
    EnvChainFrame(envs, envs[e := v], envs[e].link, list[1..]);
  }

  /** A slot that lost its directory goes in front of the free list. */
  lemma SlotReturned(envs: seq<Env>, head: Option<nat>, list: seq<nat>, allocs: seq<nat>, g: Graph, e: nat, g': Graph)
    requires EnvInv(envs, head, list, allocs, g)
    requires e < |envs| && e < NENV && envs[e].status != Free
    requires SameDirsExcept(g, g', e) && Dir(e) !in g'
    ensures EnvInv(envs[e := envs[e].(pgdir := None, status := Free, link := head)], Some(e), [e] + list, allocs, g')
  {
    EnvChainFrame(envs, envs[e := envs[e].(pgdir := None, status := Free, link := head)], head, list);
    assert forall e' :: e' in [e] + list <==> e' == e || e' in list;
  }

  /** Changing a slot in use without touching its directory, id or link. */
  lemma SlotChanged(envs: seq<Env>, head: Option<nat>, list: seq<nat>, allocs: seq<nat>, g: Graph, e: nat, v: Env)
    requires EnvInv(envs, head, list, allocs, g)
    requires e < |envs| && e < NENV && envs[e].status != Free && v.status != Free
    requires v.pgdir == envs[e].pgdir && v.id == envs[e].id
    requires v.recving && v.dstva < UTOP ==> v.dstva % PGSIZE == 0
    ensures EnvInv(envs[e := v], head, list, allocs, g)
  {
    EnvChainFrame(envs, envs[e := v], head, list);
  }

  /** Changing references other than directories. */
  lemma DirsSame(envs: seq<Env>, head: Option<nat>, list: seq<nat>, allocs: seq<nat>, g: Graph, g': Graph)
    requires EnvInv(envs, head, list, allocs, g)
    requires forall e: nat :: (Dir(e) in g <==> Dir(e) in g') && (Dir(e) in g ==> g'[Dir(e)] == g[Dir(e)])
    ensures EnvInv(envs, head, list, allocs, g')
  {
  }

  /** Ids of environments in use are positive, name their slot, and are distinct. */
  lemma LiveIds(envs: seq<Env>, head: Option<nat>, list: seq<nat>, allocs: seq<nat>, g: Graph, e: nat, e': nat)
    requires EnvInv(envs, head, list, allocs, g)
    requires e < NENV && e' < NENV && envs[e].status != Free && envs[e'].status != Free
    ensures 0 < envs[e].id < ID_LIMIT && EnvX(envs[e].id) == e
    ensures envs[e].id == envs[e'].id <==> e == e'
  {
    IdClosedForm(allocs[e], e);
    IdClosedForm(allocs[e'], e');
  }
}
