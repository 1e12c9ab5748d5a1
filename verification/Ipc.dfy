/** IPC as a rendezvous: an environment asks, one send to it succeeds, its call returns; then it may ask again. */
module Ipc {
  import opened Layout
  import opened EnvState

  /** The order of events: asked, sent, got, asked, sent, got, ... and what is got is what was sent. */
  ghost predicate Rendezvous(h: History) {
    forall k | 0 <= k < |h| :: InTurn(h, k)
  }

  predicate InTurn(h: History, k: nat)
    requires k < |h|
  {
    if k % 3 == 0 then h[k].Asked?
    else if k % 3 == 1 then h[k].Sent?
    else h[k].Got? && h[k - 1].Sent? && h[k].m == h[k - 1].m
  }

  lemma NextEvent(h: History, e: Event)
    requires Rendezvous(h) && InTurn(h + [e], |h|)
    ensures Rendezvous(h + [e])
  {
    forall k | 0 <= k < |h + [e]| ensures InTurn(h + [e], k) {
      if k < |h| {
        assert InTurn(h, k);
      }
    }
  }

  predicate Blocked(h: History) { |h| % 3 == 1 }
  predicate Woken(h: History) { |h| % 3 == 2 }

  /** The messages of the successful sends, in order. */
  function SentMessages(h: History): seq<Message> {
    if h == [] then []
    else SentMessages(h[..|h| - 1]) + if h[|h| - 1].Sent? then [h[|h| - 1].m] else []
  }

  /** The messages of the completed receives, in order. */
  function GotMessages(h: History): seq<Message> {
    if h == [] then []
    else GotMessages(h[..|h| - 1]) + if h[|h| - 1].Got? then [h[|h| - 1].m] else []
  }

  lemma PrefixKeeps(h: History, n: nat)
    requires Rendezvous(h) && n <= |h|
    ensures Rendezvous(h[..n])
  {
    forall k | 0 <= k < n ensures InTurn(h[..n], k) {
      assert InTurn(h, k);
    }
  }

  /** Exactly once and in order: the messages received are the messages sent, up to the one an awakened environment
      has not seen yet. */
  lemma {:induction false} ExactlyOnceInOrder(h: History)
    requires Rendezvous(h)
    ensures !Woken(h) ==> GotMessages(h) == SentMessages(h)
    ensures Woken(h) ==> h[|h| - 1].Sent? && GotMessages(h) + [h[|h| - 1].m] == SentMessages(h)
    decreases |h|
  {
    if h != [] {
      PrefixKeeps(h, |h| - 1);
      assert InTurn(h, |h| - 1);
      assert |h| > 1 ==> InTurn(h, |h| - 2);
      ExactlyOnceInOrder(h[..|h| - 1]);
    }
  }

  /** Between two successful sends to an environment its first call has returned and it has asked again. */
  lemma OneSendPerReceive(h: History, i: nat, j: nat)
    requires Rendezvous(h) && i < j < |h| && h[i].Sent? && h[j].Sent?
    ensures i + 2 < j && h[i + 1] == Got(h[i].m) && h[i + 2] == Asked
  {
    assert InTurn(h, i) && InTurn(h, j);
    assert i % 3 == 1 && j % 3 == 1;
    assert InTurn(h, i + 1) && InTurn(h, i + 2);
  }

  /** The messages delivered to `p`, in order. */
  ghost function Addressed(sent: seq<Delivery>, p: Party): seq<Message> {
    if sent == [] then []
    else Addressed(sent[..|sent| - 1], p) + if sent[|sent| - 1].receiver == p then [sent[|sent| - 1].m] else []
  }

  /** The deliveries made by `p`, in order. */
  ghost function MadeBy(sent: seq<Delivery>, p: Party): seq<Delivery> {
    if sent == [] then []
    else MadeBy(sent[..|sent| - 1], p) + if sent[|sent| - 1].sender == p then [sent[|sent| - 1]] else []
  }

  lemma OneMoreDelivery(sent: seq<Delivery>, d: Delivery, p: Party)
    ensures Addressed(sent + [d], p) == Addressed(sent, p) + if d.receiver == p then [d.m] else []
    ensures MadeBy(sent + [d], p) == MadeBy(sent, p) + if d.sender == p then [d] else []
  {
    assert (sent + [d])[..|sent|] == sent;
  }

  lemma {:induction false} NoDelivery(sent: seq<Delivery>, p: Party)
    requires forall d | d in sent :: d.receiver != p
    ensures Addressed(sent, p) == []
    decreases |sent|
  {
    if sent != [] {
      NoDelivery(sent[..|sent| - 1], p);
    }
  }

  lemma OneMoreEvent(h: History, e: Event)
    ensures SentMessages(h + [e]) == SentMessages(h) + if e.Sent? then [e.m] else []
  {
    assert (h + [e])[..|h|] == h;
  }

  /** The history agrees with the fields: env_ipc_recving is set exactly while blocked, and the value and sender are
      those of the last message. A woken environment does not run yet, and its call will return 0. */
  ghost predicate BoxOk(v: Env, h: History) {
    && Rendezvous(h)
    && (Blocked(h) <==> v.recving)
    && (Woken(h) ==>
          && h[|h| - 1] == Sent(Message(v.value, v.from)) && v.tf.eax == 0
          && (v.status == Runnable || v.status == NotRunnable))
    && (!Woken(h) && |h| >= 3 ==> h[|h| - 1 - |h| % 3] == Got(Message(v.value, v.from)))
  }

  /** Every live environment's history agrees with its fields and holds exactly the messages delivered to it; nothing
      has been delivered to an environment still to come. */
  ghost predicate MailOk(envs: seq<Env>, mail: seq<History>, allocs: seq<nat>, sent: seq<Delivery>) {
    && |envs| == |mail| == |allocs| == NENV
    && (forall e | 0 <= e < NENV && envs[e].status != Free ::
          BoxOk(envs[e], mail[e]) && SentMessages(mail[e]) == Addressed(sent, Party(e, allocs[e])))
    && forall d | d in sent :: d.receiver.slot < NENV && d.receiver.alloc <= allocs[d.receiver.slot]
  }

  lemma MailSizes(envs: seq<Env>, mail: seq<History>, allocs: seq<nat>, sent: seq<Delivery>)
    requires MailOk(envs, mail, allocs, sent)
    ensures |envs| == |mail| == |allocs| == NENV
  {
  }

  /** Changing nothing that IPC looks at, or freeing the environment. */
  lemma MailKeeps(envs: seq<Env>, mail: seq<History>, allocs: seq<nat>, sent: seq<Delivery>, e: nat, v: Env)
    requires MailOk(envs, mail, allocs, sent) && e < NENV
    requires v.status != Free ==>
      && envs[e].status != Free && v.recving == envs[e].recving && v.value == envs[e].value && v.from == envs[e].from
      && ((v.tf.eax == envs[e].tf.eax
           && (v.status == envs[e].status || v.status == Runnable || v.status == NotRunnable))
          || !Woken(mail[e]))
    ensures MailOk(envs[e := v], mail, allocs, sent)
  {
  }

  /** The call of a woken environment returns when it is run. */
  ghost function Returned(v: Env, h: History): History {
    if Woken(h) then h + [Got(Message(v.value, v.from))] else h
  }

  lemma ReturnKeeps(envs: seq<Env>, mail: seq<History>, allocs: seq<nat>, sent: seq<Delivery>, e: nat, v: Env)
    requires MailOk(envs, mail, allocs, sent) && e < NENV && envs[e].status != Free && v.status != Free
    requires v.recving == envs[e].recving && v.value == envs[e].value && v.from == envs[e].from
    ensures MailOk(envs[e := v], mail[e := Returned(envs[e], mail[e])], allocs, sent)
  {
    hide SentMessages;
    if Woken(mail[e]) {
      assert InTurn(mail[e], |mail[e]| - 1);
      NextEvent(mail[e], Got(Message(v.value, v.from)));
      OneMoreEvent(mail[e], Got(Message(v.value, v.from)));
    }
  }

  /** sys_ipc_recv: a running environment blocks. */
  lemma AskKeeps(envs: seq<Env>, mail: seq<History>, allocs: seq<nat>, sent: seq<Delivery>, e: nat, v: Env)
    requires MailOk(envs, mail, allocs, sent) && e < NENV && envs[e].status == Running
    requires !envs[e].recving && v.recving && v.value == envs[e].value && v.from == envs[e].from
    ensures MailOk(envs[e := v], mail[e := mail[e] + [Asked]], allocs, sent)
  {
    hide SentMessages;
    NextEvent(mail[e], Asked);
    OneMoreEvent(mail[e], Asked);
  }

  /** A successful send: a blocked environment is woken with the message in its fields and 0 in eax. */
  lemma SendKeeps(envs: seq<Env>, mail: seq<History>, allocs: seq<nat>, sent: seq<Delivery>, sender: Party, t: nat,
                  v: Env)
    requires MailOk(envs, mail, allocs, sent) && t < NENV && envs[t].status != Free && envs[t].recving
    requires !v.recving && v.status == Runnable && v.tf.eax == 0
    ensures var m := Message(v.value, v.from);
      MailOk(envs[t := v], mail[t := mail[t] + [Sent(m)]], allocs, sent + [Delivery(sender, Party(t, allocs[t]), m)])
  {
    hide SentMessages, Addressed;
    var m := Message(v.value, v.from);
    NextEvent(mail[t], Sent(m));
    OneMoreEvent(mail[t], Sent(m));
    forall e | 0 <= e < NENV
      ensures Addressed(sent + [Delivery(sender, Party(t, allocs[t]), m)], Party(e, allocs[e])) ==
              Addressed(sent, Party(e, allocs[e])) + if e == t then [m] else []
    {
      OneMoreDelivery(sent, Delivery(sender, Party(t, allocs[t]), m), Party(e, allocs[e]));
    }
  }

  /** A new environment has no history. */
  lemma BirthKeeps(envs: seq<Env>, mail: seq<History>, allocs: seq<nat>, sent: seq<Delivery>, e: nat, v: Env)
    requires MailOk(envs, mail, allocs, sent) && e < NENV && !v.recving
    ensures MailOk(envs[e := v], mail[e := []], allocs[e := allocs[e] + 1], sent)
  {
    NoDelivery(sent, Party(e, allocs[e] + 1));
  }

  /** What a step of the rest of the system may do to an environment: its history gains at most one event, a message
      sent to it or the return of its call, and its saved registers change at most by a 0 in eax. */
  ghost predicate Touched(v: Env, h: History, v': Env, h': History) {
    && (h' == h || (|h'| == |h| + 1 && h <= h' && !h'[|h|].Asked?))
    && (v'.tf == v.tf || v'.tf == v.tf.(eax := 0))
  }

  /** The history of every environment that stays alive goes on; nothing is taken back. All but `me`, the environment
      whose CPU makes the step, are only touched. */
  ghost predicate Grows(envs: seq<Env>, mail: seq<History>, envs': seq<Env>, mail': seq<History>, me: Option<nat>) {
    && |envs| == |envs'| == |mail| == |mail'| == NENV
    && forall e | 0 <= e < NENV && envs[e].status != Free && envs'[e].status != Free ::
         mail[e] <= mail'[e] && (me != Some(e) ==> Touched(envs[e], mail[e], envs'[e], mail'[e]))
  }

  lemma SameGrows(envs: seq<Env>, envs': seq<Env>, mail: seq<History>, me: Option<nat>)
    requires |envs| == |envs'| == |mail| == NENV
    requires forall e | 0 <= e < NENV && envs[e].status != Free && envs'[e].status != Free && me != Some(e) ::
               envs'[e].tf == envs[e].tf
    ensures Grows(envs, mail, envs', mail, me)
  {
  }

  lemma OneGrows(envs: seq<Env>, envs': seq<Env>, mail: seq<History>, e: nat, h: History, me: Option<nat>)
    requires |envs| == |envs'| == |mail| == NENV && e < NENV
    requires forall e' | 0 <= e' < NENV && e' != e && envs[e'].status != Free && envs'[e'].status != Free
                         && me != Some(e') ::
               envs'[e'].tf == envs[e'].tf
    requires envs[e].status != Free && envs'[e].status != Free ==>
               mail[e] <= h && (me != Some(e) ==> Touched(envs[e], mail[e], envs'[e], h))
    ensures Grows(envs, mail, envs', mail[e := h], me)
  {
  }

  /** One step after another: the first changes no other environment's registers or history, the second brings none to
      life. */
  lemma ThenGrows(envs: seq<Env>, mail: seq<History>, envs1: seq<Env>, mail1: seq<History>, envs2: seq<Env>,
                  mail2: seq<History>, me: Option<nat>)
    requires Grows(envs, mail, envs1, mail1, me) && Grows(envs1, mail1, envs2, mail2, me)
    requires forall e | 0 <= e < NENV && me != Some(e) && envs[e].status != Free && envs1[e].status != Free ::
               mail1[e] == mail[e] && envs1[e].tf == envs[e].tf
    requires forall e | 0 <= e < NENV && envs2[e].status != Free :: envs1[e].status != Free
    ensures Grows(envs, mail, envs2, mail2, me)
  {
  }

  /** One step after another: the second changes the registers of `me` at most. */
  lemma GrowsThenSame(envs: seq<Env>, mail: seq<History>, envs1: seq<Env>, mail1: seq<History>, envs2: seq<Env>,
                      me: Option<nat>)
    requires Grows(envs, mail, envs1, mail1, me) && |envs2| == NENV
    requires forall e | 0 <= e < NENV && me != Some(e) :: envs2[e] == envs1[e]
    requires me.Some? && me.value < NENV ==> envs2[me.value].status == envs1[me.value].status
    ensures Grows(envs, mail, envs2, mail1, me)
  {
  }
}
