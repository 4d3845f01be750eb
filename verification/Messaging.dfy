/** Cross-chain mailboxes: an outbox that numbers what it sends, and a bounded inbox with a
    sliding window against replays. */
module Messaging {
  import opened Primitives

  datatype Status = Pending | Delivered

  datatype Message = Message(id: H256, nonce: nat, source: nat, destination: nat, content: nat, status: Status)

  datatype MessagingError = SameChain | AlreadyProcessed | InboxFull

  // ----- inbox

  datatype Inbox = Inbox(processed: set<H256>, order: seq<H256>, pending: seq<Message>, pendingCap: nat, processedCap: nat)

  /** Zero caps are raised to one. */
  function NewInbox(pendingCap: nat, processedCap: nat): Inbox {
    Inbox({}, [], [], if pendingCap == 0 then 1 else pendingCap, if processedCap == 0 then 1 else processedCap)
  }

  function Received(b: Inbox, m: Message): Result<Inbox, MessagingError> {
    if m.id in b.processed then Err(AlreadyProcessed)
    else if |b.pending| >= b.pendingCap then Err(InboxFull)
    else
      var full := |b.processed| >= b.processedCap && b.order != [];
      Ok(Inbox(
           (if full then b.processed - {b.order[0]} else b.processed) + {m.id},
           (if full then b.order[1..] else b.order) + [m.id],
           b.pending + [m.(status := Delivered)], b.pendingCap, b.processedCap))
  }

  class MessageInbox {
    var processed: set<H256>
    var order: seq<H256>
    var pending: seq<Message>
    const pendingCap: nat
    const processedCap: nat

    constructor (pendingCap: nat, processedCap: nat)
      ensures View() == NewInbox(pendingCap, processedCap)
    {
      processed, order, pending := {}, [], [];
      this.pendingCap := if pendingCap == 0 then 1 else pendingCap;
      this.processedCap := if processedCap == 0 then 1 else processedCap;
    }

    ghost function View(): Inbox
      reads this
    {
      Inbox(processed, order, pending, pendingCap, processedCap)
    }

    method Receive(m: Message) returns (e: Option<MessagingError>)
      modifies this
      ensures match Received(old(View()), m)
              case Ok(b) => e == None && View() == b
              case Err(why) => e == Some(why) && View() == old(View())
    {
      if m.id in processed {
        return Some(AlreadyProcessed);
      }
      if |pending| >= pendingCap {
        return Some(InboxFull);
      }
      pending := pending + [m.(status := Delivered)];
      if |processed| >= processedCap {
        if order != [] {
          var oldest := order[0];
          order := order[1..];
          processed := processed - {oldest};
        }
      }
      processed := processed + {m.id};
      order := order + [m.id];
      return None;
    }

    method NextPending() returns (m: Option<Message>)
      modifies this`pending
      ensures old(pending) == [] ==> m == None && pending == []
      ensures old(pending) != [] ==> m == Some(old(pending)[0]) && pending == old(pending)[1..]
    {
      if pending == [] {
        return None;
      }
      m := Some(pending[0]);
      pending := pending[1..];
    }
  }

  // ----- runs of the inbox

  datatype Op = Receive(message: Message) | Take

  /** An inbox with what it accepted and what was taken out of it, from the start. */
  datatype Journal = Journal(inbox: Inbox, accepted: seq<Message>, taken: seq<Message>)

  function Step(j: Journal, op: Op): Journal {
    match op
    case Receive(m) =>
      (match Received(j.inbox, m)
       case Ok(b) => Journal(b, j.accepted + [m.(status := Delivered)], j.taken)
       case Err(_) => j)
    case Take =>
      if j.inbox.pending == [] then j
      else Journal(j.inbox.(pending := j.inbox.pending[1..]), j.accepted, j.taken + [j.inbox.pending[0]])
  }

  function Run(pendingCap: nat, processedCap: nat, ops: seq<Op>): Journal {
    if ops == [] then Journal(NewInbox(pendingCap, processedCap), [], [])
    else Step(Run(pendingCap, processedCap, ops[..|ops| - 1]), ops[|ops| - 1])
  }

  function Last(s: seq<H256>, n: nat): seq<H256> {
    if |s| <= n then s else s[|s| - n..]
  }

  function Ids(ms: seq<Message>): (ids: seq<H256>)
    ensures |ids| == |ms| && forall i :: 0 <= i < |ms| ==> ids[i] == ms[i].id
  {
    seq(|ms|, i requires 0 <= i < |ms| => ms[i].id)
  }

  ghost predicate NoRepeats(s: seq<H256>) {
    forall i, j :: 0 <= i < j < |s| ==> s[i] != s[j]
  }

  ghost function Elements(s: seq<H256>): set<H256> {
    set x | x in s
  }

  lemma {:induction false} ElementsCount(s: seq<H256>)
    requires NoRepeats(s)
    ensures |Elements(s)| == |s|
    decreases |s|
  {
    if s != [] {
      var init, last := s[..|s| - 1], s[|s| - 1];
      ElementsCount(init);
      assert Elements(s) == Elements(init) + {last};
      assert last !in init;
    }
  }

  /** The same id is accepted again only after more than `cap` others. */
  ghost predicate Spaced(ids: seq<H256>, cap: nat) {
    forall i, j :: 0 <= i < j < |ids| && ids[i] == ids[j] ==> j - i > cap
  }

  /** The window is the last `processedCap` accepted ids, nothing is lost or reordered between
      acceptance and taking, and no id is accepted twice within a window. */
  ghost predicate Kept(j: Journal) {
    && 0 < j.inbox.processedCap
    && j.inbox.order == Last(Ids(j.accepted), j.inbox.processedCap)
    && j.inbox.processed == Elements(j.inbox.order)
    && j.taken + j.inbox.pending == j.accepted
    && |j.inbox.pending| <= j.inbox.pendingCap
    && Spaced(Ids(j.accepted), j.inbox.processedCap)
  }

  lemma WindowNoRepeats(ids: seq<H256>, cap: nat)
    requires Spaced(ids, cap)
    ensures NoRepeats(Last(ids, cap))
  {
    var w := Last(ids, cap);
    forall i, j | 0 <= i < j < |w| ensures w[i] != w[j] {
      var off := |ids| - |w|;
      assert w[i] == ids[off + i] && w[j] == ids[off + j];
    }
  }

  lemma WindowSlides(ids: seq<H256>, cap: nat, id: H256)
    requires 0 < cap
    ensures Last(ids + [id], cap) == (if |ids| >= cap then Last(ids, cap)[1..] else ids) + [id]
  {
  }

  lemma InWindow(ids: seq<H256>, cap: nat, i: nat)
    requires i < |ids| <= i + cap
    ensures ids[i] in Last(ids, cap)
  {
    var w := Last(ids, cap);
    assert w[|w| - (|ids| - i)] == ids[i];
  }

  lemma SpacedMore(ids: seq<H256>, cap: nat, id: H256)
    requires Spaced(ids, cap) && id !in Last(ids, cap)
    ensures Spaced(ids + [id], cap)
  {
    forall i | 0 <= i < |ids| && |ids| <= i + cap ensures ids[i] != id {
      InWindow(ids, cap, i);
    }
  }

  lemma ElementsSlide(w: seq<H256>, id: H256)
    requires NoRepeats(w) && w != []
    ensures Elements(w) - {w[0]} + {id} == Elements(w[1..] + [id])
  {
    assert forall x :: x in w <==> x == w[0] || x in w[1..];
    assert w[0] !in w[1..];
  }

  lemma WindowKeeps(processed: set<H256>, order: seq<H256>, ids: seq<H256>, cap: nat, id: H256)
    requires 0 < cap && Spaced(ids, cap) && order == Last(ids, cap) && processed == Elements(order)
    ensures var full := |processed| >= cap && order != [];
            var order' := (if full then order[1..] else order) + [id];
            order' == Last(ids + [id], cap)
            && (if full then processed - {order[0]} else processed) + {id} == Elements(order')
  {
    WindowNoRepeats(ids, cap);
    ElementsCount(order);
    WindowSlides(ids, cap, id);
    if |ids| >= cap {
      ElementsSlide(order, id);
    } else {
      assert Elements(order + [id]) == Elements(order) + {id};
    }
  }

  lemma AcceptKeeps(j: Journal, m: Message)
    requires Kept(j) && Received(j.inbox, m).Ok?
    ensures Kept(Step(j, Receive(m)))
  {
    var b, ids, m' := j.inbox, Ids(j.accepted), m.(status := Delivered);
    WindowKeeps(b.processed, b.order, ids, b.processedCap, m.id);
    SpacedMore(ids, b.processedCap, m.id);
    assert Ids(j.accepted + [m']) == ids + [m.id];
    assert j.taken + (b.pending + [m']) == (j.taken + b.pending) + [m'];
  }

  lemma StepKeeps(j: Journal, op: Op)
    requires Kept(j)
    ensures Kept(Step(j, op))
  {
    match op
    case Receive(m) =>
      if Received(j.inbox, m).Ok? {
        AcceptKeeps(j, m);
      }
    case Take =>
      if j.inbox.pending != [] {
        var p := j.inbox.pending;
        assert p == [p[0]] + p[1..];
        assert j.taken + [p[0]] + p[1..] == j.taken + p;
      }
  }

  /** Whatever arrives and is taken, in whatever order: what is taken is what was accepted, first
      in first out; the window holds exactly the last accepted ids, at most `processedCap`; and an
      id is accepted again only after more than that many others. */
  lemma {:induction false} RunKept(pendingCap: nat, processedCap: nat, ops: seq<Op>)
    ensures Kept(Run(pendingCap, processedCap, ops))
    decreases |ops|
  {
    if ops != [] {
      RunKept(pendingCap, processedCap, ops[..|ops| - 1]);
      StepKeeps(Run(pendingCap, processedCap, ops[..|ops| - 1]), ops[|ops| - 1]);
    }
  }

  /** A message is accepted exactly when there is room and its id is not among the last accepted. */
  lemma AcceptedIff(pendingCap: nat, processedCap: nat, ops: seq<Op>, m: Message)
    ensures var j := Run(pendingCap, processedCap, ops);
            Received(j.inbox, m).Ok?
            <==> |j.accepted| - |j.taken| < j.inbox.pendingCap
                 && m.id !in Last(Ids(j.accepted), j.inbox.processedCap)
  {
    RunKept(pendingCap, processedCap, ops);
    var j := Run(pendingCap, processedCap, ops);
    assert |j.taken + j.inbox.pending| == |j.accepted|;
  }

  // ----- outbox

  class MessageOutbox {
    const chain: nat
    const hash: (nat, nat, nat, nat) -> H256
    var nextNonce: nat
    var messages: seq<Message>
    /** Everything ever sent, and how much of it has been drained. */
    ghost var sent: seq<Message>
    ghost var drained: nat

    /** Messages are numbered in the order they were sent, and leave in that order, once. */
    ghost predicate Valid()
      reads this
    {
      && nextNonce == |sent| && drained <= |sent| && messages == sent[drained..]
      && forall i :: 0 <= i < |sent| ==> sent[i].nonce == i && sent[i].source == chain != sent[i].destination
    }

    constructor (chain: nat, hash: (nat, nat, nat, nat) -> H256)
      ensures Valid() && sent == [] && drained == 0 && this.chain == chain && this.hash == hash
    {
      this.chain := chain;
      this.hash := hash;
      nextNonce, messages, sent, drained := 0, [], [], 0;
    }

    method Send(destination: nat, content: nat) returns (r: Result<Message, MessagingError>)
      requires Valid()
      modifies this
      ensures Valid() && drained == old(drained)
      ensures r.Err? <==> destination == chain
      ensures r.Ok? ==> r.value == Message(hash(old(nextNonce), chain, destination, content), old(nextNonce), chain, destination, content, Pending)
                        && sent == old(sent) + [r.value]
      ensures r.Err? ==> r == Err(SameChain) && sent == old(sent)
    {
      if chain == destination {
        return Err(SameChain);
      }
      var m := Message(hash(nextNonce, chain, destination, content), nextNonce, chain, destination, content, Pending);
      nextNonce := nextNonce + 1;
      messages := messages + [m];
      sent := sent + [m];
      return Ok(m);
    }

    method Drain() returns (out: seq<Message>)
      requires Valid()
      modifies this
      ensures Valid() && sent == old(sent) && drained == |sent|
      ensures out == sent[old(drained)..]
    {
      out := messages;
      messages := [];
      drained := |sent|;
    }
  }
}
