/** The message queue between COM clients and the server thread. Every method is atomic under the
    queue's lock, so a run is a sequence of steps: messages are added, clients disconnect, the server
    takes messages and replies to them. */
module PDComQueue {
  import opened Options

  /** The value of a PDCom: the interface it points to, if any, the cookie, and whether the other side
      is known to have disconnected. */
  datatype Endpoint = Endpoint(client: Option<nat>, cookie: nat, disconnected: bool)

  datatype Payload = Data(bytes: string) | DisconnectMsg

  datatype Item = Item(msg: Payload, replyTo: Endpoint) {
    function Flagged(): Item {
      this.(replyTo := replyTo.(disconnected := true))
    }
  }

  /** How the call through a COM interface ends: with a result code, or with an exception because the
      other side is gone. */
  datatype CallResult = Hresult(code: int) | Gone

  class PDCom {
    var ipdCom: Option<nat>
    var cookie: nat
    var disconnected: bool

    constructor (ipdCom: Option<nat>, cookie: nat)
      ensures Value() == Endpoint(ipdCom, cookie, false)
    {
      this.ipdCom, this.cookie, disconnected := ipdCom, cookie, false;
    }

    function Value(): Endpoint
      reads this
    {
      Endpoint(ipdCom, cookie, disconnected)
    }

    method SetDisconnected()
      modifies this`disconnected
      ensures disconnected
    {
      disconnected := true;
    }

    method Assign(e: Endpoint)
      modifies this
      ensures Value() == e
    {
      ipdCom, cookie, disconnected := e.client, e.cookie, e.disconnected;
    }

    /** Sends through the interface unless there is none or it is disconnected; an interface that is
        gone is forgotten, and nothing is sent through it again. */
    method SendMsg(result: CallResult) returns (success: bool, sentTo: Option<nat>)
      modifies this`ipdCom, this`cookie
      ensures sentTo == (if CanReply(old(Value())) then old(ipdCom) else None)
      ensures success <==> sentTo.Some? && result.Hresult? && result.code >= 0
      ensures Value() == if sentTo.Some? && result.Gone? then Endpoint(None, 0, disconnected) else old(Value())
    {
      if ipdCom == None || disconnected {
        return false, None;
      }
      sentTo := ipdCom;
      var res := -1;
      match result {
        case Hresult(code) => res := code;
        case Gone => ipdCom, cookie := None, 0;
      }
      success := res >= 0;
    }
  }

  /** A reply through the endpoint is sent. */
  predicate CanReply(e: Endpoint) {
    e.client.Some? && !e.disconnected
  }

  /** The queue with the items of a client flagged. */
  function FlagAll(items: seq<Item>, client: Option<nat>): (r: seq<Item>)
    ensures |r| == |items|
    ensures forall i :: 0 <= i < |items| ==>
        r[i] == if items[i].replyTo.client == client then items[i].Flagged() else items[i]
  {
    seq(|items|, i requires 0 <= i < |items| =>
      if items[i].replyTo.client == client then items[i].Flagged() else items[i])
  }

  class PDComMsgQ {
    var msqQ: seq<Item>

    constructor ()
      ensures msqQ == []
    {
      msqQ := [];
    }

    method AddMsg(msg: Payload, replyTo: Endpoint)
      modifies this
      ensures msqQ == old(msqQ) + [Item(msg, replyTo)]
    {
      msqQ := msqQ + [Item(msg, replyTo)];
    }

    /** Flags the queued items of the client and appends the disconnect message. */
    method ClientDisconnected(replyTo: Endpoint)
      modifies this
      ensures msqQ == FlagAll(old(msqQ), replyTo.client) + [Item(DisconnectMsg, replyTo)]
    {
      var i := 0;
      while i < |msqQ|
        invariant i <= |msqQ| == |old(msqQ)|
        invariant msqQ[..i] == FlagAll(old(msqQ), replyTo.client)[..i]
        invariant msqQ[i..] == old(msqQ)[i..]
      {
        if msqQ[i].replyTo.client == replyTo.client {
          msqQ := msqQ[i := msqQ[i].Flagged()];
        }
        i := i + 1;
      }
      assert msqQ == FlagAll(old(msqQ), replyTo.client);
      msqQ := msqQ + [Item(DisconnectMsg, replyTo)];
    }

    /** Removes the first item; its endpoint is copied to `replyTo`. */
    method GetMsg(replyTo: PDCom) returns (res: bool, msg: Payload)
      modifies this, replyTo
      ensures res == (old(msqQ) != [])
      ensures res ==> msqQ == old(msqQ)[1..] && Item(msg, replyTo.Value()) == old(msqQ)[0]
      ensures !res ==> msqQ == old(msqQ) && replyTo.Value() == old(replyTo.Value())
    {
      res, msg := false, Data("");
      if msqQ != [] {
        var item := msqQ[0];
        msqQ := msqQ[1..];
        msg := item.msg;
        replyTo.Assign(item.replyTo);
        res := true;
      }
    }
  }

  /** The queue after a message of the client arrived. */
  function Arrived(items: seq<Item>, msg: Payload, client: Option<nat>): seq<Item> {
    items + [Item(msg, Endpoint(client, 0, false))]
  }

  /** The queue after the client disconnected. */
  function Left(items: seq<Item>, client: Option<nat>): seq<Item> {
    FlagAll(items, client) + [Item(DisconnectMsg, Endpoint(client, 0, true))]
  }

  class PDComServer {
    const msgQ: PDComMsgQ

    constructor (msgQ: PDComMsgQ)
      ensures this.msgQ == msgQ
    {
      this.msgQ := msgQ;
    }

    /** A message arrives from the client the cookie stands for. */
    method SendMsg(bytes: string, client: Option<nat>)
      modifies msgQ
      ensures msgQ.msqQ == Arrived(old(msgQ.msqQ), Data(bytes), client)
    {
      var replyInterface := new PDCom(client, 0);
      msgQ.AddMsg(Data(bytes), replyInterface.Value());
    }

    /** The client the cookie stands for disconnects. */
    method Unadvise(client: Option<nat>)
      modifies msgQ
      ensures msgQ.msqQ == Left(old(msgQ.msqQ), client)
    {
      var replyInterface := new PDCom(client, 0);
      replyInterface.SetDisconnected();
      msgQ.ClientDisconnected(replyInterface.Value());
    }
  }

  /** A message of a client, without the state of its connection. */
  datatype Letter = Letter(msg: Payload, client: Option<nat>)

  /** The queue, what the server has taken from it so far in order, what was put into it so far in
      order, and the clients to which replies were sent. */
  datatype State = State(items: seq<Item>, taken: seq<Item>, added: seq<Letter>, replies: seq<nat>)

  datatype Step = Add(bytes: string, client: Option<nat>) | Disconnect(client: Option<nat>) | Take | Reply(i: nat)

  function Letters(items: seq<Item>): (r: seq<Letter>)
    ensures |r| == |items| && forall i :: 0 <= i < |items| ==> r[i] == Letter(items[i].msg, items[i].replyTo.client)
  {
    seq(|items|, i requires 0 <= i < |items| => Letter(items[i].msg, items[i].replyTo.client))
  }

  /** One step; the effects on the queue are those of the methods of PDComMsgQ, and a reply goes through
      the endpoint that was copied when the message was taken. */
  function Next(s: State, step: Step): State {
    match step
    case Add(bytes, client) =>
      s.(items := Arrived(s.items, Data(bytes), client), added := s.added + [Letter(Data(bytes), client)])
    case Disconnect(client) =>
      s.(items := Left(s.items, client), added := s.added + [Letter(DisconnectMsg, client)])
    case Take =>
      if s.items == [] then s else s.(items := s.items[1..], taken := s.taken + [s.items[0]])
    case Reply(i) =>
      if i < |s.taken| && CanReply(s.taken[i].replyTo) then
        s.(replies := s.replies + [s.taken[i].replyTo.client.value])
      else s
  }

  function Run(s: State, steps: seq<Step>): State
    decreases |steps|
  {
    if steps == [] then s else Run(Next(s, steps[0]), steps[1..])
  }

  /** Nothing is lost, invented or reordered, and in front of a queued disconnect message all items of
      that client are flagged, the message itself included. */
  ghost predicate Inv(s: State) {
    Letters(s.taken) + Letters(s.items) == s.added && MarkersBehindFlags(s.items)
  }

  /** In front of a queued disconnect message all items of that client are flagged. */
  ghost predicate MarkersBehindFlags(items: seq<Item>) {
    forall i, j ::
      0 <= i <= j < |items| && items[j].msg.DisconnectMsg? && items[i].replyTo.client == items[j].replyTo.client ==>
      items[i].replyTo.disconnected
  }

  function LetterOf(item: Item): Letter {
    Letter(item.msg, item.replyTo.client)
  }

  lemma LettersAppend(items: seq<Item>, item: Item)
    ensures Letters(items + [item]) == Letters(items) + [LetterOf(item)]
  {
  }

  lemma LettersFlagged(items: seq<Item>, client: Option<nat>)
    ensures Letters(FlagAll(items, client)) == Letters(items)
  {
  }

  lemma LettersTake(taken: seq<Item>, items: seq<Item>)
    requires items != []
    ensures Letters(taken + [items[0]]) + Letters(items[1..]) == Letters(taken) + Letters(items)
  {
  }

  lemma Associative(a: seq<Letter>, b: seq<Letter>, c: seq<Letter>)
    ensures a + b + c == a + (b + c)
  {
  }

  lemma LettersStep(s: State, step: Step)
    requires Letters(s.taken) + Letters(s.items) == s.added
    ensures var s' := Next(s, step); Letters(s'.taken) + Letters(s'.items) == s'.added
  {
    hide Letters, FlagAll;
    match step
    case Add(bytes, client) =>
      LettersAppend(s.items, Item(Data(bytes), Endpoint(client, 0, false)));
      Associative(Letters(s.taken), Letters(s.items), [Letter(Data(bytes), client)]);
    case Disconnect(client) =>
      LettersFlagged(s.items, client);
      LettersAppend(FlagAll(s.items, client), Item(DisconnectMsg, Endpoint(client, 0, true)));
      Associative(Letters(s.taken), Letters(s.items), [Letter(DisconnectMsg, client)]);
    case Take =>
      if s.items != [] {
        LettersTake(s.taken, s.items);
      }
    case Reply(_) =>
  }

  lemma InvStep(s: State, step: Step)
    requires Inv(s)
    ensures Inv(Next(s, step))
  {
    LettersStep(s, step);
  }

  lemma {:induction false} InvRun(s: State, steps: seq<Step>)
    requires Inv(s)
    ensures Inv(Run(s, steps))
    decreases |steps|
  {
    if steps != [] {
      InvStep(s, steps[0]);
      InvRun(Next(s, steps[0]), steps[1..]);
    }
  }

  /** In every reachable state the messages removed followed by those queued are the messages added, in
      order; and the disconnect message of a client stands behind flagged items of that client only. */
  lemma QueueIsFifo(steps: seq<Step>)
    ensures Inv(Run(State([], [], [], []), steps))
  {
    InvRun(State([], [], [], []), steps);
  }

  /** A reply to the `i`-th message taken goes to the client that message was added for, if it has one that is
      not flagged, and to nobody otherwise. */
  lemma ReplyGoesToSender(steps: seq<Step>, i: nat)
    requires i < |Run(State([], [], [], []), steps).taken|
    ensures var s := Run(State([], [], [], []), steps);
            && i < |s.added|
            && var sender := s.added[i].client;
            && s.taken[i].msg == s.added[i].msg && s.taken[i].replyTo.client == sender
            && Next(s, Reply(i)).replies ==
               s.replies + if sender.Some? && !s.taken[i].replyTo.disconnected then [sender.value] else []
  {
    QueueIsFifo(steps);
    var s := Run(State([], [], [], []), steps);
    hide Run;
    assert s.added[i] == Letters(s.taken)[i];
  }

  /** All endpoints of the client are flagged. */
  ghost predicate AllFlagged(items: seq<Item>, client: Option<nat>) {
    forall i :: 0 <= i < |items| && items[i].replyTo.client == client ==> items[i].replyTo.disconnected
  }

  /** Disconnecting flags every queued item of the client, keeps the items of all others as they are,
      and the disconnect message is the last item. */
  lemma DisconnectStep(s: State, client: Option<nat>)
    ensures var s' := Next(s, Disconnect(client));
            && AllFlagged(s'.items, client)
            && s'.items[|s.items|] == Item(DisconnectMsg, Endpoint(client, 0, true)) && |s'.items| == |s.items| + 1
            && (forall i :: 0 <= i < |s.items| && s.items[i].replyTo.client != client ==> s'.items[i] == s.items[i])
            && (forall i :: 0 <= i < |s.items| ==> s'.items[i].msg == s.items[i].msg)
            && s'.taken == s.taken
  {
  }

  predicate Adds(step: Step, client: Option<nat>) {
    step.Add? && step.client == client
  }

  function CountReplies(replies: seq<nat>, client: nat): nat {
    multiset(replies)[client]
  }

  lemma NoReplyStep(s: State, step: Step, client: nat)
    requires AllFlagged(s.items, Some(client)) && !Adds(step, Some(client))
    ensures var s' := Next(s, step);
            && AllFlagged(s'.items, Some(client))
            && s.taken <= s'.taken && AllFlagged(s'.taken[|s.taken|..], Some(client))
            && (AllFlagged(s.taken, Some(client)) ==>
                  && AllFlagged(s'.taken, Some(client))
                  && CountReplies(s'.replies, client) == CountReplies(s.replies, client))
  {
  }

  lemma FlaggedParts(a: seq<Item>, b: seq<Item>, c: seq<Item>, client: Option<nat>)
    requires a <= b <= c && AllFlagged(b[|a|..], client) && AllFlagged(c[|b|..], client)
    ensures a <= c && AllFlagged(c[|a|..], client)
  {
    assert c[|a|..] == b[|a|..] + c[|b|..];
  }

  /** From a disconnect on, as long as the client adds nothing, every message of it that is taken is
      flagged, and replies go to it only through messages taken before. */
  lemma {:induction false} NoReplyAfterDisconnect(s: State, steps: seq<Step>, client: nat)
    requires AllFlagged(s.items, Some(client))
    requires forall i :: 0 <= i < |steps| ==> !Adds(steps[i], Some(client))
    ensures var r := Run(s, steps);
            && AllFlagged(r.items, Some(client))
            && s.taken <= r.taken && AllFlagged(r.taken[|s.taken|..], Some(client))
            && (AllFlagged(s.taken, Some(client)) ==>
               CountReplies(r.replies, client) == CountReplies(s.replies, client))
    decreases |steps|
  {
    if steps != [] {
      var s' := Next(s, steps[0]);
      NoReplyStep(s, steps[0], client);
      NoReplyAfterDisconnect(s', steps[1..], client);
      FlaggedParts(s.taken, s'.taken, Run(s', steps[1..]).taken, Some(client));
      hide Next, AllFlagged, CountReplies;
    }
  }

  /** The client adds nothing in these steps. */
  ghost predicate Silent(steps: seq<Step>, client: nat) {
    forall i :: 0 <= i < |steps| ==> !Adds(steps[i], Some(client))
  }

  /** Main result on disconnected clients: once the queued items of a client are flagged, no run in
      which the client adds nothing sends it a reply, if and only if every message of the client that
      was taken before is flagged too. */
  lemma NoReplyIff(s: State, client: nat)
    requires AllFlagged(s.items, Some(client))
    ensures AllFlagged(s.taken, Some(client)) <==>
            forall steps :: Silent(steps, client) ==>
                CountReplies(Run(s, steps).replies, client) == CountReplies(s.replies, client)
  {
    if AllFlagged(s.taken, Some(client)) {
      forall steps | Silent(steps, client)
          ensures CountReplies(Run(s, steps).replies, client) == CountReplies(s.replies, client) {
        NoReplyAfterDisconnect(s, steps, client);
      }
    } else {
      var i :| 0 <= i < |s.taken| && s.taken[i].replyTo.client == Some(client) && !s.taken[i].replyTo.disconnected;
      var steps := [Reply(i)];
      assert Silent(steps, client);
      assert Run(s, steps) == Run(Next(s, Reply(i)), []) == Next(s, Reply(i));
      assert CountReplies(Run(s, steps).replies, client) == CountReplies(s.replies, client) + 1;
    }
  }

  /** A message taken before the disconnect keeps its endpoint: a reply through it is still sent. */
  lemma TakenBeforeStillReplies(client: nat)
    ensures var steps := [Add("hello", Some(client)), Take, Disconnect(Some(client)), Reply(0)];
            Run(State([], [], [], []), steps).replies == [client]
  {
    var s1 := Next(State([], [], [], []), Add("hello", Some(client)));
    var s2 := Next(s1, Take);
    var s3 := Next(s2, Disconnect(Some(client)));
    var s4 := Next(s3, Reply(0));
    assert s4.replies == [client];
    RunFour(State([], [], [], []), Add("hello", Some(client)), Take, Disconnect(Some(client)), Reply(0));
  }

  lemma RunFour(s: State, a: Step, b: Step, c: Step, d: Step)
    ensures Run(s, [a, b, c, d]) == Next(Next(Next(Next(s, a), b), c), d)
  {
    hide Next;
    assert [a, b, c, d][1..] == [b, c, d] && [b, c, d][1..] == [c, d] && [c, d][1..] == [d] && [d][1..] == [];
    assert Run(s, [a, b, c, d]) == Run(Next(s, a), [b, c, d]);
    assert Run(Next(s, a), [b, c, d]) == Run(Next(Next(s, a), b), [c, d]);
    assert Run(Next(Next(s, a), b), [c, d]) == Run(Next(Next(Next(s, a), b), c), [d]);
    assert Run(Next(Next(Next(s, a), b), c), [d]) == Run(Next(Next(Next(Next(s, a), b), c), d), []);
  }
}
