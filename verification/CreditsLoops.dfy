/** The bodies of Pilaf's two loops, with their counters changed in place.  Taken without interruption each body is
    a run of the step protocol, so the protocol's guarantees hold for the loops. */
module CreditsLoops {
  import opened Credits

  /** A connection's state and the steps that led to it. */
  ghost predicate Reached(s: State, steps: seq<Step>, p: Params)
  {
    Sensible(p) && |s.client.phase| > 0 && Leads(Initial(p), steps, s, p)
  }

  /** What the loops' statements rely on. */
  lemma Facts(s: State, steps: seq<Step>, p: Params)
    requires Reached(s, steps, p)
    ensures p.period > 0 && |s.client.phase| > 0
    ensures s.server.pc.Replying? ==> s.server.todo > 0 && s.server.signalled > 0
    ensures s.client.pc.Reads? && s.client.signalledReads == 0 ==>
              s.client.numReads % p.period != 0 || s.client.numReads == 0 || s.client.numReads == s.client.oldReads
    ensures s.client.pc.Sends? && s.client.signalledSends == 0 ==>
              s.client.numSends % p.period != 0 || s.client.numSends == 0 || s.client.numSends == s.client.oldSends
  {
    InitialInv(p);
    RunKeeps(Initial(p), steps, s, p);
  }

  /** One more step of a run from the start. */
  lemma Advance(s: State, steps: seq<Step>, step: Step, t: State, p: Params)
    requires Reached(s, steps, p) && Exec(s, step, p) == Ok(t)
    ensures Reached(t, steps + [step], p)
  {
    InitialInv(p);
    RunKeeps(Initial(p), steps, s, p);
    StepKeeps(s, step, p);
    LeadsOn(Initial(p), steps, s, step, t, p);
  }

  lemma IssueResult(s: State, request: Request, t: State)
    requires |s.client.phase| > 0 && DoIssue(s, request) == Ok(t)
    ensures t.client.pc.Top? && t.client.iter == s.client.iter + 1
  {
  }

  class Connection {
    const p: Params

    // the server's variables and queues
    var totRecvs: int
    var totSends: nat
    var serverPosted: nat
    var serverCq: nat
    var serverTodo: nat
    var serverSignalled: nat
    var serverSendsPolled: nat
    ghost var serverPc: ServerPc

    // the client's
    var numRecvs: int
    var numReads: nat
    var oldNumReads: nat
    var numSends: nat
    var oldNumSends: nat
    var readSignal: bool
    var sendSignal: bool
    var iter: nat
    var wsPhase: seq<Phase>
    var clientPosted: nat
    var clientCq: nat
    var signalledReads: nat
    var signalledSends: nat
    ghost var clientPc: ClientPc

    // the network
    var toServer: nat
    var toClient: nat

    /** The steps taken since the start. */
    ghost var trace: seq<Step>

    ghost function ServerModel(): Server
      reads this`serverPc, this`serverPosted, this`serverCq, this`serverTodo, this`totRecvs, this`totSends,
            this`serverSignalled, this`serverSendsPolled
    {
      Server(serverPc, serverPosted, serverCq, serverTodo, totRecvs, totSends, serverSignalled, serverSendsPolled)
    }

    ghost function ClientModel(): Client
      reads this`clientPc, this`clientPosted, this`clientCq, this`numRecvs, this`numReads, this`oldNumReads,
            this`readSignal, this`signalledReads, this`numSends, this`oldNumSends, this`sendSignal,
            this`signalledSends, this`iter, this`wsPhase
    {
      Client(clientPc, clientPosted, clientCq, numRecvs, numReads, oldNumReads, readSignal, signalledReads,
             numSends, oldNumSends, sendSignal, signalledSends, iter, wsPhase)
    }

    ghost function Model(): State
      reads this
    {
      State(ServerModel(), ClientModel(), toServer, toClient)
    }

    /** The two sides are where the protocol gets by the steps taken. */
    ghost predicate Valid()
      reads this
    {
      Reached(Model(), trace, p)
    }

    constructor (p: Params)
      requires Sensible(p)
      ensures Valid() && this.p == p && trace == []
    {
      this.p := p;
      serverPc, serverPosted, serverCq, serverTodo := Greeting, p.q, 0, 0;
      totRecvs, totSends, serverSignalled, serverSendsPolled := p.q, 0, 0, 0;
      clientPc, clientPosted, clientCq, numRecvs := Awaiting, p.q, 0, 0;
      numReads, oldNumReads, readSignal, signalledReads := 0, 0, false, 0;
      numSends, oldNumSends, sendSignal, signalledSends := 0, 0, false, 0;
      iter, wsPhase, toServer, toClient := 0, seq(p.w, _ => Idle), 0, 0;
      trace := [];
      new;
      InitialInv(p);
    }

    // The statements of the server's loop, one step each.

    method TakeCompletions(n: nat)
      requires Valid() && serverPc.Polling? && 0 < n <= serverCq && n <= p.q
      modifies this
      ensures Valid() && trace == old(trace) + [Poll(n)]
      ensures serverPc.Refilling? && serverTodo == n && serverCq == old(serverCq) - n
      ensures toClient == old(toClient) && totSends == old(totSends)
    {
      hide Reached;
      ghost var s := Model();
      Facts(s, trace, p);
      serverCq := serverCq - n;
      totRecvs := totRecvs - n;
      serverTodo, serverPc := n, Refilling;
      assert DoPoll(s, n, p) == Ok(Model());
      Advance(s, trace, Poll(n), Model(), p);
      trace := trace + [Poll(n)];
    }

    method PostServerRecvs()
      requires Valid() && serverPc.Refilling?
      modifies this
      ensures Valid() && trace == old(trace) + [RefillServer]
      ensures serverPc.Replying? && serverTodo == old(serverTodo) && serverCq == old(serverCq)
      ensures toClient == old(toClient) && totSends == old(totSends)
    {
      hide Reached;
      ghost var s := Model();
      Facts(s, trace, p);
      if totRecvs < p.s {
        serverPosted := serverPosted + Loops(p.q - totRecvs);
        totRecvs := p.q;
      }
      serverPc := Replying;
      assert DoRefillServer(s, p) == Ok(Model());
      Advance(s, trace, RefillServer, Model(), p);
      trace := trace + [RefillServer];
    }

    /** Every so often the reply is signalled, after waiting for the signalled reply before. */
    method PostReply()
      requires serverPc.Replying? && serverTodo > 0 && serverSignalled > 0 && p.period > 0
      modifies this`serverSignalled, this`serverSendsPolled, this`toClient, this`totSends, this`serverTodo,
               this`serverPc
      ensures serverSignalled == old(serverSignalled) && toClient == old(toClient) + 1
      ensures totSends == old(totSends) + 1 && serverTodo == old(serverTodo) - 1
      ensures serverPc == if serverTodo == 0 then Polling else Replying
      ensures serverSendsPolled == old(serverSendsPolled) + (if old(totSends) % p.period == 0 then 1 else 0)
    {
      if totSends % p.period == 0 {
        serverSignalled, serverSendsPolled := serverSignalled - 1, serverSendsPolled + 1;
        serverSignalled := serverSignalled + 1;
      }
      toClient := toClient + 1;
      totSends := totSends + 1;
      serverTodo := serverTodo - 1;
      serverPc := if serverTodo == 0 then Polling else Replying;
    }

    method SendReply()
      requires Valid() && serverPc.Replying?
      modifies this
      ensures Valid() && trace == old(trace) + [Reply]
      ensures serverTodo == old(serverTodo) - 1 && serverPc == (if serverTodo == 0 then Polling else Replying)
      ensures toClient == old(toClient) + 1 && totSends == old(totSends) + 1 && serverCq == old(serverCq)
    {
      hide Reached;
      ghost var s := Model();
      Facts(s, trace, p);
      PostReply();
      assert DoReply(s, p) == Ok(Model());
      Advance(s, trace, Reply, Model(), p);
      trace := trace + [Reply];
    }

    /** One turn of the server's loop in which the poll returns `n` completions: `n` replies are sent. */
    method ServerTurn(n: nat)
      requires Valid() && serverPc.Polling? && 0 < n <= serverCq && n <= p.q
      modifies this
      ensures Valid() && trace == old(trace) + [Poll(n), RefillServer] + seq(n, _ => Reply)
      ensures serverPc.Polling? && serverCq == old(serverCq) - n
      ensures toClient == old(toClient) + n && totSends == old(totSends) + n
    {
      hide *;
      TakeCompletions(n);
      PostServerRecvs();
      var i := 0;
      while i < n
        invariant 0 <= i <= n && serverTodo == n - i && serverPc == (if i == n then Polling else Replying)
        invariant toClient == old(toClient) + i && totSends == old(totSends) + i && serverCq == old(serverCq) - n
        invariant Valid() && trace == old(trace) + [Poll(n), RefillServer] + seq(i, _ => Reply)
      {
        SendReply();
        i := i + 1;
      }
    }

    // The statements of the client's loop, one step each.

    method PostClientRecvs()
      requires Valid() && clientPc.Top?
      modifies this
      ensures Valid() && trace == old(trace) + [RefillClient]
      ensures clientPc.Reads? && clientCq == old(clientCq) && iter == old(iter) && wsPhase == old(wsPhase)
    {
      hide Reached;
      ghost var s := Model();
      Facts(s, trace, p);
      if numRecvs < p.s {
        clientPosted := clientPosted + Loops(p.q - numRecvs);
        numRecvs := p.q;
      }
      clientPc := Reads;
      assert DoRefillClient(s, p) == Ok(Model());
      Advance(s, trace, RefillClient, Model(), p);
      trace := trace + [RefillClient];
    }

    method PollReads()
      requires Valid() && clientPc.Reads?
      modifies this
      ensures Valid() && trace == old(trace) + [CheckReads]
      ensures clientPc.Sends? && clientCq == old(clientCq) && iter == old(iter) && wsPhase == old(wsPhase)
    {
      hide Reached;
      ghost var s := Model();
      Facts(s, trace, p);
      readSignal := false;
      if numReads % p.period == 0 {
        readSignal := true;
        if numReads != 0 && numReads != oldNumReads {
          signalledReads := signalledReads - 1;
          oldNumReads := numReads;
        }
      }
      clientPc := Sends;
      assert DoCheckReads(s, p) == Ok(Model());
      Advance(s, trace, CheckReads, Model(), p);
      trace := trace + [CheckReads];
    }

    method PollSends()
      requires Valid() && clientPc.Sends?
      modifies this
      ensures Valid() && trace == old(trace) + [CheckSends]
      ensures clientPc.Waiting? && clientCq == old(clientCq) && iter == old(iter) && wsPhase == old(wsPhase)
    {
      hide Reached;
      ghost var s := Model();
      Facts(s, trace, p);
      sendSignal := false;
      if numSends % p.period == 0 {
        sendSignal := true;
        if numSends != 0 && numSends != oldNumSends {
          signalledSends := signalledSends - 1;
          oldNumSends := numSends;
        }
      }
      clientPc := Waiting;
      assert DoCheckSends(s, p) == Ok(Model());
      Advance(s, trace, CheckSends, Model(), p);
      trace := trace + [CheckSends];
    }

    method CompletePhase()
      requires Valid() && clientPc.Waiting? && (wsPhase[iter % |wsPhase|].Send1? ==> clientCq > 0)
      modifies this
      ensures Valid() && trace == old(trace) + [Wait]
      ensures clientPc.Issuing? && iter == old(iter)
    {
      hide Reached;
      ghost var s := Model();
      Facts(s, trace, p);
      if wsPhase[iter % |wsPhase|] == Send1 {
        clientCq := clientCq - 1;
        numRecvs := numRecvs - 1;
      }
      clientPc := Issuing;
      assert DoWait(s) == Ok(Model());
      Advance(s, trace, Wait, Model(), p);
      trace := trace + [Wait];
    }

    method PostRead(slot: nat, phase: Phase)
      requires |wsPhase| > 0 && slot == iter % |wsPhase|
      modifies this`wsPhase, this`signalledReads, this`numReads, this`iter, this`clientPc
      ensures ClientModel() == IssueRead(old(ClientModel()), phase)
    {
      wsPhase := wsPhase[slot := phase];
      signalledReads := signalledReads + (if readSignal then 1 else 0);
      numReads, iter, clientPc := numReads + 1, iter + 1, Top;
    }

    method PostSend(slot: nat)
      requires |wsPhase| > 0 && slot == iter % |wsPhase|
      modifies this`wsPhase, this`signalledSends, this`numSends, this`toServer, this`iter, this`clientPc
      ensures ClientModel() == IssueSend(old(ClientModel())) && toServer == old(toServer) + 1
    {
      wsPhase := wsPhase[slot := Send1];
      signalledSends := signalledSends + (if sendSignal then 1 else 0);
      toServer, numSends, iter, clientPc := toServer + 1, numSends + 1, iter + 1, Top;
    }

    method PostNext(request: Request)
      requires |wsPhase| > 0 && clientPc.Issuing?
      modifies this`wsPhase, this`signalledReads, this`numReads, this`signalledSends, this`numSends, this`toServer,
               this`iter, this`clientPc
      ensures DoIssue(old(Model()), request) == Ok(Model())
    {
      var slot := iter % |wsPhase|;
      var pp := wsPhase[slot];
      if pp == Read1 {
        PostRead(slot, Read2);
      } else if pp == Read2 {
        PostRead(slot, Read3);
      } else if request == Put {
        PostSend(slot);
      } else {
        PostRead(slot, if request == GetOfTwo then Read1 else Read2);
      }
    }

    method IssueNext(request: Request)
      requires Valid() && clientPc.Issuing?
      modifies this
      ensures Valid() && trace == old(trace) + [Issue(request)]
      ensures clientPc.Top? && iter == old(iter) + 1
    {
      hide Reached;
      ghost var s := Model();
      Facts(s, trace, p);
      PostNext(request);
      IssueResult(s, request, Model());
      Advance(s, trace, Issue(request), Model(), p);
      trace := trace + [Issue(request)];
    }

    /** One turn of the client's loop; it must not be waiting for an answer that has not arrived. */
    method ClientTurn(request: Request)
      requires Valid() && clientPc.Top? && (wsPhase[iter % |wsPhase|].Send1? ==> clientCq > 0)
      modifies this
      ensures Valid() && trace == old(trace) + [RefillClient, CheckReads, CheckSends, Wait, Issue(request)]
      ensures clientPc.Top? && iter == old(iter) + 1
    {
      hide *;
      PostClientRecvs();
      PollReads();
      PollSends();
      CompletePhase();
      IssueNext(request);
    }
  }
}
