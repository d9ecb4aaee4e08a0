/** Pilaf's SEND/RECV credits: one client and one server that count posted receives and signalled sends, as a
    protocol of atomic steps.  Each step is one statement of either loop that touches a queue or a counter, or a
    delivery by the network; any order of the two parties' and the network's steps is allowed. */
module Credits {

  /** Receives posted at a time, the level below which more are posted, the number of window slots, and the period
      after which an operation is signalled (one more than the bit mask in the source). */
  datatype Params = Params(q: nat, s: nat, w: nat, period: nat)

  predicate Sensible(p: Params)
  {
    0 < p.w < p.s < p.q && p.period > 0
  }

  datatype Phase = Idle | Read1 | Read2 | Read3 | Send1

  datatype ServerPc = Greeting | Polling | Refilling | Replying
  datatype ClientPc = Awaiting | Top | Reads | Sends | Waiting | Issuing

  /** The server's side: receives posted and not used, completed receives not polled, requests polled and not
      answered, the two counters, and signalled sends not polled and polled. */
  datatype Server = Server(pc: ServerPc, posted: nat, cq: nat, todo: nat, totRecvs: int, totSends: nat, signalled: nat,
                           sendsPolled: nat)

  /** The client's side: the same, and its window. */
  datatype Client = Client(
    pc: ClientPc, posted: nat, cq: nat, numRecvs: int,
    numReads: nat, oldReads: nat, readSignal: bool, signalledReads: nat,
    numSends: nat, oldSends: nat, sendSignal: bool, signalledSends: nat,
    iter: nat, phase: seq<Phase>)

  /** Both sides, and the messages on their way. */
  datatype State = State(server: Server, client: Client, toServer: nat, toClient: nat)

  /** Choices: how many completions a poll returns, and what the client asks for next. */
  datatype Request = Put | GetOfTwo | GetOfOne
  datatype Step =
    | Greet | Poll(n: nat) | RefillServer | Reply
    | Await | RefillClient | CheckReads | CheckSends | Wait | Issue(request: Request)
    | DeliverToServer | DeliverToClient

  /** A step may have to wait until another one enables it.  The bad outcomes: a message finds no posted receive, or
      a poll for a signalled operation waits although none is outstanding. */
  datatype Outcome = Ok(state: State) | NotNow | Dropped | Starved

  /** The states in which the two loops have been entered and nothing has been sent; all receives are posted. */
  function Initial(p: Params): State
  {
    State(Server(Greeting, p.q, 0, 0, p.q, 0, 0, 0),
          Client(Awaiting, p.q, 0, 0, 0, 0, false, 0, 0, 0, false, 0, 0, seq(p.w, _ => Idle)), 0, 0)
  }

  /** How often post_recvs goes round for a count. */
  function Loops(n: int): nat
  {
    if n > 0 then n else 0
  }

  // ---------------------------------------------------------------- the server's steps

  function DoGreet(s: State): Outcome
  {
    if !s.server.pc.Greeting? then NotNow
    else
      var v := s.server;
      Ok(s.(server := v.(pc := Polling, totSends := v.totSends + 1, signalled := v.signalled + 1),
               toClient := s.toClient + 1))
  }

  function DoPoll(s: State, n: nat, p: Params): Outcome
  {
    var v := s.server;
    if !v.pc.Polling? || n == 0 || n > v.cq || n > p.q then NotNow
    else Ok(s.(server := v.(pc := Refilling, cq := v.cq - n, totRecvs := v.totRecvs - n, todo := n)))
  }

  function DoRefillServer(s: State, p: Params): Outcome
  {
    var v := s.server;
    if !v.pc.Refilling? then NotNow
    else if v.totRecvs < p.s then
      Ok(s.(server := v.(pc := Replying, posted := v.posted + Loops(p.q - v.totRecvs), totRecvs := p.q)))
    else Ok(s.(server := v.(pc := Replying)))
  }

  /** A signalled reply is posted after the signalled one before it has been polled, so their number stays. */
  function DoReply(s: State, p: Params): Outcome
    requires p.period > 0
  {
    var v := s.server;
    if !v.pc.Replying? || v.todo == 0 then NotNow
    else if v.totSends % p.period == 0 && v.signalled == 0 then Starved
    else
      var pc := if v.todo == 1 then Polling else Replying;
      var polled := if v.totSends % p.period == 0 then 1 else 0;
      Ok(s.(server := v.(pc := pc, todo := v.todo - 1, totSends := v.totSends + 1,
                         sendsPolled := v.sendsPolled + polled),
               toClient := s.toClient + 1))
  }

  // ---------------------------------------------------------------- the client's steps

  function DoAwait(s: State, p: Params): Outcome
  {
    var c := s.client;
    if !c.pc.Awaiting? || c.cq == 0 then NotNow
    else Ok(s.(client := c.(pc := Top, cq := c.cq - 1, numRecvs := p.q - 1)))
  }

  function DoRefillClient(s: State, p: Params): Outcome
  {
    var c := s.client;
    if !c.pc.Top? then NotNow
    else if c.numRecvs < p.s then
      Ok(s.(client := c.(pc := Reads, posted := c.posted + Loops(p.q - c.numRecvs), numRecvs := p.q)))
    else Ok(s.(client := c.(pc := Reads)))
  }

  function DoCheckReads(s: State, p: Params): Outcome
    requires p.period > 0
  {
    var c := s.client;
    if !c.pc.Reads? then NotNow
    else if c.numReads % p.period != 0 then Ok(s.(client := c.(pc := Sends, readSignal := false)))
    else if c.numReads == 0 || c.numReads == c.oldReads then Ok(s.(client := c.(pc := Sends, readSignal := true)))
    else if c.signalledReads == 0 then Starved
    else Ok(s.(client := c.(pc := Sends, readSignal := true, signalledReads := c.signalledReads - 1,
                            oldReads := c.numReads)))
  }

  function DoCheckSends(s: State, p: Params): Outcome
    requires p.period > 0
  {
    var c := s.client;
    if !c.pc.Sends? then NotNow
    else if c.numSends % p.period != 0 then Ok(s.(client := c.(pc := Waiting, sendSignal := false)))
    else if c.numSends == 0 || c.numSends == c.oldSends then Ok(s.(client := c.(pc := Waiting, sendSignal := true)))
    else if c.signalledSends == 0 then Starved
    else Ok(s.(client := c.(pc := Waiting, sendSignal := true, signalledSends := c.signalledSends - 1,
                            oldSends := c.numSends)))
  }

  function SlotOf(c: Client): nat
    requires |c.phase| > 0
  {
    c.iter % |c.phase|
  }

  /** Completing the previous phase: a PUT waits for the server's answer; a READ's data arrive by themselves. */
  function DoWait(s: State): Outcome
    requires |s.client.phase| > 0
  {
    var c := s.client;
    if !c.pc.Waiting? then NotNow
    else if !c.phase[SlotOf(c)].Send1? then Ok(s.(client := c.(pc := Issuing)))
    else if c.cq == 0 then NotNow
    else Ok(s.(client := c.(pc := Issuing, cq := c.cq - 1, numRecvs := c.numRecvs - 1)))
  }

  function IssueRead(c: Client, phase: Phase): Client
    requires |c.phase| > 0
  {
    c.(pc := Top, iter := c.iter + 1, phase := c.phase[SlotOf(c) := phase], numReads := c.numReads + 1,
       signalledReads := c.signalledReads + (if c.readSignal then 1 else 0))
  }

  function IssueSend(c: Client): Client
    requires |c.phase| > 0
  {
    c.(pc := Top, iter := c.iter + 1, phase := c.phase[SlotOf(c) := Send1], numSends := c.numSends + 1,
       signalledSends := c.signalledSends + (if c.sendSignal then 1 else 0))
  }

  function DoIssue(s: State, request: Request): Outcome
    requires |s.client.phase| > 0
  {
    var c := s.client;
    if !c.pc.Issuing? then NotNow
    else match c.phase[SlotOf(c)]
      case Read1 => Ok(s.(client := IssueRead(c, Read2)))
      case Read2 => Ok(s.(client := IssueRead(c, Read3)))
      case _ =>
        match request
        case Put => Ok(s.(client := IssueSend(c), toServer := s.toServer + 1))
        case GetOfTwo => Ok(s.(client := IssueRead(c, Read1)))
        case GetOfOne => Ok(s.(client := IssueRead(c, Read2)))
  }

  // ---------------------------------------------------------------- the network's steps

  function DoDeliverToServer(s: State): Outcome
  {
    if s.toServer == 0 then NotNow
    else if s.server.posted == 0 then Dropped
    else Ok(s.(server := s.server.(posted := s.server.posted - 1, cq := s.server.cq + 1), toServer := s.toServer - 1))
  }

  function DoDeliverToClient(s: State): Outcome
  {
    if s.toClient == 0 then NotNow
    else if s.client.posted == 0 then Dropped
    else Ok(s.(client := s.client.(posted := s.client.posted - 1, cq := s.client.cq + 1), toClient := s.toClient - 1))
  }

  function Exec(s: State, step: Step, p: Params): Outcome
    requires p.period > 0 && |s.client.phase| > 0
  {
    match step
    case Greet => DoGreet(s)
    case Poll(n) => DoPoll(s, n, p)
    case RefillServer => DoRefillServer(s, p)
    case Reply => DoReply(s, p)
    case Await => DoAwait(s, p)
    case RefillClient => DoRefillClient(s, p)
    case CheckReads => DoCheckReads(s, p)
    case CheckSends => DoCheckSends(s, p)
    case Wait => DoWait(s)
    case Issue(request) => DoIssue(s, request)
    case DeliverToServer => DoDeliverToServer(s)
    case DeliverToClient => DoDeliverToClient(s)
  }

  // ---------------------------------------------------------------- the invariant

  /** The number of slots waiting for an answer. */
  function Puts(phase: seq<Phase>): (n: nat)
    ensures n <= |phase|
  {
    if phase == [] then 0 else Puts(phase[1..]) + (if phase[0].Send1? then 1 else 0)
  }

  /** The requests under way, wherever they are: on the way to the server, completed there, polled, on the way back
      or completed at the client. */
  function UnderWay(s: State): nat
  {
    s.toServer + s.server.cq + s.server.todo + s.toClient + s.client.cq
  }

  /** At `n` operations, the number of signalled ones not yet polled. */
  function Owed(n: nat, polledAt: nat, period: nat): nat
    requires period > 0
  {
    if n == 0 || (n % period == 0 && polledAt == n) then 0 else 1
  }

  /** `totRecvs` counts the receives posted and not polled, and at the loop's head lies between the two levels. */
  predicate ServerOk(v: Server, p: Params)
  {
    && v.totRecvs == v.posted + v.cq && v.totRecvs <= p.q
    && (v.pc.Refilling? ==> v.totRecvs + v.todo >= p.s)
    && (!v.pc.Refilling? ==> v.totRecvs >= p.s)
    && (v.todo > 0 <==> v.pc.Refilling? || v.pc.Replying?)
    && (v.pc.Greeting? ==> v.totSends == 0 && v.signalled == 0)
    && (!v.pc.Greeting? ==> v.totSends > 0 && v.signalled == 1)
  }

  predicate ClientRecvsOk(c: Client, p: Params)
  {
    && (c.pc.Awaiting? ==> c.posted + c.cq == p.q)
    && (!c.pc.Awaiting? ==> c.numRecvs == c.posted + c.cq && c.numRecvs <= p.q)
    && (c.pc.Reads? || c.pc.Sends? || c.pc.Waiting? ==> c.numRecvs >= p.s)
    && (c.pc.Issuing? || c.pc.Top? ==> c.numRecvs >= p.s - 1)
  }

  predicate ClientSignalsOk(c: Client, p: Params)
    requires p.period > 0
  {
    && c.signalledReads == Owed(c.numReads, c.oldReads, p.period)
    && c.signalledSends == Owed(c.numSends, c.oldSends, p.period)
    && c.oldReads <= c.numReads && c.oldSends <= c.numSends
    && (c.pc.Sends? || c.pc.Waiting? || c.pc.Issuing? ==>
          c.readSignal == (c.numReads % p.period == 0) && (c.readSignal ==> c.signalledReads == 0))
    && (c.pc.Waiting? || c.pc.Issuing? ==>
          c.sendSignal == (c.numSends % p.period == 0) && (c.sendSignal ==> c.signalledSends == 0))
  }

  /** Every slot in phase Send1 has its request under way, except that in between `Wait` and `Issue` the current
      slot's answer has been taken. */
  predicate WindowOk(s: State, p: Params)
  {
    var c := s.client;
    && |c.phase| == p.w > 0
    && (if c.pc.Awaiting? then
          Puts(c.phase) == 0 && UnderWay(s) == (if s.server.pc.Greeting? then 0 else 1)
          && s.toServer == s.server.cq == s.server.todo == 0
        else
          && !s.server.pc.Greeting?
          && UnderWay(s) == Puts(c.phase) - (if c.pc.Issuing? && c.phase[SlotOf(c)].Send1? then 1 else 0))
  }

  predicate Inv(s: State, p: Params)
  {
    Sensible(p) && ServerOk(s.server, p) && ClientRecvsOk(s.client, p) && ClientSignalsOk(s.client, p) && WindowOk(s, p)
  }

  lemma {:induction false} PutsUpdate(phase: seq<Phase>, i: nat, x: Phase)
    requires i < |phase|
    ensures Puts(phase[i := x]) == Puts(phase) - (if phase[i].Send1? then 1 else 0) + (if x.Send1? then 1 else 0)
  {
    if i == 0 {
      assert phase[0 := x][1..] == phase[1..];
    } else {
      assert phase[i := x][1..] == phase[1..][i - 1 := x];
      PutsUpdate(phase[1..], i - 1, x);
    }
  }

  lemma {:induction false} PutsIdle(w: nat)
    ensures Puts(seq(w, _ => Idle)) == 0
  {
    if w > 0 {
      assert seq(w, _ => Idle)[1..] == seq(w - 1, _ => Idle);
      PutsIdle(w - 1);
    }
  }

  lemma InitialInv(p: Params)
    requires Sensible(p)
    ensures Inv(Initial(p), p)
  {
    PutsIdle(p.w);
  }

  lemma OwedNext(n: nat, polledAt: nat, period: nat)
    requires period > 0 && polledAt <= n
    ensures Owed(n + 1, polledAt, period) == 1
    ensures n % period != 0 ==> Owed(n, polledAt, period) == 1
  {
  }

  lemma IssueReadKeeps(s: State, p: Params, phase: Phase)
    requires Inv(s, p) && s.client.pc.Issuing? && !phase.Send1?
    ensures Inv(s.(client := IssueRead(s.client, phase)), p)
  {
    var c := s.client;
    PutsUpdate(c.phase, SlotOf(c), phase);
    OwedNext(c.numReads, c.oldReads, p.period);
  }

  lemma IssueSendKeeps(s: State, p: Params)
    requires Inv(s, p) && s.client.pc.Issuing?
    ensures Inv(s.(client := IssueSend(s.client), toServer := s.toServer + 1), p)
  {
    var c := s.client;
    PutsUpdate(c.phase, SlotOf(c), Send1);
    OwedNext(c.numSends, c.oldSends, p.period);
  }

  lemma IssueKeeps(s: State, p: Params, request: Request)
    requires Inv(s, p) && s.client.pc.Issuing?
    ensures DoIssue(s, request).Ok? && Inv(DoIssue(s, request).state, p)
  {
    assert |s.client.phase| > 0;
    hide Inv, IssueRead, IssueSend;
    IssueReadKeeps(s, p, Read1);
    IssueReadKeeps(s, p, Read2);
    IssueReadKeeps(s, p, Read3);
    IssueSendKeeps(s, p);
  }

  lemma ServerKeeps(s: State, step: Step, p: Params)
    requires Inv(s, p) && (step.Greet? || step.Poll? || step.RefillServer? || step.Reply?)
    ensures var r := Exec(s, step, p); r.NotNow? || (r.Ok? && Inv(r.state, p))
  {
  }

  lemma RecvsKeep(s: State, step: Step, p: Params)
    requires Inv(s, p) && (step.Await? || step.RefillClient? || step.Wait?)
    ensures var r := Exec(s, step, p); r.NotNow? || (r.Ok? && Inv(r.state, p))
  {
  }

  lemma ReadsKeep(s: State, p: Params)
    requires Inv(s, p)
    ensures var r := DoCheckReads(s, p); r.NotNow? || (r.Ok? && Inv(r.state, p))
  {
  }

  lemma SendsKeep(s: State, p: Params)
    requires Inv(s, p)
    ensures var r := DoCheckSends(s, p); r.NotNow? || (r.Ok? && Inv(r.state, p))
  {
  }

  lemma NetworkKeeps(s: State, step: Step, p: Params)
    requires Inv(s, p) && (step.DeliverToServer? || step.DeliverToClient?)
    ensures var r := Exec(s, step, p); r.NotNow? || (r.Ok? && Inv(r.state, p))
  {
  }

  /** No step drops a message or starves, and every step keeps the invariant. */
  lemma StepKeeps(s: State, step: Step, p: Params)
    requires Inv(s, p)
    ensures var r := Exec(s, step, p); r.NotNow? || (r.Ok? && Inv(r.state, p))
  {
    match step {
      case Issue(request) => if s.client.pc.Issuing? { IssueKeeps(s, p, request); }
      case DeliverToServer => NetworkKeeps(s, step, p);
      case DeliverToClient => NetworkKeeps(s, step, p);
      case Greet => ServerKeeps(s, step, p);
      case Poll(_) => ServerKeeps(s, step, p);
      case RefillServer => ServerKeeps(s, step, p);
      case Reply => ServerKeeps(s, step, p);
      case CheckReads => ReadsKeep(s, p);
      case CheckSends => SendsKeep(s, p);
      case _ => RecvsKeep(s, step, p);
    }
  }

  // ---------------------------------------------------------------- whole runs

  /** The steps, taken in this order, lead from one state to another. */
  ghost predicate Leads(s: State, steps: seq<Step>, t: State, p: Params)
    requires p.period > 0
    decreases |steps|
  {
    if steps == [] then s == t
    else
      var n := |steps| - 1;
      exists r: State :: Leads(s, steps[..n], r, p) && |r.client.phase| > 0 && Exec(r, steps[n], p) == Ok(t)
  }

  lemma LeadsOn(s: State, steps: seq<Step>, r: State, step: Step, t: State, p: Params)
    requires p.period > 0 && Leads(s, steps, r, p) && |r.client.phase| > 0 && Exec(r, step, p) == Ok(t)
    ensures Leads(s, steps + [step], t, p)
  {
    assert (steps + [step])[..|steps|] == steps;
  }

  lemma {:induction false} RunKeeps(s: State, steps: seq<Step>, t: State, p: Params)
    requires Inv(s, p) && Leads(s, steps, t, p)
    ensures Inv(t, p)
    decreases |steps|
  {
    if steps != [] {
      var n := |steps| - 1;
      var r: State :| Leads(s, steps[..n], r, p) && |r.client.phase| > 0 && Exec(r, steps[n], p) == Ok(t);
      RunKeeps(s, steps[..n], r, p);
      StepKeeps(r, steps[n], p);
    }
  }

  /** Safety: after any interleaving no step can drop a message or wait for a completion that will not come; both
      receive counters tell the receives posted and not polled, between the two levels at the loops' heads; and each
      poll for a signalled operation meets exactly one. */
  lemma CreditSafety(steps: seq<Step>, s: State, step: Step, p: Params)
    requires Sensible(p) && Leads(Initial(p), steps, s, p)
    ensures var v, c := s.server, s.client;
            && |c.phase| > 0 && !Exec(s, step, p).Dropped? && !Exec(s, step, p).Starved?
            && v.totRecvs == v.posted + v.cq && (v.pc.Polling? ==> p.s <= v.totRecvs <= p.q)
            && (!c.pc.Awaiting? ==> c.numRecvs == c.posted + c.cq)
            && (c.pc.Reads? || c.pc.Sends? || c.pc.Waiting? ==> p.s <= c.numRecvs <= p.q)
            && (v.pc.Replying? && v.totSends % p.period == 0 ==> v.signalled == 1)
            && (c.pc.Reads? && c.numReads % p.period == 0 && c.numReads != 0 && c.numReads != c.oldReads ==>
                  c.signalledReads == 1)
            && (c.pc.Sends? && c.numSends % p.period == 0 && c.numSends != 0 && c.numSends != c.oldSends ==>
                  c.signalledSends == 1)
  {
    InitialInv(p);
    RunKeeps(Initial(p), steps, s, p);
    StepKeeps(s, step, p);
  }

  /** Conservation, at every step: once greeted, there are exactly as many requests under way as slots waiting for an
      answer, not counting the slot whose answer the client has just taken; before, the greeting and nothing else. */
  lemma Conservation(steps: seq<Step>, s: State, p: Params)
    requires Sensible(p) && Leads(Initial(p), steps, s, p)
    ensures |s.client.phase| == p.w && Puts(s.client.phase) <= p.w
    ensures var taken := s.client.pc.Issuing? && s.client.phase[SlotOf(s.client)].Send1?;
            if s.client.pc.Awaiting? then
              Puts(s.client.phase) == 0 && UnderWay(s) == if s.server.pc.Greeting? then 0 else 1
            else UnderWay(s) == Puts(s.client.phase) - (if taken then 1 else 0)
  {
    InitialInv(p);
    RunKeeps(Initial(p), steps, s, p);
  }

  // ---------------------------------------------------------------- progress

  /** How many steps the server and the network still have to take. */
  function Work(s: State): nat
  {
    5 * s.toServer + 4 * s.server.cq + 2 * s.server.todo + s.toClient
    + (if s.server.pc.Refilling? then 1 else 0) + (if s.server.pc.Greeting? then 2 else 0)
  }

  predicate ServerSide(step: Step)
  {
    step.Greet? || step.Poll? || step.RefillServer? || step.Reply? || step.DeliverToServer? || step.DeliverToClient?
  }

  /** Each step of the server or the network leaves less work. */
  lemma WorkShrinks(s: State, step: Step, p: Params)
    requires Inv(s, p) && ServerSide(step) && Exec(s, step, p).Ok?
    ensures Work(Exec(s, step, p).state) < Work(s)
  {
  }

  /** The client's next statement, whatever it asks for. */
  function ClientStep(s: State): Step
  {
    match s.client.pc
    case Awaiting => Await
    case Top => RefillClient
    case Reads => CheckReads
    case Sends => CheckSends
    case Waiting => Wait
    case Issuing => Issue(Put)
  }

  function ServerStep(s: State): Step
  {
    if s.toClient > 0 then DeliverToClient
    else if s.server.pc.Greeting? then Greet
    else if s.server.pc.Refilling? then RefillServer
    else if s.server.todo > 0 then Reply
    else if s.server.cq > 0 then Poll(1)
    else DeliverToServer
  }

  /** The client's next statement polls for a message of the server. */
  predicate Expecting(c: Client)
    requires |c.phase| > 0
  {
    c.pc.Awaiting? || (c.pc.Waiting? && c.phase[SlotOf(c)].Send1?)
  }

  /** The client goes on, unless it waits for an answer that has not arrived. */
  lemma ClientGoesOn(s: State, p: Params)
    requires Inv(s, p)
    ensures Exec(s, ClientStep(s), p).Ok? <==> !(Expecting(s.client) && s.client.cq == 0)
  {
    StepKeeps(s, ClientStep(s), p);
  }

  lemma {:induction false} PutsHas(phase: seq<Phase>, i: nat)
    requires i < |phase| && phase[i].Send1?
    ensures Puts(phase) > 0
  {
    if i > 0 {
      PutsHas(phase[1..], i - 1);
    }
  }

  /** A client that waits is never waiting in vain: the server or the network can take a step, and can take only as
      many as there is work before the answer has arrived. */
  lemma NoDeadlock(s: State, p: Params)
    requires Inv(s, p) && Exec(s, ClientStep(s), p).NotNow?
    ensures Work(s) > 0 && Exec(s, ServerStep(s), p).Ok? && ServerSide(ServerStep(s))
    ensures Work(Exec(s, ServerStep(s), p).state) < Work(s)
  {
    ClientGoesOn(s, p);
    if s.client.pc.Waiting? {
      PutsHas(s.client.phase, SlotOf(s.client));
    }
    StepKeeps(s, ServerStep(s), p);
    WorkShrinks(s, ServerStep(s), p);
  }

  /** Without further steps of its own, a waiting client can go on after at most Work(s) steps of the server and the
      network. */
  lemma {:induction false} WaitEnds(s: State, p: Params) returns (steps: seq<Step>, t: State)
    requires Inv(s, p)
    ensures |steps| <= Work(s) && (forall i | 0 <= i < |steps| :: ServerSide(steps[i])) && Leads(s, steps, t, p)
    ensures Inv(t, p) && Exec(t, ClientStep(t), p).Ok?
  {
    steps, t := [], s;
    while !Exec(t, ClientStep(t), p).Ok?
      invariant Inv(t, p) && Leads(s, steps, t, p) && |steps| + Work(t) <= Work(s)
      invariant forall i | 0 <= i < |steps| :: ServerSide(steps[i])
      decreases Work(t)
    {
      var step := ServerStep(t);
      StepKeeps(t, ClientStep(t), p);
      NoDeadlock(t, p);
      StepKeeps(t, step, p);
      LeadsOn(s, steps, t, step, Exec(t, step, p).state, p);
      steps, t := steps + [step], Exec(t, step, p).state;
    }
  }

  lemma {:induction false} ServerRunWorks(s: State, steps: seq<Step>, t: State, p: Params)
    requires Inv(s, p) && Leads(s, steps, t, p) && forall i | 0 <= i < |steps| :: ServerSide(steps[i])
    ensures Inv(t, p) && |steps| + Work(t) <= Work(s)
    decreases |steps|
  {
    if steps != [] {
      var n := |steps| - 1;
      var r: State :| Leads(s, steps[..n], r, p) && |r.client.phase| > 0 && Exec(r, steps[n], p) == Ok(t);
      ServerRunWorks(s, steps[..n], r, p);
      StepKeeps(r, steps[n], p);
      WorkShrinks(r, steps[n], p);
    }
  }

  /** Whatever the server and the network do, they take at most Work(s) steps, and when they have taken that many, or
      can take no other, the client can go on. */
  lemma EveryWaitEnds(s: State, steps: seq<Step>, t: State, p: Params)
    requires Inv(s, p) && Leads(s, steps, t, p) && forall i | 0 <= i < |steps| :: ServerSide(steps[i])
    ensures |t.client.phase| > 0 && |steps| <= Work(s)
    ensures |steps| == Work(s) || (forall step :: ServerSide(step) ==> !Exec(t, step, p).Ok?) ==>
              Exec(t, ClientStep(t), p).Ok?
  {
    ServerRunWorks(s, steps, t, p);
    StepKeeps(t, ClientStep(t), p);
    if Exec(t, ClientStep(t), p).NotNow? {
      NoDeadlock(t, p);
    }
  }
}
