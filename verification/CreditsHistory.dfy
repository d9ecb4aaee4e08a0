/** What whole runs of the credit protocol amount to: how many operations each request takes, and how seldom receives
    are posted. */
module CreditsHistory {
  import opened Credits

  /** A run with all its states. */
  ghost predicate Trace(states: seq<State>, steps: seq<Step>, p: Params)
  {
    && p.period > 0 && |states| == |steps| + 1
    && forall i | 0 <= i < |steps| :: |states[i].client.phase| > 0 && Exec(states[i], steps[i], p) == Ok(states[i + 1])
  }

  lemma TraceStep(states: seq<State>, steps: seq<Step>, i: nat, p: Params)
    requires Trace(states, steps, p) && i < |steps|
    ensures |states[i].client.phase| > 0 && Exec(states[i], steps[i], p) == Ok(states[i + 1])
  {
  }

  lemma TraceOn(states: seq<State>, steps: seq<Step>, step: Step, t: State, p: Params)
    requires Trace(states, steps, p) && |states[|steps|].client.phase| > 0 && Exec(states[|steps|], step, p) == Ok(t)
    ensures Trace(states + [t], steps + [step], p)
  {
    hide Exec;
  }

  lemma TraceBefore(states: seq<State>, steps: seq<Step>, n: nat, p: Params)
    requires Trace(states, steps, p) && n <= |steps|
    ensures Trace(states[..n + 1], steps[..n], p)
  {
    hide Exec;
  }

  lemma {:induction false} LeadsTrace(s: State, steps: seq<Step>, t: State, p: Params) returns (states: seq<State>)
    requires p.period > 0 && Leads(s, steps, t, p)
    ensures Trace(states, steps, p) && states[0] == s && states[|steps|] == t
    decreases |steps|
  {
    hide Exec, Trace;
    if steps == [] {
      states := [s];
      TraceOne(s, p);
    } else {
      var n := |steps| - 1;
      var r: State :| Leads(s, steps[..n], r, p) && |r.client.phase| > 0 && Exec(r, steps[n], p) == Ok(t);
      var before := LeadsTrace(s, steps[..n], r, p);
      TraceLength(before, steps[..n], p);
      TraceOn(before, steps[..n], steps[n], t, p);
      assert steps == steps[..n] + [steps[n]];
      states := before + [t];
    }
  }

  lemma TraceOne(s: State, p: Params)
    requires p.period > 0
    ensures Trace([s], [], p)
  {
  }

  lemma TraceLength(states: seq<State>, steps: seq<Step>, p: Params)
    requires Trace(states, steps, p)
    ensures |states| == |steps| + 1 && p.period > 0
  {
  }

  lemma {:induction false} TraceLeads(states: seq<State>, steps: seq<Step>, p: Params)
    requires Trace(states, steps, p)
    ensures Leads(states[0], steps, states[|steps|], p)
    decreases |steps|
  {
    if steps != [] {
      var n := |steps| - 1;
      TraceBefore(states, steps, n, p);
      TraceLeads(states[..n + 1], steps[..n], p);
      TraceStep(states, steps, n, p);
      hide Exec, Trace;
    }
  }

  /** The steps lead from one state to another exactly if some states lie between them. */
  lemma LeadsIffTrace(s: State, steps: seq<Step>, t: State, p: Params)
    requires p.period > 0
    ensures Leads(s, steps, t, p) <==>
            exists states :: Trace(states, steps, p) && states[0] == s && states[|steps|] == t
  {
    if Leads(s, steps, t, p) {
      var states := LeadsTrace(s, steps, t, p);
    }
    if states :| Trace(states, steps, p) && states[0] == s && states[|steps|] == t {
      TraceLeads(states, steps, p);
    }
  }

  // ---------------------------------------------------------------- operations of a window slot

  /** The client is at window slot `x`. */
  predicate AtSlot(s: State, x: nat)
  {
    |s.client.phase| > 0 && s.client.iter % |s.client.phase| == x
  }

  /** The slot has no request, or a finished one, and so takes the next request. */
  predicate Free(s: State, x: nat)
  {
    x < |s.client.phase| && (s.client.phase[x].Idle? || s.client.phase[x].Read3? || s.client.phase[x].Send1?)
  }

  predicate Takes(s: State, step: Step, x: nat)
  {
    step.Issue? && AtSlot(s, x) && Free(s, x)
  }

  /** The requests of one kind that the slot has taken in the first `n` steps ... */
  function Taken(states: seq<State>, steps: seq<Step>, n: nat, x: nat, request: Request): nat
    requires n <= |steps| < |states|
  {
    if n == 0 then 0
    else Taken(states, steps, n - 1, x, request) +
         (if Takes(states[n - 1], steps[n - 1], x) && steps[n - 1].request == request then 1 else 0)
  }

  /** ... and the READs and SENDs it has issued. */
  function ReadsOf(states: seq<State>, n: nat, x: nat): int
    requires n < |states|
  {
    if n == 0 then 0
    else ReadsOf(states, n - 1, x) +
         (if AtSlot(states[n - 1], x) then states[n].client.numReads - states[n - 1].client.numReads else 0)
  }

  function SendsOf(states: seq<State>, n: nat, x: nat): int
    requires n < |states|
  {
    if n == 0 then 0
    else SendsOf(states, n - 1, x) +
         (if AtSlot(states[n - 1], x) then states[n].client.numSends - states[n - 1].client.numSends else 0)
  }

  /** READs that an open request of the slot still needs. */
  function Left(phase: Phase): nat
  {
    match phase case Read1 => 2 case Read2 => 1 case _ => 0
  }

  /** The READs a request takes. */
  function Cost(request: Request): nat
  {
    match request case Put => 0 case GetOfTwo => 3 case GetOfOne => 2
  }

  lemma IssueAtSlot(s: State, request: Request, t: State, x: nat)
    requires x < |s.client.phase| && DoIssue(s, request) == Ok(t)
    ensures |t.client.phase| == |s.client.phase| && t.client.iter == s.client.iter + 1
    ensures !AtSlot(s, x) ==> t.client.phase[x] == s.client.phase[x]
    ensures var free := Free(s, x);
            AtSlot(s, x) ==>
              && t.client.numReads - s.client.numReads + Left(t.client.phase[x]) ==
                 Left(s.client.phase[x]) + (if free then Cost(request) else 0)
              && t.client.numSends - s.client.numSends == if free && request.Put? then 1 else 0
  {
  }

  lemma ElseAtSlot(s: State, step: Step, t: State, p: Params)
    requires p.period > 0 && |s.client.phase| > 0 && Exec(s, step, p) == Ok(t) && !step.Issue?
    ensures t.client.phase == s.client.phase && t.client.iter == s.client.iter
    ensures t.client.numReads == s.client.numReads && t.client.numSends == s.client.numSends
  {
  }

  /** One step, seen from a slot: an operation at the slot is one READ or one SEND, and nothing else changes it. */
  lemma StepAtSlot(s: State, step: Step, t: State, p: Params, x: nat)
    requires p.period > 0 && |s.client.phase| == p.w > x && Exec(s, step, p) == Ok(t)
    ensures |t.client.phase| == p.w && t.client.iter == s.client.iter + (if step.Issue? then 1 else 0)
    ensures !(step.Issue? && AtSlot(s, x)) ==>
              t.client.phase[x] == s.client.phase[x] &&
              (AtSlot(s, x) ==> t.client.numReads == s.client.numReads && t.client.numSends == s.client.numSends)
    ensures var gain := if Takes(s, step, x) then Cost(step.request) else 0;
            step.Issue? && AtSlot(s, x) ==>
              && t.client.numReads - s.client.numReads + Left(t.client.phase[x]) == Left(s.client.phase[x]) + gain
              && t.client.numSends - s.client.numSends == if Takes(s, step, x) && step.request.Put? then 1 else 0
  {
    if step.Issue? {
      hide DoIssue, Left, Cost, AtSlot, Free;
      IssueAtSlot(s, step.request, t, x);
    } else {
      ElseAtSlot(s, step, t, p);
      hide Exec;
    }
  }

  lemma Gains(s: State, step: Step, x: nat)
    ensures Takes(s, step, x) ==>
              && step.Issue? && AtSlot(s, x)
              && Cost(step.request) == (if step.request == GetOfTwo then 3 else 0) +
                                       (if step.request == GetOfOne then 2 else 0)
  {
  }

  /** The number of operations issued. */
  function Issued(steps: seq<Step>, n: nat): nat
    requires n <= |steps|
  {
    if n == 0 then 0 else Issued(steps, n - 1) + (if steps[n - 1].Issue? then 1 else 0)
  }

  /** Over every run, at every moment and for every slot: a GET that needs two READs to find its key takes three, one
      that needs a single one takes two, a PUT takes one SEND and no READ; what is missing is what the slot's open
      request still needs.  Operation number i goes to slot i modulo the window. */
  lemma {:induction false} SlotLaw(states: seq<State>, steps: seq<Step>, n: nat, x: nat, p: Params)
    requires Trace(states, steps, p) && states[0] == Initial(p) && n <= |steps| && x < p.w
    ensures |states[n].client.phase| == p.w && states[n].client.iter == Issued(steps, n)
    ensures ReadsOf(states, n, x) + Left(states[n].client.phase[x]) ==
            3 * Taken(states, steps, n, x, GetOfTwo) + 2 * Taken(states, steps, n, x, GetOfOne)
    ensures SendsOf(states, n, x) == Taken(states, steps, n, x, Put)
  {
    if n == 0 {
      hide Exec, Trace;
    } else {
      hide Exec, Trace, Takes, AtSlot, Left, Cost, Initial;
      SlotLaw(states, steps, n - 1, x, p);
      TraceStep(states, steps, n - 1, p);
      TraceLength(states, steps, p);
      StepAtSlot(states[n - 1], steps[n - 1], states[n], p, x);
      Gains(states[n - 1], steps[n - 1], x);
    }
  }

  lemma {:induction false} TakenBetween(states: seq<State>, steps: seq<Step>, i: nat, j: nat, x: nat, request: Request)
    requires i < j <= |steps| < |states| && Takes(states[i], steps[i], x)
    requires forall k | i < k < j :: !Takes(states[k], steps[k], x)
    ensures Taken(states, steps, j, x, request) ==
            Taken(states, steps, i, x, request) + (if steps[i].request == request then 1 else 0)
    decreases j
  {
    if j > i + 1 {
      TakenBetween(states, steps, i, j - 1, x, request);
    }
  }

  /** So between taking one request and taking the next a slot issues exactly three READs for a GET that needs two to
      find its key, two for one that needs one, and a single SEND for a PUT. */
  lemma RequestLaw(states: seq<State>, steps: seq<Step>, i: nat, j: nat, x: nat, p: Params)
    requires Trace(states, steps, p) && states[0] == Initial(p) && i < j < |steps| && x < p.w
    requires Takes(states[i], steps[i], x) && Takes(states[j], steps[j], x)
    requires forall k | i < k < j :: !Takes(states[k], steps[k], x)
    ensures ReadsOf(states, j, x) - ReadsOf(states, i, x) ==
            match steps[i].request case GetOfTwo => 3 case GetOfOne => 2 case Put => 0
    ensures SendsOf(states, j, x) - SendsOf(states, i, x) == if steps[i].request.Put? then 1 else 0
  {
    TraceStep(states, steps, i, p);
    TraceStep(states, steps, j, p);
    hide Exec, Trace, Taken, ReadsOf, SendsOf;
    SlotLaw(states, steps, i, x, p);
    SlotLaw(states, steps, j, x, p);
    TakenBetween(states, steps, i, j, x, GetOfTwo);
    TakenBetween(states, steps, i, j, x, GetOfOne);
    TakenBetween(states, steps, i, j, x, Put);
  }

  /** The messages that the server has sent. */
  function Sent(steps: seq<Step>, n: nat): nat
    requires n <= |steps|
  {
    if n == 0 then 0 else Sent(steps, n - 1) + (if steps[n - 1].Greet? || steps[n - 1].Reply? then 1 else 0)
  }

  /** How many of the first `n` operations are signalled: every one whose number is a multiple of the period. */
  function Signalled(n: nat, period: nat): nat
    requires period > 0
  {
    if n == 0 then 0 else Signalled(n - 1, period) + (if (n - 1) % period == 0 then 1 else 0)
  }

  lemma StepSignals(s: State, step: Step, t: State, p: Params)
    requires Inv(s, p) && Exec(s, step, p) == Ok(t)
    ensures var gain := t.server.sendsPolled + t.server.signalled - (s.server.sendsPolled + s.server.signalled);
            gain == Signalled(t.server.totSends, p.period) - Signalled(s.server.totSends, p.period)
  {
    assert Signalled(1, p.period) == 1;
  }

  /** The sends polled and the one outstanding are all that were signalled. */
  predicate SignalsBooked(v: Server, p: Params)
    requires p.period > 0
  {
    v.sendsPolled + v.signalled == Signalled(v.totSends, p.period) && (v.pc.Greeting? || v.signalled == 1)
  }

  lemma SignalsNext(s: State, step: Step, t: State, p: Params)
    requires Inv(s, p) && Inv(t, p) && Exec(s, step, p) == Ok(t) && SignalsBooked(s.server, p)
    ensures SignalsBooked(t.server, p)
  {
    StepSignals(s, step, t, p);
    hide Exec, Signalled;
  }

  /** Over every run the signalled sends are those whose number is a multiple of the period, and of them all but the one
      outstanding have been polled. */
  lemma {:induction false} SignalLaw(states: seq<State>, steps: seq<Step>, n: nat, p: Params)
    requires Trace(states, steps, p) && Sensible(p) && states[0] == Initial(p) && n <= |steps|
    ensures SignalsBooked(states[n].server, p)
  {
    if n == 0 {
      hide Trace, Exec;
    } else {
      hide Trace, Initial, Exec, Inv, SignalsBooked, Signalled;
      TraceInv(states, steps, n, p);
      TraceInv(states, steps, n - 1, p);
      TraceStep(states, steps, n - 1, p);
      TraceLength(states, steps, p);
      SignalLaw(states, steps, n - 1, p);
      SignalsNext(states[n - 1], steps[n - 1], states[n], p);
    }
  }

  lemma StepSends(s: State, step: Step, t: State, p: Params)
    requires p.period > 0 && |s.client.phase| > 0 && Exec(s, step, p) == Ok(t)
    ensures t.server.totSends == s.server.totSends + (if step.Greet? || step.Reply? then 1 else 0)
    ensures step.Greet? <==> s.server.pc.Greeting? && !t.server.pc.Greeting?
    ensures t.server.pc.Greeting? ==> s.server.pc.Greeting?
  {
  }

  /** Over every run the server counts its greeting and its replies, and has answered no more than it has polled. */
  lemma {:induction false} SendLaw(states: seq<State>, steps: seq<Step>, n: nat, p: Params)
    requires Trace(states, steps, p) && Sensible(p) && states[0] == Initial(p) && n <= |steps|
    ensures states[n].server.totSends == Sent(steps, n)
    ensures Sent(steps, n) + states[n].server.todo ==
            Polled(steps, n) + (if states[n].server.pc.Greeting? then 0 else 1)
  {
    if n > 0 {
      TraceInv(states, steps, n - 1, p);
      TraceStep(states, steps, n - 1, p);
      SendLaw(states, steps, n - 1, p);
      hide Trace, Initial;
      StepSends(states[n - 1], steps[n - 1], states[n], p);
      StepTodo(states[n - 1], steps[n - 1], states[n], p);
    }
  }

  lemma StepTodo(s: State, step: Step, t: State, p: Params)
    requires Inv(s, p) && Exec(s, step, p) == Ok(t)
    ensures t.server.todo == if step.Poll? then step.n else if step.Reply? then s.server.todo - 1 else s.server.todo
    ensures step.Poll? ==> s.server.todo == 0
  {
  }

  // ---------------------------------------------------------------- batches of receives

  /** The requests that the server has polled in the first `n` steps, and how often it has posted receives. */
  function Polled(steps: seq<Step>, n: nat): nat
    requires n <= |steps|
  {
    if n == 0 then 0 else Polled(steps, n - 1) + (if steps[n - 1].Poll? then steps[n - 1].n else 0)
  }

  function ServerBatches(states: seq<State>, steps: seq<Step>, n: nat): nat
    requires n <= |steps| < |states|
  {
    if n == 0 then 0
    else ServerBatches(states, steps, n - 1) +
         (if steps[n - 1].RefillServer? && states[n].server.posted > states[n - 1].server.posted then 1 else 0)
  }

  /** The messages that the client has polled, and how often it has posted receives. */
  function Received(states: seq<State>, steps: seq<Step>, n: nat): int
    requires n <= |steps| < |states|
  {
    if n == 0 then 0
    else Received(states, steps, n - 1) +
         (if steps[n - 1].Await? || steps[n - 1].Wait? then states[n - 1].client.cq - states[n].client.cq else 0)
  }

  function ClientBatches(states: seq<State>, steps: seq<Step>, n: nat): nat
    requires n <= |steps| < |states|
  {
    if n == 0 then 0
    else ClientBatches(states, steps, n - 1) +
         (if steps[n - 1].RefillClient? && states[n].client.posted > states[n - 1].client.posted then 1 else 0)
  }

  lemma ServerBatch(s: State, step: Step, t: State, p: Params)
    requires Inv(s, p) && Exec(s, step, p) == Ok(t)
    ensures t.server.totRecvs == if step.Poll? then s.server.totRecvs - step.n
                                 else if step.RefillServer? && t.server.posted > s.server.posted then p.q
                                 else s.server.totRecvs
    ensures step.RefillServer? && t.server.posted > s.server.posted ==> s.server.totRecvs < p.s
  {
  }

  /** What steps do to the client's count once it has been greeted. */
  lemma ClientRefills(s: State, t: State, p: Params)
    requires DoRefillClient(s, p) == Ok(t) && !s.client.pc.Awaiting? && s.client.numRecvs <= p.q
    ensures !t.client.pc.Awaiting? && t.client.cq == s.client.cq
    ensures if t.client.posted > s.client.posted then s.client.numRecvs < p.s && t.client.numRecvs == p.q
            else t.client.numRecvs == s.client.numRecvs || (s.client.numRecvs == p.q == t.client.numRecvs)
  {
  }

  lemma ClientWaits(s: State, t: State)
    requires |s.client.phase| > 0 && DoWait(s) == Ok(t)
    ensures !t.client.pc.Awaiting? && t.client.numRecvs == s.client.numRecvs - (s.client.cq - t.client.cq)
  {
  }

  lemma ClientElse(s: State, step: Step, t: State, p: Params)
    requires p.period > 0 && |s.client.phase| > 0 && Exec(s, step, p) == Ok(t) && !s.client.pc.Awaiting?
    requires !step.RefillClient? && !step.Wait?
    ensures !step.Await? && !t.client.pc.Awaiting? && t.client.numRecvs == s.client.numRecvs
  {
  }

  lemma ClientBounds(s: State, p: Params)
    requires Inv(s, p) && !s.client.pc.Awaiting?
    ensures s.client.numRecvs <= p.q && p.s < p.q && p.period > 0 && |s.client.phase| > 0
  {
  }

  lemma ClientFirst(s: State, step: Step, t: State, p: Params)
    requires Inv(s, p) && Exec(s, step, p) == Ok(t) && s.client.pc.Awaiting?
    ensures !step.RefillClient? && !step.Wait?
    ensures step.Await? ==> t.client.numRecvs == p.q - 1 && s.client.cq - t.client.cq == 1 && !t.client.pc.Awaiting?
    ensures !step.Await? ==> t.client.pc.Awaiting?
  {
  }

  /** `b` batches have been posted, `total` receives are posted and not polled, and `polled` messages were. */
  ghost predicate Batched(b: nat, total: int, polled: int, p: Params)
  {
    b * (p.q - p.s + 1) + (p.q - total) <= polled
  }

  lemma BatchedPosts(b: nat, total: int, polled: int, p: Params)
    requires Batched(b, total, polled, p) && total < p.s
    ensures Batched(b + 1, p.q, polled, p)
  {
    assert (b + 1) * (p.q - p.s + 1) == b * (p.q - p.s + 1) + (p.q - p.s + 1);
  }

  lemma BatchedPolls(b: nat, total: int, polled: int, k: int, p: Params)
    requires Batched(b, total, polled, p)
    ensures Batched(b, total - k, polled + k, p)
  {
  }

  lemma BatchedFirst(p: Params)
    ensures Batched(0, p.q, 0, p) && Batched(0, p.q - 1, 1, p)
  {
  }

  lemma {:induction false} TraceInv(states: seq<State>, steps: seq<Step>, n: nat, p: Params)
    requires Trace(states, steps, p) && Sensible(p) && states[0] == Initial(p) && n <= |steps|
    ensures Inv(states[n], p)
  {
    if n == 0 {
      InitialInv(p);
    } else {
      TraceInv(states, steps, n - 1, p);
      TraceStep(states, steps, n - 1, p);
      hide Exec, Inv;
      StepKeeps(states[n - 1], steps[n - 1], p);
    }
  }

  lemma ServerBooks(s: State, step: Step, t: State, p: Params, b: nat, k: nat)
    requires Inv(s, p) && Exec(s, step, p) == Ok(t) && Batched(b, s.server.totRecvs, k, p)
    ensures var b' := if step.RefillServer? && t.server.posted > s.server.posted then b + 1 else b;
            var k' := if step.Poll? then k + step.n else k;
            Batched(b', t.server.totRecvs, k', p)
  {
    hide Batched, Exec, Inv;
    ServerBatch(s, step, t, p);
    if step.Poll? {
      BatchedPolls(b, s.server.totRecvs, k, step.n, p);
    } else if step.RefillServer? && t.server.posted > s.server.posted {
      BatchedPosts(b, s.server.totRecvs, k, p);
    }
  }

  /** Over every run the server posts receives in batches, not one by one: a batch only after Q - S + 1 more requests
      have been polled. */
  lemma {:induction false} ServerBatchLaw(states: seq<State>, steps: seq<Step>, n: nat, p: Params)
    requires Trace(states, steps, p) && Sensible(p) && states[0] == Initial(p) && n <= |steps|
    ensures Batched(ServerBatches(states, steps, n), states[n].server.totRecvs, Polled(steps, n), p)
  {
    if n == 0 {
      BatchedFirst(p);
    } else {
      hide Exec, Inv, Trace, Initial, Batched;
      ServerBatchLaw(states, steps, n - 1, p);
      TraceInv(states, steps, n - 1, p);
      TraceStep(states, steps, n - 1, p);
      ServerBooks(states[n - 1], steps[n - 1], states[n], p,
                  ServerBatches(states, steps, n - 1), Polled(steps, n - 1));
    }
  }

  /** The client's count of batches and messages; before the greeting there are none. */
  ghost predicate ClientBooked(c: Client, b: nat, k: int, p: Params)
  {
    if c.pc.Awaiting? then b == 0 && k == 0 else Batched(b, c.numRecvs, k, p)
  }

  lemma ClientBooks(s: State, step: Step, t: State, p: Params, b: nat, k: int)
    requires Inv(s, p) && Exec(s, step, p) == Ok(t) && ClientBooked(s.client, b, k, p)
    ensures var b' := if step.RefillClient? && t.client.posted > s.client.posted then b + 1 else b;
            var k' := if step.Await? || step.Wait? then k + (s.client.cq - t.client.cq) else k;
            ClientBooked(t.client, b', k', p)
  {
    hide Batched, DoRefillClient, DoWait, Inv;
    if s.client.pc.Awaiting? {
      ClientFirst(s, step, t, p);
      BatchedFirst(p);
    } else {
      ClientBounds(s, p);
      if step.RefillClient? {
        ClientRefills(s, t, p);
        if t.client.posted > s.client.posted { BatchedPosts(b, s.client.numRecvs, k, p); }
      } else if step.Wait? {
        ClientWaits(s, t);
        BatchedPolls(b, s.client.numRecvs, k, s.client.cq - t.client.cq, p);
      } else {
        ClientElse(s, step, t, p);
      }
    }
  }

  /** ... and so does the client, once it has been greeted. */
  lemma {:induction false} ClientBatchLaw(states: seq<State>, steps: seq<Step>, n: nat, p: Params)
    requires Trace(states, steps, p) && Sensible(p) && states[0] == Initial(p) && n <= |steps|
    ensures ClientBooked(states[n].client, ClientBatches(states, steps, n), Received(states, steps, n), p)
  {
    if n > 0 {
      hide Exec, Inv, Trace, Initial, ClientBooked;
      ClientBatchLaw(states, steps, n - 1, p);
      TraceInv(states, steps, n - 1, p);
      TraceStep(states, steps, n - 1, p);
      ClientBooks(states[n - 1], steps[n - 1], states[n], p,
                  ClientBatches(states, steps, n - 1), Received(states, steps, n - 1));
    }
  }
}
