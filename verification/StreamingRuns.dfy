/** Whole runs of the streaming control plane: any order of demand, cancellation, bridge turns and
    provider answers. A step that its component would refuse changes nothing. */
module StreamingRuns {
  import opened StreamingCoordinator
  import opened StreamingBridge

  datatype Step =
    | Calling(call: Call)
    | Visiting(slot: nat, accepts: Event -> bool)
    | PreparedAnswer(ticket: Ticket, succeeded: bool)
    | ActivatedAnswer(ticket: Ticket, succeeded: bool)
    | RetiredAnswer(ticket: Ticket)

  ghost function Next(v: View, step: Step): (v': View)
    requires |v.cs| == |v.bs|
    ensures |v'.cs| == |v'.bs| == |v.cs|
  {
    match step
    case Calling(call) => v.(cs := AfterCall(v.cs, call))
    case Visiting(s, accepts) => if s < |v.cs| then Turn(v, s, accepts) else v
    case PreparedAnswer(t, succeeded) => AfterPrepared(v, t, succeeded)
    case ActivatedAnswer(t, succeeded) => AfterActivated(v, t, succeeded)
    case RetiredAnswer(t) => AfterRetired(v, t)
  }

  ghost function Run(v: View, steps: seq<Step>): (v': View)
    requires |v.cs| == |v.bs|
    ensures |v'.cs| == |v'.bs| == |v.cs|
  {
    if steps == [] then v else Next(Run(v, steps[..|steps| - 1]), steps[|steps| - 1])
  }

  lemma AnswersKeepStep(v: View, t: Ticket, succeeded: bool)
    requires InStep(v)
    ensures InStep(AfterPrepared(v, t, succeeded)) && InStep(AfterActivated(v, t, succeeded)) && InStep(AfterRetired(v, t))
  {
    if Known(v.bs, t) && Outstanding(v.bs[t.slot]) {
      var s, c, b := t.slot, v.cs[t.slot], v.bs[t.slot];
      assert SlotAgrees(s, c, b, v.log);
      if b.prepareOut {
        AcknowledgeKeepsJoint(v.cs, v.bs, v.log, s, c.(stage := if succeeded then Prepared else Broken), b.(prepareOut := false));
      }
      if b.activateOut {
        AcknowledgeKeepsJoint(v.cs, v.bs, v.log, s, Activated(c, succeeded), b.(activateOut := false));
      }
      if b.retireOut {
        AcknowledgeKeepsJoint(v.cs, v.bs, v.log, s, Released(c), UNUSED);
      }
    }
  }

  lemma CallKeepsStep(v: View, call: Call)
    requires InStep(v)
    ensures InStep(v.(cs := AfterCall(v.cs, call)))
  {
    match call
    case Submitting(s, d) =>
      if CanSubmit(v.cs, s, d) {
        SubmitKeepsJoint(v.cs, v.bs, v.log, s, d);
      }
    case Refreshing(t, d) =>
      if CanRefresh(v.cs, t, d) {
        UpdateKeepsJoint(v.cs, v.bs, v.log, t.slot, d);
      }
    case Cancelling(t) =>
      if Current(v.cs, t) {
        CancelKeepsJoint(v.cs, v.bs, v.log, t.slot);
      }
  }

  lemma StepKeepsStep(v: View, step: Step)
    requires InStep(v)
    ensures InStep(Next(v, step))
  {
    match step
    case Calling(call) => CallKeepsStep(v, call);
    case Visiting(s, accepts) =>
      if s < |v.cs| {
        TurnKeepsJoint(v, s, accepts);
      }
    case PreparedAnswer(t, succeeded) => AnswersKeepStep(v, t, succeeded);
    case ActivatedAnswer(t, succeeded) => AnswersKeepStep(v, t, succeeded);
    case RetiredAnswer(t) => AnswersKeepStep(v, t, true);
  }

  /** In every run stages and outstanding work agree, and no piece of work is accepted twice. */
  lemma {:induction false} RunsStayInStep(v: View, steps: seq<Step>)
    requires |v.cs| == |v.bs| && InStep(v)
    ensures InStep(Run(v, steps))
  {
    hide InStep, Next;
    if steps != [] {
      RunsStayInStep(v, steps[..|steps| - 1]);
      StepKeepsStep(Run(v, steps[..|steps| - 1]), steps[|steps| - 1]);
    }
  }

  /** Retirement is accepted only while nothing else is outstanding for the slot. */
  lemma RetirementIsAlone(v: View, step: Step, t: Ticket)
    requires InStep(v) && Accepted(Retire, t) !in v.log && Accepted(Retire, t) in Next(v, step).log
    ensures t.slot < |v.cs| && v.cs[t.slot].occupied && v.cs[t.slot].generation == t.generation
    ensures !Outstanding(v.bs[t.slot]) && Next(v, step).bs[t.slot].retireOut
  {
    assert step.Visiting?;
    assert SlotAgrees(step.slot, v.cs[step.slot], v.bs[step.slot], v.log);
  }

  predicate Holds(v: View, t: Ticket)
  {
    t.slot < |v.cs| && v.cs[t.slot].occupied && v.cs[t.slot].generation == t.generation
  }

  /** A ticket whose preparation was accepted is given up only by an acknowledged retirement. */
  lemma LeavesByRetirement(v: View, step: Step, t: Ticket)
    requires InStep(v) && Holds(v, t) && v.cs[t.slot].stage != Queued && !Holds(Next(v, step), t)
    ensures step == RetiredAnswer(t) && Accepted(Retire, t) in v.log
  {
    assert SlotAgrees(t.slot, v.cs[t.slot], v.bs[t.slot], v.log);
  }

  lemma OnceUnderWay(v: View, step: Step, t: Ticket)
    requires InStep(v) && Holds(v, t) && v.cs[t.slot].stage != Queued && Holds(Next(v, step), t)
    ensures Next(v, step).cs[t.slot].stage != Queued
  {
  }

  lemma LogGrows(v: View, step: Step)
    requires |v.cs| == |v.bs|
    ensures v.log <= Next(v, step).log
  {
  }

  /** How far the tickets of a slot have got: those below are spent or held. */
  function Frontier(c: Slot): nat
  {
    if c.occupied then c.generation + 1 else c.generation
  }

  lemma StepKeepsFrontier(v: View, step: Step, s: nat)
    requires InStep(v) && s < |v.cs|
    ensures Frontier(v.cs[s]) <= Frontier(Next(v, step).cs[s])
    ensures !v.cs[s].occupied && Next(v, step).cs[s].occupied ==>
      step.Calling? && step.call.Submitting? && Frontier(v.cs[s]) == Next(v, step).cs[s].generation < Frontier(Next(v, step).cs[s])
  {
    assert SlotAgrees(s, v.cs[s], v.bs[s], v.log);
  }

  lemma {:induction false} RunKeepsFrontier(v: View, steps: seq<Step>, s: nat)
    requires |v.cs| == |v.bs| && InStep(v) && s < |v.cs|
    ensures Frontier(v.cs[s]) <= Frontier(Run(v, steps).cs[s])
  {
    hide InStep, Next;
    if steps != [] {
      RunKeepsFrontier(v, steps[..|steps| - 1], s);
      RunsStayInStep(v, steps[..|steps| - 1]);
      StepKeepsFrontier(Run(v, steps[..|steps| - 1]), steps[|steps| - 1], s);
    }
  }

  /** No ticket is issued twice: what a later submission hands out differs from every ticket that
      was held before, however much has happened in between. */
  lemma NeverReissued(v: View, steps: seq<Step>, submission: Step, t: Ticket)
    requires |v.cs| == |v.bs| && InStep(v) && Holds(v, t)
    requires !Run(v, steps).cs[t.slot].occupied && Next(Run(v, steps), submission).cs[t.slot].occupied
    ensures !Holds(Next(Run(v, steps), submission), t)
  {
    RunKeepsFrontier(v, steps, t.slot);
    RunsStayInStep(v, steps);
    StepKeepsFrontier(Run(v, steps), submission, t.slot);
  }

  /** Over a whole run: work that was begun and is no longer held was retired, and that answer is in
      the run. */
  lemma {:induction false} BegunWorkIsRetired(v: View, steps: seq<Step>, t: Ticket)
    requires |v.cs| == |v.bs| && InStep(v) && Holds(v, t) && v.cs[t.slot].stage != Queued
    ensures Holds(Run(v, steps), t) ==> Run(v, steps).cs[t.slot].stage != Queued
    ensures !Holds(Run(v, steps), t) ==> RetiredAnswer(t) in steps && Accepted(Retire, t) in Run(v, steps).log
  {
    hide InStep, Next;
    if steps != [] {
      var before, step := steps[..|steps| - 1], steps[|steps| - 1];
      BegunWorkIsRetired(v, before, t);
      RunsStayInStep(v, before);
      LogGrows(Run(v, before), step);
      if Holds(Run(v, before), t) {
        if Holds(Next(Run(v, before), step), t) {
          OnceUnderWay(Run(v, before), step, t);
        } else {
          LeavesByRetirement(Run(v, before), step, t);
        }
      } else {
        RunKeepsFrontier(v, before, t.slot);
        StepKeepsFrontier(Run(v, before), step, t.slot);
      }
    }
  }

  // ---------------------------------------------------------------- the classes take these steps

  ghost function Visits(s: nat, n: nat, length: nat, accepts: Event -> bool): (steps: seq<Step>)
    requires s < length
    ensures |steps| == n
    decreases n
  {
    if n == 0 then [] else [Visiting(s, accepts)] + Visits(NextIn(s, length), n - 1, length, accepts)
  }

  lemma {:induction false} RunFromFront(v: View, step: Step, steps: seq<Step>)
    requires |v.cs| == |v.bs|
    ensures Run(v, [step] + steps) == Run(Next(v, step), steps)
  {
    hide Next;
    var all := [step] + steps;
    if steps == [] {
      assert all[..0] == [] && Run(v, all[..0]) == v;
    } else {
      RunFromFront(v, step, steps[..|steps| - 1]);
      assert all[..|all| - 1] == [step] + steps[..|steps| - 1];
    }
  }

  /** Pumping is a run of visits, each slot at most once when there are no more of them than slots. */
  lemma {:induction false} TurnsAreVisits(v: View, s: nat, n: nat, accepts: Event -> bool)
    requires s < |v.cs| == |v.bs|
    ensures Turns(v, s, n, accepts) == Run(v, Visits(s, n, |v.cs|, accepts))
    decreases n
  {
    hide Turn;
    if n > 0 {
      TurnsAreVisits(Turn(v, s, accepts), NextIn(s, |v.cs|), n - 1, accepts);
      RunFromFront(v, Visiting(s, accepts), Visits(NextIn(s, |v.cs|), n - 1, |v.cs|, accepts));
    }
  }

  // ---------------------------------------------------------------- tickets over whole runs

  ghost function IssuedBy(v: View, issued: set<Ticket>, step: Step): (issued': set<Ticket>)
    ensures issued <= issued'
  {
    if step.Calling? then IssuedAfter(v.cs, issued, step.call) else issued
  }

  lemma MoveKeepsSlotsOk(slots: seq<Slot>, issued: set<Ticket>, s: nat, c: Slot)
    requires SlotsOk(slots, issued) && s < |slots| && SlotOk(c)
    requires
      || (slots[s].occupied && c == Released(slots[s]))
      || (c.occupied == slots[s].occupied && c.generation == slots[s].generation && c.demand == slots[s].demand)
    ensures SlotsOk(slots[s := c], issued)
  {
  }

  /** Every step keeps the coordinator's own invariant. */
  lemma StepKeepsSlotsOk(v: View, issued: set<Ticket>, step: Step)
    requires InStep(v) && SlotsOk(v.cs, issued)
    ensures SlotsOk(Next(v, step).cs, IssuedBy(v, issued, step))
  {
    hide SlotsOk;
    StepKeepsStep(v, step);
    match step
    case Calling(call) => CallKeepsSlotsOk(v.cs, issued, call);
    case Visiting(s, accepts) =>
      if s < |v.cs| {
        MovesOneSlot(v, step, issued, s);
      }
    case PreparedAnswer(t, succeeded) =>
      if Known(v.bs, t) {
        MovesOneSlot(v, step, issued, t.slot);
      }
    case ActivatedAnswer(t, succeeded) =>
      if Known(v.bs, t) {
        MovesOneSlot(v, step, issued, t.slot);
      }
    case RetiredAnswer(t) =>
      if Known(v.bs, t) {
        MovesOneSlot(v, step, issued, t.slot);
      }
  }

  lemma MovesOneSlot(v: View, step: Step, issued: set<Ticket>, s: nat)
    requires InStep(v) && InStep(Next(v, step)) && SlotsOk(v.cs, issued) && s < |v.cs| && !step.Calling?
    requires s == if step.Visiting? then step.slot else step.ticket.slot
    ensures SlotsOk(Next(v, step).cs, issued)
  {
    hide SlotsOk;
    assert SlotAgrees(s, v.cs[s], v.bs[s], v.log);
    var v' := Next(v, step);
    MoveKeepsSlotsOk(v.cs, issued, s, v'.cs[s]);
    assert v'.cs == v.cs[s := v'.cs[s]];
  }
}
