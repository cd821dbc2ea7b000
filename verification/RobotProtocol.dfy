/**
  Robot turns over any interleaving of submissions, retries, replies, deliveries and process restarts that share one
  turn table. A restart loses everything but the table.
 */
module RobotProtocol {
  import opened Options
  import opened RobotTurns

  datatype Request = Request(op: Op, text: string, device: string, chat: string)

  /** A submission that claimed its turn: before the busy fence, behind it, with the agent, or about to release the fence. */
  datatype Phase = Claimed | Fenced | Running | Closing

  /** `sends` are replies on their way, with the chat they came in on; `dispatched` lists the agent turns ever started. */
  datatype State = State(turns: map<Op, Turn>, futures: set<Op>, byChat: map<string, Op>, byDevice: map<string, Op>,
                         tasks: map<Op, Phase>, sends: set<(Op, string)>, dispatched: seq<Op>)

  datatype Step =
    | Submit(request: Request)
    | Refuse(op: Op)
    | Enter(op: Op)
    | Abort(op: Op)
    | Dispatch(op: Op)
    | Return(op: Op)
    | Fail(op: Op, response: Response)
    | HandOff(op: Op)
    | Leave(op: Op)
    | SendStart(chat: string)
    | SendRecord(op: Op, chat: string, response: Response, durable: bool)
    | SendClear(op: Op, chat: string)
    | Restart

  predicate In(s: State, op: Op, phase: Phase) {
    op in s.turns && op in s.tasks && s.tasks[op] == phase
  }

  predicate Enabled(s: State, step: Step) {
    match step
    case Submit(_) => true
    case Refuse(op) => In(s, op, Claimed)
    case Enter(op) => In(s, op, Claimed)
    case Abort(op) => In(s, op, Fenced)
    case Dispatch(op) => In(s, op, Fenced)
    case Return(op) => In(s, op, Running)
    case Fail(op, _) => In(s, op, Running)
    case HandOff(op) => In(s, op, Running)
    case Leave(op) => In(s, op, Closing)
    case SendStart(chat) => chat in s.byChat
    case SendRecord(op, chat, _, _) => (op, chat) in s.sends
    case SendClear(op, chat) => (op, chat) in s.sends
    case Restart => true
  }

  function Completed(s: State, op: Op, response: Response): State {
    if op in s.turns then s.(turns := s.turns[op := s.turns[op].(response := Some(response))], futures := s.futures - {op}) else s
  }

  function Apply(s: State, step: Step): State
    requires Enabled(s, step)
  {
    match step
    case Submit(r) =>
      if AnswerTo(s.turns, s.futures, r.op, r.text).Fresh? then
        s.(turns := s.turns[r.op := Turn(r.text, r.device, r.chat, None)], futures := s.futures + {r.op}, tasks := s.tasks[r.op := Claimed])
      else s
    case Refuse(op) => s.(tasks := s.tasks - {op})
    case Enter(op) =>
      var t := s.turns[op];
      if Free(s.byChat, s.byDevice, op, t.chat, t.device) then
        s.(byChat := s.byChat[t.chat := op], byDevice := s.byDevice[t.device := op], tasks := s.tasks[op := Fenced])
      else s.(tasks := s.tasks - {op})
    case Abort(op) => s.(tasks := s.tasks - {op})
    case Dispatch(op) => s.(tasks := s.tasks[op := Running], dispatched := s.dispatched + [op])
    case Return(op) => s.(tasks := s.tasks[op := Closing])
    case Fail(op, response) => Completed(s, op, response).(tasks := s.tasks[op := Closing])
    case HandOff(op) => s.(tasks := s.tasks - {op})
    case Leave(op) =>
      var t := s.turns[op];
      s.(byChat := Without(s.byChat, t.chat, op), byDevice := Without(s.byDevice, t.device, op), tasks := s.tasks - {op})
    case SendStart(chat) => s.(sends := s.sends + {(s.byChat[chat], chat)})
    case SendRecord(op, chat, response, durable) =>
      var done := Completed(s, op, response);
      if durable then done else done.(sends := s.sends - {(op, chat)})
    case SendClear(op, chat) =>
      s.(byChat := Without(s.byChat, chat, op), byDevice := WithoutOp(s.byDevice, op), sends := s.sends - {(op, chat)})
    case Restart => s.(futures := {}, byChat := map[], byDevice := map[], tasks := map[], sends := {})
  }

  predicate Feasible(s: State, steps: seq<Step>)
    decreases |steps|
  {
    steps == [] || (Enabled(s, steps[0]) && Feasible(Apply(s, steps[0]), steps[1..]))
  }

  function Run(s: State, steps: seq<Step>): State
    requires Feasible(s, steps)
    decreases |steps|
  {
    if steps == [] then s else Run(Apply(s, steps[0]), steps[1..])
  }

  const EMPTY := State(map[], {}, map[], map[], map[], {}, [])

  /** Both maps hold the same operations, each at the one chat and the one device of its turn. */
  ghost predicate MapsAgree(s: State) {
    && (forall chat :: chat in s.byChat ==>
          var op := s.byChat[chat];
          op in s.turns && s.turns[op].chat == chat && s.turns[op].device in s.byDevice && s.byDevice[s.turns[op].device] == op)
    && (forall device :: device in s.byDevice ==>
          var op := s.byDevice[device];
          op in s.turns && s.turns[op].device == device && s.turns[op].chat in s.byChat && s.byChat[s.turns[op].chat] == op)
  }

  /** Replies on their way came in on the chat of their turn. */
  ghost predicate SendsOk(s: State) {
    forall op, chat :: (op, chat) in s.sends ==> op in s.turns && s.turns[op].chat == chat
  }

  ghost predicate LogOk(s: State) {
    && (forall op :: op in s.tasks ==> op in s.turns)
    && (forall op :: op in s.tasks && (s.tasks[op].Claimed? || s.tasks[op].Fenced?) ==> op !in s.dispatched)
    && (forall op :: op in s.dispatched ==> op in s.turns)
    && (forall i, j :: 0 <= i < j < |s.dispatched| ==> s.dispatched[i] != s.dispatched[j])
  }

  /** Nobody holds, answers or has answered `op`. */
  ghost predicate Untouched(s: State, op: Op) {
    && op in s.turns && s.turns[op].response.None?
    && (forall chat :: chat in s.byChat ==> s.byChat[chat] != op)
    && (forall chat :: (op, chat) !in s.sends)
  }

  ghost predicate Invariant(s: State) {
    MapsAgree(s) && SendsOk(s) && LogOk(s) && forall op :: In(s, op, Claimed) ==> Untouched(s, op)
  }

  lemma EnterKeepsMaps(s: State, op: Op)
    requires MapsAgree(s) && Enabled(s, Enter(op))
    ensures MapsAgree(Apply(s, Enter(op)))
  {
    var s' := Apply(s, Enter(op));
    var t := s.turns[op];
    if Free(s.byChat, s.byDevice, op, t.chat, t.device) {
      assert forall chat :: chat in s'.byChat ==> chat == t.chat || (chat in s.byChat && s'.byChat[chat] == s.byChat[chat]);
    }
  }

  lemma StepKeepsMaps(s: State, step: Step)
    requires MapsAgree(s) && SendsOk(s) && Enabled(s, step)
    ensures MapsAgree(Apply(s, step))
  {
    match step
    case Enter(op) => EnterKeepsMaps(s, op);
    case Leave(op) => ReleasedMapsAgree(s, op);
    case SendClear(op, chat) =>
      ClearedIsReleased(s, op, chat);
      ReleasedMapsAgree(s, op);
    case _ =>
  }

  lemma StepKeepsSends(s: State, step: Step)
    requires MapsAgree(s) && SendsOk(s) && Enabled(s, step)
    ensures SendsOk(Apply(s, step))
  {
  }

  lemma StepKeepsLog(s: State, step: Step)
    requires LogOk(s) && Enabled(s, step)
    ensures LogOk(Apply(s, step))
  {
    var s' := Apply(s, step);
    if step.Dispatch? {
      forall i, j | 0 <= i < j < |s'.dispatched| ensures s'.dispatched[i] != s'.dispatched[j] {
        assert s'.dispatched[i] in s.dispatched;
      }
    }
  }

  lemma StepKeepsUntouched(s: State, step: Step, op: Op)
    requires MapsAgree(s) && SendsOk(s) && Enabled(s, step) && In(Apply(s, step), op, Claimed)
    requires In(s, op, Claimed) ==> Untouched(s, op)
    ensures Untouched(Apply(s, step), op)
  {
  }

  lemma ReleasedMapsAgree(s: State, op: Op)
    requires MapsAgree(s) && op in s.turns
    ensures MapsAgree(s.(byChat := Without(s.byChat, s.turns[op].chat, op), byDevice := Without(s.byDevice, s.turns[op].device, op)))
  {
  }

  /** A delivery finds its operation at the same chat and device where the submission put it. */
  lemma ClearedIsReleased(s: State, op: Op, chat: string)
    requires MapsAgree(s) && op in s.turns && s.turns[op].chat == chat
    ensures Without(s.byChat, chat, op) == Without(s.byChat, s.turns[op].chat, op)
    ensures WithoutOp(s.byDevice, op) == Without(s.byDevice, s.turns[op].device, op)
  {
  }

  lemma StepKeeps(s: State, step: Step)
    requires Invariant(s) && Enabled(s, step)
    ensures Invariant(Apply(s, step))
  {
    StepKeepsMaps(s, step);
    StepKeepsSends(s, step);
    StepKeepsLog(s, step);
    forall op | In(Apply(s, step), op, Claimed) ensures Untouched(Apply(s, step), op) {
      StepKeepsUntouched(s, step, op);
    }
  }

  lemma {:induction false} RunKeeps(s: State, steps: seq<Step>)
    requires Invariant(s) && Feasible(s, steps)
    ensures Invariant(Run(s, steps))
    decreases |steps|
  {
    if steps != [] {
      StepKeeps(s, steps[0]);
      RunKeeps(Apply(s, steps[0]), steps[1..]);
    }
  }

  /** Over any run, restarts included, every turn is given to the agent at most once. */
  lemma DispatchedAtMostOnce(steps: seq<Step>)
    requires Feasible(EMPTY, steps)
    ensures forall i, j :: 0 <= i < j < |Run(EMPTY, steps).dispatched| ==> Run(EMPTY, steps).dispatched[i] != Run(EMPTY, steps).dispatched[j]
  {
    RunKeeps(EMPTY, steps);
  }

  /**
    In every reachable state the active operations by chat and by device are the same, and no operation stands at two
    chats or two devices; so a device never has two live turns.
   */
  lemma OneLiveTurnPerDevice(steps: seq<Step>)
    requires Feasible(EMPTY, steps)
    ensures var s := Run(EMPTY, steps);
            && s.byChat.Values == s.byDevice.Values
            && (forall a, b :: a in s.byChat && b in s.byChat && s.byChat[a] == s.byChat[b] ==> a == b)
            && (forall a, b :: a in s.byDevice && b in s.byDevice && s.byDevice[a] == s.byDevice[b] ==> a == b)
  {
    RunKeeps(EMPTY, steps);
    var s := Run(EMPTY, steps);
    forall op ensures op in s.byChat.Values <==> op in s.byDevice.Values {
      if op in s.byChat.Values {
        var chat :| chat in s.byChat && s.byChat[chat] == op;
        assert s.byDevice[s.turns[op].device] == op;
      }
      if op in s.byDevice.Values {
        var device :| device in s.byDevice && s.byDevice[device] == op;
        assert s.byChat[s.turns[op].chat] == op;
      }
    }
  }

  /** A recorded turn keeps its text, whatever happens. */
  lemma {:induction false} TextIsFixed(s: State, steps: seq<Step>, op: Op)
    requires Feasible(s, steps) && op in s.turns
    ensures op in Run(s, steps).turns && Run(s, steps).turns[op].text == s.turns[op].text
    decreases |steps|
  {
    if steps != [] {
      TextIsFixed(Apply(s, steps[0]), steps[1..], op);
    }
  }

  /** A retry never starts a turn: with another text it is a conflict, with the same text it is cached, waits or needs recovery. */
  lemma RetryNeverStarts(s: State, steps: seq<Step>, op: Op, text: string)
    requires Feasible(s, steps) && op in s.turns
    ensures var t := Run(s, steps); var answer := AnswerTo(t.turns, t.futures, op, text);
            if text != s.turns[op].text then answer.Conflict?
            else answer.Cached? || answer.Waits? || answer.RecoveryRequired?
  {
    TextIsFixed(s, steps, op);
  }

  /** A recorded turn that nobody works on and that has no response. */
  ghost predicate Stranded(s: State, op: Op) {
    Untouched(s, op) && op !in s.tasks
  }

  /** A claimed turn that comes to the fence is stranded exactly if its chat or its device is busy. */
  lemma BusyRefusalStrands(s: State, op: Op)
    requires Invariant(s) && Enabled(s, Enter(op))
    ensures Stranded(Apply(s, Enter(op)), op) <==> !Free(s.byChat, s.byDevice, op, s.turns[op].chat, s.turns[op].device)
  {
    var t := s.turns[op];
    if Free(s.byChat, s.byDevice, op, t.chat, t.device) {
      assert Apply(s, Enter(op)).byChat[t.chat] == op;
    }
  }

  /** A restart strands exactly the recorded turns without a response. */
  lemma RestartStrands(s: State, op: Op)
    ensures Stranded(Apply(s, Restart), op) <==> op in s.turns && s.turns[op].response.None?
  {
  }

  /** Prepending an enabled step to a run. */
  lemma First(s: State, step: Step, rest: seq<Step>) returns (steps: seq<Step>)
    requires Enabled(s, step) && Feasible(Apply(s, step), rest)
    ensures steps == [step] + rest && Feasible(s, steps) && Run(s, steps) == Run(Apply(s, step), rest)
  {
    steps := [step] + rest;
    assert steps[1..] == rest;
  }

  /** So does a refusal before the fence, when the identity of the device cannot be bound to the turn. */
  lemma RefuseStrands(s: State, r: Request) returns (steps: seq<Step>)
    requires Invariant(s) && AnswerTo(s.turns, s.futures, r.op, r.text).Fresh?
    ensures Feasible(s, steps) && |steps| == 2 && steps[0] == Submit(r) && Stranded(Run(s, steps), r.op)
  {
    var claimed := Apply(s, Submit(r));
    StepKeeps(s, Submit(r));
    assert In(claimed, r.op, Claimed);
    steps := First(claimed, Refuse(r.op), []);
    steps := First(s, Submit(r), steps);
  }

  /** A submission that ends without a response strands its turn exactly if no reply to it is on its way. */
  lemma LeaveStrands(s: State, op: Op)
    requires Invariant(s) && Enabled(s, Leave(op)) && s.turns[op].response.None?
    ensures Stranded(Apply(s, Leave(op)), op) <==> forall chat :: (op, chat) !in s.sends
  {
    assert forall chat :: chat in s.byChat && s.byChat[chat] == op ==> chat == s.turns[op].chat;
  }

  /** Two submissions of one device, in different conversations: the second one is recorded and stranded. */
  lemma BusyDeviceStrands(a: Request, b: Request) returns (steps: seq<Step>)
    requires a.op != b.op && a.device == b.device && a.chat != b.chat
    ensures Feasible(EMPTY, steps) && Stranded(Run(EMPTY, steps), b.op)
  {
    var s1 := Apply(EMPTY, Submit(a));
    var s2 := Apply(s1, Enter(a.op));
    var s3 := Apply(s2, Submit(b));
    var s4 := Apply(s3, Enter(b.op));
    assert s3.byDevice[b.device] == a.op;
    assert Stranded(s4, b.op);
    steps := First(s3, Enter(b.op), []);
    steps := First(s2, Submit(b), steps);
    steps := First(s1, Enter(a.op), steps);
    steps := First(EMPTY, Submit(a), steps);
  }

  /** A stranded turn stays without a response in every continuation: a retry waits forever or is told to recover. */
  lemma {:induction false} StrandedForever(s: State, steps: seq<Step>, op: Op)
    requires Feasible(s, steps) && Stranded(s, op)
    ensures Stranded(Run(s, steps), op)
    ensures var t := Run(s, steps); var answer := AnswerTo(t.turns, t.futures, op, s.turns[op].text);
            answer.Waits? || answer.RecoveryRequired?
    decreases |steps|
  {
    if steps != [] {
      StrandedStep(s, steps[0], op);
      StrandedForever(Apply(s, steps[0]), steps[1..], op);
    }
  }

  lemma StrandedStep(s: State, step: Step, op: Op)
    requires Enabled(s, step) && Stranded(s, op)
    ensures Stranded(Apply(s, step), op) && Apply(s, step).turns[op].text == s.turns[op].text
  {
  }

  // ----- Which recorded turns can still be answered -----

  /** A turn without a response that nobody will answer: at most its submission is still about to end. */
  ghost predicate GivenUp(s: State, op: Op) {
    Untouched(s, op) && (op in s.tasks ==> s.tasks[op].Closing?)
  }

  /** The run goes on from `s` and gives `op` a response. */
  ghost predicate Answers(s: State, steps: seq<Step>, op: Op) {
    Feasible(s, steps) && op in Run(s, steps).turns && Run(s, steps).turns[op].response.Some?
  }

  ghost predicate Answerable(s: State, op: Op) {
    exists steps :: Answers(s, steps, op)
  }

  lemma GivenUpStep(s: State, step: Step, op: Op)
    requires Enabled(s, step) && GivenUp(s, op)
    ensures GivenUp(Apply(s, step), op)
  {
  }

  lemma {:induction false} GivenUpForever(s: State, steps: seq<Step>, op: Op)
    requires Feasible(s, steps) && GivenUp(s, op)
    ensures GivenUp(Run(s, steps), op)
    decreases |steps|
  {
    if steps != [] {
      GivenUpStep(s, steps[0], op);
      GivenUpForever(Apply(s, steps[0]), steps[1..], op);
    }
  }

  /** What can be answered after a step could be answered before it. */
  lemma AnswerableBefore(s: State, step: Step, op: Op)
    requires Enabled(s, step) && Answerable(Apply(s, step), op)
    ensures Answerable(s, op)
  {
    var rest :| Answers(Apply(s, step), rest, op);
    var steps := First(s, step, rest);
    assert Answers(s, steps, op);
  }

  lemma AnsweredIsAnswerable(s: State, op: Op)
    requires op in s.turns && s.turns[op].response.Some?
    ensures Answerable(s, op)
  {
    assert Answers(s, [], op);
  }

  lemma ReplyAnswers(s: State, op: Op, chat: string)
    requires op in s.turns && (op, chat) in s.sends
    ensures Answerable(s, op)
  {
    AnsweredIsAnswerable(Apply(s, SendRecord(op, chat, "", false)), op);
    AnswerableBefore(s, SendRecord(op, chat, "", false), op);
  }

  lemma ActiveIsAnswerable(s: State, op: Op, chat: string)
    requires op in s.turns && chat in s.byChat && s.byChat[chat] == op
    ensures Answerable(s, op)
  {
    ReplyAnswers(Apply(s, SendStart(chat)), op, chat);
    AnswerableBefore(s, SendStart(chat), op);
  }

  /** With the agent a turn can fail, which is a response too. */
  lemma RunningIsAnswerable(s: State, op: Op)
    requires In(s, op, Running)
    ensures Answerable(s, op)
  {
    AnsweredIsAnswerable(Apply(s, Fail(op, "")), op);
    AnswerableBefore(s, Fail(op, ""), op);
  }

  lemma FencedIsAnswerable(s: State, op: Op)
    requires In(s, op, Fenced)
    ensures Answerable(s, op)
  {
    RunningIsAnswerable(Apply(s, Dispatch(op)), op);
    AnswerableBefore(s, Dispatch(op), op);
  }

  lemma FreeIsAnswerable(s: State, op: Op)
    requires In(s, op, Claimed) && Free(s.byChat, s.byDevice, op, s.turns[op].chat, s.turns[op].device)
    ensures Answerable(s, op)
  {
    FencedIsAnswerable(Apply(s, Enter(op)), op);
    AnswerableBefore(s, Enter(op), op);
  }

  /** The state after the turn at a chat got its reply. */
  function AfterDelivery(s: State, chat: string): State
    requires chat in s.byChat
  {
    var op := s.byChat[chat];
    var done := Completed(s, op, "");
    done.(byChat := Without(s.byChat, chat, op), byDevice := WithoutOp(s.byDevice, op), sends := s.sends + {(op, chat)} - {(op, chat)})
  }

  lemma DeliveryIsRun(s: State, chat: string, op: Op)
    requires chat in s.byChat && Answerable(AfterDelivery(s, chat), op)
    ensures Answerable(s, op)
  {
    var other := s.byChat[chat];
    var started := Apply(s, SendStart(chat));
    var recorded := Apply(started, SendRecord(other, chat, "", true));
    assert Apply(recorded, SendClear(other, chat)) == AfterDelivery(s, chat);
    AnswerableBefore(recorded, SendClear(other, chat), op);
    AnswerableBefore(started, SendRecord(other, chat, "", true), op);
    AnswerableBefore(s, SendStart(chat), op);
  }

  /** It frees the chat and the device, and leaves a claimed turn as it is. */
  lemma DeliveryFrees(s: State, chat: string, op: Op)
    requires MapsAgree(s) && In(s, op, Claimed) && Untouched(s, op) && chat in s.byChat
    ensures var freed := AfterDelivery(s, chat);
            && MapsAgree(freed) && In(freed, op, Claimed) && Untouched(freed, op) && freed.turns[op] == s.turns[op]
            && freed.byChat == s.byChat - {chat} && freed.byDevice == WithoutOp(s.byDevice, s.byChat[chat])
  {
    ClearedIsReleased(s, s.byChat[chat], chat);
  }

  lemma DeviceFrees(s: State, op: Op)
    requires MapsAgree(s) && In(s, op, Claimed) && Untouched(s, op) && s.turns[op].chat !in s.byChat
    ensures Answerable(s, op)
  {
    var device := s.turns[op].device;
    if device in s.byDevice {
      var chat := s.turns[s.byDevice[device]].chat;
      DeliveryFrees(s, chat, op);
      FreeIsAnswerable(AfterDelivery(s, chat), op);
      DeliveryIsRun(s, chat, op);
    } else {
      FreeIsAnswerable(s, op);
    }
  }

  /** A claimed turn waits for at most two others: the one at its chat and the one at its device. */
  lemma ClaimedIsAnswerable(s: State, op: Op)
    requires Invariant(s) && In(s, op, Claimed)
    ensures Answerable(s, op)
  {
    var chat := s.turns[op].chat;
    if chat in s.byChat {
      DeliveryFrees(s, chat, op);
      DeviceFrees(AfterDelivery(s, chat), op);
      DeliveryIsRun(s, chat, op);
    } else {
      DeviceFrees(s, op);
    }
  }

  /** In every reachable state, a recorded turn without a response can still get one exactly if it is not given up. */
  lemma AnsweredExactlyUnlessGivenUp(run: seq<Step>, op: Op)
    requires Feasible(EMPTY, run) && op in Run(EMPTY, run).turns && Run(EMPTY, run).turns[op].response.None?
    ensures (exists steps :: Answers(Run(EMPTY, run), steps, op)) <==> !GivenUp(Run(EMPTY, run), op)
  {
    var s := Run(EMPTY, run);
    RunKeeps(EMPTY, run);
    if GivenUp(s, op) {
      forall steps ensures !Answers(s, steps, op) {
        if Feasible(s, steps) {
          GivenUpForever(s, steps, op);
        }
      }
    } else if op in s.tasks && !s.tasks[op].Closing? {
      match s.tasks[op]
      case Claimed => ClaimedIsAnswerable(s, op);
      case Fenced => FencedIsAnswerable(s, op);
      case Running => RunningIsAnswerable(s, op);
    } else if chat :| chat in s.byChat && s.byChat[chat] == op {
      ActiveIsAnswerable(s, op, chat);
    } else {
      var chat :| (op, chat) in s.sends;
      ReplyAnswers(s, op, chat);
    }
  }

  // ----- The adapter runs the protocol -----

  /** The adapter's fields are those of the state. */
  ghost predicate Shows(adapter: RobotAdapter, s: State)
    reads adapter
  {
    && adapter.turns == s.turns && adapter.futures == s.futures
    && adapter.byChat == s.byChat && adapter.byDevice == s.byDevice
  }

  // Every critical section of the adapter is one step, from any state that other sections may have left.

  method ClaimSection(adapter: RobotAdapter, ghost s: State, r: Request) returns (answer: Answer)
    requires Shows(adapter, s)
    modifies adapter
    ensures Shows(adapter, Apply(s, Submit(r)))
    ensures answer == AnswerTo(s.turns, s.futures, r.op, r.text)
  {
    answer := adapter.ClaimTurn(r.op, r.text, r.device, r.chat);
  }

  method FenceSection(adapter: RobotAdapter, ghost s: State, op: Op, chat: string, device: string) returns (ok: bool)
    requires Shows(adapter, s) && Enabled(s, Enter(op)) && s.turns[op].chat == chat && s.turns[op].device == device
    modifies adapter
    ensures Shows(adapter, Apply(s, Enter(op)))
    ensures ok <==> In(Apply(s, Enter(op)), op, Fenced)
  {
    ok := adapter.Fence(op, chat, device);
  }

  method FailSection(adapter: RobotAdapter, ghost s: State, op: Op, response: Response)
    requires Shows(adapter, s) && Enabled(s, Fail(op, response))
    modifies adapter
    ensures Shows(adapter, Apply(s, Fail(op, response)))
  {
    adapter.CompleteTurn(op, response);
  }

  method LeaveSection(adapter: RobotAdapter, ghost s: State, op: Op, chat: string, device: string)
    requires Shows(adapter, s) && Enabled(s, Leave(op)) && s.turns[op].chat == chat && s.turns[op].device == device
    modifies adapter
    ensures Shows(adapter, Apply(s, Leave(op)))
  {
    adapter.Release(op, chat, device);
  }

  method RecordSection(adapter: RobotAdapter, ghost s: State, op: Op, chat: string, response: Response, durable: bool)
    requires Shows(adapter, s) && Enabled(s, SendRecord(op, chat, response, durable))
    modifies adapter
    ensures Shows(adapter, Apply(s, SendRecord(op, chat, response, durable)))
  {
    adapter.CompleteTurn(op, response);
  }

  method ClearSection(adapter: RobotAdapter, ghost s: State, op: Op, chat: string)
    requires Shows(adapter, s) && Enabled(s, SendClear(op, chat))
    modifies adapter
    ensures Shows(adapter, Apply(s, SendClear(op, chat)))
  {
    adapter.ClearDelivered(op, chat);
  }

  /** A new process over the same turn table. */
  method RestartAdapter(adapter: RobotAdapter, ghost s: State) returns (restarted: RobotAdapter)
    requires Shows(adapter, s)
    ensures fresh(restarted) && Shows(restarted, Apply(s, Restart))
  {
    restarted := new RobotAdapter(adapter.turns);
  }

  /** How a fresh submission goes on: refused before the fence, failing right behind it, or with the agent. */
  datatype Course = Unbound | Broken | Answered | Failed(response: Response) | Recovering

  /**
    What a fresh submission that nothing disturbs leaves behind. Its turn is recorded, with a response only if the agent
    failed. Behind the fence, which opens if chat and device are free, it stays active where it broke off or was handed to
    reply recovery; otherwise both maps are as before.
   */
  ghost predicate Submitted(s: State, r: Request, course: Course, adapter: RobotAdapter)
    reads adapter
  {
    var entered := !course.Unbound? && r.chat !in s.byChat && r.device !in s.byDevice;
    && adapter.turns == s.turns[r.op := Turn(r.text, r.device, r.chat, if entered && course.Failed? then Some(course.response) else None)]
    && adapter.futures == (if entered && course.Failed? then s.futures - {r.op} else s.futures + {r.op})
    && (if entered && (course.Broken? || course.Recovering?) then
          adapter.byChat == s.byChat[r.chat := r.op] && adapter.byDevice == s.byDevice[r.device := r.op]
        else adapter.byChat == s.byChat && adapter.byDevice == s.byDevice)
  }

  /** A whole submission. Its sections are a run of the protocol; a repeated one is a single step that starts nothing. */
  method SubmitText(adapter: RobotAdapter, ghost s: State, r: Request, course: Course) returns (answer: Answer, ghost steps: seq<Step>)
    requires Shows(adapter, s)
    modifies adapter
    ensures Feasible(s, steps) && Shows(adapter, Run(s, steps))
    ensures answer == AnswerTo(s.turns, s.futures, r.op, r.text)
    ensures !answer.Fresh? ==> Run(s, steps) == s
    ensures Invariant(s) && answer.Fresh? ==> Submitted(s, r, course, adapter)
  {
    answer := ClaimSection(adapter, s, r);
    ghost var claimed := Apply(s, Submit(r));
    if !answer.Fresh? || course.Unbound? {
      steps := [];
      if answer.Fresh? {
        steps := First(claimed, Refuse(r.op), steps);
      }
      steps := First(s, Submit(r), steps);
      return;
    }
    steps := EnterTurn(adapter, claimed, r, course);
    if Invariant(s) {
      FreshIsClaimed(s, r);
    }
    steps := First(s, Submit(r), steps);
  }

  lemma FreshIsClaimed(s: State, r: Request)
    requires Invariant(s) && AnswerTo(s.turns, s.futures, r.op, r.text).Fresh?
    ensures MapsAgree(Apply(s, Submit(r))) && Untouched(Apply(s, Submit(r)), r.op)
  {
    StepKeeps(s, Submit(r));
    assert In(Apply(s, Submit(r)), r.op, Claimed);
  }

  /** An untouched turn comes through the fence exactly if nothing is active at its chat or device, and leaves no trace when it goes. */
  lemma UntouchedIsFree(s: State, op: Op)
    requires MapsAgree(s) && Untouched(s, op)
    ensures var t := s.turns[op];
            && (Free(s.byChat, s.byDevice, op, t.chat, t.device) <==> t.chat !in s.byChat && t.device !in s.byDevice)
            && (t.chat !in s.byChat ==> Without(s.byChat[t.chat := op], t.chat, op) == s.byChat)
            && (t.device !in s.byDevice ==> Without(s.byDevice[t.device := op], t.device, op) == s.byDevice)
  {
  }

  /** The part from the fence on. */
  method EnterTurn(adapter: RobotAdapter, ghost s: State, r: Request, course: Course) returns (ghost steps: seq<Step>)
    requires Shows(adapter, s) && In(s, r.op, Claimed) && !course.Unbound?
    requires s.turns[r.op] == Turn(r.text, r.device, r.chat, None) && r.op in s.futures
    modifies adapter
    ensures Feasible(s, steps) && Shows(adapter, Run(s, steps))
    ensures MapsAgree(s) && Untouched(s, r.op) ==> Submitted(s, r, course, adapter)
  {
    if MapsAgree(s) && Untouched(s, r.op) {
      UntouchedIsFree(s, r.op);
    }
    var ok := FenceSection(adapter, s, r.op, r.chat, r.device);
    ghost var fenced := Apply(s, Enter(r.op));
    steps := [];
    if ok {
      steps := RunTurn(adapter, fenced, r, course);
    }
    steps := First(s, Enter(r.op), steps);
  }

  /** The part behind the fence. */
  method RunTurn(adapter: RobotAdapter, ghost s: State, r: Request, course: Course) returns (ghost steps: seq<Step>)
    requires Shows(adapter, s) && In(s, r.op, Fenced) && !course.Unbound?
    requires s.turns[r.op].chat == r.chat && s.turns[r.op].device == r.device
    modifies adapter
    ensures Feasible(s, steps) && Shows(adapter, Run(s, steps))
    ensures adapter.turns == if course.Failed? then s.turns[r.op := s.turns[r.op].(response := Some(course.response))] else s.turns
    ensures adapter.futures == if course.Failed? then s.futures - {r.op} else s.futures
    ensures course.Broken? || course.Recovering? ==> adapter.byChat == s.byChat && adapter.byDevice == s.byDevice
    ensures !(course.Broken? || course.Recovering?) ==>
              adapter.byChat == Without(s.byChat, r.chat, r.op) && adapter.byDevice == Without(s.byDevice, r.device, r.op)
  {
    if course.Broken? {
      steps := First(s, Abort(r.op), []);
      return;
    }
    ghost var running := Apply(s, Dispatch(r.op));
    if course.Recovering? {
      steps := First(running, HandOff(r.op), []);
      steps := First(s, Dispatch(r.op), steps);
      return;
    }
    ghost var ending := if course.Failed? then Fail(r.op, course.response) else Return(r.op);
    if course.Failed? {
      FailSection(adapter, running, r.op, course.response);
    }
    ghost var closing := Apply(running, ending);
    LeaveSection(adapter, closing, r.op, r.chat, r.device);
    steps := First(closing, Leave(r.op), []);
    steps := First(running, ending, steps);
    steps := First(s, Dispatch(r.op), steps);
  }

  /**
    What a reply that nothing disturbs leaves behind: the active turn has it and nobody waits for it any more, no other turn
    changed, and a durable one has left its chat and its device.
   */
  ghost predicate Replied(s: State, op: Op, response: Response, durable: bool, adapter: RobotAdapter)
    requires op in s.turns
    reads adapter
  {
    && adapter.turns == s.turns[op := s.turns[op].(response := Some(response))] && adapter.futures == s.futures - {op}
    && (if durable then
          && (forall chat :: chat in adapter.byChat <==> chat in s.byChat && s.byChat[chat] != op)
          && (forall chat :: chat in adapter.byChat ==> adapter.byChat[chat] == s.byChat[chat])
          && (forall device :: device in adapter.byDevice <==> device in s.byDevice && s.byDevice[device] != op)
          && (forall device :: device in adapter.byDevice ==> adapter.byDevice[device] == s.byDevice[device])
        else adapter.byChat == s.byChat && adapter.byDevice == s.byDevice)
  }

  /**
    What is handed to the channel: the agent's reply; the verified delivery of a reply job for its operation; a notice of
    the framework; or the sign that a reply job takes over, which it may refuse.
   */
  datatype Content = Direct(response: Response) | Durable(op: Op, response: Response) | Notice | HandOver(taken: bool)

  /** A whole reply. Only replies and verified deliveries are recorded; whatever is not accepted changes nothing. */
  method Send(adapter: RobotAdapter, ghost s: State, chat: string, content: Content) returns (ok: bool, ghost steps: seq<Step>)
    requires Shows(adapter, s)
    modifies adapter
    ensures Feasible(s, steps) && Shows(adapter, Run(s, steps))
    ensures ok <==> && chat in s.byChat
                    && (content.Durable? ==> content.op == s.byChat[chat]) && (content.HandOver? ==> content.taken)
    ensures !ok || content.Notice? || content.HandOver? ==> steps == []
    ensures Invariant(s) && ok && (content.Direct? || content.Durable?) ==>
              s.byChat[chat] in s.turns && Replied(s, s.byChat[chat], content.response, content.Durable?, adapter)
    ensures Invariant(s) && ok && (content.Direct? || content.Durable?) ==>
              var op := s.byChat[chat];
              op in s.turns && AnswerTo(adapter.turns, adapter.futures, op, s.turns[op].text) == Cached(content.response)
  {
    ok, steps := false, [];
    if chat !in adapter.byChat {
      return;
    }
    var op := adapter.byChat[chat];
    match content {
      case Durable(job, response) =>
        ok := op == job;
        if ok {
          steps := Reply(adapter, s, chat, op, response, true);
        }
      case Direct(response) =>
        ok := true;
        steps := Reply(adapter, s, chat, op, response, false);
      case Notice => ok := true;
      case HandOver(taken) => ok := taken;
    }
  }

  /** The sections of a reply that is recorded. */
  method Reply(adapter: RobotAdapter, ghost s: State, chat: string, op: Op, response: Response, durable: bool)
    returns (ghost steps: seq<Step>)
    requires Shows(adapter, s) && chat in s.byChat && s.byChat[chat] == op
    modifies adapter
    ensures Feasible(s, steps) && Shows(adapter, Run(s, steps))
    ensures Invariant(s) ==> op in s.turns && Replied(s, op, response, durable, adapter)
  {
    ghost var started := Apply(s, SendStart(chat));
    RecordSection(adapter, started, op, chat, response, durable);
    ghost var recorded := Apply(started, SendRecord(op, chat, response, durable));
    steps := [];
    if durable {
      ClearSection(adapter, recorded, op, chat);
      steps := First(recorded, SendClear(op, chat), []);
    }
    steps := First(started, SendRecord(op, chat, response, durable), steps);
    steps := First(s, SendStart(chat), steps);
  }
}
