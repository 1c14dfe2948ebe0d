/**
 * The chat side of CallingBot: OnMessageActivityAsync and SendReponse, with the
 * roster commands acting on the Employee table and "newgc" placing a group call
 * to the attending employees.
 */
module Bot {
  import opened Maybe
  import opened Messages
  import opened Roster
  import Calls

  /** The application identity a call is placed from (the bot's app registration). */
  datatype Application = Application(id: string, displayName: string)

  /** The group call "newgc" places (everything but its targets is fixed in CallingBot.cs). */
  datatype CallRequest = CallRequest(
    outgoing: bool, subject: string, callbackUri: string, source: Application,
    targets: seq<Target>, requestedModalities: seq<Calls.Modality>, tenantId: string)

  /** The group call for the given targets; the six hard-coded users it starts with are always replaced. */
  function GroupCall(targets: seq<Target>): CallRequest
  {
    CallRequest(
      true, "Create a group call with service hosted media", "https://bot.contoso.com/callback",
      Application("944588c9-67a2-4ad4-b6c9-eb68e8b31a0a", "Newest Meeting Bot"),
      targets, [Calls.Audio], "1ff8950e-9285-4c2e-80fc-5522c267a97e")
  }

  /** What a turn produced. */
  datatype Outcome =
    | Replied(replies: seq<Reply>)
    | GroupCallPlaced(request: CallRequest)
    | GraphDelegated(command: Command)  // a Graph-calling command, whose replies depend on the network
    | Faulted                            // a store exception escaped the turn: nothing was sent

  /**
   * The effect of SendReponse for command c from `sender`, taking the table
   * from (rows0, order0) to (rows1, order1). `storeFault` says whether a store
   * write raises an exception, `readFault` where reading the table does, and
   * `insertAt` where the store places a new row in the read order.
   */
  ghost predicate Handled(
    c: Command, sender: Account, storeFault: bool, readFault: Option<nat>, insertAt: nat,
    rows0: map<string, Employee>, order0: seq<string>,
    rows1: map<string, Employee>, order1: seq<string>, outcome: Outcome)
  {
    var id := sender.aadObjectId;
    if IsGraphCommand(c) then
      outcome == GraphDelegated(c) && rows1 == rows0 && order1 == order0
    else if c.NewGroupCall? then
      outcome == GroupCallPlaced(GroupCall(AttendingTargets(rows0, RowsRead(order0, readFault)))) &&
      rows1 == rows0 && order1 == order0
    else if c.Register? then
      var inserted := !storeFault && id !in rows0;
      outcome == Replied(RepliesTo(c, sender.name, inserted)) &&
      (inserted ==> rows1 == rows0[id := Employee(sender.name, true)] &&
                    order1 == order0[..Slot(order0, insertAt)] + [id] + order0[Slot(order0, insertAt)..]) &&
      (!inserted ==> rows1 == rows0 && order1 == order0)
    else if c.ReportSick? then
      (storeFault ==> outcome == Faulted && rows1 == rows0) &&
      (!storeFault ==> (outcome == Replied(RepliesTo(c, sender.name, false)) &&
                        rows1 == if id in rows0 then rows0[id := rows0[id].(attends := false)] else rows0)) &&
      order1 == order0
    else
      outcome == Replied(RepliesTo(c, sender.name, false)) && rows1 == rows0 && order1 == order0
  }

  class CallingBot {
    const employees: EmployeeTable

    ghost predicate Valid()
      reads this, employees
    {
      employees.Valid()
    }

    constructor (employees: EmployeeTable)
      requires employees.Valid()
      ensures this.employees == employees && Valid()
    {
      this.employees := employees;
    }

    /** SendReponse: route the token and carry out its command. */
    method SendResponse(sender: Account, input: string, storeFault: bool, readFault: Option<nat>, insertAt: nat)
      returns (outcome: Outcome)
      requires Valid()
      modifies employees
      ensures Valid()
      ensures Handled(Route(input), sender, storeFault, readFault, insertAt,
                      old(employees.rows), old(employees.order), employees.rows, employees.order, outcome)
    {
      var c := Route(input);
      if IsGraphCommand(c) {
        outcome := GraphDelegated(c);
      } else if c.NewGroupCall? {
        var targets := employees.Participants(readFault);
        outcome := GroupCallPlaced(GroupCall(targets));
      } else if c.Register? {
        var inserted := employees.Insert(sender.aadObjectId, sender.name, storeFault, insertAt);
        outcome := Replied(RepliesTo(c, sender.name, inserted));
      } else if c.ReportSick? {
        var completed := employees.MarkAbsent(sender.aadObjectId, storeFault);
        outcome := if completed then Replied(RepliesTo(c, sender.name, false)) else Faulted;
      } else {
        outcome := Replied(RepliesTo(c, sender.name, false));
      }
    }

    /** OnMessageActivityAsync: normalise the message and hand its token on, or do nothing. */
    method OnMessageActivity(a: MessageActivity, storeFault: bool, readFault: Option<nat>, insertAt: nat)
      returns (outcome: Outcome)
      requires Valid()
      modifies employees
      ensures Valid()
      ensures CommandToken(a) == None ==>
        outcome == Replied([]) && employees.rows == old(employees.rows) && employees.order == old(employees.order)
      ensures CommandToken(a).Some? ==>
        Handled(Route(CommandToken(a).value), a.from, storeFault, readFault, insertAt,
                old(employees.rows), old(employees.order), employees.rows, employees.order, outcome)
    {
      var token := CommandToken(a);
      if token.Some? {
        outcome := SendResponse(a.from, token.value, storeFault, readFault, insertAt);
      } else {
        outcome := Replied([]);
      }
    }
  }

  /**
   * Only "register" and "reportsick" write the table: "register" adds one row
   * and "reportsick" changes no key; and every turn keeps the read order a
   * list of the table's keys.
   */
  lemma OnlyRosterCommandsWrite(
    c: Command, sender: Account, storeFault: bool, readFault: Option<nat>, insertAt: nat,
    rows0: map<string, Employee>, order0: seq<string>,
    rows1: map<string, Employee>, order1: seq<string>, outcome: Outcome)
    requires Handled(c, sender, storeFault, readFault, insertAt, rows0, order0, rows1, order1, outcome)
    ensures !c.Register? && !c.ReportSick? ==> rows1 == rows0 && order1 == order0
    ensures c.ReportSick? ==> rows1.Keys == rows0.Keys && order1 == order0
    ensures c.Register? ==> rows1.Keys == rows0.Keys || rows1.Keys == rows0.Keys + {sender.aadObjectId}
    ensures WellFormed(rows0, order0) ==> WellFormed(rows1, order1)
  {
    var id := sender.aadObjectId;
    if c.Register? && !storeFault && id !in rows0 && WellFormed(rows0, order0) {
      InsertKeepsWellFormed(rows0, order0, Slot(order0, insertAt), id, sender.name);
    }
  }

  /** After "reportsick" went through, the next group call does not invite the sender. */
  lemma ReportSickLeavesNextCall(
    sender: Account, readFault: Option<nat>,
    rows0: map<string, Employee>, order0: seq<string>,
    rows1: map<string, Employee>, order1: seq<string>, outcome: Outcome,
    rows2: map<string, Employee>, order2: seq<string>, call: Outcome)
    requires Handled(ReportSick, sender, false, None, 0, rows0, order0, rows1, order1, outcome)
    requires Handled(NewGroupCall, sender, false, readFault, 0, rows1, order1, rows2, order2, call)
    ensures outcome == Replied([TextReply(SignedOff(sender.name))])
    ensures call.GroupCallPlaced? && forall t :: t in call.request.targets ==> t.id != sender.aadObjectId
  {
    var id := sender.aadObjectId;
    var ids := RowsRead(order0, readFault);
    if id in rows0 {
      AttendingAfterAbsent(rows0, ids, id);
    } else {
      forall t | t in call.request.targets ensures t.id != id {
        AttendingTargetsSound(rows1, ids, t);
      }
    }
  }

  /**
   * "newgc" invites exactly the attending rows read before any store
   * exception, in read order, and changes nothing; with no exception every
   * attending employee is invited.
   */
  lemma NewGroupCallTargets(
    sender: Account, storeFault: bool, readFault: Option<nat>, insertAt: nat,
    rows0: map<string, Employee>, order0: seq<string>,
    rows1: map<string, Employee>, order1: seq<string>, call: Outcome)
    requires WellFormed(rows0, order0)
    requires Handled(NewGroupCall, sender, storeFault, readFault, insertAt, rows0, order0, rows1, order1, call)
    ensures rows1 == rows0 && order1 == order0
    ensures call.GroupCallPlaced? && call.request.outgoing && call.request.requestedModalities == [Calls.Audio]
    ensures call.request.targets == AttendingTargets(rows0, RowsRead(order0, readFault))
    ensures forall t :: t in call.request.targets ==> Attends(rows0, t.id) && t.displayName == rows0[t.id].displayName
    ensures readFault.None? ==>
      forall id :: Attends(rows0, id) ==> Target(id, rows0[id].displayName) in call.request.targets
  {
    var ids := RowsRead(order0, readFault);
    assert !IsGraphCommand(NewGroupCall);
    forall t | t in call.request.targets
      ensures Attends(rows0, t.id) && t.displayName == rows0[t.id].displayName
    {
      AttendingTargetsSound(rows0, ids, t);
    }
    if readFault.None? {
      forall id | Attends(rows0, id) ensures Target(id, rows0[id].displayName) in call.request.targets {
        var k :| 0 <= k < |order0| && order0[k] == id;
        AttendingTargetsComplete(rows0, order0, k);
      }
    }
  }

  /**
   * A first "register" puts the sender, attending, into the next group call,
   * between the targets read before the new row and those read after it; when
   * the store appends the row, the sender comes last.
   */
  lemma RegisterJoinsNextCall(
    sender: Account, insertAt: nat,
    rows0: map<string, Employee>, order0: seq<string>,
    rows1: map<string, Employee>, order1: seq<string>, outcome: Outcome,
    rows2: map<string, Employee>, order2: seq<string>, call: Outcome)
    requires WellFormed(rows0, order0) && sender.aadObjectId !in rows0
    requires Handled(Register, sender, false, None, insertAt, rows0, order0, rows1, order1, outcome)
    requires Handled(NewGroupCall, sender, false, None, 0, rows1, order1, rows2, order2, call)
    ensures outcome == Replied([TextReply(Registered(sender.name))])
    ensures call.GroupCallPlaced?
    ensures var before := AttendingTargets(rows0, order0);
      exists p :: 0 <= p <= |before| &&
        call.request.targets == before[..p] + [Target(sender.aadObjectId, sender.name)] + before[p..]
    ensures insertAt >= |order0| ==>
      call.request.targets == AttendingTargets(rows0, order0) + [Target(sender.aadObjectId, sender.name)]
  {
    var id := sender.aadObjectId;
    var k := Slot(order0, insertAt);
    assert !IsGraphCommand(Register) && !IsGraphCommand(NewGroupCall);
    assert rows1 == rows0[id := Employee(sender.name, true)] && order1 == order0[..k] + [id] + order0[k..];
    assert RowsRead(order1, None) == order1;
    assert id !in order0;
    AttendingAfterRegister(rows0, order0, k, id, sender.name);
    if insertAt >= |order0| {
      assert order0[..k] == order0;
    }
  }

  /** A second "register" of the same id is refused and the first display name stays. */
  lemma RegisterTwiceKeepsFirst(
    sender: Account, renamed: string, storeFault: bool, insertAt: nat,
    rows0: map<string, Employee>, order0: seq<string>,
    rows1: map<string, Employee>, order1: seq<string>, first: Outcome,
    rows2: map<string, Employee>, order2: seq<string>, second: Outcome)
    requires Handled(Register, sender, false, None, 0, rows0, order0, rows1, order1, first)
    requires Handled(Register, sender.(name := renamed), storeFault, None, insertAt, rows1, order1, rows2, order2, second)
    ensures second == Replied([TextReply(AlreadyRegistered)])
    ensures sender.aadObjectId in rows2 && rows2 == rows1 && order2 == order1
    ensures sender.aadObjectId !in rows0 ==> rows2[sender.aadObjectId] == Employee(sender.name, true)
  {
  }
}
