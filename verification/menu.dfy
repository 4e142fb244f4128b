/** The main loop: read a choice with `readChoice`, dispatch it, repeat until choice 11. */
module Menu {
  import opened Options
  import opened Numerals
  import opened Tables
  import opened Vin
  import opened Handlers

  /** A result of `FirstChoice` with `k` more lines consumed before it. */
  function Offset(r: Option<(int, nat)>, k: nat): Option<(int, nat)> {
    match r
    case None => None
    case Some((choice, used)) => Some((choice, used + k))
  }

  lemma OffsetAdds(r: Option<(int, nat)>, a: nat, b: nat)
    ensures Offset(Offset(r, a), b) == Offset(r, a + b)
  {
  }

  /** What `readChoice` returns: the first line that parses as an `int`, with the number of
      lines it consumed; `None` when the input runs dry first (the source then re-prompts
      forever, since `readLine` keeps returning null). */
  function FirstChoice(lines: seq<string>): (r: Option<(int, nat)>)
    ensures r.Some? ==> 1 <= r.value.1 <= |lines|
  {
    if lines == [] then None
    else
      match ParseInt(lines[0])
      case Some(choice) => Some((choice, 1))
      case None => Offset(FirstChoice(lines[1..]), 1)
  }

  /** `readChoice` yields the first line that parses, and every line before it failed to
      parse; when it yields nothing, no line parsed. */
  lemma {:induction false} FirstChoiceIsFirstValid(lines: seq<string>)
    ensures FirstChoice(lines).Some? ==>
              var (choice, used) := FirstChoice(lines).value;
              && ParseInt(lines[used - 1]) == Some(choice)
              && forall j | 0 <= j < used - 1 :: ParseInt(lines[j]).None?
    ensures FirstChoice(lines).None? ==> forall j | 0 <= j < |lines| :: ParseInt(lines[j]).None?
  {
    if lines != [] && ParseInt(lines[0]).None? {
      FirstChoiceIsFirstValid(lines[1..]);
      assert forall j | 0 <= j < |lines| - 1 :: lines[1..][j] == lines[j + 1];
    }
  }

  /** One prompt of `readChoice`, read at line `k`. */
  lemma FirstChoiceStep(lines: seq<string>, k: nat)
    requires k < |lines|
    ensures ParseInt(lines[k]).Some? ==> FirstChoice(lines[k..]) == Some((ParseInt(lines[k]).value, 1))
    ensures ParseInt(lines[k]).None? ==> FirstChoice(lines[k..]) == Offset(FirstChoice(lines[k + 1..]), 1)
  {
    assert lines[k..][0] == lines[k];
    assert lines[k..][1..] == lines[k + 1..];
  }

  /** The `do { ... } while (true)` loop of `readChoice`: prompt, read a line, return it
      parsed, or report it invalid and prompt again. */
  method ReadChoice(lines: seq<string>) returns (choice: Option<int>, consumed: nat)
    ensures consumed <= |lines|
    ensures choice.Some? ==> FirstChoice(lines) == Some((choice.value, consumed))
    ensures choice.None? ==> FirstChoice(lines).None? && consumed == |lines|
  {
    consumed := 0;
    assert lines[consumed..] == lines;
    while consumed < |lines|
      invariant consumed <= |lines|
      invariant FirstChoice(lines) == Offset(FirstChoice(lines[consumed..]), consumed)
    {
      FirstChoiceStep(lines, consumed);
      var parsed := ParseInt(lines[consumed]);
      if parsed.Some? {
        return parsed, consumed + 1;
      }
      OffsetAdds(FirstChoice(lines[consumed + 1..]), 1, consumed);
      consumed := consumed + 1;
    }
    assert lines[consumed..] == [];
    return None, consumed;
  }

  /** The ten menu entries. */
  datatype Operation =
    | NewCustomer | NewMechanic | NewCar | NewServiceRequest | CloseRequest
    | BillsUnder100 | OwnersOfManyCars | OldHighMileageCars | MostServicedCars | CustomersByTotalBill
  {
    /** Entries 6 to 10 only run a query and print its rows. */
    predicate IsReport() {
      BillsUnder100? || OwnersOfManyCars? || OldHighMileageCars? || MostServicedCars? || CustomersByTotalBill?
    }

    /** Entries 1 to 5 read a form, and entry 9 reads how many cars to list; the other
        reports read nothing after the choice. */
    predicate Prompts() {
      !IsReport() || MostServicedCars?
    }
  }

  datatype Action = Invoke(op: Operation) | Exit | Redisplay

  /** The number the menu prints before each entry. */
  function MenuNumber(op: Operation): (n: int)
    ensures 1 <= n <= 10
    ensures op.IsReport() <==> 6 <= n
  {
    match op
    case NewCustomer => 1
    case NewMechanic => 2
    case NewCar => 3
    case NewServiceRequest => 4
    case CloseRequest => 5
    case BillsUnder100 => 6
    case OwnersOfManyCars => 7
    case OldHighMileageCars => 8
    case MostServicedCars => 9
    case CustomersByTotalBill => 10
  }

  /** The `switch` of `main`: 11 ends the loop, 1 to 10 run the entry printed with that
      number, and any other integer falls through to the next iteration. */
  function Dispatch(choice: int): (a: Action)
    ensures a == Exit <==> choice == 11
    ensures a == Redisplay <==> choice < 1 || 11 < choice
    ensures a.Invoke? ==> MenuNumber(a.op) == choice
  {
    if choice == 1 then Invoke(NewCustomer)
    else if choice == 2 then Invoke(NewMechanic)
    else if choice == 3 then Invoke(NewCar)
    else if choice == 4 then Invoke(NewServiceRequest)
    else if choice == 5 then Invoke(CloseRequest)
    else if choice == 6 then Invoke(BillsUnder100)
    else if choice == 7 then Invoke(OwnersOfManyCars)
    else if choice == 8 then Invoke(OldHighMileageCars)
    else if choice == 9 then Invoke(MostServicedCars)
    else if choice == 10 then Invoke(CustomersByTotalBill)
    else if choice == 11 then Exit
    else Redisplay
  }

  /** Every entry is reached by typing the number printed before it. */
  lemma DispatchMenuNumber(op: Operation)
    ensures Dispatch(MenuNumber(op)) == Invoke(op)
  {
  }

  /** The answers the user would type at the prompts of whichever handler runs, with the
      random draws AddCar would make. */
  datatype Inputs = Inputs(customer: CustomerForm, mechanic: MechanicForm, car: CarForm,
                           draws: seq<VinDraw>, request: RequestForm, close: CloseForm)

  predicate WellFormedInputs(inputs: seq<Inputs>) {
    forall i | 0 <= i < |inputs| :: AllWellFormed(inputs[i].draws)
  }

  /** Run one menu entry. The report entries only read, so the store stays as it is. */
  function Perform(op: Operation, s: Store, input: Inputs): (r: Outcome)
    requires AllWellFormed(input.draws)
  {
    match op
    case NewCustomer => AddCustomer(s, input.customer)
    case NewMechanic => AddMechanic(s, input.mechanic)
    case NewCar => AddCar(s, input.draws, input.car)
    case NewServiceRequest => InsertServiceRequest(s, input.request)
    case CloseRequest => CloseServiceRequest(s, input.close)
    case _ => Outcome(s, Reported)
  }

  /** Each entry answers only with the messages its handler prints and writes only the
      tables its handler inserts into. */
  lemma PerformEntryEffects(op: Operation, s: Store, input: Inputs)
    requires AllWellFormed(input.draws)
    ensures var r := Perform(op, s, input);
            && (op == NewCustomer ==>
                  r.diag in {Done, Aborted} && r.store == s.(customers := r.store.customers))
            && (op == NewMechanic ==>
                  r.diag in {Done, Aborted} && r.store == s.(mechanics := r.store.mechanics))
            && (op == NewCar ==>
                  r.diag in {Done, CustomerIdError, VinSearchUnfinished, Aborted}
                  && r.store == s.(cars := r.store.cars, owns := r.store.owns))
            && (op == NewServiceRequest ==>
                  r.diag in {Done, CustomerIdError, CarVinError, Aborted}
                  && r.store == s.(requests := r.store.requests))
            && (op == CloseRequest ==>
                  r.diag in {Done, RequestMissing, AlreadyClosed, MechanicMissing}
                  && r.store == s.(closed := r.store.closed))
            && (op.IsReport() ==> r.store == s)
            && (op.IsReport() <==> r.diag == Reported)
  {
    match op
    case NewCustomer =>
    case NewMechanic =>
    case NewCar =>
    case NewServiceRequest =>
    case CloseRequest =>
    case _ =>
  }

  lemma PerformKeepsIntegrity(op: Operation, s: Store, input: Inputs)
    requires AllWellFormed(input.draws)
    requires Valid(s)
    ensures Valid(Perform(op, s, input).store) && Extends(s, Perform(op, s, input).store)
  {
    match op
    case NewCustomer => AddCustomerKeepsIntegrity(s, input.customer);
    case NewMechanic => AddMechanicKeepsIntegrity(s, input.mechanic);
    case NewCar => AddCarKeepsIntegrity(s, input.draws, input.car);
    case NewServiceRequest => InsertServiceRequestKeepsIntegrity(s, input.request);
    case CloseRequest => CloseServiceRequestKeepsIntegrity(s, input.close);
    case _ =>
  }

  /** Where the loop stands when the input is exhausted, when 11 is chosen, or when AddCar's
      VIN search is unfinished and control never returns to the menu; with the diagnostics
      of the entries it ran, in order. */
  datatype Session = Session(store: Store, exited: bool, log: seq<Diagnostic>)

  /** The `while (keepon)` loop of `main` over the lines typed at the choice prompt and the
      answers given to the handlers it runs. */
  function RunMenu(s: Store, lines: seq<string>, inputs: seq<Inputs>): (r: Session)
    requires WellFormedInputs(inputs)
    // each entry run takes at least one line to choose it
    ensures |r.log| <= |lines|
    ensures r.log == [] && !r.exited ==> r.store == s
    decreases |lines|
  {
    match FirstChoice(lines)
    case None => Session(s, false, [])
    case Some((choice, used)) =>
      match Dispatch(choice)
      case Exit => Session(s, true, [])
      case Redisplay => RunMenu(s, lines[used..], inputs)
      case Invoke(op) =>
        if !op.Prompts() then
          var rest := RunMenu(s, lines[used..], inputs);
          Session(rest.store, rest.exited, [Reported] + rest.log)
        else if inputs == [] then Session(s, false, [])
        else
          var o := Perform(op, s, inputs[0]);
          // AddCar is still drawing VINs: control never returns to the menu
          if o.diag == VinSearchUnfinished then Session(o.store, false, [o.diag])
          else
            var rest := RunMenu(o.store, lines[used..], inputs[1..]);
            Session(rest.store, rest.exited, [o.diag] + rest.log)
  }

  /** A line that is not an integer is skipped: the loop goes on as if it had not been typed. */
  lemma InvalidLineReprompts(s: Store, line: string, rest: seq<string>, inputs: seq<Inputs>)
    requires WellFormedInputs(inputs)
    requires ParseInt(line).None?
    ensures RunMenu(s, [line] + rest, inputs) == RunMenu(s, rest, inputs)
  {
    var lines := [line] + rest;
    FirstChoiceStep(lines, 0);
    assert lines[0..] == lines && lines[1..] == rest;
    match FirstChoice(rest)
    case None =>
      assert FirstChoice(lines).None?;
    case Some((choice, used)) =>
      assert FirstChoice(lines) == Some((choice, used + 1));
      assert lines[used + 1..] == rest[used..];
  }

  /** An integer outside 1 to 11 changes nothing and the menu is shown again. */
  lemma UnknownChoiceLoops(s: Store, line: string, rest: seq<string>, inputs: seq<Inputs>)
    requires WellFormedInputs(inputs)
    requires ParseInt(line).Some? && (ParseInt(line).value < 1 || 11 < ParseInt(line).value)
    ensures RunMenu(s, [line] + rest, inputs) == RunMenu(s, rest, inputs)
  {
    var lines := [line] + rest;
    assert lines[1..] == rest;
  }

  /** Typing 11 ends the loop with the store as it stands. */
  lemma ElevenExits(s: Store, rest: seq<string>, inputs: seq<Inputs>)
    requires WellFormedInputs(inputs)
    ensures RunMenu(s, ["11"] + rest, inputs) == Session(s, true, [])
  {
    assert ShowInt(11) == "11";
    ParseShowRoundTrip(11);
  }

  /** Choosing entry 6, 7, 8 or 10 prints a report and goes straight back to the menu,
      reading nothing but the choice. */
  lemma ReportNeedsNoInput(s: Store, op: Operation, rest: seq<string>, inputs: seq<Inputs>)
    requires WellFormedInputs(inputs)
    requires !op.Prompts()
    ensures var after := RunMenu(s, rest, inputs);
            RunMenu(s, [ShowInt(MenuNumber(op))] + rest, inputs)
              == Session(after.store, after.exited, [Reported] + after.log)
  {
    var lines := [ShowInt(MenuNumber(op))] + rest;
    ParseShowRoundTrip(MenuNumber(op));
    DispatchMenuNumber(op);
    assert lines[0] == ShowInt(MenuNumber(op)) && lines[1..] == rest;
  }

  /** Choosing entry 1 to 5 or 9 runs its handler on the next set of answers, then the loop
      goes on with the store the handler left; unless AddCar is still searching for a VIN,
      in which case the session goes no further. */
  lemma PromptingEntryUsesOneInput(s: Store, op: Operation, rest: seq<string>, inputs: seq<Inputs>)
    requires WellFormedInputs(inputs)
    requires op.Prompts() && inputs != []
    ensures var o := Perform(op, s, inputs[0]);
            var after := RunMenu(o.store, rest, inputs[1..]);
            o.diag != VinSearchUnfinished ==>
              RunMenu(s, [ShowInt(MenuNumber(op))] + rest, inputs)
                == Session(after.store, after.exited, [o.diag] + after.log)
    ensures var o := Perform(op, s, inputs[0]);
            o.diag == VinSearchUnfinished ==>
              RunMenu(s, [ShowInt(MenuNumber(op))] + rest, inputs) == Session(o.store, false, [o.diag])
  {
    var lines := [ShowInt(MenuNumber(op))] + rest;
    ParseShowRoundTrip(MenuNumber(op));
    DispatchMenuNumber(op);
    assert lines[0] == ShowInt(MenuNumber(op)) && lines[1..] == rest;
  }

  /** A line reading 11 after the first `used` lines is a line reading 11. */
  lemma ElevenInSuffix(lines: seq<string>, used: nat)
    requires used <= |lines|
    requires exists j | 0 <= j < |lines[used..]| :: ParseInt(lines[used..][j]) == Some(11)
    ensures exists j | 0 <= j < |lines| :: ParseInt(lines[j]) == Some(11)
  {
    var j :| 0 <= j < |lines[used..]| && ParseInt(lines[used..][j]) == Some(11);
    assert lines[used + j] == lines[used..][j];
  }

  /** The loop only ends on a line that reads as 11. */
  lemma {:induction false} ExitNeedsEleven(s: Store, lines: seq<string>, inputs: seq<Inputs>)
    requires WellFormedInputs(inputs)
    ensures RunMenu(s, lines, inputs).exited ==>
              exists j | 0 <= j < |lines| :: ParseInt(lines[j]) == Some(11)
    decreases |lines|
  {
    match FirstChoice(lines)
    case None =>
    case Some((choice, used)) =>
      FirstChoiceIsFirstValid(lines);
      var later := lines[used..];
      match Dispatch(choice)
      case Exit =>
        assert ParseInt(lines[used - 1]) == Some(11);
      case Redisplay =>
        ExitNeedsEleven(s, later, inputs);
        if RunMenu(s, later, inputs).exited {
          ElevenInSuffix(lines, used);
        }
      case Invoke(op) =>
        if !op.Prompts() {
          ExitNeedsEleven(s, later, inputs);
          if RunMenu(s, later, inputs).exited {
            ElevenInSuffix(lines, used);
          }
        } else if inputs != [] && Perform(op, s, inputs[0]).diag != VinSearchUnfinished {
          var o := Perform(op, s, inputs[0]);
          ExitNeedsEleven(o.store, later, inputs[1..]);
          if RunMenu(o.store, later, inputs[1..]).exited {
            ElevenInSuffix(lines, used);
          }
        }
  }

  /** However the session goes, the store keeps its referential integrity and rows are
      only ever added. */
  lemma {:induction false} RunMenuKeepsIntegrity(s: Store, lines: seq<string>, inputs: seq<Inputs>)
    requires WellFormedInputs(inputs)
    requires Valid(s)
    ensures Valid(RunMenu(s, lines, inputs).store)
    ensures Extends(s, RunMenu(s, lines, inputs).store)
    decreases |lines|
  {
    match FirstChoice(lines)
    case None =>
    case Some((choice, used)) =>
      match Dispatch(choice)
      case Exit =>
      case Redisplay =>
        RunMenuKeepsIntegrity(s, lines[used..], inputs);
      case Invoke(op) =>
        if !op.Prompts() {
          RunMenuKeepsIntegrity(s, lines[used..], inputs);
        } else if inputs != [] {
          var o := Perform(op, s, inputs[0]);
          PerformKeepsIntegrity(op, s, inputs[0]);
          if o.diag == VinSearchUnfinished {
            return;
          }
          RunMenuKeepsIntegrity(o.store, lines[used..], inputs[1..]);
          ExtendsTransitive(s, o.store, RunMenu(o.store, lines[used..], inputs[1..]).store);
        }
  }
}
