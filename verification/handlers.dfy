/** The five write handlers of the menu, each a function from the store and the answers
    typed at its prompts to the new store and the one diagnostic the user sees. */
module Handlers {
  import opened Options
  import opened Numerals
  import opened Keys
  import opened Tables
  import opened Vin

  datatype Diagnostic =
    | Done                 // the inserts ran; nothing is printed
    | CustomerIdError      // "Error (customer_id)"
    | CarVinError          // "Error (car_vin)"
    | RequestMissing       // "Error (service_request doesn't exist)"
    | AlreadyClosed        // "Error (service_request was already closed)"
    | MechanicMissing      // "Error (mechanic doesn't exist)"
    | Aborted              // an exception reached the handler's catch; its message goes to stderr
    | VinSearchUnfinished  // every supplied candidate VIN was taken; the source keeps drawing
    | Reported             // a report handler ran its query; the store is untouched

  datatype Outcome = Outcome(store: Store, diag: Diagnostic)

  datatype CustomerForm = CustomerForm(fname: string, lname: string, phone: string, address: string)

  datatype MechanicForm = MechanicForm(fname: string, lname: string, experience: string)

  datatype CarForm = CarForm(customerId: int, make: string, model: string, year: string)

  datatype RequestForm = RequestForm(customerId: int, carVin: string, date: string,
                                     odometer: string, complain: string)

  datatype CloseForm = CloseForm(rid: int, mechanicId: int, date: string,
                                 comment: string, bill: string)

  /** Handler 1: insert a customer under the next id. */
  function AddCustomer(s: Store, f: CustomerForm): (r: Outcome)
    ensures r.diag == Done || r.diag == Aborted
    ensures r.diag == Aborted ==> r.store == s
    ensures r.diag == Done <==>
              NextKey(s.customers.Keys).Some? && NextKey(s.customers.Keys).value !in s.customers
    ensures r.diag == Done ==>
              && NextKey(s.customers.Keys).Some?
              && var id := NextKey(s.customers.Keys).value;
                 && id !in s.customers
                 && r.store == s.(customers := s.customers[id := Customer(f.fname, f.lname, f.phone, f.address)])
    ensures s.customers == map[] ==> r == Outcome(s, Aborted)
  {
    match NextKey(s.customers.Keys)
    case None => Outcome(s, Aborted)
    case Some(id) =>
      match Insert(s.customers, id, Customer(f.fname, f.lname, f.phone, f.address))
      case None => Outcome(s, Aborted)
      case Some(customers) => Outcome(s.(customers := customers), Done)
  }

  /** Handler 2: insert a mechanic under the next id. */
  function AddMechanic(s: Store, f: MechanicForm): (r: Outcome)
    ensures r.diag == Done || r.diag == Aborted
    ensures r.diag == Aborted ==> r.store == s
    ensures r.diag == Done <==>
              NextKey(s.mechanics.Keys).Some? && NextKey(s.mechanics.Keys).value !in s.mechanics
    ensures r.diag == Done ==>
              && NextKey(s.mechanics.Keys).Some?
              && var id := NextKey(s.mechanics.Keys).value;
                 && id !in s.mechanics
                 && r.store == s.(mechanics := s.mechanics[id := Mechanic(f.fname, f.lname, f.experience)])
    ensures s.mechanics == map[] ==> r == Outcome(s, Aborted)
  {
    match NextKey(s.mechanics.Keys)
    case None => Outcome(s, Aborted)
    case Some(id) =>
      match Insert(s.mechanics, id, Mechanic(f.fname, f.lname, f.experience))
      case None => Outcome(s, Aborted)
      case Some(mechanics) => Outcome(s.(mechanics := mechanics), Done)
  }

  /** Handler 3: draw a fresh VIN, compute the next ownership_id, then insert the car and
      its ownership row if the customer exists. The two inserts are separate statements:
      if the second one fails the car row stays. */
  function AddCar(s: Store, draws: seq<VinDraw>, f: CarForm): (r: Outcome)
    requires AllWellFormed(draws)
    ensures r.diag in {Done, CustomerIdError, Aborted, VinSearchUnfinished}
    ensures r.store.customers == s.customers && r.store.mechanics == s.mechanics
    ensures r.store.requests == s.requests && r.store.closed == s.closed
    ensures r.store.cars != s.cars ==> f.customerId in s.customers
    ensures r.store.owns != s.owns ==> r.diag == Done
    ensures r.diag == Done <==>
              && FreshVin(s.cars.Keys, draws).Some?
              && NextKey(s.owns.Keys).Some?
              && f.customerId in s.customers
              && NextKey(s.owns.Keys).value !in s.owns
    ensures r.diag == Done ==>
              && FreshVin(s.cars.Keys, draws).Some? && NextKey(s.owns.Keys).Some?
              && var vin := FreshVin(s.cars.Keys, draws).value;
                 var oid := NextKey(s.owns.Keys).value;
                 && vin !in s.cars && IsVinShape(vin) && oid !in s.owns
                 && r.store.cars == s.cars[vin := Car(f.make, f.model, f.year)]
                 && r.store.owns == s.owns[oid := Ownership(f.customerId, vin)]
    ensures f.customerId !in s.customers ==> r.store == s
    ensures (f.customerId !in s.customers && FreshVin(s.cars.Keys, draws).Some?
             && NextKey(s.owns.Keys).Some?) ==> r.diag == CustomerIdError
    ensures r.diag == CustomerIdError ==> f.customerId !in s.customers && r.store == s
    // the loop runs first: with every candidate taken nothing else happens
    ensures FreshVin(s.cars.Keys, draws).None? ==> r == Outcome(s, VinSearchUnfinished)
    // an empty owns table throws before the customer is looked up
    ensures FreshVin(s.cars.Keys, draws).Some? && NextKey(s.owns.Keys).None? ==>
              r == Outcome(s, Aborted)
    // an ownership_id collision fails the second insert and leaves the car row behind
    ensures (&& FreshVin(s.cars.Keys, draws).Some? && NextKey(s.owns.Keys).Some?
             && f.customerId in s.customers && NextKey(s.owns.Keys).value in s.owns) ==>
              r == Outcome(s.(cars := s.cars[FreshVin(s.cars.Keys, draws).value :=
                                              Car(f.make, f.model, f.year)]), Aborted)
  {
    match FreshVin(s.cars.Keys, draws)
    case None => Outcome(s, VinSearchUnfinished)
    case Some(vin) =>
      match NextKey(s.owns.Keys)
      case None => Outcome(s, Aborted)
      case Some(oid) =>
        if Count(s.customers, f.customerId) == 1 then
          // the loop only stops at a VIN no car row has, so this insert cannot collide
          var withCar := s.(cars := s.cars[vin := Car(f.make, f.model, f.year)]);
          match Insert(s.owns, oid, Ownership(f.customerId, vin))
          case None => Outcome(withCar, Aborted)
          case Some(owns) => Outcome(withCar.(owns := owns), Done)
        else
          Outcome(s, CustomerIdError)
  }

  /** Handler 4: compute the next rid, then insert the request if both the customer and
      the car exist; the customer is checked first. */
  function InsertServiceRequest(s: Store, f: RequestForm): (r: Outcome)
    ensures r.diag in {Done, CustomerIdError, CarVinError, Aborted}
    ensures r.diag != Done ==> r.store == s
    ensures r.diag == Done <==>
              && NextKey(s.requests.Keys).Some?
              && f.customerId in s.customers
              && f.carVin in s.cars
              && NextKey(s.requests.Keys).value !in s.requests
    ensures r.diag == Done ==>
              && NextKey(s.requests.Keys).Some?
              && var rid := NextKey(s.requests.Keys).value;
                 && rid !in s.requests
                 && r.store == s.(requests := s.requests[rid :=
                      ServiceRequest(f.customerId, f.carVin, f.date, f.odometer, f.complain)])
    ensures NextKey(s.requests.Keys).Some? && f.customerId !in s.customers ==>
              r.diag == CustomerIdError
    ensures NextKey(s.requests.Keys).Some? && f.customerId in s.customers && f.carVin !in s.cars ==>
              r.diag == CarVinError
    ensures r.diag == CustomerIdError ==> f.customerId !in s.customers
    ensures r.diag == CarVinError ==> f.customerId in s.customers && f.carVin !in s.cars
    // an empty table throws at the MAX query, before either lookup
    ensures NextKey(s.requests.Keys).None? ==> r == Outcome(s, Aborted)
    ensures r.diag == Aborted ==>
              NextKey(s.requests.Keys).None? || NextKey(s.requests.Keys).value in s.requests
  {
    match NextKey(s.requests.Keys)
    case None => Outcome(s, Aborted)
    case Some(rid) =>
      if Count(s.customers, f.customerId) == 1 then
        if Count(s.cars, f.carVin) == 1 then
          var row := ServiceRequest(f.customerId, f.carVin, f.date, f.odometer, f.complain);
          match Insert(s.requests, rid, row)
          case None => Outcome(s, Aborted)
          case Some(requests) => Outcome(s.(requests := requests), Done)
        else
          Outcome(s, CarVinError)
      else
        Outcome(s, CustomerIdError)
  }

  /** Handler 5: close a request, checking in order that it exists, that no closed
      request has wid = rid, and that the mechanic exists. */
  function CloseServiceRequest(s: Store, f: CloseForm): (r: Outcome)
    ensures r.diag in {Done, RequestMissing, AlreadyClosed, MechanicMissing}
    ensures r.diag != Done ==> r.store == s
    ensures r.diag == Done <==>
              f.rid in s.requests && f.rid !in s.closed && f.mechanicId in s.mechanics
    ensures r.diag == Done ==>
              r.store == s.(closed := s.closed[f.rid :=
                ClosedRequest(f.rid, f.mechanicId, f.date, f.comment, f.bill)])
    ensures f.rid !in s.requests ==> r.diag == RequestMissing
    ensures f.rid in s.requests && f.rid in s.closed ==> r.diag == AlreadyClosed
    ensures f.rid in s.requests && f.rid !in s.closed && f.mechanicId !in s.mechanics ==>
              r.diag == MechanicMissing
  {
    if Count(s.requests, f.rid) == 1 then
      if Count(s.closed, f.rid) == 0 then
        if Count(s.mechanics, f.mechanicId) == 1 then
          // no closed row has this wid, so the insert cannot collide
          var row := ClosedRequest(f.rid, f.mechanicId, f.date, f.comment, f.bill);
          Outcome(s.(closed := s.closed[f.rid := row]), Done)
        else
          Outcome(s, MechanicMissing)
      else
        Outcome(s, AlreadyClosed)
    else
      Outcome(s, RequestMissing)
  }

  /** Closing twice: once a request is closed, any further attempt to close the same rid
      reports it as already closed and changes nothing. */
  lemma CloseIsIdempotent(s: Store, f: CloseForm, g: CloseForm)
    requires CloseServiceRequest(s, f).diag == Done
    requires g.rid == f.rid
    ensures var t := CloseServiceRequest(s, f).store;
            CloseServiceRequest(t, g) == Outcome(t, AlreadyClosed)
  {
  }

  /** On a non-empty customer table whose largest id is below `IntMax`, the new customer
      gets exactly that id plus one, and every other table is left as it was. */
  lemma AddCustomerUsesMaxPlusOne(s: Store, f: CustomerForm)
    requires s.customers != map[] && IntKeys(s.customers)
    requires Max(s.customers.Keys) < IntMax
    ensures var id := Max(s.customers.Keys) + 1;
            && (forall k | k in s.customers :: k < id)
            && AddCustomer(s, f) ==
                 Outcome(s.(customers := s.customers[id := Customer(f.fname, f.lname, f.phone, f.address)]), Done)
  {
  }

  /** On a non-empty service_request table whose largest rid is below `IntMax`, a request
      for an existing customer and car is stored under that rid plus one. */
  lemma InsertServiceRequestUsesMaxPlusOne(s: Store, f: RequestForm)
    requires s.requests != map[] && IntKeys(s.requests)
    requires Max(s.requests.Keys) < IntMax
    requires f.customerId in s.customers && f.carVin in s.cars
    ensures var rid := Max(s.requests.Keys) + 1;
            InsertServiceRequest(s, f) ==
              Outcome(s.(requests := s.requests[rid :=
                ServiceRequest(f.customerId, f.carVin, f.date, f.odometer, f.complain)]), Done)
  {
  }

  /** The write handlers keep the store's referential integrity and only add rows. */
  lemma AddCustomerKeepsIntegrity(s: Store, f: CustomerForm)
    requires Valid(s)
    ensures Valid(AddCustomer(s, f).store) && Extends(s, AddCustomer(s, f).store)
  {
  }

  lemma AddMechanicKeepsIntegrity(s: Store, f: MechanicForm)
    requires Valid(s)
    ensures Valid(AddMechanic(s, f).store) && Extends(s, AddMechanic(s, f).store)
  {
  }

  lemma AddCarKeepsIntegrity(s: Store, draws: seq<VinDraw>, f: CarForm)
    requires AllWellFormed(draws)
    requires Valid(s)
    ensures Valid(AddCar(s, draws, f).store) && Extends(s, AddCar(s, draws, f).store)
  {
    var r := AddCar(s, draws, f);
    if r.store != s {
      var vin := FreshVin(s.cars.Keys, draws).value;
      var oid := NextKey(s.owns.Keys).value;
      var withCar := s.(cars := s.cars[vin := Car(f.make, f.model, f.year)]);
      NewCarKeepsValid(s, vin, Car(f.make, f.model, f.year));
      if r.diag == Done {
        NewOwnershipKeepsValid(withCar, oid, Ownership(f.customerId, vin));
        ExtendsTransitive(s, withCar, r.store);
      }
    }
  }

  lemma InsertServiceRequestKeepsIntegrity(s: Store, f: RequestForm)
    requires Valid(s)
    ensures Valid(InsertServiceRequest(s, f).store) && Extends(s, InsertServiceRequest(s, f).store)
  {
  }

  lemma CloseServiceRequestKeepsIntegrity(s: Store, f: CloseForm)
    requires Valid(s)
    ensures Valid(CloseServiceRequest(s, f).store) && Extends(s, CloseServiceRequest(s, f).store)
  {
  }
}
