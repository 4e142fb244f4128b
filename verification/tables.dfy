/** The shop's database as the handlers see it: six tables, each a map from its primary
    key to the rest of the row. Keys are unique, so an existence query counts 0 or 1 rows. */
module Tables {
  import opened Options
  import opened Numerals

  datatype Customer = Customer(fname: string, lname: string, phone: string, address: string)

  datatype Mechanic = Mechanic(fname: string, lname: string, experience: string)

  datatype Car = Car(make: string, model: string, year: string)

  /** A row of `owns`, keyed by ownership_id. */
  datatype Ownership = Ownership(customerId: int, vin: string)

  /** A row of `service_request`, keyed by rid. */
  datatype ServiceRequest = ServiceRequest(customerId: int, carVin: string, date: string,
                                           odometer: string, complain: string)

  /** A row of `closed_request`, keyed by wid; the handler always writes wid = rid. */
  datatype ClosedRequest = ClosedRequest(rid: int, mechanicId: int, date: string,
                                         comment: string, bill: string)

  datatype Store = Store(
    customers: map<int, Customer>,
    mechanics: map<int, Mechanic>,
    cars: map<string, Car>,
    owns: map<int, Ownership>,
    requests: map<int, ServiceRequest>,
    closed: map<int, ClosedRequest>)

  /** The row count of `SELECT * FROM table WHERE key = k`: the rows whose key matches.
      Keys are unique, so a present key matches exactly one row. */
  function Count<K, V>(table: map<K, V>, key: K): (n: nat)
    ensures n <= 1
    ensures n == 1 <==> key in table
  {
    var matching := set k | k in table.Keys && k == key;
    assert matching == if key in table then {key} else {};
    |matching|
  }

  /** An `INSERT`: it fails, as a primary-key violation, when the key is already present. */
  function Insert<K, V>(table: map<K, V>, key: K, row: V): (r: Option<map<K, V>>)
    ensures r.Some? <==> key !in table
    ensures r.Some? ==> r.value.Keys == table.Keys + {key} && r.value[key] == row
    ensures r.Some? ==> forall k | k in table :: r.value[k] == table[k]
  {
    if key in table then None else Some(table[key := row])
  }

  /** Every row of `small` is present, unchanged, in `large`. */
  ghost predicate Submap<K, V>(small: map<K, V>, large: map<K, V>) {
    forall k | k in small :: k in large && large[k] == small[k]
  }

  /** The handlers only ever add rows: nothing is updated or deleted. */
  ghost predicate Extends(s: Store, t: Store) {
    && Submap(s.customers, t.customers)
    && Submap(s.mechanics, t.mechanics)
    && Submap(s.cars, t.cars)
    && Submap(s.owns, t.owns)
    && Submap(s.requests, t.requests)
    && Submap(s.closed, t.closed)
  }

  /** Integer key columns hold 32-bit values. */
  ghost predicate IntKeys<V>(table: map<int, V>) {
    forall k | k in table :: InInt(k)
  }

  /** The referential integrity the handlers' existence checks maintain: an ownership
      names an existing customer and car, a service request an existing customer and car,
      and a closed request its own service request (wid = rid) and an existing mechanic. */
  ghost predicate Valid(s: Store) {
    && IntKeys(s.customers) && IntKeys(s.mechanics) && IntKeys(s.owns)
    && IntKeys(s.requests) && IntKeys(s.closed)
    && (forall o | o in s.owns :: s.owns[o].customerId in s.customers && s.owns[o].vin in s.cars)
    && (forall q | q in s.requests ::
          s.requests[q].customerId in s.customers && s.requests[q].carVin in s.cars)
    && (forall w | w in s.closed ::
          s.closed[w].rid == w && w in s.requests && s.closed[w].mechanicId in s.mechanics)
  }

  /** Adding a car keeps integrity: nothing refers to a VIN that was absent. */
  lemma NewCarKeepsValid(s: Store, vin: string, car: Car)
    requires Valid(s) && vin !in s.cars
    ensures var t := s.(cars := s.cars[vin := car]);
            Valid(t) && Extends(s, t)
  {
  }

  /** Adding an ownership row keeps integrity when it names an existing customer and car. */
  lemma NewOwnershipKeepsValid(s: Store, oid: int, row: Ownership)
    requires Valid(s) && oid !in s.owns && InInt(oid)
    requires row.customerId in s.customers && row.vin in s.cars
    ensures var t := s.(owns := s.owns[oid := row]);
            Valid(t) && Extends(s, t)
  {
  }

  lemma ExtendsTransitive(s: Store, t: Store, u: Store)
    requires Extends(s, t) && Extends(t, u)
    ensures Extends(s, u)
  {
  }
}
