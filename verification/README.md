# MechanicShop write handlers, modelled in Dafny

MechanicShop is a menu-driven command-line program for a car-repair shop. It keeps
customers, mechanics, cars, ownerships, service requests and closed requests in a
relational database. This project models the program's decision logic against an
abstract in-memory store and proves properties of it:

- the five write handlers: AddCustomer, AddMechanic, AddCar, InsertServiceRequest and
  CloseServiceRequest;
- the "MAX + 1" key generation they share;
- the random VIN builder and its uniqueness loop;
- `readChoice` and the `switch` of the main loop.

The store (`Tables.Store`) is a record of six maps, one per table, each keyed by the
table's primary key:

| map | table | key |
|---|---|---|
| `customers` | `customer` | `id` |
| `mechanics` | `mechanic` | `id` |
| `cars` | `car` | `vin` |
| `owns` | `owns` | `ownership_id` |
| `requests` | `service_request` | `rid` |
| `closed` | `closed_request` | `wid` |

Keys are unique, so each existence query `SELECT * FROM t WHERE key = k` is
`Tables.Count`, which is 0 or 1. An `INSERT` whose key is already present fails as a
primary-key violation (`Tables.Insert`). Each handler is a pure function from the store
and the answers typed at its prompts to an `Outcome`. The outcome holds the new store and
the one diagnostic the user sees (`Handlers.Diagnostic`). That diagnostic is one of:

- one of the five "Error (...)" messages the handlers print:
  - `CustomerIdError`, for "Error (customer_id)";
  - `CarVinError`, for "Error (car_vin)";
  - `RequestMissing`, for "Error (service_request doesn't exist)";
  - `AlreadyClosed`, for "Error (service_request was already closed)";
  - `MechanicMissing`, for "Error (mechanic doesn't exist)";
- `Aborted`, for an exception caught at the handler boundary;
- `Done`, when the inserts ran;
- `VinSearchUnfinished`, when AddCar's VIN search has not yet found a fresh VIN;
- `Reported`, for the report entries 6 to 10.

Module layout, in dependency order:

- `options.dfy`: `Option`.
- `numerals.dfy`: Java `int` bounds and wrap-around, decimal text, `Integer.parseInt`.
- `keys.dfy`: `MAX(key)` and the next key.
- `tables.dfy`: rows, the store, existence counts, inserts, integrity.
- `vin.dfy`: the VIN builder and the uniqueness loop.
- `handlers.dfy`: handlers 1 to 5.
- `menu.dfy`: `readChoice`, the dispatch `switch` and the main loop.

Behaviour worth knowing, all modelled as the code is written:

- **Key generation.** The next key reads `MAX(key)` back as text, parses it with
  `Integer.parseInt` and adds 1 in Java `int` arithmetic. On an empty table MAX is NULL,
  `parseInt` throws, and the handler aborts with no insert. So none of these handlers can
  insert the first row of its table.
- **Wrap-around at the top of the range.** When the largest key is 2^31-1, the addition
  wraps and the next key is -2^31 (`Keys.NextKeyWrapsAtIntMax`). That key is below every
  existing key. The insert still succeeds the first time. Every later attempt computes
  the same key and fails on the primary key.
- **AddCar is not atomic.** It inserts the car, then the ownership row, as two separate
  statements. If the ownership insert fails, the car row stays. The only way this can
  happen is the wrap-around above.
- **Order of checks in AddCar.** The VIN loop and the `owns` MAX query run before the
  customer check. An empty `owns` table therefore aborts AddCar even when the customer
  exists.
- **Randomness.** It is replaced by the indices `(int)(nextFloat() * span)` would produce
  (`Vin.VinDraw`). The uniqueness loop runs over a finite sequence of such draws. If
  every supplied candidate is already taken, the outcome is `VinSearchUnfinished`: the
  source would go on drawing. The modelled session stops there and never returns to the menu.

## Model

| member | source | states |
|---|---|---|
| `Numerals.Wrap` | java/src/MechanicShop.java:330 | Java `int` addition: the result lies in the 32-bit range and is congruent to the exact sum modulo 2^32, which pins it down uniquely. A sum already in range is unchanged. |
| `Numerals.ParseInt` | java/src/MechanicShop.java:298 | A line that parses is non-empty and yields a value in the 32-bit range. The text it accepts is stated in both directions by `ParseIntNeedsDigits` and the three `*DigitsParse` rows below, which together fix its result on every line. |
| `Numerals.ParseIntNeedsDigits` | java/src/MechanicShop.java:298 | Only an optional '+' or '-' followed by at least one digit parses. Any other character, or a sign alone, makes `parseInt` throw. |
| `Numerals.DigitsParse` | java/src/MechanicShop.java:298 | Conversely, a non-empty run of digits parses, leading zeros included (so "007" is 7), to its value when that is at most 2^31-1, and throws otherwise. |
| `Numerals.PlusDigitsParse` | java/src/MechanicShop.java:298 | A '+' followed by digits parses to the same result as the digits alone, so "+5" is 5. |
| `Numerals.MinusDigitsParse` | java/src/MechanicShop.java:298 | A '-' followed by digits parses to the negated value when that is at least -2^31, so "-0" is 0 and "-2147483648" is accepted; otherwise it throws. |
| `Numerals.ParseShowRoundTrip` | java/src/MechanicShop.java:330 | Parsing the decimal text of an integer with `Integer.parseInt` gives the integer back when it fits in 32 bits, and a parse failure when it does not. |
| `Keys.NextKey` | java/src/MechanicShop.java:330 | The next key is absent exactly when the table is empty (MAX is NULL) or its maximum does not fit in an `int`. Otherwise it is a 32-bit value. Below 2^31-1 it is the maximum plus one, strictly greater than every existing key. At 2^31-1 it wraps to -2^31. |
| `Keys.NextKeyWrapsAtIntMax` | java/src/MechanicShop.java:419 | A table holding the key 2^31-1 gets -2^31 as its next key, which is no greater than any existing key. |
| `Tables.Count` | java/src/MechanicShop.java:431-434 | An existence query counts the rows whose key equals the one asked for. Because keys are unique, that count is at most one, and it is one exactly when the key is present. |
| `Tables.Insert` | java/src/MechanicShop.java:341-343 | An insert succeeds exactly when the key is new. The new table then has that key with the given row, and every old row is unchanged. |
| `Tables.NewCarKeepsValid` | java/src/MechanicShop.java:435-436 | Adding a car under a new VIN keeps referential integrity and only adds a row. |
| `Tables.NewOwnershipKeepsValid` | java/src/MechanicShop.java:438-439 | Adding an ownership row keeps integrity when its customer and car exist. |
| `Vin.VinOf` | java/src/MechanicShop.java:382-411 | Every candidate VIN has length 16. Positions 0-5 are in 'A'..'Z', position 6 is in '1'..'9', and positions 7-15 are in '0'..'9'. |
| `Vin.BuildVin` | java/src/MechanicShop.java:383-411 | The two builder loops, with `leftLimit` dropping from 49 to 48 after the first digit, produce exactly the candidate of the draw, so its first digit is never '0'. |
| `Vin.EveryShapedVinIsDrawable` | java/src/MechanicShop.java:396-407 | Every string of that 16-character shape is the candidate of some in-range draw, so the generator's range is exactly the VIN format. |
| `Vin.VinOfInjective` | java/src/MechanicShop.java:388-407 | Different draws give different candidate VINs. |
| `Vin.FreshVin` | java/src/MechanicShop.java:381-418 | The loop ends only with a candidate that no car row has. That candidate is the first such draw, and every earlier candidate was taken. There is no result exactly when every supplied candidate is taken. |
| `Vin.GenerateVin` | java/src/MechanicShop.java:381-418 | The imperative loop, which counts the car rows with each candidate's VIN (`Tables.Count`) and stops at a count of zero, computes the same VIN as `FreshVin`. That VIN is not in the car table. |
| `Handlers.AddCustomer` | java/src/MechanicShop.java:328-351 | The only outcomes are an insert or an abort. It inserts exactly when an id was generated and that id is absent. An abort changes nothing. An empty table always aborts. An insert adds exactly one customer under the generated id. |
| `Handlers.AddMechanic` | java/src/MechanicShop.java:353-374 | The same as AddCustomer, for the mechanic table. |
| `Handlers.AddCar` | java/src/MechanicShop.java:376-453 | A car row is added only if the customer exists. `Done` holds exactly when a fresh VIN was found, an ownership id was generated, the customer exists and that id is new. On `Done`, both the car row and the ownership row are added: under a fresh, well-shaped VIN and the generated id. A missing customer leaves the store unchanged and, once the VIN and id exist, reports "Error (customer_id)"; that error is reported only for a missing customer. When every supplied candidate is taken, nothing changes and the search is unfinished. An empty `owns` table aborts with no change. An ownership-id collision aborts but leaves the new car row behind. The other four tables never change. |
| `Handlers.InsertServiceRequest` | java/src/MechanicShop.java:455-496 | A request is inserted exactly when a rid was generated, the customer and the car both exist, and the rid is new. A missing customer reports "Error (customer_id)" even if the car is also missing. An existing customer with a missing car reports "Error (car_vin)". Each error is reported only in its own situation. An empty request table aborts before either lookup. An abort means no rid or a rid that is taken. Every failure leaves the store unchanged. |
| `Handlers.CloseServiceRequest` | java/src/MechanicShop.java:498-542 | A closed row is inserted exactly when the request exists, no closed row has wid = rid, and the mechanic exists. The row is inserted under wid = rid. Otherwise exactly one of the three diagnostics is reported, in priority order, and nothing changes. |
| `Handlers.CloseIsIdempotent` | java/src/MechanicShop.java:511-532 | After a successful close, closing the same rid again reports "Error (service_request was already closed)" and leaves the store unchanged. |
| `Handlers.AddCustomerUsesMaxPlusOne` | java/src/MechanicShop.java:330-343 | On a non-empty customer table whose largest id is below 2^31-1, the new customer is stored under that id plus one, which exceeds every existing id. |
| `Handlers.InsertServiceRequestUsesMaxPlusOne` | java/src/MechanicShop.java:457-480 | On a non-empty service_request table whose largest rid is below 2^31-1, a request for an existing customer and car is stored under that rid plus one. |
| `Handlers.AddCustomerKeepsIntegrity` | java/src/MechanicShop.java:328-351 | AddCustomer keeps referential integrity and never changes or removes a row. |
| `Handlers.AddMechanicKeepsIntegrity` | java/src/MechanicShop.java:353-374 | AddMechanic keeps referential integrity and never changes or removes a row. |
| `Handlers.AddCarKeepsIntegrity` | java/src/MechanicShop.java:431-443 | AddCar keeps referential integrity, even when it leaves a car without an ownership row, and never changes or removes a row. |
| `Handlers.InsertServiceRequestKeepsIntegrity` | java/src/MechanicShop.java:470-486 | Every stored service request names an existing customer and car, and no row is changed or removed. |
| `Handlers.CloseServiceRequestKeepsIntegrity` | java/src/MechanicShop.java:511-532 | Every closed request has wid = rid, names an existing request and mechanic, and no row is changed or removed. |
| `Menu.FirstChoice` | java/src/MechanicShop.java:292-306 | A choice consumes at least one line and no more lines than were typed. Which line it is, is stated by the next row. |
| `Menu.FirstChoiceIsFirstValid` | java/src/MechanicShop.java:292-306 | `readChoice` returns the first line that parses as an `int`, and every line before it was invalid. If the input runs dry, every line was invalid. |
| `Menu.FirstChoiceStep` | java/src/MechanicShop.java:295-303 | One prompt: a line that parses is returned after consuming one line; a line that does not is skipped and the prompt repeats on the next line. |
| `Menu.ReadChoice` | java/src/MechanicShop.java:292-306 | The imperative re-prompt loop returns the same choice and consumes the same number of lines as `FirstChoice`. |
| `Menu.MenuNumber` | java/src/MechanicShop.java:248-257 | Each entry has a number from 1 to 10, and the report entries are numbers 6 to 10. |
| `Menu.Dispatch` | java/src/MechanicShop.java:263-275 | Choice 11 ends the loop. Choices outside 1-11 redisplay the menu. Choices 1-10 run the entry printed with that number. |
| `Menu.DispatchMenuNumber` | java/src/MechanicShop.java:248-275 | Typing the number printed before an entry runs that entry. |
| `Menu.PerformEntryEffects` | java/src/MechanicShop.java:264-273 | Each entry gives only the diagnostics its handler can print, and writes only its handler's tables. AddCustomer and AddMechanic write their own table, AddCar writes cars and owns, InsertServiceRequest writes requests, and CloseServiceRequest writes closed requests. Report entries leave the store unchanged, and they alone report `Reported`. |
| `Menu.PerformKeepsIntegrity` | java/src/MechanicShop.java:264-268 | Every menu entry keeps referential integrity and only adds rows. |
| `Menu.InvalidLineReprompts` | java/src/MechanicShop.java:295-303 | A line that does not parse as an integer is skipped: the session goes on exactly as if it had not been typed. |
| `Menu.UnknownChoiceLoops` | java/src/MechanicShop.java:263-275 | An integer outside 1 to 11 changes nothing, and the loop goes on with the next line. |
| `Menu.ElevenExits` | java/src/MechanicShop.java:274 | Typing 11 ends the session with the store as it stands. |
| `Menu.RunMenu` | java/src/MechanicShop.java:244-276 | Each entry run takes at least one typed line, so the log of diagnostics is no longer than the input. A session that ran no entry and did not exit leaves the store as it was. When AddCar's VIN search is unfinished, the session stops there without exiting, since the source never returns from that loop. |
| `Menu.ReportNeedsNoInput` | java/src/MechanicShop.java:269-271 | Choosing entry 6, 7, 8 or 10 prints its report and returns to the menu without reading anything but the choice. |
| `Menu.PromptingEntryUsesOneInput` | java/src/MechanicShop.java:264-268 | Choosing entry 1 to 5 or 9 runs the handler on the next set of answers. The loop then continues from the store the handler left. When AddCar's VIN search is unfinished, the session ends there without exiting and reads no more lines. |
| `Menu.ExitNeedsEleven` | java/src/MechanicShop.java:274 | The loop ends only if some typed line reads as 11. |
| `Menu.RunMenuKeepsIntegrity` | java/src/MechanicShop.java:244-276 | Over a whole session, referential integrity holds, and rows are only added, never changed or removed. |

## Left out

- The JDBC connection, the constructor, `cleanup`, `executeUpdate`, the `executeQuery*`
  wrappers and `getCurrSeqVal`: they are I/O over an external database. Their effect is
  modelled by the maps, `Count` and `Insert`.
- Report handlers 6 to 10: their behaviour lives inside SQL query strings. The model only
  states that they leave the store unchanged. Handler 9 reads its "how many" answer from the
  next `Inputs` record, which the model consumes but does not otherwise use.
- `main`'s argument check and driver loading: they are process start-up, not decision logic.
- Prompts, `printResult` and the messages written to stdout and stderr: only the identity
  of each diagnostic is kept.
- `java.util.Random` and the `nextFloat` arithmetic: floating-point randomness is replaced
  by in-range indices.
- Vin.FreshVin: the source's loop is unbounded. The model runs over a finite sequence of
  draws, and an exhausted sequence stands for a loop that has not yet ended.
- Key fields typed by the user are modelled as integers: customer_id, rid and mid. In the
  source they are text, and text the database cannot cast to an integer makes the query
  throw, so the handler aborts. That abort path is not modelled.
- Free-text columns are modelled as opaque strings: make, model, year, odometer, bill,
  experience and the others. A value the database rejects makes the insert throw; that is
  not modelled.
- SQL string concatenation, and the injection it allows, is not modelled.
- `Integer.parseInt` also accepts non-ASCII Unicode decimal digits. The model accepts
  ASCII digits only.
- The handler's own prompts are answered from a separate `Inputs` record. The model does
  not interleave them with the lines read at the choice prompt.
- Choice lines that run dry end the modelled session without exiting. The source would
  re-prompt forever there, because `readLine` returns null and `parseInt` throws.
- A handler run on exhausted answers is not modelled: the session ends instead. In the
  source, `readLine` returns null at each of the handler's prompts and the handler still
  runs. AddCustomer, for example, inserts a customer whose fields are the text 'null'.
- Foreign-key constraints in the external schema are unknown. The model relies only on
  the handlers' own checks and on primary keys being unique.
- Concurrent writers racing on MAX + 1: the program is single-user.
- Numerals.ParseInt: its own contract states only that a result is in range. The accepted
  syntax and the values are proved separately: `ParseIntNeedsDigits` gives the syntax, and
  `DigitsParse`, `PlusDigitsParse` and `MinusDigitsParse` give the value of every
  accepted line. Keeping them apart keeps the unfolding of the parser out of every proof
  that calls it.
- Menu.FirstChoice: its own contract bounds the lines consumed. Which line is chosen is
  proved separately, in `FirstChoiceIsFirstValid`, for the same reason.
