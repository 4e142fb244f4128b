/** The VIN generator of AddCar: six random upper-case letters followed by ten random
    digits whose first digit is never '0', redrawn until no car row has that VIN.
    The random source is replaced by the indices it would have produced: each draw
    `leftLimit + (int)(nextFloat() * (rightLimit - leftLimit + 1))` is `leftLimit + index`
    with `0 <= index < rightLimit - leftLimit + 1`. */
module Vin {
  import opened Options
  import opened Tables

  const LetterLow: int := 65    // 'A'
  const LetterHigh: int := 90   // 'Z'
  const LetterCount: nat := 6
  const DigitLow: int := 49     // '1'
  const DigitHigh: int := 57    // '9'
  const DigitCount: nat := 10
  const VinLength: nat := LetterCount + DigitCount

  /** One attempt's worth of random indices: six for the letters, ten for the digits. */
  datatype VinDraw = VinDraw(letters: seq<int>, digits: seq<int>)

  /** Each index lies in the span its loop uses: 26 letters; 9 digits for the first
      position (`leftLimit` is 49); 10 digits after it (`leftLimit` has dropped to 48). */
  predicate WellFormedDraw(d: VinDraw) {
    && |d.letters| == LetterCount
    && |d.digits| == DigitCount
    && (forall i | 0 <= i < LetterCount :: 0 <= d.letters[i] < LetterHigh - LetterLow + 1)
    && 0 <= d.digits[0] < DigitHigh - DigitLow + 1
    && (forall i | 1 <= i < DigitCount :: 0 <= d.digits[i] < DigitHigh - (DigitLow - 1) + 1)
  }

  predicate AllWellFormed(draws: seq<VinDraw>) {
    forall i | 0 <= i < |draws| :: WellFormedDraw(draws[i])
  }

  /** The format every generated VIN has. */
  predicate IsVinShape(vin: string) {
    && |vin| == VinLength
    && (forall i | 0 <= i < LetterCount :: 'A' <= vin[i] <= 'Z')
    && '1' <= vin[LetterCount] <= '9'
    && (forall i | LetterCount < i < VinLength :: '0' <= vin[i] <= '9')
  }

  /** The candidate VIN a draw denotes: letters then digits, each the low limit of its
      span plus its index. */
  function VinOf(d: VinDraw): (vin: string)
    requires WellFormedDraw(d)
    ensures IsVinShape(vin)
  {
    seq(LetterCount, i requires 0 <= i < LetterCount => (LetterLow + d.letters[i]) as char)
    + seq(DigitCount, i requires 0 <= i < DigitCount =>
            (if i == 0 then DigitLow + d.digits[i] else DigitLow - 1 + d.digits[i]) as char)
  }

  /** The two `StringBuilder` loops of AddCar, with the `leftLimit--` after the first digit. */
  method BuildVin(d: VinDraw) returns (vin: string)
    requires WellFormedDraw(d)
    ensures vin == VinOf(d)
    ensures IsVinShape(vin)
  {
    var leftLimit := LetterLow;
    var rightLimit := LetterHigh;
    var letters := "";
    for i := 0 to LetterCount
      invariant |letters| == i
      invariant forall j | 0 <= j < i :: letters[j] == VinOf(d)[j]
    {
      assert 0 <= d.letters[i] < rightLimit - leftLimit + 1;
      letters := letters + [(leftLimit + d.letters[i]) as char];
    }
    leftLimit := DigitLow;
    rightLimit := DigitHigh;
    var numbers := "";
    for i := 0 to DigitCount
      invariant |numbers| == i
      invariant leftLimit == if i == 0 then DigitLow else DigitLow - 1
      invariant forall j | 0 <= j < i :: numbers[j] == VinOf(d)[LetterCount + j]
    {
      assert 0 <= d.digits[i] < rightLimit - leftLimit + 1;
      numbers := numbers + [(leftLimit + d.digits[i]) as char];
      if i == 0 {
        leftLimit := leftLimit - 1;
      }
    }
    vin := letters + numbers;
  }

  /** Every string of the VIN format is the candidate of some draw, so the generator
      can produce exactly the strings of that format. */
  lemma EveryShapedVinIsDrawable(vin: string)
    requires IsVinShape(vin)
    ensures exists d :: WellFormedDraw(d) && VinOf(d) == vin
  {
    var d := VinDraw(
      seq(LetterCount, i requires 0 <= i < LetterCount => vin[i] as int - LetterLow),
      seq(DigitCount, i requires 0 <= i < DigitCount =>
            vin[LetterCount + i] as int - (if i == 0 then DigitLow else DigitLow - 1)));
    assert WellFormedDraw(d);
    assert forall i | 0 <= i < VinLength :: VinOf(d)[i] == vin[i];
    assert VinOf(d) == vin;
  }

  /** Different draws give different candidates. */
  lemma VinOfInjective(d1: VinDraw, d2: VinDraw)
    requires WellFormedDraw(d1) && WellFormedDraw(d2)
    requires VinOf(d1) == VinOf(d2)
    ensures d1 == d2
  {
    forall i | 0 <= i < LetterCount
      ensures d1.letters[i] == d2.letters[i]
    {
      assert VinOf(d1)[i] == VinOf(d2)[i];
    }
    forall i | 0 <= i < DigitCount
      ensures d1.digits[i] == d2.digits[i]
    {
      assert VinOf(d1)[LetterCount + i] == VinOf(d2)[LetterCount + i];
    }
  }

  /** The outcome of the uniqueness loop over the supplied draws: the first candidate no
      row of `taken` has, or `None` when every supplied candidate is taken (the source
      would go on drawing). */
  function FreshVin(taken: set<string>, draws: seq<VinDraw>): (r: Option<string>)
    requires AllWellFormed(draws)
    ensures r.Some? ==> r.value !in taken && IsVinShape(r.value)
    ensures r.Some? ==> exists i | 0 <= i < |draws| ::
              r.value == VinOf(draws[i]) && forall j | 0 <= j < i :: VinOf(draws[j]) in taken
    ensures r.None? <==> forall i | 0 <= i < |draws| :: VinOf(draws[i]) in taken
  {
    if draws == [] then None
    else if VinOf(draws[0]) !in taken then Some(VinOf(draws[0]))
    else
      var rest := FreshVin(taken, draws[1..]);
      assert forall i | 0 <= i < |draws| - 1 :: draws[1..][i] == draws[i + 1];
      rest
  }

  /** The `while (match)` loop of AddCar: build a candidate, count the car rows with that
      VIN, stop at the first count of zero. */
  method GenerateVin(cars: map<string, Car>, draws: seq<VinDraw>) returns (vin: Option<string>)
    requires AllWellFormed(draws)
    ensures vin == FreshVin(cars.Keys, draws)
    ensures vin.Some? ==> vin.value !in cars
  {
    var attempt := 0;
    while attempt < |draws|
      invariant attempt <= |draws|
      invariant FreshVin(cars.Keys, draws) == FreshVin(cars.Keys, draws[attempt..])
    {
      var candidate := BuildVin(draws[attempt]);
      var rowCount := Count(cars, candidate);
      assert draws[attempt..][1..] == draws[attempt + 1..];
      if rowCount == 0 {
        return Some(candidate);
      }
      attempt := attempt + 1;
    }
    return None;
  }
}
