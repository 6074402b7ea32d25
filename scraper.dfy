/**
 * The orchestrator's extraction step: visit rider slots 1..8, keep the slots
 * whose name text is non-empty, build a rider record for each from the
 * per-rider extractors, and assemble the race from the race-level extractors.
 *
 * Fetching and parsing the page are not modelled: `Scrape` starts from the
 * parsed page. An exception raised while a rider record is being built
 * leaves `scrape` at once, so `Scrape` returns `Py<Race>`.
 */
module Scraper {
  import opened Base
  import opened Page
  import opened RiderExtractors
  import opened RaceExtractors

  /** Number of rider slots: `range(1, 9)`. */
  const Slots: int := 8

  datatype Rider = Rider(
    name: string,
    number: int,
    lockerGround: Option<string>,
    registrationTerm: Option<string>,
    age: Option<string>,
    bikeClass: Option<string>,
    rank: Option<string>,
    points: Option<Float>,
    handicap: Option<int>,
    trialTime: Option<Float>,
    trialDeviation: Option<Float>,
    averageTrialTime: Option<Float>,
    averageRaceTime: Option<Float>,
    fastestRaceTime: Option<Float>)

  datatype Race = Race(
    title: Option<string>,
    subtitle: Option<string>,
    weather: Option<string>,
    temperature: Option<string>,
    humidity: Option<string>,
    pavementTemperature: Option<string>,
    trackCondition: Option<string>,
    riders: seq<Rider>)

  /**
   * The fastest-race-time extractor, whose implementation is not part of
   * this model; it may return a value or raise.
   */
  type FastestRaceTime = (Doc, int) -> Py<Option<Float>>

  /** Slot `i` holds a rider: its name text is present and non-empty (`if rider_name:`). */
  predicate Occupied(doc: Doc, i: int) {
    Truthy(Name(doc, i))
  }

  /**
   * The rider record for an occupied slot, its fields evaluated in the order
   * the source passes them. It is built unless the info text is present but
   * has fewer than four '/' (IndexError from points or an earlier field) or
   * the fastest-race-time extractor raises; every field is that extractor's
   * result for slot `i`, and the number is the slot itself.
   */
  function MakeRider(doc: Doc, i: int, parseFloat: FloatParser, fastest: FastestRaceTime): (r: Py<Rider>)
    requires Occupied(doc, i)
    ensures r.Raises? <==>
      (Truthy(InfoText(doc, i)) && Separators(InfoText(doc, i).value) < 4) || fastest(doc, i).Raises?
    ensures r.Value? ==>
      && r.value.number == i
      && Name(doc, i) == Some(r.value.name)
      && r.value.name != ""
      && LockerGround(doc, i) == Value(r.value.lockerGround)
      && RegistrationTerm(doc, i) == Value(r.value.registrationTerm)
      && Age(doc, i) == Value(r.value.age)
      && BikeClass(doc, i) == Value(r.value.bikeClass)
      && Rank(doc, i) == Value(r.value.rank)
      && Points(doc, i, parseFloat) == Value(r.value.points)
      && Handicap(doc, i) == r.value.handicap
      && TrialTime(doc, i, parseFloat) == r.value.trialTime
      && TrialDeviation(doc, i, parseFloat) == r.value.trialDeviation
      && AverageTrialTime(doc, i, parseFloat) == r.value.averageTrialTime
      && AverageRaceTime(doc, i, parseFloat) == r.value.averageRaceTime
      && fastest(doc, i) == Value(r.value.fastestRaceTime)
  {
    InfoFieldsRaise(doc, i);
    var lockerGround := LockerGround(doc, i).value;
    var registrationTerm :- RegistrationTerm(doc, i);
    var age :- Age(doc, i);
    // Bike class splits the same field as age, so it cannot raise once age has not.
    var bikeClass := BikeClass(doc, i).value;
    var rank :- Rank(doc, i);
    var points :- Points(doc, i, parseFloat);
    var fastestRaceTime :- fastest(doc, i);
    Value(Rider(
      Name(doc, i).value, i, lockerGround, registrationTerm, age, bikeClass, rank, points,
      Handicap(doc, i), TrialTime(doc, i, parseFloat), TrialDeviation(doc, i, parseFloat),
      AverageTrialTime(doc, i, parseFloat), AverageRaceTime(doc, i, parseFloat), fastestRaceTime))
  }

  /** When each info-text field of a rider raises, in terms of the number of '/' alone. */
  lemma InfoFieldsRaise(doc: Doc, i: int)
    ensures !Truthy(InfoText(doc, i)) ==>
      && RegistrationTerm(doc, i).Value? && Age(doc, i).Value? && BikeClass(doc, i).Value?
      && Rank(doc, i).Value?
    ensures Truthy(InfoText(doc, i)) ==>
      var s := Separators(InfoText(doc, i).value);
      && (RegistrationTerm(doc, i).Raises? <==> s < 1)
      && (Age(doc, i).Raises? <==> s < 2)
      && (BikeClass(doc, i).Raises? <==> s < 2)
      && (Rank(doc, i).Raises? <==> s < 3)
  {
    if Truthy(InfoText(doc, i)) {
      SeparatorsPresent(InfoText(doc, i).value);
    }
  }

  /** The occupied slots among 1..k, in increasing order. */
  function OccupiedSlots(doc: Doc, k: nat): seq<int> {
    if k == 0 then []
    else OccupiedSlots(doc, k - 1) + (if Occupied(doc, k) then [k] else [])
  }

  /** The occupied slots among 1..k are strictly increasing, and are exactly the occupied ones. */
  lemma {:induction false} OccupiedSlotsSpec(doc: Doc, k: nat)
    ensures |OccupiedSlots(doc, k)| <= k
    ensures forall a, b :: 0 <= a < b < |OccupiedSlots(doc, k)| ==> OccupiedSlots(doc, k)[a] < OccupiedSlots(doc, k)[b]
    ensures forall j :: j in OccupiedSlots(doc, k) <==> 1 <= j <= k && Occupied(doc, j)
  {
    if k > 0 {
      OccupiedSlotsSpec(doc, k - 1);
      var before := OccupiedSlots(doc, k - 1);
      assert forall a :: 0 <= a < |before| ==> before[a] in before;
    }
  }

  /** The slot numbers of a rider list, in list order. */
  function Numbers(riders: seq<Rider>): (ns: seq<int>)
    ensures |ns| == |riders|
    ensures forall a :: 0 <= a < |riders| ==> ns[a] == riders[a].number
  {
    if riders == [] then [] else Numbers(riders[..|riders| - 1]) + [riders[|riders| - 1].number]
  }

  /**
   * What the loop has built after slots 1..k: the riders of the occupied
   * slots in slot order, or the first exception raised while building one.
   */
  function RidersThrough(doc: Doc, parseFloat: FloatParser, fastest: FastestRaceTime, k: nat): Py<seq<Rider>>
  {
    if k == 0 then Value([])
    else
      var riders :- RidersThrough(doc, parseFloat, fastest, k - 1);
      if Occupied(doc, k) then
        var rider :- MakeRider(doc, k, parseFloat, fastest);
        Value(riders + [rider])
      else Value(riders)
  }

  /** The loop raises after slots 1..k exactly when building some occupied slot's rider raises. */
  lemma {:induction false} RidersThroughRaises(doc: Doc, parseFloat: FloatParser, fastest: FastestRaceTime, k: nat)
    ensures RidersThrough(doc, parseFloat, fastest, k).Raises? <==>
      exists j :: 1 <= j <= k && Occupied(doc, j) && MakeRider(doc, j, parseFloat, fastest).Raises?
  {
    if k > 0 {
      RidersThroughRaises(doc, parseFloat, fastest, k - 1);
    }
  }

  /** After slots 1..k the list holds one rider per occupied slot, in slot order. */
  lemma {:induction false} RidersThroughSlots(doc: Doc, parseFloat: FloatParser, fastest: FastestRaceTime, k: nat)
    requires RidersThrough(doc, parseFloat, fastest, k).Value?
    ensures Numbers(RidersThrough(doc, parseFloat, fastest, k).value) == OccupiedSlots(doc, k)
  {
    if k > 0 {
      RidersThroughSlots(doc, parseFloat, fastest, k - 1);
      var before := RidersThrough(doc, parseFloat, fastest, k - 1).value;
      if Occupied(doc, k) {
        var riders := before + [MakeRider(doc, k, parseFloat, fastest).value];
        assert riders[..|riders| - 1] == before;
      }
    }
  }

  /** Each rider in the list after slots 1..k is the one MakeRider builds for its own slot. */
  lemma {:induction false} RidersThroughBuilt(doc: Doc, parseFloat: FloatParser, fastest: FastestRaceTime, k: nat)
    requires RidersThrough(doc, parseFloat, fastest, k).Value?
    ensures var riders := RidersThrough(doc, parseFloat, fastest, k).value;
      forall a :: 0 <= a < |riders| ==>
        Occupied(doc, riders[a].number) && MakeRider(doc, riders[a].number, parseFloat, fastest) == Value(riders[a])
  {
    if k > 0 {
      RidersThroughBuilt(doc, parseFloat, fastest, k - 1);
      var before := RidersThrough(doc, parseFloat, fastest, k - 1).value;
      if Occupied(doc, k) {
        var riders := before + [MakeRider(doc, k, parseFloat, fastest).value];
        assert forall a :: 0 <= a < |before| ==> riders[a] == before[a];
      }
    }
  }

  /** Once the loop has raised, later slots do not change the outcome. */
  lemma {:induction false} RaisedStaysRaised(doc: Doc, parseFloat: FloatParser, fastest: FastestRaceTime, k: nat, m: nat)
    requires k <= m
    requires RidersThrough(doc, parseFloat, fastest, k).Raises?
    ensures RidersThrough(doc, parseFloat, fastest, m) == RidersThrough(doc, parseFloat, fastest, k)
    decreases m
  {
    if k < m {
      RaisedStaysRaised(doc, parseFloat, fastest, k, m - 1);
    }
  }

  /** The race `scrape` returns for a parsed page: the eight-slot rider list and the race-level fields. */
  function ScrapeSpec(doc: Doc, parseFloat: FloatParser, fastest: FastestRaceTime): Py<Race> {
    var riders :- RidersThrough(doc, parseFloat, fastest, Slots);
    Value(Race(
      RaceTitle(doc), RaceSubtitle(doc), Weather(doc), Temperature(doc), Humidity(doc),
      PavementTemperature(doc), TrackCondition(doc), riders))
  }

  /**
   * The extraction part of `scrape`: the loop over slots 1..8 appending a
   * rider for each occupied slot, then the race assembly.
   */
  method Scrape(doc: Doc, parseFloat: FloatParser, fastest: FastestRaceTime) returns (result: Py<Race>)
    ensures result == ScrapeSpec(doc, parseFloat, fastest)
    ensures result.Raises? <==>
      exists j :: 1 <= j <= Slots && Occupied(doc, j) && MakeRider(doc, j, parseFloat, fastest).Raises?
    ensures result.Value? ==>
      var riders := result.value.riders;
      && |riders| <= Slots
      && (forall a, b :: 0 <= a < b < |riders| ==> riders[a].number < riders[b].number)
      && (forall a :: 0 <= a < |riders| ==> 1 <= riders[a].number <= Slots)
      && (forall j :: j in Numbers(riders) <==> 1 <= j <= Slots && Occupied(doc, j))
      && (forall a :: 0 <= a < |riders| ==> Name(doc, riders[a].number) == Some(riders[a].name) && riders[a].name != "")
    ensures result.Value? ==>
      && result.value.title == RaceTitle(doc)
      && result.value.subtitle == RaceSubtitle(doc)
      && result.value.weather == Weather(doc)
      && result.value.temperature == Temperature(doc)
      && result.value.humidity == Humidity(doc)
      && result.value.pavementTemperature == PavementTemperature(doc)
      && result.value.trackCondition == TrackCondition(doc)
  {
    var riders: seq<Rider> := [];
    for i := 1 to Slots + 1
      invariant RidersThrough(doc, parseFloat, fastest, i - 1) == Value(riders)
    {
      if Truthy(Name(doc, i)) {
        var rider := MakeRider(doc, i, parseFloat, fastest);
        if rider.Raises? {
          RaisedStaysRaised(doc, parseFloat, fastest, i, Slots);
          RidersThroughRaises(doc, parseFloat, fastest, Slots);
          return Raises(rider.exc);
        }
        riders := riders + [rider.value];
      }
    }
    result := Value(Race(
      RaceTitle(doc), RaceSubtitle(doc), Weather(doc), Temperature(doc), Humidity(doc),
      PavementTemperature(doc), TrackCondition(doc), riders));
    RidersThroughRaises(doc, parseFloat, fastest, Slots);
    RidersThroughSlots(doc, parseFloat, fastest, Slots);
    RidersThroughBuilt(doc, parseFloat, fastest, Slots);
    OccupiedSlotsSpec(doc, Slots);
    forall a | 0 <= a < |riders|
      ensures Name(doc, riders[a].number) == Some(riders[a].name) && riders[a].name != ""
    {
      var rider := MakeRider(doc, riders[a].number, parseFloat, fastest);
    }
  }

  /** A page whose rider slots 1, 2, 4, 6 and 8 carry names; slot 3's name text is empty. */
  function SamplePage(): Doc {
    Doc(map[
      RiderName(1) := "A", RiderName(2) := "B", RiderName(3) := "", RiderName(4) := "C",
      RiderName(6) := "D", RiderName(8) := "E", Title := "T"])
  }

  lemma SamplePageSlots()
    ensures OccupiedSlots(SamplePage(), Slots) == [1, 2, 4, 6, 8]
  {
    var doc := SamplePage();
    assert OccupiedSlots(doc, 2) == [1, 2] by {
      assert Occupied(doc, 1) && Occupied(doc, 2);
      assert OccupiedSlots(doc, 1) == [1];
    }
    assert OccupiedSlots(doc, 4) == [1, 2, 4] by {
      assert !Occupied(doc, 3) && Occupied(doc, 4);
    }
    assert OccupiedSlots(doc, 6) == [1, 2, 4, 6] by {
      assert !Occupied(doc, 5) && Occupied(doc, 6);
    }
    assert OccupiedSlots(doc, 8) == [1, 2, 4, 6, 8] by {
      assert !Occupied(doc, 7) && Occupied(doc, 8);
    }
  }

  /** No rider of the sample page raises: none has info text. */
  lemma SamplePageBuilds(parseFloat: FloatParser, fastest: FastestRaceTime)
    requires forall i :: 1 <= i <= Slots ==> fastest(SamplePage(), i).Value?
    ensures RidersThrough(SamplePage(), parseFloat, fastest, Slots).Value?
  {
    var doc := SamplePage();
    forall j | 1 <= j <= Slots && Occupied(doc, j)
      ensures MakeRider(doc, j, parseFloat, fastest).Value?
    {
      assert InfoText(doc, j) == None;
    }
    RidersThroughRaises(doc, parseFloat, fastest, Slots);
  }

  /**
   * Five of eight slots named: five riders, numbered by their slots rather
   * than renumbered.
   */
  lemma SamplePageRiders(parseFloat: FloatParser, fastest: FastestRaceTime)
    requires forall i :: 1 <= i <= Slots ==> fastest(SamplePage(), i).Value?
    ensures RidersThrough(SamplePage(), parseFloat, fastest, Slots).Value?
    ensures Numbers(RidersThrough(SamplePage(), parseFloat, fastest, Slots).value) == [1, 2, 4, 6, 8]
  {
    SamplePageBuilds(parseFloat, fastest);
    RidersThroughSlots(SamplePage(), parseFloat, fastest, Slots);
    SamplePageSlots();
  }

  /**
   * An occupied slot whose info text has no '/' makes the whole scrape raise
   * `IndexError`: the registration-term lookup indexes past the only part.
   */
  lemma InfoWithoutSeparatorRaises(parseFloat: FloatParser, fastest: FastestRaceTime)
    ensures var doc := Doc(map[RiderName(1) := "A", RiderInfo(1) := "abc"]);
      && RegistrationTerm(doc, 1) == Raises(IndexError)
      && ScrapeSpec(doc, parseFloat, fastest).Raises?
  {
    var doc := Doc(map[RiderName(1) := "A", RiderInfo(1) := "abc"]);
    assert InfoText(doc, 1) == Some("abc");
    assert Separators("abc") == 0;
    assert MakeRider(doc, 1, parseFloat, fastest).Raises?;
    RidersThroughRaises(doc, parseFloat, fastest, Slots);
  }
}
