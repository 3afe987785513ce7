/** Whole runs of the diagnostic engine on concrete vehicle records, each
    proved for every order in which the census map may be iterated. */
module DiagnosticScenarios {
  import opened Wrappers
  import opened Domain
  import opened DiagnosticEngine

  const GoodTire: Part := Part(Some(Tire), Some(Good))
  const FlatTire: Part := Part(Some(Tire), Some(Flat))

  /** One engine, electrical part, fuel filter and oil filter, and four tires. */
  const CivicParts: seq<Part> := ThreeTireParts + [GoodTire]

  /** The same car with its fourth tire flat. */
  const FlatTireParts: seq<Part> := ThreeTireParts + [FlatTire]

  /** The four single parts and no tire at all. */
  const NoTireParts: seq<Part> :=
    [Part(Some(Engine), Some(Good)), Part(Some(Electrical), Some(Good)),
     Part(Some(FuelFilter), Some(Good)), Part(Some(OilFilter), Some(Good))]

  /** A fourth tire completes a car that lacks only one tire. */
  lemma CompletedByTire(parts: seq<Part>, last: Part)
    requires Census(parts) == map[Tire := 3]
    requires last.partType == Some(Tire)
    ensures Census(parts + [last]) == map[]
  {
    assert TypesOf([last]) == [Some(Tire)];
    forall t | t in RequiredTypes ensures Count(parts + [last], t) == Required(t) {
      CensusEntries(parts, t);
      CountConcat(parts, [last], t);
    }
    CensusEmptyIff(parts + [last]);
  }

  /** Adding a fourth tire to the three-tire example leaves nothing missing. */
  lemma CensusFourTires(last: Part)
    requires last.partType == Some(Tire)
    ensures Census(ThreeTireParts + [last]) == map[]
  {
    CensusThreeTires();
    CompletedByTire(ThreeTireParts, last);
  }

  /** A list without duplicates has as many distinct elements as entries. */
  lemma {:induction false} DistinctCardinality(order: seq<PartType>)
    requires forall i, j :: 0 <= i < j < |order| ==> order[i] != order[j]
    ensures |set t | t in order| == |order|
  {
    if order != [] {
      DistinctCardinality(order[1..]);
      var tail := set t | t in order[1..];
      assert order[0] !in tail;
      assert (set t | t in order) == {order[0]} + tail;
    }
  }

  /** An iteration order visits as many entries as the map has keys. */
  lemma EnumerationSize(order: seq<PartType>, keys: set<PartType>)
    requires Enumerates(order, keys)
    ensures |order| == |keys|
  {
    DistinctCardinality(order);
    assert (set t | t in order) == keys;
  }

  /** Undamaged parts at the front of the list print nothing. */
  lemma {:induction false} ConditionStageSkips(parts: seq<Part>, rest: seq<Part>)
    requires forall p :: p in parts ==> !IsDamaged(p)
    ensures ConditionStage(parts + rest) == ConditionStage(rest)
  {
    if parts != [] {
      assert (parts + rest)[0] == parts[0] && (parts + rest)[1..] == parts[1..] + rest;
      ConditionStageSkips(parts[1..], rest);
    } else {
      assert parts + rest == rest;
    }
  }

  /** With every attribute present and a census of one entry, the run reports
      that entry and exits. */
  lemma SingleDeviation(year: Option<string>, make: Option<string>, model: Option<string>,
                        parts: seq<Part>, order: seq<PartType>, t: PartType, n: nat)
    requires !Missing(year) && !Missing(make) && !Missing(model)
    requires Census(parts) == map[t := n] && n > 0
    requires Enumerates(order, Census(parts).Keys)
    ensures Diagnose(year, make, model, parts, order) == Report(Failed, [MissingPart(t, n), Exiting])
  {
    assert Census(parts).Keys == {t};
    EnumerationSize(order, {t});
    assert order[0] in {t};
    assert order == [t];
    AttributeStageFindings(year, make, model);
    assert InventoryScan(map[t := n], [t]) == Stage([MissingPart(t, n)], None);
  }

  /** A complete, undamaged Honda Civic passes with the success line alone. */
  lemma CivicPasses(order: seq<PartType>)
    requires Enumerates(order, Census(CivicParts).Keys)
    ensures Diagnose(Some("2020"), Some("Honda"), Some("Civic"), CivicParts, order)
      == Report(Passed, [PassedSuccessfully])
  {
    assert Census(CivicParts) == map[] by { CensusFourTires(GoodTire); }
    assert order == [] by { EnumerationSize(order, {}); }
    assert ConditionStage(CivicParts) == Stage([], None) by {
      assert ConditionStage([GoodTire]) == Stage([], None);
      forall p | p in ThreeTireParts ensures !IsDamaged(p) {}
      ConditionStageSkips(ThreeTireParts, [GoodTire]);
    }
  }

  /** A Ford with no year and an empty model reports the year and the model,
      not the make, and stops before looking at its (absent) parts. */
  lemma FordMissingYearAndModel(order: seq<PartType>)
    requires Enumerates(order, Census([]).Keys)
    ensures Diagnose(None, Some("Ford"), Some(""), [], order)
      == Report(Failed, [MissingAttribute(Year), MissingAttribute(Model), Exiting])
  {
  }

  /** A car with three tires reports the tire count it has, then exits. */
  lemma ThreeTiresReported(order: seq<PartType>)
    requires Enumerates(order, Census(ThreeTireParts).Keys)
    ensures Diagnose(Some("2020"), Some("Honda"), Some("Civic"), ThreeTireParts, order)
      == Report(Failed, [MissingPart(Tire, 3), Exiting])
  {
    CensusThreeTires();
    SingleDeviation(Some("2020"), Some("Honda"), Some("Civic"), ThreeTireParts, order, Tire, 3);
  }

  /** The car of the getMissingPartsMap comment, three of its four tires
      missing, reports the one tire it has, then exits. */
  lemma OneTireReported(order: seq<PartType>)
    requires Enumerates(order, Census(OneTireParts).Keys)
    ensures Diagnose(Some("2020"), Some("Honda"), Some("Civic"), OneTireParts, order)
      == Report(Failed, [MissingPart(Tire, 1), Exiting])
  {
    CensusOneTire();
    SingleDeviation(Some("2020"), Some("Honda"), Some("Civic"), OneTireParts, order, Tire, 1);
  }

  /** A complete car with one flat tire reports that tire, then exits. */
  lemma FlatTireReported(order: seq<PartType>)
    requires Enumerates(order, Census(FlatTireParts).Keys)
    ensures Diagnose(Some("2020"), Some("Honda"), Some("Civic"), FlatTireParts, order)
      == Report(Failed, [DamagedPart(Tire, Flat), Exiting])
  {
    assert Census(FlatTireParts) == map[] by { CensusFourTires(FlatTire); }
    assert order == [] by { EnumerationSize(order, {}); }
    assert ConditionStage(FlatTireParts) == Stage([DamagedPart(Tire, Flat)], None) by {
      assert ConditionStage([FlatTire]) == Stage([DamagedPart(Tire, Flat)], None);
      forall p | p in ThreeTireParts ensures !IsDamaged(p) {}
      ConditionStageSkips(ThreeTireParts, [FlatTire]);
    }
  }

  /** A car with no tire at all does not report "Count: 0": the missing-part
      report rejects the zero count, whichever entry the iteration reaches
      first, and the run ends with an invalid-argument error. */
  lemma NoTiresThrows(order: seq<PartType>)
    requires Enumerates(order, Census(NoTireParts).Keys)
    ensures Diagnose(Some("2020"), Some("Honda"), Some("Civic"), NoTireParts, order).outcome
      == InvalidArgument(NonPositiveCount)
  {
    assert Count(NoTireParts, Tire) == 0;
    DiagnoseRejectsZeroCount(Some("2020"), Some("Honda"), Some("Civic"), NoTireParts, order);
  }

  /** The console text of the attribute and status lines these runs print. */
  lemma StatusTexts()
    ensures Text(PassedSuccessfully) == "Diagnostics passed successfully"
    ensures Text(MissingAttribute(Year)) == "Missing Year Detected"
    ensures Text(MissingAttribute(Model)) == "Missing Model Detected"
    ensures Text(Exiting) == "Exiting..."
  {
  }

  /** The console text of the three-tire finding. */
  lemma ThreeTiresText()
    ensures Text(MissingPart(Tire, 3)) == "Missing Part(s) Detected: TIRE - Count: 3"
  {
    assert Decimal(3) == "3";
  }

  /** The console text of the flat-tire finding. */
  lemma FlatTireText()
    ensures Text(DamagedPart(Tire, Flat)) == "Damaged Part Detected: TIRE - Condition: FLAT"
  {
  }
}
