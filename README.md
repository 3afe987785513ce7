# CarRepairDiagnostics in Dafny

A model of the diagnostic core of CarRepairDiagnostics. The program reads one
vehicle record, with a year, make, model and a list of parts, each with a type
and a condition. It then checks the record in three stages:

1. **Attributes.** Year, make and model are each checked for null or empty.
   There is one finding per missing attribute, in that order.
2. **Inventory.** The missing-parts census of `Car.getMissingPartsMap` is
   computed. It maps each required type whose count is off to its actual
   count. ENGINE, ELECTRICAL, FUEL_FILTER and OIL_FILTER are required once
   each, and TIRE four times. Every census entry goes through
   `printMissingPart`.
3. **Condition.** Every part whose condition is not NEW, GOOD or WORN goes
   through `printDamagedPart`, in list order.

Each stage runs its whole scan. A stage that found something ends the run
with "Exiting..." and exit status 1. When all three stages are clean, the run
prints "Diagnostics passed successfully". Both reporting operations check
their arguments, and a rejected argument throws IllegalArgumentException.

The model has three parts:

- `Domain` (Car.dfy). The record is a class with `year`, `make`, `model` and
  `parts` fields. `GetMissingPartsMap` is a method with the source's loop and
  its five frequency checks. The method is proved equal to the specification
  function `Census`.
- `DiagnosticEngine` (CarDiagnosticEngine.dfy). Each `has…` helper and
  `executeDiagnostics` is a method with the source's control flow. Where the
  source prints, the model returns lines; where it ends the process, the
  model returns an outcome: `Passed`, `Failed` or `InvalidArgument(error)`.
  Each method is proved equal to a stage function (`AttributeStage`,
  `InventoryScan`, `ConditionStage`) or to the whole-run function
  `Diagnose`. The lemmas state what those functions promise.
- `DiagnosticScenarios` (Scenarios.dfy). Whole runs on concrete records,
  including the car from the `getMissingPartsMap` comment, which has one
  tire, and a car with three tires.

Null Java values are `Option` values. A Java `HashMap` has no defined
iteration order. The inventory method therefore returns the order it used
as a ghost value, and every statement about a run holds for every order
that lists each census key once (`Enumerates`).

Three behaviours of the code are worth stating directly. The model follows
the code in each:

- The census value is the count of parts present, not the count missing.
  The comment on `getMissingPartsMap` (Car.java:24, 30-34) asks for "the part
  types missing". Its example is a car missing three of its four tires, with
  the expected map `{TIRE: 3}`. The code (Car.java:65-68) stores the
  frequency itself, so that car, which has one tire, gives `{TIRE: 1}`
  (`CensusOneTire`, `OneTireReported`), and a car with three tires gives
  `{TIRE: 3}` (`CensusThreeTires`). The comment's reading also fits
  `printMissingPart` rejecting a count that is not positive.
- A required type that is entirely absent gets 0 in the census
  (Car.java:45-47 and the four checks after it). `printMissingPart` rejects
  that 0 (CarDiagnosticEngine.java:120), so the run ends with an
  IllegalArgumentException (`NoTiresThrows`, `DiagnoseRejectsZeroCount`).
- A null `parts` list throws NullPointerException, both in the census loop
  (Car.java:41) and in the condition stage (CarDiagnosticEngine.java:94).

## Model

| member | source | states |
|---|---|---|
| Domain.Car.GetMissingPartsMap | src/main/java/com/ubiquisoft/evaluation/domain/Car.java:22-71 | a type is a key exactly when it is required and its count in `parts` differs from the requirement; its value is that actual count; the map is `Census(parts)`; no field changes |
| Domain.TypesOfAt | src/main/java/com/ubiquisoft/evaluation/domain/Car.java:40-43 | the i-th entry of the collected type list is the type of the i-th part, null included |
| Domain.FrequencyIsMultiplicity | src/main/java/com/ubiquisoft/evaluation/domain/Car.java:45-65 | a frequency is the number of occurrences of the value in the list |
| Domain.CensusEntries | src/main/java/com/ubiquisoft/evaluation/domain/Car.java:45-68 | key iff required and off by count, value = actual count, value at most the number of parts, never keyed by `Other` |
| Domain.CountPermutation | src/main/java/com/ubiquisoft/evaluation/domain/Car.java:40-45 | reordering the parts changes no type's count |
| Domain.CensusPermutation | src/main/java/com/ubiquisoft/evaluation/domain/Car.java:40-70 | the census depends only on the multiset of parts |
| Domain.CensusIgnoresUncountedParts | src/main/java/com/ubiquisoft/evaluation/domain/Car.java:37-70 | adding a part with a null or non-required type leaves the census unchanged |
| Domain.CensusOfNoParts | src/main/java/com/ubiquisoft/evaluation/domain/Car.java:41-68 | with no parts, all five required types map to 0 |
| Domain.CensusEmptyIff | src/main/java/com/ubiquisoft/evaluation/domain/Car.java:45-70 | the census is empty iff the counts are exactly 1, 1, 1, 1 and 4 tires |
| Domain.CensusOnlyTiresOff | src/main/java/com/ubiquisoft/evaluation/domain/Car.java:45-68 | with the four single types correct and the tire count off, the census is exactly {TIRE: count} |
| Domain.CensusThreeTires | src/main/java/com/ubiquisoft/evaluation/domain/Car.java:65-68 | one of each single part and three tires gives exactly {TIRE: 3}, the number of tires present |
| Domain.CensusWithoutTwoTires | src/main/java/com/ubiquisoft/evaluation/domain/Car.java:45-68 | taking two tires off a car whose census is {TIRE: 3} leaves {TIRE: 1}: each value is the count present |
| Domain.CensusOneTire | src/main/java/com/ubiquisoft/evaluation/domain/Car.java:30-34 | the comment's example car, three of four tires missing, gives {TIRE: 1} as the code computes it, not the {TIRE: 3} the comment expects |
| DiagnosticEngine.MissingPartReport | src/main/java/com/ubiquisoft/evaluation/CarDiagnosticEngine.java:118-123 | succeeds iff the type is non-null and the count positive, with that finding; otherwise the null-type error first, then the count error |
| DiagnosticEngine.DamagedPartReport | src/main/java/com/ubiquisoft/evaluation/CarDiagnosticEngine.java:125-130 | succeeds iff type and condition are non-null, with that finding; otherwise the null-type error first, then the null-condition error |
| DiagnosticEngine.HasMissingRequiredAttributes | src/main/java/com/ubiquisoft/evaluation/CarDiagnosticEngine.java:62-80 | prints the attribute stage's lines and returns true iff it printed any |
| DiagnosticEngine.AttributeStageFindings | src/main/java/com/ubiquisoft/evaluation/CarDiagnosticEngine.java:62-80 | one finding per null-or-empty attribute and none other, in the order Year, Make, Model, with no short-circuit; empty iff all three are present |
| DiagnosticEngine.HasMissingParts | src/main/java/com/ubiquisoft/evaluation/CarDiagnosticEngine.java:82-90 | visits the census in some order listing each key once; prints and throws what `InventoryScan` gives for that order; if it did not throw, returns true iff it printed |
| DiagnosticEngine.InventoryScanLines | src/main/java/com/ubiquisoft/evaluation/CarDiagnosticEngine.java:82-90 | the k-th line is the k-th visited entry with its positive count; it throws iff some visited count is 0, and then only the count error; otherwise one line per entry |
| DiagnosticEngine.InventoryStageFindings | src/main/java/com/ubiquisoft/evaluation/CarDiagnosticEngine.java:82-90 | for any order: throws iff a required type is entirely absent; every line is a census entry with its actual positive count; no line twice; without a throw, every entry is printed, so the stage fails iff the census is non-empty |
| DiagnosticEngine.HasDamagedParts | src/main/java/com/ubiquisoft/evaluation/CarDiagnosticEngine.java:92-104 | prints and throws what `ConditionStage` gives; if it did not throw, returns true iff it printed |
| DiagnosticEngine.DamagedPartsMembers | src/main/java/com/ubiquisoft/evaluation/CarDiagnosticEngine.java:95-97 | the reference list of damaged parts holds exactly the parts whose condition is not NEW, GOOD or WORN, a null condition included |
| DiagnosticEngine.ConditionStageThrows | src/main/java/com/ubiquisoft/evaluation/CarDiagnosticEngine.java:92-104 | prints only damaged-part lines; throws iff some damaged part has a null type or condition |
| DiagnosticEngine.ConditionStageReports | src/main/java/com/ubiquisoft/evaluation/CarDiagnosticEngine.java:92-104 | without a throw, the k-th line reports the k-th damaged part in list order, and nothing is printed iff no part is damaged |
| DiagnosticEngine.ConditionStageFindings | src/main/java/com/ubiquisoft/evaluation/CarDiagnosticEngine.java:92-104 | the two lemmas above together |
| DiagnosticEngine.ConditionStageThrowsAtFirst | src/main/java/com/ubiquisoft/evaluation/CarDiagnosticEngine.java:92-104 | a throw comes from the first damaged part with a null type or condition: the null-type error if its type is null, else the null-condition error; what was printed is what the parts before it print |
| DiagnosticEngine.ExecuteDiagnostics | src/main/java/com/ubiquisoft/evaluation/CarDiagnosticEngine.java:16-60 | the run's report is `Diagnose` of the record for the order the inventory stage used, which lists each census key once; it passes iff every attribute is present, the census is empty and no part is damaged, and then prints only the success line; a failed run ends with "Exiting..." after at least one finding; the car is not modified |
| DiagnosticEngine.DiagnosePassesIff | src/main/java/com/ubiquisoft/evaluation/CarDiagnosticEngine.java:43-59 | passes iff all attributes are present, the counts are exactly right and no part is damaged; then the success line is the only line |
| DiagnosticEngine.DiagnoseStatusLines | src/main/java/com/ubiquisoft/evaluation/CarDiagnosticEngine.java:43-59 | "Exiting..." is printed iff the run failed, and the success line iff it passed; a failed run prints at least one finding and ends with "Exiting..." |
| DiagnosticEngine.CombineStatusLines | src/main/java/com/ubiquisoft/evaluation/CarDiagnosticEngine.java:43-59 | for any stage results that print findings only, the early-exit policy prints "Exiting..." iff the run failed, the success line iff it passed, and ends a failed run with "Exiting..." after at least one finding |
| DiagnosticEngine.DiagnoseStopsAfterAttributes | src/main/java/com/ubiquisoft/evaluation/CarDiagnosticEngine.java:44-46 | a missing attribute fails the run with only attribute findings and "Exiting...", so no part check runs |
| DiagnosticEngine.DiagnoseStopsAfterInventory | src/main/java/com/ubiquisoft/evaluation/CarDiagnosticEngine.java:48-51 | with the attributes present, no type absent and the census non-empty, the run fails after printing every census entry with its count, and no condition finding |
| DiagnosticEngine.DiagnoseStopsAfterCondition | src/main/java/com/ubiquisoft/evaluation/CarDiagnosticEngine.java:53-56 | with a clean first two stages and reportable damaged parts, the run fails after printing each damaged part in list order, then "Exiting..." |
| DiagnosticEngine.DiagnoseRejectsZeroCount | src/main/java/com/ubiquisoft/evaluation/CarDiagnosticEngine.java:118-120 | the run ends in the count error iff the attributes are present and some required type is entirely absent |
| DiagnosticEngine.DiagnoseRejectsUnreportablePart | src/main/java/com/ubiquisoft/evaluation/CarDiagnosticEngine.java:125-127 | the run ends in a null-type or null-condition error iff the attributes are present, the census is empty and some damaged part has a null type or condition |
| DiagnosticEngine.DiagnoseOrderIndependent | src/main/java/com/ubiquisoft/evaluation/CarDiagnosticEngine.java:82-90 | two census orders give the same outcome and, unless the count error is thrown, the same lines up to order |
| DiagnosticEngine.ExecuteDiagnosticsTwice | src/main/java/com/ubiquisoft/evaluation/CarDiagnosticEngine.java:14-104 | two runs on the same car end the same way and, unless the count error is thrown, print the same lines up to order |
| DiagnosticScenarios.CensusFourTires | src/main/java/com/ubiquisoft/evaluation/domain/Car.java:45-70 | one of each single part and four tires leaves the census empty, whatever the fourth tire's condition |
| DiagnosticScenarios.SingleDeviation | src/main/java/com/ubiquisoft/evaluation/CarDiagnosticEngine.java:48-51 | with the attributes present and a one-entry census with a positive count, the run prints exactly that entry and "Exiting..." |
| DiagnosticScenarios.CivicPasses | src/main/java/com/ubiquisoft/evaluation/CarDiagnosticEngine.java:43-59 | a 2020 Honda Civic with all parts GOOD passes, with the success line alone |
| DiagnosticScenarios.FordMissingYearAndModel | src/main/java/com/ubiquisoft/evaluation/CarDiagnosticEngine.java:62-80 | a null year and an empty model give "Missing Year", "Missing Model", "Exiting..." and a failure; the present make is not reported |
| DiagnosticScenarios.OneTireReported | src/main/java/com/ubiquisoft/evaluation/CarDiagnosticEngine.java:82-90 | the comment's example car prints exactly the TIRE finding with count 1, then "Exiting..." |
| DiagnosticScenarios.ThreeTiresReported | src/main/java/com/ubiquisoft/evaluation/CarDiagnosticEngine.java:82-90 | three tires give exactly the TIRE finding with count 3, then "Exiting..." |
| DiagnosticScenarios.FlatTireReported | src/main/java/com/ubiquisoft/evaluation/CarDiagnosticEngine.java:92-104 | a complete car with one FLAT tire gives exactly that damaged-part finding, then "Exiting..." |
| DiagnosticScenarios.NoTiresThrows | src/main/java/com/ubiquisoft/evaluation/CarDiagnosticEngine.java:118-123 | a car with no tires ends with the count error instead of a "Count: 0" finding |
| DiagnosticScenarios.StatusTexts | src/main/java/com/ubiquisoft/evaluation/CarDiagnosticEngine.java:106-116 | the console text of the attribute findings, "Exiting..." and the success line |
| DiagnosticScenarios.ThreeTiresText | src/main/java/com/ubiquisoft/evaluation/CarDiagnosticEngine.java:118-123 | the formatted missing-part line for TIRE with count 3 |
| DiagnosticScenarios.FlatTireText | src/main/java/com/ubiquisoft/evaluation/CarDiagnosticEngine.java:125-130 | the formatted damaged-part line for a FLAT TIRE |

## Left out

- `main` is not modelled: it loads a classpath resource, unmarshals it with JAXB and exits when the resource is missing. That is I/O and a foreign library. A record is built with the `Car` constructor instead.
- `System.out.println` and `System.exit` are not called. The printed lines are the report's `lines`, and the exit status is its `outcome`. `Text` gives each line's console text.
- An IllegalArgumentException thrown inside a run is the `InvalidArgument` outcome. The model does not follow the exception past `executeDiagnostics`.
- HashMap iteration order is not modelled. The inventory stage visits the census in some order that lists each key once, returned as a ghost value. No statement fixes that order.
- DiagnosticEngine.ExecuteDiagnosticsTwice: when the count error is thrown, it promises the same outcome but not the same printed lines. The lines printed before the throw depend on the HashMap order.
- DiagnosticEngine.DiagnoseOrderIndependent: the same limit, for the same reason.
- A null `parts` list is not modelled: `parts` is a sequence. The source would throw NullPointerException when it iterates `getParts()`.
- A null element inside the parts list is not modelled. The source would throw NullPointerException on `part.getType()`.
- A null count passed to `printMissingPart` is not modelled. The census never holds one.
- `toString`, the getters and setters, and the JAXB annotations are left out. They carry no logic the core depends on.
- PartType.java and ConditionType.java are not part of this model. `PartType` has the five required types plus `Other`, which stands in for any further type. `ConditionType` has NEW, GOOD and WORN plus two representative damaged conditions, DAMAGED and FLAT.
- The console names of `Other` and the damaged conditions in `Text` are assumed to be the Java enum constant names.
