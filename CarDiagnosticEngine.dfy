/** The three-stage diagnostic pipeline (CarDiagnosticEngine.java). The engine
    keeps no state, so its operations are module-level methods over a `Car`.
    What the Java code prints becomes the `lines` of a `Report`; ending the
    process becomes its `outcome`. */
module DiagnosticEngine {
  import opened Wrappers
  import opened Domain

  /** The three required attributes, in the order the first stage checks them. */
  datatype Attribute = Year | Make | Model

  /** One line written to the console. The first three kinds are findings;
      the last two are the status lines that end a run. */
  datatype Line =
    | MissingAttribute(attribute: Attribute)
    | MissingPart(partType: PartType, count: nat)
    | DamagedPart(partType: PartType, condition: ConditionType)
    | Exiting
    | PassedSuccessfully

  /** The IllegalArgumentExceptions that the two reporting operations throw. */
  datatype ArgumentError = NullPartType | NonPositiveCount | NullCondition

  /** How a run ends: the success line, an exit with status 1 after
      "Exiting...", or an uncaught IllegalArgumentException. */
  datatype Outcome = Passed | Failed | InvalidArgument(error: ArgumentError)

  /** Everything a run prints, in order, and how it ends. */
  datatype Report = Report(outcome: Outcome, lines: seq<Line>)

  /** What a stage printed, and the exception it threw, if any. */
  datatype Stage = Stage(printed: seq<Line>, thrown: Option<ArgumentError>)

  /** A stage that printed `prefix` first and then went on as `rest`. */
  function After(prefix: seq<Line>, rest: Stage): Stage
  {
    Stage(prefix + rest.printed, rest.thrown)
  }

  /** Printing `x` and then `y` before a stage is printing `x + y` before it. */
  lemma AfterAfter(x: seq<Line>, y: seq<Line>, rest: Stage)
    ensures After(x, After(y, rest)) == After(x + y, rest)
  {
    assert x + (y + rest.printed) == (x + y) + rest.printed;
  }

  /** An attribute is missing when it is null or the empty string. */
  predicate Missing(attribute: Option<string>)
  {
    attribute == None || attribute == Some("")
  }

  /** A part is damaged when its condition is none of NEW, GOOD and WORN;
      a null condition is none of them either. */
  predicate IsDamaged(p: Part)
  {
    p.condition != Some(New) && p.condition != Some(Good) && p.condition != Some(Worn)
  }

  /** A part that the damaged-part report accepts: neither attribute is null. */
  predicate Reportable(p: Part)
  {
    p.partType.Some? && p.condition.Some?
  }

  // ---------------------------------------------------------------------------
  // The two reporting operations and their argument checks
  // ---------------------------------------------------------------------------

  /** printMissingPart: rejects a null type, then a count that is not positive;
      otherwise yields the finding. */
  function MissingPartReport(partType: Option<PartType>, count: int): (r: Result<Line, ArgumentError>)
    ensures r.Success? <==> partType.Some? && count > 0
    ensures r.Success? ==> r.value == MissingPart(partType.value, count)
    ensures r.Failure? ==> r.error == (if partType.None? then NullPartType else NonPositiveCount)
  {
    if partType.None? then Failure(NullPartType)
    else if count <= 0 then Failure(NonPositiveCount)
    else Success(MissingPart(partType.value, count))
  }

  /** printDamagedPart: rejects a null type, then a null condition; otherwise
      yields the finding. */
  function DamagedPartReport(partType: Option<PartType>, condition: Option<ConditionType>): (r: Result<Line, ArgumentError>)
    ensures r.Success? <==> partType.Some? && condition.Some?
    ensures r.Success? ==> r.value == DamagedPart(partType.value, condition.value)
    ensures r.Failure? ==> r.error == (if partType.None? then NullPartType else NullCondition)
  {
    if partType.None? then Failure(NullPartType)
    else if condition.None? then Failure(NullCondition)
    else Success(DamagedPart(partType.value, condition.value))
  }

  // ---------------------------------------------------------------------------
  // What each stage prints, as functions of the record
  // ---------------------------------------------------------------------------

  /** The attribute stage: one finding per missing attribute, Year, Make, Model. */
  function AttributeStage(year: Option<string>, make: Option<string>, model: Option<string>): seq<Line>
  {
    (if Missing(year) then [MissingAttribute(Year)] else []) +
    (if Missing(make) then [MissingAttribute(Make)] else []) +
    (if Missing(model) then [MissingAttribute(Model)] else [])
  }

  /** `order` lists every key of `keys` exactly once: an order in which a
      HashMap's iterator may visit its entries. Java leaves that order
      unspecified, so the model fixes none. */
  ghost predicate Enumerates(order: seq<PartType>, keys: set<PartType>)
  {
    && (forall i :: 0 <= i < |order| ==> order[i] in keys)
    && (forall t :: t in keys ==> t in order)
    && (forall i, j :: 0 <= i < j < |order| ==> order[i] != order[j])
  }

  /** Some enumeration of a set of keys. */
  ghost function Enumeration(keys: set<PartType>): (order: seq<PartType>)
    ensures Enumerates(order, keys)
    decreases keys
  {
    if keys == {} then []
    else
      var t :| t in keys;
      var rest := Enumeration(keys - {t});
      assert forall i :: 0 <= i < |rest| ==> rest[i] != t;
      [t] + rest
  }

  /** Every key in `order` is an entry of `census`. */
  predicate Visits(census: map<PartType, nat>, order: seq<PartType>)
  {
    forall i :: 0 <= i < |order| ==> order[i] in census
  }

  /** Part way through an iteration over `keys`: `visited` lists the keys
      seen so far, each once, and `pending` holds the others. */
  ghost predicate Splits(visited: seq<PartType>, pending: set<PartType>, keys: set<PartType>)
  {
    && pending <= keys
    && (forall i :: 0 <= i < |visited| ==> visited[i] in keys && visited[i] !in pending)
    && (forall t :: t in keys ==> t in pending || t in visited)
    && (forall i, j :: 0 <= i < j < |visited| ==> visited[i] != visited[j])
  }

  /** Visiting one more pending key keeps the split. */
  lemma SplitsStep(visited: seq<PartType>, pending: set<PartType>, keys: set<PartType>, t: PartType)
    requires Splits(visited, pending, keys) && t in pending
    ensures Splits(visited + [t], pending - {t}, keys)
  {
    var v := visited + [t];
    forall t' | t' in keys ensures t' in pending - {t} || t' in v {
      if t' == t {
        assert v[|visited|] == t;
      } else if t' !in pending {
        var i :| 0 <= i < |visited| && visited[i] == t';
        assert v[i] == t';
      }
    }
  }

  /** The keys already visited followed by an enumeration of the pending
      ones enumerate all the keys. */
  lemma AppendEnumerates(visited: seq<PartType>, rest: seq<PartType>, keys: set<PartType>, pending: set<PartType>)
    requires Splits(visited, pending, keys)
    requires Enumerates(rest, pending)
    ensures Enumerates(visited + rest, keys)
  {
    var order := visited + rest;
    forall i, j | 0 <= i < j < |order| ensures order[i] != order[j] {
      if j >= |visited| {
        assert order[j] == rest[j - |visited|];
        if i >= |visited| {
          assert order[i] == rest[i - |visited|];
        }
      }
    }
    forall t | t in keys ensures t in order {
      if t in pending {
        var i :| 0 <= i < |rest| && rest[i] == t;
        assert order[|visited| + i] == t;
      } else {
        var i :| 0 <= i < |visited| && visited[i] == t;
        assert order[i] == t;
      }
    }
  }


  /** The inventory stage, visiting the census entries in `order`: each
      entry goes through the missing-part report, and the first rejected
      entry ends the stage with its exception. */
  function InventoryScan(census: map<PartType, nat>, order: seq<PartType>): Stage
    requires Visits(census, order)
  {
    if order == [] then Stage([], None)
    else
      match MissingPartReport(Some(order[0]), census[order[0]])
      case Failure(e) => Stage([], Some(e))
      case Success(line) => After([line], InventoryScan(census, order[1..]))
  }

  /** The condition stage: every damaged part, in list order, through the
      damaged-part report; the first rejected part ends the stage. */
  function ConditionStage(parts: seq<Part>): Stage
  {
    if parts == [] then Stage([], None)
    else if IsDamaged(parts[0]) then
      match DamagedPartReport(parts[0].partType, parts[0].condition)
      case Failure(e) => Stage([], Some(e))
      case Success(line) => After([line], ConditionStage(parts[1..]))
    else ConditionStage(parts[1..])
  }

  /** A whole run: the stages in order, stopping after the first one that
      printed a finding or threw. */
  function Diagnose(year: Option<string>, make: Option<string>, model: Option<string>, parts: seq<Part>,
                    order: seq<PartType>): Report
    requires Visits(Census(parts), order)
  {
    Combine(AttributeStage(year, make, model), InventoryScan(Census(parts), order), ConditionStage(parts))
  }

  /** The early-exit policy of a run over what its three stages would do: the
      first stage that throws or finds something ends the run. */
  function Combine(attributes: seq<Line>, inventory: Stage, condition: Stage): Report
  {
    if attributes != [] then Report(Failed, attributes + [Exiting])
    else if inventory.thrown.Some? then Report(InvalidArgument(inventory.thrown.value), inventory.printed)
    else if inventory.printed != [] then Report(Failed, inventory.printed + [Exiting])
    else if condition.thrown.Some? then Report(InvalidArgument(condition.thrown.value), condition.printed)
    else if condition.printed != [] then Report(Failed, condition.printed + [Exiting])
    else Report(Passed, [PassedSuccessfully])
  }

  // ---------------------------------------------------------------------------
  // The engine's methods
  // ---------------------------------------------------------------------------

  /** Checks year, make and model in turn, printing a finding for each one
      missing; reports whether any was. */
  method HasMissingRequiredAttributes(car: Car) returns (found: bool, printed: seq<Line>)
    ensures printed == AttributeStage(car.year, car.make, car.model)
    ensures found <==> printed != []
  {
    found := false;
    printed := [];
    if Missing(car.year) {
      printed := printed + [MissingAttribute(Year)];
      found := true;
    }
    if Missing(car.make) {
      printed := printed + [MissingAttribute(Make)];
      found := true;
    }
    if Missing(car.model) {
      printed := printed + [MissingAttribute(Model)];
      found := true;
    }
  }

  /** Runs every census entry through the missing-part report, in the
      iterator's order (returned as `order`); reports whether there was any
      entry, unless the report threw. */
  method HasMissingParts(car: Car) returns (found: bool, printed: seq<Line>, thrown: Option<ArgumentError>,
                                            ghost order: seq<PartType>)
    ensures Enumerates(order, Census(car.parts).Keys)
    ensures Stage(printed, thrown) == InventoryScan(Census(car.parts), order)
    ensures thrown.None? ==> (found <==> printed != [])
  {
    found := false;
    printed := [];
    thrown := None;
    var missingPartsMap := car.GetMissingPartsMap();
    var pending := missingPartsMap.Keys;
    ghost var visited: seq<PartType> := [];
    while pending != {}
      invariant Splits(visited, pending, missingPartsMap.Keys)
      invariant Visits(missingPartsMap, visited)
      invariant InventoryScan(missingPartsMap, visited) == Stage(printed, None)
      invariant found <==> printed != []
      decreases pending
    {
      var partType :| partType in pending;
      var report := MissingPartReport(Some(partType), missingPartsMap[partType]);
      if report.Failure? {
        thrown := Some(report.error);
        order := ScanThrows(missingPartsMap, visited, pending, printed, partType);
        return;
      }
      ScanStep(missingPartsMap, visited, pending, printed, partType);
      printed := printed + [report.value];
      found := true;
      visited := visited + [partType];
      pending := pending - {partType};
    }
    order := ScanDone(missingPartsMap, visited, printed);
  }

  /** Runs every damaged part through the damaged-part report, in list order;
      reports whether there was any, unless the report threw. */
  method HasDamagedParts(car: Car) returns (found: bool, printed: seq<Line>, thrown: Option<ArgumentError>)
    ensures Stage(printed, thrown) == ConditionStage(car.parts)
    ensures thrown.None? ==> (found <==> printed != [])
  {
    found := false;
    printed := [];
    thrown := None;
    var parts := car.parts;
    for i := 0 to |parts|
      invariant After(printed, ConditionStage(parts[i..])) == ConditionStage(parts)
      invariant found <==> printed != []
    {
      var part := parts[i];
      assert parts[i..] == [part] + parts[i + 1..];
      if IsDamaged(part) {
        var report := DamagedPartReport(part.partType, part.condition);
        if report.Failure? {
          thrown := Some(report.error);
          return;
        }
        printed := printed + [report.value];
        found := true;
      }
    }
  }

  /** The diagnostic run. Each stage scans in full; a stage that found
      something ends the run with "Exiting..." and a failure, an exception
      ends it at once, and a clean run ends with the success line. It has no
      modifies clause, so the car is left as it was. */
  method ExecuteDiagnostics(car: Car) returns (report: Report, ghost order: seq<PartType>)
    ensures Enumerates(order, Census(car.parts).Keys)
    ensures report == Diagnose(car.year, car.make, car.model, car.parts, order)
    ensures report.outcome == Passed <==>
      && !Missing(car.year) && !Missing(car.make) && !Missing(car.model)
      && Census(car.parts) == map[]
      && forall p :: p in car.parts ==> !IsDamaged(p)
    ensures report.outcome == Passed ==> report.lines == [PassedSuccessfully]
    ensures report.outcome == Failed ==> |report.lines| >= 2 && report.lines[|report.lines| - 1] == Exiting
  {
    RunProperties(car.year, car.make, car.model, car.parts);
    var found, printed := HasMissingRequiredAttributes(car);
    if found {
      order := Enumeration(Census(car.parts).Keys);
      report := Report(Failed, printed + [Exiting]);
      return;
    }

    var inventoryFound, inventoryPrinted, inventoryThrown;
    inventoryFound, inventoryPrinted, inventoryThrown, order := HasMissingParts(car);
    if inventoryThrown.Some? {
      report := Report(InvalidArgument(inventoryThrown.value), inventoryPrinted);
      return;
    }
    if inventoryFound {
      report := Report(Failed, inventoryPrinted + [Exiting]);
      return;
    }

    var conditionFound, conditionPrinted, conditionThrown := HasDamagedParts(car);
    if conditionThrown.Some? {
      report := Report(InvalidArgument(conditionThrown.value), conditionPrinted);
      return;
    }
    if conditionFound {
      report := Report(Failed, conditionPrinted + [Exiting]);
      return;
    }

    report := Report(Passed, [PassedSuccessfully]);
  }

  /** What every run promises, whatever the census order. */
  lemma RunProperties(year: Option<string>, make: Option<string>, model: Option<string>, parts: seq<Part>)
    ensures forall order | Enumerates(order, Census(parts).Keys) ::
      var r := Diagnose(year, make, model, parts, order);
      && (r.outcome == Passed <==>
            && !Missing(year) && !Missing(make) && !Missing(model)
            && Census(parts) == map[]
            && forall p :: p in parts ==> !IsDamaged(p))
      && (r.outcome == Passed ==> r.lines == [PassedSuccessfully])
      && (r.outcome == Failed ==> |r.lines| >= 2 && r.lines[|r.lines| - 1] == Exiting)
  {
    CensusEmptyIff(parts);
    forall order | Enumerates(order, Census(parts).Keys)
      ensures var r := Diagnose(year, make, model, parts, order);
        && (r.outcome == Passed <==>
              && !Missing(year) && !Missing(make) && !Missing(model)
              && Census(parts) == map[]
              && forall p :: p in parts ==> !IsDamaged(p))
        && (r.outcome == Passed ==> r.lines == [PassedSuccessfully])
        && (r.outcome == Failed ==> |r.lines| >= 2 && r.lines[|r.lines| - 1] == Exiting)
    {
      DiagnosePassesIff(year, make, model, parts, order);
      DiagnoseStatusLines(year, make, model, parts, order);
    }
  }

  /** Two runs on the same car end the same way and print the same lines,
      up to the order of the inventory lines, except where the inventory stage
      throws: which entries it printed before that depends on the order. */
  method ExecuteDiagnosticsTwice(car: Car) returns (first: Report, second: Report)
    ensures first.outcome == second.outcome
    ensures first.outcome != InvalidArgument(NonPositiveCount) ==> multiset(first.lines) == multiset(second.lines)
  {
    ghost var order1, order2;
    first, order1 := ExecuteDiagnostics(car);
    second, order2 := ExecuteDiagnostics(car);
    DiagnoseOrderIndependent(car.year, car.make, car.model, car.parts, order1, order2);
  }

  // ---------------------------------------------------------------------------
  // The attribute stage
  // ---------------------------------------------------------------------------

  /** The position of an attribute in the order the stage checks them. */
  function AttributeRank(a: Attribute): nat
  {
    match a
    case Year => 0
    case Make => 1
    case Model => 2
  }

  /** The attribute stage reports each missing attribute exactly once and
      nothing else, in the order Year, Make, Model. */
  lemma AttributeStageFindings(year: Option<string>, make: Option<string>, model: Option<string>)
    ensures var lines := AttributeStage(year, make, model);
      && (MissingAttribute(Year) in lines <==> Missing(year))
      && (MissingAttribute(Make) in lines <==> Missing(make))
      && (MissingAttribute(Model) in lines <==> Missing(model))
      && (forall l :: l in lines ==> l.MissingAttribute?)
      && (forall i, j :: 0 <= i < j < |lines| ==>
            AttributeRank(lines[i].attribute) < AttributeRank(lines[j].attribute))
      && (lines == [] <==> !Missing(year) && !Missing(make) && !Missing(model))
  {
  }

  // ---------------------------------------------------------------------------
  // The inventory stage
  // ---------------------------------------------------------------------------

  /** Visiting `a` and then `b`, when `a` throws nothing, prints what `a`
      prints and then goes on as `b` alone. */
  lemma {:induction false} ScanConcat(census: map<PartType, nat>, a: seq<PartType>, b: seq<PartType>)
    requires Visits(census, a) && Visits(census, b)
    requires InventoryScan(census, a).thrown.None?
    ensures Visits(census, a + b)
    ensures InventoryScan(census, a + b) == After(InventoryScan(census, a).printed, InventoryScan(census, b))
  {
    if a == [] {
      assert a + b == b;
    } else {
      assert (a + b)[0] == a[0] && (a + b)[1..] == a[1..] + b;
      ScanUnfold(census, a);
      ScanConcat(census, a[1..], b);
      ScanUnfold(census, a + b);
      AfterAfter([MissingPart(a[0], census[a[0]])], InventoryScan(census, a[1..]).printed, InventoryScan(census, b));
    }
  }

  /** One step of the inventory stage: an entry with a positive count prints
      its line ahead of the rest. */
  lemma ScanUnfold(census: map<PartType, nat>, order: seq<PartType>)
    requires Visits(census, order) && order != []
    requires census[order[0]] > 0 || InventoryScan(census, order).thrown.None?
    ensures census[order[0]] > 0 && Visits(census, order[1..])
    ensures InventoryScan(census, order) == After([MissingPart(order[0], census[order[0]])], InventoryScan(census, order[1..]))
  {
    assert Visits(census, order[1..]);
  }

  /** One more entry with a positive count: the missing-part report prints
      its line and the iteration moves on. */
  lemma ScanStep(census: map<PartType, nat>, visited: seq<PartType>, pending: set<PartType>,
                 printed: seq<Line>, t: PartType)
    requires Splits(visited, pending, census.Keys) && Visits(census, visited)
    requires InventoryScan(census, visited) == Stage(printed, None)
    requires t in pending && census[t] > 0
    ensures Splits(visited + [t], pending - {t}, census.Keys) && Visits(census, visited + [t])
    ensures InventoryScan(census, visited + [t]) == Stage(printed + [MissingPart(t, census[t])], None)
  {
    assert Visits(census, [t]);
    ScanConcat(census, visited, [t]);
    SplitsStep(visited, pending, census.Keys, t);
  }

  /** An entry whose count is not positive: the missing-part report throws,
      and some iteration order over all the keys gives exactly this stage. */
  lemma ScanThrows(census: map<PartType, nat>, visited: seq<PartType>, pending: set<PartType>,
                   printed: seq<Line>, t: PartType) returns (order: seq<PartType>)
    requires Splits(visited, pending, census.Keys) && Visits(census, visited)
    requires InventoryScan(census, visited) == Stage(printed, None)
    requires t in pending && census[t] <= 0
    ensures Enumerates(order, census.Keys) && Visits(census, order)
    ensures InventoryScan(census, order) == Stage(printed, Some(NonPositiveCount))
  {
    var tail := [t] + Enumeration(pending - {t});
    assert tail[0] == t;
    assert Visits(census, tail);
    assert InventoryScan(census, tail) == Stage([], Some(NonPositiveCount));
    ScanConcat(census, visited, tail);
    AppendEnumerates(visited, tail, census.Keys, pending);
    order := visited + tail;
  }

  /** Every entry visited: the visited keys are an iteration order over all. */
  lemma ScanDone(census: map<PartType, nat>, visited: seq<PartType>, printed: seq<Line>) returns (order: seq<PartType>)
    requires Splits(visited, {}, census.Keys) && Visits(census, visited)
    requires InventoryScan(census, visited) == Stage(printed, None)
    ensures Enumerates(order, census.Keys) && Visits(census, order)
    ensures InventoryScan(census, order) == Stage(printed, None)
  {
    AppendEnumerates(visited, [], census.Keys, {});
    assert visited + [] == visited;
    order := visited;
  }

  /** What the inventory stage prints while visiting `order`: the k-th line
      is the k-th entry visited, each with a positive count; it throws, and
      then only the count error, exactly when some visited count is zero. */
  lemma {:induction false} InventoryScanLines(census: map<PartType, nat>, order: seq<PartType>)
    requires Visits(census, order)
    ensures var s := InventoryScan(census, order);
      && |s.printed| <= |order|
      && (forall k :: 0 <= k < |s.printed| ==>
            census[order[k]] > 0 && s.printed[k] == MissingPart(order[k], census[order[k]]))
      && (s.thrown.Some? <==> exists i :: 0 <= i < |order| && census[order[i]] == 0)
      && (s.thrown.Some? ==> s.thrown == Some(NonPositiveCount))
      && (s.thrown.None? ==> |s.printed| == |order|)
  {
    if order != [] {
      assert Visits(census, order[1..]);
      InventoryScanLines(census, order[1..]);
      var rest := InventoryScan(census, order[1..]);
      if census[order[0]] > 0 {
        forall k | 1 <= k < 1 + |rest.printed|
          ensures census[order[k]] > 0 && InventoryScan(census, order).printed[k] == MissingPart(order[k], census[order[k]])
        {
          assert order[1..][k - 1] == order[k];
        }
        if rest.thrown.Some? {
          var i :| 0 <= i < |order[1..]| && census[order[1..][i]] == 0;
          assert census[order[i + 1]] == 0;
        }
        if exists i :: 0 <= i < |order| && census[order[i]] == 0 {
          var i :| 0 <= i < |order| && census[order[i]] == 0;
          assert i > 0 && census[order[1..][i - 1]] == 0;
        }
      }
    }
  }

  /** The inventory stage prints only missing-part findings. */
  lemma {:induction false} InventoryScanPrintsFindings(census: map<PartType, nat>, order: seq<PartType>)
    requires Visits(census, order)
    ensures forall l :: l in InventoryScan(census, order).printed ==> l.MissingPart?
  {
    if order != [] {
      assert Visits(census, order[1..]);
      InventoryScanPrintsFindings(census, order[1..]);
    }
  }

  /** The inventory stage, in any iteration order, throws exactly when some
      required type is entirely absent. Whatever it prints is a census entry
      with its actual count; when it does not throw it prints every entry
      once, so it fails exactly when the census is not empty. */
  lemma InventoryStageFindings(parts: seq<Part>, order: seq<PartType>)
    requires Enumerates(order, Census(parts).Keys)
    ensures var s := InventoryScan(Census(parts), order);
      && (s.thrown.Some? <==> exists t :: t in RequiredTypes && Count(parts, t) == 0)
      && (s.thrown.Some? ==> s.thrown == Some(NonPositiveCount))
      && (forall l :: l in s.printed ==>
            l.MissingPart? && l.partType in Census(parts) && l.count == Count(parts, l.partType) && l.count > 0)
      && (forall i, j :: 0 <= i < j < |s.printed| ==> s.printed[i] != s.printed[j])
      && (s.thrown.None? ==> forall t :: t in Census(parts) ==> MissingPart(t, Count(parts, t)) in s.printed)
      && (s.thrown.None? ==> (s.printed == [] <==> Census(parts) == map[]))
  {
    var census := Census(parts);
    var s := InventoryScan(census, order);
    InventoryScanLines(census, order);
    forall l | l in s.printed
      ensures l.MissingPart? && l.partType in census && l.count == Count(parts, l.partType) && l.count > 0
    {
      var k :| 0 <= k < |s.printed| && s.printed[k] == l;
      CensusEntries(parts, order[k]);
    }
    if s.thrown.Some? {
      var i :| 0 <= i < |order| && census[order[i]] == 0;
      CensusEntries(parts, order[i]);
    }
    if exists t :: t in RequiredTypes && Count(parts, t) == 0 {
      var t :| t in RequiredTypes && Count(parts, t) == 0;
      CensusEntries(parts, t);
      var i :| 0 <= i < |order| && order[i] == t;
    }
    if s.thrown.None? {
      forall t | t in census ensures MissingPart(t, Count(parts, t)) in s.printed {
        var i :| 0 <= i < |order| && order[i] == t;
        CensusEntries(parts, t);
        assert s.printed[i] == MissingPart(t, Count(parts, t));
      }
      if census != map[] {
        var t :| t in census;
      }
    }
  }

  // ---------------------------------------------------------------------------
  // The condition stage
  // ---------------------------------------------------------------------------

  /** The damaged parts, in list order: the reference definition of what the
      condition stage reports. */
  function DamagedParts(parts: seq<Part>): seq<Part>
  {
    if parts == [] then []
    else (if IsDamaged(parts[0]) then [parts[0]] else []) + DamagedParts(parts[1..])
  }

  /** DamagedParts keeps exactly the damaged parts. */
  lemma {:induction false} DamagedPartsMembers(parts: seq<Part>, p: Part)
    ensures p in DamagedParts(parts) <==> p in parts && IsDamaged(p)
  {
    if parts != [] {
      DamagedPartsMembers(parts[1..], p);
      assert parts == [parts[0]] + parts[1..];
    }
  }

  /** The condition stage prints only damaged-part lines, and throws exactly
      when some damaged part has a null type or condition. */
  lemma {:induction false} ConditionStageThrows(parts: seq<Part>)
    ensures var s := ConditionStage(parts);
      && (forall l :: l in s.printed ==> l.DamagedPart?)
      && (s.thrown.Some? <==> exists p :: p in parts && IsDamaged(p) && !Reportable(p))
  {
    if parts != [] {
      ConditionStageThrows(parts[1..]);
      assert parts == [parts[0]] + parts[1..];
      assert forall p :: p in parts <==> p == parts[0] || p in parts[1..];
    }
  }

  /** `lines` reports `damaged`, one line per part, in order. */
  predicate ReportsEach(lines: seq<Line>, damaged: seq<Part>)
  {
    && |lines| == |damaged|
    && forall k :: 0 <= k < |lines| ==>
         Reportable(damaged[k]) && lines[k] == DamagedPart(damaged[k].partType.value, damaged[k].condition.value)
  }

  /** Reporting one more part in front extends the report by its line. */
  lemma ReportsEachCons(lines: seq<Line>, damaged: seq<Part>, p: Part)
    requires ReportsEach(lines, damaged) && Reportable(p)
    ensures ReportsEach([DamagedPart(p.partType.value, p.condition.value)] + lines, [p] + damaged)
  {
    var l := [DamagedPart(p.partType.value, p.condition.value)] + lines;
    forall k | 1 <= k < |l| ensures l[k] == lines[k - 1] && ([p] + damaged)[k] == damaged[k - 1] {}
  }

  /** When the condition stage does not throw, it reports the damaged parts,
      one line each, in list order. */
  lemma {:induction false} ConditionStageLines(parts: seq<Part>)
    ensures ConditionStage(parts).thrown.None? ==> ReportsEach(ConditionStage(parts).printed, DamagedParts(parts))
  {
    if parts != [] {
      ConditionStageLines(parts[1..]);
      var rest := ConditionStage(parts[1..]);
      if IsDamaged(parts[0]) && Reportable(parts[0]) && rest.thrown.None? {
        ReportsEachCons(rest.printed, DamagedParts(parts[1..]), parts[0]);
      }
    }
  }

  /** When the condition stage does not throw, it reports the damaged parts,
      one line each, in list order, and prints nothing exactly when no part is
      damaged. */
  lemma ConditionStageReports(parts: seq<Part>)
    ensures var s := ConditionStage(parts);
      s.thrown.None? ==>
        && |s.printed| == |DamagedParts(parts)|
        && (forall k :: 0 <= k < |s.printed| ==>
              Reportable(DamagedParts(parts)[k]) &&
              s.printed[k] == DamagedPart(DamagedParts(parts)[k].partType.value, DamagedParts(parts)[k].condition.value))
        && (s.printed == [] <==> forall p :: p in parts ==> !IsDamaged(p))
  {
    ConditionStageLines(parts);
    var damaged := DamagedParts(parts);
    if damaged != [] {
      DamagedPartsMembers(parts, damaged[0]);
    }
    forall p | p in parts && IsDamaged(p) ensures damaged != [] {
      DamagedPartsMembers(parts, p);
    }
  }

  /** The condition stage throws exactly when some damaged part has a null
      type or condition. Otherwise it reports the damaged parts, one line
      each, in list order, and fails exactly when some part is damaged. */
  lemma ConditionStageFindings(parts: seq<Part>)
    ensures var s := ConditionStage(parts);
      && (forall l :: l in s.printed ==> l.DamagedPart?)
      && (s.thrown.Some? <==> exists p :: p in parts && IsDamaged(p) && !Reportable(p))
      && (s.thrown.None? ==>
            && |s.printed| == |DamagedParts(parts)|
            && forall k :: 0 <= k < |s.printed| ==>
                 Reportable(DamagedParts(parts)[k]) &&
                 s.printed[k] == DamagedPart(DamagedParts(parts)[k].partType.value, DamagedParts(parts)[k].condition.value))
      && (s.thrown.None? ==> (s.printed == [] <==> forall p :: p in parts ==> !IsDamaged(p)))
  {
    ConditionStageThrows(parts);
    ConditionStageReports(parts);
  }

  /** When the condition stage throws, it throws at the first damaged part
      with a null type (null type first) or a null condition; what it printed
      is what the parts before that one print. */
  lemma {:induction false} ConditionStageThrowsAtFirst(parts: seq<Part>)
    requires ConditionStage(parts).thrown.Some?
    ensures exists k ::
      && 0 <= k < |parts| && IsDamaged(parts[k]) && !Reportable(parts[k])
      && ConditionStage(parts[..k]) == Stage(ConditionStage(parts).printed, None)
      && ConditionStage(parts).thrown == Some(if parts[k].partType.None? then NullPartType else NullCondition)
  {
    if IsDamaged(parts[0]) && !Reportable(parts[0]) {
      assert parts[..0] == [];
    } else {
      ConditionStageThrowsAtFirst(parts[1..]);
      var k :| 0 <= k < |parts[1..]| && IsDamaged(parts[1..][k]) && !Reportable(parts[1..][k]) &&
        ConditionStage(parts[1..][..k]) == Stage(ConditionStage(parts[1..]).printed, None) &&
        ConditionStage(parts[1..]).thrown == Some(if parts[1..][k].partType.None? then NullPartType else NullCondition);
      assert parts[..k + 1][1..] == parts[1..][..k];
      assert parts[..k + 1][0] == parts[0];
      assert parts[k + 1] == parts[1..][k];
    }
  }

  // ---------------------------------------------------------------------------
  // Whole runs
  // ---------------------------------------------------------------------------

  /** A run passes exactly when every attribute is present, the car has one
      engine, electrical part, fuel filter and oil filter and four tires, and
      no part is damaged; then the success line is all it prints. */
  lemma DiagnosePassesIff(year: Option<string>, make: Option<string>, model: Option<string>, parts: seq<Part>,
                          order: seq<PartType>)
    requires Enumerates(order, Census(parts).Keys)
    ensures var r := Diagnose(year, make, model, parts, order);
      && (r.outcome == Passed <==>
            && !Missing(year) && !Missing(make) && !Missing(model)
            && Count(parts, Engine) == 1 && Count(parts, Electrical) == 1 && Count(parts, FuelFilter) == 1
            && Count(parts, OilFilter) == 1 && Count(parts, Tire) == 4
            && forall p :: p in parts ==> !IsDamaged(p))
      && (r.outcome == Passed ==> r.lines == [PassedSuccessfully])
  {
    AttributeStageFindings(year, make, model);
    InventoryStageFindings(parts, order);
    ConditionStageFindings(parts);
    CensusEmptyIff(parts);
    if Census(parts) == map[] {
      forall t | t in RequiredTypes ensures Count(parts, t) != 0 {
        CensusEntries(parts, t);
      }
    }
  }

  /** "Exiting..." is printed exactly on a failure, as the last line after at
      least one finding; the success line is printed exactly on a pass; an
      exception prints neither. */
  lemma DiagnoseStatusLines(year: Option<string>, make: Option<string>, model: Option<string>, parts: seq<Part>,
                            order: seq<PartType>)
    requires Enumerates(order, Census(parts).Keys)
    ensures var r := Diagnose(year, make, model, parts, order);
      && (Exiting in r.lines <==> r.outcome == Failed)
      && (PassedSuccessfully in r.lines <==> r.outcome == Passed)
      && (r.outcome == Failed ==> |r.lines| >= 2 && r.lines[|r.lines| - 1] == Exiting)
  {
    AttributeStageFindings(year, make, model);
    InventoryScanPrintsFindings(Census(parts), order);
    ConditionStageThrows(parts);
    CombineStatusLines(AttributeStage(year, make, model), InventoryScan(Census(parts), order),
                       ConditionStage(parts));
  }

  /** The status lines of a run follow from its policy alone, whatever its
      stages found, as long as the stages print findings only. */
  lemma CombineStatusLines(attributes: seq<Line>, inventory: Stage, condition: Stage)
    requires forall l :: l in attributes ==> !l.Exiting? && !l.PassedSuccessfully?
    requires forall l :: l in inventory.printed ==> !l.Exiting? && !l.PassedSuccessfully?
    requires forall l :: l in condition.printed ==> !l.Exiting? && !l.PassedSuccessfully?
    ensures var r := Combine(attributes, inventory, condition);
      && (Exiting in r.lines <==> r.outcome == Failed)
      && (PassedSuccessfully in r.lines <==> r.outcome == Passed)
      && (r.outcome == Failed ==> |r.lines| >= 2 && r.lines[|r.lines| - 1] == Exiting)
  {
    var r := Combine(attributes, inventory, condition);
    if attributes != [] {
      FindingsThenStatus(attributes, r.outcome);
    } else if inventory.thrown.Some? || inventory.printed != [] {
      FindingsThenStatus(inventory.printed, r.outcome);
    } else if condition.thrown.Some? || condition.printed != [] {
      FindingsThenStatus(condition.printed, r.outcome);
    }
  }

  /** Findings followed by "Exiting..." after a failure, or by nothing after
      an exception, hold a status line exactly when the run failed. */
  lemma FindingsThenStatus(findings: seq<Line>, outcome: Outcome)
    requires forall l :: l in findings ==> !l.Exiting? && !l.PassedSuccessfully?
    requires outcome == Failed ==> findings != []
    ensures var lines := findings + (if outcome == Failed then [Exiting] else []);
      && (Exiting in lines <==> outcome == Failed)
      && PassedSuccessfully !in lines
      && (outcome == Failed ==> |lines| >= 2 && lines[|lines| - 1] == Exiting)
  {
  }

  /** When an attribute is missing, the run fails after the attribute stage:
      it prints only attribute findings and "Exiting...", so neither part check
      runs. */
  lemma DiagnoseStopsAfterAttributes(year: Option<string>, make: Option<string>, model: Option<string>,
                                     parts: seq<Part>, order: seq<PartType>)
    requires Enumerates(order, Census(parts).Keys)
    requires Missing(year) || Missing(make) || Missing(model)
    ensures var r := Diagnose(year, make, model, parts, order);
      && r.outcome == Failed
      && r.lines[..|r.lines| - 1] == AttributeStage(year, make, model)
      && forall l :: l in r.lines ==> l.MissingAttribute? || l == Exiting
  {
    AttributeStageFindings(year, make, model);
  }

  /** With every attribute present and no required type absent, but some
      count off, the run fails after the inventory stage: it prints each
      census entry once with its actual count, then "Exiting...", and no
      condition finding. */
  lemma DiagnoseStopsAfterInventory(year: Option<string>, make: Option<string>, model: Option<string>,
                                    parts: seq<Part>, order: seq<PartType>)
    requires Enumerates(order, Census(parts).Keys)
    requires !Missing(year) && !Missing(make) && !Missing(model)
    requires Census(parts) != map[]
    requires forall t :: t in RequiredTypes ==> Count(parts, t) > 0
    ensures var r := Diagnose(year, make, model, parts, order);
      && r.outcome == Failed
      && r.lines[|r.lines| - 1] == Exiting
      && (forall t :: t in Census(parts) ==> MissingPart(t, Count(parts, t)) in r.lines)
      && (forall l :: l in r.lines[..|r.lines| - 1] ==>
            l.MissingPart? && l.partType in Census(parts) && l.count == Count(parts, l.partType))
  {
    AttributeStageFindings(year, make, model);
    InventoryStageFindings(parts, order);
    var s := InventoryScan(Census(parts), order);
    var r := Diagnose(year, make, model, parts, order);
    assert r.lines[..|r.lines| - 1] == s.printed;
  }

  /** With every attribute present and the census empty, the run ends in the
      condition stage: if no damaged part has a null type or condition, and
      some part is damaged, it fails after reporting each damaged part in list
      order. */
  lemma DiagnoseStopsAfterCondition(year: Option<string>, make: Option<string>, model: Option<string>,
                                    parts: seq<Part>, order: seq<PartType>)
    requires Enumerates(order, Census(parts).Keys)
    requires !Missing(year) && !Missing(make) && !Missing(model)
    requires Census(parts) == map[]
    requires forall p :: p in parts && IsDamaged(p) ==> Reportable(p)
    requires exists p :: p in parts && IsDamaged(p)
    ensures var r := Diagnose(year, make, model, parts, order);
      && r.outcome == Failed
      && |r.lines| == |DamagedParts(parts)| + 1
      && r.lines[|r.lines| - 1] == Exiting
      && forall k :: 0 <= k < |DamagedParts(parts)| ==>
           Reportable(DamagedParts(parts)[k]) &&
           r.lines[k] == DamagedPart(DamagedParts(parts)[k].partType.value, DamagedParts(parts)[k].condition.value)
  {
    AttributeStageFindings(year, make, model);
    InventoryStageFindings(parts, order);
    ConditionStageFindings(parts);
  }

  /** The missing-part report throws exactly when every attribute is present
      and some required type is entirely absent (its census count is 0). */
  lemma DiagnoseRejectsZeroCount(year: Option<string>, make: Option<string>, model: Option<string>,
                                 parts: seq<Part>, order: seq<PartType>)
    requires Enumerates(order, Census(parts).Keys)
    ensures var r := Diagnose(year, make, model, parts, order);
      r.outcome == InvalidArgument(NonPositiveCount) <==>
        !Missing(year) && !Missing(make) && !Missing(model) &&
        exists t :: t in RequiredTypes && Count(parts, t) == 0
  {
    if AttributeStage(year, make, model) == [] {
      AttributeStageFindings(year, make, model);
      InventoryStageFindings(parts, order);
      if InventoryScan(Census(parts), order).thrown.None? && ConditionStage(parts).thrown.Some? {
        ConditionStageThrowsAtFirst(parts);
      }
    } else {
      AttributeStageFindings(year, make, model);
    }
  }

  /** The damaged-part report throws exactly when every attribute is present,
      the census is empty and some damaged part has a null type or condition. */
  lemma DiagnoseRejectsUnreportablePart(year: Option<string>, make: Option<string>, model: Option<string>,
                                        parts: seq<Part>, order: seq<PartType>)
    requires Enumerates(order, Census(parts).Keys)
    ensures var r := Diagnose(year, make, model, parts, order);
      r.outcome.InvalidArgument? && r.outcome.error != NonPositiveCount <==>
        !Missing(year) && !Missing(make) && !Missing(model) && Census(parts) == map[] &&
        exists p :: p in parts && IsDamaged(p) && !Reportable(p)
  {
    AttributeStageFindings(year, make, model);
    if AttributeStage(year, make, model) == [] {
      InventoryStageFindings(parts, order);
      if Census(parts) == map[] {
        ConditionStageFindings(parts);
        if ConditionStage(parts).thrown.Some? {
          ConditionStageThrowsAtFirst(parts);
        }
      }
    }
  }

  /** In a duplicate-free sequence every element occurs once. */
  lemma {:induction false} DistinctMultiplicity<T>(s: seq<T>, x: T)
    requires forall i, j :: 0 <= i < j < |s| ==> s[i] != s[j]
    ensures multiset(s)[x] == if x in s then 1 else 0
  {
    if s != [] {
      assert s == [s[0]] + s[1..];
      DistinctMultiplicity(s[1..], x);
    }
  }

  /** Two duplicate-free sequences with the same elements are permutations. */
  lemma DistinctPermutation<T>(a: seq<T>, b: seq<T>)
    requires forall i, j :: 0 <= i < j < |a| ==> a[i] != a[j]
    requires forall i, j :: 0 <= i < j < |b| ==> b[i] != b[j]
    requires forall x :: x in a <==> x in b
    ensures multiset(a) == multiset(b)
  {
    forall x ensures multiset(a)[x] == multiset(b)[x] {
      DistinctMultiplicity(a, x);
      DistinctMultiplicity(b, x);
    }
  }

  /** The iteration order of the census changes neither the outcome nor,
      unless the inventory stage throws, which lines are printed. */
  lemma DiagnoseOrderIndependent(year: Option<string>, make: Option<string>, model: Option<string>,
                                 parts: seq<Part>, order1: seq<PartType>, order2: seq<PartType>)
    requires Enumerates(order1, Census(parts).Keys)
    requires Enumerates(order2, Census(parts).Keys)
    ensures var r1 := Diagnose(year, make, model, parts, order1);
      var r2 := Diagnose(year, make, model, parts, order2);
      && r1.outcome == r2.outcome
      && (r1.outcome != InvalidArgument(NonPositiveCount) ==> multiset(r1.lines) == multiset(r2.lines))
  {
    InventoryStageFindings(parts, order1);
    InventoryStageFindings(parts, order2);
    var s1 := InventoryScan(Census(parts), order1);
    var s2 := InventoryScan(Census(parts), order2);
    if s1.thrown.None? {
      forall l ensures l in s1.printed <==> l in s2.printed {
        if l in s1.printed {
          assert l == MissingPart(l.partType, Count(parts, l.partType));
        }
        if l in s2.printed {
          assert l == MissingPart(l.partType, Count(parts, l.partType));
        }
      }
      DistinctPermutation(s1.printed, s2.printed);
    }
  }

  // ---------------------------------------------------------------------------
  // Console text
  // ---------------------------------------------------------------------------

  function PartTypeName(t: PartType): string
  {
    match t
    case Engine => "ENGINE"
    case Electrical => "ELECTRICAL"
    case FuelFilter => "FUEL_FILTER"
    case OilFilter => "OIL_FILTER"
    case Tire => "TIRE"
    case Other => "OTHER"
  }

  function ConditionName(c: ConditionType): string
  {
    match c
    case New => "NEW"
    case Good => "GOOD"
    case Worn => "WORN"
    case Damaged => "DAMAGED"
    case Flat => "FLAT"
  }

  /** The decimal digits of `n`, as String.format's %s writes an Integer. */
  function Decimal(n: nat): string
  {
    if n < 10 then [(48 + n) as char] else Decimal(n / 10) + [(48 + n % 10) as char]
  }

  /** The text of a console line. */
  function Text(line: Line): string
  {
    match line
    case MissingAttribute(Year) => "Missing Year Detected"
    case MissingAttribute(Make) => "Missing Make Detected"
    case MissingAttribute(Model) => "Missing Model Detected"
    case MissingPart(t, n) => "Missing Part(s) Detected: " + PartTypeName(t) + " - Count: " + Decimal(n)
    case DamagedPart(t, c) => "Damaged Part Detected: " + PartTypeName(t) + " - Condition: " + ConditionName(c)
    case Exiting => "Exiting..."
    case PassedSuccessfully => "Diagnostics passed successfully"
  }
}
