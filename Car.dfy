/** The vehicle record: its part and condition enumerations, its parts, and
    the missing-parts census (domain/Car.java). */
module Domain {
  import opened Wrappers

  /** Part types. The five required ones are named; `Other` stands for any
      further recognised type, which takes no part in the census. */
  datatype PartType = Engine | Electrical | FuelFilter | OilFilter | Tire | Other

  /** Part conditions. NEW, GOOD and WORN are the working ones; the others
      are damaged. */
  datatype ConditionType = New | Good | Worn | Damaged | Flat

  /** One installed part. Either attribute may be null in the record. */
  datatype Part = Part(partType: Option<PartType>, condition: Option<ConditionType>)

  /** The part types the census checks. */
  const RequiredTypes: set<PartType> := {Engine, Electrical, FuelFilter, OilFilter, Tire}

  /** How many parts of a required type a complete car has. */
  function Required(t: PartType): nat
    requires t in RequiredTypes
  {
    if t == Tire then 4 else 1
  }

  /** The number of occurrences of `x` in `list` (java.util.Collections.frequency). */
  function Frequency<T(==)>(list: seq<T>, x: T): (n: nat)
    ensures n <= |list|
  {
    if list == [] then 0
    else (if list[0] == x then 1 else 0) + Frequency(list[1..], x)
  }

  /** The part types of `parts`, in order (possibly null). */
  function TypesOf(parts: seq<Part>): (r: seq<Option<PartType>>)
    ensures |r| == |parts|
  {
    if parts == [] then [] else [parts[0].partType] + TypesOf(parts[1..])
  }

  /** How many parts of `parts` have type `t`. */
  function Count(parts: seq<Part>, t: PartType): nat
  {
    Frequency(TypesOf(parts), Some(t))
  }

  /** The missing-parts census: every required type whose count differs from
      the requirement, mapped to its actual count (not the deficit). */
  function Census(parts: seq<Part>): map<PartType, nat>
  {
    map t | t in RequiredTypes && Count(parts, t) != Required(t) :: Count(parts, t)
  }

  /** The vehicle record. Its fields are filled in from the XML document; the
      attributes and the part types inside it may be null. */
  class Car {
    var year: Option<string>
    var make: Option<string>
    var model: Option<string>
    var parts: seq<Part>

    /** A populated record, as the unmarshaller leaves it. */
    constructor (year: Option<string>, make: Option<string>, model: Option<string>, parts: seq<Part>)
      ensures this.year == year && this.make == make && this.model == model && this.parts == parts
    {
      this.year := year;
      this.make := make;
      this.model := model;
      this.parts := parts;
    }

    /** Collects the part types into a list, counts each required type in it,
        and puts every count that differs from the requirement into the map.
        It has no modifies clause: the record is left as it was. */
    method GetMissingPartsMap() returns (missingPartsMap: map<PartType, nat>)
      ensures forall t :: t in missingPartsMap <==> t in RequiredTypes && Count(parts, t) != Required(t)
      ensures forall t :: t in missingPartsMap ==> missingPartsMap[t] == Count(parts, t)
      ensures missingPartsMap == Census(parts)
    {
      missingPartsMap := map[];

      var partTypeList: seq<Option<PartType>> := [];
      for i := 0 to |parts|
        invariant partTypeList == TypesOf(parts[..i])
      {
        TypesOfSnoc(parts[..i], parts[i]);
        assert parts[..i + 1] == parts[..i] + [parts[i]];
        partTypeList := partTypeList + [parts[i].partType];
      }
      assert parts[..|parts|] == parts;
      assert partTypeList == TypesOf(parts);

      var numberOfEngines := Frequency(partTypeList, Some(Engine));
      if numberOfEngines != 1 {
        missingPartsMap := missingPartsMap[Engine := numberOfEngines];
      }

      var numberOfElectricals := Frequency(partTypeList, Some(Electrical));
      if numberOfElectricals != 1 {
        missingPartsMap := missingPartsMap[Electrical := numberOfElectricals];
      }

      var numberOfFuelFilters := Frequency(partTypeList, Some(FuelFilter));
      if numberOfFuelFilters != 1 {
        missingPartsMap := missingPartsMap[FuelFilter := numberOfFuelFilters];
      }

      var numberOfOilFilters := Frequency(partTypeList, Some(OilFilter));
      if numberOfOilFilters != 1 {
        missingPartsMap := missingPartsMap[OilFilter := numberOfOilFilters];
      }

      var numberOfTires := Frequency(partTypeList, Some(Tire));
      if numberOfTires != 4 {
        missingPartsMap := missingPartsMap[Tire := numberOfTires];
      }
      forall t
        ensures t in missingPartsMap <==> t in RequiredTypes && Count(parts, t) != Required(t)
        ensures t in missingPartsMap ==> missingPartsMap[t] == Count(parts, t)
      {
        match t
        case Engine =>
        case Electrical =>
        case FuelFilter =>
        case OilFilter =>
        case Tire =>
        case Other =>
      }
      CensusFromEntries(parts, missingPartsMap);
    }
  }

  /** Frequency agrees with the multiplicity of `x` in the multiset of `list`. */
  lemma {:induction false} FrequencyIsMultiplicity<T>(list: seq<T>, x: T)
    ensures Frequency(list, x) == multiset(list)[x]
  {
    if list != [] {
      assert list == [list[0]] + list[1..];
      FrequencyIsMultiplicity(list[1..], x);
    }
  }

  /** The type list of a concatenation is the concatenation of the type lists. */
  lemma {:induction false} TypesOfConcat(a: seq<Part>, b: seq<Part>)
    ensures TypesOf(a + b) == TypesOf(a) + TypesOf(b)
  {
    if a == [] {
      assert a + b == b;
    } else {
      assert (a + b)[0] == a[0];
      assert (a + b)[1..] == a[1..] + b;
      TypesOfConcat(a[1..], b);
    }
  }

  /** The i-th entry of the type list is the type of the i-th part. */
  lemma {:induction false} TypesOfAt(parts: seq<Part>, i: nat)
    requires i < |parts|
    ensures TypesOf(parts)[i] == parts[i].partType
  {
    if i > 0 {
      TypesOfAt(parts[1..], i - 1);
    }
  }

  /** Appending a part appends its type. */
  lemma TypesOfSnoc(parts: seq<Part>, p: Part)
    ensures TypesOf(parts + [p]) == TypesOf(parts) + [p.partType]
  {
    TypesOfConcat(parts, [p]);
  }

  /** Counting is additive over concatenation. */
  lemma CountConcat(a: seq<Part>, b: seq<Part>, t: PartType)
    ensures Count(a + b, t) == Count(a, t) + Count(b, t)
  {
    TypesOfConcat(a, b);
    FrequencyIsMultiplicity(TypesOf(a + b), Some(t));
    FrequencyIsMultiplicity(TypesOf(a), Some(t));
    FrequencyIsMultiplicity(TypesOf(b), Some(t));
  }

  /** An entry that appears nowhere else in the list occurs once. */
  lemma FrequencyOnce<T>(list: seq<T>, i: nat)
    requires i < |list| && forall j :: 0 <= j < |list| && j != i ==> list[j] != list[i]
    ensures Frequency(list, list[i]) == 1
  {
    FrequencyIsMultiplicity(list, list[i]);
    assert list == list[..i] + [list[i]] + list[i + 1..];
    assert list[i] !in list[..i] && list[i] !in list[i + 1..];
  }

  /** The bag of a list is the bag without the entry at `i`, plus that entry. */
  lemma MultisetSplitAt<T>(s: seq<T>, i: nat)
    requires i < |s|
    ensures multiset(s) == multiset(s[..i] + s[i + 1..]) + multiset{s[i]}
  {
    var front, back := s[..i], s[i + 1..];
    assert s == front + [s[i]] + back;
    assert multiset(s) == multiset(front) + multiset{s[i]} + multiset(back);
    assert multiset(front + back) == multiset(front) + multiset(back);
  }

  /** Removing the head of one list and an equal entry of a permutation of
      it leaves two permutations of each other. */
  lemma MultisetRemoveMatch<T>(p1: seq<T>, p2: seq<T>, i: nat)
    requires multiset(p1) == multiset(p2) && p1 != [] && i < |p2| && p2[i] == p1[0]
    ensures multiset(p1[1..]) == multiset(p2[..i] + p2[i + 1..])
  {
    var x, tail, rest := p1[0], p1[1..], p2[..i] + p2[i + 1..];
    MultisetSplitAt(p1, 0);
    assert p1[..0] + p1[1..] == tail;
    MultisetSplitAt(p2, i);
    assert multiset(tail) + multiset{x} == multiset(rest) + multiset{x};
    forall y ensures multiset(tail)[y] == multiset(rest)[y] {
      assert (multiset(tail) + multiset{x})[y] == (multiset(rest) + multiset{x})[y];
    }
  }

  /** The count of a list is the count without the part at `i`, plus that
      part's own contribution. */
  lemma CountSplitAt(s: seq<Part>, i: nat, t: PartType)
    requires i < |s|
    ensures Count(s, t) == (if s[i].partType == Some(t) then 1 else 0) + Count(s[..i] + s[i + 1..], t)
  {
    var front, back := s[..i], s[i + 1..];
    var middle := [s[i]] + back;
    assert s == front + middle;
    assert middle[0] == s[i] && middle[1..] == back;
    assert TypesOf(middle) == [s[i].partType] + TypesOf(back);
    CountConcat(front, middle, t);
    CountConcat(front, back, t);
  }

  /** Two part lists that are permutations of each other hold as many parts
      of each type. */
  lemma {:induction false} CountPermutation(p1: seq<Part>, p2: seq<Part>, t: PartType)
    requires multiset(p1) == multiset(p2)
    ensures Count(p1, t) == Count(p2, t)
  {
    if p1 == [] {
      assert |p2| == |multiset(p2)| == 0;
    } else {
      var x := p1[0];
      assert x in multiset(p2);
      var i :| 0 <= i < |p2| && p2[i] == x;
      MultisetRemoveMatch(p1, p2, i);
      CountPermutation(p1[1..], p2[..i] + p2[i + 1..], t);
      CountSplitAt(p2, i, t);
      CountSplitAt(p1, 0, t);
      assert p1[..0] + p1[1..] == p1[1..];
    }
  }

  /** A map that has exactly the census's keys and values is the census. */
  lemma CensusFromEntries(parts: seq<Part>, m: map<PartType, nat>)
    requires forall t :: t in m <==> t in RequiredTypes && Count(parts, t) != Required(t)
    requires forall t :: t in m ==> m[t] == Count(parts, t)
    ensures m == Census(parts)
  {
    assert m.Keys == Census(parts).Keys;
  }

  /** Two part lists with the same required-type counts have the same census. */
  lemma CensusOfSameCounts(p1: seq<Part>, p2: seq<Part>)
    requires forall t :: t in RequiredTypes ==> Count(p1, t) == Count(p2, t)
    ensures Census(p1) == Census(p2)
  {
    assert Census(p1).Keys == Census(p2).Keys;
  }

  /** Every census key is a required type whose count is off, with the actual
      count as its value; every required type whose count is off is a key. */
  lemma CensusEntries(parts: seq<Part>, t: PartType)
    ensures t in Census(parts) <==> t in RequiredTypes && Count(parts, t) != Required(t)
    ensures t in Census(parts) ==> Census(parts)[t] == Count(parts, t)
    ensures t in Census(parts) ==> Census(parts)[t] <= |parts|
    ensures t == Other ==> t !in Census(parts)
  {
  }

  /** The census depends only on the multiset of parts, not on their order. */
  lemma CensusPermutation(p1: seq<Part>, p2: seq<Part>)
    requires multiset(p1) == multiset(p2)
    ensures Census(p1) == Census(p2)
  {
    forall t | t in RequiredTypes ensures Count(p1, t) == Count(p2, t) {
      CountPermutation(p1, p2, t);
    }
    CensusOfSameCounts(p1, p2);
  }

  /** A part whose type is null or not a required type changes no count. */
  lemma CensusIgnoresUncountedParts(parts: seq<Part>, p: Part)
    requires p.partType == None || p.partType == Some(Other)
    ensures Census(parts + [p]) == Census(parts)
  {
    forall t | t in RequiredTypes
      ensures Count(parts + [p], t) == Count(parts, t)
    {
      CountConcat(parts, [p], t);
    }
    CensusOfSameCounts(parts + [p], parts);
  }

  /** An empty parts list lacks every required type: all five map to 0. */
  lemma CensusOfNoParts()
    ensures Census([]) == map[Engine := 0, Electrical := 0, FuelFilter := 0, OilFilter := 0, Tire := 0]
  {
  }

  /** The census is empty exactly when the car has one of each single part
      and four tires. */
  lemma CensusEmptyIff(parts: seq<Part>)
    ensures Census(parts) == map[] <==>
      Count(parts, Engine) == 1 && Count(parts, Electrical) == 1 && Count(parts, FuelFilter) == 1 &&
      Count(parts, OilFilter) == 1 && Count(parts, Tire) == 4
  {
    if Census(parts) == map[] {
      forall t | t in RequiredTypes ensures Count(parts, t) == Required(t) {
        assert t !in Census(parts);
      }
    }
  }

  /** A car that is correct except for its tire count reports only the tires. */
  lemma CensusOnlyTiresOff(parts: seq<Part>)
    requires Count(parts, Engine) == 1 && Count(parts, Electrical) == 1
    requires Count(parts, FuelFilter) == 1 && Count(parts, OilFilter) == 1
    requires Count(parts, Tire) != 4
    ensures Census(parts) == map[Tire := Count(parts, Tire)]
  {
  }

  /** One each of the single parts and three tires: a car one tire short. */
  const ThreeTireParts: seq<Part> :=
    [Part(Some(Engine), Some(Good)), Part(Some(Electrical), Some(Good)),
     Part(Some(FuelFilter), Some(Good)), Part(Some(OilFilter), Some(Good)),
     Part(Some(Tire), Some(Good)), Part(Some(Tire), Some(Good)), Part(Some(Tire), Some(Good))]

  /** The type list of the three-tire example. */
  lemma ThreeTireTypes()
    ensures TypesOf(ThreeTireParts) == ThreeTireTypeList
  {
    forall i | 0 <= i < |ThreeTireParts| ensures TypesOf(ThreeTireParts)[i] == ThreeTireTypeList[i] {
      TypesOfAt(ThreeTireParts, i);
    }
  }

  /** The type list of the three-tire example, as a literal. */
  const ThreeTireTypeList: seq<Option<PartType>> :=
    [Some(Engine), Some(Electrical), Some(FuelFilter), Some(OilFilter), Some(Tire), Some(Tire), Some(Tire)]

  /** The three-tire example holds one part of each single type. */
  lemma ThreeTireSingleCounts()
    ensures Count(ThreeTireParts, Engine) == 1 && Count(ThreeTireParts, Electrical) == 1
    ensures Count(ThreeTireParts, FuelFilter) == 1 && Count(ThreeTireParts, OilFilter) == 1
  {
    ThreeTireTypes();
    var l := ThreeTireTypeList;
    FrequencyOnce(l, 0);
    FrequencyOnce(l, 1);
    FrequencyOnce(l, 2);
    FrequencyOnce(l, 3);
  }

  /** The three-tire example holds three tires. */
  lemma ThreeTireTireCount()
    ensures Count(ThreeTireParts, Tire) == 3
  {
    ThreeTireTypes();
    assert Frequency(ThreeTireTypeList, Some(Tire)) == 3;
  }

  /** The census of a car with three tires is exactly {TIRE: 3}: the value is
      the number of tires present. */
  lemma CensusThreeTires()
    ensures Census(ThreeTireParts) == map[Tire := 3]
  {
    ThreeTireSingleCounts();
    ThreeTireTireCount();
    CensusOnlyTiresOff(ThreeTireParts);
  }

  /** The car of the example in the comment of getMissingPartsMap: one each of
      the single parts and one tire, so three of the four tires missing. */
  const OneTireParts: seq<Part> := ThreeTireParts[..5]

  /** The two tires that the three-tire car has beyond the one-tire car. */
  lemma ThreeTiresSplit()
    ensures ThreeTireParts == OneTireParts + ThreeTireParts[5..]
    ensures forall p :: p in ThreeTireParts[5..] ==> p.partType == Some(Tire)
    ensures |ThreeTireParts[5..]| == 2
  {
  }

  /** Taking two tires off a car that is three tires short of nothing else
      leaves {TIRE: 1}. */
  lemma CensusWithoutTwoTires(rest: seq<Part>, extra: seq<Part>)
    requires Census(rest + extra) == map[Tire := 3]
    requires TypesOf(extra) == [Some(Tire), Some(Tire)]
    ensures Census(rest) == map[Tire := 1]
  {
    forall t | t in RequiredTypes
      ensures Count(rest, t) == Count(rest + extra, t) - (if t == Tire then 2 else 0)
    {
      CountConcat(rest, extra, t);
      assert Count(extra, t) == Frequency([Some(Tire), Some(Tire)], Some(t));
    }
    forall t | t in RequiredTypes ensures Count(rest + extra, t) == (if t == Tire then 3 else 1) {
      CensusEntries(rest + extra, t);
    }
    CensusOnlyTiresOff(rest);
  }

  /** The census of the one-tire car is exactly {TIRE: 1}: the code maps the
      tire type to the count present, where the comment's example expects the
      count missing, {TIRE: 3}. */
  lemma CensusOneTire()
    ensures Census(OneTireParts) == map[Tire := 1]
    ensures Census(OneTireParts) != map[Tire := 3]
  {
    ThreeTiresSplit();
    var extra := ThreeTireParts[5..];
    assert TypesOf(extra) == [Some(Tire), Some(Tire)] by {
      TypesOfAt(extra, 0);
      TypesOfAt(extra, 1);
    }
    assert Census(OneTireParts + extra) == map[Tire := 3] by { CensusThreeTires(); }
    CensusWithoutTwoTires(OneTireParts, extra);
    assert map[Tire := 1][Tire] != map[Tire := 3][Tire];
  }
}
