/** The scheduling model of backend/scheduler.py: the lookups `GroupScheduler`
    makes into the student data, the number of group slots, and the
    constraint system `schedule()` hands to the CP-SAT solver, written as a
    predicate over one boolean per solver variable. */
module Scheduler {
  import opened Wrappers
  import opened Text
  import opened Dict
  import opened Students
  import opened Constraints
  import opened Indices

  /** A value for every solver variable: `inGroup[s][g]` is
      `student_in_group[s][g]`, `usesTime[g][t]` is `group_uses_time[g][t]`,
      `active[g]` is `group_active[g]`, and `hasStudents[c][g]` is the
      `group_has_students` indicator created for combined bound `c` and
      slot `g` (meaningful only for the combined bounds that have a min). */
  datatype Valuation = Valuation(inGroup: seq<seq<bool>>, usesTime: seq<seq<bool>>,
                                 active: seq<bool>, hasStudents: seq<seq<bool>>)

  function Min(a: int, b: int): int {
    if a <= b then a else b
  }

  /** Lines 39-41 on one attribute record: `str(int(attr_data.get(attribute, 0))) == '1'`;
      `None` stands for the ValueError `int()` raises on a value that is not
      an integer literal. */
  function RecordAttribute(rec: Record, attr: string): Option<bool> {
    match Get(rec, attr)
    case None => Some(IntToStr(0) == "1")
    case Some(value) =>
      match ParseInt(value)
      case None => None
      case Some(n) => Some(IntToStr(n) == "1")
  }

  /** `any(... for attr in attrs)` of the attribute tests on one record,
      stopping at the first true test and raising at the first raising one. */
  function RecordAny(rec: Record, attrs: seq<string>): Option<bool> {
    if attrs == [] then Some(false)
    else
      match RecordAttribute(rec, attrs[0])
      case None => None
      case Some(true) => Some(true)
      case Some(false) => RecordAny(rec, attrs[1..])
  }

  datatype GroupScheduler = GroupScheduler(data: StudentData, constraints: SchedulingConstraints) {

    /** The constructor reads the keys of the first availability record. */
    predicate Valid() {
      |data.availabilities| >= 1
    }

    function NumStudents(): nat {
      |data.names|
    }

    /** `_extract_time_slots`: the keys of the first student's availability record. */
    function TimeSlots(): (slots: seq<string>)
      requires Valid()
      ensures |slots| == |data.availabilities[0]|
      ensures forall t :: 0 <= t < |slots| ==> slots[t] == data.availabilities[0][t].0
    {
      Keys(data.availabilities[0])
    }

    /** `_get_student_availability`: `str(avail_data.get(time_slot, 0)) == '1'`,
        false for an index past the availability records. */
    function StudentAvailability(idx: nat, slot: string): (r: bool)
      ensures idx >= |data.availabilities| ==> !r
      ensures idx < |data.availabilities| && slot !in Keys(data.availabilities[idx]) ==> !r
      ensures r <==> idx < |data.availabilities| && Get(data.availabilities[idx], slot) == Some("1")
    {
      if idx >= |data.availabilities| then false
      else
        var value := Get(data.availabilities[idx], slot);
        (if value.Some? then value.value else IntToStr(0)) == "1"
    }

    /** `_get_student_attribute`: `str(int(attr_data.get(attribute, 0))) == '1'`,
        false for an index past the attribute records; `None` stands for the
        ValueError `int()` raises on a value that is not an integer literal. */
    function StudentAttribute(idx: nat, attr: string): Option<bool> {
      if idx >= |data.attributes| then Some(false)
      else RecordAttribute(data.attributes[idx], attr)
    }

    /** Student `idx`'s attribute record, or `{}` past the end (the record
        `_format_solution` lists, lines 181-182). */
    function AttributesOf(idx: nat): Record {
      if idx < |data.attributes| then data.attributes[idx] else []
    }

    /** The attribute tests read only the student's record: on `{}` every
        test is false, as the early return for an index past the end gives. */
    lemma {:induction false} RecordTests(idx: nat, attrs: seq<string>)
      ensures forall a :: StudentAttribute(idx, a) == RecordAttribute(AttributesOf(idx), a)
      ensures AnyAttribute(idx, attrs) == RecordAny(AttributesOf(idx), attrs)
    {
      IntToStrIsOne(0);
      if attrs != [] {
        RecordTests(idx, attrs[1..]);
      }
    }

    /** The attribute test holds exactly for a present value that `int()`
        reads as 1 (so "1", " 1", "01", "+1" all count), and raises exactly
        for a present value `int()` cannot read. */
    lemma AttributeMeansOne(idx: nat, attr: string)
      ensures StudentAttribute(idx, attr) == Some(true) <==>
                idx < |data.attributes| && Get(data.attributes[idx], attr).Some?
                && ParseInt(Get(data.attributes[idx], attr).value) == Some(1)
      ensures StudentAttribute(idx, attr).None? <==>
                idx < |data.attributes| && Get(data.attributes[idx], attr).Some?
                && ParseInt(Get(data.attributes[idx], attr).value).None?
    {
      IntToStrIsOne(0);
      if idx < |data.attributes| && Get(data.attributes[idx], attr).Some? {
        var p := ParseInt(Get(data.attributes[idx], attr).value);
        if p.Some? {
          IntToStrIsOne(p.value);
        }
      }
    }

    /** `any(self._get_student_attribute(s, attr) for attr in attrs)`, which
        stops at the first true test and raises at the first raising one. */
    function AnyAttribute(idx: nat, attrs: seq<string>): Option<bool> {
      if attrs == [] then Some(false)
      else
        match StudentAttribute(idx, attrs[0])
        case None => None
        case Some(true) => Some(true)
        case Some(false) => AnyAttribute(idx, attrs[1..])
    }

    /** When no listed attribute raises, the combined test is the disjunction
        of the attribute tests: a student counts once iff some listed
        attribute holds for them. */
    lemma {:induction false} AnyAttributeIsOr(idx: nat, attrs: seq<string>)
      requires forall a :: a in attrs ==> StudentAttribute(idx, a).Some?
      ensures AnyAttribute(idx, attrs).Some?
      ensures AnyAttribute(idx, attrs) == Some(true) <==> exists a :: a in attrs && StudentAttribute(idx, a) == Some(true)
    {
      if attrs != [] {
        assert forall a :: a in attrs[1..] ==> a in attrs;
        AnyAttributeIsOr(idx, attrs[1..]);
        assert forall a :: a in attrs <==> a == attrs[0] || a in attrs[1..];
      }
    }

    /** `max_groups` (line 50): `min(group_count_max, num_students)` when
        `group_count_max` is nonzero, otherwise `num_students`. */
    function MaxGroups(): int {
      if constraints.groupCountMax != 0 then Min(constraints.groupCountMax, NumStudents()) else NumStudents()
    }

    /** The number of group slots `range(max_groups)` creates. */
    function Slots(): nat {
      if MaxGroups() < 0 then 0 else MaxGroups()
    }

    /** There are never more slots than students, nor more than a positive
        group count maximum; with no maximum (or one at least the number of
        students) there is one slot per student. */
    lemma SlotCount()
      ensures Slots() <= NumStudents()
      ensures constraints.groupCountMax > 0 ==> Slots() <= constraints.groupCountMax
      ensures constraints.groupCountMax == 0 || constraints.groupCountMax >= NumStudents() ==> Slots() == NumStudents()
      ensures 0 < constraints.groupCountMax <= NumStudents() ==> Slots() == constraints.groupCountMax
      ensures constraints.groupCountMax < 0 ==> Slots() == 0
    {
    }

    /** The valuation has one variable for every pair the loops of lines
        53-69 create, and one indicator per combined bound and slot. */
    predicate Shape(v: Valuation)
      requires Valid()
    {
      && |v.inGroup| == NumStudents()
      && (forall s :: 0 <= s < |v.inGroup| ==> |v.inGroup[s]| == Slots())
      && |v.usesTime| == Slots()
      && (forall g :: 0 <= g < |v.usesTime| ==> |v.usesTime[g]| == |TimeSlots()|)
      && |v.active| == Slots()
      && |v.hasStudents| == |constraints.combined|
      && (forall c :: 0 <= c < |v.hasStudents| ==> |v.hasStudents[c]| == Slots())
    }

    /** `student_in_group[s][g]` for every student. */
    function Column(v: Valuation, g: nat): (col: seq<bool>)
      requires Valid() && Shape(v) && g < Slots()
      ensures |col| == NumStudents() && forall s :: 0 <= s < NumStudents() ==> col[s] == v.inGroup[s][g]
    {
      seq(NumStudents(), s requires 0 <= s < NumStudents() => v.inGroup[s][g])
    }

    /** The students of slot `g`, ascending. */
    function Members(v: Valuation, g: nat): seq<nat>
      requires Valid() && Shape(v) && g < Slots()
    {
      TrueIndices(Column(v, g))
    }

    /** A student is a member of a slot exactly when their `student_in_group` bit is set. */
    lemma MemberOf(v: Valuation, g: nat, s: nat)
      requires Valid() && Shape(v) && g < Slots() && s < NumStudents()
      ensures s in Members(v, g) <==> v.inGroup[s][g]
    {
    }

    /** `group_size` (lines 83 and 135). */
    function GroupSize(v: Valuation, g: nat): nat
      requires Valid() && Shape(v) && g < Slots()
    {
      Count(Column(v, g))
    }

    /** The members of slot `g` for whom `attr` holds (`group_attr_count`, line 113). */
    function AttributeColumn(v: Valuation, g: nat, attr: string): (col: seq<bool>)
      requires Valid() && Shape(v) && g < Slots()
      ensures |col| == NumStudents()
      ensures forall s :: 0 <= s < NumStudents() ==> col[s] == (v.inGroup[s][g] && StudentAttribute(s, attr) == Some(true))
    {
      seq(NumStudents(), s requires 0 <= s < NumStudents() => v.inGroup[s][g] && StudentAttribute(s, attr) == Some(true))
    }

    /** The members of slot `g` for whom some of `attrs` holds (`group_combined_count`, line 130). */
    function CombinedColumn(v: Valuation, g: nat, attrs: seq<string>): (col: seq<bool>)
      requires Valid() && Shape(v) && g < Slots()
      ensures |col| == NumStudents()
      ensures forall s :: 0 <= s < NumStudents() ==> col[s] == (v.inGroup[s][g] && AnyAttribute(s, attrs) == Some(true))
    {
      seq(NumStudents(), s requires 0 <= s < NumStudents() => v.inGroup[s][g] && AnyAttribute(s, attrs) == Some(true))
    }

    /** Constraint 1 (line 75): every student is in exactly one slot. */
    predicate OneGroupPerStudent(v: Valuation)
      requires Valid() && Shape(v)
    {
      forall s :: 0 <= s < NumStudents() ==> Count(v.inGroup[s]) == 1
    }

    /** Constraint 2 (line 79): an active slot uses exactly one time, an inactive one none. */
    predicate OneTimePerActiveGroup(v: Valuation)
      requires Valid() && Shape(v)
    {
      forall g :: 0 <= g < Slots() ==> Count(v.usesTime[g]) == if v.active[g] then 1 else 0
    }

    /** Constraint 3 (lines 86-91): an active slot's size is at least the
        minimum and, if the maximum is nonzero, at most the maximum; an
        inactive slot is empty. */
    predicate SizeBounds(v: Valuation)
      requires Valid() && Shape(v)
    {
      forall g :: 0 <= g < Slots() ==>
        && (v.active[g] ==> GroupSize(v, g) >= constraints.groupSizeMin)
        && (v.active[g] && constraints.groupSizeMax != 0 ==> GroupSize(v, g) <= constraints.groupSizeMax)
        && (!v.active[g] ==> GroupSize(v, g) == 0)
    }

    /** Constraint 4 (lines 95-98): the number of active slots is at least the
        minimum and, if the maximum is nonzero, at most the maximum. */
    predicate CountBounds(v: Valuation)
      requires Valid() && Shape(v)
    {
      && Count(v.active) >= constraints.groupCountMin
      && (constraints.groupCountMax != 0 ==> Count(v.active) <= constraints.groupCountMax)
    }

    /** Constraint 5 (lines 101-107): no student sits in a slot at a time they are not available. */
    predicate AvailabilityRespected(v: Valuation)
      requires Valid() && Shape(v)
    {
      forall s, g, t :: 0 <= s < NumStudents() && 0 <= g < Slots() && 0 <= t < |TimeSlots()| ==>
        !StudentAvailability(s, TimeSlots()[t]) ==> !(v.inGroup[s][g] && v.usesTime[g][t])
    }

    /** Constraint 6 (lines 110-121): in every active slot, the number of
        members with each bounded attribute lies within the bounds given. */
    predicate AttributeBoundsRespected(v: Valuation)
      requires Valid() && Shape(v)
    {
      forall i, g :: 0 <= i < |constraints.attributeBounds| && 0 <= g < Slots() && v.active[g] ==>
        var (attr, bound) := constraints.attributeBounds[i];
        && (bound.minPerGroup.Some? ==> Count(AttributeColumn(v, g, attr)) >= bound.minPerGroup.value)
        && (bound.maxPerGroup.Some? ==> Count(AttributeColumn(v, g, attr)) <= bound.maxPerGroup.value)
    }

    /** Constraint 7 (lines 124-144): a combined minimum binds through the
        `group_has_students` indicator (set iff the slot is nonempty), a
        combined maximum binds in every active slot. */
    predicate CombinedBoundsRespected(v: Valuation)
      requires Valid() && Shape(v)
    {
      forall c, g :: 0 <= c < |constraints.combined| && 0 <= g < Slots() ==>
        var bound := constraints.combined[c];
        var count := Count(CombinedColumn(v, g, bound.attributes));
        && (bound.min.Some? ==>
              && (v.hasStudents[c][g] ==> GroupSize(v, g) >= 1)
              && (!v.hasStudents[c][g] ==> GroupSize(v, g) == 0)
              && (v.hasStudents[c][g] ==> count >= bound.min.value))
        && (bound.max.Some? && v.active[g] ==> count <= bound.max.value)
    }

    /** Every constraint `schedule()` adds to the model holds. */
    predicate Satisfies(v: Valuation)
      requires Valid()
    {
      && Shape(v)
      && OneGroupPerStudent(v)
      && OneTimePerActiveGroup(v)
      && SizeBounds(v)
      && CountBounds(v)
      && AvailabilityRespected(v)
      && AttributeBoundsRespected(v)
      && CombinedBoundsRespected(v)
    }

    /** Building the model raises: some attribute test the constraint loops
        evaluate (only when there is at least one slot) meets a value `int()`
        cannot read. */
    predicate BuildRaises() {
      Slots() > 0 && (AttributeRaises() || CombinedRaises())
    }

    /** Some bounded attribute's test raises for some student. */
    predicate AttributeRaises() {
      exists i, s :: 0 <= i < |constraints.attributeBounds| && 0 <= s < NumStudents() &&
        StudentAttribute(s, constraints.attributeBounds[i].0).None?
    }

    /** Some combined bound's `any(...)` raises for some student. */
    predicate CombinedRaises() {
      exists c, s :: 0 <= c < |constraints.combined| && 0 <= s < NumStudents() &&
        AnyAttribute(s, constraints.combined[c].attributes).None?
    }

    // -------------------------------------------------------------------
    // What a satisfying valuation guarantees

    /** Every student is a member of exactly one slot, and that slot is active
        (the sum-equals-1 constraint together with "inactive implies empty"). */
    lemma StudentInOneActiveGroup(v: Valuation, s: nat)
      requires Valid() && Satisfies(v) && s < NumStudents()
      ensures exists g :: 0 <= g < Slots() && v.inGroup[s][g] && v.active[g]
                && forall h :: 0 <= h < Slots() && v.inGroup[s][h] ==> h == g
    {
      CountOne(v.inGroup[s]);
      var g :| 0 <= g < Slots() && v.inGroup[s][g] && forall h :: 0 <= h < Slots() && v.inGroup[s][h] ==> h == g;
      CountZero(Column(v, g));
      assert Column(v, g)[s];
    }

    /** A member of a slot is available at the slot's time: an active slot
        uses exactly one time, and the pairwise exclusions of constraint 5
        rule out every time the member is not available at. */
    lemma MembersAvailable(v: Valuation, g: nat, s: nat)
      requires Valid() && Satisfies(v) && g < Slots() && s < NumStudents() && v.inGroup[s][g]
      ensures v.active[g]
      ensures FirstTrue(v.usesTime[g], 0).Some?
      ensures StudentAvailability(s, TimeSlots()[FirstTrue(v.usesTime[g], 0).value])
    {
      StudentInOneActiveGroup(v, s);
      CountOne(v.usesTime[g]);
      var t := FirstTrue(v.usesTime[g], 0).value;
      assert v.inGroup[s][g] && v.usesTime[g][t];
    }

    /** The combined-minimum indicator is set exactly on the nonempty slots,
        so a combined minimum binds on every nonempty slot and on no empty
        one; when the size minimum is at least 1 those are the active slots. */
    lemma CombinedMinimumGuard(v: Valuation, c: nat, g: nat)
      requires Valid() && Satisfies(v) && c < |constraints.combined| && g < Slots()
      requires constraints.combined[c].min.Some?
      ensures v.hasStudents[c][g] <==> GroupSize(v, g) >= 1
      ensures constraints.groupSizeMin >= 1 ==> (v.hasStudents[c][g] <==> v.active[g])
    {
    }

    /** In an active slot of a satisfying valuation the combined count is at
        most a given `max`, and, once the slot is nonempty, at least a given `min`. */
    lemma CombinedBoundAt(v: Valuation, c: nat, g: nat)
      requires Valid() && Satisfies(v) && c < |constraints.combined| && g < Slots() && v.active[g]
      ensures constraints.combined[c].max.Some? ==>
                Count(CombinedColumn(v, g, constraints.combined[c].attributes)) <= constraints.combined[c].max.value
      ensures constraints.combined[c].min.Some? && GroupSize(v, g) >= 1 ==>
                Count(CombinedColumn(v, g, constraints.combined[c].attributes)) >= constraints.combined[c].min.value
    {
    }

    /** The combined count of a slot never exceeds its size, and, when no
        listed attribute raises, it is at least the count of any one listed
        attribute. */
    lemma CombinedCountBounds(v: Valuation, g: nat, attrs: seq<string>)
      requires Valid() && Shape(v) && g < Slots()
      ensures Count(CombinedColumn(v, g, attrs)) <= GroupSize(v, g)
      ensures (forall s, a :: 0 <= s < NumStudents() && a in attrs ==> StudentAttribute(s, a).Some?) ==>
                forall a :: a in attrs ==> Count(AttributeColumn(v, g, a)) <= Count(CombinedColumn(v, g, attrs))
    {
      CountMonotone(CombinedColumn(v, g, attrs), Column(v, g));
      if forall s, a :: 0 <= s < NumStudents() && a in attrs ==> StudentAttribute(s, a).Some? {
        forall a | a in attrs
          ensures Count(AttributeColumn(v, g, a)) <= Count(CombinedColumn(v, g, attrs))
        {
          forall s | 0 <= s < NumStudents()
            ensures AttributeColumn(v, g, a)[s] ==> CombinedColumn(v, g, attrs)[s]
          {
            AnyAttributeIsOr(s, attrs);
          }
          CountMonotone(AttributeColumn(v, g, a), CombinedColumn(v, g, attrs));
        }
      }
    }

    /** With no slot at all (a negative group count maximum, or no
        students), no student can be placed, so a nonempty roster is never
        satisfied. */
    lemma NoSlotsNoSolution(v: Valuation)
      requires Valid() && Slots() == 0 && NumStudents() > 0
      ensures !Satisfies(v)
    {
      if Satisfies(v) {
        CountZero(v.inGroup[0]);
      }
    }
  }
}
