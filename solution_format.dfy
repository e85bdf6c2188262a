/** `_format_solution` of backend/scheduler.py: the groups read back from a
    solver valuation, and the guarantees the output has when the valuation
    satisfies the constraint system. */
module SolutionFormat {
  import opened Wrappers
  import opened Dict
  import opened Students
  import opened Constraints
  import opened Indices
  import opened Scheduler

  /** One entry of a group's `students` list. */
  datatype StudentOut = StudentOut(name: Name, attributes: Record, availabilities: Record)

  /** One entry of `groups`. */
  datatype GroupOut = GroupOut(groupId: int, timeSlot: string, students: seq<StudentOut>, size: int)

  /** The result dictionary, without the two range fields read from the
      constraint object's getters. */
  datatype Solution = Solution(groups: seq<GroupOut>, constraintsApplied: Dict<AttrBound>,
                               totalStudents: nat, totalGroups: nat)

  const NOT_ASSIGNED := "Not assigned"

  /** The record of student `s`, with `{}` for a missing attribute or availability record. */
  function StudentEntry(sched: GroupScheduler, s: nat): (e: StudentOut)
    requires s < sched.NumStudents()
    ensures e.name == sched.data.names[s]
    ensures e.attributes == if s < |sched.data.attributes| then sched.data.attributes[s] else []
    ensures e.availabilities == if s < |sched.data.availabilities| then sched.data.availabilities[s] else []
  {
    StudentOut(sched.data.names[s],
               if s < |sched.data.attributes| then sched.data.attributes[s] else [],
               if s < |sched.data.availabilities| then sched.data.availabilities[s] else [])
  }

  function Entries(sched: GroupScheduler, members: seq<nat>): (r: seq<StudentOut>)
    requires IndicesBelow(members, sched.NumStudents())
    ensures |r| == |members| && forall k :: 0 <= k < |members| ==> r[k] == StudentEntry(sched, members[k])
  {
    seq(|members|, k requires 0 <= k < |members| => StudentEntry(sched, members[k]))
  }

  /** The label of slot `g`: the time of its first set `uses_time` bit, or "Not assigned". */
  function SlotLabel(sched: GroupScheduler, v: Valuation, g: nat): string
    requires sched.Valid() && sched.Shape(v) && g < sched.Slots()
  {
    match FirstTrue(v.usesTime[g], 0)
    case None => NOT_ASSIGNED
    case Some(t) => sched.TimeSlots()[t]
  }

  function FormattedGroup(sched: GroupScheduler, v: Valuation, g: nat): GroupOut
    requires sched.Valid() && sched.Shape(v) && g < sched.Slots()
  {
    var members := sched.Members(v, g);
    GroupOut(g + 1, SlotLabel(sched, v, g), Entries(sched, members), |members|)
  }

  /** The active slots, ascending. */
  function ActiveSlots(sched: GroupScheduler, v: Valuation): (r: seq<nat>)
    requires sched.Valid() && sched.Shape(v)
    ensures IndicesBelow(r, sched.Slots())
  {
    TrueIndices(v.active)
  }

  /** The output groups of the given slots, in the given order. */
  function GroupsOf(sched: GroupScheduler, v: Valuation, slots: seq<nat>): (r: seq<GroupOut>)
    requires sched.Valid() && sched.Shape(v) && IndicesBelow(slots, sched.Slots())
    ensures |r| == |slots| && forall i :: 0 <= i < |slots| ==> r[i] == FormattedGroup(sched, v, slots[i])
  {
    seq(|slots|, i requires 0 <= i < |slots| => FormattedGroup(sched, v, slots[i]))
  }

  function FormattedGroups(sched: GroupScheduler, v: Valuation): (r: seq<GroupOut>)
    requires sched.Valid() && sched.Shape(v)
  {
    GroupsOf(sched, v, ActiveSlots(sched, v))
  }

  /** The reference definition of the formatted result. */
  function FormattedSolution(sched: GroupScheduler, v: Valuation): Solution
    requires sched.Valid() && sched.Shape(v)
  {
    var groups := FormattedGroups(sched, v);
    Solution(groups, sched.constraints.attributeBounds, sched.NumStudents(), |groups|)
  }

  /** `_format_solution`: one group per active slot in slot order, its
      members in student order, its time the first used time slot. The
      final sort by `group_id` is not performed: `GroupIdsAscending` shows
      the ids are already strictly ascending. */
  method FormatSolution(sched: GroupScheduler, v: Valuation) returns (out: Solution)
    requires sched.Valid() && sched.Shape(v)
    ensures out == FormattedSolution(sched, v)
  {
    var groups: seq<GroupOut> := [];
    ghost var done: seq<nat> := [];
    for g := 0 to sched.Slots()
      invariant done == RowsWhere(v.active, true, g)
      invariant IndicesBelow(done, sched.Slots())
      invariant groups == GroupsOf(sched, v, done)
    {
      RowsWhereStep(v.active, true, g);
      if v.active[g] {
        var group := SlotGroup(sched, v, g);
        GroupsOfAppend(sched, v, done, g);
        groups := groups + [group];
        done := done + [g];
      }
    }
    out := Solution(groups, sched.constraints.attributeBounds, sched.NumStudents(), |groups|);
  }

  /** The loop body for an active slot: its members, its time slot, and the
      group record built from them. */
  method SlotGroup(sched: GroupScheduler, v: Valuation, g: nat) returns (group: GroupOut)
    requires sched.Valid() && sched.Shape(v) && g < sched.Slots()
    ensures group == FormattedGroup(sched, v, g)
  {
    var students := GroupStudents(sched, v, g);
    var timeSlot := GroupTimeSlot(sched, v, g);
    group := GroupOut(g + 1, timeSlot, students, |students|);
  }

  lemma GroupsOfAppend(sched: GroupScheduler, v: Valuation, slots: seq<nat>, g: nat)
    requires sched.Valid() && sched.Shape(v) && IndicesBelow(slots, sched.Slots()) && g < sched.Slots()
    ensures GroupsOf(sched, v, slots + [g]) == GroupsOf(sched, v, slots) + [FormattedGroup(sched, v, g)]
  {
  }

  /** The `group_students` loop: the records of the slot's members, in student order. */
  method GroupStudents(sched: GroupScheduler, v: Valuation, g: nat) returns (students: seq<StudentOut>)
    requires sched.Valid() && sched.Shape(v) && g < sched.Slots()
    ensures students == Entries(sched, sched.Members(v, g))
  {
    students := [];
    ghost var members: seq<nat> := [];
    for s := 0 to sched.NumStudents()
      invariant members == RowsWhere(sched.Column(v, g), true, s)
      invariant |students| == |members|
      invariant forall k :: 0 <= k < |members| ==> students[k] == StudentEntry(sched, members[k])
    {
      RowsWhereStep(sched.Column(v, g), true, s);
      if v.inGroup[s][g] {
        students := students + [StudentEntry(sched, s)];
        members := members + [s];
      }
    }
  }

  /** The `time_slot` loop: the first time whose `uses_time` bit is set, or
      "Not assigned" when none is. */
  method GroupTimeSlot(sched: GroupScheduler, v: Valuation, g: nat) returns (timeSlot: string)
    requires sched.Valid() && sched.Shape(v) && g < sched.Slots()
    ensures timeSlot == SlotLabel(sched, v, g)
  {
    timeSlot := NOT_ASSIGNED;
    var t := 0;
    while t < |sched.TimeSlots()|
      invariant 0 <= t <= |sched.TimeSlots()|
      invariant forall k :: 0 <= k < t ==> !v.usesTime[g][k]
    {
      if v.usesTime[g][t] {
        timeSlot := sched.TimeSlots()[t];
        break;
      }
      t := t + 1;
    }
  }

  // -------------------------------------------------------------------
  // Properties of the formatted result

  /** Group `i` of the output comes from the `i`-th active slot: its id is
      that slot's index plus one, the ids are strictly ascending (so sorting
      by id changes nothing), `size` is the length of `students`, and
      `total_groups` is the number of active slots. */
  lemma GroupIdsAscending(sched: GroupScheduler, v: Valuation)
    requires sched.Valid() && sched.Shape(v)
    ensures var out := FormattedSolution(sched, v);
            && out.totalGroups == |out.groups| == Count(v.active)
            && out.totalStudents == sched.NumStudents()
            && out.constraintsApplied == sched.constraints.attributeBounds
    ensures forall i :: 0 <= i < |FormattedSolution(sched, v).groups| ==>
              var gr := FormattedSolution(sched, v).groups[i];
              && 1 <= gr.groupId <= sched.Slots()
              && v.active[gr.groupId - 1]
              && gr.size == |gr.students|
    ensures forall i, j :: 0 <= i < j < |FormattedSolution(sched, v).groups| ==>
              FormattedSolution(sched, v).groups[i].groupId < FormattedSolution(sched, v).groups[j].groupId
    ensures forall g :: 0 <= g < sched.Slots() && v.active[g] ==>
              exists i :: 0 <= i < |FormattedSolution(sched, v).groups| && FormattedSolution(sched, v).groups[i].groupId == g + 1
  {
    var active := ActiveSlots(sched, v);
    GroupIds(sched, v);
    forall i | 0 <= i < |active|
      ensures v.active[active[i]]
    {
      assert active[i] in active;
    }
    forall g | 0 <= g < sched.Slots() && v.active[g]
      ensures exists i :: 0 <= i < |active| && active[i] == g
    {
      assert g in active;
    }
  }

  /** Output group `i` has id `ActiveSlots[i] + 1` and its size is its number of entries. */
  lemma GroupIds(sched: GroupScheduler, v: Valuation)
    requires sched.Valid() && sched.Shape(v)
    ensures |FormattedSolution(sched, v).groups| == |ActiveSlots(sched, v)|
    ensures forall i :: 0 <= i < |ActiveSlots(sched, v)| ==>
              && FormattedSolution(sched, v).groups[i].groupId == ActiveSlots(sched, v)[i] + 1
              && FormattedSolution(sched, v).groups[i].size == |FormattedSolution(sched, v).groups[i].students|
  {
    forall i | 0 <= i < |ActiveSlots(sched, v)|
      ensures FormattedSolution(sched, v).groups[i] == FormattedGroup(sched, v, ActiveSlots(sched, v)[i])
    {
      GroupOfSlot(sched, v, i);
    }
  }

  /** The time slot of a group is the time of the first set `uses_time` bit
      of its slot, or "Not assigned" when no bit is set. */
  lemma TimeSlotIsFirstUsed(sched: GroupScheduler, v: Valuation, i: nat)
    requires sched.Valid() && sched.Shape(v) && i < |FormattedSolution(sched, v).groups|
    ensures var g := ActiveSlots(sched, v)[i];
            var gr := FormattedSolution(sched, v).groups[i];
            && gr.groupId == g + 1
            && ((forall t :: 0 <= t < |sched.TimeSlots()| ==> !v.usesTime[g][t]) ==> gr.timeSlot == NOT_ASSIGNED)
            && (forall t :: 0 <= t < |sched.TimeSlots()| && v.usesTime[g][t] && (forall k :: 0 <= k < t ==> !v.usesTime[g][k]) ==>
                  gr.timeSlot == sched.TimeSlots()[t])
  {
    var g := ActiveSlots(sched, v)[i];
    GroupOfSlot(sched, v, i);
    assert |v.usesTime[g]| == |sched.TimeSlots()|;
  }

  /** In a satisfying valuation every student appears in exactly one
      output group, as the entry built from their own record (output group
      `i` is the one of the `i`-th active slot, see `GroupIdsAscending`). */
  lemma EveryStudentInOneGroup(sched: GroupScheduler, v: Valuation, s: nat)
    requires sched.Valid() && sched.Satisfies(v) && s < sched.NumStudents()
    ensures |FormattedSolution(sched, v).groups| == |ActiveSlots(sched, v)|
    ensures exists i :: 0 <= i < |ActiveSlots(sched, v)| && s in sched.Members(v, ActiveSlots(sched, v)[i])
              && StudentEntry(sched, s) in FormattedSolution(sched, v).groups[i].students
              && forall j :: 0 <= j < |ActiveSlots(sched, v)| && s in sched.Members(v, ActiveSlots(sched, v)[j]) ==> j == i
  {
    sched.StudentInOneActiveGroup(v, s);
    var g :| 0 <= g < sched.Slots() && v.inGroup[s][g] && v.active[g]
             && forall h :: 0 <= h < sched.Slots() && v.inGroup[s][h] ==> h == g;
    PlacedInOneGroup(sched, v, s, g);
  }

  /** A student whose only slot is the active slot `g` appears in the
      output group of `g` and in no other. */
  lemma PlacedInOneGroup(sched: GroupScheduler, v: Valuation, s: nat, g: nat)
    requires sched.Valid() && sched.Shape(v) && s < sched.NumStudents() && g < sched.Slots()
    requires v.inGroup[s][g] && v.active[g]
    requires forall h :: 0 <= h < sched.Slots() && v.inGroup[s][h] ==> h == g
    ensures |FormattedSolution(sched, v).groups| == |ActiveSlots(sched, v)|
    ensures exists i :: 0 <= i < |ActiveSlots(sched, v)| && s in sched.Members(v, ActiveSlots(sched, v)[i])
              && StudentEntry(sched, s) in FormattedSolution(sched, v).groups[i].students
              && forall j :: 0 <= j < |ActiveSlots(sched, v)| && s in sched.Members(v, ActiveSlots(sched, v)[j]) ==> j == i
  {
    var active := ActiveSlots(sched, v);
    assert g in active;
    var i :| 0 <= i < |active| && active[i] == g;
    InSlotGroup(sched, v, s, i);
    forall j | 0 <= j < |active| && s in sched.Members(v, active[j])
      ensures j == i
    {
      sched.MemberOf(v, active[j], s);
      AscendingDistinct(active, i, j);
    }
  }

  /** A member of the `i`-th active slot is listed in output group `i`. */
  lemma InSlotGroup(sched: GroupScheduler, v: Valuation, s: nat, i: nat)
    requires sched.Valid() && sched.Shape(v) && s < sched.NumStudents() && i < |ActiveSlots(sched, v)|
    requires v.inGroup[s][ActiveSlots(sched, v)[i]]
    ensures |FormattedSolution(sched, v).groups| == |ActiveSlots(sched, v)|
    ensures s in sched.Members(v, ActiveSlots(sched, v)[i])
    ensures StudentEntry(sched, s) in FormattedSolution(sched, v).groups[i].students
  {
    var g := ActiveSlots(sched, v)[i];
    GroupOfSlot(sched, v, i);
    sched.MemberOf(v, g, s);
    var members := sched.Members(v, g);
    var k :| 0 <= k < |members| && members[k] == s;
    assert FormattedSolution(sched, v).groups[i].students[k] == StudentEntry(sched, s);
  }

  /** Output group `i` is the formatted `i`-th active slot. */
  lemma GroupOfSlot(sched: GroupScheduler, v: Valuation, i: nat)
    requires sched.Valid() && sched.Shape(v) && i < |ActiveSlots(sched, v)|
    ensures |FormattedSolution(sched, v).groups| == |ActiveSlots(sched, v)|
    ensures FormattedSolution(sched, v).groups[i] == FormattedGroup(sched, v, ActiveSlots(sched, v)[i])
  {
  }

  lemma AscendingDistinct(xs: seq<nat>, i: nat, j: nat)
    requires Ascending(xs) && i < |xs| && j < |xs| && xs[i] == xs[j]
    ensures i == j
  {
  }

  /** In a satisfying valuation each group's time slot is a real time (one
      whose `uses_time` bit is set for the slot), and every member of the
      group is available at it. */
  lemma MembersAvailableAtTimeSlot(sched: GroupScheduler, v: Valuation, i: nat, k: nat)
    requires sched.Valid() && sched.Satisfies(v)
    requires i < |FormattedSolution(sched, v).groups|
    requires k < |FormattedSolution(sched, v).groups[i].students|
    ensures var g := ActiveSlots(sched, v)[i];
            var gr := FormattedSolution(sched, v).groups[i];
            && gr.groupId == g + 1
            && k < |sched.Members(v, g)|
            && var s := sched.Members(v, g)[k];
            && gr.students[k] == StudentEntry(sched, s)
            && (exists t :: 0 <= t < |sched.TimeSlots()| && v.usesTime[g][t] && gr.timeSlot == sched.TimeSlots()[t])
            && sched.StudentAvailability(s, gr.timeSlot)
  {
    var g := ActiveSlots(sched, v)[i];
    GroupMember(sched, v, i, k);
    var s := sched.Members(v, g)[k];
    sched.MembersAvailable(v, g, s);
  }

  /** The `k`-th entry of output group `i` and that group's time slot, read
      off the valuation. */
  lemma GroupMember(sched: GroupScheduler, v: Valuation, i: nat, k: nat)
    requires sched.Valid() && sched.Shape(v)
    requires i < |FormattedSolution(sched, v).groups|
    requires k < |FormattedSolution(sched, v).groups[i].students|
    ensures var g := ActiveSlots(sched, v)[i];
            var gr := FormattedSolution(sched, v).groups[i];
            && gr.groupId == g + 1
            && k < |sched.Members(v, g)|
            && sched.Members(v, g)[k] < sched.NumStudents()
            && v.inGroup[sched.Members(v, g)[k]][g]
            && gr.students[k] == StudentEntry(sched, sched.Members(v, g)[k])
            && (FirstTrue(v.usesTime[g], 0).Some? ==> gr.timeSlot == sched.TimeSlots()[FirstTrue(v.usesTime[g], 0).value])
  {
    var g := ActiveSlots(sched, v)[i];
    GroupOfSlot(sched, v, i);
    var members := sched.Members(v, g);
    sched.MemberOf(v, g, members[k]);
    assert members[k] in members;
  }

  /** In a satisfying valuation the output respects the size and count
      bounds: every group has at least the minimum size (and at most a
      nonzero maximum), and the number of groups is at least the minimum
      count (and at most a nonzero maximum). */
  lemma OutputWithinBounds(sched: GroupScheduler, v: Valuation)
    requires sched.Valid() && sched.Satisfies(v)
    ensures var out := FormattedSolution(sched, v);
            && out.totalGroups >= sched.constraints.groupCountMin
            && (sched.constraints.groupCountMax != 0 ==> out.totalGroups <= sched.constraints.groupCountMax)
    ensures forall i :: 0 <= i < |FormattedSolution(sched, v).groups| ==>
              var gr := FormattedSolution(sched, v).groups[i];
              && gr.size >= sched.constraints.groupSizeMin
              && (sched.constraints.groupSizeMax != 0 ==> gr.size <= sched.constraints.groupSizeMax)
  {
    var active := ActiveSlots(sched, v);
    forall i | 0 <= i < |active|
      ensures v.active[active[i]]
    {
      assert active[i] in active;
    }
  }

  /** For each entry of a group's `students`, whether its `attributes`
      record passes the attribute test of `attr`. */
  function Holders(students: seq<StudentOut>, attr: string): (r: seq<bool>)
    ensures |r| == |students| && forall k :: 0 <= k < |students| ==> r[k] == (RecordAttribute(students[k].attributes, attr) == Some(true))
  {
    seq(|students|, k requires 0 <= k < |students| => RecordAttribute(students[k].attributes, attr) == Some(true))
  }

  /** For each entry of a group's `students`, whether its `attributes`
      record passes the `any(...)` test over `attrs`. */
  function AnyHolders(students: seq<StudentOut>, attrs: seq<string>): (r: seq<bool>)
    ensures |r| == |students| && forall k :: 0 <= k < |students| ==> r[k] == (RecordAny(students[k].attributes, attrs) == Some(true))
  {
    seq(|students|, k requires 0 <= k < |students| => RecordAny(students[k].attributes, attrs) == Some(true))
  }

  /** The entries of slot `g`'s group that pass the attribute test are as
      many as the `group_attr_count` of the slot, and those that pass the
      `any(...)` test as many as its `group_combined_count`. */
  lemma HolderCounts(sched: GroupScheduler, v: Valuation, g: nat, attr: string, attrs: seq<string>)
    requires sched.Valid() && sched.Shape(v) && g < sched.Slots()
    ensures Count(Holders(Entries(sched, sched.Members(v, g)), attr)) == Count(sched.AttributeColumn(v, g, attr))
    ensures Count(AnyHolders(Entries(sched, sched.Members(v, g)), attrs)) == Count(sched.CombinedColumn(v, g, attrs))
  {
    var n := sched.NumStudents();
    var members := sched.Members(v, g);
    var entries := Entries(sched, members);
    var single := seq(n, s requires 0 <= s < n => sched.StudentAttribute(s, attr) == Some(true));
    var any := seq(n, s requires 0 <= s < n => sched.AnyAttribute(s, attrs) == Some(true));
    CountPicked(sched.Column(v, g), single, sched.AttributeColumn(v, g, attr));
    CountPicked(sched.Column(v, g), any, sched.CombinedColumn(v, g, attrs));
    forall k | 0 <= k < |members|
      ensures Holders(entries, attr)[k] == Pick(single, members)[k]
      ensures AnyHolders(entries, attrs)[k] == Pick(any, members)[k]
    {
      sched.RecordTests(members[k], attrs);
      assert entries[k].attributes == sched.AttributesOf(members[k]);
    }
    assert Holders(entries, attr) == Pick(single, members);
    assert AnyHolders(entries, attrs) == Pick(any, members);
  }

  /** Output group `i`, read as counts over its slot `ActiveSlots[i]`: its
      size, and its attribute and combined counts. */
  lemma GroupCounts(sched: GroupScheduler, v: Valuation, i: nat, attr: string, attrs: seq<string>)
    requires sched.Valid() && sched.Shape(v) && i < |ActiveSlots(sched, v)|
    ensures |FormattedSolution(sched, v).groups| == |ActiveSlots(sched, v)|
    ensures v.active[ActiveSlots(sched, v)[i]]
    ensures FormattedSolution(sched, v).groups[i].size == sched.GroupSize(v, ActiveSlots(sched, v)[i])
    ensures Count(Holders(FormattedSolution(sched, v).groups[i].students, attr))
              == Count(sched.AttributeColumn(v, ActiveSlots(sched, v)[i], attr))
    ensures Count(AnyHolders(FormattedSolution(sched, v).groups[i].students, attrs))
              == Count(sched.CombinedColumn(v, ActiveSlots(sched, v)[i], attrs))
  {
    var g := ActiveSlots(sched, v)[i];
    GroupOfSlot(sched, v, i);
    assert g in ActiveSlots(sched, v);
    HolderCounts(sched, v, g, attr, attrs);
  }

  /** In a satisfying valuation every output group respects each
      per-attribute bound: the number of its entries whose record passes
      the attribute test is at least `min_per_group` and at most
      `max_per_group`, whichever of the two is given. */
  lemma OutputAttributeBounds(sched: GroupScheduler, v: Valuation, i: nat, c: nat)
    requires sched.Valid() && sched.Satisfies(v)
    requires i < |FormattedSolution(sched, v).groups| && c < |sched.constraints.attributeBounds|
    ensures var n := Count(Holders(FormattedSolution(sched, v).groups[i].students, sched.constraints.attributeBounds[c].0));
            var bound := sched.constraints.attributeBounds[c].1;
            && (bound.minPerGroup.Some? ==> n >= bound.minPerGroup.value)
            && (bound.maxPerGroup.Some? ==> n <= bound.maxPerGroup.value)
  {
    GroupCounts(sched, v, i, sched.constraints.attributeBounds[c].0, []);
  }

  /** In a satisfying valuation every output group respects each combined
      bound: the number of its entries whose record passes some listed
      attribute is at most `max`, and at least `min` once the group has a
      student. */
  lemma OutputCombinedBounds(sched: GroupScheduler, v: Valuation, i: nat, c: nat)
    requires sched.Valid() && sched.Satisfies(v)
    requires i < |FormattedSolution(sched, v).groups| && c < |sched.constraints.combined|
    ensures var gr := FormattedSolution(sched, v).groups[i];
            var bound := sched.constraints.combined[c];
            var n := Count(AnyHolders(gr.students, bound.attributes));
            && n <= gr.size
            && (bound.max.Some? ==> n <= bound.max.value)
            && (bound.min.Some? && gr.size >= 1 ==> n >= bound.min.value)
  {
    var attrs := sched.constraints.combined[c].attributes;
    GroupCounts(sched, v, i, "", attrs);
    var g := ActiveSlots(sched, v)[i];
    sched.CombinedCountBounds(v, g, attrs);
    sched.CombinedBoundAt(v, c, g);
  }
}
