/** How the roster normaliser's output meets the scheduler's lookups: the
    parsed lists are what `GroupScheduler` is built from, and the two
    components test availability values differently. */
module Pipeline {
  import opened Wrappers
  import opened Text
  import opened Dict
  import opened Students
  import opened Constraints
  import opened CsvParser
  import opened Scheduler

  /** The scheduler built from a parsed roster and its constraints. */
  function SchedulerFor(p: Parsed, c: SchedulingConstraints): GroupScheduler {
    GroupScheduler(StudentData(p.names, p.attributes, p.availabilities), c)
  }

  /** A successfully parsed roster can always be scheduled from: it has at
      least one availability record (so the time slots exist), one per
      schedulable student, and its students plus the unassigned ones are
      all the data rows. */
  lemma ParsedRosterIsSchedulable(data: seq<seq<string>>, given: seq<string>, c: SchedulingConstraints)
    requires WellFormedTable(data, given) && ParseStudentTable(data, given).Success?
    ensures var sched := SchedulerFor(ParseStudentTable(data, given).value, c);
            && sched.Valid()
            && sched.NumStudents() >= 1
            && |sched.data.availabilities| == sched.NumStudents()
            && sched.NumStudents() + |ParseStudentTable(data, given).value.unassigned| == |data| - 1
  {
    StudentTablePartition(data, given);
  }

  /** A value of exactly "1" at some slot keeps the student out of
      `unassigned_students`: the scheduler's availability test implies the
      partition's. */
  lemma AvailableMeansKept(rec: Record, slot: string)
    requires Get(rec, slot) == Some("1")
    ensures !NoAvailability(Values(rec))
  {
    var i :| 0 <= i < |rec| && rec[i] == (slot, "1");
    assert Values(rec)[i] == "1";
    StripUnchanged("1");
    NoAvailabilityMeansAll(Values(rec));
  }

  /** The converse fails: the partition strips values and the availability
      test does not, so a student whose only value is " 1" is kept for
      scheduling yet is available at no time slot. */
  lemma SpacedOneKeptButUnavailable(sched: GroupScheduler, s: nat)
    requires s < |sched.data.availabilities| && sched.data.availabilities[s] == [("mon", " 1")]
    ensures !NoAvailability(Values(sched.data.availabilities[s]))
    ensures forall slot :: !sched.StudentAvailability(s, slot)
  {
    var rec := sched.data.availabilities[s];
    assert Values(rec) == [" 1"];
    assert Strip(" 1") == "1" by {
      assert StripLeft(" 1") == "1" by {
        assert " 1"[1..] == "1";
      }
      StripUnchanged("1");
    }
    NoAvailabilityMeansAll(Values(rec));
  }
}
