/** The infeasibility explanation of `schedule()` in backend/scheduler.py
    (the `reasons` list built when the solver finds no solution), and the
    three outcomes of `schedule()` as a whole. */
module Diagnostics {
  import opened Wrappers
  import opened Text
  import opened Dict
  import opened Constraints
  import opened Indices
  import opened Scheduler
  import opened SolutionFormat

  const PREFIX := "No valid solution found with the given constraints. Possible reasons: "

  /** One entry of the `reasons` list, before it is rendered as text. */
  datatype Reason =
    | SizeMinAboveStudents(min: int, students: int)
    | CountMaxBelowMin(max: int, min: int)
    | NotEnoughWithAttribute(attr: string, min: int)
    | AttributeMaxBelowOne(attr: string)
    | Generic
  {
    /** The text appended to `reasons`. */
    function Text(): string {
      match this
      case SizeMinAboveStudents(min, n) =>
        "Minimum group size (" + IntToStr(min) + ") is greater than the number of students (" + IntToStr(n) + ")."
      case CountMaxBelowMin(max, min) =>
        "Maximum group count (" + IntToStr(max) + ") is less than the minimum group count (" + IntToStr(min) + ")."
      case NotEnoughWithAttribute(attr, min) =>
        "Not enough students with attribute '" + attr + "' to satisfy the minimum per group (" + IntToStr(min) + ")."
      case AttributeMaxBelowOne(attr) =>
        "Maximum per group for attribute '" + attr + "' is less than 1."
      case Generic =>
        "The combination of constraints may be too strict or incompatible with the data."
    }
  }

  /** The diagnostic test `str(s.get(attr, 0)) == '1'` on each attribute
      record (the values are strings, so `str` leaves them as they are). */
  function HasOneFlags(sched: GroupScheduler, attr: string): (flags: seq<bool>)
    ensures |flags| == |sched.data.attributes|
    ensures forall s :: 0 <= s < |flags| ==> flags[s] == (Get(sched.data.attributes[s], attr) == Some("1"))
  {
    seq(|sched.data.attributes|, s requires 0 <= s < |sched.data.attributes| => Get(sched.data.attributes[s], attr) == Some("1"))
  }

  /** `count_with_attr`. */
  function CountWithAttribute(sched: GroupScheduler, attr: string): nat {
    Count(HasOneFlags(sched, attr))
  }

  /** The minimum-per-group reason for one attribute fires. */
  predicate NotEnough(sched: GroupScheduler, attr: string, bound: AttrBound) {
    bound.minPerGroup.Some? && CountWithAttribute(sched, attr) < bound.minPerGroup.value * sched.constraints.groupCountMin
  }

  /** The maximum-below-one reason for one attribute fires. */
  predicate MaxBelowOne(bound: AttrBound) {
    bound.maxPerGroup.Some? && bound.maxPerGroup.value < 1
  }

  /** The reasons one attribute contributes, the minimum one first. */
  function AttributeReasons(sched: GroupScheduler, attr: string, bound: AttrBound): seq<Reason> {
    (if NotEnough(sched, attr, bound) then [NotEnoughWithAttribute(attr, bound.minPerGroup.value)] else [])
    + (if MaxBelowOne(bound) then [AttributeMaxBelowOne(attr)] else [])
  }

  /** The reasons of the attribute entries, in dictionary order. */
  function AllAttributeReasons(sched: GroupScheduler, bounds: Dict<AttrBound>): seq<Reason> {
    if bounds == [] then []
    else
      var last := bounds[|bounds| - 1];
      AllAttributeReasons(sched, bounds[..|bounds| - 1]) + AttributeReasons(sched, last.0, last.1)
  }

  predicate SizeMinTooLarge(sched: GroupScheduler) {
    sched.constraints.groupSizeMin > sched.NumStudents()
  }

  predicate CountMaxTooSmall(sched: GroupScheduler) {
    sched.constraints.groupCountMax != 0 && sched.constraints.groupCountMax < sched.constraints.groupCountMin
  }

  /** The reasons of the two checks on the group bounds, size first. */
  function GlobalReasons(sched: GroupScheduler): seq<Reason> {
    (if SizeMinTooLarge(sched) then [SizeMinAboveStudents(sched.constraints.groupSizeMin, sched.NumStudents())] else [])
    + (if CountMaxTooSmall(sched) then [CountMaxBelowMin(sched.constraints.groupCountMax, sched.constraints.groupCountMin)] else [])
  }

  /** The specific reasons, in the order the checks run. */
  function SpecificReasons(sched: GroupScheduler): seq<Reason> {
    GlobalReasons(sched) + AllAttributeReasons(sched, sched.constraints.attributeBounds)
  }

  /** The reasons reported: the specific ones, or the generic one when none fired. */
  function Reasons(sched: GroupScheduler): seq<Reason> {
    var specific := SpecificReasons(sched);
    if specific == [] then [Generic] else specific
  }

  function Texts(reasons: seq<Reason>): (texts: seq<string>)
    ensures |texts| == |reasons| && forall i :: 0 <= i < |reasons| ==> texts[i] == reasons[i].Text()
  {
    seq(|reasons|, i requires 0 <= i < |reasons| => reasons[i].Text())
  }

  /** The error message returned. */
  function Message(sched: GroupScheduler): string {
    PREFIX + Join(Texts(Reasons(sched)), " ")
  }

  /** The reason-gathering code of `schedule()`: the two global checks, then
      one pass over the attribute entries appending their reasons, then the
      generic reason if the list is still empty. */
  method Explain(sched: GroupScheduler) returns (message: string)
    ensures message == Message(sched)
  {
    var reasons := GatherReasons(sched);
    message := PREFIX + Join(Texts(reasons), " ");
  }

  /** The `reasons` list: the two global checks, the attribute checks
      appended after them, and the generic reason if nothing fired. */
  method GatherReasons(sched: GroupScheduler) returns (reasons: seq<Reason>)
    ensures reasons == Reasons(sched)
  {
    reasons := GlobalChecks(sched);
    var attributeReasons := AttributeChecks(sched, sched.constraints.attributeBounds);
    reasons := reasons + attributeReasons;
    if reasons == [] {
      reasons := reasons + [Generic];
    }
  }

  /** The checks on the group size minimum and the group count maximum. */
  method GlobalChecks(sched: GroupScheduler) returns (reasons: seq<Reason>)
    ensures reasons == GlobalReasons(sched)
  {
    reasons := [];
    if sched.constraints.groupSizeMin > sched.NumStudents() {
      reasons := reasons + [SizeMinAboveStudents(sched.constraints.groupSizeMin, sched.NumStudents())];
    }
    if sched.constraints.groupCountMax != 0 && sched.constraints.groupCountMax < sched.constraints.groupCountMin {
      reasons := reasons + [CountMaxBelowMin(sched.constraints.groupCountMax, sched.constraints.groupCountMin)];
    }
  }

  /** The loop over the attribute entries, in dictionary order. */
  method AttributeChecks(sched: GroupScheduler, bounds: Dict<AttrBound>) returns (reasons: seq<Reason>)
    ensures reasons == AllAttributeReasons(sched, bounds)
  {
    reasons := [];
    for i := 0 to |bounds|
      invariant reasons == AllAttributeReasons(sched, bounds[..i])
    {
      var entry := EntryReasons(sched, bounds[i].0, bounds[i].1);
      AllAttributeReasonsStep(sched, bounds, i);
      reasons := reasons + entry;
    }
    assert bounds[..|bounds|] == bounds;
  }

  /** The body of the loop over the attribute entries: the minimum check,
      then the maximum check. */
  method EntryReasons(sched: GroupScheduler, attr: string, cons: AttrBound) returns (reasons: seq<Reason>)
    ensures reasons == AttributeReasons(sched, attr, cons)
  {
    reasons := [];
    var count := CountWithAttribute(sched, attr);
    if cons.minPerGroup.Some? && count < cons.minPerGroup.value * sched.constraints.groupCountMin {
      reasons := reasons + [NotEnoughWithAttribute(attr, cons.minPerGroup.value)];
    }
    if cons.maxPerGroup.Some? && cons.maxPerGroup.value < 1 {
      reasons := reasons + [AttributeMaxBelowOne(attr)];
    }
  }

  lemma AllAttributeReasonsStep(sched: GroupScheduler, bounds: Dict<AttrBound>, i: nat)
    requires i < |bounds|
    ensures AllAttributeReasons(sched, bounds[..i + 1]) == AllAttributeReasons(sched, bounds[..i]) + AttributeReasons(sched, bounds[i].0, bounds[i].1)
  {
    assert bounds[..i + 1][..i] == bounds[..i];
  }

  // -------------------------------------------------------------------
  // Properties of the explanation

  /** No specific reason fires for an attribute entry. */
  predicate QuietAttribute(sched: GroupScheduler, entry: (string, AttrBound)) {
    !NotEnough(sched, entry.0, entry.1) && !MaxBelowOne(entry.1)
  }

  lemma {:induction false} AllAttributeReasonsEmpty(sched: GroupScheduler, bounds: Dict<AttrBound>)
    ensures AllAttributeReasons(sched, bounds) == [] <==> forall i :: 0 <= i < |bounds| ==> QuietAttribute(sched, bounds[i])
  {
    if bounds != [] {
      var front := bounds[..|bounds| - 1];
      AllAttributeReasonsEmpty(sched, front);
      assert forall i :: 0 <= i < |front| ==> front[i] == bounds[i];
    }
  }

  /** The generic reason is reported exactly when none of the specific
      checks fires, and then it is the only reason; otherwise the reasons
      are the specific ones. There is always at least one reason. */
  lemma GenericIffNoneFired(sched: GroupScheduler)
    ensures |Reasons(sched)| >= 1
    ensures Generic in Reasons(sched) <==>
              && !SizeMinTooLarge(sched)
              && !CountMaxTooSmall(sched)
              && forall i :: 0 <= i < |sched.constraints.attributeBounds| ==> QuietAttribute(sched, sched.constraints.attributeBounds[i])
    ensures Generic in Reasons(sched) ==> Reasons(sched) == [Generic]
  {
    AllAttributeReasonsEmpty(sched, sched.constraints.attributeBounds);
    AttributeReasonsNotGeneric(sched, sched.constraints.attributeBounds);
  }

  lemma {:induction false} AttributeReasonsNotGeneric(sched: GroupScheduler, bounds: Dict<AttrBound>)
    ensures Generic !in AllAttributeReasons(sched, bounds)
  {
    if bounds != [] {
      AttributeReasonsNotGeneric(sched, bounds[..|bounds| - 1]);
    }
  }

  /** The order of the reasons: the size reason first, then the count
      reason, then the reasons of the attribute entries, those of entry `i`
      after those of every earlier entry and before those of every later
      one (within an entry, the minimum reason comes before the maximum
      reason). */
  lemma ReasonsOrder(sched: GroupScheduler, i: nat)
    requires i < |sched.constraints.attributeBounds|
    ensures SizeMinTooLarge(sched) ==> SpecificReasons(sched)[0] == SizeMinAboveStudents(sched.constraints.groupSizeMin, sched.NumStudents())
    ensures CountMaxTooSmall(sched) ==>
              SpecificReasons(sched)[if SizeMinTooLarge(sched) then 1 else 0] == CountMaxBelowMin(sched.constraints.groupCountMax, sched.constraints.groupCountMin)
    ensures var bounds := sched.constraints.attributeBounds;
            SpecificReasons(sched) == GlobalReasons(sched) + (AllAttributeReasons(sched, bounds[..i])
                                      + AttributeReasons(sched, bounds[i].0, bounds[i].1) + AllAttributeReasons(sched, bounds[i + 1..]))
  {
    var global := GlobalReasons(sched);
    var attributes := AllAttributeReasons(sched, sched.constraints.attributeBounds);
    assert SpecificReasons(sched) == global + attributes;
    GlobalReasonsOrder(sched);
    assert forall k :: 0 <= k < |global| ==> (global + attributes)[k] == global[k];
    AllAttributeReasonsSplit(sched, sched.constraints.attributeBounds, i);
  }

  lemma GlobalReasonsOrder(sched: GroupScheduler)
    ensures SizeMinTooLarge(sched) ==> |GlobalReasons(sched)| >= 1 && GlobalReasons(sched)[0] == SizeMinAboveStudents(sched.constraints.groupSizeMin, sched.NumStudents())
    ensures CountMaxTooSmall(sched) ==>
              |GlobalReasons(sched)| == (if SizeMinTooLarge(sched) then 2 else 1)
              && GlobalReasons(sched)[|GlobalReasons(sched)| - 1] == CountMaxBelowMin(sched.constraints.groupCountMax, sched.constraints.groupCountMin)
  {
  }

  /** The attribute reasons of a dictionary are those of the entries before
      `i`, then entry `i`'s, then those of the entries after it. */
  lemma {:induction false} AllAttributeReasonsSplit(sched: GroupScheduler, bounds: Dict<AttrBound>, i: nat)
    requires i < |bounds|
    ensures AllAttributeReasons(sched, bounds) ==
              AllAttributeReasons(sched, bounds[..i]) + AttributeReasons(sched, bounds[i].0, bounds[i].1)
              + AllAttributeReasons(sched, bounds[i + 1..])
  {
    var front, rest := bounds[..i + 1], bounds[i + 1..];
    assert bounds == front + rest;
    AllAttributeReasonsAppend(sched, front, rest);
    assert front[..i] == bounds[..i];
  }

  /** The reasons of two dictionaries laid end to end are the reasons of
      the first followed by those of the second. */
  lemma {:induction false} AllAttributeReasonsAppend(sched: GroupScheduler, a: Dict<AttrBound>, b: Dict<AttrBound>)
    ensures AllAttributeReasons(sched, a + b) == AllAttributeReasons(sched, a) + AllAttributeReasons(sched, b)
  {
    if b == [] {
      assert a + b == a;
    } else {
      var front := b[..|b| - 1];
      AllAttributeReasonsAppend(sched, a, front);
      assert (a + b)[..|a + b| - 1] == a + front;
      assert (a + b)[|a + b| - 1] == b[|b| - 1];
    }
  }

  /** A single reason is the whole text after the prefix. */
  lemma SingleReasonMessage(sched: GroupScheduler)
    requires |Reasons(sched)| == 1
    ensures Message(sched) == PREFIX + Reasons(sched)[0].Text()
  {
  }

  /** Four as the minimum group size for three students, with no other
      problem, gives exactly one reason. */
  lemma SizeMinExample(sched: GroupScheduler)
    requires sched.NumStudents() == 3 && sched.constraints.groupSizeMin == 4
    requires sched.constraints.groupCountMax == 0 && sched.constraints.attributeBounds == []
    ensures Message(sched) == PREFIX + "Minimum group size (" + "4" + ") is greater than the number of students (" + "3" + ")."
  {
    assert Reasons(sched) == [SizeMinAboveStudents(4, 3)];
    assert Texts(Reasons(sched)) == [SizeMinAboveStudents(4, 3).Text()];
    assert IntToStr(4) == "4" && IntToStr(3) == "3";
  }

  /** The diagnostic count and the scheduling constraint test an attribute
      differently: a value the diagnostic counts is one the constraint
      counts too, but "01" passes `int()` and not the plain string test. */
  lemma DiagnosticCountIsStricter(sched: GroupScheduler, s: nat, attr: string)
    requires s < |sched.data.attributes|
    ensures HasOneFlags(sched, attr)[s] ==> sched.StudentAttribute(s, attr) == Some(true)
    ensures Get(sched.data.attributes[s], attr) == Some("01") ==>
              !HasOneFlags(sched, attr)[s] && sched.StudentAttribute(s, attr) == Some(true)
  {
    sched.AttributeMeansOne(s, attr);
    ParseIntOfOne();
    ParseIntOfZeroOne();
  }

  lemma ParseIntOfOne()
    ensures ParseInt("1") == Some(1)
  {
    ParseIntOfIntToStr(1);
    assert IntToStr(1) == "1";
  }

  /** `int("01") == 1`. */
  lemma ParseIntOfZeroOne()
    ensures ParseInt("01") == Some(1)
  {
    StripUnchanged("01");
    assert RemoveUnderscores("01") == "01" by {
      assert "01"[1..] == "1";
      assert RemoveUnderscores("1") == "1";
    }
    assert IntDigits("01");
    assert DigitsValue("01") == 1 by {
      assert "01"[..1] == "0";
      assert DigitsValue("0") == 0;
    }
  }

  // -------------------------------------------------------------------
  // The outcome of schedule()

  /** The solver statuses; only OPTIMAL and FEASIBLE mean a solution was found. */
  datatype Status = Optimal | Feasible | Infeasible | ModelInvalid | Unknown

  datatype Outcome =
    | Solved(solution: Solution)
    | NoSolution(error: string)
      /** `int()` raised while the constraints were built. */
    | BuildError

  predicate Found(status: Status) {
    status == Optimal || status == Feasible
  }

  /** `schedule()`, with the solver's status and valuation as inputs. The
      solver is trusted: a reported solution satisfies every constraint. */
  method Schedule(sched: GroupScheduler, status: Status, v: Valuation) returns (out: Outcome)
    requires sched.Valid()
    requires !sched.BuildRaises() && Found(status) ==> sched.Satisfies(v)
    ensures sched.BuildRaises() ==> out == BuildError
    ensures !sched.BuildRaises() && Found(status) ==> out == Solved(FormattedSolution(sched, v))
    ensures !sched.BuildRaises() && !Found(status) ==> out == NoSolution(Message(sched))
  {
    if sched.BuildRaises() {
      return BuildError;
    }
    if Found(status) {
      var solution := FormatSolution(sched, v);
      return Solved(solution);
    }
    var message := Explain(sched);
    return NoSolution(message);
  }
}
