/** PackageKit's RequireRestart signals: what each code asks for, and what remains on record once it
    was heard. */
module Signals {
  import opened Lifecycle
  import opened Records
  import opened Validator

  /** The three buckets of restart work. */
  datatype Contribution = Contribution(system: SystemRestart, session: SessionRestart, application: bool)

  function ContributionOf(op: Operation): Contribution {
    Contribution(SystemOf(op), SessionOf(op), ApplicationOf(op))
  }

  function RequiredSystem(value: int): SystemRestart {
    if value == 4 then System else if value == 6 then SecuritySystem
    else if value in {1, 2, 3, 5} then NoSystem else UnknownSystem
  }

  function RequiredSession(value: int): SessionRestart {
    if value == 5 then SecuritySession else if value == 3 then Session else NoSession
  }

  // ---- what the codes mean ----

  /** Some code is none of PackageKit's. */
  predicate Unlisted(values: seq<int>) { exists i :: 0 <= i < |values| && !(1 <= values[i] <= 6) }

  /** The system bucket after these codes: the strongest of what it held and what they ask for. */
  predicate SystemHeard(before: SystemRestart, values: seq<int>, after: SystemRestart) {
    && SystemStrength(before) <= SystemStrength(after)
    && (4 in values ==> after in {System, SecuritySystem}) && (6 in values ==> after == SecuritySystem)
    && (Unlisted(values) ==> after != NoSystem)
    && (after != before ==>
          (after == System && 4 in values) || (after == SecuritySystem && 6 in values)
          || (after == UnknownSystem && Unlisted(values)))
  }

  predicate SessionHeard(before: SessionRestart, values: seq<int>, after: SessionRestart) {
    && SessionStrength(before) <= SessionStrength(after)
    && (3 in values ==> after != NoSession) && (5 in values ==> after == SecuritySession)
    && (after != before ==> (after == Session && 3 in values) || (after == SecuritySession && 5 in values))
  }

  predicate ApplicationHeard(before: bool, values: seq<int>, after: bool) { after <==> before || 2 in values }

  predicate Heard(before: Contribution, values: seq<int>, after: Contribution) {
    && SystemHeard(before.system, values, after.system)
    && SessionHeard(before.session, values, after.session)
    && ApplicationHeard(before.application, values, after.application)
  }

  /** One bucket value only fits what was heard. */
  lemma HeardIsExact(before: Contribution, values: seq<int>, a: Contribution, b: Contribution)
    requires Heard(before, values, a) && Heard(before, values, b)
    ensures a == b
  {}

  lemma NothingHeard(c: Contribution)
    ensures Heard(c, [], c)
  {}

  lemma HeardThen(a: Contribution, value: int, b: Contribution, values: seq<int>, c: Contribution)
    requires Heard(a, [value], b) && Heard(b, values, c)
    ensures Heard(a, [value] + values, c)
  {
    var all := [value] + values;
    if i :| 0 <= i < |all| && !(1 <= all[i] <= 6) {
      if i == 0 { assert !(1 <= [value][0] <= 6); } else { assert !(1 <= values[i - 1] <= 6); }
    }
    if i :| 0 <= i < |values| && !(1 <= values[i] <= 6) { assert all[i + 1] == values[i]; }
    assert all[0] == value;
    assert forall v :: v in all <==> v == value || v in values;
  }
}
