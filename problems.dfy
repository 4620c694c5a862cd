/**
 * Per-host problem counting (host-list controller, `getData`): the open
 * problems are grouped per host and per severity as sets of event ids, then
 * every host gets one count per severity.
 */
module ProblemCounting {
  import opened HostTypes

  /** `$host_problems`: host id, then severity, then the set of event ids. */
  type HostProblems = map<nat, map<int, set<nat>>>

  /** The event ids recorded for a host and severity, empty when there are none. */
  function EventsOf(hp: HostProblems, hostid: nat, severity: int): set<nat>
  {
    if hostid in hp && severity in hp[hostid] then hp[hostid][severity] else {}
  }

  /** Problem `p` has this event id and severity and its trigger is linked to the host. */
  predicate Links(p: Problem, triggers: map<nat, seq<nat>>, hostid: nat, severity: int, eventid: nat)
  {
    && p.eventid == eventid
    && p.severity == severity
    && p.objectid in triggers
    && hostid in triggers[p.objectid]
  }

  /** The distinct event ids of one severity raised on triggers linked to the host. */
  function DistinctEvents(problems: seq<Problem>, triggers: map<nat, seq<nat>>, hostid: nat, severity: int): set<nat>
  {
    set k | 0 <= k < |problems| && Links(problems[k], triggers, hostid, severity, problems[k].eventid) :: problems[k].eventid
  }

  lemma DistinctEventsStep(problems: seq<Problem>, i: nat, triggers: map<nat, seq<nat>>, hostid: nat, severity: int)
    requires i < |problems|
    ensures DistinctEvents(problems[..i + 1], triggers, hostid, severity)
      == DistinctEvents(problems[..i], triggers, hostid, severity)
         + (if Links(problems[i], triggers, hostid, severity, problems[i].eventid) then {problems[i].eventid} else {})
  {
    var pre, pre1 := problems[..i], problems[..i + 1];
    assert forall k :: 0 <= k < i ==> pre1[k] == pre[k];
    assert pre1[i] == problems[i];
  }

  /** The event of `p` when it is recorded for a host at severity `s`. */
  function NewEvent(p: Problem, s: int, recorded: bool): set<nat> {
    if s == p.severity && recorded then {p.eventid} else {}
  }

  /**
   * The two nested loops over problems and the hosts of each problem's
   * trigger. A problem whose trigger is not in `triggers` adds nothing.
   */
  method GroupProblems(problems: seq<Problem>, triggers: map<nat, seq<nat>>) returns (hp: HostProblems)
    ensures forall h, s :: EventsOf(hp, h, s) == DistinctEvents(problems, triggers, h, s)
  {
    hp := map[];
    var i: nat := 0;
    while i < |problems|
      invariant i <= |problems|
      invariant forall h, s :: EventsOf(hp, h, s) == DistinctEvents(problems[..i], triggers, h, s)
    {
      var p := problems[i];
      var hosts := if p.objectid in triggers then triggers[p.objectid] else [];
      var j: nat := 0;
      while j < |hosts|
        invariant j <= |hosts|
        invariant forall h, s :: EventsOf(hp, h, s)
                                 == DistinctEvents(problems[..i], triggers, h, s) + NewEvent(p, s, h in hosts[..j])
      {
        var h := hosts[j];
        var bySeverity := if h in hp then hp[h] else map[];
        var events := if p.severity in bySeverity then bySeverity[p.severity] else {};
        hp := hp[h := bySeverity[p.severity := events + {p.eventid}]];
        assert hosts[..j + 1] == hosts[..j] + [h];
        j := j + 1;
      }
      assert hosts[..j] == hosts;
      forall h, s ensures EventsOf(hp, h, s) == DistinctEvents(problems[..i + 1], triggers, h, s) {
        DistinctEventsStep(problems, i, triggers, h, s);
      }
      i := i + 1;
    }
    assert problems[..i] == problems;
  }

  /** `problem_count` as read from the grouped problems: one entry per severity. */
  function ProblemCounts(hp: HostProblems, hostid: nat): map<int, nat>
  {
    map s | SeverityNotClassified <= s < SeverityCount :: |EventsOf(hp, hostid, s)|
  }

  /** The counts a host should end up with, stated on the problem records themselves. */
  function HostCounts(problems: seq<Problem>, triggers: map<nat, seq<nat>>, hostid: nat): map<int, nat>
  {
    map s | SeverityNotClassified <= s < SeverityCount :: |DistinctEvents(problems, triggers, hostid, s)|
  }

  /** The counting loop, from the highest severity down to "not classified". */
  method CountBySeverity(hp: HostProblems, hostid: nat) returns (counts: map<int, nat>)
    ensures counts == ProblemCounts(hp, hostid)
  {
    // Hosts without problems get an empty entry first.
    var own: map<int, set<nat>> := if hostid in hp then hp[hostid] else map[];
    counts := map[];
    var severity := SeverityCount - 1;
    while severity >= SeverityNotClassified
      invariant SeverityNotClassified - 1 <= severity < SeverityCount
      invariant forall s :: s in counts <==> severity < s < SeverityCount
      invariant forall s :: s in counts ==> counts[s] == |EventsOf(hp, hostid, s)|
    {
      counts := counts[severity := if severity in own then |own[severity]| else 0];
      severity := severity - 1;
    }
    assert counts.Keys == ProblemCounts(hp, hostid).Keys;
  }

  /** Counting the grouped problems gives the counts stated on the problem records. */
  lemma CountsOfGroupedProblems(problems: seq<Problem>, triggers: map<nat, seq<nat>>, hp: HostProblems, hostid: nat)
    requires forall h, s :: EventsOf(hp, h, s) == DistinctEvents(problems, triggers, h, s)
    ensures ProblemCounts(hp, hostid) == HostCounts(problems, triggers, hostid)
  {
  }

  /**
   * What a host's counts mean: exactly the severities 0..5 have an entry, and
   * each entry is the number of distinct event ids of that severity raised on
   * triggers linked to the host.
   */
  lemma CountIsDistinctEvents(problems: seq<Problem>, triggers: map<nat, seq<nat>>, hostid: nat, severity: int, events: set<nat>)
    requires forall e :: e in events <==>
      exists k :: 0 <= k < |problems| && Links(problems[k], triggers, hostid, severity, e)
    ensures severity in HostCounts(problems, triggers, hostid) <==> SeverityNotClassified <= severity < SeverityCount
    ensures severity in HostCounts(problems, triggers, hostid) ==> HostCounts(problems, triggers, hostid)[severity] == |events|
  {
    var d := DistinctEvents(problems, triggers, hostid, severity);
    forall e ensures e in events <==> e in d {
      if e in events {
        var k :| 0 <= k < |problems| && Links(problems[k], triggers, hostid, severity, e);
        assert problems[k].eventid == e;
      }
    }
    assert events == d;
  }

  /** A host that no problem's trigger is linked to has a zero for every severity. */
  lemma NoProblemsAllZero(problems: seq<Problem>, triggers: map<nat, seq<nat>>, hostid: nat)
    requires forall k :: 0 <= k < |problems| && problems[k].objectid in triggers ==> hostid !in triggers[problems[k].objectid]
    ensures forall s :: s in HostCounts(problems, triggers, hostid) ==> HostCounts(problems, triggers, hostid)[s] == 0
  {
    forall s | s in HostCounts(problems, triggers, hostid) ensures DistinctEvents(problems, triggers, hostid, s) == {} {
    }
  }

  /** The same problem record reported twice is counted once. */
  lemma RepeatedProblemCountedOnce(problems: seq<Problem>, triggers: map<nat, seq<nat>>, hostid: nat, k: nat)
    requires k < |problems|
    ensures HostCounts(problems + [problems[k]], triggers, hostid) == HostCounts(problems, triggers, hostid)
  {
    var ps := problems + [problems[k]];
    forall s ensures DistinctEvents(ps, triggers, hostid, s) == DistinctEvents(problems, triggers, hostid, s) {
      assert ps[..|problems|] == problems;
      DistinctEventsStep(ps, |problems|, triggers, hostid, s);
      assert ps[..|problems| + 1] == ps;
    }
  }
}
