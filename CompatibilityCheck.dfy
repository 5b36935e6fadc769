// The AVD compatibility-check manager: a registry of named checks, a cache of
// their results with explicit invalidation, the error predicate and the
// construction of the user-facing issue string.
//
// Running a registered check is a call into code outside the manager; a check
// is modelled as a function of the AVD, and every invocation is recorded, by
// name, in the manager's event log `calls`.

module CompatibilityCheck {
  import opened Wrappers

  /** The outcome levels of a compatibility check. */
  datatype Status = Ok | Warning | Error

  /** What a check reports: a description (without a final period) and a status. */
  datatype CheckResult = CheckResult(description: string, status: Status)

  /** The AVD properties the checks look at; `None` stands for a null AVD. */
  datatype Avd = Avd(name: string, xr: bool)

  type Check = Option<Avd> -> CheckResult

  datatype Registered = Registered(name: string, run: Check)

  /** The names of the registered checks, in registration order. */
  function Names(cs: seq<Registered>): (ns: seq<string>)
    ensures |ns| == |cs|
    ensures forall i :: 0 <= i < |cs| ==> ns[i] == cs[i].name
  {
    if cs == [] then [] else Names(cs[..|cs| - 1]) + [cs[|cs| - 1].name]
  }

  /** The results of running every check once, in registration order. */
  function Outcomes(cs: seq<Registered>, avd: Option<Avd>): (rs: seq<CheckResult>)
    ensures |rs| == |cs|
    ensures forall i :: 0 <= i < |cs| ==> rs[i] == cs[i].run(avd)
  {
    if cs == [] then [] else Outcomes(cs[..|cs| - 1], avd) + [cs[|cs| - 1].run(avd)]
  }

  predicate HasError(rs: seq<CheckResult>)
  {
    exists i :: 0 <= i < |rs| && rs[i].status == Error
  }

  /** The descriptions of the results with the given status, in order. */
  function Matching(rs: seq<CheckResult>, status: Status): (ds: seq<string>)
    ensures |ds| <= |rs|
  {
    if rs == [] then []
    else
      var last := rs[|rs| - 1];
      Matching(rs[..|rs| - 1], status) + (if last.status == status then [last.description] else [])
  }

  /** Appending one description to the message: a comma only after a non-empty message. */
  function Append(message: string, d: string): string
  {
    if message == "" then d else message + ", " + d
  }

  /** The message once the first two matching descriptions have been appended. */
  function Listed(ds: seq<string>): string
  {
    if |ds| == 0 then "" else if |ds| == 1 then ds[0] else Append(ds[0], ds[1])
  }

  /** The issue string: the first two descriptions, ", and more" past two, and a final period. */
  function IssueString(rs: seq<CheckResult>, status: Status): string
  {
    var ds := Matching(rs, status);
    var m := Listed(ds);
    var m' := if |ds| > 2 && m != "" then m + ", and more" else m;
    if m' == "" then "" else m' + "."
  }

  /** What ensureAvdCompatibility does with a list of results. */
  datatype Report = Fatal(message: string) | Warn(message: string) | Quiet

  function ReportOf(rs: seq<CheckResult>): Report
  {
    if HasError(rs) then Fatal(IssueString(rs, Error))
    else
      var warning := IssueString(rs, Warning);
      if warning == "" then Quiet else Warn(warning)
  }

  class Manager {
    var checks: seq<Registered>
    var ranChecks: bool
    var results: seq<CheckResult>
    /** The event log: the name of every check invocation, in order. */
    var calls: seq<string>

    constructor()
      ensures checks == [] && !ranChecks && results == [] && calls == []
    {
      checks := [];
      ranChecks := false;
      results := [];
      calls := [];
    }

    /** A copy of another manager, with an empty event log of its own. */
    constructor Copy(other: Manager)
      ensures checks == other.checks && ranChecks == other.ranChecks
      ensures results == other.results && calls == []
    {
      checks := other.checks;
      ranChecks := other.ranChecks;
      results := other.results;
      calls := [];
    }

    method RegisterCheck(run: Check, name: string)
      modifies this
      ensures checks == old(checks) + [Registered(name, run)]
      ensures ranChecks == old(ranChecks) && results == old(results) && calls == old(calls)
    {
      checks := checks + [Registered(name, run)];
    }

    method RegisteredChecks() returns (names: seq<string>)
      ensures |names| == |checks|
      ensures forall i :: 0 <= i < |checks| ==> names[i] == checks[i].name
    {
      names := [];
      var i := 0;
      while i < |checks|
        invariant 0 <= i <= |checks|
        invariant names == Names(checks[..i])
      {
        assert checks[..i + 1][..i] == checks[..i];
        names := names + [checks[i].name];
        i := i + 1;
      }
      assert checks[..i] == checks;
    }

    method Invalidate()
      modifies this
      ensures !ranChecks
      ensures checks == old(checks) && results == old(results) && calls == old(calls)
    {
      ranChecks := false;
    }

    /** Runs every check once, in order, unless the cached results are still valid. */
    method Check(avd: Option<Avd>) returns (rs: seq<CheckResult>)
      modifies this
      ensures checks == old(checks) && ranChecks
      ensures old(ranChecks) ==> rs == old(results) && calls == old(calls)
      ensures !old(ranChecks) ==> rs == Outcomes(checks, avd) && calls == old(calls) + Names(checks)
      ensures results == rs
    {
      if ranChecks {
        return results;
      }
      results := [];
      ghost var calls0 := calls;
      var i := 0;
      while i < |checks|
        invariant checks == old(checks) && 0 <= i <= |checks|
        invariant results == Outcomes(checks[..i], avd)
        invariant calls == calls0 + Names(checks[..i])
      {
        assert checks[..i + 1][..i] == checks[..i];
        calls := calls + [checks[i].name];
        var result := checks[i].run(avd);
        results := results + [result];
        i := i + 1;
      }
      assert checks[..i] == checks;
      ranChecks := true;
      rs := results;
    }

    /**
     * Runs the checks on a copy of this manager, as written: this manager's
     * cache is left as it was, so a later Check runs every check again.
     */
    method EnsureAvdCompatibility(avd: Option<Avd>) returns (report: Report, ran: seq<string>)
      ensures var rs := if ranChecks then results else Outcomes(checks, avd);
              report == ReportOf(rs)
      ensures ran == if ranChecks then [] else Names(checks)
    {
      var acm := new Manager.Copy(this);
      var rs := acm.Check(avd);
      ran := acm.calls;
      var errors := HasCompatibilityErrors(rs);
      if errors {
        var message := ConstructIssueString(rs, Error);
        return Fatal(message), ran;
      }
      var warning := ConstructIssueString(rs, Warning);
      if warning != "" {
        report := Warn(warning);
      } else {
        report := Quiet;
      }
    }
  }

  /**
   * The evidently intended ensureAvdCompatibility: the checks run on the
   * manager itself, whose cache then holds their results.
   */
  method EnsureAvdCompatibilityCached(m: Manager, avd: Option<Avd>) returns (report: Report, ran: seq<string>)
    modifies m
    ensures m.checks == old(m.checks) && m.ranChecks
    ensures m.results == (if old(m.ranChecks) then old(m.results) else Outcomes(m.checks, avd))
    ensures report == ReportOf(m.results)
    ensures ran == if old(m.ranChecks) then [] else Names(m.checks)
  {
    var calls0 := m.calls;
    var rs := m.Check(avd);
    ran := m.calls[|calls0|..];
    var errors := HasCompatibilityErrors(rs);
    if errors {
      var message := ConstructIssueString(rs, Error);
      return Fatal(message), ran;
    }
    var warning := ConstructIssueString(rs, Warning);
    if warning != "" {
      report := Warn(warning);
    } else {
      report := Quiet;
    }
  }

  /** As written: ensureAvdCompatibility followed by check runs a check twice. */
  method CheckAfterEnsureAsWritten(run: Check, avd: Option<Avd>) returns (first: seq<string>, again: seq<string>)
    ensures first == ["check"] && again == ["check"]
  {
    var m := new Manager();
    m.RegisterCheck(run, "check");
    var _, ran := m.EnsureAvdCompatibility(avd);
    first := ran;
    var calls0 := m.calls;
    var _ := m.Check(avd);
    again := m.calls[|calls0|..];
  }

  /** Corrected: after ensureAvdCompatibility, check answers from the cache. */
  method CheckAfterEnsureCached(run: Check, avd: Option<Avd>) returns (first: seq<string>, again: seq<string>)
    ensures first == ["check"] && again == []
  {
    var m := new Manager();
    m.RegisterCheck(run, "check");
    var _, ran := EnsureAvdCompatibilityCached(m, avd);
    first := ran;
    var calls0 := m.calls;
    var _ := m.Check(avd);
    again := m.calls[|calls0|..];
  }

  method HasCompatibilityErrors(rs: seq<CheckResult>) returns (found: bool)
    ensures found <==> exists i :: 0 <= i < |rs| && rs[i].status == Error
  {
    var i := 0;
    while i < |rs|
      invariant 0 <= i <= |rs|
      invariant forall j :: 0 <= j < i ==> rs[j].status != Error
    {
      if rs[i].status == Error {
        return true;
      }
      i := i + 1;
    }
    return false;
  }

  method ConstructIssueString(rs: seq<CheckResult>, status: Status) returns (message: string)
    ensures message == IssueString(rs, status)
  {
    message := "";
    var issueCount := 0;
    var i := 0;
    while i < |rs|
      invariant 0 <= i <= |rs|
      invariant issueCount == |Matching(rs[..i], status)|
      invariant message == Listed(Matching(rs[..i], status))
    {
      assert rs[..i + 1][..i] == rs[..i];
      if rs[i].status == status {
        if issueCount < 2 {
          if message != "" {
            message := message + ", ";
          }
          message := message + rs[i].description;
        }
        issueCount := issueCount + 1;
      }
      i := i + 1;
    }
    assert rs[..i] == rs;
    if issueCount > 2 {
      if message != "" {
        message := message + ", and more";
      }
    }
    if message != "" {
      message := message + ".";
    }
  }

  // Properties of the issue string and of the report.

  /** No description matches exactly when no result has the status. */
  lemma {:induction false} MatchingNone(rs: seq<CheckResult>, status: Status)
    ensures Matching(rs, status) == [] <==> forall i :: 0 <= i < |rs| ==> rs[i].status != status
  {
    if rs != [] {
      var front := rs[..|rs| - 1];
      MatchingNone(front, status);
      assert forall i :: 0 <= i < |front| ==> front[i] == rs[i];
    }
  }

  predicate FirstTwoEmpty(ds: seq<string>)
  {
    forall k :: 0 <= k < |ds| && k < 2 ==> ds[k] == ""
  }

  /** The message is empty exactly when the first two descriptions are. */
  lemma ListedEmpty(ds: seq<string>)
    ensures Listed(ds) == "" <==> FirstTwoEmpty(ds)
  {
    if |ds| >= 2 && ds[0] != "" {
      assert |Listed(ds)| == |ds[0]| + 2 + |ds[1]|;
    }
  }

  /** The issue string is empty exactly when the first two matching descriptions are. */
  lemma IssueStringEmpty(rs: seq<CheckResult>, status: Status)
    ensures IssueString(rs, status) == "" <==> FirstTwoEmpty(Matching(rs, status))
  {
    var ds := Matching(rs, status);
    ListedEmpty(ds);
    var m := Listed(ds);
    var m' := if |ds| > 2 && m != "" then m + ", and more" else m;
    assert IssueString(rs, status) == if m' == "" then "" else m' + ".";
    if m != "" {
      assert |m'| >= |m| > 0;
    }
  }

  /** A status no check reported gives the empty string. */
  lemma NoIssueNoMessage(rs: seq<CheckResult>, status: Status)
    requires forall i :: 0 <= i < |rs| ==> rs[i].status != status
    ensures IssueString(rs, status) == ""
  {
    MatchingNone(rs, status);
  }

  /**
   * With non-empty descriptions: the first one or two joined by ", ",
   * ", and more" when more than two match, and a final period.
   */
  lemma IssueStringShape(rs: seq<CheckResult>, status: Status)
    requires forall k :: 0 <= k < |Matching(rs, status)| ==> Matching(rs, status)[k] != ""
    ensures var ds := Matching(rs, status);
            && (|ds| == 1 ==> IssueString(rs, status) == ds[0] + ".")
            && (|ds| == 2 ==> IssueString(rs, status) == ds[0] + ", " + ds[1] + ".")
            && (|ds| > 2 ==> IssueString(rs, status) == ds[0] + ", " + ds[1] + ", and more.")
  {
  }

  /** The report is fatal exactly when some check failed with an error; a warning is never empty. */
  lemma ReportRule(rs: seq<CheckResult>)
    ensures ReportOf(rs).Fatal? <==> HasError(rs)
    ensures ReportOf(rs).Warn? ==> ReportOf(rs).message != "" && !HasError(rs)
    ensures ReportOf(rs).Quiet? <==> !HasError(rs) && IssueString(rs, Warning) == ""
  {
  }

  /** A result with Warning status and a description always reaches the user when nothing failed. */
  lemma {:induction false} WarningsReported(rs: seq<CheckResult>, i: nat)
    requires i < |rs| && rs[i].status == Warning && rs[i].description != ""
    requires forall j :: 0 <= j < |rs| ==> rs[j].status == Warning ==> rs[j].description != ""
    requires !HasError(rs)
    ensures ReportOf(rs).Warn?
  {
    MatchingNone(rs, Warning);
    var ds := Matching(rs, Warning);
    MatchingDescriptions(rs, Warning);
    assert Describes(rs, Warning, ds[0]);
    var j :| 0 <= j < |rs| && rs[j] == CheckResult(ds[0], Warning);
    IssueStringEmpty(rs, Warning);
  }

  /** Some result has the status and the description. */
  predicate Describes(rs: seq<CheckResult>, status: Status, d: string)
  {
    exists i :: 0 <= i < |rs| && rs[i] == CheckResult(d, status)
  }

  /** Every matching description is the description of a result with that status. */
  lemma {:induction false} MatchingDescriptions(rs: seq<CheckResult>, status: Status)
    ensures forall k :: 0 <= k < |Matching(rs, status)| ==> Describes(rs, status, Matching(rs, status)[k])
  {
    if rs != [] {
      var front := rs[..|rs| - 1];
      var last := rs[|rs| - 1];
      MatchingDescriptions(front, status);
      var ds := Matching(rs, status);
      var before := Matching(front, status);
      assert ds == before + (if last.status == status then [last.description] else []);
      forall k | 0 <= k < |ds|
        ensures Describes(rs, status, ds[k])
      {
        if k < |before| {
          assert ds[k] == before[k];
          assert Describes(front, status, before[k]);
          var i :| 0 <= i < |front| && front[i] == CheckResult(before[k], status);
          assert rs[i] == front[i];
        } else {
          assert rs[|rs| - 1] == CheckResult(ds[k], status);
        }
      }
    }
  }

  /** Two errors: joined by a comma, with a final period (the manager's unit tests). */
  lemma TwoErrors(bar: string, foo: string)
    requires bar != "" && foo != ""
    ensures IssueString([CheckResult(bar, Error), CheckResult(foo, Error)], Error) == bar + ", " + foo + "."
  {
    var rs := [CheckResult(bar, Error), CheckResult(foo, Error)];
    assert rs[..1][..0] == [] && rs[..1] == [rs[0]];
    assert Matching(rs, Error) == [bar, foo];
  }

  /** Three errors: the first two, then ", and more." (the manager's unit tests). */
  lemma ThreeErrors(bar: string, foo: string, baz: string)
    requires bar != "" && foo != ""
    ensures IssueString([CheckResult(bar, Error), CheckResult(foo, Error), CheckResult(baz, Error)], Error)
            == bar + ", " + foo + ", and more."
  {
    var rs := [CheckResult(bar, Error), CheckResult(foo, Error), CheckResult(baz, Error)];
    assert rs[..2][..1][..0] == [] && rs[..2][..1] == [rs[0]] && rs[..2] == [rs[0], rs[1]];
    assert Matching(rs[..2], Error) == [bar, foo];
    assert Matching(rs, Error) == [bar, foo, baz];
  }
}
