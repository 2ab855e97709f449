/** The decision which functions to instrument (filters.cc, filter.cc). */
module Filters {
  import opened Common

  datatype Action = Allow | Block

  datatype Filter = Filter(
    action: Action,
    rule: string,
    path: Option<string>,
    demangled: Option<string>,
    linkage: Option<string>,
    fewerThan: Option<int>,
    moreThan: Option<int>)

  datatype FunctionInfo = FunctionInfo(path: string, demangled: string, linkage: string, count: int)

  /** A regular expression engine: whether a text matches a pattern. */
  type Regex = (string, string) -> bool

  predicate Matches(regex: Regex, f: Filter, info: FunctionInfo) {
    && (f.path.Some? ==> regex(info.path, f.path.value))
    && (f.demangled.Some? ==> regex(info.demangled, f.demangled.value))
    && (f.linkage.Some? ==> regex(info.linkage, f.linkage.value))
    && (f.fewerThan.Some? ==> info.count < f.fewerThan.value)
    && (f.moreThan.Some? ==> f.moreThan.value < info.count)
  }

  predicate Applies(regex: Regex, f: Filter, action: Action, info: FunctionInfo) {
    f.action == action && Matches(regex, f, info)
  }

  /** A filter picks a function if, as the only filter and as a block, it leaves the function out. */
  ghost predicate Picks(regex: Regex, f: Filter, info: FunctionInfo) {
    !Keeps(regex, [f.(action := Block)], info)
  }

  ghost predicate Any(regex: Regex, filters: seq<Filter>, action: Action, info: FunctionInfo) {
    exists k :: 0 <= k < |filters| && filters[k].action == action && Picks(regex, filters[k], info)
  }

  /** The rule named is that of the first filter of the action that picks the function. */
  ghost predicate Names(regex: Regex, filters: seq<Filter>, action: Action, info: FunctionInfo, rule: string) {
    exists k :: 0 <= k < |filters| && IsFirst(regex, filters, action, info, k) && filters[k].rule == rule
  }

  ghost predicate IsFirst(regex: Regex, filters: seq<Filter>, action: Action, info: FunctionInfo, k: nat) {
    && k < |filters| && filters[k].action == action && Picks(regex, filters[k], info)
    && forall j :: 0 <= j < k ==> !(filters[j].action == action && Picks(regex, filters[j], info))
  }

  /** What each field of a filter asks for, alone; a filter without any picks every function. */
  lemma {:induction false} FieldsMean(regex: Regex, rule: string, info: FunctionInfo, pattern: string, n: int)
    ensures Picks(regex, Filter(Block, rule, Some(pattern), None, None, None, None), info) <==> regex(info.path, pattern)
    ensures Picks(regex, Filter(Block, rule, None, Some(pattern), None, None, None), info) <==> regex(info.demangled, pattern)
    ensures Picks(regex, Filter(Block, rule, None, None, Some(pattern), None, None), info) <==> regex(info.linkage, pattern)
    ensures Picks(regex, Filter(Block, rule, None, None, None, Some(n), None), info) <==> info.count < n
    ensures Picks(regex, Filter(Block, rule, None, None, None, None, Some(n)), info) <==> n < info.count
    ensures Picks(regex, Filter(Block, rule, None, None, None, None, None), info)
  {
    PicksMatches(regex, Filter(Block, rule, Some(pattern), None, None, None, None), info);
    PicksMatches(regex, Filter(Block, rule, None, Some(pattern), None, None, None), info);
    PicksMatches(regex, Filter(Block, rule, None, None, Some(pattern), None, None), info);
    PicksMatches(regex, Filter(Block, rule, None, None, None, Some(n), None), info);
    PicksMatches(regex, Filter(Block, rule, None, None, None, None, Some(n)), info);
    PicksMatches(regex, Filter(Block, rule, None, None, None, None, None), info);
  }

  /** A filter picks a function exactly when each of its fields alone does, whatever its action and rule. */
  lemma {:induction false} FieldsCombine(regex: Regex, f: Filter, rule: string, info: FunctionInfo)
    ensures Picks(regex, f, info) <==>
              && Picks(regex, Filter(Block, rule, f.path, None, None, None, None), info)
              && Picks(regex, Filter(Block, rule, None, f.demangled, None, None, None), info)
              && Picks(regex, Filter(Block, rule, None, None, f.linkage, None, None), info)
              && Picks(regex, Filter(Block, rule, None, None, None, f.fewerThan, None), info)
              && Picks(regex, Filter(Block, rule, None, None, None, None, f.moreThan), info)
  {
    PicksMatches(regex, f, info);
    PicksMatches(regex, Filter(Block, rule, f.path, None, None, None, None), info);
    PicksMatches(regex, Filter(Block, rule, None, f.demangled, None, None, None), info);
    PicksMatches(regex, Filter(Block, rule, None, None, f.linkage, None, None), info);
    PicksMatches(regex, Filter(Block, rule, None, None, None, f.fewerThan, None), info);
    PicksMatches(regex, Filter(Block, rule, None, None, None, None, f.moreThan), info);
  }

  lemma {:induction false} PicksMatches(regex: Regex, f: Filter, info: FunctionInfo)
    ensures Picks(regex, f, info) <==> Matches(regex, f, info)
  {
    var alone := f.(action := Block);
    assert [alone][1..] == [];
    assert First(regex, [alone], Allow, info).None?;
    assert First(regex, [alone], Block, info).Some? <==> Applies(regex, alone, Block, info);
  }

  /**
   * A function is left out only when some filter blocks it and none allows it; the rule
   * given is the first that allows it, or else the first that blocks it.
   */
  method InstrumentFunction(regex: Regex, filters: seq<Filter>, info: FunctionInfo)
    returns (instrument: bool, rule: Option<string>)
    ensures instrument == Keeps(regex, filters, info)
    ensures rule == Reason(regex, filters, info)
    ensures instrument <==> Any(regex, filters, Allow, info) || !Any(regex, filters, Block, info)
    ensures rule.None? <==> !Any(regex, filters, Allow, info) && !Any(regex, filters, Block, info)
    ensures rule.Some? ==>
              Names(regex, filters, if Any(regex, filters, Allow, info) then Allow else Block, info, rule.value)
  {
    rule := None;
    var block, allow := false, false;
    var k := 0;
    while k < |filters| && !block
      invariant k <= |filters|
      invariant First(regex, filters, Block, info) == if block then rule else First(regex, filters[k..], Block, info)
      invariant block <==> rule.Some?
    {
      block := filters[k].action.Block? && Matches(regex, filters[k], info);
      if block {
        rule := Some(filters[k].rule);
      }
      k := k + 1;
    }
    k := 0;
    while k < |filters| && !allow
      invariant k <= |filters|
      invariant First(regex, filters, Block, info).Some? == block
      invariant First(regex, filters, Allow, info) == if allow then rule else First(regex, filters[k..], Allow, info)
      invariant allow ==> rule.Some?
      invariant !allow ==> rule == First(regex, filters, Block, info)
    {
      allow := filters[k].action.Allow? && Matches(regex, filters[k], info);
      if allow {
        rule := Some(filters[k].rule);
      }
      k := k + 1;
    }
    instrument := !block || allow;
    DecisionMeans(regex, filters, filters, info);
    ReasonMeans(regex, filters, info);
  }

  /** The rule of the first filter of the action that matches. */
  function First(regex: Regex, filters: seq<Filter>, action: Action, info: FunctionInfo): Option<string> {
    if filters == [] then None
    else if Applies(regex, filters[0], action, info) then Some(filters[0].rule)
    else First(regex, filters[1..], action, info)
  }

  function Keeps(regex: Regex, filters: seq<Filter>, info: FunctionInfo): bool {
    First(regex, filters, Block, info).None? || First(regex, filters, Allow, info).Some?
  }

  function Reason(regex: Regex, filters: seq<Filter>, info: FunctionInfo): Option<string> {
    if First(regex, filters, Allow, info).Some? then First(regex, filters, Allow, info)
    else First(regex, filters, Block, info)
  }

  /** One is found exactly when some filter of the action picks the function, and then it is the first. */
  lemma {:induction false} FirstMeans(regex: Regex, filters: seq<Filter>, action: Action, info: FunctionInfo)
    ensures First(regex, filters, action, info).Some? <==> Any(regex, filters, action, info)
    ensures First(regex, filters, action, info).Some? ==>
              Names(regex, filters, action, info, First(regex, filters, action, info).value)
  {
    if filters != [] {
      var rest := filters[1..];
      FirstMeans(regex, rest, action, info);
      PicksMatches(regex, filters[0], info);
      if Applies(regex, filters[0], action, info) {
        assert IsFirst(regex, filters, action, info, 0);
      } else {
        if First(regex, filters, action, info).Some? {
          var k :| 0 <= k < |rest| && IsFirst(regex, rest, action, info, k) && rest[k].rule == First(regex, rest, action, info).value;
          FirstAfter(regex, filters, action, info, k);
        }
        if Any(regex, filters, action, info) {
          var k :| 0 <= k < |filters| && filters[k].action == action && Picks(regex, filters[k], info);
          assert rest[k - 1] == filters[k];
        }
      }
    }
  }

  lemma {:induction false} FirstAfter(regex: Regex, filters: seq<Filter>, action: Action, info: FunctionInfo, k: nat)
    requires filters != [] && !(filters[0].action == action && Picks(regex, filters[0], info))
    requires IsFirst(regex, filters[1..], action, info, k)
    ensures IsFirst(regex, filters, action, info, k + 1) && filters[k + 1] == filters[1..][k]
  {
    var rest := filters[1..];
    forall j | 0 <= j < k + 1
      ensures !(filters[j].action == action && Picks(regex, filters[j], info))
    {
      if 0 < j {
        assert filters[j] == rest[j - 1];
      }
    }
  }

  /** The rule given is that of the first filter that allows the function, or else of the first that blocks it. */
  lemma {:induction false} ReasonMeans(regex: Regex, filters: seq<Filter>, info: FunctionInfo)
    ensures var reason := Reason(regex, filters, info);
            && (reason.None? <==> !Any(regex, filters, Allow, info) && !Any(regex, filters, Block, info))
            && (Any(regex, filters, Allow, info) ==> Names(regex, filters, Allow, info, reason.value))
            && (reason.Some? && !Any(regex, filters, Allow, info) ==> Names(regex, filters, Block, info, reason.value))
  {
    FirstMeans(regex, filters, Allow, info);
    FirstMeans(regex, filters, Block, info);
  }

  /** The decision in plain words, and that only the filters given matter, not their order. */
  lemma {:induction false} DecisionMeans(regex: Regex, filters: seq<Filter>, more: seq<Filter>, info: FunctionInfo)
    ensures Keeps(regex, filters, info) <==>
              Any(regex, filters, Allow, info) || !Any(regex, filters, Block, info)
    ensures (forall f :: f in filters <==> f in more) ==> Keeps(regex, filters, info) == Keeps(regex, more, info)
  {
    FirstMeans(regex, filters, Allow, info);
    FirstMeans(regex, filters, Block, info);
    FirstMeans(regex, more, Allow, info);
    FirstMeans(regex, more, Block, info);
    if forall f :: f in filters <==> f in more {
      SameFilters(regex, filters, more, Allow, info);
      SameFilters(regex, filters, more, Block, info);
      SameFilters(regex, more, filters, Allow, info);
      SameFilters(regex, more, filters, Block, info);
    }
  }

  lemma {:induction false} SameFilters(regex: Regex, filters: seq<Filter>, more: seq<Filter>, action: Action, info: FunctionInfo)
    requires forall f :: f in filters ==> f in more
    ensures Any(regex, filters, action, info) ==> Any(regex, more, action, info)
  {
    if Any(regex, filters, action, info) {
      var k :| 0 <= k < |filters| && filters[k].action == action && Picks(regex, filters[k], info);
      assert filters[k] in more;
      var j :| 0 <= j < |more| && more[j] == filters[k];
    }
  }
}
