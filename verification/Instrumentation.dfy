/**
 * What the instrumentation pass (inject_instrumentation.cc) makes of a module, and the
 * proof that it preserves the program's behaviour and logs exactly its calls.
 */
module Instrumentation {
  import opened Common
  import opened Program

  datatype Options = Options(initialize: bool, enable: bool)

  const MAIN := "main"

  /** A module with the id of each function and whether the filters keep it. */
  datatype Plan = Plan(m: Module, ids: seq<nat>, kept: seq<bool>, options: Options) {
    ghost predicate Valid() {
      |ids| == |kept| == |m| && WellFormed(m)
    }
  }

  /** The calls put in front of a function's first instruction. */
  function Prologue(id: nat, isMain: bool, o: Options): Code {
    (if isMain && o.initialize then [Runtime(Initialize)] + (if o.enable then [Runtime(Enable)] else []) else [])
    + [Runtime(LogEntry(id))]
  }

  /** The calls put in front of each return. */
  function Epilogue(id: nat, isMain: bool): Code {
    [Runtime(LogExit(id))] + if isMain then [Runtime(Deinitialize)] else []
  }

  /** The code with `extra` in front of each return. */
  function WithEpilogue(code: Code, extra: Code): Code {
    if code == [] then []
    else (if code[0].Ret? then extra + [code[0]] else [code[0]]) + WithEpilogue(code[1..], extra)
  }

  /** The first place after the phi nodes. */
  function InsertionPoint(code: Code): (p: nat)
    ensures p <= |code| && (p < |code| ==> !code[p].Phi?)
    ensures forall k :: 0 <= k < p ==> code[k].Phi?
  {
    if code == [] || !code[0].Phi? then 0 else 1 + InsertionPoint(code[1..])
  }

  function WithPrologue(code: Code, extra: Code): Code {
    code[..InsertionPoint(code)] + extra + code[InsertionPoint(code)..]
  }

  function Instrumented(fn: Function, id: nat, o: Options): Function {
    var main := fn.name == MAIN;
    fn.(blocks := seq(|fn.blocks|, b requires 0 <= b < |fn.blocks| =>
          WithEpilogue(if b == 0 then WithPrologue(fn.blocks[0], Prologue(id, main, o)) else fn.blocks[b],
                       Epilogue(id, main))))
  }

  function Apply(p: Plan): (r: Module)
    requires |p.ids| == |p.kept| == |p.m|
    ensures |r| == |p.m|
  {
    seq(|p.m|, f requires 0 <= f < |p.m| =>
      if p.m[f].blocks != [] && p.kept[f] then Instrumented(p.m[f], p.ids[f], p.options) else p.m[f])
  }

  /** The calls in front of a return of function f, and in front of its first instruction. */
  function Leave(p: Plan, f: nat): Code
    requires f < |p.m| == |p.ids| == |p.kept|
  {
    if p.kept[f] then Epilogue(p.ids[f], p.m[f].name == MAIN) else []
  }

  function Enter(p: Plan, f: nat): Code
    requires f < |p.m| == |p.ids| == |p.kept|
  {
    if p.kept[f] then Prologue(p.ids[f], p.m[f].name == MAIN, p.options) else []
  }

  lemma {:induction false} WithEpilogueAppend(a: Code, b: Code, extra: Code)
    ensures WithEpilogue(a + b, extra) == WithEpilogue(a, extra) + WithEpilogue(b, extra)
  {
    if a == [] {
      assert a + b == b;
    } else {
      assert (a + b)[1..] == a[1..] + b;
      WithEpilogueAppend(a[1..], b, extra);
    }
  }

  lemma {:induction false} WithEpilogueOfCalls(code: Code, extra: Code)
    requires (forall k :: 0 <= k < |code| ==> !code[k].Ret?) || extra == []
    ensures WithEpilogue(code, extra) == code
  {
    if code != [] {
      WithEpilogueOfCalls(code[1..], extra);
    }
  }

  lemma {:induction false} EntryBlock(code: Code, enter: Code, leave: Code)
    requires (code != [] ==> !code[0].Phi?) && forall k :: 0 <= k < |enter| ==> enter[k].Runtime?
    ensures WithEpilogue(WithPrologue(code, enter), leave) == enter + WithEpilogue(code, leave)
  {
    assert WithPrologue(code, enter) == enter + code;
    WithEpilogueAppend(enter, code, leave);
    WithEpilogueOfCalls(enter, leave);
  }

  /** The blocks of the instrumented module. */
  lemma {:induction false} BlockOf(p: Plan, f: nat, b: nat)
    requires p.Valid() && f < |p.m| && b < |p.m[f].blocks|
    ensures |Apply(p)[f].blocks| == |p.m[f].blocks|
    ensures Apply(p)[f].blocks[b] == (if b == 0 then Enter(p, f) else []) + WithEpilogue(p.m[f].blocks[b], Leave(p, f))
  {
    var code := p.m[f].blocks[b];
    if p.kept[f] {
      if b == 0 {
        assert code != [] ==> Allowed(p.m[f].blocks[0][0], 0);
        EntryBlock(code, Enter(p, f), Leave(p, f));
      }
    } else {
      WithEpilogueOfCalls(code, []);
    }
  }

  function Ticks(n: nat, rest: Run): Run {
    if n == 0 then rest else Tick(Ticks(n - 1, rest))
  }

  /** The run of the instrumented code that makes the same choices. */
  ghost function Lift(p: Plan, f: nat, code: Code, run: Run): Run
    requires p.Valid() && f < |p.m|
    decreases run, 0
  {
    match run
    case Done => Ticks(|Leave(p, f)|, Done)
    case Tick(rest) => Tick(if code == [] then rest else Lift(p, f, code[1..], rest))
    case Invoke(callee, rest) =>
      if code != [] && code[0].Call? && Defined(p.m, code[0].callee)
      then Invoke(LiftCall(p, code[0].callee, callee), Lift(p, f, code[1..], rest)) else run
    case Go(target, rest) =>
      if target < |p.m[f].blocks| then Go(target, Lift(p, f, p.m[f].blocks[target], rest)) else run
  }

  ghost function LiftCall(p: Plan, f: nat, run: Run): Run
    requires p.Valid() && Defined(p.m, f)
    decreases run, 1
  {
    Ticks(|Enter(p, f)|, Lift(p, f, p.m[f].blocks[0], run))
  }

  function LoggedCalls(code: Code): (r: seq<Event>)
    requires forall k :: 0 <= k < |code| ==> code[k].Runtime?
    ensures |r| == |code| && forall k :: 0 <= k < |code| ==> r[k] == Logged(code[k].call)
  {
    seq(|code|, k requires 0 <= k < |code| => Logged(code[k].call))
  }

  /** Runtime calls put in front of some code run before it and log what they are. */
  lemma {:induction false} RuntimeFirst(m: Module, f: nat, extra: Code, code: Code, run: Run)
    requires forall k :: 0 <= k < |extra| ==> extra[k].Runtime?
    ensures Exec(m, f, extra + code, Ticks(|extra|, run)) == Join(Some(LoggedCalls(extra)), Exec(m, f, code, run))
  {
    if extra == [] {
      assert extra + code == code;
      assert Exec(m, f, code, run).Some? ==> LoggedCalls(extra) + Exec(m, f, code, run).value == Exec(m, f, code, run).value;
    } else {
      assert (extra + code)[1..] == extra[1..] + code;
      RuntimeFirst(m, f, extra[1..], code, run);
      var after := Exec(m, f, code, run);
      assert after.Some? ==>
          [Logged(extra[0].call)] + (LoggedCalls(extra[1..]) + after.value) == LoggedCalls(extra) + after.value;
    }
  }

  /** The log of a call tree: each kept call brackets the log of the calls inside it. */
  function Brackets(p: Plan, t: Forest): seq<RuntimeCall>
    requires |p.ids| == |p.kept|
  {
    match t
    case Leaf => []
    case Node(f, inner, next) =>
      (if f < |p.kept| && p.kept[f] then [LogEntry(p.ids[f])] + Brackets(p, inner) + [LogExit(p.ids[f])]
       else Brackets(p, inner))
      + Brackets(p, next)
  }

  /** Code that no entry block rule forbids in a block other than the first. */
  ghost predicate Plain(code: Code) {
    forall k :: 0 <= k < |code| ==> Allowed(code[k], 1)
  }

  lemma {:induction false} BlocksArePlain(m: Module, f: nat, b: nat)
    requires WellFormed(m) && f < |m| && b < |m[f].blocks|
    ensures Plain(m[f].blocks[b])
  {
    forall k | 0 <= k < |m[f].blocks[b]|
      ensures Allowed(m[f].blocks[b][k], 1)
    {
      assert Allowed(m[f].blocks[b][k], b);
    }
  }

  ghost function Exit(p: Plan, f: nat): seq<RuntimeCall>
    requires f < |p.m| == |p.ids| == |p.kept|
  {
    if p.kept[f] then [LogExit(p.ids[f])] else []
  }

  ghost function Entry(p: Plan, f: nat): seq<RuntimeCall>
    requires f < |p.m| == |p.ids| == |p.kept|
  {
    if p.kept[f] then [LogEntry(p.ids[f])] else []
  }

  lemma {:induction false} LogOne(c: RuntimeCall)
    ensures Visible([Logged(c)]) == []
    ensures Log([Logged(c)]) == if c.LogEntry? || c.LogExit? then [c] else []
  {
    assert [Logged(c)][1..] == [];
  }

  /** Appending one runtime call to others. */
  lemma {:induction false} LogNext(code: Code, c: RuntimeCall)
    requires forall k :: 0 <= k < |code| ==> code[k].Runtime?
    ensures Visible(LoggedCalls(code + [Runtime(c)])) == Visible(LoggedCalls(code))
    ensures Log(LoggedCalls(code + [Runtime(c)])) ==
            Log(LoggedCalls(code)) + if c.LogEntry? || c.LogExit? then [c] else []
  {
    assert LoggedCalls(code + [Runtime(c)]) == LoggedCalls(code) + [Logged(c)];
    Appended(LoggedCalls(code), [Logged(c)]);
    LogOne(c);
  }

  /** What the inserted calls add to a trace. */
  lemma {:induction false} InsertedCalls(p: Plan, f: nat)
    requires p.Valid() && f < |p.m|
    ensures Visible(LoggedCalls(Enter(p, f))) == [] && Log(LoggedCalls(Enter(p, f))) == Entry(p, f)
    ensures Visible(LoggedCalls(Leave(p, f))) == [] && Log(LoggedCalls(Leave(p, f))) == Exit(p, f)
  {
    if p.kept[f] {
      var id := p.ids[f];
      LogNext([], Initialize);
      LogNext([Runtime(Initialize)], Enable);
      var before := Enter(p, f)[..|Enter(p, f)| - 1];
      assert before == [] || before == [] + [Runtime(Initialize)] || before == [Runtime(Initialize)] + [Runtime(Enable)];
      LogNext(before, LogEntry(id));
      assert Enter(p, f) == before + [Runtime(LogEntry(id))];
      LogNext([], LogExit(id));
      LogNext([Runtime(LogExit(id))], Deinitialize);
      assert Leave(p, f) == [] + [Runtime(LogExit(id))] || Leave(p, f) == [Runtime(LogExit(id))] + [Runtime(Deinitialize)];
    }
  }

  /** An execution that shows `shown` and logs `log`. */
  ghost predicate Agrees(r: Option<seq<Event>>, shown: seq<Event>, log: seq<RuntimeCall>) {
    match r
    case Some(trace) => Visible(trace) == shown && Log(trace) == log
    case None => false
  }

  lemma {:induction false} AgreesJoin(a: Option<seq<Event>>, b: Option<seq<Event>>, x: seq<Event>, y: seq<Event>,
                                      k: seq<RuntimeCall>, l: seq<RuntimeCall>)
    requires Agrees(a, x, k) && Agrees(b, y, l)
    ensures Agrees(Join(a, b), x + y, k + l)
  {
    Appended(a.value, b.value);
  }

  /** One instruction that is not a return, and what follows it. */
  lemma {:induction false} Stepwise(code: Code, extra: Code)
    requires code != []
    ensures !code[0].Ret? ==> WithEpilogue(code, extra) != [] && WithEpilogue(code, extra)[0] == code[0]
                              && WithEpilogue(code, extra)[1..] == WithEpilogue(code[1..], extra)
    ensures code[0].Ret? ==> WithEpilogue(code, extra) == extra + ([Ret] + WithEpilogue(code[1..], extra))
  {
  }

  /** What the instrumented code of a suffix of f shows and logs, for the choices of `run`. */
  ghost predicate Lifts(p: Plan, f: nat, code: Code, run: Run)
    requires p.Valid() && f < |p.m| && Exec(p.m, f, code, run).Some?
  {
    Agrees(Exec(Apply(p), f, WithEpilogue(code, Leave(p, f)), Lift(p, f, code, run)),
           Exec(p.m, f, code, run).value,
           Brackets(p, Calls(p.m, f, code, run)) + Exit(p, f))
  }

  /**
   * Every execution of the original has an instrumented one that shows the same, and logs
   * exactly the calls it makes.
   */
  lemma {:induction false} LiftExec(p: Plan, f: nat, code: Code, run: Run)
    requires p.Valid() && f < |p.m| && Plain(code) && Exec(p.m, f, code, run).Some?
    ensures Lifts(p, f, code, run)
    decreases run, 0
  {
    match run
    case Done => LiftDone(p, f, code);
    case Tick(rest) =>
      LiftExec(p, f, code[1..], rest);
      LiftTick(p, f, code, rest);
    case Invoke(callee, rest) =>
      LiftActivation(p, code[0].callee, callee);
      LiftExec(p, f, code[1..], rest);
      LiftInvoke(p, f, code, callee, rest);
    case Go(target, rest) =>
      BlocksArePlain(p.m, f, target);
      LiftExec(p, f, p.m[f].blocks[target], rest);
      LiftGo(p, f, code, target, rest);
  }

  lemma {:induction false} LiftDone(p: Plan, f: nat, code: Code)
    requires p.Valid() && f < |p.m| && code != [] && code[0].Ret?
    ensures Lifts(p, f, code, Done)
  {
    Stepwise(code, Leave(p, f));
    var rest := [Ret] + WithEpilogue(code[1..], Leave(p, f));
    RuntimeFirst(Apply(p), f, Leave(p, f), rest, Done);
    InsertedCalls(p, f);
    assert LoggedCalls(Leave(p, f)) + [] == LoggedCalls(Leave(p, f));
  }

  lemma {:induction false} LiftTick(p: Plan, f: nat, code: Code, rest: Run)
    requires p.Valid() && f < |p.m| && Plain(code) && Exec(p.m, f, code, Tick(rest)).Some?
    requires Lifts(p, f, code[1..], rest)
    ensures Lifts(p, f, code, Tick(rest))
  {
    Stepwise(code, Leave(p, f));
    assert Allowed(code[0], 1);
    var r := Exec(Apply(p), f, WithEpilogue(code[1..], Leave(p, f)), Lift(p, f, code[1..], rest));
    var x: Event := if code[0].Effect? then Seen(code[0].e) else External(if code[0].Call? then code[0].callee else 0);
    Appended([x], r.value);
    assert Visible([x]) == [x] && Log([x]) == [] by {
      assert [x][1..] == [];
    }
  }

  lemma {:induction false} LiftInvoke(p: Plan, f: nat, code: Code, callee: Run, rest: Run)
    requires p.Valid() && f < |p.m| && Plain(code) && Exec(p.m, f, code, Invoke(callee, rest)).Some?
    requires Lifts(p, f, code[1..], rest) && ActivationLifts(p, code[0].callee, callee)
    ensures Lifts(p, f, code, Invoke(callee, rest))
  {
    Stepwise(code, Leave(p, f));
    var g := code[0].callee;
    var inner := Calls(p.m, g, p.m[g].blocks[0], callee);
    var next := Calls(p.m, f, code[1..], rest);
    AgreesJoin(Activate(Apply(p), g, LiftCall(p, g, callee)),
               Exec(Apply(p), f, WithEpilogue(code[1..], Leave(p, f)), Lift(p, f, code[1..], rest)),
               Activate(p.m, g, callee).value, Exec(p.m, f, code[1..], rest).value,
               Brackets(p, Node(g, inner, Leaf)), Brackets(p, next) + Exit(p, f));
    BracketsNode(p, g, inner, next, Exit(p, f));
    var first := Activate(Apply(p), g, LiftCall(p, g, callee));
    var second := Exec(Apply(p), f, WithEpilogue(code[1..], Leave(p, f)), Lift(p, f, code[1..], rest));
    assert Exec(Apply(p), f, WithEpilogue(code, Leave(p, f)), Lift(p, f, code, Invoke(callee, rest))) == Join(first, second);
    assert Calls(p.m, f, code, Invoke(callee, rest)) == Node(g, inner, next);
  }

  lemma {:induction false} BracketsNode(p: Plan, g: nat, inner: Forest, next: Forest, tail: seq<RuntimeCall>)
    requires |p.ids| == |p.kept|
    ensures Brackets(p, Node(g, inner, next)) + tail == Brackets(p, Node(g, inner, Leaf)) + (Brackets(p, next) + tail)
  {
    assert Brackets(p, Node(g, inner, next)) == Brackets(p, Node(g, inner, Leaf)) + Brackets(p, next);
  }

  lemma {:induction false} LiftGo(p: Plan, f: nat, code: Code, target: nat, rest: Run)
    requires p.Valid() && f < |p.m| && Plain(code) && Exec(p.m, f, code, Go(target, rest)).Some?
    requires Lifts(p, f, p.m[f].blocks[target], rest)
    ensures Lifts(p, f, code, Go(target, rest))
  {
    Stepwise(code, Leave(p, f));
    assert Allowed(code[0], 1);
    BlockOf(p, f, target);
    var block, go := p.m[f].blocks[target], Go(target, rest);
    assert Apply(p)[f].blocks[target] == WithEpilogue(block, Leave(p, f));
    assert Exec(Apply(p), f, WithEpilogue(code, Leave(p, f)), Lift(p, f, code, go)) ==
           Exec(Apply(p), f, WithEpilogue(block, Leave(p, f)), Lift(p, f, block, rest));
    assert Exec(p.m, f, code, go) == Exec(p.m, f, block, rest);
    assert Calls(p.m, f, code, go) == Calls(p.m, f, block, rest);
  }

  ghost predicate ActivationLifts(p: Plan, f: nat, run: Run)
    requires p.Valid() && Defined(p.m, f) && Activate(p.m, f, run).Some?
  {
    && Defined(Apply(p), f)
    && Agrees(Activate(Apply(p), f, LiftCall(p, f, run)),
              Activate(p.m, f, run).value,
              Brackets(p, Node(f, Calls(p.m, f, p.m[f].blocks[0], run), Leaf)))
  }

  lemma {:induction false} BracketsSingle(p: Plan, f: nat, inner: Forest)
    requires f < |p.m| == |p.ids| == |p.kept|
    ensures Entry(p, f) + (Brackets(p, inner) + Exit(p, f)) == Brackets(p, Node(f, inner, Leaf))
  {
  }

  lemma {:induction false} LiftActivation(p: Plan, f: nat, run: Run)
    requires p.Valid() && Defined(p.m, f) && Activate(p.m, f, run).Some?
    ensures ActivationLifts(p, f, run)
    decreases run, 1
  {
    BlocksArePlain(p.m, f, 0);
    LiftExec(p, f, p.m[f].blocks[0], run);
    LiftEntry(p, f, run);
  }

  lemma {:induction false} LiftEntry(p: Plan, f: nat, run: Run)
    requires p.Valid() && Defined(p.m, f) && Activate(p.m, f, run).Some?
    requires Lifts(p, f, p.m[f].blocks[0], run)
    ensures ActivationLifts(p, f, run)
  {
    var code := p.m[f].blocks[0];
    BlockOf(p, f, 0);
    var after, inner := WithEpilogue(code, Leave(p, f)), Calls(p.m, f, code, run);
    var r := Exec(Apply(p), f, after, Lift(p, f, code, run));
    RuntimeFirst(Apply(p), f, Enter(p, f), after, Lift(p, f, code, run));
    InsertedCalls(p, f);
    AgreesJoin(Some(LoggedCalls(Enter(p, f))), r,
               [], Exec(p.m, f, code, run).value, Entry(p, f), Brackets(p, inner) + Exit(p, f));
    BracketsSingle(p, f, inner);
    assert [] + Exec(p.m, f, code, run).value == Activate(p.m, f, run).value;
    assert Activate(Apply(p), f, LiftCall(p, f, run)) == Join(Some(LoggedCalls(Enter(p, f))), r);
  }

  /** Takes off the first `n` steps of a run. */
  function Untick(n: nat, run: Run): (r: Run)
    ensures r == run || r < run
  {
    if n == 0 || !run.Tick? then run else Untick(n - 1, run.rest)
  }

  /** The run of the original code that makes the choices of an instrumented run. */
  ghost function Lower(p: Plan, f: nat, code: Code, run: Run): Run
    requires p.Valid() && f < |p.m|
    decreases run, 0
  {
    if code == [] || code[0].Ret? then Done
    else
      match run
      case Done => Done
      case Tick(rest) => Tick(Lower(p, f, code[1..], rest))
      case Invoke(callee, rest) =>
        if code[0].Call? && Defined(p.m, code[0].callee)
        then Invoke(LowerCall(p, code[0].callee, callee), Lower(p, f, code[1..], rest)) else run
      case Go(target, rest) =>
        if target < |p.m[f].blocks| then Go(target, Lower(p, f, p.m[f].blocks[target], rest)) else run
  }

  ghost function LowerCall(p: Plan, f: nat, run: Run): Run
    requires p.Valid() && Defined(p.m, f)
    decreases run, 1
  {
    Lower(p, f, p.m[f].blocks[0], Untick(|Enter(p, f)|, run))
  }

  /** Runtime calls put in front of some code must run before it. */
  lemma {:induction false} RuntimeForced(m: Module, f: nat, extra: Code, code: Code, run: Run)
    requires forall k :: 0 <= k < |extra| ==> extra[k].Runtime?
    requires Exec(m, f, extra + code, run).Some?
    ensures run == Ticks(|extra|, Untick(|extra|, run)) && Exec(m, f, code, Untick(|extra|, run)).Some?
  {
    if extra == [] {
      assert extra + code == code;
    } else {
      assert (extra + code)[0] == extra[0];
      assert (extra + code)[1..] == extra[1..] + code;
      RuntimeForced(m, f, extra[1..], code, run.rest);
    }
  }

  /** Every execution of the instrumented code is the lifted form of one of the original. */
  lemma {:induction false} LowerExec(p: Plan, f: nat, code: Code, run: Run)
    requires p.Valid() && f < |p.m| && Plain(code)
    requires Exec(Apply(p), f, WithEpilogue(code, Leave(p, f)), run).Some?
    ensures Exec(p.m, f, code, Lower(p, f, code, run)).Some? && run == Lift(p, f, code, Lower(p, f, code, run))
    decreases run, 0
  {
    assert code != [];
    Stepwise(code, Leave(p, f));
    if code[0].Ret? {
      var rest := [Ret] + WithEpilogue(code[1..], Leave(p, f));
      RuntimeForced(Apply(p), f, Leave(p, f), rest, run);
    } else {
      assert Allowed(code[0], 1);
      match run
      case Tick(rest) => LowerExec(p, f, code[1..], rest);
      case Invoke(callee, rest) =>
        LowerActivation(p, code[0].callee, callee);
        LowerExec(p, f, code[1..], rest);
      case Go(target, rest) =>
        BlocksArePlain(p.m, f, target);
        BlockOf(p, f, target);
        assert Apply(p)[f].blocks[target] == WithEpilogue(p.m[f].blocks[target], Leave(p, f));
        LowerExec(p, f, p.m[f].blocks[target], rest);
    }
  }

  lemma {:induction false} LowerActivation(p: Plan, f: nat, run: Run)
    requires p.Valid() && Defined(p.m, f) && Defined(Apply(p), f) && Activate(Apply(p), f, run).Some?
    ensures Activate(p.m, f, LowerCall(p, f, run)).Some? && run == LiftCall(p, f, LowerCall(p, f, run))
    decreases run, 1
  {
    BlocksArePlain(p.m, f, 0);
    BlockOf(p, f, 0);
    RuntimeForced(Apply(p), f, Enter(p, f), WithEpilogue(p.m[f].blocks[0], Leave(p, f)), run);
    LowerExec(p, f, p.m[f].blocks[0], Untick(|Enter(p, f)|, run));
  }

  /** A log spelled out from a forest of function ids, and the forest read back from a log. */
  function Spell(t: Forest): seq<RuntimeCall> {
    match t
    case Leaf => []
    case Node(id, inner, next) => [LogEntry(id)] + (Spell(inner) + ([LogExit(id)] + Spell(next)))
  }

  function Parse(log: seq<RuntimeCall>): (r: Option<(Forest, seq<RuntimeCall>)>)
    ensures r.Some? ==> |r.value.1| <= |log|
    decreases |log|
  {
    if log == [] || log[0].LogExit? then Some((Leaf, log))
    else if !log[0].LogEntry? then None
    else
      var inner := Parse(log[1..]);
      if inner.None? || inner.value.1 == [] || inner.value.1[0] != LogExit(log[0].id) then None
      else
        var next := Parse(inner.value.1[1..]);
        if next.None? then None else Some((Node(log[0].id, inner.value.0, next.value.0), next.value.1))
  }

  /** Reading back a spelled forest gives the forest: entries and exits nest, and matching ones have the same id. */
  lemma {:induction false} ParseSpell(t: Forest, tail: seq<RuntimeCall>)
    requires tail == [] || tail[0].LogExit?
    ensures Parse(Spell(t) + tail) == Some((t, tail))
  {
    match t
    case Leaf => assert Spell(t) + tail == tail;
    case Node(id, inner, next) =>
      var rest := [LogExit(id)] + (Spell(next) + tail);
      Regroup(id, Spell(inner), Spell(next), tail);
      assert ([LogEntry(id)] + (Spell(inner) + rest))[1..] == Spell(inner) + rest;
      ParseSpell(inner, rest);
      assert rest[1..] == Spell(next) + tail;
      ParseSpell(next, tail);
  }

  lemma {:induction false} Regroup(id: nat, a: seq<RuntimeCall>, b: seq<RuntimeCall>, tail: seq<RuntimeCall>)
    ensures [LogEntry(id)] + (a + ([LogExit(id)] + b)) + tail == [LogEntry(id)] + (a + ([LogExit(id)] + (b + tail)))
  {
  }

  function Graft(a: Forest, b: Forest): Forest {
    match a
    case Leaf => b
    case Node(f, inner, next) => Node(f, inner, Graft(next, b))
  }

  /** The calls of kept functions, by id: a call of a blocked function is replaced by the calls inside it. */
  function Shape(p: Plan, t: Forest): Forest
    requires |p.ids| == |p.kept|
  {
    match t
    case Leaf => Leaf
    case Node(f, inner, next) =>
      if f < |p.kept| && p.kept[f] then Node(p.ids[f], Shape(p, inner), Shape(p, next))
      else Graft(Shape(p, inner), Shape(p, next))
  }

  lemma {:induction false} SpellGraft(a: Forest, b: Forest)
    ensures Spell(Graft(a, b)) == Spell(a) + Spell(b)
  {
    if a.Node? {
      SpellGraft(a.next, b);
    }
  }

  lemma {:induction false} BracketsSpellShape(p: Plan, t: Forest)
    requires |p.ids| == |p.kept|
    ensures Brackets(p, t) == Spell(Shape(p, t))
  {
    if t.Node? {
      BracketsSpellShape(p, t.inner);
      BracketsSpellShape(p, t.next);
      SpellGraft(Shape(p, t.inner), Shape(p, t.next));
    }
  }

  /**
   * Every activation of the instrumented program shows what one of the original shows, and
   * its log reads back as the tree of the calls of kept functions that one makes.
   */
  lemma {:induction false} InstrumentedRun(p: Plan, f: nat, run: Run)
    requires p.Valid() && Defined(p.m, f) && Defined(Apply(p), f) && Activate(Apply(p), f, run).Some?
    ensures var trace, choices := Activate(Apply(p), f, run).value, LowerCall(p, f, run);
            && Activate(p.m, f, choices) == Some(Visible(trace))
            && Parse(Log(trace)) ==
               Some((Shape(p, Node(f, Calls(p.m, f, p.m[f].blocks[0], choices), Leaf)), []))
  {
    LowerActivation(p, f, run);
    var choices := LowerCall(p, f, run);
    LiftActivation(p, f, choices);
    var tree := Node(f, Calls(p.m, f, p.m[f].blocks[0], choices), Leaf);
    BracketsSpellShape(p, tree);
    ParseSpell(Shape(p, tree), []);
    assert Spell(Shape(p, tree)) + [] == Spell(Shape(p, tree));
  }

  /** Every activation of the original program has one of the instrumented program that shows the same. */
  lemma {:induction false} OriginalRun(p: Plan, f: nat, run: Run)
    requires p.Valid() && Defined(p.m, f) && Activate(p.m, f, run).Some?
    ensures Defined(Apply(p), f)
    ensures var trace := Activate(Apply(p), f, LiftCall(p, f, run));
            && trace.Some? && Visible(trace.value) == Activate(p.m, f, run).value
            && Parse(Log(trace.value)) == Some((Shape(p, Node(f, Calls(p.m, f, p.m[f].blocks[0], run), Leaf)), []))
  {
    LiftActivation(p, f, run);
    var tree := Node(f, Calls(p.m, f, p.m[f].blocks[0], run), Leaf);
    BracketsSpellShape(p, tree);
    ParseSpell(Shape(p, tree), []);
    assert Spell(Shape(p, tree)) + [] == Spell(Shape(p, tree));
  }

  function EraseCode(code: Code): Code {
    if code == [] then [] else (if code[0].Runtime? then [] else [code[0]]) + EraseCode(code[1..])
  }

  /** The module without its calls of the runtime. */
  function Erase(m: Module): Module {
    seq(|m|, f requires 0 <= f < |m| =>
      m[f].(blocks := seq(|m[f].blocks|, b requires 0 <= b < |m[f].blocks| => EraseCode(m[f].blocks[b]))))
  }

  lemma {:induction false} EraseAppend(a: Code, b: Code)
    ensures EraseCode(a + b) == EraseCode(a) + EraseCode(b)
  {
    if a == [] {
      assert a + b == b;
    } else {
      assert (a + b)[1..] == a[1..] + b;
      EraseAppend(a[1..], b);
    }
  }

  lemma {:induction false} EraseRuntime(code: Code)
    requires forall k :: 0 <= k < |code| ==> code[k].Runtime?
    ensures EraseCode(code) == []
  {
    if code != [] {
      EraseRuntime(code[1..]);
    }
  }

  lemma {:induction false} EraseEpilogue(code: Code, extra: Code)
    requires forall k :: 0 <= k < |code| ==> !code[k].Runtime?
    requires forall k :: 0 <= k < |extra| ==> extra[k].Runtime?
    ensures EraseCode(WithEpilogue(code, extra)) == code
  {
    if code != [] {
      var first := if code[0].Ret? then extra + [code[0]] else [code[0]];
      EraseEpilogue(code[1..], extra);
      EraseAppend(first, WithEpilogue(code[1..], extra));
      EraseAppend(extra, [code[0]]);
      EraseRuntime(extra);
      assert EraseCode([code[0]]) == [code[0]] by {
        assert [code[0]][1..] == [];
      }
    }
  }

  /** Erasing the calls of the runtime from an instrumented module gives back the module. */
  lemma {:induction false} EraseApply(p: Plan)
    requires p.Valid()
    ensures Erase(Apply(p)) == p.m
  {
    var m := Apply(p);
    forall f | 0 <= f < |p.m|
      ensures Erase(m)[f] == p.m[f]
    {
      assert |m[f].blocks| == |p.m[f].blocks|;
      forall b | 0 <= b < |p.m[f].blocks|
        ensures EraseCode(m[f].blocks[b]) == p.m[f].blocks[b]
      {
        EraseBlock(p, f, b);
      }
      assert Erase(m)[f].blocks == p.m[f].blocks;
    }
  }

  lemma {:induction false} EraseBlock(p: Plan, f: nat, b: nat)
    requires p.Valid() && f < |p.m| && b < |p.m[f].blocks|
    ensures EraseCode(Apply(p)[f].blocks[b]) == p.m[f].blocks[b]
  {
    BlockOf(p, f, b);
    BlocksArePlain(p.m, f, b);
    var code, first := p.m[f].blocks[b], if b == 0 then Enter(p, f) else [];
    forall k | 0 <= k < |code|
      ensures !code[k].Runtime?
    {
      assert Allowed(code[k], 1);
    }
    EraseEpilogue(code, Leave(p, f));
    EraseAppend(first, WithEpilogue(code, Leave(p, f)));
    EraseRuntime(first);
  }
}
