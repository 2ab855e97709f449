/**
 * Executions that have not ended: still going on, going on forever, or stopped inside a call.
 * Whatever such an execution has done so far, instrumentation keeps what it shows, and its log
 * becomes well nested once the kept functions on its call stack are closed.
 */
module Prefixes {
  import opened Common
  import opened Program
  import opened Instrumentation

  /** The choices of an activation up to some point. */
  datatype Prefix =
    | Stop                                 // here, in front of the next instruction
    | Left                                 // the activation has left through a return
    | Past(rest: Prefix)
    | Called(callee: Run, rest: Prefix)    // a call that has returned
    | Inside(inner: Prefix)                // a call that is as far as `inner`
    | Jump(target: nat, rest: Prefix)

  /** What an execution of f that goes on with `code` has shown so far. */
  ghost function Partial(m: Module, f: nat, code: Code, q: Prefix): Option<seq<Event>>
    decreases q
  {
    if q.Stop? then Some([])
    else if code == [] then None
    else
      match q
      case Left => if code[0].Ret? then Some([]) else None
      case Past(rest) =>
        (match code[0]
         case Phi => Partial(m, f, code[1..], rest)
         case Effect(e) => Join(Some([Seen(e)]), Partial(m, f, code[1..], rest))
         case Runtime(call) => Join(Some([Logged(call)]), Partial(m, f, code[1..], rest))
         case Call(g) => if Defined(m, g) then None else Join(Some([External(g)]), Partial(m, f, code[1..], rest))
         case _ => None)
      case Called(callee, rest) =>
        if code[0].Call? && Defined(m, code[0].callee)
        then Join(Activate(m, code[0].callee, callee), Partial(m, f, code[1..], rest)) else None
      case Inside(callee) =>
        if code[0].Call? && Defined(m, code[0].callee)
        then Partial(m, code[0].callee, m[code[0].callee].blocks[0], callee) else None
      case Jump(target, rest) =>
        if code[0].Branch? && target in code[0].targets && f < |m| && target < |m[f].blocks|
        then Partial(m, f, m[f].blocks[target], rest) else None
  }

  /** The functions it is in, the outermost first. */
  ghost function Stack(m: Module, f: nat, code: Code, q: Prefix): seq<nat>
    decreases q
  {
    if q.Stop? then [f]
    else if code == [] then []
    else
      match q
      case Left => []
      case Past(rest) => Stack(m, f, code[1..], rest)
      case Called(_, rest) => Stack(m, f, code[1..], rest)
      case Inside(callee) =>
        if code[0].Call? && Defined(m, code[0].callee)
        then [f] + Stack(m, code[0].callee, m[code[0].callee].blocks[0], callee) else []
      case Jump(target, rest) =>
        if f < |m| && target < |m[f].blocks| then Stack(m, f, m[f].blocks[target], rest) else []
  }

  /** The calls made so far, those that have not returned included. */
  ghost function CallsSoFar(m: Module, f: nat, code: Code, q: Prefix): Forest
    decreases q
  {
    if q.Stop? || code == [] then Leaf
    else
      match q
      case Left => Leaf
      case Past(rest) => CallsSoFar(m, f, code[1..], rest)
      case Called(callee, rest) =>
        if code[0].Call? && Defined(m, code[0].callee)
        then Node(code[0].callee, Calls(m, code[0].callee, m[code[0].callee].blocks[0], callee),
                  CallsSoFar(m, f, code[1..], rest))
        else Leaf
      case Inside(callee) =>
        if code[0].Call? && Defined(m, code[0].callee)
        then Node(code[0].callee, CallsSoFar(m, code[0].callee, m[code[0].callee].blocks[0], callee), Leaf) else Leaf
      case Jump(target, rest) =>
        if f < |m| && target < |m[f].blocks| then CallsSoFar(m, f, m[f].blocks[target], rest) else Leaf
  }

  /** What the instrumented execution has logged since it entered f. */
  ghost function LogSoFar(p: Plan, f: nat, code: Code, q: Prefix): seq<RuntimeCall>
    requires p.Valid() && f < |p.m|
    decreases q
  {
    if q.Stop? || code == [] then []
    else
      match q
      case Left => Exit(p, f)
      case Past(rest) => LogSoFar(p, f, code[1..], rest)
      case Called(callee, rest) =>
        if code[0].Call? && Defined(p.m, code[0].callee)
        then Brackets(p, Node(code[0].callee, Calls(p.m, code[0].callee, p.m[code[0].callee].blocks[0], callee), Leaf))
             + LogSoFar(p, f, code[1..], rest)
        else []
      case Inside(callee) =>
        if code[0].Call? && Defined(p.m, code[0].callee)
        then Entry(p, code[0].callee) + LogSoFar(p, code[0].callee, p.m[code[0].callee].blocks[0], callee) else []
      case Jump(target, rest) =>
        if target < |p.m[f].blocks| then LogSoFar(p, f, p.m[f].blocks[target], rest) else []
  }

  /** The exits that close the kept functions of a call stack, the innermost first. */
  ghost function Closers(p: Plan, stack: seq<nat>): seq<RuntimeCall>
    requires p.Valid() && forall k :: 0 <= k < |stack| ==> stack[k] < |p.m|
  {
    if stack == [] then [] else Closers(p, stack[1..]) + Exit(p, stack[0])
  }

  lemma {:induction false} StackInRange(m: Module, f: nat, code: Code, q: Prefix)
    requires f < |m|
    ensures forall k :: 0 <= k < |Stack(m, f, code, q)| ==> Stack(m, f, code, q)[k] < |m|
    decreases q
  {
    if !q.Stop? && code != [] {
      match q
      case Left =>
      case Past(rest) => StackInRange(m, f, code[1..], rest);
      case Called(_, rest) => StackInRange(m, f, code[1..], rest);
      case Inside(callee) =>
        if code[0].Call? && Defined(m, code[0].callee) {
          StackInRange(m, code[0].callee, m[code[0].callee].blocks[0], callee);
        }
      case Jump(target, rest) =>
        if target < |m[f].blocks| {
          StackInRange(m, f, m[f].blocks[target], rest);
        }
    }
  }

  /** Closing the functions on the stack completes the log to that of the calls made so far. */
  lemma {:induction false} Closing(p: Plan, f: nat, code: Code, q: Prefix)
    requires p.Valid() && f < |p.m| && Partial(p.m, f, code, q).Some?
    ensures forall k :: 0 <= k < |Stack(p.m, f, code, q)| ==> Stack(p.m, f, code, q)[k] < |p.m|
    ensures LogSoFar(p, f, code, q) + Closers(p, Stack(p.m, f, code, q)) ==
            Brackets(p, CallsSoFar(p.m, f, code, q)) + Exit(p, f)
    decreases q
  {
    StackInRange(p.m, f, code, q);
    if q.Stop? {
      assert Closers(p, [f]) == [] + Exit(p, f);
    } else {
      match q
      case Left =>
      case Past(rest) => Closing(p, f, code[1..], rest);
      case Called(callee, rest) =>
        Closing(p, f, code[1..], rest);
        var g := code[0].callee;
        var inner := Calls(p.m, g, p.m[g].blocks[0], callee);
        BracketsNode(p, g, inner, CallsSoFar(p.m, f, code[1..], rest), Exit(p, f));
        Assoc(Brackets(p, Node(g, inner, Leaf)), LogSoFar(p, f, code[1..], rest),
              Closers(p, Stack(p.m, f, code[1..], rest)), []);
      case Inside(callee) =>
        var g := code[0].callee;
        Closing(p, g, p.m[g].blocks[0], callee);
        CloseInside(p, f, g, LogSoFar(p, g, p.m[g].blocks[0], callee), Stack(p.m, g, p.m[g].blocks[0], callee),
                    CallsSoFar(p.m, g, p.m[g].blocks[0], callee));
      case Jump(target, rest) => Closing(p, f, p.m[f].blocks[target], rest);
    }
  }

  lemma {:induction false} Assoc(a: seq<RuntimeCall>, b: seq<RuntimeCall>, c: seq<RuntimeCall>, d: seq<RuntimeCall>)
    ensures a + b + c + d == a + (b + (c + d))
    ensures a + b + c == a + (b + c)
  {
  }

  lemma {:induction false} CloseInside(p: Plan, f: nat, g: nat, log: seq<RuntimeCall>, stack: seq<nat>, calls: Forest)
    requires p.Valid() && f < |p.m| && g < |p.m| && forall k :: 0 <= k < |stack| ==> stack[k] < |p.m|
    requires log + Closers(p, stack) == Brackets(p, calls) + Exit(p, g)
    ensures Entry(p, g) + log + Closers(p, [f] + stack) == Brackets(p, Node(g, calls, Leaf)) + Exit(p, f)
  {
    assert ([f] + stack)[1..] == stack;
    Assoc(Entry(p, g), log, Closers(p, stack), Exit(p, f));
    BracketsSingle(p, g, calls);
    assert Entry(p, g) + log + (Closers(p, stack) + Exit(p, f)) == Entry(p, g) + (log + Closers(p, stack)) + Exit(p, f);
  }

  function Pasts(n: nat, rest: Prefix): Prefix {
    if n == 0 then rest else Past(Pasts(n - 1, rest))
  }

  /** Runtime calls in front of some code come first. */
  lemma {:induction false} CallsFirst(m: Module, f: nat, extra: Code, code: Code, q: Prefix)
    requires forall k :: 0 <= k < |extra| ==> extra[k].Runtime?
    ensures Partial(m, f, extra + code, Pasts(|extra|, q)) == Join(Some(LoggedCalls(extra)), Partial(m, f, code, q))
  {
    var after := Partial(m, f, code, q);
    if extra == [] {
      assert extra + code == code;
      assert after.Some? ==> LoggedCalls(extra) + after.value == after.value;
    } else {
      assert (extra + code)[1..] == extra[1..] + code;
      CallsFirst(m, f, extra[1..], code, q);
      assert after.Some? ==>
          [Logged(extra[0].call)] + (LoggedCalls(extra[1..]) + after.value) == LoggedCalls(extra) + after.value;
    }
  }

  /** An execution that stops among runtime calls has made those before. */
  lemma {:induction false} StopsAmong(m: Module, f: nat, extra: Code, code: Code, j: nat)
    requires j <= |extra| && forall k :: 0 <= k < |extra| ==> extra[k].Runtime?
    ensures Partial(m, f, extra + code, Pasts(j, Stop)) == Some(LoggedCalls(extra[..j]))
  {
    assert extra + code == extra[..j] + (extra[j..] + code);
    CallsFirst(m, f, extra[..j], extra[j..] + code, Stop);
    assert LoggedCalls(extra[..j]) + [] == LoggedCalls(extra[..j]);
  }

  /** How many runtime calls, of at most `n`, an execution has made. */
  function Made(n: nat, q: Prefix): (j: nat)
    ensures j <= n
  {
    if n == 0 || !q.Past? then 0 else 1 + Made(n - 1, q.rest)
  }

  function After(n: nat, q: Prefix): (r: Prefix)
    ensures r == q || r < q
  {
    if n == 0 || !q.Past? then q else After(n - 1, q.rest)
  }

  /** An execution has made some of the runtime calls in front of some code and stopped, or all of them. */
  lemma {:induction false} CallsForced(m: Module, f: nat, extra: Code, code: Code, q: Prefix)
    requires forall k :: 0 <= k < |extra| ==> extra[k].Runtime?
    requires Partial(m, f, extra + code, q).Some?
    ensures var j := Made(|extra|, q);
            if j < |extra| then q == Pasts(j, Stop)
            else q == Pasts(|extra|, After(|extra|, q)) && Partial(m, f, code, After(|extra|, q)).Some?
  {
    if extra == [] {
      assert extra + code == code;
    } else if !q.Stop? {
      assert (extra + code)[0] == extra[0];
      assert (extra + code)[1..] == extra[1..] + code;
      CallsForced(m, f, extra[1..], code, q.rest);
    }
  }

  /** The instrumented `run` shows what the original `q` shows and logs what it should. */
  ghost predicate Mirrors(p: Plan, f: nat, code: Code, run: Prefix, q: Prefix)
    requires p.Valid() && f < |p.m|
  {
    match Partial(p.m, f, code, q)
    case None => false
    case Some(shown) =>
      Agrees(Partial(Apply(p), f, WithEpilogue(code, Leave(p, f)), run), shown, LogSoFar(p, f, code, q))
  }

  lemma {:induction false} MirrorStop(p: Plan, f: nat, code: Code)
    requires p.Valid() && f < |p.m|
    ensures Mirrors(p, f, code, Stop, Stop)
  {
  }

  lemma {:induction false} MirrorPast(p: Plan, f: nat, code: Code, run: Prefix, q: Prefix)
    requires p.Valid() && f < |p.m| && Plain(code) && code != [] && Mirrors(p, f, code[1..], run, q)
    requires code[0].Phi? || code[0].Effect? || (code[0].Call? && !Defined(p.m, code[0].callee))
    ensures Mirrors(p, f, code, Past(run), Past(q))
  {
    Stepwise(code, Leave(p, f));
    var body := WithEpilogue(code, Leave(p, f));
    PastShows(p.m, f, code, q);
    PastShows(Apply(p), f, body, run);
    if !code[0].Phi? {
      var x: Event := if code[0].Effect? then Seen(code[0].e) else External(code[0].callee);
      ShowsOne(x);
      AgreesJoin(Some([x]), Partial(Apply(p), f, body[1..], run), [x], Partial(p.m, f, code[1..], q).value,
                 [], LogSoFar(p, f, code[1..], q));
      assert [] + LogSoFar(p, f, code[1..], q) == LogSoFar(p, f, code[1..], q);
    }
  }

  lemma {:induction false} ShowsOne(x: Event)
    requires !x.Logged?
    ensures Agrees(Some([x]), [x], [])
  {
    assert [x][1..] == [];
  }

  /** What passing an instruction that is no call of a defined function shows. */
  lemma {:induction false} PastShows(m: Module, f: nat, code: Code, q: Prefix)
    requires code != [] && (code[0].Phi? || code[0].Effect? || (code[0].Call? && !Defined(m, code[0].callee)))
    ensures Partial(m, f, code, Past(q)) ==
            if code[0].Phi? then Partial(m, f, code[1..], q)
            else Join(Some([if code[0].Effect? then Seen(code[0].e) else External(code[0].callee)]), Partial(m, f, code[1..], q))
  {
  }

  lemma {:induction false} MirrorCalled(p: Plan, f: nat, code: Code, callee: Run, run: Prefix, q: Prefix)
    requires p.Valid() && f < |p.m| && Plain(code) && code != [] && Mirrors(p, f, code[1..], run, q)
    requires code[0].Call? && Defined(p.m, code[0].callee) && Activate(p.m, code[0].callee, callee).Some?
    ensures Mirrors(p, f, code, Called(LiftCall(p, code[0].callee, callee), run), Called(callee, q))
  {
    var g := code[0].callee;
    Stepwise(code, Leave(p, f));
    LiftActivation(p, g, callee);
    AgreesJoin(Activate(Apply(p), g, LiftCall(p, g, callee)),
               Partial(Apply(p), f, WithEpilogue(code[1..], Leave(p, f)), run),
               Activate(p.m, g, callee).value, Partial(p.m, f, code[1..], q).value,
               Brackets(p, Node(g, Calls(p.m, g, p.m[g].blocks[0], callee), Leaf)), LogSoFar(p, f, code[1..], q));
  }

  /** The entry calls of a function, and then what its body does. */
  lemma {:induction false} MirrorEntry(p: Plan, g: nat, run: Prefix, q: Prefix)
    requires p.Valid() && Defined(p.m, g) && Mirrors(p, g, p.m[g].blocks[0], run, q)
    ensures Defined(Apply(p), g)
    ensures Agrees(Partial(Apply(p), g, Apply(p)[g].blocks[0], Pasts(|Enter(p, g)|, run)),
                   Partial(p.m, g, p.m[g].blocks[0], q).value,
                   Entry(p, g) + LogSoFar(p, g, p.m[g].blocks[0], q))
  {
    var code := p.m[g].blocks[0];
    BlockOf(p, g, 0);
    var body := WithEpilogue(code, Leave(p, g));
    CallsFirst(Apply(p), g, Enter(p, g), body, run);
    InsertedCalls(p, g);
    AgreesJoin(Some(LoggedCalls(Enter(p, g))), Partial(Apply(p), g, body, run),
               [], Partial(p.m, g, code, q).value, Entry(p, g), LogSoFar(p, g, code, q));
    assert [] + Partial(p.m, g, code, q).value == Partial(p.m, g, code, q).value;
  }

  lemma {:induction false} MirrorInside(p: Plan, f: nat, code: Code, run: Prefix, q: Prefix)
    requires p.Valid() && f < |p.m| && code != []
    requires code[0].Call? && Defined(p.m, code[0].callee)
    requires Mirrors(p, code[0].callee, p.m[code[0].callee].blocks[0], run, q)
    ensures Mirrors(p, f, code, Inside(Pasts(|Enter(p, code[0].callee)|, run)), Inside(q))
  {
    Stepwise(code, Leave(p, f));
    MirrorEntry(p, code[0].callee, run, q);
  }

  lemma {:induction false} MirrorJump(p: Plan, f: nat, code: Code, target: nat, run: Prefix, q: Prefix)
    requires p.Valid() && f < |p.m| && Plain(code) && code != []
    requires code[0].Branch? && target in code[0].targets && target < |p.m[f].blocks|
    requires Mirrors(p, f, p.m[f].blocks[target], run, q)
    ensures Mirrors(p, f, code, Jump(target, run), Jump(target, q))
  {
    Stepwise(code, Leave(p, f));
    assert Allowed(code[0], 1);
    BlockOf(p, f, target);
    assert Apply(p)[f].blocks[target] == WithEpilogue(p.m[f].blocks[target], Leave(p, f));
  }

  /** At a return: once the exit is logged the function counts as left. */
  lemma {:induction false} MirrorReturn(p: Plan, f: nat, code: Code, run: Prefix, q: Prefix)
    requires p.Valid() && f < |p.m| && code != [] && code[0].Ret?
    requires || (run == Pasts(|Leave(p, f)|, Left) && q == Left)
             || (exists j :: 0 <= j <= |Leave(p, f)| && run == Pasts(j, Stop) && q == if j == 0 then Stop else Left)
    ensures Mirrors(p, f, code, run, q)
  {
    Stepwise(code, Leave(p, f));
    var rest := [Ret] + WithEpilogue(code[1..], Leave(p, f));
    InsertedCalls(p, f);
    if run == Pasts(|Leave(p, f)|, Left) && q == Left {
      CallsFirst(Apply(p), f, Leave(p, f), rest, Left);
      assert LoggedCalls(Leave(p, f)) + [] == LoggedCalls(Leave(p, f));
    } else {
      var j :| 0 <= j <= |Leave(p, f)| && run == Pasts(j, Stop) && q == if j == 0 then Stop else Left;
      StopsAmong(Apply(p), f, Leave(p, f), rest, j);
      LeavingCalls(p, f, j);
    }
  }

  /** The first of the exit calls is the one that logs. */
  lemma {:induction false} LeavingCalls(p: Plan, f: nat, j: nat)
    requires p.Valid() && f < |p.m| && j <= |Leave(p, f)|
    ensures Visible(LoggedCalls(Leave(p, f)[..j])) == []
    ensures Log(LoggedCalls(Leave(p, f)[..j])) == if j == 0 then [] else Exit(p, f)
  {
    InsertedCalls(p, f);
    if j == |Leave(p, f)| {
      assert Leave(p, f)[..j] == Leave(p, f);
    } else if j == 1 {
      LogNext([], LogExit(p.ids[f]));
      assert Leave(p, f)[..1] == [] + [Runtime(LogExit(p.ids[f]))];
    }
  }

  /** The last of the entry calls is the one that logs. */
  lemma {:induction false} EnteringCalls(p: Plan, f: nat, j: nat)
    requires p.Valid() && f < |p.m| && j < |Enter(p, f)|
    ensures Visible(LoggedCalls(Enter(p, f)[..j])) == [] && Log(LoggedCalls(Enter(p, f)[..j])) == []
  {
    LogNext([], Initialize);
    LogNext([Runtime(Initialize)], Enable);
    assert j == 0 || Enter(p, f)[..1] == [] + [Runtime(Initialize)];
    assert j <= 1 || Enter(p, f)[..2] == [Runtime(Initialize)] + [Runtime(Enable)];
  }

  /** The execution has not logged its entry into f yet. */
  predicate Unentered(p: Plan, f: nat, run: Prefix)
    requires f < |p.m| == |p.ids| == |p.kept|
  {
    Made(|Enter(p, f)|, run) < |Enter(p, f)|
  }

  lemma {:induction false} UnenteredShows(p: Plan, f: nat, run: Prefix)
    requires p.Valid() && Defined(p.m, f) && Defined(Apply(p), f) && Unentered(p, f, run)
    requires Partial(Apply(p), f, Apply(p)[f].blocks[0], run).Some?
    ensures Agrees(Partial(Apply(p), f, Apply(p)[f].blocks[0], run), [], [])
  {
    BlockOf(p, f, 0);
    var body, j := WithEpilogue(p.m[f].blocks[0], Leave(p, f)), Made(|Enter(p, f)|, run);
    CallsForced(Apply(p), f, Enter(p, f), body, run);
    StopsAmong(Apply(p), f, Enter(p, f), body, j);
    EnteringCalls(p, f, j);
  }

  /** The instrumented execution that has come as far. */
  ghost function LiftPrefix(p: Plan, f: nat, code: Code, q: Prefix): Prefix
    requires p.Valid() && f < |p.m|
    decreases q
  {
    if q.Stop? || code == [] then Stop
    else
      match q
      case Left => Pasts(|Leave(p, f)|, Left)
      case Past(rest) => Past(LiftPrefix(p, f, code[1..], rest))
      case Called(callee, rest) =>
        if code[0].Call? && Defined(p.m, code[0].callee)
        then Called(LiftCall(p, code[0].callee, callee), LiftPrefix(p, f, code[1..], rest)) else Stop
      case Inside(inner) =>
        if code[0].Call? && Defined(p.m, code[0].callee)
        then Inside(Pasts(|Enter(p, code[0].callee)|, LiftPrefix(p, code[0].callee, p.m[code[0].callee].blocks[0], inner)))
        else Stop
      case Jump(target, rest) =>
        if target < |p.m[f].blocks| then Jump(target, LiftPrefix(p, f, p.m[f].blocks[target], rest)) else Stop
  }

  lemma {:induction false} LiftMirrors(p: Plan, f: nat, code: Code, q: Prefix)
    requires p.Valid() && f < |p.m| && Plain(code) && Partial(p.m, f, code, q).Some?
    ensures Mirrors(p, f, code, LiftPrefix(p, f, code, q), q)
    decreases q
  {
    if q.Stop? {
      MirrorStop(p, f, code);
    } else {
      assert Allowed(code[0], 1);
      match q
      case Left => MirrorReturn(p, f, code, Pasts(|Leave(p, f)|, Left), Left);
      case Past(rest) =>
        LiftMirrors(p, f, code[1..], rest);
        MirrorPast(p, f, code, LiftPrefix(p, f, code[1..], rest), rest);
      case Called(callee, rest) =>
        LiftMirrors(p, f, code[1..], rest);
        MirrorCalled(p, f, code, callee, LiftPrefix(p, f, code[1..], rest), rest);
      case Inside(inner) =>
        var g := code[0].callee;
        BlocksArePlain(p.m, g, 0);
        LiftMirrors(p, g, p.m[g].blocks[0], inner);
        MirrorInside(p, f, code, LiftPrefix(p, g, p.m[g].blocks[0], inner), inner);
      case Jump(target, rest) =>
        BlocksArePlain(p.m, f, target);
        LiftMirrors(p, f, p.m[f].blocks[target], rest);
        MirrorJump(p, f, code, target, LiftPrefix(p, f, p.m[f].blocks[target], rest), rest);
    }
  }

  /** How far the original execution is when the instrumented one is as far as `run`. */
  ghost function LowerPrefix(p: Plan, f: nat, code: Code, run: Prefix): Prefix
    requires p.Valid() && f < |p.m|
    decreases run
  {
    if run.Stop? || code == [] then Stop
    else if code[0].Ret? then Left
    else
      match run
      case Left => Left
      case Past(rest) => Past(LowerPrefix(p, f, code[1..], rest))
      case Called(callee, rest) =>
        if code[0].Call? && Defined(p.m, code[0].callee)
        then Called(LowerCall(p, code[0].callee, callee), LowerPrefix(p, f, code[1..], rest)) else Stop
      case Inside(inner) =>
        if code[0].Call? && Defined(p.m, code[0].callee) && !Unentered(p, code[0].callee, inner)
        then Inside(LowerPrefix(p, code[0].callee, p.m[code[0].callee].blocks[0], After(|Enter(p, code[0].callee)|, inner)))
        else Stop
      case Jump(target, rest) =>
        if target < |p.m[f].blocks| then Jump(target, LowerPrefix(p, f, p.m[f].blocks[target], rest)) else Stop
  }

  lemma {:induction false} LowerReturn(p: Plan, f: nat, code: Code, run: Prefix)
    requires p.Valid() && f < |p.m| && code != [] && code[0].Ret? && !run.Stop?
    requires Partial(Apply(p), f, WithEpilogue(code, Leave(p, f)), run).Some?
    ensures Mirrors(p, f, code, run, Left)
  {
    Stepwise(code, Leave(p, f));
    var rest := [Ret] + WithEpilogue(code[1..], Leave(p, f));
    CallsForced(Apply(p), f, Leave(p, f), rest, run);
    var j := Made(|Leave(p, f)|, run);
    var last := After(|Leave(p, f)|, run);
    assert j == |Leave(p, f)| ==> last.Stop? || last.Left?;
    MirrorReturn(p, f, code, run, Left);
  }

  lemma {:induction false} LowerMirrors(p: Plan, f: nat, code: Code, run: Prefix)
    requires p.Valid() && f < |p.m| && Plain(code)
    requires Partial(Apply(p), f, WithEpilogue(code, Leave(p, f)), run).Some?
    ensures Mirrors(p, f, code, run, LowerPrefix(p, f, code, run))
    decreases run, 0
  {
    if run.Stop? || code == [] {
      MirrorStop(p, f, code);
    } else if code[0].Ret? {
      LowerReturn(p, f, code, run);
    } else {
      Stepwise(code, Leave(p, f));
      assert Allowed(code[0], 1);
      match run
      case Past(rest) =>
        LowerMirrors(p, f, code[1..], rest);
        MirrorPast(p, f, code, rest, LowerPrefix(p, f, code[1..], rest));
      case Called(callee, rest) =>
        LowerMirrors(p, f, code[1..], rest);
        LowerActivation(p, code[0].callee, callee);
        MirrorCalled(p, f, code, LowerCall(p, code[0].callee, callee), rest, LowerPrefix(p, f, code[1..], rest));
      case Inside(inner) => LowerInside(p, f, code, inner);
      case Jump(target, rest) =>
        BlocksArePlain(p.m, f, target);
        BlockOf(p, f, target);
        assert Apply(p)[f].blocks[target] == WithEpilogue(p.m[f].blocks[target], Leave(p, f));
        LowerMirrors(p, f, p.m[f].blocks[target], rest);
        MirrorJump(p, f, code, target, rest, LowerPrefix(p, f, p.m[f].blocks[target], rest));
    }
  }

  lemma {:induction false} LowerInside(p: Plan, f: nat, code: Code, inner: Prefix)
    requires p.Valid() && f < |p.m| && Plain(code) && code != [] && code[0].Call?
    requires Partial(Apply(p), f, WithEpilogue(code, Leave(p, f)), Inside(inner)).Some?
    ensures Mirrors(p, f, code, Inside(inner), LowerPrefix(p, f, code, Inside(inner)))
    decreases inner, 2
  {
    Stepwise(code, Leave(p, f));
    var g := code[0].callee;
    assert Defined(p.m, g);
    if Unentered(p, g, inner) {
      UnenteredShows(p, g, inner);
    } else {
      LowerEntered(p, g, inner);
      MirrorInside(p, f, code, After(|Enter(p, g)|, inner), LowerPrefix(p, g, p.m[g].blocks[0], After(|Enter(p, g)|, inner)));
    }
  }

  lemma {:induction false} LowerEntered(p: Plan, g: nat, inner: Prefix)
    requires p.Valid() && Defined(p.m, g) && Defined(Apply(p), g) && !Unentered(p, g, inner)
    requires Partial(Apply(p), g, Apply(p)[g].blocks[0], inner).Some?
    ensures inner == Pasts(|Enter(p, g)|, After(|Enter(p, g)|, inner))
    ensures var rest := After(|Enter(p, g)|, inner);
            Mirrors(p, g, p.m[g].blocks[0], rest, LowerPrefix(p, g, p.m[g].blocks[0], rest))
    decreases inner, 1
  {
    BlockOf(p, g, 0);
    BlocksArePlain(p.m, g, 0);
    CallsForced(Apply(p), g, Enter(p, g), WithEpilogue(p.m[g].blocks[0], Leave(p, g)), inner);
    LowerMirrors(p, g, p.m[g].blocks[0], After(|Enter(p, g)|, inner));
  }

  /** A log that is well nested once the kept functions on the stack are closed, and then is the log of the calls made. */
  ghost predicate OpenAt(p: Plan, f: nat, q: Prefix, log: seq<RuntimeCall>)
    requires p.Valid() && Defined(p.m, f)
  {
    var code := p.m[f].blocks[0];
    StackInRange(p.m, f, code, q);
    Parse(log + Closers(p, Stack(p.m, f, code, q))) == Some((Shape(p, Node(f, CallsSoFar(p.m, f, code, q), Leaf)), []))
  }

  lemma {:induction false} ClosedLog(p: Plan, f: nat, q: Prefix)
    requires p.Valid() && Defined(p.m, f) && Partial(p.m, f, p.m[f].blocks[0], q).Some?
    ensures OpenAt(p, f, q, Entry(p, f) + LogSoFar(p, f, p.m[f].blocks[0], q))
  {
    var code := p.m[f].blocks[0];
    Closing(p, f, code, q);
    var calls, closers := CallsSoFar(p.m, f, code, q), Closers(p, Stack(p.m, f, code, q));
    Assoc(Entry(p, f), LogSoFar(p, f, code, q), closers, []);
    BracketsSingle(p, f, calls);
    var tree := Node(f, calls, Leaf);
    assert Entry(p, f) + LogSoFar(p, f, code, q) + closers == Brackets(p, tree);
    BracketsSpellShape(p, tree);
    ParseSpell(Shape(p, tree), []);
    assert Spell(Shape(p, tree)) + [] == Spell(Shape(p, tree));
  }

  /**
   * However far an execution of the original has come, an instrumented one shows the same, and the
   * entries open in its log are those of the kept functions on the call stack.
   */
  lemma {:induction false} OriginalPrefix(p: Plan, f: nat, q: Prefix) returns (run: Prefix)
    requires p.Valid() && Defined(p.m, f) && Partial(p.m, f, p.m[f].blocks[0], q).Some?
    ensures Defined(Apply(p), f)
    ensures var trace := Partial(Apply(p), f, Apply(p)[f].blocks[0], run);
            && trace.Some? && Visible(trace.value) == Partial(p.m, f, p.m[f].blocks[0], q).value
            && OpenAt(p, f, q, Log(trace.value))
  {
    var code := p.m[f].blocks[0];
    BlocksArePlain(p.m, f, 0);
    LiftMirrors(p, f, code, q);
    MirrorEntry(p, f, LiftPrefix(p, f, code, q), q);
    ClosedLog(p, f, q);
    run := Pasts(|Enter(p, f)|, LiftPrefix(p, f, code, q));
  }

  /**
   * However far an instrumented execution has come, it shows what an original one has shown at some
   * point, and the entries open in its log are those of the kept functions on that one's call stack;
   * before it has logged its first entry it shows and logs nothing.
   */
  lemma {:induction false} InstrumentedPrefix(p: Plan, f: nat, run: Prefix) returns (q: Prefix)
    requires p.Valid() && Defined(p.m, f) && Defined(Apply(p), f)
    requires Partial(Apply(p), f, Apply(p)[f].blocks[0], run).Some?
    ensures var trace := Partial(Apply(p), f, Apply(p)[f].blocks[0], run).value;
            if Unentered(p, f, run) then Visible(trace) == [] && Log(trace) == []
            else Partial(p.m, f, p.m[f].blocks[0], q) == Some(Visible(trace)) && OpenAt(p, f, q, Log(trace))
  {
    q := LowerPrefix(p, f, p.m[f].blocks[0], After(|Enter(p, f)|, run));
    if Unentered(p, f, run) {
      UnenteredShows(p, f, run);
    } else {
      LowerEntered(p, f, run);
      MirrorEntry(p, f, After(|Enter(p, f)|, run), q);
      ClosedLog(p, f, q);
    }
  }

  function Whole(run: Run): Prefix {
    match run
    case Done => Left
    case Tick(rest) => Past(Whole(rest))
    case Invoke(callee, rest) => Called(callee, Whole(rest))
    case Go(target, rest) => Jump(target, Whole(rest))
  }

  /** An execution that has ended is one that is no longer in any function. */
  lemma {:induction false} WholeRun(m: Module, f: nat, code: Code, run: Run)
    ensures Partial(m, f, code, Whole(run)) == Exec(m, f, code, run)
    ensures Exec(m, f, code, run).Some? ==>
              Stack(m, f, code, Whole(run)) == [] && CallsSoFar(m, f, code, Whole(run)) == Calls(m, f, code, run)
    decreases run
  {
    if code != [] {
      match run
      case Done =>
      case Tick(rest) => WholeRun(m, f, code[1..], rest);
      case Invoke(_, rest) => WholeRun(m, f, code[1..], rest);
      case Go(target, rest) =>
        if f < |m| && target < |m[f].blocks| {
          WholeRun(m, f, m[f].blocks[target], rest);
        }
    }
  }
}
