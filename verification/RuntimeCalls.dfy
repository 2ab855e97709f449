/**
 * Which calls of the runtime an instrumented program makes itself, and in which order: a kept function
 * logs its entry first and its exit last, and `main` sets the runtime up before and takes it down after.
 */
module RuntimeCalls {
  import opened Common
  import opened Program
  import opened Instrumentation
  import opened Prefixes

  /** The calls of the runtime that an activation of f has made itself, not in the functions it called. */
  ghost function Own(m: Module, f: nat, code: Code, q: Prefix): seq<RuntimeCall>
    decreases q
  {
    if q.Stop? || code == [] then []
    else
      match q
      case Left => []
      case Past(rest) => (if code[0].Runtime? then [code[0].call] else []) + Own(m, f, code[1..], rest)
      case Called(_, rest) => Own(m, f, code[1..], rest)
      case Inside(_) => []
      case Jump(target, rest) => if f < |m| && target < |m[f].blocks| then Own(m, f, m[f].blocks[target], rest) else []
  }

  /** The activation has left through a return. */
  ghost predicate Ended(q: Prefix) {
    match q
    case Stop => false
    case Left => true
    case Past(rest) => Ended(rest)
    case Called(_, rest) => Ended(rest)
    case Inside(_) => false
    case Jump(_, rest) => Ended(rest)
  }

  /** The calls that a kept function is to make. */
  function Script(isMain: bool, o: Options, id: nat): seq<RuntimeCall> {
    if !isMain then [LogEntry(id), LogExit(id)]
    else if !o.initialize then [LogEntry(id), LogExit(id), Deinitialize]
    else if !o.enable then [Initialize, LogEntry(id), LogExit(id), Deinitialize]
    else [Initialize, Enable, LogEntry(id), LogExit(id), Deinitialize]
  }

  function ScriptOf(p: Plan, f: nat): seq<RuntimeCall>
    requires f < |p.m| == |p.ids| == |p.kept|
  {
    if p.kept[f] then Script(p.m[f].name == MAIN, p.options, p.ids[f]) else []
  }

  function CallsOf(code: Code): (r: seq<RuntimeCall>)
    requires forall k :: 0 <= k < |code| ==> code[k].Runtime?
    ensures |r| == |code| && forall k :: 0 <= k < |code| ==> r[k] == code[k].call
  {
    seq(|code|, k requires 0 <= k < |code| => code[k].call)
  }

  lemma {:induction false} ScriptIsInserted(p: Plan, f: nat)
    requires p.Valid() && f < |p.m|
    ensures ScriptOf(p, f) == CallsOf(Enter(p, f)) + CallsOf(Leave(p, f))
  {
  }

  lemma {:induction false} CallsSplit(code: Code)
    requires code != [] && forall k :: 0 <= k < |code| ==> code[k].Runtime?
    ensures CallsOf(code) == [code[0].call] + CallsOf(code[1..])
  {
  }

  lemma {:induction false} OwnNext(m: Module, f: nat, extra: Code, code: Code, rest: Prefix)
    requires extra != [] && extra[0].Runtime?
    ensures Own(m, f, extra + code, Past(rest)) == [extra[0].call] + Own(m, f, extra[1..] + code, rest)
  {
    assert (extra + code)[0] == extra[0] && (extra + code)[1..] == extra[1..] + code;
  }

  /** An activation makes the runtime calls in front of some code first. */
  lemma {:induction false} OwnFirst(m: Module, f: nat, extra: Code, code: Code, q: Prefix)
    requires forall k :: 0 <= k < |extra| ==> extra[k].Runtime?
    ensures Own(m, f, extra + code, Pasts(|extra|, q)) == CallsOf(extra) + Own(m, f, code, q)
    ensures Ended(Pasts(|extra|, q)) == Ended(q)
  {
    if extra == [] {
      assert extra + code == code;
    } else {
      OwnFirst(m, f, extra[1..], code, q);
      OwnNext(m, f, extra, code, Pasts(|extra| - 1, q));
      CallsSplit(extra);
      Regrouped([extra[0].call], CallsOf(extra[1..]), Own(m, f, code, q));
    }
  }

  lemma {:induction false} OwnAmong(m: Module, f: nat, extra: Code, code: Code, j: nat)
    requires j <= |extra| && forall k :: 0 <= k < |extra| ==> extra[k].Runtime?
    ensures Own(m, f, extra + code, Pasts(j, Stop)) == CallsOf(extra)[..j] && !Ended(Pasts(j, Stop))
  {
    assert extra + code == extra[..j] + (extra[j..] + code);
    OwnFirst(m, f, extra[..j], extra[j..] + code, Stop);
    assert CallsOf(extra[..j]) == CallsOf(extra)[..j];
  }

  /** Code that begins with runtime calls: an execution has made some of them and stopped, or all. */
  lemma {:induction false} OwnForced(m: Module, f: nat, extra: Code, code: Code, q: Prefix)
    requires forall k :: 0 <= k < |extra| ==> extra[k].Runtime?
    requires Partial(m, f, extra + code, q).Some?
    ensures var own, rest := Own(m, f, extra + code, q), After(|extra|, q);
            || (own <= CallsOf(extra) && !Ended(q))
            || (own == CallsOf(extra) + Own(m, f, code, rest) && Partial(m, f, code, rest).Some? && Ended(rest) == Ended(q))
  {
    CallsForced(m, f, extra, code, q);
    if Made(|extra|, q) < |extra| {
      OwnAmong(m, f, extra, code, Made(|extra|, q));
    } else {
      OwnFirst(m, f, extra, code, After(|extra|, q));
    }
  }

  /** In its body a function makes no call before it returns, and then those in front of the return. */
  lemma {:induction false} OwnInBody(p: Plan, f: nat, code: Code, q: Prefix)
    requires p.Valid() && f < |p.m| && Plain(code)
    requires Partial(Apply(p), f, WithEpilogue(code, Leave(p, f)), q).Some?
    ensures var own := Own(Apply(p), f, WithEpilogue(code, Leave(p, f)), q);
            own <= CallsOf(Leave(p, f)) && (Ended(q) ==> own == CallsOf(Leave(p, f)))
    decreases q
  {
    if !q.Stop? {
      assert code != [];
      Stepwise(code, Leave(p, f));
      assert Allowed(code[0], 1);
      if code[0].Ret? {
        OwnAtReturn(p, f, WithEpilogue(code[1..], Leave(p, f)), q);
      } else {
        match q
        case Past(rest) => OwnInBody(p, f, code[1..], rest);
        case Called(_, rest) => OwnInBody(p, f, code[1..], rest);
        case Inside(_) =>
        case Jump(target, rest) =>
          BlocksArePlain(p.m, f, target);
          BlockOf(p, f, target);
          assert Apply(p)[f].blocks[target] == WithEpilogue(p.m[f].blocks[target], Leave(p, f));
          OwnInBody(p, f, p.m[f].blocks[target], rest);
      }
    }
  }

  lemma {:induction false} OwnAtReturn(p: Plan, f: nat, after: Code, q: Prefix)
    requires p.Valid() && f < |p.m| && Partial(Apply(p), f, Leave(p, f) + ([Ret] + after), q).Some?
    ensures var own := Own(Apply(p), f, Leave(p, f) + ([Ret] + after), q);
            own <= CallsOf(Leave(p, f)) && (Ended(q) ==> own == CallsOf(Leave(p, f)))
  {
    OwnForced(Apply(p), f, Leave(p, f), [Ret] + after, q);
  }

  /**
   * Every function makes the calls of its script, in order, and no other: all of them when it has
   * returned, the first of them as long as it has not. A function that is left out makes none.
   */
  lemma {:induction false} CallsFollowScript(p: Plan, f: nat, q: Prefix)
    requires p.Valid() && Defined(p.m, f) && Defined(Apply(p), f)
    requires Partial(Apply(p), f, Apply(p)[f].blocks[0], q).Some?
    ensures var own := Own(Apply(p), f, Apply(p)[f].blocks[0], q);
            own <= ScriptOf(p, f) && (Ended(q) ==> own == ScriptOf(p, f))
  {
    var body := WithEpilogue(p.m[f].blocks[0], Leave(p, f));
    BlockOf(p, f, 0);
    BlocksArePlain(p.m, f, 0);
    ScriptIsInserted(p, f);
    OwnForced(Apply(p), f, Enter(p, f), body, q);
    var rest := After(|Enter(p, f)|, q);
    if Partial(Apply(p), f, body, rest).Some? {
      OwnInBody(p, f, p.m[f].blocks[0], rest);
    }
  }

  /** A trace that begins with some calls of the runtime, as far as it goes. */
  ghost predicate Begins(trace: seq<Event>, calls: seq<RuntimeCall>) {
    forall k :: 0 <= k < |trace| && k < |calls| ==> trace[k] == Logged(calls[k])
  }

  ghost predicate Ends(trace: seq<Event>, calls: seq<RuntimeCall>) {
    |calls| <= |trace| && forall k :: 0 <= k < |calls| ==> trace[|trace| - |calls| + k] == Logged(calls[k])
  }

  lemma {:induction false} EndsLater(a: seq<Event>, b: seq<Event>, calls: seq<RuntimeCall>)
    requires Ends(b, calls)
    ensures Ends(a + b, calls)
  {
    forall k | 0 <= k < |calls|
      ensures (a + b)[|a + b| - |calls| + k] == Logged(calls[k])
    {
      assert (a + b)[|a| + (|b| - |calls| + k)] == b[|b| - |calls| + k];
    }
  }

  /** An activation that has returned has made the calls in front of the return last. */
  lemma {:induction false} BodyEnds(p: Plan, f: nat, code: Code, q: Prefix)
    requires p.Valid() && f < |p.m| && Plain(code) && Ended(q)
    requires Partial(Apply(p), f, WithEpilogue(code, Leave(p, f)), q).Some?
    ensures Ends(Partial(Apply(p), f, WithEpilogue(code, Leave(p, f)), q).value, CallsOf(Leave(p, f)))
    decreases q
  {
    assert code != [];
    Stepwise(code, Leave(p, f));
    assert Allowed(code[0], 1);
    var body := WithEpilogue(code, Leave(p, f));
    if code[0].Ret? {
      ReturnEnds(p, f, WithEpilogue(code[1..], Leave(p, f)), q);
    } else {
      match q
      case Past(rest) =>
        BodyEnds(p, f, code[1..], rest);
        PastEnds(Apply(p), f, body, rest, CallsOf(Leave(p, f)));
      case Called(callee, rest) =>
        BodyEnds(p, f, code[1..], rest);
        CalledEnds(Apply(p), f, body, callee, rest, CallsOf(Leave(p, f)));
      case Jump(target, rest) =>
        BlocksArePlain(p.m, f, target);
        BlockOf(p, f, target);
        assert Apply(p)[f].blocks[target] == WithEpilogue(p.m[f].blocks[target], Leave(p, f));
        BodyEnds(p, f, p.m[f].blocks[target], rest);
    }
  }

  lemma {:induction false} PastEnds(m: Module, f: nat, code: Code, rest: Prefix, calls: seq<RuntimeCall>)
    requires code != [] && (code[0].Phi? || code[0].Effect? || (code[0].Call? && !Defined(m, code[0].callee)))
    requires Partial(m, f, code, Past(rest)).Some? && Partial(m, f, code[1..], rest).Some?
    requires Ends(Partial(m, f, code[1..], rest).value, calls)
    ensures Ends(Partial(m, f, code, Past(rest)).value, calls)
  {
    PastShows(m, f, code, rest);
    if !code[0].Phi? {
      EndsLater([if code[0].Effect? then Seen(code[0].e) else External(code[0].callee)],
                Partial(m, f, code[1..], rest).value, calls);
    }
  }

  lemma {:induction false} CalledEnds(m: Module, f: nat, code: Code, callee: Run, rest: Prefix, calls: seq<RuntimeCall>)
    requires code != [] && code[0].Call? && Defined(m, code[0].callee)
    requires Partial(m, f, code, Called(callee, rest)).Some? && Partial(m, f, code[1..], rest).Some?
    requires Ends(Partial(m, f, code[1..], rest).value, calls)
    ensures Ends(Partial(m, f, code, Called(callee, rest)).value, calls)
  {
    EndsLater(Activate(m, code[0].callee, callee).value, Partial(m, f, code[1..], rest).value, calls);
  }

  lemma {:induction false} ReturnEnds(p: Plan, f: nat, after: Code, q: Prefix)
    requires p.Valid() && f < |p.m| && Partial(Apply(p), f, Leave(p, f) + ([Ret] + after), q).Some? && Ended(q)
    ensures Ends(Partial(Apply(p), f, Leave(p, f) + ([Ret] + after), q).value, CallsOf(Leave(p, f)))
  {
    var extra, rest := Leave(p, f), After(|Leave(p, f)|, q);
    CallsForced(Apply(p), f, extra, [Ret] + after, q);
    if Made(|extra|, q) < |extra| {
      OwnAmong(Apply(p), f, extra, [Ret] + after, Made(|extra|, q));
    } else {
      CallsFirst(Apply(p), f, extra, [Ret] + after, rest);
      AtReturn(Apply(p), f, after, rest);
      assert LoggedCalls(extra) + [] == LoggedCalls(extra);
      assert Ends(LoggedCalls(extra), CallsOf(extra));
    }
  }

  lemma {:induction false} AtReturn(m: Module, f: nat, after: Code, rest: Prefix)
    requires Partial(m, f, [Ret] + after, rest).Some?
    ensures Partial(m, f, [Ret] + after, rest) == Some([])
  {
  }

  /** What an execution that starts in f shows first and last. */
  lemma {:induction false} Framed(p: Plan, f: nat, q: Prefix)
    requires p.Valid() && Defined(p.m, f) && Defined(Apply(p), f)
    requires Partial(Apply(p), f, Apply(p)[f].blocks[0], q).Some?
    ensures var trace := Partial(Apply(p), f, Apply(p)[f].blocks[0], q).value;
            Begins(trace, CallsOf(Enter(p, f))) && (Ended(q) ==> Ends(trace, CallsOf(Leave(p, f))))
  {
    var extra, body, rest := Enter(p, f), WithEpilogue(p.m[f].blocks[0], Leave(p, f)), After(|Enter(p, f)|, q);
    BlockOf(p, f, 0);
    BlocksArePlain(p.m, f, 0);
    CallsForced(Apply(p), f, extra, body, q);
    if Made(|extra|, q) < |extra| {
      StopsAmong(Apply(p), f, extra, body, Made(|extra|, q));
      OwnAmong(Apply(p), f, extra, body, Made(|extra|, q));
    } else {
      CallsFirst(Apply(p), f, extra, body, rest);
      OwnFirst(Apply(p), f, extra, body, rest);
      if Ended(q) {
        BodyEnds(p, f, p.m[f].blocks[0], rest);
        EndsLater(LoggedCalls(extra), Partial(Apply(p), f, body, rest).value, CallsOf(Leave(p, f)));
      }
    }
  }

  /**
   * Every execution that starts in a kept function, ended or not: `main` initializes the runtime before
   * anything else if it is to, enables it next if it is to, and logs its entry then; any other function
   * begins with its entry. The last things of an execution that has ended are the exit and, in `main`,
   * the end of the runtime.
   */
  lemma {:induction false} RuntimeIsSetUp(p: Plan, f: nat, q: Prefix)
    requires p.Valid() && Defined(p.m, f) && Defined(Apply(p), f) && p.kept[f]
    requires Partial(Apply(p), f, Apply(p)[f].blocks[0], q).Some?
    ensures var trace, id := Partial(Apply(p), f, Apply(p)[f].blocks[0], q).value, p.ids[f];
            if p.m[f].name == "main" then
              && Begins(trace, if !p.options.initialize then [LogEntry(id)]
                               else if !p.options.enable then [Initialize, LogEntry(id)]
                               else [Initialize, Enable, LogEntry(id)])
              && (Ended(q) ==> Ends(trace, [LogExit(id), Deinitialize]))
            else Begins(trace, [LogEntry(id)]) && (Ended(q) ==> Ends(trace, [LogExit(id)]))
  {
    Framed(p, f, q);
    FrameOf(p, f);
  }

  lemma {:induction false} FrameOf(p: Plan, f: nat)
    requires p.Valid() && f < |p.m| && p.kept[f]
    ensures var id, isMain := p.ids[f], p.m[f].name == "main";
            && CallsOf(Leave(p, f)) == (if isMain then [LogExit(id), Deinitialize] else [LogExit(id)])
            && CallsOf(Enter(p, f)) ==
               if !isMain || !p.options.initialize then [LogEntry(id)]
               else if !p.options.enable then [Initialize, LogEntry(id)]
               else [Initialize, Enable, LogEntry(id)]
  {
  }
}
