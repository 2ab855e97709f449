/**
 * A small intermediate representation of the programs that the instrumentation pass
 * transforms, and what their executions show.
 */
module Program {
  import opened Common

  datatype RuntimeCall = Initialize | Enable | Deinitialize | LogEntry(id: nat) | LogExit(id: nat)

  datatype Instr =
    | Phi
    | Effect(e: nat)
    | Call(callee: nat)             // a call of the function at that index of the module
    | Runtime(call: RuntimeCall)
    | Branch(targets: seq<nat>)
    | Ret

  type Code = seq<Instr>

  /** A function without blocks is a declaration. */
  datatype Function = Function(name: string, path: string, demangled: string, blocks: seq<Code>)

  type Module = seq<Function>

  predicate Defined(m: Module, f: nat) {
    f < |m| && m[f].blocks != []
  }

  /** What an execution shows. */
  datatype Event = Seen(e: nat) | External(f: nat) | Logged(call: RuntimeCall)

  /**
   * The choices of one activation that leaves through a return: one constructor for each
   * instruction executed, with the activations it calls.
   */
  datatype Run =
    | Done
    | Tick(rest: Run)
    | Invoke(callee: Run, rest: Run)
    | Go(target: nat, rest: Run)

  function Join(a: Option<seq<Event>>, b: Option<seq<Event>>): Option<seq<Event>> {
    if a.Some? && b.Some? then Some(a.value + b.value) else None
  }

  /** What `run` shows when function f goes on with `code`; None when it is not a run of that code. */
  ghost function Exec(m: Module, f: nat, code: Code, run: Run): Option<seq<Event>>
    decreases run, 0
  {
    if code == [] then None
    else
      match run
      case Done => if code[0].Ret? then Some([]) else None
      case Tick(rest) =>
        (match code[0]
         case Phi => Exec(m, f, code[1..], rest)
         case Effect(e) => Join(Some([Seen(e)]), Exec(m, f, code[1..], rest))
         case Runtime(call) => Join(Some([Logged(call)]), Exec(m, f, code[1..], rest))
         case Call(g) => if Defined(m, g) then None else Join(Some([External(g)]), Exec(m, f, code[1..], rest))
         case _ => None)
      case Invoke(callee, rest) =>
        if code[0].Call? && Defined(m, code[0].callee)
        then Join(Activate(m, code[0].callee, callee), Exec(m, f, code[1..], rest)) else None
      case Go(target, rest) =>
        if code[0].Branch? && target in code[0].targets && f < |m| && target < |m[f].blocks|
        then Exec(m, f, m[f].blocks[target], rest) else None
  }

  /** What one activation of f shows. */
  ghost function Activate(m: Module, f: nat, run: Run): Option<seq<Event>>
    requires Defined(m, f)
    decreases run, 1
  {
    Exec(m, f, m[f].blocks[0], run)
  }

  /** The events of the program itself. */
  function Visible(trace: seq<Event>): seq<Event> {
    if trace == [] then []
    else (if trace[0].Logged? then [] else [trace[0]]) + Visible(trace[1..])
  }

  /** The function entries and exits logged. */
  function Log(trace: seq<Event>): seq<RuntimeCall> {
    if trace == [] then []
    else
      (if trace[0].Logged? && (trace[0].call.LogEntry? || trace[0].call.LogExit?) then [trace[0].call] else [])
      + Log(trace[1..])
  }

  lemma {:induction false} Appended(a: seq<Event>, b: seq<Event>)
    ensures Visible(a + b) == Visible(a) + Visible(b)
    ensures Log(a + b) == Log(a) + Log(b)
  {
    VisibleAppended(a, b);
    LogAppended(a, b);
  }

  lemma {:induction false} VisibleAppended(a: seq<Event>, b: seq<Event>)
    ensures Visible(a + b) == Visible(a) + Visible(b)
  {
    if a == [] {
      assert a + b == b;
    } else {
      var first := if a[0].Logged? then [] else [a[0]];
      assert (a + b)[0] == a[0] && (a + b)[1..] == a[1..] + b;
      VisibleAppended(a[1..], b);
      assert Visible(a + b) == first + (Visible(a[1..]) + Visible(b)) == first + Visible(a[1..]) + Visible(b);
    }
  }

  lemma {:induction false} LogAppended(a: seq<Event>, b: seq<Event>)
    ensures Log(a + b) == Log(a) + Log(b)
  {
    if a == [] {
      assert a + b == b;
    } else {
      var first := if a[0].Logged? && (a[0].call.LogEntry? || a[0].call.LogExit?) then [a[0].call] else [];
      assert (a + b)[0] == a[0] && (a + b)[1..] == a[1..] + b;
      LogAppended(a[1..], b);
      assert Log(a + b) == first + (Log(a[1..]) + Log(b)) == first + Log(a[1..]) + Log(b);
    }
  }

  /** The calls of defined functions an execution makes, each with the calls made inside it. */
  datatype Forest = Leaf | Node(f: nat, inner: Forest, next: Forest)

  ghost function Calls(m: Module, f: nat, code: Code, run: Run): Forest
    decreases run
  {
    if code == [] then Leaf
    else
      match run
      case Done => Leaf
      case Tick(rest) => Calls(m, f, code[1..], rest)
      case Invoke(callee, rest) =>
        if code[0].Call? && Defined(m, code[0].callee)
        then Node(code[0].callee, Calls(m, code[0].callee, m[code[0].callee].blocks[0], callee),
                  Calls(m, f, code[1..], rest))
        else Leaf
      case Go(target, rest) =>
        if f < |m| && target < |m[f].blocks| then Calls(m, f, m[f].blocks[target], rest) else Leaf
  }

  /** LLVM's rules for entry blocks, and no call of the runtime yet. */
  predicate WellFormed(m: Module) {
    forall f :: 0 <= f < |m| ==>
      forall b :: 0 <= b < |m[f].blocks| ==>
        forall k :: 0 <= k < |m[f].blocks[b]| ==> Allowed(m[f].blocks[b][k], b)
  }

  predicate Allowed(x: Instr, block: nat) {
    && !x.Runtime?
    && (x.Branch? ==> 0 !in x.targets)
    && (block == 0 ==> !x.Phi?)
  }
}
