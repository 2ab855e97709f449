/** The loops of the instrumentation pass: function ids, symbols, and the calls inserted in place. */
module InstrumentModule {
  import opened Common
  import opened Words
  import opened Program
  import opened Instrumentation
  import opened Filters

  const PARTITION: nat := 0x1_0000_0000

  function Pow2(k: nat): (r: nat)
    ensures 0 < r
  {
    if k == 0 then 1 else 2 * Pow2(k - 1)
  }

  /** Bitwise or of natural numbers. */
  function Or(a: nat, b: nat): nat {
    if a == 0 then b
    else if b == 0 then a
    else 2 * Or(a / 2, b / 2) + if a % 2 == 1 || b % 2 == 1 then 1 else 0
  }

  /** The module's hash in the upper half of the word, the counter in the lower. */
  function MakeFunctionId(hash: nat, counter: nat): nat {
    Or(Wrap(hash * PARTITION), counter)
  }

  lemma {:induction false} OrIsSum(h: nat, c: nat, k: nat)
    requires c < Pow2(k)
    ensures Or(h * Pow2(k), c) == h * Pow2(k) + c
  {
    var a := h * Pow2(k);
    if a != 0 && c != 0 {
      var half := h * Pow2(k - 1);
      assert a == 2 * half by {
        Doubled(h, Pow2(k - 1));
      }
      assert c / 2 < Pow2(k - 1);
      OrIsSum(h, c / 2, k - 1);
    }
  }

  lemma {:induction false} Doubled(h: nat, x: nat)
    ensures h * (2 * x) == 2 * (h * x)
  {
  }

  lemma {:induction false} Pow2Partition()
    ensures Pow2(32) == PARTITION
  {
    assert Pow2(8) == 256;
    Pow2Sum(8, 8);
    Pow2Sum(16, 16);
  }

  lemma {:induction false} Pow2Sum(a: nat, b: nat)
    ensures Pow2(a + b) == Pow2(a) * Pow2(b)
  {
    if b != 0 {
      Pow2Sum(a, b - 1);
      Doubled(Pow2(a), Pow2(b - 1));
    }
  }

  /** Below 2^32 definitions an id holds the hash and the index, and so tells them apart. */
  lemma {:induction false} FunctionIdDecodes(hash: nat, counter: nat)
    requires hash < PARTITION && counter < PARTITION
    ensures MakeFunctionId(hash, counter) == hash * PARTITION + counter
    ensures MakeFunctionId(hash, counter) / PARTITION == hash && MakeFunctionId(hash, counter) % PARTITION == counter
  {
    Pow2Partition();
    OrIsSum(hash, counter, 32);
  }

  /** The lowest bit that is set. */
  function LowBit(h: nat): (r: nat)
    requires 0 < h
    ensures 1 <= r <= h
  {
    if h % 2 == 1 then 1 else 2 * LowBit(h / 2)
  }

  lemma {:induction false} LowBitDivides(h: nat) returns (odd: nat, k: nat)
    requires 0 < h
    ensures odd % 2 == 1 && h == odd * Pow2(k) && LowBit(h) == Pow2(k)
  {
    if h % 2 == 1 {
      odd, k := h, 0;
    } else {
      var j;
      odd, j := LowBitDivides(h / 2);
      k := j + 1;
      Doubled(odd, Pow2(j));
    }
  }

  /** Setting a bit that is set changes nothing. */
  lemma {:induction false} OrOfSetBit(odd: nat, k: nat)
    requires odd % 2 == 1
    ensures Or(odd * Pow2(k), Pow2(k)) == odd * Pow2(k)
  {
    if k == 0 {
      assert Or(odd / 2, 0) == odd / 2;
    } else {
      OrOfSetBit(odd, k - 1);
      Doubled(odd, Pow2(k - 1));
      HalfOfDouble(odd * Pow2(k - 1), Pow2(k - 1));
    }
  }

  lemma {:induction false} HalfOfDouble(a: nat, b: nat)
    requires 0 < a && 0 < b
    ensures Or(2 * a, 2 * b) == 2 * Or(a, b)
  {
  }

  ghost predicate AllDistinct(hash: nat, n: nat) {
    forall c: nat, d: nat :: c < d < n ==> MakeFunctionId(hash, c) != MakeFunctionId(hash, d)
  }

  /**
   * The ids of a module's definitions are pairwise distinct exactly as long as no counter reaches the
   * lowest bit of the shifted hash; 2^32 definitions are always few enough.
   */
  lemma {:induction false} IdsDistinctIff(hash: nat, n: nat)
    requires hash < PARTITION
    ensures AllDistinct(hash, n) <==> hash == 0 || n <= LowBit(hash) * PARTITION
  {
    if hash != 0 {
      var odd, k := LowBitDivides(hash);
      Pow2Partition();
      Pow2Sum(k, 32);
      Rearrange(odd, Pow2(k), PARTITION);
      assert hash * PARTITION == odd * Pow2(k + 32);
      if n <= Pow2(k + 32) {
        forall c: nat, d: nat | c < d < n
          ensures MakeFunctionId(hash, c) != MakeFunctionId(hash, d)
        {
          OrIsSum(odd, c, k + 32);
          OrIsSum(odd, d, k + 32);
        }
      } else {
        OrOfSetBit(odd, k + 32);
        var d := Pow2(k + 32);
        assert MakeFunctionId(hash, 0) == hash * PARTITION == MakeFunctionId(hash, d);
      }
    }
  }

  lemma {:induction false} Rearrange(a: nat, b: nat, c: nat)
    ensures a * b * c == a * (b * c)
  {
  }

  /** The number of definitions before function k. */
  function Index(m: Module, k: nat): nat
    requires k <= |m|
  {
    if k == 0 then 0 else Index(m, k - 1) + if m[k - 1].blocks == [] then 0 else 1
  }

  lemma {:induction false} IndexCounts(m: Module, k: nat)
    requires k <= |m|
    ensures Index(m, k) == |set i | 0 <= i < k && m[i].blocks != []|
  {
    if k != 0 {
      var before, now := set i | 0 <= i < k - 1 && m[i].blocks != [], set i | 0 <= i < k && m[i].blocks != [];
      IndexCounts(m, k - 1);
      assert now == before + if m[k - 1].blocks == [] then {} else {k - 1};
    }
  }

  lemma {:induction false} IndexGrows(m: Module, j: nat, k: nat)
    requires j <= k <= |m|
    ensures Index(m, j) <= Index(m, k)
    ensures j < k && m[j].blocks != [] ==> Index(m, j) < Index(m, k)
  {
    if j < k {
      IndexGrows(m, j, k - 1);
    }
  }

  function InstructionCount(blocks: seq<Code>): nat {
    if blocks == [] then 0 else InstructionCount(blocks[..|blocks| - 1]) + |blocks[|blocks| - 1]|
  }

  function InfoOf(fn: Function): FunctionInfo {
    FunctionInfo(fn.path, fn.demangled, fn.name, ToInt32(InstructionCount(fn.blocks)))
  }

  datatype Symbol = Symbol(linkageName: string, demangled: string, count: int, instrumented: bool, reason: Option<string>)

  function SymbolOf(regex: Regex, filters: seq<Filter>, fn: Function): Symbol {
    Symbol(fn.name, fn.demangled, ToInt32(InstructionCount(fn.blocks)),
           Keeps(regex, filters, InfoOf(fn)), Reason(regex, filters, InfoOf(fn)))
  }

  function PlanOf(m: Module, hash: nat, regex: Regex, filters: seq<Filter>, o: Options): (p: Plan)
    ensures |p.ids| == |p.kept| == |p.m| && p.m == m
  {
    Plan(m,
         seq(|m|, k requires 0 <= k < |m| => MakeFunctionId(hash, Index(m, k))),
         seq(|m|, k requires 0 <= k < |m| => Keeps(regex, filters, InfoOf(m[k]))),
         o)
  }

  /** Ids are told apart by definition, and do not depend on the filters or the options. */
  lemma {:induction false} IdsAreStable(m: Module, hash: nat, regex: Regex, filters: seq<Filter>, filters': seq<Filter>,
                                        o: Options, o': Options, j: nat, k: nat)
    requires hash < PARTITION && Index(m, |m|) <= PARTITION && j < k < |m| && m[j].blocks != [] && m[k].blocks != []
    ensures PlanOf(m, hash, regex, filters, o).ids == PlanOf(m, hash, regex, filters', o').ids
    ensures var ids := PlanOf(m, hash, regex, filters, o).ids;
            && ids[j] != ids[k] && ids[j] / PARTITION == hash
            && ids[j] % PARTITION == |set i | 0 <= i < j && m[i].blocks != []|
  {
    IndexCounts(m, j);
    IndexGrows(m, j, k);
    IndexGrows(m, k, |m|);
    FunctionIdDecodes(hash, Index(m, j));
    FunctionIdDecodes(hash, Index(m, k));
  }

  function Insert(code: Code, at: nat, x: Instr): Code
    requires at <= |code|
  {
    code[..at] + [x] + code[at..]
  }

  /** Inserts the exit calls at one place, one after another. */
  method InsertAt(code: Code, i: nat, id: nat, isMain: bool) returns (r: Code, next: nat)
    requires i <= |code|
    ensures r == code[..i] + Epilogue(id, isMain) + code[i..] && next == i + |Epilogue(id, isMain)|
  {
    r, next := Insert(code, i, Runtime(LogExit(id))), i + 1;
    if isMain {
      r, next := Insert(r, next, Runtime(Deinitialize)), next + 1;
    }
  }

  /** Puts the exit calls in front of each return, walking the block in place. */
  method InsertExits(block: Code, id: nat, isMain: bool) returns (code: Code)
    ensures code == WithEpilogue(block, Epilogue(id, isMain))
  {
    code := block;
    var i := 0;
    ghost var done, rest: Code := [], block;
    while i < |code|
      invariant i == |done| && code == done + rest
      invariant WithEpilogue(block, Epilogue(id, isMain)) == done + WithEpilogue(rest, Epilogue(id, isMain))
      decreases |rest|
    {
      code, i := PassOne(code, i, id, isMain, done, rest, WithEpilogue(block, Epilogue(id, isMain)));
      ghost var calls := if rest[0].Ret? then Epilogue(id, isMain) else [];
      done, rest := done + calls + [rest[0]], rest[1..];
    }
    assert rest == [];
  }

  /** One turn of the walk: the calls go in front of a return, and the walk goes on behind the instruction. */
  method PassOne(code: Code, i: nat, id: nat, isMain: bool, ghost done: Code, ghost rest: Code, ghost whole: Code)
    returns (r: Code, next: nat)
    requires i == |done| < |code| && code == done + rest && whole == done + WithEpilogue(rest, Epilogue(id, isMain))
    ensures rest != []
    ensures var calls := if rest[0].Ret? then Epilogue(id, isMain) else [];
            var passed := done + calls + [rest[0]];
            next == |passed| && r == passed + rest[1..] && whole == passed + WithEpilogue(rest[1..], Epilogue(id, isMain))
  {
    assert code[..i] == done && code[i..] == rest;
    PassedWhole(done, rest, Epilogue(id, isMain));
    PassedCode(done, rest, Epilogue(id, isMain));
    r, next := code, i;
    if code[i].Ret? {
      r, next := InsertAt(code, i, id, isMain);
    }
    next := next + 1;
  }

  lemma {:induction false} PassedWhole(done: Code, rest: Code, extra: Code)
    requires rest != []
    ensures var calls := if rest[0].Ret? then extra else [];
            done + WithEpilogue(rest, extra) == done + calls + [rest[0]] + WithEpilogue(rest[1..], extra)
  {
    var calls := if rest[0].Ret? then extra else [];
    assert [] + [rest[0]] == [rest[0]];
    assert WithEpilogue(rest, extra) == calls + [rest[0]] + WithEpilogue(rest[1..], extra);
    Splice(done, calls, [rest[0]], WithEpilogue(rest[1..], extra));
  }

  lemma {:induction false} PassedCode(done: Code, rest: Code, extra: Code)
    requires rest != []
    ensures done + extra + rest == done + extra + [rest[0]] + rest[1..]
    ensures done + rest == done + [] + [rest[0]] + rest[1..]
  {
    assert rest == [rest[0]] + rest[1..];
  }

  lemma {:induction false} Splice(a: Code, b: Code, c: Code, d: Code)
    ensures a + (b + c + d) == a + b + c + d
  {
  }

  lemma {:induction false} AppliedAt(m: Module, hash: nat, regex: Regex, filters: seq<Filter>, o: Options, k: nat)
    requires k < |m|
    ensures Apply(PlanOf(m, hash, regex, filters, o))[k] ==
            if m[k].blocks != [] && Keeps(regex, filters, InfoOf(m[k])) then Instrumented(m[k], IdAt(m, hash, k), o) else m[k]
  {
  }

  /** Puts the entry calls in front of the first instruction, one after another. */
  method InsertEntry(block: Code, id: nat, isMain: bool, o: Options) returns (code: Code)
    ensures code == WithPrologue(block, Prologue(id, isMain, o))
    ensures var at := InsertionPoint(block);
            code == block[..at] +
                    (if !isMain || !o.initialize then [Runtime(LogEntry(id))]
                     else if !o.enable then [Runtime(Initialize), Runtime(LogEntry(id))]
                     else [Runtime(Initialize), Runtime(Enable), Runtime(LogEntry(id))]) +
                    block[at..]
  {
    EntryCalls(id, isMain, o);
    var at := InsertionPoint(block);
    code := block;
    if isMain && o.initialize {
      code := Insert(code, at, Runtime(Initialize));
      at := at + 1;
      if o.enable {
        code := Insert(code, at, Runtime(Enable));
        at := at + 1;
      }
    }
    code := Insert(code, at, Runtime(LogEntry(id)));
  }

  lemma {:induction false} EntryCalls(id: nat, isMain: bool, o: Options)
    ensures Prologue(id, isMain, o) ==
            if !isMain || !o.initialize then [Runtime(LogEntry(id))]
            else if !o.enable then [Runtime(Initialize), Runtime(LogEntry(id))]
            else [Runtime(Initialize), Runtime(Enable), Runtime(LogEntry(id))]
  {
  }

  method InstrumentBody(fn: Function, id: nat, o: Options) returns (r: Function)
    requires fn.blocks != []
    ensures r == Instrumented(fn, id, o)
  {
    var isMain := fn.name == MAIN;
    var first := InsertEntry(fn.blocks[0], id, isMain, o);
    var blocks := fn.blocks[0 := first];
    for b := 0 to |blocks|
      invariant |blocks| == |fn.blocks|
      invariant forall j :: 0 <= j < b ==> blocks[j] == Instrumented(fn, id, o).blocks[j]
      invariant forall j :: b <= j < |blocks| ==> blocks[j] == if j == 0 then first else fn.blocks[j]
    {
      var code := InsertExits(blocks[b], id, isMain);
      blocks := blocks[b := code];
    }
    r := fn.(blocks := blocks);
    assert r.blocks == Instrumented(fn, id, o).blocks;
  }

  function IdAt(m: Module, hash: nat, k: nat): nat
    requires k <= |m|
  {
    MakeFunctionId(hash, Index(m, k))
  }

  /** The ids of the definitions among the first n functions. */
  ghost function IdsBefore(m: Module, hash: nat, n: nat): set<nat>
    requires n <= |m|
  {
    if n == 0 then {} else IdsBefore(m, hash, n - 1) + if m[n - 1].blocks == [] then {} else {IdAt(m, hash, n - 1)}
  }

  lemma {:induction false} IdsBeforeLacks(m: Module, hash: nat, n: nat, k: nat)
    requires hash < PARTITION && Index(m, |m|) <= PARTITION && n <= k < |m| && m[k].blocks != []
    ensures IdAt(m, hash, k) !in IdsBefore(m, hash, n)
  {
    if n != 0 {
      IdsBeforeLacks(m, hash, n - 1, k);
      if m[n - 1].blocks != [] {
        IdIsFresh(m, hash, n - 1, k);
      }
    }
  }

  /** One entry for each definition among the first n functions, under its id, and no other. */
  ghost predicate Recorded(m: Module, hash: nat, regex: Regex, filters: seq<Filter>, n: nat, symbols: map<nat, seq<Symbol>>)
    requires n <= |m|
  {
    symbols.Keys == IdsBefore(m, hash, n) && forall k :: 0 <= k < n ==> HasEntry(m, hash, regex, filters, k, symbols)
  }

  ghost predicate HasEntry(m: Module, hash: nat, regex: Regex, filters: seq<Filter>, k: nat, symbols: map<nat, seq<Symbol>>)
    requires k < |m|
  {
    m[k].blocks != [] ==>
      && IdAt(m, hash, k) in symbols && |symbols[IdAt(m, hash, k)]| == 1
      && Describes(regex, filters, m[k], symbols[IdAt(m, hash, k)][0])
  }

  /** A symbol with a function's names, its number of instructions in 32 bits, the decision and the rule behind it. */
  ghost predicate Describes(regex: Regex, filters: seq<Filter>, fn: Function, s: Symbol) {
    && s.linkageName == fn.name && s.demangled == fn.demangled
    && -0x8000_0000 <= s.count < 0x8000_0000 && (|Concat(fn.blocks)| - s.count) % 0x1_0000_0000 == 0
    && var info := FunctionInfo(fn.path, fn.demangled, fn.name, s.count);
       && (s.instrumented <==> Any(regex, filters, Allow, info) || !Any(regex, filters, Block, info))
       && (s.reason.None? <==> !Any(regex, filters, Allow, info) && !Any(regex, filters, Block, info))
       && (Any(regex, filters, Allow, info) ==> Names(regex, filters, Allow, info, s.reason.value))
       && (s.reason.Some? && !Any(regex, filters, Allow, info) ==> Names(regex, filters, Block, info, s.reason.value))
  }

  lemma {:induction false} SymbolDescribes(regex: Regex, filters: seq<Filter>, fn: Function)
    ensures Describes(regex, filters, fn, SymbolOf(regex, filters, fn))
  {
    CountsAll(fn.blocks);
    DecisionMeans(regex, filters, filters, InfoOf(fn));
    ReasonMeans(regex, filters, InfoOf(fn));
  }

  lemma {:induction false} CountsAll(blocks: seq<Code>)
    ensures InstructionCount(blocks) == |Concat(blocks)|
  {
    if blocks != [] {
      CountsAll(blocks[..|blocks| - 1]);
    }
  }

  /** The pass changes a function exactly when it is a definition and its symbol says so. */
  lemma {:induction false} KeptAsDescribed(m: Module, hash: nat, regex: Regex, filters: seq<Filter>, o: Options, k: nat, s: Symbol)
    requires k < |m| && m[k].blocks != [] && Describes(regex, filters, m[k], s)
    ensures PlanOf(m, hash, regex, filters, o).kept[k] <==> s.instrumented
    ensures Apply(PlanOf(m, hash, regex, filters, o))[k] != m[k] <==> s.instrumented
  {
    var info := InfoOf(m[k]);
    CountsAll(m[k].blocks);
    SameCount(|Concat(m[k].blocks)|, info.count, s.count);
    DecisionMeans(regex, filters, filters, info);
    AppliedAt(m, hash, regex, filters, o, k);
    if s.instrumented {
      EntryShows(m[k], IdAt(m, hash, k), o);
    }
  }

  lemma {:induction false} SameCount(n: nat, a: int, b: int)
    requires -0x8000_0000 <= a < 0x8000_0000 && -0x8000_0000 <= b < 0x8000_0000
    requires (n - a) % 0x1_0000_0000 == 0 && (n - b) % 0x1_0000_0000 == 0
    ensures a == b
  {
  }

  lemma {:induction false} EntryShows(fn: Function, id: nat, o: Options)
    requires fn.blocks != []
    ensures Instrumented(fn, id, o) != fn
  {
    var code := fn.blocks[0];
    var entered := WithPrologue(code, Prologue(id, fn.name == MAIN, o));
    EpilogueGrows(entered, Epilogue(id, fn.name == MAIN));
    assert |code| < |entered|;
    assert Instrumented(fn, id, o).blocks[0] != code;
  }

  lemma {:induction false} EpilogueGrows(code: Code, extra: Code)
    ensures |code| <= |WithEpilogue(code, extra)|
  {
    if code != [] {
      EpilogueGrows(code[1..], extra);
    }
  }

  ghost predicate Changes(m: Module, regex: Regex, filters: seq<Filter>, n: nat)
    requires n <= |m|
  {
    exists k :: 0 <= k < n && m[k].blocks != [] && Keeps(regex, filters, InfoOf(m[k]))
  }

  lemma {:induction false} IdIsFresh(m: Module, hash: nat, j: nat, k: nat)
    requires hash < PARTITION && Index(m, |m|) <= PARTITION
    requires j < k < |m| && m[j].blocks != [] && m[k].blocks != []
    ensures IdAt(m, hash, j) != IdAt(m, hash, k)
  {
    IndexGrows(m, j, k);
    IndexGrows(m, k, |m|);
    FunctionIdDecodes(hash, Index(m, j));
    FunctionIdDecodes(hash, Index(m, k));
  }

  /** The symbols of the definitions among the first n functions, grouped by id. */
  function SymbolTable(m: Module, hash: nat, regex: Regex, filters: seq<Filter>, n: nat): map<nat, seq<Symbol>>
    requires n <= |m|
  {
    if n == 0 then map[]
    else
      var table := SymbolTable(m, hash, regex, filters, n - 1);
      if m[n - 1].blocks == [] then table
      else AddTo(table, IdAt(m, hash, n - 1), SymbolOf(regex, filters, m[n - 1]))
  }

  function AddTo(table: map<nat, seq<Symbol>>, id: nat, symbol: Symbol): map<nat, seq<Symbol>> {
    table[id := (if id in table then table[id] else []) + [symbol]]
  }

  /** A symbol under a new id joins the table. */
  lemma {:induction false} AddedIsRecord(m: Module, hash: nat, regex: Regex, filters: seq<Filter>, n: nat, table: map<nat, seq<Symbol>>)
    requires hash < PARTITION && Index(m, |m|) <= PARTITION && n < |m| && m[n].blocks != []
    requires Recorded(m, hash, regex, filters, n, table)
    ensures Recorded(m, hash, regex, filters, n + 1, AddTo(table, IdAt(m, hash, n), SymbolOf(regex, filters, m[n])))
  {
    var id, symbol := IdAt(m, hash, n), SymbolOf(regex, filters, m[n]);
    var added := AddTo(table, id, symbol);
    IdsBeforeLacks(m, hash, n, n);
    SymbolDescribes(regex, filters, m[n]);
    assert id !in table.Keys;
    assert [] + [symbol] == [symbol];
    assert added == table[id := [symbol]];
    forall k | 0 <= k < n + 1
      ensures HasEntry(m, hash, regex, filters, k, added)
    {
      if k < n && m[k].blocks != [] {
        IdIsFresh(m, hash, k, n);
        assert HasEntry(m, hash, regex, filters, k, table);
      }
    }
  }

  lemma {:induction false} SkippedIsRecord(m: Module, hash: nat, regex: Regex, filters: seq<Filter>, n: nat, table: map<nat, seq<Symbol>>)
    requires n < |m| && m[n].blocks == [] && Recorded(m, hash, regex, filters, n, table)
    ensures Recorded(m, hash, regex, filters, n + 1, table)
  {
  }

  /** Each definition has exactly one symbol, under its id, as long as there are at most 2^32 of them. */
  lemma {:induction false} TableIsRecord(m: Module, hash: nat, regex: Regex, filters: seq<Filter>, n: nat)
    requires hash < PARTITION && Index(m, |m|) <= PARTITION && n <= |m|
    ensures Recorded(m, hash, regex, filters, n, SymbolTable(m, hash, regex, filters, n))
  {
    if n != 0 {
      var table := SymbolTable(m, hash, regex, filters, n - 1);
      TableIsRecord(m, hash, regex, filters, n - 1);
      if m[n - 1].blocks == [] {
        SkippedIsRecord(m, hash, regex, filters, n - 1, table);
      } else {
        AddedIsRecord(m, hash, regex, filters, n - 1, table);
      }
    }
  }

  /** One turn of the pass's loop: the function it leaves behind, its symbol, and the counter. */
  method Visit(fn: Function, hash: nat, regex: Regex, filters: seq<Filter>, o: Options,
               counter: nat, symbols: map<nat, seq<Symbol>>)
    returns (r: Function, next: nat, table: map<nat, seq<Symbol>>, instrument: bool)
    ensures next == if fn.blocks == [] then counter else Increment(counter)
    ensures instrument <==> fn.blocks != [] && Keeps(regex, filters, InfoOf(fn))
    ensures r == if instrument then Instrumented(fn, MakeFunctionId(hash, counter), o) else fn
    ensures table == if fn.blocks == [] then symbols
                     else AddTo(symbols, MakeFunctionId(hash, counter), SymbolOf(regex, filters, fn))
  {
    r, next, table, instrument := fn, counter, symbols, false;
    if fn.blocks != [] {
      var id := MakeFunctionId(hash, counter);
      var rule;
      instrument, rule := InstrumentFunction(regex, filters, InfoOf(fn));
      var infos := if id in symbols then symbols[id] else [];
      var symbol := Symbol(fn.name, fn.demangled, ToInt32(InstructionCount(fn.blocks)), instrument, rule);
      table := symbols[id := infos + [symbol]];
      if instrument {
        r := InstrumentBody(fn, id, o);
      }
      next := Increment(counter);
    }
  }

  /** A step of the 64-bit definition counter. */
  function Increment(counter: nat): (r: nat)
    ensures counter + 1 < WORD ==> r == counter + 1
  {
    Wrap(counter + 1)
  }

  lemma {:induction false} CounterStep(m: Module, k: nat)
    requires k < |m| < WORD && Index(m, k) <= k
    ensures Index(m, k + 1) == if m[k].blocks == [] then Index(m, k) else Increment(Index(m, k))
    ensures Index(m, k + 1) <= k + 1
  {
  }

  lemma {:induction false} NextChanges(m: Module, regex: Regex, filters: seq<Filter>, k: nat)
    requires k < |m|
    ensures Changes(m, regex, filters, k + 1) <==>
              Changes(m, regex, filters, k) || (m[k].blocks != [] && Keeps(regex, filters, InfoOf(m[k])))
  {
    if m[k].blocks != [] && Keeps(regex, filters, InfoOf(m[k])) {
      assert Changes(m, regex, filters, k + 1);
    }
  }

  /** What the pass has done when it is about to visit function k. */
  ghost predicate Progress(m: Module, hash: nat, regex: Regex, filters: seq<Filter>, o: Options, k: nat,
                           out: Module, counter: nat, symbols: map<nat, seq<Symbol>>, modified: bool)
    requires k <= |m|
  {
    match o
    case Options(_, _) =>
      && counter == Index(m, k) <= k
      && out == Apply(PlanOf(m, hash, regex, filters, o))[..k]
      && symbols == SymbolTable(m, hash, regex, filters, k)
      && (modified <==> Changes(m, regex, filters, k))
  }

  lemma {:induction false} ProgressBegins(m: Module, hash: nat, regex: Regex, filters: seq<Filter>, o: Options)
    ensures Progress(m, hash, regex, filters, o, 0, [], 0, map[], false)
  {
  }

  lemma {:induction false} ProgressEnds(m: Module, hash: nat, regex: Regex, filters: seq<Filter>, o: Options,
                                        out: Module, counter: nat, symbols: map<nat, seq<Symbol>>, modified: bool)
    requires Progress(m, hash, regex, filters, o, |m|, out, counter, symbols, modified)
    ensures out == Apply(PlanOf(m, hash, regex, filters, o)) && (WellFormed(m) ==> Erase(out) == m)
    ensures symbols == SymbolTable(m, hash, regex, filters, |m|)
    ensures modified <==> out != m
  {
    var target := Apply(PlanOf(m, hash, regex, filters, o));
    assert target[..|m|] == target;
    EraseOut(m, hash, regex, filters, o);
    ChangesShow(m, hash, regex, filters, o);
  }

  lemma {:induction false} ChangesShow(m: Module, hash: nat, regex: Regex, filters: seq<Filter>, o: Options)
    ensures Changes(m, regex, filters, |m|) <==> Apply(PlanOf(m, hash, regex, filters, o)) != m
  {
    var out := Apply(PlanOf(m, hash, regex, filters, o));
    forall k | 0 <= k < |m|
      ensures out[k] != m[k] <==> m[k].blocks != [] && Keeps(regex, filters, InfoOf(m[k]))
    {
      AppliedAt(m, hash, regex, filters, o, k);
      if m[k].blocks != [] {
        EntryShows(m[k], IdAt(m, hash, k), o);
      }
    }
  }

  lemma {:induction false} VisitProgresses(
    m: Module, hash: nat, regex: Regex, filters: seq<Filter>, o: Options, k: nat,
    out: Module, counter: nat, symbols: map<nat, seq<Symbol>>, modified: bool,
    fn: Function, next: nat, table: map<nat, seq<Symbol>>, instrument: bool)
    requires k < |m| < WORD && Progress(m, hash, regex, filters, o, k, out, counter, symbols, modified)
    requires next == if m[k].blocks == [] then counter else Increment(counter)
    requires instrument <==> m[k].blocks != [] && Keeps(regex, filters, InfoOf(m[k]))
    requires fn == if instrument then Instrumented(m[k], MakeFunctionId(hash, counter), o) else m[k]
    requires table == if m[k].blocks == [] then symbols
                      else AddTo(symbols, MakeFunctionId(hash, counter), SymbolOf(regex, filters, m[k]))
    ensures Progress(m, hash, regex, filters, o, k + 1, out + [fn], next, table, modified || instrument)
  {
    CounterStep(m, k);
    NextChanges(m, regex, filters, k);
    NextApplied(m, hash, regex, filters, o, k);
    NextSymbols(m, hash, regex, filters, k);
  }

  lemma {:induction false} NextApplied(m: Module, hash: nat, regex: Regex, filters: seq<Filter>, o: Options, k: nat)
    requires k < |m|
    ensures Apply(PlanOf(m, hash, regex, filters, o))[..k + 1] ==
            Apply(PlanOf(m, hash, regex, filters, o))[..k] +
            [if m[k].blocks != [] && Keeps(regex, filters, InfoOf(m[k]))
             then Instrumented(m[k], MakeFunctionId(hash, Index(m, k)), o) else m[k]]
  {
    AppliedAt(m, hash, regex, filters, o, k);
    PrefixGrows(Apply(PlanOf(m, hash, regex, filters, o)), k);
  }

  lemma {:induction false} PrefixGrows(m: Module, k: nat)
    requires k < |m|
    ensures m[..k + 1] == m[..k] + [m[k]]
  {
  }

  lemma {:induction false} NextSymbols(m: Module, hash: nat, regex: Regex, filters: seq<Filter>, k: nat)
    requires k < |m|
    ensures SymbolTable(m, hash, regex, filters, k + 1) ==
            if m[k].blocks == [] then SymbolTable(m, hash, regex, filters, k)
            else AddTo(SymbolTable(m, hash, regex, filters, k),
                       MakeFunctionId(hash, Index(m, k)), SymbolOf(regex, filters, m[k]))
  {
  }

  /** The turn of the loop that visits function k. */
  method VisitNext(m: Module, hash: nat, regex: Regex, filters: seq<Filter>, o: Options, k: nat,
                   out: Module, counter: nat, symbols: map<nat, seq<Symbol>>, modified: bool)
    returns (out': Module, counter': nat, symbols': map<nat, seq<Symbol>>, modified': bool)
    requires k < |m| < WORD && Progress(m, hash, regex, filters, o, k, out, counter, symbols, modified)
    ensures Progress(m, hash, regex, filters, o, k + 1, out', counter', symbols', modified')
  {
    var fn, next, table, instrument := Visit(m[k], hash, regex, filters, o, counter, symbols);
    VisitProgresses(m, hash, regex, filters, o, k, out, counter, symbols, modified, fn, next, table, instrument);
    out', counter', symbols', modified' := out + [fn], next, table, modified || instrument;
  }

  /**
   * The pass: the module it leaves behind, one symbol for each definition under its id,
   * and whether it changed anything.
   */
  method InstrumentModule(m: Module, hash: nat, regex: Regex, filters: seq<Filter>, o: Options)
    returns (out: Module, symbols: map<nat, seq<Symbol>>, modified: bool)
    requires hash < PARTITION && |m| < WORD
    ensures out == Apply(PlanOf(m, hash, regex, filters, o))
    ensures WellFormed(m) ==> Erase(out) == m
    ensures symbols == SymbolTable(m, hash, regex, filters, |m|)
    ensures modified <==> out != m
  {
    out, symbols, modified := [], map[], false;
    var counter := 0;
    ProgressBegins(m, hash, regex, filters, o);
    for k := 0 to |m|
      invariant Progress(m, hash, regex, filters, o, k, out, counter, symbols, modified)
    {
      out, counter, symbols, modified := VisitNext(m, hash, regex, filters, o, k, out, counter, symbols, modified);
    }
    ProgressEnds(m, hash, regex, filters, o, out, counter, symbols, modified);
  }

  lemma {:induction false} EraseOut(m: Module, hash: nat, regex: Regex, filters: seq<Filter>, o: Options)
    ensures WellFormed(m) ==> Erase(Apply(PlanOf(m, hash, regex, filters, o))) == m
  {
    if WellFormed(m) {
      EraseApply(PlanOf(m, hash, regex, filters, o));
    }
  }
}
