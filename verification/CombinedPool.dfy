/**
 * The pools of slices as one caller at a time sees them: the reserved pool first and the
 * dynamic pool behind it (combined_buffer_slice_pool.h). Borrow and Return play the step
 * machines of the two pools to the end of a call.
 */
module CombinedPool {
  import opened Common
  import opened Words
  import opened Slices
  import opened SliceBuffer
  import R = ReservedPool
  import D = DynamicPool

  /** A pool between two calls. */
  ghost predicate Quiet<T>(p: R.Pool<T>) {
    R.Inv(p) && R.WellCut(p.capacity, p.caps) && p.threads == [R.Idle]
  }

  ghost predicate LentUpTo<T>(p: R.Pool<T>, i: nat) {
    i <= |p.slots| && forall j :: 0 <= j < i ==> p.slots[j].borrowed
  }

  function Raised<T>(p: R.Pool<T>, i: nat): R.Pool<T>
    requires i < |p.slots|
  {
    p.(slots := p.slots[i := p.slots[i].(borrowed := true)])
  }

  /** Where the scan for a free slice is: all slices before `at` are lent. */
  ghost predicate Scan<T>(p: R.Pool<T>, next: R.Pool<T>, phase: R.Phase, at: nat) {
    match phase
    case Scanning(i) => LentUpTo(p, at) && i == at && next == p.(threads := [phase])
    case Subtracting(i) =>
      LentUpTo(p, at) && i == at < |p.slots| && !p.slots[at].borrowed && next == Raised(p, at).(threads := [phase])
    case Idle => LentUpTo(p, |p.slots|) && next == p
    case _ => false
  }

  lemma {:induction false} ScanStep<T>(p: R.Pool<T>, next: R.Pool<T>, at: nat)
    requires p.threads == [R.Idle] && Scan(p, next, R.Scanning(at), at)
    ensures var after := R.Step(next, R.Continue(0));
            && |after.threads| == 1
            && Scan(p, after, after.threads[0], if after.threads[0].Scanning? then at + 1 else at)
            && (after.threads[0].Scanning? ==> at < |p.slots|)
  {
    var after := R.Step(next, R.Continue(0));
    if at == |p.slots| {
      assert after.threads == [R.Idle];
    } else {
      assert after.threads == [if p.slots[at].borrowed then R.Scanning(at + 1) else R.Subtracting(at)];
    }
  }

  /** Borrow of the reserved pool: the first slice whose flag is down, which is empty; none when all are lent. */
  method BorrowReserved<T>(p: R.Pool<T>) returns (next: R.Pool<T>, slot: Option<nat>)
    requires Quiet(p)
    ensures Quiet(next) && next.caps == p.caps && next.capacity == p.capacity
    ensures slot.None? ==> next == p && LentUpTo(p, |p.slots|)
    ensures slot.Some? ==>
              && LentUpTo(p, slot.value) && slot.value < |p.slots| && !p.slots[slot.value].borrowed
              && next.held == p.held + multiset{slot.value} && next.slots == Raised(p, slot.value).slots
              && next.slots[slot.value].ring.memory == []
  {
    R.StepKeepsInv(p, R.Borrow(0));
    next, slot := R.Step(p, R.Borrow(0)), None;
    ghost var at := 0;
    while next.threads[0].Scanning?
      invariant R.Inv(next) && |next.threads| == 1 && Scan(p, next, next.threads[0], at)
      decreases |p.slots| - at, next.threads[0].Scanning?
    {
      R.StepKeepsInv(next, R.Continue(0));
      ScanStep(p, next, at);
      next := R.Step(next, R.Continue(0));
      if next.threads[0].Scanning? {
        at := at + 1;
      }
    }
    if next.threads[0].Subtracting? {
      slot := Some(next.threads[0].i);
      next := FinishBorrow(next, next.threads[0].i);
    }
  }

  /** The subtraction from the size that completes a borrow of slice i. */
  method FinishBorrow<T>(p: R.Pool<T>, i: nat) returns (next: R.Pool<T>)
    requires R.Inv(p) && p.threads == [R.Subtracting(i)]
    ensures R.Inv(next) && i < |p.slots| && p.slots[i].ring.memory == []
    ensures next == p.(threads := [R.Idle], size := next.size, held := p.held + multiset{i})
  {
    assert R.PhaseOk(p, p.threads[0]);
    R.StepKeepsInv(p, R.Continue(0));
    next := R.Step(p, R.Continue(0));
  }

  /** Return of the reserved pool, for a pointer that is out. */
  method ReturnReserved<T>(p: R.Pool<T>, i: nat) returns (next: R.Pool<T>)
    requires Quiet(p) && i in p.held
    ensures Quiet(next) && next.caps == p.caps && next.capacity == p.capacity
    ensures next.held == p.held - multiset{i} && i < |p.slots| == |next.slots|
    ensures !next.slots[i].borrowed && next.slots[i].ring.memory == []
  {
    R.HeldIsExclusive(p, i);
    R.ReturnKeepsInv(p, 0, i);
    next := R.Step(p, R.Return(0, i));
    assert next.threads == [R.Clearing(i)];
    R.StepKeepsInv(next, R.Continue(0));
    next := R.Step(next, R.Continue(0));
    assert next.threads == [R.Unflagging(i)] && next.slots[i].ring.memory == [];
    R.StepKeepsInv(next, R.Continue(0));
    next := R.Step(next, R.Continue(0));
    assert next.threads == [R.Adding(i)];
    R.StepKeepsInv(next, R.Continue(0));
    next := R.Step(next, R.Continue(0));
  }

  ghost predicate Settled(o: D.Options, p: D.Pool) {
    D.Inv(o, p) && p.threads == [D.Idle]
  }

  /** The first `n` compare-and-swaps fail for no reason. */
  ghost predicate AllFail(spurious: nat -> bool, n: nat) {
    forall k: nat :: k < n ==> spurious(k)
  }

  /** Where the compare-and-swap loop is: every attempt before `attempt` has failed. */
  ghost predicate Swapping(o: D.Options, p: D.Pool, preferred: nat, next: D.Pool, phase: D.Phase, attempt: nat) {
    var size := D.SliceSize(o, preferred, p.borrowed);
    match phase
    case Trying(k, want) => k == attempt < o.attempts && want == preferred && next == p.(threads := [phase])
    case Idle => if attempt == o.attempts || size == 0 then next == p else next.issued == p.issued + [size]
    case Loaded(_, _, _) => false
  }

  lemma {:induction false} SwapStep(o: D.Options, p: D.Pool, preferred: nat, next: D.Pool, attempt: nat, fails: bool)
    requires Settled(o, p) && D.Inv(o, next) && Swapping(o, p, preferred, next, D.Trying(attempt, preferred), attempt)
    ensures var after := D.Step(o, D.Step(o, next, D.Load(0)), D.Swap(0, fails));
            && D.Inv(o, after) && |after.threads| == 1
            && Swapping(o, p, preferred, after, after.threads[0], if fails then attempt + 1 else attempt)
            && (after.threads[0].Trying? ==> fails) && (after.threads[0].Idle? && fails ==> attempt + 1 == o.attempts)
  {
    var loaded := D.Step(o, next, D.Load(0));
    assert loaded == p.(threads := [D.Loaded(attempt, preferred, p.borrowed)]);
    D.StepKeepsInv(o, next, D.Load(0));
    D.SwapKeepsInv(o, loaded, 0, fails);
    D.NoWrapAround(o, preferred, p.borrowed);
  }

  /**
   * Borrow of the dynamic pool; `spurious` tells which of the compare-and-swaps fail for no reason.
   * It fails only if all of them do or there is no room.
   */
  method BorrowDynamic(o: D.Options, p: D.Pool, preferred: nat, spurious: nat -> bool)
    returns (next: D.Pool, size: Option<nat>)
    requires Settled(o, p)
    ensures Settled(o, next)
    ensures size.None? ==> next == p
    ensures size.None? <==> AllFail(spurious, o.attempts) || D.SliceSize(o, preferred, p.borrowed) == 0
    ensures size.Some? ==> size.value == D.SliceSize(o, preferred, p.borrowed) && next.issued == p.issued + [size.value]
  {
    next, size := p, None;
    if o.attempts == 0 {
      return;
    }
    ghost var attempt;
    next, attempt := SwapUntil(o, p, preferred, spurious);
    RefusedMeans(spurious, attempt, o.attempts);
    SwapEnds(o, p, preferred, next, attempt);
    if |next.issued| != |p.issued| {
      size := Some(next.issued[|p.issued|]);
    }
  }

  /** Where the loop is: every attempt so far has failed, but for the one, if any, that ended it. */
  ghost predicate Swept(o: D.Options, p: D.Pool, preferred: nat, spurious: nat -> bool, next: D.Pool, attempt: nat) {
    match next
    case Pool(_, _, threads) =>
      && D.Inv(o, next) && |threads| == 1 && !threads[0].Loaded? && attempt <= o.attempts
      && Swapping(o, p, preferred, next, threads[0], attempt)
      && Refused(spurious, attempt, o.attempts, threads[0].Idle?)
  }

  /** One turn of the loop: load the counter, then compare and swap. */
  method TrySwap(o: D.Options, ghost p: D.Pool, ghost preferred: nat, spurious: nat -> bool, s: D.Pool, ghost attempt: nat)
    returns (next: D.Pool, ghost tried: nat)
    requires Settled(o, p) && Swept(o, p, preferred, spurious, s, attempt) && s.threads[0].Trying?
    ensures Swept(o, p, preferred, spurious, next, tried)
    ensures attempt <= tried && (next.threads[0].Trying? ==> tried == attempt + 1)
  {
    var fails := spurious(s.threads[0].attempt);
    SwapStep(o, p, preferred, s, attempt, fails);
    RefusedNext(spurious, attempt, o.attempts);
    next := D.Step(o, s, D.Load(0));
    next := D.Step(o, next, D.Swap(0, fails));
    tried := if fails then attempt + 1 else attempt;
  }

  lemma {:induction false} RefusedNext(spurious: nat -> bool, attempt: nat, attempts: nat)
    requires attempt < attempts && Refused(spurious, attempt, attempts, false)
    ensures if spurious(attempt) then Refused(spurious, attempt + 1, attempts, false) else Refused(spurious, attempt, attempts, true)
    ensures spurious(attempt) && attempt + 1 == attempts ==> Refused(spurious, attempt + 1, attempts, true)
  {
  }

  /** The loop of compare-and-swaps, until one succeeds or all have failed. */
  method SwapUntil(o: D.Options, p: D.Pool, preferred: nat, spurious: nat -> bool) returns (next: D.Pool, ghost attempt: nat)
    requires Settled(o, p) && 0 < o.attempts
    ensures Swept(o, p, preferred, spurious, next, attempt) && next.threads == [D.Idle]
  {
    next := D.Step(o, p, D.Borrow(0, preferred));
    attempt := 0;
    SweepBegins(o, p, preferred, spurious);
    while next.threads[0].Trying?
      invariant Swept(o, p, preferred, spurious, next, attempt)
      decreases o.attempts - attempt, next.threads[0].Trying?
    {
      next, attempt := TrySwap(o, p, preferred, spurious, next, attempt);
    }
  }

  lemma {:induction false} SweepBegins(o: D.Options, p: D.Pool, preferred: nat, spurious: nat -> bool)
    requires Settled(o, p) && 0 < o.attempts
    ensures Swept(o, p, preferred, spurious, D.Step(o, p, D.Borrow(0, preferred)), 0)
  {
    D.StepKeepsInv(o, p, D.Borrow(0, preferred));
  }

  lemma {:induction false} SwapEnds(o: D.Options, p: D.Pool, preferred: nat, next: D.Pool, attempt: nat)
    requires Settled(o, p) && D.Inv(o, next) && next.threads == [D.Idle] && Swapping(o, p, preferred, next, D.Idle, attempt)
    ensures var size := D.SliceSize(o, preferred, p.borrowed);
            Settled(o, next) && if attempt == o.attempts || size == 0 then next == p else next.issued == p.issued + [size]
  {
  }

  /** Every attempt so far failed for no reason, except the one, if any, that ended the loop. */
  ghost predicate Refused(spurious: nat -> bool, attempt: nat, attempts: nat, done: bool) {
    AllFail(spurious, attempt) && (done && attempt < attempts ==> !spurious(attempt))
  }

  lemma {:induction false} RefusedMeans(spurious: nat -> bool, attempt: nat, attempts: nat)
    requires attempt <= attempts && Refused(spurious, attempt, attempts, true)
    ensures AllFail(spurious, attempts) <==> attempt == attempts
  {
  }

  /** The largest slice that a request, the limit and the room left allow. */
  ghost predicate Largest(o: D.Options, preferred: nat, borrowed: nat, size: nat) {
    && 0 < size <= preferred && size <= o.maxSlice && borrowed + size <= o.capacity
    && (size == preferred || size == o.maxSlice || borrowed + size == o.capacity)
  }

  /** The dynamic pool lends nothing: nothing is asked for, nothing is left, or each swap fails for no reason. */
  ghost predicate Exhausted(o: D.Options, preferred: nat, borrowed: nat, spurious: nat -> bool) {
    preferred == 0 || o.maxSlice == 0 || o.capacity <= borrowed || AllFail(spurious, o.attempts)
  }

  /** The answer of both pools: the first reserved slice that is free, else the largest dynamic one, if there is one. */
  ghost predicate Answers<T>(reserved: R.Pool<T>, o: D.Options, borrowed: nat, preferred: nat, spurious: nat -> bool,
                             r: Option<Lease>)
  {
    match r
    case None => LentUpTo(reserved, |reserved.slots|) && Exhausted(o, preferred, borrowed, spurious)
    case Some(Lease(Reserved, i, capacity)) =>
      && LentUpTo(reserved, i) && i < |reserved.slots| == |reserved.caps| && !reserved.slots[i].borrowed
      && capacity == reserved.caps[i]
    case Some(Lease(Dynamic, _, capacity)) =>
      && LentUpTo(reserved, |reserved.slots|) && !Exhausted(o, preferred, borrowed, spurious)
      && Largest(o, preferred, borrowed, capacity)
    case Some(Lease(Foreign(_), _, _)) => false
  }

  lemma {:induction false} SizeIsLargest(o: D.Options, preferred: nat, borrowed: nat)
    requires borrowed <= o.capacity < WORD
    ensures var size := D.SliceSize(o, preferred, borrowed);
            && (size == 0 <==> preferred == 0 || o.maxSlice == 0 || o.capacity <= borrowed)
            && (size != 0 ==> Largest(o, preferred, borrowed, size))
  {
    D.NoWrapAround(o, preferred, borrowed);
  }

  /** The slices that do not belong to the pool, in order, and those that do. */
  function Others(slices: seq<Lease>): seq<Lease> {
    if slices == [] then []
    else Others(slices[..|slices| - 1]) + if slices[|slices| - 1].owner.Foreign? then [slices[|slices| - 1]] else []
  }

  function Own(slices: seq<Lease>): multiset<Lease> {
    if slices == [] then multiset{}
    else Own(slices[..|slices| - 1]) + if slices[|slices| - 1].owner.Foreign? then multiset{} else multiset{slices[|slices| - 1]}
  }

  /** How many pointers to a slice are out. */
  ghost function Out(caps: seq<nat>, held: multiset<nat>, granted: seq<Lease>, l: Lease): nat {
    match l.owner
    case Reserved => if l.slot < |caps| && caps[l.slot] == l.capacity then held[l.slot] else 0
    case Dynamic => multiset(granted)[l]
    case Foreign(_) => 0
  }

  /** `lent` is what is out of both pools. */
  ghost predicate Ledger(caps: seq<nat>, held: multiset<nat>, issued: seq<nat>, granted: seq<Lease>, lent: multiset<Lease>) {
    && |granted| == |issued|
    && (forall k :: 0 <= k < |granted| ==> granted[k].owner == Dynamic && granted[k].capacity == issued[k])
    && (forall l: Lease :: lent[l] == Out(caps, held, granted, l))
  }

  lemma {:induction false} LedgerLends(caps: seq<nat>, held: multiset<nat>, issued: seq<nat>, granted: seq<Lease>,
                                       lent: multiset<Lease>, i: nat)
    requires Ledger(caps, held, issued, granted, lent) && i < |caps|
    ensures var l := Lease(Reserved, i, caps[i]);
            lent[l] == held[i] && Ledger(caps, held + multiset{i}, issued, granted, lent + multiset{l})
  {
  }

  lemma {:induction false} LedgerTakes(caps: seq<nat>, held: multiset<nat>, issued: seq<nat>, granted: seq<Lease>,
                                       lent: multiset<Lease>, l: Lease)
    requires Ledger(caps, held, issued, granted, lent) && l in lent && l.owner == Reserved
    ensures l.slot in held && Ledger(caps, held - multiset{l.slot}, issued, granted, lent - multiset{l})
  {
    assert lent[l] == Out(caps, held, granted, l);
  }

  lemma {:induction false} LedgerGrants(caps: seq<nat>, held: multiset<nat>, issued: seq<nat>, granted: seq<Lease>,
                                        lent: multiset<Lease>, serial: nat, size: nat)
    requires Ledger(caps, held, issued, granted, lent)
    ensures var l := Lease(Dynamic, serial, size);
            Ledger(caps, held, issued + [size], granted + [l], lent + multiset{l})
  {
    var l := Lease(Dynamic, serial, size);
    assert multiset(granted + [l]) == multiset(granted) + multiset{l};
  }

  /** Every slice of the dynamic pool has an address of its own. */
  ghost predicate Numbered(granted: seq<Lease>, serial: nat) {
    forall k :: 0 <= k < |granted| ==> granted[k].slot < serial
  }

  lemma {:induction false} MoreNumbered(granted: seq<Lease>, serial: nat, l: Lease)
    requires Numbered(granted, serial) && l.slot == serial
    ensures Numbered(granted + [l], serial + 1)
  {
  }

  lemma {:induction false} LedgerLacks(caps: seq<nat>, held: multiset<nat>, issued: seq<nat>, granted: seq<Lease>,
                                       lent: multiset<Lease>, serial: nat, size: nat)
    requires Ledger(caps, held, issued, granted, lent) && Numbered(granted, serial)
    ensures Lease(Dynamic, serial, size) !in lent
  {
    var l := Lease(Dynamic, serial, size);
    assert l !in granted;
    assert lent[l] == Out(caps, held, granted, l);
  }

  lemma {:induction false} LedgerServes(caps: seq<nat>, held: multiset<nat>, issued: seq<nat>, granted: seq<Lease>,
                                        lent: multiset<Lease>, serial: nat, size: nat)
    requires Ledger(caps, held, issued, granted, lent) && Numbered(granted, serial)
    ensures var l := Lease(Dynamic, serial, size);
            && Ledger(caps, held, issued + [size], granted + [l], lent + multiset{l})
            && l !in lent && Numbered(granted + [l], serial + 1)
  {
    LedgerGrants(caps, held, issued, granted, lent, serial, size);
    LedgerLacks(caps, held, issued, granted, lent, serial, size);
    MoreNumbered(granted, serial, Lease(Dynamic, serial, size));
  }

  lemma {:induction false} LedgerFrees(caps: seq<nat>, held: multiset<nat>, issued: seq<nat>, granted: seq<Lease>,
                                       lent: multiset<Lease>, k: nat)
    requires Ledger(caps, held, issued, granted, lent) && k < |granted|
    ensures Ledger(caps, held, D.Without(issued, k), granted[..k] + granted[k + 1..], lent - multiset{granted[k]})
  {
    Removed(granted, k);
  }

  lemma {:induction false} LedgerFinds(caps: seq<nat>, held: multiset<nat>, issued: seq<nat>, granted: seq<Lease>,
                                       lent: multiset<Lease>, l: Lease)
    requires Ledger(caps, held, issued, granted, lent) && l in lent && l.owner != Reserved
    ensures l in granted
  {
    assert lent[l] == Out(caps, held, granted, l);
  }

  lemma {:induction false} LedgerEmpty(caps: seq<nat>, held: multiset<nat>, issued: seq<nat>, granted: seq<Lease>,
                                       lent: multiset<Lease>)
    requires Ledger(caps, held, issued, granted, lent) && forall i :: i in held ==> i < |caps|
    ensures lent == multiset{} <==> held == multiset{} && issued == []
  {
    if issued != [] {
      assert granted[0] in multiset(granted) && lent[granted[0]] == Out(caps, held, granted, granted[0]);
    }
    if held != multiset{} {
      var i :| i in held;
      var l := Lease(Reserved, i, caps[i]);
      assert lent[l] == Out(caps, held, granted, l);
    }
    if held == multiset{} && issued == [] {
      assert forall l: Lease :: lent[l] == Out(caps, held, granted, l) == 0;
    }
  }

  class CombinedBufferSlicePool<T(!new)> {
    const o: D.Options
    var reserved: R.Pool<T>
    var dynamic: D.Pool
    var granted: seq<Lease>      // the slices the dynamic pool has allocated, as it issued them
    var serial: nat                // stands for the address of the next allocation
    ghost var lent: multiset<Lease>

    ghost predicate Valid()
      reads this
    {
      && Quiet(reserved) && Settled(o, dynamic) && Ledger(reserved.caps, reserved.held, dynamic.issued, granted, lent)
      && Numbered(granted, serial)
    }

    constructor (reservedCapacity: nat, reservedMaxSlice: nat, o: D.Options)
      requires reservedCapacity < WORD && o.capacity < WORD
      ensures Valid() && lent == multiset{}
      ensures this.o == o && reserved.capacity == reservedCapacity
      ensures reservedMaxSlice != 0 ==> SumBy(R.Same, reserved.caps) == reservedCapacity
    {
      var spans := R.MakeSpans(reservedCapacity, reservedMaxSlice);
      R.TilesAreWellCut(spans, reservedCapacity);
      if reservedMaxSlice != 0 {
        R.SpansPartition(spans, reservedCapacity);
        R.LengthsSum(spans);
      }
      R.StartInv<T>(reservedCapacity, R.Lengths(spans), 1);
      this.o, reserved := o, R.Start(reservedCapacity, R.Lengths(spans), 1);
      dynamic, granted, serial, lent := D.Start(1), [], 0, multiset{};
    }

    /** Lends a reserved slice while there is one, else a dynamic one; the slice was not out before. */
    method Borrow(preferred: nat, spurious: nat -> bool) returns (r: Option<Lease>)
      requires Valid()
      modifies this
      ensures Valid()
      ensures lent == if r.Some? then old(lent) + multiset{r.value} else old(lent)
      ensures Lendable(r)
      ensures r.Some? ==> r.value !in old(lent) && !r.value.owner.Foreign?
      ensures Answers(old(reserved), o, old(dynamic.borrowed), preferred, spurious, r)
    {
      var slot;
      reserved, slot := BorrowReserved(reserved);
      if slot.Some? {
        assert R.SlotOk(old(reserved), slot.value);
        SlotIsFree(old(reserved), slot.value);
        LedgerLends(reserved.caps, old(reserved.held), dynamic.issued, granted, lent, slot.value);
        r := Some(Lease(Reserved, slot.value, reserved.caps[slot.value]));
        lent := lent + multiset{r.value};
      } else {
        r := Grant(preferred, spurious);
      }
    }

    /** Lends a slice of the dynamic pool. */
    method Grant(preferred: nat, spurious: nat -> bool) returns (r: Option<Lease>)
      requires Valid()
      modifies this
      ensures Valid() && reserved == old(reserved) && Lendable(r)
      ensures lent == if r.Some? then old(lent) + multiset{r.value} else old(lent)
      ensures r.Some? ==> r.value !in old(lent) && r.value.owner == Dynamic
      ensures r.None? <==> Exhausted(o, preferred, old(dynamic.borrowed), spurious)
      ensures r.Some? ==> Largest(o, preferred, old(dynamic.borrowed), r.value.capacity)
    {
      var size;
      SizeIsLargest(o, preferred, dynamic.borrowed);
      dynamic, size := BorrowDynamic(o, dynamic, preferred, spurious);
      if size.None? {
        return None;
      }
      r := Some(Lease(Dynamic, serial, size.value));
      LedgerServes(reserved.caps, reserved.held, old(dynamic.issued), granted, lent, serial, size.value);
      granted, serial, lent := granted + [r.value], serial + 1, lent + multiset{r.value};
    }

    /** Takes back a slice of either pool; one of another pool is refused. */
    method Return(l: Lease) returns (accepted: bool)
      requires Valid() && (l.owner.Foreign? || l in lent)
      modifies this
      ensures Valid()
      ensures accepted <==> !l.owner.Foreign?
      ensures lent == if accepted then old(lent) - multiset{l} else old(lent)
    {
      if l.owner.Foreign? {
        return false;
      }
      accepted := true;
      if l.owner == Reserved {
        LedgerTakes(reserved.caps, reserved.held, dynamic.issued, granted, lent, l);
        reserved := ReturnReserved(reserved, l.slot);
        lent := lent - multiset{l};
      } else {
        ReturnDynamic(l);
      }
    }

    method ReturnDynamic(l: Lease)
      requires Valid() && l.owner == Dynamic && l in lent
      modifies this
      ensures Valid() && lent == old(lent) - multiset{l}
    {
      LedgerFinds(reserved.caps, reserved.held, dynamic.issued, granted, lent, l);
      var k :| 0 <= k < |granted| && granted[k] == l;
      LedgerFrees(reserved.caps, reserved.held, dynamic.issued, granted, lent, k);
      D.ReturnKeepsInv(o, dynamic, k);
      dynamic := D.Step(o, dynamic, D.Return(k));
      granted := granted[..k] + granted[k + 1..];
      lent := lent - multiset{l};
    }

    /** Takes back a collection of slices and gives back, in order, those of other pools. */
    method ReturnAll(slices: seq<Lease>) returns (others: seq<Lease>)
      requires Valid() && Own(slices) <= lent
      modifies this
      ensures Valid() && others == Others(slices) && lent + Own(slices) == old(lent)
    {
      others := [];
      for k := 0 to |slices|
        invariant Valid() && Tally(lent, Own(slices[..k]), old(lent)).Whole()
        invariant others == Others(slices[..k])
      {
        TakeNext(slices, k, lent, old(lent));
        var accepted := Return(slices[k]);
        if !accepted {
          others := others + [slices[k]];
        }
      }
      assert slices[..|slices|] == slices;
    }

    lemma LentIsOwn()
      requires Valid()
      ensures forall l: Lease :: l in lent ==> !l.owner.Foreign?
    {
      forall l: Lease | l in lent
        ensures !l.owner.Foreign?
      {
        assert lent[l] == Out(reserved.caps, reserved.held, granted, l);
      }
    }

    /** Both pools read as full exactly when no slice is out. */
    method Full() returns (full: bool)
      requires Valid()
      ensures full <==> lent == multiset{}
    {
      R.QuietStateIsExact(reserved);
      full := reserved.capacity <= reserved.size && o.capacity <= Wrap(o.capacity - dynamic.borrowed);
      LedgerEmpty(reserved.caps, reserved.held, dynamic.issued, granted, lent);
      SumByNonNegative(D.Size, dynamic.issued);
      assert dynamic.issued != [] ==> D.Size(dynamic.issued[0]) <= dynamic.borrowed;
    }
  }

  /** The pool has no pointer out to a slice whose flag is down. */
  lemma {:induction false} SlotIsFree<T>(p: R.Pool<T>, i: nat)
    requires Quiet(p) && i < |p.slots| && !p.slots[i].borrowed
    ensures p.held[i] == 0 && 0 < p.caps[i]
  {
    assert R.SlotOk(p, i);
    SumByNonNegative(R.Claim(i), p.threads);
  }

  lemma {:induction false} Removed(s: seq<Lease>, k: nat)
    requires k < |s|
    ensures multiset(s[..k] + s[k + 1..]) == multiset(s) - multiset{s[k]}
  {
    assert s == s[..k] + [s[k]] + s[k + 1..];
  }

  /** What is out, what is back, and what there was in all. */
  datatype Tally = Tally(lent: multiset<Lease>, back: multiset<Lease>, all: multiset<Lease>) {
    ghost predicate Whole() {
      match this
      case Tally(_, _, _) => lent + back == all
    }
  }

  /** A slice that is yet to be returned is still out. */
  lemma {:induction false} TakeNext(slices: seq<Lease>, k: nat, lent: multiset<Lease>, all: multiset<Lease>)
    requires k < |slices| && Own(slices) <= all && Tally(lent, Own(slices[..k]), all).Whole()
    ensures Others(slices[..k + 1]) == Others(slices[..k]) + if slices[k].owner.Foreign? then [slices[k]] else []
    ensures slices[k].owner.Foreign? ==> Tally(lent, Own(slices[..k + 1]), all).Whole()
    ensures !slices[k].owner.Foreign? ==>
              slices[k] in lent && Tally(lent - multiset{slices[k]}, Own(slices[..k + 1]), all).Whole()
  {
    NextOf(slices, k);
    OwnGrows(slices, k + 1);
    var own, next := Own(slices[..k]), Own(slices[..k + 1]);
    if !slices[k].owner.Foreign? {
      Moves(lent, own, all, slices[k]);
    }
  }

  lemma {:induction false} NextOf(slices: seq<Lease>, k: nat)
    requires k < |slices|
    ensures Others(slices[..k + 1]) == Others(slices[..k]) + if slices[k].owner.Foreign? then [slices[k]] else []
    ensures Own(slices[..k + 1]) == Own(slices[..k]) + if slices[k].owner.Foreign? then multiset{} else multiset{slices[k]}
  {
    assert slices[..k + 1][..k] == slices[..k];
  }

  lemma {:induction false} Moves(lent: multiset<Lease>, back: multiset<Lease>, all: multiset<Lease>, l: Lease)
    requires lent + back == all && back + multiset{l} <= all
    ensures l in lent && lent - multiset{l} + (back + multiset{l}) == all
  {
    assert (back + multiset{l})[l] <= all[l];
  }

  lemma {:induction false} OwnGrows(slices: seq<Lease>, k: nat)
    requires k <= |slices|
    ensures Own(slices[..k]) <= Own(slices)
    decreases |slices| - k
  {
    if k == |slices| {
      assert slices[..k] == slices;
    } else {
      assert slices[..k + 1][..k] == slices[..k];
      OwnGrows(slices, k + 1);
    }
  }

  /** A pool takes back all of a collection of slices that are out. */
  lemma {:induction false} AllOwn(slices: seq<Lease>, lent: multiset<Lease>)
    requires multiset(slices) <= lent && forall l: Lease :: l in lent ==> !l.owner.Foreign?
    ensures Own(slices) == multiset(slices)
  {
    if slices != [] {
      var n := |slices| - 1;
      assert slices == slices[..n] + [slices[n]];
      assert slices[n] in multiset(slices);
      AllOwn(slices[..n], lent);
    }
  }

  /** The destructor of a buffer: each of its slices goes back to the pool that lent it. */
  method ReturnSlices<T(!new)>(pool: CombinedBufferSlicePool<T>, slices: seq<Lease>)
    requires pool.Valid() && multiset(slices) <= pool.lent
    modifies pool
    ensures pool.Valid() && pool.lent + multiset(slices) == old(pool.lent)
  {
    pool.LentIsOwn();
    AllOwn(slices, pool.lent);
    var _ := pool.ReturnAll(slices);
  }
}
