/** The records of the flush queue: those queued, the one in the worker's hand, and those gone. */
module Records {
  import opened Common

  /** A queued buffer; `attempts` is the number of write attempts it has left. */
  datatype Record<B> = Record(id: nat, stamp: int, attempts: int, buffer: B)

  datatype Fate = Written | Exhausted | Expired | Cleared

  datatype Write = Write(id: nat, ok: bool)

  datatype Book<B> = Book(
    queue: seq<Record<B>>,
    hand: Option<Record<B>>,
    manual: set<nat>,          // the ids that a Flush tagged
    fates: map<nat, Fate>,     // how each record that is gone went
    nextId: nat,
    writes: seq<Write>,        // every write attempt so far
    spared: set<nat>)          // the tagged records that were in hand when Clear dropped their tags

  function Ids<B>(records: seq<Record<B>>): set<nat> {
    set k | 0 <= k < |records| :: records[k].id
  }

  /** The ids a Flush at `now` tags. */
  function Due<B>(records: seq<Record<B>>, now: int): set<nat> {
    set k | 0 <= k < |records| && records[k].stamp <= now :: records[k].id
  }

  ghost function Hand<B>(b: Book<B>): seq<Record<B>> {
    if b.hand.Some? then [b.hand.value] else []
  }

  /** The records neither written for good, given up, dropped nor cleared. */
  ghost function Pending<B>(b: Book<B>): seq<Record<B>> {
    b.queue + Hand(b)
  }

  ghost predicate Distinct<B>(records: seq<Record<B>>) {
    forall i, j :: 0 <= i < j < |records| ==> records[i].id != records[j].id
  }

  /** Every record ever queued is either pending, once, or has met exactly one fate; tags are on pending records. */
  ghost predicate Sound<B>(b: Book<B>) {
    match b
    case Book(_, _, manual, fates, nextId, _, _) =>
      var pending := Pending(b);
      && Distinct(pending)
      && manual <= Ids(pending)
      && fates.Keys !! Ids(pending)
      && forall id: nat :: id in fates || id in Ids(pending) <==> id < nextId
  }

  function Append<B>(b: Book<B>, stamp: int, attempts: int, buffer: B): Book<B> {
    b.(queue := b.queue + [Record(b.nextId, stamp, attempts, buffer)], nextId := b.nextId + 1)
  }

  function Tag<B>(b: Book<B>, ids: set<nat>): Book<B> {
    b.(manual := b.manual + ids)
  }

  /** What Clear does: the record in hand is not touched, but its tag is dropped. */
  function Wipe<B>(b: Book<B>): Book<B> {
    b.(queue := [], manual := {},
       fates := b.fates + (map id | id in Ids(b.queue) :: Cleared),
       spared := b.spared + if b.hand.Some? then b.manual * {b.hand.value.id} else {})
  }

  /** The number of pending records. */
  function Count<B>(b: Book<B>): nat {
    |b.queue| + if b.hand.Some? then 1 else 0
  }

  /** The records a completion need not wait for any more. */
  ghost function Excused<B>(b: Book<B>): set<nat> {
    b.fates.Keys + b.spared
  }

  function Take<B>(b: Book<B>): Book<B>
    requires b.queue != []
  {
    b.(queue := b.queue[1..], hand := Some(b.queue[0]))
  }

  function PutBack<B>(b: Book<B>): Book<B>
    requires b.hand.Some?
  {
    b.(queue := b.queue + [b.hand.value], hand := None)
  }

  function Attempt<B>(b: Book<B>, ok: bool): Book<B>
    requires b.hand.Some?
  {
    var r := b.hand.value;
    b.(hand := Some(r.(attempts := r.attempts - 1)), writes := b.writes + [Write(r.id, ok)])
  }

  function Forget<B>(b: Book<B>, fate: Fate): Book<B>
    requires b.hand.Some?
  {
    var id := b.hand.value.id;
    b.(hand := None, manual := b.manual - {id}, fates := b.fates[id := fate])
  }

  lemma {:induction false} IdsConcat<B>(a: seq<Record<B>>, b: seq<Record<B>>)
    ensures Ids(a + b) == Ids(a) + Ids(b)
  {
    forall id | id in Ids(a) + Ids(b)
      ensures id in Ids(a + b)
    {
      if id in Ids(a) {
        var k :| 0 <= k < |a| && a[k].id == id;
        assert (a + b)[k].id == id;
      } else {
        var k :| 0 <= k < |b| && b[k].id == id;
        assert (a + b)[|a| + k].id == id;
      }
    }
  }

  lemma {:induction false} DistinctConcat<B>(a: seq<Record<B>>, b: seq<Record<B>>)
    ensures Distinct(a + b) <==> Distinct(a) && Distinct(b) && Ids(a) !! Ids(b)
  {
    var c := a + b;
    if Distinct(c) {
      assert forall i :: 0 <= i < |a| ==> a[i] == c[i];
      assert forall i :: 0 <= i < |b| ==> b[i] == c[|a| + i];
    }
    if Distinct(a) && Distinct(b) && Ids(a) !! Ids(b) {
      forall i, j | 0 <= i < j < |c|
        ensures c[i].id != c[j].id
      {
        if i < |a| <= j {
          assert c[i].id in Ids(a) && c[j].id in Ids(b);
        }
      }
    }
  }

  lemma {:induction false} SingleId<B>(r: Record<B>)
    ensures Ids([r]) == {r.id} && Distinct([r]) && Ids<B>([]) == {}
  {
    assert [r][0].id == r.id;
  }

  /** The ids of the queue and of the record in hand, apart. */
  lemma {:induction false} PendingIds<B>(b: Book<B>)
    ensures Ids(Pending(b)) == Ids(b.queue) + if b.hand.Some? then {b.hand.value.id} else {}
    ensures Distinct(Pending(b)) <==> Distinct(b.queue) && (b.hand.Some? ==> b.hand.value.id !in Ids(b.queue))
  {
    IdsConcat(b.queue, Hand(b));
    DistinctConcat(b.queue, Hand(b));
    if b.hand.Some? {
      SingleId(b.hand.value);
    }
  }

  lemma {:induction false} AppendSound<B>(b: Book<B>, stamp: int, attempts: int, buffer: B)
    requires Sound(b)
    ensures Sound(Append(b, stamp, attempts, buffer))
  {
    var c := Append(b, stamp, attempts, buffer);
    var r := c.queue[|b.queue|];
    PendingIds(b);
    PendingIds(c);
    SingleId(r);
    IdsConcat(b.queue, [r]);
    DistinctConcat(b.queue, [r]);
    assert b.nextId !in Ids(Pending(b));
  }

  lemma {:induction false} TagSound<B>(b: Book<B>, now: int)
    requires Sound(b)
    ensures Sound(Tag(b, Due(b.queue, now)))
  {
    var c := Tag(b, Due(b.queue, now));
    PendingIds(b);
    assert Pending(c) == Pending(b);
    assert Due(b.queue, now) <= Ids(b.queue);
  }

  lemma {:induction false} WipeSound<B>(b: Book<B>)
    requires Sound(b)
    ensures Sound(Wipe(b))
  {
    PendingIds(b);
    PendingIds(Wipe(b));
  }

  lemma {:induction false} WipeExcuses<B>(b: Book<B>)
    requires Sound(b)
    ensures Covers(b, Wipe(b))
  {
    PendingIds(b);
  }

  /** Whatever the worker does with the record in hand, no record owed to a completion is lost sight of. */
  ghost predicate Covers<B>(b: Book<B>, c: Book<B>) {
    Excused(b) <= Excused(c) && b.manual + Excused(b) <= c.manual + Excused(c)
  }

  lemma {:induction false} HandCovers<B>(b: Book<B>, ok: bool)
    requires b.hand.Some?
    ensures Covers(b, b) && Covers(b, PutBack(b)) && Covers(b, Attempt(b, ok))
    ensures forall fate :: Covers(b, Forget(b, fate))
  {
  }

  lemma {:induction false} TakeSound<B>(b: Book<B>)
    requires Sound(b) && b.hand.None? && b.queue != []
    ensures Sound(Take(b))
  {
    var r, rest := b.queue[0], b.queue[1..];
    PendingIds(b);
    PendingIds(Take(b));
    SingleId(r);
    assert b.queue == [r] + rest;
    IdsConcat([r], rest);
    DistinctConcat([r], rest);
  }

  /** Nothing the worker does with the record in hand loses or repeats a record. */
  lemma {:induction false} HandSound<B>(b: Book<B>, ok: bool)
    requires Sound(b) && b.hand.Some?
    ensures Sound(PutBack(b)) && Sound(Attempt(b, ok))
    ensures forall fate :: Sound(Forget(b, fate))
  {
    PendingIds(b);
    PendingIds(Attempt(b, ok));
    assert Pending(PutBack(b)) == Pending(b);
    forall fate
      ensures Sound(Forget(b, fate))
    {
      PendingIds(Forget(b, fate));
    }
  }
}
