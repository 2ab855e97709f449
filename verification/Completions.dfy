/** The completions handed to Flush: at most one is installed, and each runs at most once. */
module Completions {
  import opened Common

  /** A Flush call past its check of `running_`. */
  datatype FlushCall = FlushCall(now: int, ticket: Option<nat>)

  datatype Desk = Desk(
    completion: Option<nat>,     // the ticket of the installed completion
    flushing: seq<FlushCall>,
    tickets: nat,                // one ticket for each completion handed to Flush
    owed: map<nat, set<nat>>,    // the records tagged when the Flush that installed a completion was done
    taken: seq<nat>)             // the completions run, in order

  function Without<A>(s: seq<A>, k: nat): seq<A>
    requires k < |s|
  {
    s[..k] + s[k + 1..]
  }

  /** A Flush call begins; when the queue is not running it runs its completion itself. */
  function Enter(d: Desk, running: bool, now: int, notify: bool): Desk {
    if running then
      d.(tickets := if notify then d.tickets + 1 else d.tickets,
         flushing := d.flushing + [FlushCall(now, if notify then Some(d.tickets) else None)])
    else if notify then d.(tickets := d.tickets + 1, taken := d.taken + [d.tickets])
    else d
  }

  /** A Flush call takes the lock; `tagged` are the records with a tag when it is done. */
  function Commit(d: Desk, k: nat, tagged: set<nat>): Desk
    requires k < |d.flushing|
  {
    var ticket := d.flushing[k].ticket;
    d.(flushing := Without(d.flushing, k),
       completion := if ticket.Some? then ticket else d.completion,
       owed := if ticket.Some? then d.owed[ticket.value := tagged] else d.owed)
  }

  /** The worker takes the installed completion, if there is one, and runs it. */
  function Release(d: Desk): Desk {
    if d.completion.Some? then d.(completion := None, taken := d.taken + [d.completion.value]) else d
  }

  /** Each ticket is run at most once, and only once the records owed to it are gone. */
  ghost predicate Settled(d: Desk, manual: set<nat>, gone: set<nat>) {
    match d
    case Desk(completion, flushing, tickets, owed, taken) =>
      && (forall i, j :: 0 <= i < j < |taken| ==> taken[i] != taken[j])
      && (forall t :: t in taken || t in owed ==> t < tickets)
      && (forall t :: t in taken && t in owed ==> owed[t] <= gone)
      && (completion.Some? ==> Installed(d, completion.value, manual + gone))
      && (forall k :: 0 <= k < |flushing| && flushing[k].ticket.Some? ==> Unused(d, flushing[k].ticket.value))
      && (forall j, k :: 0 <= j < k < |flushing| && flushing[j].ticket.Some? ==> flushing[j].ticket != flushing[k].ticket)
  }

  ghost predicate Installed(d: Desk, t: nat, accounted: set<nat>) {
    t !in d.taken && t in d.owed && d.owed[t] <= accounted
  }

  ghost predicate Unused(d: Desk, t: nat) {
    t < d.tickets && t !in d.taken && t !in d.owed
  }

  lemma {:induction false} SettledGrows(d: Desk, manual: set<nat>, gone: set<nat>, manual': set<nat>, gone': set<nat>)
    requires Settled(d, manual, gone)
    requires gone <= gone' && manual + gone <= manual' + gone'
    ensures Settled(d, manual', gone')
  {
  }

  lemma {:induction false} EnterSettled(d: Desk, manual: set<nat>, gone: set<nat>, running: bool, now: int, notify: bool)
    requires Settled(d, manual, gone)
    ensures Settled(Enter(d, running, now, notify), manual, gone)
  {
    assert notify ==> d.tickets !in d.taken && d.tickets !in d.owed;
  }

  lemma {:induction false} CommitSettled(d: Desk, manual: set<nat>, gone: set<nat>, k: nat, tagged: set<nat>)
    requires Settled(d, manual, gone) && k < |d.flushing| && manual <= tagged
    ensures Settled(Commit(d, k, tagged), tagged, gone)
  {
    var e := Commit(d, k, tagged);
    assert forall j :: 0 <= j < |e.flushing| ==> e.flushing[j] == d.flushing[if j < k then j else j + 1];
  }

  /** Taking the completion when no tag is left: all it was owed is gone. */
  lemma {:induction false} ReleaseSettled(d: Desk, gone: set<nat>)
    requires Settled(d, {}, gone)
    ensures Settled(Release(d), {}, gone)
  {
  }
}
