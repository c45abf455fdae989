/**
 * Telegram updates in front of the command queue: the webhook's bounded memory of recent update
 * ids, the polling offset, and how both compose with the queue's dedupe key under redelivery and
 * storage failures.
 */
module Redelivery {
  import opened Wrappers
  import opened CommandQueue
  import opened QueueRuns

  const DEDUPE_LIMIT: nat := 2048

  /** The remembered update ids, as a set and in the order they were claimed. */
  datatype Gate = Gate(seen: set<nat>, order: seq<nat>)

  const EMPTY_GATE := Gate({}, [])

  ghost predicate Distinct(s: seq<nat>) {
    forall i, j :: 0 <= i < j < |s| ==> s[i] != s[j]
  }

  ghost predicate GateOk(g: Gate) {
    && (forall u :: u in g.seen <==> u in g.order)
    && Distinct(g.order)
    && |g.order| <= DEDUPE_LIMIT
  }

  function Trim(g: Gate): Gate
    decreases |g.order|
  {
    if |g.order| > DEDUPE_LIMIT then Trim(Gate(g.seen - {g.order[0]}, g.order[1..])) else g
  }

  /** Updates without an integer id are never remembered. */
  function Remember(g: Gate, u: Option<nat>): Gate {
    if u == None || u.value in g.seen then g else Trim(Gate(g.seen + {u.value}, g.order + [u.value]))
  }

  predicate IsNew(g: Gate, u: Option<nat>) { u == None || u.value !in g.seen }

  function Without(s: seq<nat>, u: nat): (r: seq<nat>)
    ensures |r| <= |s|
  {
    if s == [] then [] else if s[0] == u then s[1..] else [s[0]] + Without(s[1..], u)
  }

  function Forget(g: Gate, u: Option<nat>): Gate {
    if u == None then g else Gate(g.seen - {u.value}, Without(g.order, u.value))
  }

  /** The gate after one webhook delivery whose processing did or did not fail to be admitted. */
  function GateAfter(g: Gate, u: Option<nat>, stopping: bool, unavailable: bool): Gate {
    if stopping || !IsNew(g, u) || !unavailable then Remember(g, u) else Forget(Remember(g, u), u)
  }

  lemma {:induction false} WithoutIsRemoval(s: seq<nat>, u: nat)
    requires Distinct(s)
    ensures Distinct(Without(s, u))
    ensures forall x :: x in Without(s, u) <==> x in s && x != u
  {
    if s != [] {
      assert s == [s[0]] + s[1..];
      assert forall x :: x in s <==> x == s[0] || x in s[1..];
      WithoutIsRemoval(s[1..], u);
      if s[0] != u {
        var r := Without(s[1..], u);
        assert forall k :: 0 <= k < |r| ==> r[k] in s[1..];
        assert forall k :: 1 <= k < |s| ==> s[k] != s[0];
        assert s[0] !in s[1..];
      } else {
        assert forall k :: 1 <= k < |s| ==> s[k] != s[0];
      }
    }
  }

  /** The oldest of too many ids is forgotten, and only that one. */
  lemma OldestIsForgotten(full: Gate)
    requires (forall u :: u in full.seen <==> u in full.order) && Distinct(full.order)
    requires |full.order| == DEDUPE_LIMIT + 1
    ensures GateOk(Trim(full)) && Trim(full).seen == full.seen - {full.order[0]}
    ensures full.order[|full.order| - 1] in Trim(full).seen
  {
    var first, rest := full.order[0], full.order[1..];
    assert full.order == [first] + rest;
    assert forall x :: x in full.order <==> x == first || x in rest;
    assert forall k :: 0 <= k < |rest| ==> rest[k] == full.order[k + 1];
    assert first !in rest;
    assert Trim(full) == Gate(full.seen - {first}, rest);
    assert full.order[|full.order| - 1] == rest[|rest| - 1];
  }

  lemma RememberKeepsOk(g: Gate, u: Option<nat>)
    requires GateOk(g)
    ensures GateOk(Remember(g, u))
    ensures u.Some? ==> u.value in Remember(g, u).seen
    ensures forall x :: x in Remember(g, u).seen ==> x in g.seen || u == Some(x)
  {
    if u.Some? && u.value !in g.seen {
      var full := Gate(g.seen + {u.value}, g.order + [u.value]);
      assert forall x :: x in full.order <==> x in g.order || x == u.value;
      assert Distinct(full.order);
      if |full.order| > DEDUPE_LIMIT {
        OldestIsForgotten(full);
      }
    }
  }

  /** Seen set and recency queue agree, without duplicates and bounded, after every delivery. */
  lemma GateAfterIsOk(g: Gate, u: Option<nat>, stopping: bool, unavailable: bool)
    requires GateOk(g)
    ensures GateOk(GateAfter(g, u, stopping, unavailable))
    ensures u.Some? && IsNew(g, u) ==>
              (u.value in GateAfter(g, u, stopping, unavailable).seen <==> stopping || !unavailable)
  {
    RememberKeepsOk(g, u);
    if u.Some? {
      WithoutIsRemoval(Remember(g, u).order, u.value);
    }
  }

  // ----- how long an id is remembered -----

  datatype Delivery = Delivery(id: Option<nat>, stopping: bool, unavailable: bool)

  /** The gate after some deliveries. */
  function Deliver(g: Gate, ds: seq<Delivery>): Gate
    decreases |ds|
  {
    if ds == [] then g else Deliver(GateAfter(g, ds[0].id, ds[0].stopping, ds[0].unavailable), ds[1..])
  }

  /** The ids delivered. */
  function Delivered(ds: seq<Delivery>): set<nat> {
    set k | 0 <= k < |ds| && ds[k].id.Some? :: ds[k].id.value
  }

  /** Of these ids, only `others` come after `u`. */
  ghost predicate Since(order: seq<nat>, u: nat, others: set<nat>) {
    exists i :: 0 <= i < |order| && order[i] == u && forall j :: i < j < |order| ==> order[j] in others
  }

  lemma {:induction false} DistinctCount(s: seq<nat>, all: set<nat>)
    requires Distinct(s) && forall k :: 0 <= k < |s| ==> s[k] in all
    ensures |s| <= |all|
  {
    if s != [] {
      var last := s[|s| - 1];
      DistinctCount(s[..|s| - 1], all - {last});
    }
  }

  lemma {:induction false} WithoutLast(s: seq<nat>, u: nat)
    requires u !in s
    ensures Without(s + [u], u) == s
  {
    if s != [] {
      assert (s + [u])[1..] == s[1..] + [u];
      WithoutLast(s[1..], u);
    }
  }

  /** What stays of the ids when one more is claimed. */
  function Staying(order: seq<nat>): seq<nat> { if |order| == DEDUPE_LIMIT then order[1..] else order }

  lemma ClaimedOrder(g: Gate, x: nat)
    requires GateOk(g) && x !in g.seen
    ensures Remember(g, Some(x)).order == Staying(g.order) + [x]
    ensures Forget(Remember(g, Some(x)), Some(x)).order == Staying(g.order)
  {
    var full := Gate(g.seen + {x}, g.order + [x]);
    if |g.order| == DEDUPE_LIMIT {
      assert full.order[1..] == g.order[1..] + [x];
      assert Trim(full) == Trim(Gate(full.seen - {full.order[0]}, full.order[1..]));
    }
    WithoutLast(Staying(g.order), x);
  }

  lemma StayingSince(order: seq<nat>, u: nat, others: set<nat>, x: nat)
    requires Distinct(order) && x !in order && |order| <= DEDUPE_LIMIT && Since(order, u, others)
    requires |others + {x}| < DEDUPE_LIMIT
    ensures Since(Staying(order), u, others + {x}) && Since(Staying(order) + [x], u, others + {x})
  {
    var i :| 0 <= i < |order| && order[i] == u && forall j :: i < j < |order| ==> order[j] in others;
    var rest, at := Staying(order), if |order| == DEDUPE_LIMIT then i - 1 else i;
    if at < 0 {
      DistinctCount(order[1..] + [x], others + {x});
      assert false;
    }
    assert rest[at] == u && (rest + [x])[at] == u;
  }

  lemma CountWithin(a: set<nat>, b: set<nat>)
    requires a <= b
    ensures |a| <= |b|
  {
    assert b == a + (b - a);
  }

  lemma DeliveredStep(ds: seq<Delivery>)
    requires ds != []
    ensures Delivered(ds) == (if ds[0].id.Some? then {ds[0].id.value} else {}) + Delivered(ds[1..])
  {
    forall x
      ensures x in Delivered(ds) <==> x in (if ds[0].id.Some? then {ds[0].id.value} else {}) + Delivered(ds[1..])
    {
      if x in Delivered(ds) {
        var k :| 0 <= k < |ds| && ds[k].id == Some(x);
        assert k > 0 ==> ds[1..][k - 1] == ds[k];
      }
      if x in Delivered(ds[1..]) {
        var k :| 0 <= k < |ds[1..]| && ds[1..][k].id == Some(x);
        assert ds[k + 1].id == Some(x);
      }
    }
  }

  lemma {:induction false} SinceAlong(g: Gate, u: nat, others: set<nat>, ds: seq<Delivery>)
    requires GateOk(g) && Since(g.order, u, others) && u !in others
    requires |others + (Delivered(ds) - {u})| < DEDUPE_LIMIT
    ensures u in Deliver(g, ds).seen
    decreases |ds|
  {
    if ds == [] {
    } else {
      var x, g' := ds[0].id, GateAfter(g, ds[0].id, ds[0].stopping, ds[0].unavailable);
      DeliveredStep(ds);
      GateAfterIsOk(g, x, ds[0].stopping, ds[0].unavailable);
      if !IsNew(g, x) || x == None {
        CountWithin(others + (Delivered(ds[1..]) - {u}), others + (Delivered(ds) - {u}));
        SinceAlong(g', u, others, ds[1..]);
      } else {
        var others' := others + {x.value};
        assert others' + (Delivered(ds[1..]) - {u}) == others + (Delivered(ds) - {u});
        CountWithin(others', others + (Delivered(ds) - {u}));
        StayingSince(g.order, u, others, x.value);
        ClaimedOrder(g, x.value);
        SinceAlong(g', u, others', ds[1..]);
      }
    }
  }

  /**
   * An update that was claimed is refused when it comes again, as long as fewer than 2048 other updates
   * have been delivered since: accepted or not, given back or not, during a shutdown or not.
   */
  lemma RecentUpdatesAreRefused(g: Gate, d: Delivery, ds: seq<Delivery>)
    requires GateOk(g) && d.id.Some? && IsNew(g, d.id) && (d.stopping || !d.unavailable)
    requires |Delivered(ds) - {d.id.value}| < DEDUPE_LIMIT
    ensures !IsNew(Deliver(g, [d] + ds), d.id)
  {
    var u, g' := d.id.value, GateAfter(g, d.id, d.stopping, d.unavailable);
    GateAfterIsOk(g, d.id, d.stopping, d.unavailable);
    assert Since(g'.order, u, {}) by {
      ClaimedOrder(g, u);
      assert g'.order[|g'.order| - 1] == u;
    }
    assert {} + (Delivered(ds) - {u}) == Delivered(ds) - {u};
    SinceAlong(g', u, {}, ds);
    assert ([d] + ds)[1..] == ds;
  }

  lemma {:induction false} DeliverKeepsOk(g: Gate, ds: seq<Delivery>)
    requires GateOk(g)
    ensures GateOk(Deliver(g, ds))
    ensures forall x :: x in Deliver(g, ds).seen ==> x in g.seen || x in Delivered(ds)
    decreases |ds|
  {
    if ds != [] {
      var g' := GateAfter(g, ds[0].id, ds[0].stopping, ds[0].unavailable);
      GateAfterIsOk(g, ds[0].id, ds[0].stopping, ds[0].unavailable);
      RememberKeepsOk(g, ds[0].id);
      DeliveredStep(ds);
      DeliverKeepsOk(g', ds[1..]);
    }
  }

  lemma {:induction false} DeliverInParts(g: Gate, a: seq<Delivery>, b: seq<Delivery>)
    ensures Deliver(g, a + b) == Deliver(Deliver(g, a), b)
    decreases |a|
  {
    if a == [] {
      assert a + b == b;
    } else {
      assert (a + b)[1..] == a[1..] + b;
      DeliverInParts(GateAfter(g, a[0].id, a[0].stopping, a[0].unavailable), a[1..], b);
    }
  }

  /** 2048 new updates, all accepted. */
  ghost predicate Crowd(g: Gate, ds: seq<Delivery>) {
    && |ds| == DEDUPE_LIMIT
    && (forall k :: 0 <= k < |ds| ==> ds[k].id.Some? && ds[k].id.value !in g.seen && !ds[k].unavailable)
    && forall j, k :: 0 <= j < k < |ds| ==> ds[j].id != ds[k].id
  }

  lemma CrowdIsRemembered(g: Gate, ds: seq<Delivery>, k: nat)
    requires GateOk(g) && Crowd(g, ds) && k < |ds|
    ensures ds[k].id.value in Deliver(g, ds).seen
  {
    var before, d, after := ds[..k], ds[k], ds[k + 1..];
    DeliverKeepsOk(g, before);
    assert d.id.value !in Delivered(before);
    assert ds == before + ([d] + after);
    DeliverInParts(g, before, [d] + after);
    DeliveredAtMost(after);
    CountWithin(Delivered(after) - {d.id.value}, Delivered(after));
    RecentUpdatesAreRefused(Deliver(g, before), d, after);
  }

  lemma {:induction false} DeliveredAtMost(ds: seq<Delivery>)
    ensures |Delivered(ds)| <= |ds|
  {
    if ds != [] {
      DeliveredStep(ds);
      DeliveredAtMost(ds[1..]);
    }
  }

  /** The bound is exact: after 2048 new updates, each accepted, whatever was remembered before is new again. */
  lemma CrowdedOutUpdatesAreNew(g: Gate, u: nat, ds: seq<Delivery>)
    requires GateOk(g) && u in g.seen && Crowd(g, ds)
    ensures IsNew(Deliver(g, ds), Some(u))
  {
    var ids, g' := seq(|ds|, k requires 0 <= k < |ds| => ds[k].id.GetOr(0)), Deliver(g, ds);
    DeliverKeepsOk(g, ds);
    if u in g'.seen {
      forall k | 0 <= k < |ids|
        ensures ids[k] in g'.seen
      {
        CrowdIsRemembered(g, ds, k);
      }
      DistinctCount(ids + [u], g'.seen);
      SeenCount(g');
      assert false;
    }
  }

  lemma SeenCount(g: Gate)
    requires GateOk(g)
    ensures |g.seen| <= DEDUPE_LIMIT
  {
    OrderCount(g.order);
    assert g.seen == set k | 0 <= k < |g.order| :: g.order[k];
  }

  lemma {:induction false} OrderCount(s: seq<nat>)
    ensures |(set k | 0 <= k < |s| :: s[k])| <= |s|
  {
    if s != [] {
      OrderCount(s[1..]);
      assert (set k | 0 <= k < |s| :: s[k]) == {s[0]} + (set k | 0 <= k < |s[1..]| :: s[1..][k]);
    }
  }

  // ----- the two transports as the program runs them -----

  class ManagementBot {
    var seen: set<nat>
    var order: seq<nat>
    var offset: Option<int>

    ghost predicate Valid()
      reads this
    {
      GateOk(Gate(seen, order))
    }

    constructor ()
      ensures Valid() && seen == {} && order == [] && offset == None
    {
      seen, order, offset := {}, [], None;
    }

    method ClaimWebhookUpdate(u: Option<nat>) returns (first: bool)
      requires Valid()
      modifies this`seen, this`order
      ensures Valid()
      ensures first == IsNew(old(Gate(seen, order)), u)
      ensures Gate(seen, order) == Remember(old(Gate(seen, order)), u)
    {
      RememberKeepsOk(Gate(seen, order), u);
      if u == None {
        return true;
      }
      if u.value in seen {
        return false;
      }
      seen := seen + {u.value};
      order := order + [u.value];
      while |order| > DEDUPE_LIMIT
        invariant Trim(Gate(seen, order)) == Remember(old(Gate(seen, order)), u)
        decreases |order|
      {
        seen, order := seen - {order[0]}, order[1..];
      }
      return true;
    }

    method DiscardWebhookUpdate(u: Option<nat>)
      requires Valid()
      modifies this`seen, this`order
      ensures Valid()
      ensures Gate(seen, order) == Remember(old(Gate(seen, order)), u)
    {
      var _ := ClaimWebhookUpdate(u);
    }

    /** `unavailable` says whether processing the update ends in an unconfirmed admission. */
    method HandleWebhookUpdate(u: Option<nat>, stopping: bool, unavailable: bool)
      returns (processed: bool, raised: bool)
      requires Valid()
      modifies this`seen, this`order
      ensures Valid()
      ensures processed == (!stopping && IsNew(old(Gate(seen, order)), u))
      ensures raised == (processed && unavailable)
      ensures Gate(seen, order) == GateAfter(old(Gate(seen, order)), u, stopping, unavailable)
    {
      GateAfterIsOk(Gate(seen, order), u, stopping, unavailable);
      if stopping {
        DiscardWebhookUpdate(u);
        return false, false;
      }
      var first := ClaimWebhookUpdate(u);
      if !first {
        return false, false;
      }
      if unavailable && u.Some? {
        seen := seen - {u.value};
        order := Without(order, u.value);
      }
      return true, unavailable;
    }

    /**
     * One round of the polling loop over what `getUpdates` returned, updates without an integer id
     * included: it handles the updates up to the first whose admission is unconfirmed.
     */
    method PollRound(updates: seq<Option<int>>, unavailable: seq<bool>) returns (handled: nat)
      requires |updates| == |unavailable|
      modifies this`offset
      ensures handled <= |updates|
      ensures forall k :: 0 <= k < handled ==> !unavailable[k]
      ensures handled < |updates| ==> unavailable[handled]
      ensures offset == OffsetAfter(updates, handled, old(offset))
    {
      handled := 0;
      while handled < |updates|
        invariant handled <= |updates|
        invariant forall k :: 0 <= k < handled ==> !unavailable[k]
        invariant offset == Past(updates[..handled], old(offset))
      {
        assert updates[..handled + 1][..handled] == updates[..handled];
        if updates[handled].Some? {
          offset := Some(updates[handled].value + 1);
        }
        if unavailable[handled] {
          if updates[handled].Some? {
            offset := updates[handled];
          }
          return;
        }
        handled := handled + 1;
      }
    }
  }

  /** One past the last integer id. */
  function Past(updates: seq<Option<int>>, offset: Option<int>): Option<int> {
    if updates == [] then offset
    else
      var last := updates[|updates| - 1];
      if last.Some? then Some(last.value + 1) else Past(updates[..|updates| - 1], offset)
  }

  /** The offset for the next request when `handled` updates were handled and the next one, if any, was not confirmed. */
  function OffsetAfter(updates: seq<Option<int>>, handled: nat, offset: Option<int>): Option<int>
    requires handled <= |updates|
  {
    if handled < |updates| && updates[handled].Some? then updates[handled] else Past(updates[..handled], offset)
  }

  /** Ids ascend, and none is below the offset they were requested with. */
  ghost predicate InOrder(updates: seq<Option<int>>, offset: Option<int>) {
    && (forall j, k :: 0 <= j < k < |updates| && updates[j].Some? && updates[k].Some? ==> updates[j].value < updates[k].value)
    && (offset.Some? ==> forall k :: 0 <= k < |updates| && updates[k].Some? ==> offset.value <= updates[k].value)
  }

  lemma {:induction false} PastSeparates(updates: seq<Option<int>>, handled: nat, offset: Option<int>, k: nat)
    requires InOrder(updates, offset) && handled <= |updates| && k < |updates| && updates[k].Some?
    ensures var o := Past(updates[..handled], offset); o.Some? && updates[k].value < o.value <==> k < handled
    decreases handled
  {
    if handled > 0 {
      assert updates[..handled][..handled - 1] == updates[..handled - 1];
      PastSeparates(updates, handled - 1, offset, k);
    }
  }

  /** As Telegram returns them, the offset separates exactly the handled updates from those to be returned again. */
  lemma OffsetSeparates(updates: seq<Option<int>>, handled: nat, offset: Option<int>, k: nat)
    requires InOrder(updates, offset) && handled <= |updates| && k < |updates| && updates[k].Some?
    ensures var o := OffsetAfter(updates, handled, offset); o.Some? && updates[k].value < o.value <==> k < handled
  {
    PastSeparates(updates, handled, offset, k);
  }

  // ----- composition with the queue -----

  /** What processing an update does to the queue, and whether the transport learns of it. */
  datatype Attempt =
    | NoCommand               // nothing reaches the queue, or another error is swallowed
    | Admission(e: Event)     // the repository answers
    | LostReply(e: Event)     // the repository committed its answer, then storage reported a failure
    | StorageDown             // storage failed before anything was written

  predicate Unconfirmed(a: Attempt) {
    a.LostReply? || a.StorageDown? || (a.Admission? && a.e.Enqueue? && a.e.answer == Unavailable)
  }

  datatype World = World(queue: System, gate: Gate)

  datatype Happening =
    | Webhook(u: Option<nat>, stopping: bool, a: Attempt)
    | Polled(u: Option<nat>, a: Attempt)   // one update of a polling round
    | Discarded(u: Option<nat>)
    | QueueEvent(e: Event)                 // workers, deliveries, pruning, the admin API
    | Restart                              // the in-memory gate is lost

  predicate AttemptEnabled(s: System, bot: string, u: Option<nat>, a: Attempt, policy: Policy) {
    match a
    case Admission(e) => e.Enqueue? && Enabled(s, e, policy) && e.item.bot == bot
                         && u.Some? && e.item.dedupe == Update(u.value)
    case LostReply(e) => e.Enqueue? && Enabled(s, e, policy) && e.item.bot == bot
                         && u.Some? && e.item.dedupe == Update(u.value)
    case _ => true
  }

  function AttemptResult(s: System, a: Attempt, policy: Policy): System {
    match a
    case Admission(e) => Next(s, e, policy)
    case LostReply(e) => Next(s, e, policy)
    case _ => s
  }

  predicate Happens(w: World, bot: string, h: Happening, policy: Policy) {
    match h
    case Webhook(u, stopping, a) => !stopping && IsNew(w.gate, u) ==> AttemptEnabled(w.queue, bot, u, a, policy)
    case Polled(u, a) => AttemptEnabled(w.queue, bot, u, a, policy)
    case QueueEvent(e) => Enabled(w.queue, e, policy)
    case _ => true
  }

  function NextWorld(w: World, h: Happening, policy: Policy): World {
    match h
    case Webhook(u, stopping, a) =>
      World(if !stopping && IsNew(w.gate, u) then AttemptResult(w.queue, a, policy) else w.queue,
            GateAfter(w.gate, u, stopping, Unconfirmed(a)))
    case Polled(u, a) => World(AttemptResult(w.queue, a, policy), w.gate)
    case Discarded(u) => World(w.queue, Remember(w.gate, u))
    case QueueEvent(e) => World(Next(w.queue, e, policy), w.gate)
    case Restart => World(w.queue, EMPTY_GATE)
  }

  predicate ValidHistory(w: World, bot: string, hs: seq<Happening>, policy: Policy)
    decreases |hs|
  {
    hs != [] ==> Happens(w, bot, hs[0], policy) && ValidHistory(NextWorld(w, hs[0], policy), bot, hs[1..], policy)
  }

  function AfterAll(w: World, hs: seq<Happening>, policy: Policy): World
    decreases |hs|
  {
    if hs == [] then w else AfterAll(NextWorld(w, hs[0], policy), hs[1..], policy)
  }

  ghost predicate WorldInv(w: World, policy: Policy) { Inv(w.queue, policy) && GateOk(w.gate) }

  lemma WorldStep(w: World, bot: string, h: Happening, policy: Policy)
    requires WorldInv(w, policy) && Happens(w, bot, h, policy) && policy.retentionDays >= 1
    ensures WorldInv(NextWorld(w, h, policy), policy)
  {
    match h
    case Webhook(u, stopping, a) =>
      GateAfterIsOk(w.gate, u, stopping, Unconfirmed(a));
      if !stopping && IsNew(w.gate, u) && (a.Admission? || a.LostReply?) {
        InvStep(w.queue, a.e, policy);
      }
    case Polled(u, a) =>
      if a.Admission? || a.LostReply? {
        InvStep(w.queue, a.e, policy);
      }
    case Discarded(u) => RememberKeepsOk(w.gate, u);
    case QueueEvent(e) => InvStep(w.queue, e, policy);
    case Restart =>
  }

  /**
   * Under any schedule of webhook and polling deliveries, retries, restarts and storage failures
   * (replies lost after the commit included), the gate stays consistent and bounded, and each
   * update of a bot has at most one execution row.
   */
  lemma {:induction false} OneRowPerUpdate(w: World, bot: string, hs: seq<Happening>, policy: Policy, i: Id, j: Id)
    requires WorldInv(w, policy) && ValidHistory(w, bot, hs, policy) && policy.retentionDays >= 1
    ensures GateOk(AfterAll(w, hs, policy).gate)
    ensures var rows := AfterAll(w, hs, policy).queue.rows;
            (i in rows && j in rows && rows[i].bot == rows[j].bot
             && rows[i].dedupe.Update? && rows[i].dedupe == rows[j].dedupe) ==> i == j
    decreases |hs|
  {
    if hs != [] {
      WorldStep(w, bot, hs[0], policy);
      OneRowPerUpdate(NextWorld(w, hs[0], policy), bot, hs[1..], policy, i, j);
    }
  }

  /** An update whose row is stored adds no row when it is delivered again, remembered or not. */
  lemma RedeliveryAddsNothing(w: World, bot: string, h: Happening, policy: Policy, i: Id)
    requires WorldInv(w, policy) && Happens(w, bot, h, policy) && (h.Webhook? || h.Polled?)
    requires i in w.queue.rows && w.queue.rows[i].bot == bot && h.u.Some?
    requires w.queue.rows[i].dedupe == Update(h.u.value)
    ensures NextWorld(w, h, policy).queue.rows == w.queue.rows
  {
    assert i in Holders(w.queue.rows, bot, Update(h.u.value));
  }

  lemma {:induction false} HistoryStays(w: World, bot: string, hs: seq<Happening>, policy: Policy, id: Id)
    requires WorldInv(w, policy) && ValidHistory(w, bot, hs, policy) && policy.retentionDays >= 1
    requires id in w.queue.history
    ensures var later := AfterAll(w, hs, policy);
            WorldInv(later, policy) && id in later.queue.history && later.queue.history[id] == w.queue.history[id]
    decreases |hs|
  {
    if hs != [] {
      WorldStep(w, bot, hs[0], policy);
      HistoryStays(NextWorld(w, hs[0], policy), bot, hs[1..], policy, id);
    }
  }

  /**
   * No update is lost to the gate: after a delivery whose admission is unconfirmed the webhook
   * does not remember the update, so that the retry is processed; and if that delivery had in fact
   * committed a row, then whatever happens in between, every later delivery that is processed while
   * the row is stored is answered with that row and creates none.
   */
  lemma UnconfirmedUpdatesAreRetried(w: World, bot: string, u: nat, a: Attempt, hs: seq<Happening>, h: Happening,
                                     policy: Policy)
    requires WorldInv(w, policy) && IsNew(w.gate, Some(u)) && Unconfirmed(a) && policy.retentionDays >= 1
    requires Happens(w, bot, Webhook(Some(u), false, a), policy)
    requires ValidHistory(NextWorld(w, Webhook(Some(u), false, a), policy), bot, hs, policy)
    ensures IsNew(NextWorld(w, Webhook(Some(u), false, a), policy).gate, Some(u))
    ensures var later := AfterAll(NextWorld(w, Webhook(Some(u), false, a), policy), hs, policy);
            a.LostReply? && a.e.answer == Created && a.e.id in later.queue.rows
            && (h.Polled? || (h.Webhook? && !h.stopping && IsNew(later.gate, h.u))) && h.u == Some(u)
            && h.a.Admission? && Happens(later, bot, h, policy) ==>
              h.a.e.answer == Existing(a.e.id) && NextWorld(later, h, policy).queue.rows == later.queue.rows
  {
    var first := NextWorld(w, Webhook(Some(u), false, a), policy);
    WorldStep(w, bot, Webhook(Some(u), false, a), policy);
    GateAfterIsOk(w.gate, Some(u), false, true);
    if a.LostReply? && a.e.answer == Created {
      HistoryStays(first, bot, hs, policy, a.e.id);
      var later := AfterAll(first, hs, policy);
      if a.e.id in later.queue.rows {
        StoredRowAnswers(later, bot, u, a.e.id, policy);
      }
    }
  }

  /** The only row that admission of an update can find is the one stored for it. */
  lemma StoredRowAnswers(w: World, bot: string, u: nat, id: Id, policy: Policy)
    requires WorldInv(w, policy) && id in w.queue.rows && id in w.queue.history
    requires w.queue.history[id].bot == bot && w.queue.history[id].dedupe == Update(u)
    ensures Holders(w.queue.rows, bot, Update(u)) == {id}
  {
    assert SameIdentity(w.queue.rows[id], w.queue.history[id]);
  }

  // ----- end to end: hand-offs per update -----

  predicate HandsOutUpdate(s: System, e: Event, policy: Policy, bot: string, u: nat) {
    && e.Claim?
    && var pick := Pick(Recovered(s.rows, e.bot, e.now), e.bot, policy);
       pick.Some? && pick.value in s.rows && s.rows[pick.value].bot == bot && s.rows[pick.value].dedupe == Update(u)
  }

  /** Claims along a run that hand out an execution of this update. */
  function UpdateHandoffs(s: System, es: seq<Event>, policy: Policy, bot: string, u: nat): nat
    decreases |es|
  {
    if es == [] then 0
    else (if HandsOutUpdate(s, es[0], policy, bot, u) then 1 else 0)
         + UpdateHandoffs(Next(s, es[0], policy), es[1..], policy, bot, u)
  }

  predicate Known(rows: Table, bot: string, u: nat, id: Id) {
    id in rows && rows[id].bot == bot && rows[id].dedupe == Update(u)
  }

  /** This admission creates a row for an update that has had one before. */
  predicate Readmits(s: System, e: Event, bot: string, u: nat) {
    && e.Enqueue? && e.answer == Created && e.item.bot == bot && e.item.dedupe == Update(u)
    && exists id :: id in s.history && Known(s.history, bot, u, id)
  }

  function Readmissions(s: System, es: seq<Event>, policy: Policy, bot: string, u: nat): nat
    decreases |es|
  {
    if es == [] then 0
    else (if Readmits(s, es[0], bot, u) then 1 else 0) + Readmissions(Next(s, es[0], policy), es[1..], policy, bot, u)
  }

  /** What is left for an update: it has never been admitted, or its row still waits. */
  predicate UpdateOpen(s: System, bot: string, u: nat) {
    || (forall id :: id in s.history ==> !Known(s.history, bot, u, id))
    || (exists id :: id in s.rows && Known(s.rows, bot, u, id) && s.rows[id].status == Queued)
  }

  /** The stored rows of an update are among those it has had. */
  lemma StoredIsKnown(s: System, policy: Policy, bot: string, u: nat, id: Id)
    requires Inv(s, policy) && id in s.rows
    ensures id in s.history && (Known(s.rows, bot, u, id) <==> Known(s.history, bot, u, id))
  {
    assert SameIdentity(s.rows[id], s.history[id]);
  }

  /** A hand-off closes the update. */
  lemma HandOffCloses(s: System, e: Event, policy: Policy, bot: string, u: nat)
    requires Inv(s, policy) && Enabled(s, e, policy) && policy.retentionDays >= 1
    requires HandsOutUpdate(s, e, policy, bot, u)
    ensures UpdateOpen(s, bot, u) && !UpdateOpen(Next(s, e, policy), bot, u)
  {
    var t := Next(s, e, policy);
    var id := Pick(Recovered(s.rows, e.bot, e.now), e.bot, policy).value;
    CountsStep(s, e, policy, id);
    RowStep(s, e, policy, id);
    InvStep(s, e, policy);
    StoredIsKnown(s, policy, bot, u, id);
    StoredIsKnown(t, policy, bot, u, id);
    hide Inv, Enabled, HandsOutUpdate, Next, Pick, HandsOut;
    assert Known(s.rows, bot, u, id) && s.rows[id].status == Queued;
    assert id in t.history && Known(t.history, bot, u, id) && Known(t.rows, bot, u, id) && t.rows[id].status != Queued;
    forall j | j in t.rows && Known(t.rows, bot, u, j)
      ensures j == id
    {
      OnlyOneStored(t, policy, bot, u, id, j);
    }
  }

  lemma OnlyOneStored(s: System, policy: Policy, bot: string, u: nat, i: Id, j: Id)
    requires Inv(s, policy) && Known(s.rows, bot, u, i) && Known(s.rows, bot, u, j)
    ensures i == j
  {
    assert Deduplicated(s.rows);
  }

  /** Only a readmission opens a closed update again. */
  lemma ReadmissionOpens(s: System, e: Event, policy: Policy, bot: string, u: nat)
    requires Inv(s, policy) && Enabled(s, e, policy) && policy.retentionDays >= 1
    requires UpdateOpen(Next(s, e, policy), bot, u)
    ensures UpdateOpen(s, bot, u) || Readmits(s, e, bot, u)
  {
    var t := Next(s, e, policy);
    HistoryGrows(s, e, policy);
    if !UpdateOpen(s, bot, u) {
      var k :| k in s.history && Known(s.history, bot, u, k);
      assert k in t.history && Known(t.history, bot, u, k);
      var j :| j in t.rows && Known(t.rows, bot, u, j) && t.rows[j].status == Queued;
      WaitingBefore(s, e, policy, bot, u, j);
    }
  }

  lemma HistoryGrows(s: System, e: Event, policy: Policy)
    requires Enabled(s, e, policy)
    ensures var t := Next(s, e, policy);
            forall id :: id in s.history ==> id in t.history && t.history[id] == s.history[id]
  {
  }

  /** A row of the update that waits was waiting before or has just been admitted. */
  lemma WaitingBefore(s: System, e: Event, policy: Policy, bot: string, u: nat, id: Id)
    requires Inv(s, policy) && Enabled(s, e, policy)
    requires var t := Next(s, e, policy); Known(t.rows, bot, u, id) && t.rows[id].status == Queued
    ensures || (Known(s.rows, bot, u, id) && s.rows[id].status == Queued)
            || (e.Enqueue? && e.answer == Created && e.item.bot == bot && e.item.dedupe == Update(u))
  {
    if id in s.rows {
      RowStep(s, e, policy, id);
    } else {
      RowsAppear(s, e, policy, id);
    }
  }

  /**
   * Along any run, pruning included, an update is handed to a worker at most once more than it is
   * readmitted, that is, admitted anew after all its earlier rows have been pruned.
   */
  lemma {:induction false} HandoffsAreBounded(s: System, es: seq<Event>, policy: Policy, bot: string, u: nat)
    requires Inv(s, policy) && Valid(s, es, policy) && policy.retentionDays >= 1
    ensures UpdateHandoffs(s, es, policy, bot, u)
         <= (if UpdateOpen(s, bot, u) then 1 else 0) + Readmissions(s, es, policy, bot, u)
    decreases |es|
  {
    hide Inv, Enabled, HandsOutUpdate, Readmits, UpdateOpen, Next;
    if es != [] {
      InvStep(s, es[0], policy);
      if HandsOutUpdate(s, es[0], policy, bot, u) {
        HandOffCloses(s, es[0], policy, bot, u);
      }
      if UpdateOpen(Next(s, es[0], policy), bot, u) {
        ReadmissionOpens(s, es[0], policy, bot, u);
      }
      HandoffsAreBounded(Next(s, es[0], policy), es[1..], policy, bot, u);
    }
  }

  // ----- redelivery within the retention -----

  /** What is no longer stored was created longer ago than rows are retained. */
  ghost predicate PrunedLate(s: System, policy: Policy) {
    forall id :: id in s.history && id !in s.rows ==> s.history[id].createdAt + policy.retentionDays * DAY < s.clock
  }

  lemma PrunedLateStep(s: System, e: Event, policy: Policy)
    requires Inv(s, policy) && PrunedLate(s, policy) && Enabled(s, e, policy)
    ensures PrunedLate(Next(s, e, policy), policy)
  {
    var t := Next(s, e, policy);
    forall id | id in t.history && id !in t.rows
      ensures t.history[id].createdAt + policy.retentionDays * DAY < t.clock
    {
      if id in s.rows {
        RowStep(s, e, policy, id);
        assert SameIdentity(s.rows[id], s.history[id]);
        assert Prunable(s.rows[id], e.bot, e.now, policy.retentionDays);
      }
    }
  }

  predicate Offers(e: Event, bot: string, u: nat) {
    e.Enqueue? && e.item.bot == bot && e.item.dedupe == Update(u)
  }

  /** The update is offered again only while the rows it has had are within their retention. */
  ghost predicate Prompt(s: System, es: seq<Event>, policy: Policy, bot: string, u: nat)
    decreases |es|
  {
    es != [] ==>
      && (Offers(es[0], bot, u) ==> forall id :: Known(s.history, bot, u, id) ==>
            es[0].now <= s.history[id].createdAt + policy.retentionDays * DAY)
      && Prompt(Next(s, es[0], policy), es[1..], policy, bot, u)
  }

  /** A readmission comes later than the retention of every earlier row of the update. */
  lemma ReadmissionIsLate(s: System, e: Event, policy: Policy, bot: string, u: nat, id: Id)
    requires Inv(s, policy) && PrunedLate(s, policy) && Enabled(s, e, policy)
    requires Readmits(s, e, bot, u) && Known(s.history, bot, u, id)
    ensures s.history[id].createdAt + policy.retentionDays * DAY < e.now
  {
    if id in s.rows {
      StoredIsNotReadmitted(s, e, policy, bot, u, id);
    }
  }

  lemma StoredIsNotReadmitted(s: System, e: Event, policy: Policy, bot: string, u: nat, id: Id)
    requires Inv(s, policy) && Enabled(s, e, policy) && id in s.rows && Known(s.history, bot, u, id)
    ensures !Readmits(s, e, bot, u)
  {
    StoredIsKnown(s, policy, bot, u, id);
    assert id in Holders(s.rows, bot, Update(u));
  }

  /**
   * Exactly-once admission meets at-most-once hand-off: from any reachable state and along any run,
   * whatever is pruned and however often the update is delivered, its execution is handed to a worker
   * at most once, as long as no delivery comes later than the retention of its row.
   */
  lemma {:induction false} UpdateHandedOutAtMostOnce(s: System, es: seq<Event>, policy: Policy, bot: string, u: nat)
    requires Inv(s, policy) && PrunedLate(s, policy) && Valid(s, es, policy) && policy.retentionDays >= 1
    requires Prompt(s, es, policy, bot, u)
    ensures UpdateHandoffs(s, es, policy, bot, u) <= if UpdateOpen(s, bot, u) then 1 else 0
    decreases |es|
  {
    HandoffsAreBounded(s, es, policy, bot, u);
    PromptIsNotReadmitted(s, es, policy, bot, u);
  }

  lemma {:induction false} PromptIsNotReadmitted(s: System, es: seq<Event>, policy: Policy, bot: string, u: nat)
    requires Inv(s, policy) && PrunedLate(s, policy) && Valid(s, es, policy) && policy.retentionDays >= 1
    requires Prompt(s, es, policy, bot, u)
    ensures Readmissions(s, es, policy, bot, u) == 0
    decreases |es|
  {
    hide Inv, PrunedLate, Enabled, Next;
    if es != [] {
      InvStep(s, es[0], policy);
      PrunedLateStep(s, es[0], policy);
      if Readmits(s, es[0], bot, u) {
        var id :| Known(s.history, bot, u, id);
        ReadmissionIsLate(s, es[0], policy, bot, u, id);
      }
      PromptIsNotReadmitted(Next(s, es[0], policy), es[1..], policy, bot, u);
    }
  }

  // ----- a delivery that comes too late -----

  function NewRow(bot: string, u: nat, now: int): Row {
    Row(bot, Update(u), "actor", "shell", Telegram, now, now + 60, Queued, None, None, None, None, None, None, None,
        Pending, 0, None)
  }

  /** The update is admitted, run and completed; its row is pruned; then it is delivered once more. */
  function LateRun(bot: string, u: nat, late: int): seq<Event> {
    [Enqueue(1, NewRow(bot, u, 0), Created, 0), Claim(bot, "worker", 0),
     Complete(1, "worker", Success, None, None, 5, 0), Prune(bot, late),
     Enqueue(2, NewRow(bot, u, late), Created, late), Claim(bot, "worker", late)]
  }

  lemma OneMore(s: System, e: Event, es: seq<Event>, policy: Policy, bot: string, u: nat)
    requires Enabled(s, e, policy) && Valid(Next(s, e, policy), es, policy)
    ensures Valid(s, [e] + es, policy)
    ensures UpdateHandoffs(s, [e] + es, policy, bot, u)
         == (if HandsOutUpdate(s, e, policy, bot, u) then 1 else 0) + UpdateHandoffs(Next(s, e, policy), es, policy, bot, u)
  {
    assert ([e] + es)[1..] == es;
  }

  predicate Workable(policy: Policy) {
    policy.maxWorkers >= 1 && policy.pythonWorkers >= 1 && policy.queueLimit >= 1 && policy.rateLimit >= 1
  }

  /** The only row that waits is picked. */
  lemma OnlyRowIsPicked(bot: string, u: nat, id: Id, now: int, policy: Policy)
    requires Workable(policy)
    ensures var rows: Table := map[id := NewRow(bot, u, now)];
            Recovered(rows, bot, now) == rows && Pick(rows, bot, policy) == Some(id)
  {
    var rows: Table := map[id := NewRow(bot, u, now)];
    assert Recovered(rows, bot, now) == rows;
    assert Waiting(rows, bot) == {id} && Active(rows, bot) == {} && BusyActors(rows, bot) == {};
    PickIsWorkConserving(rows, bot, policy);
    assert !Held(rows, bot, policy, id);
  }

  /** Into an empty table the update is admitted, and the next claim hands it out. */
  lemma AdmittedAndHandedOut(s: System, bot: string, u: nat, id: Id, now: int, policy: Policy)
    requires s.rows == map[] && s.clock <= now && id !in s.history && Workable(policy)
    ensures var e, claim := Enqueue(id, NewRow(bot, u, now), Created, now), Claim(bot, "worker", now);
            var t := Next(s, e, policy);
            && Enabled(s, e, policy) && Enabled(t, claim, policy) && HandsOutUpdate(t, claim, policy, bot, u)
            && Next(t, claim, policy).rows == map[id := Started(NewRow(bot, u, now), "worker", now)]
            && Next(t, claim, policy).clock == now && Next(t, claim, policy).history == s.history[id := NewRow(bot, u, now)]
  {
    var row := NewRow(bot, u, now);
    assert Holders(s.rows, bot, Update(u)) == {} && Admitted(s.rows, bot) == {};
    assert Recent(s.rows, bot, "actor", now - RATE_WINDOW) == {};
    OnlyRowIsPicked(bot, u, id, now, policy);
    var rows: Table := map[id := row];
    assert s.rows[id := row] == rows;
    assert rows[id := Started(row, "worker", now)] == map[id := Started(row, "worker", now)];
  }

  /** Its completion, and its removal once it is older than the retention. */
  lemma CompletedAndPruned(s: System, bot: string, u: nat, id: Id, late: int, policy: Policy)
    requires s.rows == map[id := Started(NewRow(bot, u, 0), "worker", 0)] && s.clock == 0
    requires late == policy.retentionDays * DAY + 1
    ensures var done, prune := Complete(id, "worker", Success, None, None, 5, 0), Prune(bot, late);
            var t := Next(s, done, policy);
            && Enabled(s, done, policy) && Enabled(t, prune, policy)
            && Next(t, prune, policy).rows == map[] && Next(t, prune, policy).clock == late
            && Next(t, prune, policy).history == s.history
  {
    var t := Next(s, Complete(id, "worker", Success, None, None, 5, 0), policy);
    assert t.rows.Keys == {id} && Prunable(t.rows[id], bot, late, policy.retentionDays);
  }

  /** The update is handed out twice: rows are forgotten after their retention, and with them the update. */
  lemma LateDeliveryIsHandedOutAgain(bot: string, u: nat, late: int, policy: Policy)
    requires Workable(policy) && policy.retentionDays >= 1 && late == policy.retentionDays * DAY + 1
    ensures Inv(Start(0), policy) && PrunedLate(Start(0), policy) && Valid(Start(0), LateRun(bot, u, late), policy)
    ensures UpdateHandoffs(Start(0), LateRun(bot, u, late), policy, bot, u) == 2
  {
    hide Enabled, Next, NewRow, HandsOutUpdate, Inv, PrunedLate, Workable;
    StartIsClean(policy);
    var es, s0 := LateRun(bot, u, late), Start(0);
    AdmittedAndHandedOut(s0, bot, u, 1, 0, policy);
    var s1 := Next(s0, es[0], policy);
    var s2 := Next(s1, es[1], policy);
    CompletedAndPruned(s2, bot, u, 1, late, policy);
    var s3 := Next(s2, es[2], policy);
    var s4 := Next(s3, es[3], policy);
    AdmittedAndHandedOut(s4, bot, u, 2, late, policy);
    var s5 := Next(s4, es[4], policy);
    NoHandOff(s0, es[0], policy, bot, u);
    NoHandOff(s2, es[2], policy, bot, u);
    NoHandOff(s3, es[3], policy, bot, u);
    NoHandOff(s4, es[4], policy, bot, u);
    OneMore(s5, es[5], [], policy, bot, u);
    OneMore(s4, es[4], [es[5]], policy, bot, u);
    OneMore(s3, es[3], [es[4], es[5]], policy, bot, u);
    OneMore(s2, es[2], [es[3], es[4], es[5]], policy, bot, u);
    OneMore(s1, es[1], [es[2], es[3], es[4], es[5]], policy, bot, u);
    OneMore(s0, es[0], [es[1], es[2], es[3], es[4], es[5]], policy, bot, u);
    assert [es[5]] + [] == [es[5]] && [es[4]] + [es[5]] == [es[4], es[5]];
    assert es == [es[0]] + [es[1], es[2], es[3], es[4], es[5]];
  }

  lemma StartIsClean(policy: Policy)
    ensures Inv(Start(0), policy) && PrunedLate(Start(0), policy)
  {
  }

  lemma NoHandOff(s: System, e: Event, policy: Policy, bot: string, u: nat)
    requires !e.Claim?
    ensures !HandsOutUpdate(s, e, policy, bot, u)
  {
  }
}
