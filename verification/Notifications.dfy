/** The delivery queue: enqueue, bounded delivery attempts, destination toggles and
    operator retries (na_sso/notifications.py). */
module Notifications {
  import opened Prelude
  import opened Backoff

  datatype DeliveryStatus = Pending | Retrying | Delivered | Failed | Disabled

  /** `outcomes` is history: how each attempt since the last operator retry ended. */
  datatype Delivery = Delivery(
    endpoint: string,
    isEmail: bool,
    dedupeKey: string,
    status: DeliveryStatus,
    attemptCount: nat,
    nextAttemptAt: Option<real>,
    outcomes: seq<bool>)

  /** A configured webhook destination; identifiers are unique. */
  datatype Endpoint = Endpoint(id: string, enabled: bool, events: set<string>)

  datatype EmailChannel = EmailChannel(enabled: bool, events: set<string>)

  datatype Policy = Policy(
    enabled: bool,
    maxAttempts: nat,
    retryBase: real,
    retryMax: real,
    endpoints: seq<Endpoint>,
    email: Option<EmailChannel>)

  /** The destination that email deliveries are stored under. */
  const EMAIL := "email"

  /** Events with a message to send; for the others the mail channel is skipped. */
  const MAIL_TEMPLATES: set<string> := {"lifecycle.completed", "password.expired", "approval.completed"}

  const KEY_LENGTH: nat := 256

  const BATCH: nat := 100

  predicate Queued(d: Delivery) {
    d.status.Pending? || d.status.Retrying?
  }

  predicate EndpointActive(p: Policy, disabled: set<string>, endpoint: string) {
    (exists e :: e in p.endpoints && e.id == endpoint && e.enabled) && endpoint !in disabled
  }

  predicate DestinationActive(p: Policy, disabled: set<string>, d: Delivery) {
    if d.isEmail then p.email.Some? && p.email.value.enabled else EndpointActive(p, disabled, d.endpoint)
  }

  // ---- one delivery ----

  function Attempted(p: Policy, d: Delivery, ok: bool, now: real): Delivery {
    var tried := d.(attemptCount := d.attemptCount + 1, outcomes := d.outcomes + [ok]);
    if ok then tried.(status := Delivered, nextAttemptAt := None)
    else if tried.attemptCount >= p.maxAttempts then tried.(status := Failed, nextAttemptAt := None)
    else tried.(status := Retrying,
                nextAttemptAt := Some(now + Delay(p.retryBase, p.retryMax, tried.attemptCount)))
  }

  function Processed(p: Policy, disabled: set<string>, d: Delivery, ok: bool, now: real): Delivery {
    if DestinationActive(p, disabled, d) then Attempted(p, d, ok, now)
    else d.(status := Disabled, nextAttemptAt := None)
  }

  predicate IsDue(d: Delivery, now: real) {
    Queued(d) && d.nextAttemptAt.Some? && d.nextAttemptAt.value <= now
  }

  /** The due positions, oldest delivery first. */
  function DuePositions(queue: seq<Delivery>, now: real): (due: seq<nat>)
    ensures forall i: nat :: i in due <==> i < |queue| && IsDue(queue[i], now)
    ensures forall i, j | 0 <= i < j < |due| :: due[i] < due[j]
  {
    if queue == [] then []
    else
      var n := |queue| - 1;
      var earlier := DuePositions(queue[..n], now);
      assert forall k | 0 <= k < |earlier| :: earlier[k] in earlier;
      if IsDue(queue[n], now) then earlier + [n] else earlier
  }

  function Batch(queue: seq<Delivery>, now: real): (batch: seq<nat>)
    ensures forall i: nat | i in batch :: i < |queue| && IsDue(queue[i], now)
    ensures forall i, j | 0 <= i < j < |batch| :: batch[i] < batch[j]
  {
    var due := DuePositions(queue, now);
    if |due| > BATCH then due[..BATCH] else due
  }

  function DeliverSpec(p: Policy, disabled: set<string>, queue: seq<Delivery>, now: real, answer: nat -> bool)
    : seq<Delivery>
  {
    if !p.enabled then queue else
    seq(|queue|, i requires 0 <= i < |queue| =>
      if i in Batch(queue, now) then Processed(p, disabled, queue[i], answer(i), now) else queue[i])
  }

  /** An event as it is raised; `address` is the subject's mail address, if there is one. */
  datatype Event = Event(kind: string, key: string, address: Option<string>)

  function Truncated(key: string): string {
    if |key| > KEY_LENGTH then key[..KEY_LENGTH] else key
  }

  function WebhookKey(e: Event): string {
    Truncated(e.kind + ":" + e.key)
  }

  function MailKey(e: Event): string
    requires e.address.Some?
  {
    Truncated(e.kind + ":" + e.key + ":" + e.address.value)
  }

  predicate Holds(queue: seq<Delivery>, endpoint: string, key: string) {
    exists d :: d in queue && d.endpoint == endpoint && d.dedupeKey == key
  }

  function QueuedOnce(queue: seq<Delivery>, endpoint: string, isEmail: bool, key: string, now: real): seq<Delivery> {
    if Holds(queue, endpoint, key) then queue
    else queue + [Delivery(endpoint, isEmail, key, Pending, 0, Some(now), [])]
  }

  predicate Subscribed(endpoint: Endpoint, disabled: set<string>, kind: string) {
    kind in endpoint.events && endpoint.enabled && endpoint.id !in disabled
  }

  function QueuedForAll(queue: seq<Delivery>, endpoints: seq<Endpoint>, disabled: set<string>, e: Event, now: real)
    : seq<Delivery>
  {
    if endpoints == [] then queue
    else
      var earlier := QueuedForAll(queue, Front(endpoints), disabled, e, now);
      if Subscribed(Last(endpoints), disabled, e.kind)
      then QueuedOnce(earlier, Last(endpoints).id, false, WebhookKey(e), now) else earlier
  }

  predicate Mails(p: Policy, e: Event) {
    && p.email.Some? && p.email.value.enabled && e.kind in p.email.value.events
    && e.kind in MAIL_TEMPLATES && e.address.Some?
  }

  function EnqueueSpec(p: Policy, disabled: set<string>, queue: seq<Delivery>, e: Event, now: real): seq<Delivery> {
    if !p.enabled then queue
    else
      var webhooks := QueuedForAll(queue, p.endpoints, disabled, e, now);
      if Mails(p, e) then QueuedOnce(webhooks, EMAIL, true, MailKey(e), now) else webhooks
  }

  function Toggled(d: Delivery, endpoint: string, active: bool, now: real): Delivery {
    if d.endpoint != endpoint then d
    else if active && d.status.Disabled? then d.(status := Pending, nextAttemptAt := Some(now))
    else if !active && Queued(d) then d.(status := Disabled, nextAttemptAt := None)
    else d
  }

  function AllToggled(queue: seq<Delivery>, endpoint: string, active: bool, now: real): seq<Delivery> {
    seq(|queue|, i requires 0 <= i < |queue| => Toggled(queue[i], endpoint, active, now))
  }

  predicate ToggleAccepted(p: Policy, endpoint: string, active: bool) {
    exists e :: e in p.endpoints && e.id == endpoint && (active ==> e.enabled)
  }

  function Requeued(d: Delivery, now: real): Delivery {
    d.(status := Pending, attemptCount := 0, nextAttemptAt := Some(now), outcomes := [])
  }

  predicate RetryAccepted(p: Policy, disabled: set<string>, d: Delivery) {
    (d.status.Failed? || d.status.Disabled?) && DestinationActive(p, disabled, d)
  }

  class Outbox {
    const policy: Policy
    var queue: seq<Delivery>
    var disabled: set<string>

    constructor (policy: Policy)
      ensures this.policy == policy && queue == [] && disabled == {}
    {
      this.policy := policy;
      queue, disabled := [], {};
    }

    method QueueOnce(endpoint: string, isEmail: bool, key: string, now: real)
      modifies this`queue
      ensures queue == QueuedOnce(old(queue), endpoint, isEmail, key, now)
    {
      for i := 0 to |queue|
        invariant forall j | 0 <= j < i :: !(queue[j].endpoint == endpoint && queue[j].dedupeKey == key)
        invariant queue == old(queue)
      {
        if queue[i].endpoint == endpoint && queue[i].dedupeKey == key {
          return;
        }
      }
      queue := queue + [Delivery(endpoint, isEmail, key, Pending, 0, Some(now), [])];
    }

    /** Every active, subscribed destination gets the event, and the mail channel where it
        has a message and an address; each at most once. */
    method Enqueue(e: Event, now: real)
      modifies this`queue
      ensures queue == EnqueueSpec(policy, disabled, old(queue), e, now)
    {
      if !policy.enabled {
        return;
      }
      var endpoints := policy.endpoints;
      for i := 0 to |endpoints|
        invariant queue == QueuedForAll(old(queue), endpoints[..i], disabled, e, now)
      {
        assert Front(endpoints[..i + 1]) == endpoints[..i];
        var endpoint := endpoints[i];
        if e.kind in endpoint.events && endpoint.enabled && endpoint.id !in disabled {
          QueueOnce(endpoint.id, false, WebhookKey(e), now);
        }
      }
      assert endpoints[..|endpoints|] == endpoints;
      if policy.email.None? || !policy.email.value.enabled || e.kind !in policy.email.value.events {
        return;
      }
      if e.kind in MAIL_TEMPLATES && e.address.Some? {
        QueueOnce(EMAIL, true, MailKey(e), now);
      }
    }

    method Attempt(i: nat, ok: bool, now: real)
      requires i < |queue|
      modifies this`queue
      ensures queue == old(queue)[i := Processed(policy, disabled, old(queue)[i], ok, now)]
    {
      var d := queue[i];
      if !DestinationActive(policy, disabled, d) {
        d := d.(status := Disabled);
        d := d.(nextAttemptAt := None);
        queue := queue[i := d];
        return;
      }
      d := d.(attemptCount := d.attemptCount + 1, outcomes := d.outcomes + [ok]);
      if ok {
        d := d.(status := Delivered);
        d := d.(nextAttemptAt := None);
      } else if d.attemptCount >= policy.maxAttempts {
        d := d.(status := Failed);
        d := d.(nextAttemptAt := None);
      } else {
        d := d.(status := Retrying);
        d := d.(nextAttemptAt := Some(now + Delay(policy.retryBase, policy.retryMax, d.attemptCount)));
      }
      queue := queue[i := d];
    }

    method DeliverBatch(ids: seq<nat>, now: real, answer: nat -> bool) returns (processed: nat)
      requires forall i, j | 0 <= i < j < |ids| :: ids[i] < ids[j]
      requires forall i | i in ids :: i < |queue| && Queued(queue[i])
      modifies this`queue
      ensures processed == |ids| && |queue| == |old(queue)|
      ensures forall i | 0 <= i < |queue| ::
        queue[i] == if i in ids then Processed(policy, disabled, old(queue)[i], answer(i), now) else old(queue)[i]
    {
      processed := 0;
      ghost var before := queue;
      var k := 0;
      while k < |ids|
        invariant 0 <= k <= |ids| && processed == k && |queue| == |before|
        invariant forall i | 0 <= i < |queue| ::
          queue[i] == (if i in ids[..k] then Processed(policy, disabled, before[i], answer(i), now) else before[i])
      {
        assert ids[k] in ids && ids[k] !in ids[..k];
        assert ids[..k + 1] == ids[..k] + [ids[k]];
        var i := ids[k];
        if Queued(queue[i]) {
          Attempt(i, answer(i), now);
          processed := processed + 1;
        }
        k := k + 1;
      }
      assert ids[..|ids|] == ids;
    }

    /** One scan: with notifications on, a due delivery is attempted if and only if fewer than
        a hundred due ones stand before it, and no other delivery changes. */
    method DeliverDueOnce(now: real, answer: nat -> bool) returns (processed: nat)
      modifies this`queue
      ensures queue == DeliverSpec(policy, disabled, old(queue), now, answer)
      ensures processed == if policy.enabled then UpToHundred(DueAmong(old(queue), now)) else 0
      ensures |queue| == |old(queue)| && forall i | 0 <= i < |queue| ::
        if policy.enabled && WaitsAt(old(queue)[i], now) && DueAmong(old(queue)[..i], now) < 100
        then AttemptEnds(policy, disabled, old(queue)[i], answer(i), now, queue[i])
        else queue[i] == old(queue)[i]
    {
      ScanAttempts(policy, State(queue, disabled), now, answer);
      if !policy.enabled {
        return 0;
      }
      processed := DeliverBatch(Batch(queue, now), now, answer);
    }

    method Toggle(endpoint: string, active: bool, now: real)
      modifies this
      ensures if ToggleAccepted(policy, endpoint, active)
              then queue == AllToggled(old(queue), endpoint, active, now)
                   && disabled == (if active then old(disabled) - {endpoint} else old(disabled) + {endpoint})
              else queue == old(queue) && disabled == old(disabled)
    {
      if !ToggleAccepted(policy, endpoint, active) {
        return;
      }
      disabled := if active then disabled - {endpoint} else disabled + {endpoint};
      for i := 0 to |queue|
        invariant |queue| == |old(queue)|
        invariant forall j | 0 <= j < |queue| ::
          queue[j] == (if j < i then Toggled(old(queue)[j], endpoint, active, now) else old(queue)[j])
        invariant disabled == if active then old(disabled) - {endpoint} else old(disabled) + {endpoint}
      {
        var d := queue[i];
        if d.endpoint == endpoint {
          if active && d.status.Disabled? {
            queue := queue[i := d.(status := Pending, nextAttemptAt := Some(now))];
          } else if !active && Queued(d) {
            queue := queue[i := d.(status := Disabled, nextAttemptAt := None)];
          }
        }
      }
    }

    method Retry(i: nat, now: real)
      requires i < |queue|
      modifies this`queue
      ensures queue == if RetryAccepted(policy, disabled, old(queue)[i])
                       then old(queue)[i := Requeued(old(queue)[i], now)] else old(queue)
    {
      if !(queue[i].status.Failed? || queue[i].status.Disabled?) || !DestinationActive(policy, disabled, queue[i]) {
        return;
      }
      queue := queue[i := queue[i].(status := Pending, attemptCount := 0)];
      queue := queue[i := queue[i].(nextAttemptAt := Some(now), outcomes := [])];
    }
  }

  // ---- runs ----

  datatype Step =
    | Raised(event: Event, now: real)
    | Delivering(now: real, answer: nat -> bool)
    | Toggling(endpoint: string, active: bool, now: real)
    | OperatorRetry(position: nat, now: real)

  datatype State = State(queue: seq<Delivery>, disabled: set<string>)

  function Apply(p: Policy, s: State, step: Step): State {
    match step
    case Raised(event, now) => s.(queue := EnqueueSpec(p, s.disabled, s.queue, event, now))
    case Delivering(now, answer) => s.(queue := DeliverSpec(p, s.disabled, s.queue, now, answer))
    case Toggling(endpoint, active, now) =>
      if !ToggleAccepted(p, endpoint, active) then s
      else State(AllToggled(s.queue, endpoint, active, now),
                 if active then s.disabled - {endpoint} else s.disabled + {endpoint})
    case OperatorRetry(i, now) =>
      if i < |s.queue| && RetryAccepted(p, s.disabled, s.queue[i])
      then s.(queue := s.queue[i := Requeued(s.queue[i], now)]) else s
  }

  function Execute(p: Policy, s: State, steps: seq<Step>): State
    decreases |steps|
  {
    if steps == [] then s else Execute(p, Apply(p, s, steps[0]), steps[1..])
  }

  /** A delivery is scheduled exactly while it is queued; it has made one attempt per
      outcome since the last operator retry, fewer than the maximum unless it failed, and
      it is delivered exactly when its last attempt, and no earlier one, succeeded. */
  ghost predicate DeliveryOk(p: Policy, d: Delivery) {
    && (d.nextAttemptAt.Some? <==> Queued(d))
    && |d.outcomes| == d.attemptCount <= p.maxAttempts
    && (d.status.Delivered? <==> d.outcomes != [] && Last(d.outcomes))
    && (forall k | 0 <= k < |d.outcomes| - 1 :: !d.outcomes[k])
    && (d.status.Failed? ==> d.attemptCount == p.maxAttempts)
    && (Queued(d) || d.status.Disabled? ==> d.attemptCount < p.maxAttempts)
  }

  ghost predicate QueueOk(p: Policy, queue: seq<Delivery>) {
    && (forall i | 0 <= i < |queue| :: DeliveryOk(p, queue[i]))
    && (forall i, j | 0 <= i < j < |queue| ::
          queue[i].endpoint != queue[j].endpoint || queue[i].dedupeKey != queue[j].dedupeKey)
  }

  lemma ProcessedOk(p: Policy, disabled: set<string>, d: Delivery, ok: bool, now: real)
    requires DeliveryOk(p, d) && Queued(d)
    ensures DeliveryOk(p, Processed(p, disabled, d, ok, now))
  {
  }

  lemma QueueOnceKeeps(p: Policy, queue: seq<Delivery>, endpoint: string, isEmail: bool, key: string, now: real)
    ensures queue <= QueuedOnce(queue, endpoint, isEmail, key, now)
    ensures p.maxAttempts >= 1 && QueueOk(p, queue) ==> QueueOk(p, QueuedOnce(queue, endpoint, isEmail, key, now))
    ensures forall o, k :: Holds(QueuedOnce(queue, endpoint, isEmail, key, now), o, k)
                      <==> Holds(queue, o, k) || (o == endpoint && k == key)
  {
    var after := QueuedOnce(queue, endpoint, isEmail, key, now);
    if after != queue {
      assert after == queue + [Last(after)];
      assert forall d :: d in after <==> d in queue || d == Last(after);
      assert forall i | 0 <= i < |queue| :: queue[i] in queue && after[i] == queue[i];
    }
  }

  lemma {:induction false} QueueForAllKeeps(p: Policy, queue: seq<Delivery>, endpoints: seq<Endpoint>,
                                            disabled: set<string>, e: Event, now: real)
    ensures queue <= QueuedForAll(queue, endpoints, disabled, e, now)
    ensures p.maxAttempts >= 1 && QueueOk(p, queue) ==> QueueOk(p, QueuedForAll(queue, endpoints, disabled, e, now))
    ensures forall o, k :: Holds(QueuedForAll(queue, endpoints, disabled, e, now), o, k) <==>
      || Holds(queue, o, k)
      || (k == WebhookKey(e) && exists i | 0 <= i < |endpoints| ::
            endpoints[i].id == o && Subscribed(endpoints[i], disabled, e.kind))
    decreases |endpoints|
  {
    if endpoints != [] {
      var front := Front(endpoints);
      QueueForAllKeeps(p, queue, front, disabled, e, now);
      var earlier := QueuedForAll(queue, front, disabled, e, now);
      assert forall i | 0 <= i < |front| :: front[i] == endpoints[i];
      QueueOnceKeeps(p, earlier, Last(endpoints).id, false, WebhookKey(e), now);
    }
  }

  /** An event is queued for exactly the active, subscribed destinations, and by mail where
      it has a template and an address; nothing is queued twice or lost. */
  lemma EventReachesSubscribers(p: Policy, disabled: set<string>, queue: seq<Delivery>, e: Event, now: real)
    ensures queue <= EnqueueSpec(p, disabled, queue, e, now)
    ensures p.maxAttempts >= 1 && QueueOk(p, queue) ==> QueueOk(p, EnqueueSpec(p, disabled, queue, e, now))
    ensures forall o, k :: Holds(EnqueueSpec(p, disabled, queue, e, now), o, k) <==>
      || Holds(queue, o, k)
      || (p.enabled && k == WebhookKey(e) && exists i | 0 <= i < |p.endpoints| ::
            p.endpoints[i].id == o && Subscribed(p.endpoints[i], disabled, e.kind))
      || (p.enabled && Mails(p, e) && o == EMAIL && k == MailKey(e))
  {
    if p.enabled {
      QueueForAllKeeps(p, queue, p.endpoints, disabled, e, now);
      if Mails(p, e) {
        QueueOnceKeeps(p, QueuedForAll(queue, p.endpoints, disabled, e, now), EMAIL, true, MailKey(e), now);
      }
    }
  }

  /** A step other than an event keeps every delivery's destination and key. */
  lemma StepKeepsKeys(p: Policy, s: State, step: Step)
    requires !step.Raised?
    ensures
      var after := Apply(p, s, step);
      && |s.queue| == |after.queue|
      && (forall i | 0 <= i < |s.queue| ::
            after.queue[i].endpoint == s.queue[i].endpoint && after.queue[i].dedupeKey == s.queue[i].dedupeKey)
  {
    var after := Apply(p, s, step);
    match step
    case Delivering(now, answer) =>
      forall i | 0 <= i < |s.queue|
        ensures after.queue[i].endpoint == s.queue[i].endpoint && after.queue[i].dedupeKey == s.queue[i].dedupeKey
      {
        assert after.queue[i] == s.queue[i] || after.queue[i] == Processed(p, s.disabled, s.queue[i], answer(i), now);
      }
    case _ =>
  }

  lemma StepKeepsQueue(p: Policy, s: State, step: Step)
    requires p.maxAttempts >= 1 && QueueOk(p, s.queue)
    ensures QueueOk(p, Apply(p, s, step).queue)
  {
    if step.Raised? {
      EventReachesSubscribers(p, s.disabled, s.queue, step.event, step.now);
    } else {
      var after := Apply(p, s, step);
      StepKeepsKeys(p, s, step);
      forall i | 0 <= i < |after.queue|
        ensures DeliveryOk(p, after.queue[i])
      {
        if step.Delivering? && p.enabled && i in Batch(s.queue, step.now) {
          ProcessedOk(p, s.disabled, s.queue[i], step.answer(i), step.now);
        }
      }
    }
  }

  /** Over every run from an empty queue the above holds of every delivery, so at most
      `maxAttempts` sends follow each operator retry; and an event is queued at most once
      per destination. */
  lemma {:induction false} RunsKeepQueue(p: Policy, s: State, steps: seq<Step>)
    requires p.maxAttempts >= 1 && QueueOk(p, s.queue)
    ensures QueueOk(p, Execute(p, s, steps).queue)
    decreases |steps|
  {
    if steps != [] {
      StepKeepsQueue(p, s, steps[0]);
      RunsKeepQueue(p, Apply(p, s, steps[0]), steps[1..]);
    }
  }

  lemma DeliveredStep(p: Policy, s: State, step: Step, i: nat)
    requires i < |s.queue| && s.queue[i].status.Delivered?
    ensures i < |Apply(p, s, step).queue| && Apply(p, s, step).queue[i] == s.queue[i]
  {
    match step
    case Raised(event, now) => EventReachesSubscribers(p, s.disabled, s.queue, event, now);
    case Delivering(now, answer) =>
      assert !IsDue(s.queue[i], now);
      assert i !in Batch(s.queue, now);
    case _ =>
  }

  /** Delivered is absorbing: no later step touches a delivered message. */
  lemma {:induction false} DeliveredStaysDelivered(p: Policy, s: State, steps: seq<Step>, i: nat)
    requires i < |s.queue| && s.queue[i].status.Delivered?
    ensures
      var after := Execute(p, s, steps);
      i < |after.queue| && after.queue[i] == s.queue[i]
    decreases |steps|
  {
    if steps != [] {
      var next := Apply(p, s, steps[0]);
      DeliveredStep(p, s, steps[0], i);
      DeliveredStaysDelivered(p, next, steps[1..], i);
    }
  }

  // ---- one scan, by position ----

  /** Queued, and the time has come. */
  predicate WaitsAt(d: Delivery, now: real) {
    (d.status == Pending || d.status == Retrying) && d.nextAttemptAt != None && d.nextAttemptAt.value <= now
  }

  /** How many of the first deliveries are due. */
  function DueAmong(queue: seq<Delivery>, now: real): nat {
    if queue == [] then 0
    else DueAmong(Front(queue), now) + if WaitsAt(Last(queue), now) then 1 else 0
  }

  function UpToHundred(n: nat): nat {
    if n < 100 then n else 100
  }

  /** The destination accepts deliveries: the mail channel is on, or the webhook endpoint is
      configured, enabled and not switched off by an operator. */
  predicate Accepts(p: Policy, disabled: set<string>, d: Delivery) {
    if d.isEmail then p.email.Some? && p.email.value.enabled
    else d.endpoint !in disabled && exists i | 0 <= i < |p.endpoints| ::
           p.endpoints[i].id == d.endpoint && p.endpoints[i].enabled
  }

  /** What one attempt makes of a delivery: parked where the destination does not accept,
      delivered, failed at the maximum, or rescheduled at the backoff of its new count. */
  predicate AttemptEnds(p: Policy, disabled: set<string>, before: Delivery, ok: bool, now: real, after: Delivery) {
    && after.endpoint == before.endpoint && after.isEmail == before.isEmail && after.dedupeKey == before.dedupeKey
    && (if !Accepts(p, disabled, before) then
          after == before.(status := Disabled, nextAttemptAt := None)
        else
          && after.attemptCount == before.attemptCount + 1 && after.outcomes == before.outcomes + [ok]
          && (after.status == Delivered <==> ok)
          && (after.status == Failed <==> !ok && before.attemptCount + 1 >= p.maxAttempts)
          && (after.status == Retrying <==> !ok && before.attemptCount + 1 < p.maxAttempts)
          && after.nextAttemptAt == if after.status == Retrying
                                    then Some(now + Delay(p.retryBase, p.retryMax, before.attemptCount + 1)) else None)
  }

  lemma {:induction false} DuePositionsCount(queue: seq<Delivery>, now: real, i: nat)
    requires i < |queue| && WaitsAt(queue[i], now)
    ensures |DuePositions(queue, now)| == DueAmong(queue, now)
    ensures DueAmong(queue[..i], now) < |DuePositions(queue, now)|
    ensures DuePositions(queue, now)[DueAmong(queue[..i], now)] == i
  {
    var n := |queue| - 1;
    DuePositionsSize(queue, now);
    if i < n {
      assert Front(queue)[..i] == queue[..i];
      DuePositionsCount(Front(queue), now, i);
    } else {
      DuePositionsSize(Front(queue), now);
    }
  }

  lemma {:induction false} DuePositionsSize(queue: seq<Delivery>, now: real)
    ensures |DuePositions(queue, now)| == DueAmong(queue, now)
  {
    if queue != [] {
      DuePositionsSize(Front(queue), now);
    }
  }

  lemma {:induction false} BatchedIff(queue: seq<Delivery>, now: real, i: nat)
    requires i < |queue|
    ensures i in Batch(queue, now) <==> WaitsAt(queue[i], now) && DueAmong(queue[..i], now) < 100
  {
    var due := DuePositions(queue, now);
    if WaitsAt(queue[i], now) {
      var k := DueAmong(queue[..i], now);
      DuePositionsCount(queue, now, i);
      if k < 100 {
        assert Batch(queue, now)[k] == i;
      } else {
        forall j | 0 <= j < |Batch(queue, now)|
          ensures Batch(queue, now)[j] != i
        {
          assert due[j] < due[k];
        }
      }
    }
  }

  /** One scan, delivery by delivery: while notifications are on, a delivery that is due is
      attempted if and only if fewer than a hundred due ones stand before it; it ends in one
      of four ways, and no other delivery changes. */
  lemma {:induction false} ScanAttemptsIff(p: Policy, s: State, now: real, answer: nat -> bool, i: nat)
    requires i < |s.queue|
    ensures
      var after := Apply(p, s, Delivering(now, answer));
      && after.disabled == s.disabled && |after.queue| == |s.queue|
      && (if p.enabled && WaitsAt(s.queue[i], now) && DueAmong(s.queue[..i], now) < 100
          then AttemptEnds(p, s.disabled, s.queue[i], answer(i), now, after.queue[i])
          else after.queue[i] == s.queue[i])
  {
    BatchedIff(s.queue, now, i);
    AttemptsEnd(p, s.disabled, s.queue[i], answer(i), now);
  }

  lemma {:induction false} ScanAttempts(p: Policy, s: State, now: real, answer: nat -> bool)
    ensures |Batch(s.queue, now)| == UpToHundred(DueAmong(s.queue, now))
    ensures
      var after := DeliverSpec(p, s.disabled, s.queue, now, answer);
      forall i | 0 <= i < |s.queue| ::
        if p.enabled && WaitsAt(s.queue[i], now) && DueAmong(s.queue[..i], now) < 100
        then AttemptEnds(p, s.disabled, s.queue[i], answer(i), now, after[i])
        else after[i] == s.queue[i]
  {
    DuePositionsSize(s.queue, now);
    forall i | 0 <= i < |s.queue| {
      ScanAttemptsIff(p, s, now, answer, i);
    }
  }

  lemma AcceptsIffActive(p: Policy, disabled: set<string>, d: Delivery)
    ensures Accepts(p, disabled, d) <==> DestinationActive(p, disabled, d)
  {
    forall i | 0 <= i < |p.endpoints|
      ensures p.endpoints[i] in p.endpoints
    {
    }
  }

  lemma AttemptsEnd(p: Policy, disabled: set<string>, d: Delivery, ok: bool, now: real)
    ensures AttemptEnds(p, disabled, d, ok, now, Processed(p, disabled, d, ok, now))
  {
    AcceptsIffActive(p, disabled, d);
  }

  // ---- events, toggles and operator retries, by position ----

  /** Some configured webhook of this name takes the event: enabled, subscribed to its kind and
      not switched off by an operator. */
  predicate Wants(endpoints: seq<Endpoint>, disabled: set<string>, kind: string, id: string) {
    id !in disabled && exists i | 0 <= i < |endpoints| ::
      endpoints[i].id == id && endpoints[i].enabled && kind in endpoints[i].events
  }

  /** The mail channel takes the event, which has a message and an address. */
  predicate MailWants(p: Policy, e: Event) {
    && p.email != None && p.email.value.enabled && e.kind in p.email.value.events && e.address != None
    && e.kind in {"lifecycle.completed", "password.expired", "approval.completed"}
  }

  function Cut(text: string): string {
    if |text| <= 256 then text else text[..256]
  }

  predicate IsQueuedFor(queue: seq<Delivery>, id: string, key: string) {
    exists i | 0 <= i < |queue| :: queue[i].endpoint == id && queue[i].dedupeKey == key
  }

  /** A delivery as an event adds it: due at once, never attempted, for a webhook that wants
      the event or for the mail channel. */
  predicate AddedBy(p: Policy, disabled: set<string>, e: Event, now: real, d: Delivery) {
    && d.status == Pending && d.attemptCount == 0 && d.nextAttemptAt == Some(now) && d.outcomes == []
    && (if d.isEmail then
          && MailWants(p, e) && d.endpoint == "email"
          && d.dedupeKey == Cut(e.kind + ":" + e.key + ":" + e.address.value)
        else
          Wants(p.endpoints, disabled, e.kind, d.endpoint) && d.dedupeKey == Cut(e.kind + ":" + e.key))
  }

  lemma {:induction false} WebhooksAdded(p: Policy, queue: seq<Delivery>, endpoints: seq<Endpoint>,
                                         disabled: set<string>, e: Event, now: real)
    requires endpoints <= p.endpoints
    ensures
      var after := QueuedForAll(queue, endpoints, disabled, e, now);
      && queue <= after
      && (forall i | |queue| <= i < |after| :: !after[i].isEmail && AddedBy(p, disabled, e, now, after[i]))
    decreases |endpoints|
  {
    QueueForAllKeeps(p, queue, endpoints, disabled, e, now);
    if endpoints != [] {
      WebhooksAdded(p, queue, Front(endpoints), disabled, e, now);
      assert Last(endpoints) == p.endpoints[|endpoints| - 1];
    }
  }

  lemma HoldsByPosition(queue: seq<Delivery>, id: string, key: string)
    ensures Holds(queue, id, key) <==> IsQueuedFor(queue, id, key)
  {
    forall i | 0 <= i < |queue|
      ensures queue[i] in queue
    {
    }
  }

  /** What an event queues: what stood before stays in place, each addition is as it should be,
      and exactly the destinations that want the event now hold it. */
  lemma EventQueuedIff(p: Policy, s: State, e: Event, now: real, id: string, key: string)
    ensures
      var after := Apply(p, s, Raised(e, now));
      && after.disabled == s.disabled && s.queue <= after.queue
      && (forall i | |s.queue| <= i < |after.queue| :: p.enabled && AddedBy(p, s.disabled, e, now, after.queue[i]))
      && (IsQueuedFor(after.queue, id, key) <==>
            || IsQueuedFor(s.queue, id, key)
            || (p.enabled && Wants(p.endpoints, s.disabled, e.kind, id) && key == Cut(e.kind + ":" + e.key))
            || (p.enabled && MailWants(p, e) && id == "email"
                && key == Cut(e.kind + ":" + e.key + ":" + e.address.value)))
  {
    HoldsByPosition(s.queue, id, key);
    HoldsByPosition(EnqueueSpec(p, s.disabled, s.queue, e, now), id, key);
    EventReachesSubscribers(p, s.disabled, s.queue, e, now);
    WebhooksAdded(p, s.queue, p.endpoints, s.disabled, e, now);
  }

  /** An operator's switch is accepted for a configured destination, and to switch it on only
      where that is enabled. Switching off parks what is queued for it, switching on makes
      what is parked due at once; nothing else changes. */
  lemma TogglesIff(p: Policy, s: State, endpoint: string, active: bool, now: real, i: nat)
    requires i < |s.queue|
    ensures
      var after := Apply(p, s, Toggling(endpoint, active, now));
      var accepted := exists j | 0 <= j < |p.endpoints| ::
        p.endpoints[j].id == endpoint && (p.endpoints[j].enabled || !active);
      var d := s.queue[i];
      && |after.queue| == |s.queue|
      && (forall o :: o in after.disabled <==> if accepted && o == endpoint then !active else o in s.disabled)
      && after.queue[i] ==
           if !accepted || d.endpoint != endpoint then d
           else if active && d.status == Disabled then d.(status := Pending, nextAttemptAt := Some(now))
           else if !active && (d.status == Pending || d.status == Retrying)
           then d.(status := Disabled, nextAttemptAt := None)
           else d
  {
    forall j | 0 <= j < |p.endpoints|
      ensures p.endpoints[j] in p.endpoints
    {
    }
  }

  /** An operator's retry is accepted for a failed or parked delivery whose destination accepts;
      it starts over. */
  lemma OperatorRetriesIff(p: Policy, s: State, position: nat, now: real, i: nat)
    requires i < |s.queue|
    ensures
      var after := Apply(p, s, OperatorRetry(position, now));
      var d := s.queue[i];
      && |after.queue| == |s.queue| && after.disabled == s.disabled
      && after.queue[i] ==
           if i == position && (d.status == Failed || d.status == Disabled) && Accepts(p, s.disabled, d)
           then d.(status := Pending, attemptCount := 0, nextAttemptAt := Some(now), outcomes := [])
           else d
  {
    AcceptsIffActive(p, s.disabled, s.queue[i]);
  }

  // ---- progress ----

  /** The attempts the first deliveries may still take before they leave the queue. */
  function AttemptsLeft(p: Policy, queue: seq<Delivery>): nat {
    if queue == [] then 0
    else AttemptsLeft(p, Front(queue)) + Left(p, Last(queue))
  }

  function Left(p: Policy, d: Delivery): nat {
    if (d.status == Pending || d.status == Retrying) && d.attemptCount < p.maxAttempts
    then p.maxAttempts - d.attemptCount else 0
  }

  /** A scan at each of these times, with the answers it gets. */
  datatype Scan = Scan(now: real, answer: nat -> bool)

  function ScanAll(p: Policy, s: State, scans: seq<Scan>): State
    decreases |scans|
  {
    if scans == [] then s else ScanAll(p, Apply(p, s, Delivering(scans[0].now, scans[0].answer)), scans[1..])
  }

  /** A scan takes one attempt at least of each delivery it processes. */
  lemma {:induction false} AttemptsTaken(p: Policy, s: State, scan: Scan, n: nat)
    requires p.enabled && QueueOk(p, s.queue) && n <= |s.queue|
    ensures
      var after := Apply(p, s, Delivering(scan.now, scan.answer));
      && |after.queue| == |s.queue|
      && AttemptsLeft(p, after.queue[..n]) + UpToHundred(DueAmong(s.queue[..n], scan.now))
         <= AttemptsLeft(p, s.queue[..n])
  {
    var after := Apply(p, s, Delivering(scan.now, scan.answer));
    if n > 0 {
      assert Front(s.queue[..n]) == s.queue[..n - 1] && Front(after.queue[..n]) == after.queue[..n - 1];
      AttemptsTaken(p, s, scan, n - 1);
      ScanAttemptsIff(p, s, scan.now, scan.answer, n - 1);
      assert DeliveryOk(p, s.queue[n - 1]);
    }
  }

  /** No delivery starves: whatever the answers, a due delivery is attempted by one of as many
      scans as there are hundreds of attempts left before it, in the state it was in. */
  lemma {:induction false} ScansReach(p: Policy, s: State, scans: seq<Scan>, i: nat) returns (k: nat)
    requires p.enabled && p.maxAttempts >= 1 && QueueOk(p, s.queue) && i < |s.queue|
    requires forall j | 0 <= j < |scans| :: WaitsAt(s.queue[i], scans[j].now)
    requires |scans| * 100 > AttemptsLeft(p, s.queue[..i])
    ensures k < |scans|
    ensures
      var reached := ScanAll(p, s, scans[..k]).queue;
      i < |reached| && reached[i] == s.queue[i] && DueAmong(reached[..i], scans[k].now) < 100
    decreases |scans|
  {
    if DueAmong(s.queue[..i], scans[0].now) < 100 {
      assert scans[..0] == [];
      return 0;
    }
    var next := Apply(p, s, Delivering(scans[0].now, scans[0].answer));
    StepKeepsQueue(p, s, Delivering(scans[0].now, scans[0].answer));
    AttemptsTaken(p, s, scans[0], i);
    ScanAttemptsIff(p, s, scans[0].now, scans[0].answer, i);
    var j := ScansReach(p, next, scans[1..], i);
    assert scans[..j + 1][0] == scans[0] && scans[..j + 1][1..] == scans[1..][..j];
    return j + 1;
  }

  /** Until a time before which nothing that is rescheduled comes due again, each scan takes
      its hundred for good. */
  lemma {:induction false} DueTaken(p: Policy, s: State, scan: Scan, n: nat, until: real)
    requires p.enabled && QueueOk(p, s.queue) && n <= |s.queue|
    requires p.retryBase >= 0.0 && scan.now <= until < scan.now + Delay(p.retryBase, p.retryMax, 1)
    ensures
      var after := Apply(p, s, Delivering(scan.now, scan.answer));
      && |after.queue| == |s.queue|
      && DueAmong(after.queue[..n], until) + UpToHundred(DueAmong(s.queue[..n], scan.now))
         <= DueAmong(s.queue[..n], until)
  {
    var after := Apply(p, s, Delivering(scan.now, scan.answer));
    if n > 0 {
      var d := s.queue[n - 1];
      assert Front(s.queue[..n]) == s.queue[..n - 1] && Front(after.queue[..n]) == after.queue[..n - 1];
      DueTaken(p, s, scan, n - 1, until);
      ScanAttemptsIff(p, s, scan.now, scan.answer, n - 1);
      DelayMonotoneAndCapped(p.retryBase, p.retryMax, 1, d.attemptCount + 1);
    }
  }

  /** ... so that within such a time a due delivery is attempted by one of as many scans as
      there are hundreds due before it. */
  lemma {:induction false} ScansReachSoon(p: Policy, s: State, scans: seq<Scan>, i: nat, until: real) returns (k: nat)
    requires p.enabled && p.maxAttempts >= 1 && QueueOk(p, s.queue) && i < |s.queue| && p.retryBase >= 0.0
    requires forall j | 0 <= j < |scans| ::
      WaitsAt(s.queue[i], scans[j].now) && scans[j].now <= until < scans[j].now + Delay(p.retryBase, p.retryMax, 1)
    requires |scans| * 100 > DueAmong(s.queue[..i], until)
    ensures k < |scans|
    ensures
      var reached := ScanAll(p, s, scans[..k]).queue;
      i < |reached| && reached[i] == s.queue[i] && DueAmong(reached[..i], scans[k].now) < 100
    decreases |scans|
  {
    if DueAmong(s.queue[..i], scans[0].now) < 100 {
      assert scans[..0] == [];
      return 0;
    }
    var next := Apply(p, s, Delivering(scans[0].now, scans[0].answer));
    StepKeepsQueue(p, s, Delivering(scans[0].now, scans[0].answer));
    DueTaken(p, s, scans[0], i, until);
    ScanAttemptsIff(p, s, scans[0].now, scans[0].answer, i);
    var j := ScansReachSoon(p, next, scans[1..], i, until);
    assert scans[..j + 1][0] == scans[0] && scans[..j + 1][1..] == scans[1..][..j];
    return j + 1;
  }
}
