/**
 The event manager: listener lists per key, one sender per component, and the routing of one
 received event to everything subscribed for it.
 */
module EventRouting {
  import opened Sorting
  import opened Wrappers

  type ComponentId = nat

  /** A 32-bit event: two bits of severity, fourteen of group id, sixteen of unique id. */
  datatype Event = Event(severity: nat, group: nat, unique: nat)

  predicate WellFormed(e: Event) {
    e.severity < 4 && e.group < 0x4000 && e.unique < 0x1_0000
  }

  /** `(severity << 30) | (group_id << 16) | unique_id`. */
  function Raw(e: Event): nat {
    e.severity * 0x4000_0000 + e.group * 0x1_0000 + e.unique
  }

  lemma RawIsMonotone(a: Event, b: Event)
    requires WellFormed(a) && WellFormed(b)
    ensures a.severity < b.severity ==> Raw(a) < Raw(b)
    ensures a.severity == b.severity && a.group < b.group ==> Raw(a) < Raw(b)
  {
    assert a.group * 0x1_0000 + a.unique < 0x4000_0000;
  }

  /** A raw value names one event only, so a single-event subscription matches nothing else. */
  lemma RawIsInjective(a: Event, b: Event)
    requires WellFormed(a) && WellFormed(b)
    ensures Raw(a) == Raw(b) <==> a == b
  {
    RawIsMonotone(a, b);
    RawIsMonotone(b, a);
  }

  datatype ListenerKey = Single(raw: nat) | Group(id: nat) | All

  datatype Sender = Sender(targetId: ComponentId)

  datatype RoutingError = SendFailed(to: ComponentId) | NoSenderForId(id: ComponentId)

  type Listeners = map<ListenerKey, seq<ComponentId>>

  function ListFor(listeners: Listeners, key: ListenerKey): seq<ComponentId> {
    if key in listeners then listeners[key] else []
  }

  /** Everything subscribed for an event: its own list, its group's list and the list for all. */
  function Recipients(listeners: Listeners, e: Event): seq<ComponentId> {
    ListFor(listeners, Single(Raw(e))) + ListFor(listeners, Group(e.group)) + ListFor(listeners, All)
  }

  // ------------------------------------------------------ what routing does

  /** Outcome of routing to a list of ids: the ids served, and the errors handed to the callback. */
  datatype Routed = Routed(delivered: seq<ComponentId>, errors: seq<RoutingError>)

  /** `accepts(id, k)`: whether the sender for `id` takes the `k`-th message sent in this call. */
  function Step(r: Routed, id: ComponentId, senders: map<ComponentId, Sender>,
                accepts: (ComponentId, nat) -> bool): Routed {
    if id !in senders || senders[id].targetId != id then r.(errors := r.errors + [NoSenderForId(id)])
    else if accepts(id, |r.delivered| + |r.errors|) then r.(delivered := r.delivered + [id])
    else r.(errors := r.errors + [SendFailed(id)])
  }

  function RouteTo(ids: seq<ComponentId>, senders: map<ComponentId, Sender>,
                   accepts: (ComponentId, nat) -> bool): Routed {
    if ids == [] then Routed([], [])
    else Step(RouteTo(ids[..|ids| - 1], senders, accepts), ids[|ids| - 1], senders, accepts)
  }

  predicate Reachable(senders: map<ComponentId, Sender>, id: ComponentId) {
    id in senders && senders[id].targetId == id
  }

  /** Nothing is lost: every listed id is either served or reported to the error handler. */
  lemma {:induction false} RoutingConserves(ids: seq<ComponentId>, senders: map<ComponentId, Sender>,
                                            accepts: (ComponentId, nat) -> bool)
    ensures var r := RouteTo(ids, senders, accepts); |r.delivered| + |r.errors| == |ids|
  {
    if ids != [] {
      RoutingConserves(ids[..|ids| - 1], senders, accepts);
    }
  }

  /** All that happened for one id: its copies, its failed sends and its missing senders. */
  function Tally(r: Routed, id: ComponentId): nat {
    multiset(r.delivered)[id] + multiset(r.errors)[SendFailed(id)] + multiset(r.errors)[NoSenderForId(id)]
  }

  lemma StepTally(r: Routed, to: ComponentId, senders: map<ComponentId, Sender>, accepts: (ComponentId, nat) -> bool,
                  id: ComponentId)
    ensures Tally(Step(r, to, senders, accepts), id) == Tally(r, id) + if to == id then 1 else 0
  {
  }

  lemma NothingTallied(id: ComponentId)
    ensures Tally(Routed([], []), id) == 0
  {
  }

  /** Per id: copies and errors add up to its occurrences. */
  lemma {:induction false} CopiesPerId(ids: seq<ComponentId>, senders: map<ComponentId, Sender>,
                                       accepts: (ComponentId, nat) -> bool,
                                       id: ComponentId)
    ensures Tally(RouteTo(ids, senders, accepts), id) == multiset(ids)[id]
  {
    hide Step, Tally;
    if ids == [] {
      NothingTallied(id);
    } else {
      CopiesPerId(ids[..|ids| - 1], senders, accepts, id);
      StepTally(RouteTo(ids[..|ids| - 1], senders, accepts), ids[|ids| - 1], senders, accepts, id);
      assert ids == ids[..|ids| - 1] + [ids[|ids| - 1]];
    }
  }

  /** A missing sender is reported at every occurrence of an id that has none, and at no other. */
  lemma {:induction false} MissingSenders(ids: seq<ComponentId>, senders: map<ComponentId, Sender>,
                                          accepts: (ComponentId, nat) -> bool,
                                          id: ComponentId)
    ensures multiset(RouteTo(ids, senders, accepts).errors)[NoSenderForId(id)] ==
      if Reachable(senders, id) then 0 else multiset(ids)[id]
  {
    hide Step;
    if ids != [] {
      var init, last := ids[..|ids| - 1], ids[|ids| - 1];
      MissingSenders(init, senders, accepts, id);
      StepMissing(RouteTo(init, senders, accepts), last, senders, accepts, id);
      assert ids == init + [last];
    }
  }

  lemma StepMissing(r: Routed, to: ComponentId, senders: map<ComponentId, Sender>,
                    accepts: (ComponentId, nat) -> bool, id: ComponentId)
    ensures multiset(Step(r, to, senders, accepts).errors)[NoSenderForId(id)] ==
      multiset(r.errors)[NoSenderForId(id)] + if to == id && !Reachable(senders, id) then 1 else 0
  {
  }

  /**
   What happens to the `i`-th listed id depends on that id and place alone: it is served exactly if
   it has a sender that then accepts, a failed send is reported exactly if it has one that does not,
   and a missing sender otherwise. Earlier ids keep their outcome.
   */
  lemma OutcomePerPlace(ids: seq<ComponentId>, senders: map<ComponentId, Sender>,
                        accepts: (ComponentId, nat) -> bool, i: nat)
    requires i < |ids|
    ensures var before, after := RouteTo(ids[..i], senders, accepts), RouteTo(ids[..i + 1], senders, accepts);
      var id := ids[i];
      && after.delivered == before.delivered + (if Reachable(senders, id) && accepts(id, i) then [id] else [])
      && after.errors == before.errors +
           (if !Reachable(senders, id) then [NoSenderForId(id)] else if accepts(id, i) then [] else [SendFailed(id)])
  {
    assert ids[..i + 1][..i] == ids[..i];
    RoutingConserves(ids[..i], senders, accepts);
  }

  /** The places at which `id` is listed and has a sender that accepts, or one that does not. */
  function PlacesOf(ids: seq<ComponentId>, senders: map<ComponentId, Sender>, accepts: (ComponentId, nat) -> bool,
                    id: ComponentId, accepted: bool): set<nat> {
    set i: nat | i < |ids| && ids[i] == id && Reachable(senders, id) && accepts(id, i) == accepted
  }

  /** An id gets one copy for each place where its sender accepts, and one report where it refuses. */
  lemma {:induction false} CopiesAreAccepted(ids: seq<ComponentId>, senders: map<ComponentId, Sender>,
                                             accepts: (ComponentId, nat) -> bool, id: ComponentId)
    ensures var r := RouteTo(ids, senders, accepts);
      && multiset(r.delivered)[id] == |PlacesOf(ids, senders, accepts, id, true)|
      && multiset(r.errors)[SendFailed(id)] == |PlacesOf(ids, senders, accepts, id, false)|
  {
    hide RouteTo;
    if ids == [] {
      assert RouteTo(ids, senders, accepts) == Routed([], []) by {
        RouteNone(senders, accepts);
      }
    } else {
      var n := |ids| - 1;
      assert ids[..n + 1] == ids;
      CopiesAreAccepted(ids[..n], senders, accepts, id);
      OutcomePerPlace(ids, senders, accepts, n);
      PlacesGrow(ids, senders, accepts, id, true);
      PlacesGrow(ids, senders, accepts, id, false);
    }
  }

  lemma RouteNone(senders: map<ComponentId, Sender>, accepts: (ComponentId, nat) -> bool)
    ensures RouteTo([], senders, accepts) == Routed([], [])
  {
  }

  lemma PlacesGrow(ids: seq<ComponentId>, senders: map<ComponentId, Sender>, accepts: (ComponentId, nat) -> bool,
                   id: ComponentId, accepted: bool)
    requires ids != []
    ensures var n := |ids| - 1;
      |PlacesOf(ids, senders, accepts, id, accepted)| == |PlacesOf(ids[..n], senders, accepts, id, accepted)| +
        if ids[n] == id && Reachable(senders, id) && accepts(id, n) == accepted then 1 else 0
  {
    var n := |ids| - 1;
    var before := PlacesOf(ids[..n], senders, accepts, id, accepted);
    var after := PlacesOf(ids, senders, accepts, id, accepted);
    if ids[n] == id && Reachable(senders, id) && accepts(id, n) == accepted {
      assert after == before + {n} && n !in before;
    } else {
      assert after == before;
    }
  }

  /** A sender that always refuses, or always accepts, settles all places of its id. */
  lemma OneSided(ids: seq<ComponentId>, senders: map<ComponentId, Sender>, accepts: (ComponentId, nat) -> bool,
                 id: ComponentId, accepted: bool)
    requires forall k :: accepts(id, k) == accepted
    ensures PlacesOf(ids, senders, accepts, id, !accepted) == {}
  {
  }

  lemma {:induction false} RouteConcat(a: seq<ComponentId>, id: ComponentId, senders: map<ComponentId, Sender>,
                                       accepts: (ComponentId, nat) -> bool)
    ensures RouteTo(a + [id], senders, accepts) == Step(RouteTo(a, senders, accepts), id, senders, accepts)
  {
    assert (a + [id])[..|a|] == a;
  }

  // -------------------------------------------------------------- the class

  class EventManager {
    var listeners: Listeners
    var senders: map<ComponentId, Sender>

    constructor ()
      ensures listeners == map[] && senders == map[]
    {
      listeners := map[];
      senders := map[];
    }

    method AddListener(key: ListenerKey, id: ComponentId)
      modifies this`listeners
      ensures Follows(old(listeners), Subscribe(key, id), listeners)
    {
      if key in listeners {
        listeners := listeners[key := listeners[key] + [id]];
      } else {
        assert [] + [id] == [id];
        listeners := listeners[key := [id]];
      }
    }

    /** A second sender for the same target is ignored. */
    method AddSender(sender: Sender)
      modifies this`senders
      ensures senders == if sender.targetId in old(senders) then old(senders)
        else old(senders)[sender.targetId := sender]
      ensures (forall id | id in old(senders) :: Reachable(old(senders), id)) ==> forall id | id in senders ::
        Reachable(senders, id)
    {
      if sender.targetId !in senders {
        senders := senders[sender.targetId := sender];
      }
    }

    /** Leave one occurrence of every id that is subscribed under the key. */
    method RemoveDuplicates(key: ListenerKey)
      modifies this`listeners
      ensures Follows(old(listeners), ListenerOp.RemoveDuplicates(key), listeners)
    {
      if key in listeners {
        var sorted := SortBy(listeners[key], (id: ComponentId) => id);
        var unique := Dedup(sorted);
        assert forall id :: id in sorted <==> id in multiset(sorted);
        assert forall id :: id in listeners[key] <==> id in multiset(listeners[key]);
        listeners := listeners[key := unique];
      }
    }

    /** The inner handler: send to every id of one key's list, counting what was taken. */
    method SendToKey(key: ListenerKey, accepts: (ComponentId, nat) -> bool, numRecipients: nat,
                     ghost before: seq<ComponentId>, r: Routed)
      returns (num': nat, r': Routed)
      requires r == RouteTo(before, senders, accepts) && numRecipients == |r.delivered|
      ensures r' == RouteTo(before + ListFor(listeners, key), senders, accepts) && num' == |r'.delivered|
    {
      hide RouteTo;
      num', r' := numRecipients, r;
      assert before + [] == before;
      if key in listeners {
        var ids := listeners[key];
        for i := 0 to |ids|
          invariant r' == RouteTo(before + ids[..i], senders, accepts) && num' == |r'.delivered|
        {
          RouteConcat(before + ids[..i], ids[i], senders, accepts);
          assert before + ids[..i] + [ids[i]] == before + ids[..i + 1];
          if ids[i] in senders && senders[ids[i]].targetId == ids[i] {
            if accepts(ids[i], |r'.delivered| + |r'.errors|) {
              r' := r'.(delivered := r'.delivered + [ids[i]]);
              num' := num' + 1;
            } else {
              r' := r'.(errors := r'.errors + [SendFailed(ids[i])]);
            }
          } else {
            r' := r'.(errors := r'.errors + [NoSenderForId(ids[i])]);
          }
        }
        assert ids[..|ids|] == ids;
      }
    }

    /** Route one received event; `None` for the count means that nothing was received. */
    method TryEventHandling(received: Option<Event>, accepts: (ComponentId, nat) -> bool)
      returns (num: Option<nat>, r: Routed)
      ensures received.None? ==> num.None? && r == Routed([], [])
      ensures received.Some? ==>
        && r == RouteTo(Recipients(listeners, received.value), senders, accepts)
        && num == Some(|r.delivered|)
        && |r.delivered| + |r.errors| == |Recipients(listeners, received.value)|
    {
      r := Routed([], []);
      if received.None? {
        return None, r;
      }
      var e := received.value;
      var n := 0;
      n, r := SendToKey(Single(Raw(e)), accepts, n, [], r);
      n, r := SendToKey(Group(e.group), accepts, n, [] + ListFor(listeners, Single(Raw(e))), r);
      n, r := SendToKey(All, accepts, n,
        [] + ListFor(listeners, Single(Raw(e))) + ListFor(listeners, Group(e.group)), r);
      assert [] + ListFor(listeners, Single(Raw(e))) + ListFor(listeners, Group(e.group)) + ListFor(listeners, All)
        == Recipients(listeners, e);
      RoutingConserves(Recipients(listeners, e), senders, accepts);
      return Some(n), r;
    }
  }

  // --------------------------------------------------- sort and deduplicate

  ghost predicate Ascending(s: seq<ComponentId>) {
    forall i, j | 0 <= i < j < |s| :: s[i] <= s[j]
  }

  ghost predicate StrictlyAscending(s: seq<ComponentId>) {
    forall i, j | 0 <= i < j < |s| :: s[i] < s[j]
  }

  /** `dedup`: drop every entry equal to the one before it. */
  method Dedup(s: seq<ComponentId>) returns (r: seq<ComponentId>)
    requires Ascending(s)
    ensures StrictlyAscending(r) && forall x :: x in r <==> x in s
  {
    r := [];
    for n := 0 to |s|
      invariant StrictlyAscending(r)
      invariant forall x :: x in r <==> x in s[..n]
      invariant n > 0 ==> |r| > 0 && r[|r| - 1] == s[n - 1]
      invariant n > 0 ==> forall i | 0 <= i < |r| :: r[i] <= s[n - 1]
      invariant n == 0 ==> r == []
    {
      assert s[..n + 1] == s[..n] + [s[n]];
      if |r| == 0 || r[|r| - 1] != s[n] {
        assert n > 0 ==> s[n - 1] < s[n];
        r := r + [s[n]];
      }
    }
    assert s[..|s|] == s;
  }

  // -------------------------------------------------------- listener histories

  datatype ListenerOp = Subscribe(key: ListenerKey, id: ComponentId) | RemoveDuplicates(key: ListenerKey)

  /** What one operation makes of the listener map. */
  ghost predicate Follows(before: Listeners, op: ListenerOp, after: Listeners) {
    match op
    case Subscribe(key, id) => after == before[key := ListFor(before, key) + [id]]
    case RemoveDuplicates(key) =>
      && after.Keys == before.Keys
      && (forall k | k in after && k != key :: after[k] == before[k])
      && (key in after ==> StrictlyAscending(after[key]) && forall id :: id in after[key] <==> id in before[key])
  }

  /** The listener maps of an event manager while it goes through the given operations. */
  ghost predicate IsHistory(states: seq<Listeners>, ops: seq<ListenerOp>) {
    && |states| == |ops| + 1 && states[0] == map[]
    && forall i | 0 <= i < |ops| :: Follows(states[i], ops[i], states[i + 1])
  }

  /** How many copies the operations entitle `id` to under one key. */
  function CopiesDue(ops: seq<ListenerOp>, key: ListenerKey, id: ComponentId): nat {
    if ops == [] then 0
    else
      var due, op := CopiesDue(ops[..|ops| - 1], key, id), ops[|ops| - 1];
      if op.key != key then due
      else if op.RemoveDuplicates? then (if due > 0 then 1 else 0)
      else if op.id == id then due + 1 else due
  }

  /** How often `id` is listed under `key`. */
  function Listed(listeners: Listeners, key: ListenerKey, id: ComponentId): nat {
    multiset(ListFor(listeners, key))[id]
  }

  lemma {:induction false} OnceWhenAscending(s: seq<ComponentId>, id: ComponentId)
    requires StrictlyAscending(s)
    ensures multiset(s)[id] == if id in s then 1 else 0
  {
    if s != [] {
      var init, last := s[..|s| - 1], s[|s| - 1];
      OnceWhenAscending(init, id);
      assert s == init + [last];
    }
  }

  lemma FollowedListing(before: Listeners, op: ListenerOp, after: Listeners, key: ListenerKey, id: ComponentId)
    requires Follows(before, op, after)
    ensures Listed(after, key, id) ==
      if op.key != key then Listed(before, key, id)
      else if op.RemoveDuplicates? then (if Listed(before, key, id) > 0 then 1 else 0)
      else Listed(before, key, id) + if op.id == id then 1 else 0
  {
    if op == ListenerOp.RemoveDuplicates(key) && key in after {
      OnceWhenAscending(after[key], id);
      assert id in before[key] <==> id in multiset(before[key]);
    }
  }

  /** After any history, an id is listed under a key as often as the history entitles it to. */
  lemma {:induction false} ListedFollowsHistory(states: seq<Listeners>, ops: seq<ListenerOp>, n: nat, key: ListenerKey,
                                                id: ComponentId)
    requires IsHistory(states, ops) && n <= |ops|
    ensures Listed(states[n], key, id) == CopiesDue(ops[..n], key, id)
  {
    hide Follows, Listed, CopiesDue;
    if n == 0 {
      NothingDue(key, id);
    } else {
      ListedFollowsHistory(states, ops, n - 1, key, id);
      FollowedListing(states[n - 1], ops[n - 1], states[n], key, id);
      DueAfter(ops[..n - 1], ops[n - 1], key, id);
      assert ops[..n] == ops[..n - 1] + [ops[n - 1]];
    }
  }

  lemma NothingDue(key: ListenerKey, id: ComponentId)
    ensures Listed(map[], key, id) == 0 && CopiesDue([], key, id) == 0
  {
  }

  lemma DueAfter(ops: seq<ListenerOp>, op: ListenerOp, key: ListenerKey, id: ComponentId)
    ensures var due := CopiesDue(ops, key, id);
      CopiesDue(ops + [op], key, id) ==
        if op.key != key then due
        else if op.RemoveDuplicates? then (if due > 0 then 1 else 0)
        else due + if op.id == id then 1 else 0
  {
    assert (ops + [op])[..|ops|] == ops;
  }

  /** The copies of an event due to `id`: those under its own key, its group's and the one for all. */
  function CopiesOf(ops: seq<ListenerOp>, e: Event, id: ComponentId): nat {
    CopiesDue(ops, Single(Raw(e)), id) + CopiesDue(ops, Group(e.group), id) + CopiesDue(ops, All, id)
  }

  lemma CountRecipients(listeners: Listeners, e: Event, id: ComponentId)
    ensures multiset(Recipients(listeners, e))[id] ==
      Listed(listeners, Single(Raw(e)), id) + Listed(listeners, Group(e.group), id) + Listed(listeners, All, id)
  {
  }

  /**
   For any history of subscriptions and deduplications and any event, a component whose sender
   is registered and accepts gets exactly one copy per matching subscription left under each of
   the three keys. If its sender refuses it gets none, and the error handler is told as often; the
   same if it has no sender.
   */
  lemma CopiesFollowSubscriptions(states: seq<Listeners>, ops: seq<ListenerOp>, senders: map<ComponentId, Sender>,
                                  accepts: (ComponentId, nat) -> bool, e: Event, id: ComponentId)
    requires IsHistory(states, ops)
    ensures var r := RouteTo(Recipients(states[|ops|], e), senders, accepts); var due := CopiesOf(ops, e, id);
      && (Reachable(senders, id) && (forall k :: accepts(id, k)) ==>
            multiset(r.delivered)[id] == due && multiset(r.errors)[SendFailed(id)] == 0)
      && (Reachable(senders, id) && (forall k :: !accepts(id, k)) ==>
            multiset(r.delivered)[id] == 0 && multiset(r.errors)[SendFailed(id)] == due)
      && (!Reachable(senders, id) ==> multiset(r.delivered)[id] == 0 && multiset(r.errors)[NoSenderForId(id)] == due)
  {
    hide RouteTo, Recipients, CopiesDue, PlacesOf;
    assert ops[..|ops|] == ops;
    ListedFollowsHistory(states, ops, |ops|, Single(Raw(e)), id);
    ListedFollowsHistory(states, ops, |ops|, Group(e.group), id);
    ListedFollowsHistory(states, ops, |ops|, All, id);
    CountRecipients(states[|ops|], e, id);
    var ids := Recipients(states[|ops|], e);
    CopiesPerId(ids, senders, accepts, id);
    MissingSenders(ids, senders, accepts, id);
    CopiesAreAccepted(ids, senders, accepts, id);
    if forall k :: accepts(id, k) {
      OneSided(ids, senders, accepts, id, true);
    }
    if forall k :: !accepts(id, k) {
      OneSided(ids, senders, accepts, id, false);
    }
  }
}
