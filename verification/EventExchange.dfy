// The event exchange: subscribers, once-only events, and the reset on terminal events.
module EventExchange {
  import opened Relations
  import opened Events

  type Key = nat

  datatype Subscription = Subscription(key: Key, events: seq<Kind>)

  datatype Config = Config(allowOnce: seq<Kind>, resetOn: seq<Kind>)

  /** One call of a handler; `epoch` counts the resets before it. */
  datatype Delivery = Delivery(key: Key, event: Event, epoch: nat)

  /** `subscribers` and `handled` are the exchange's fields, `delivered` the calls made so far. */
  datatype Exchange = Exchange(subscribers: seq<Subscription>, handled: seq<(Key, Kind)>, epoch: nat, delivered: seq<Delivery>)

  const FRESH := Exchange([], [], 0, [])

  /** Assignment to a dict: an existing key keeps its place. */
  function Subscribed(subs: seq<Subscription>, s: Subscription): seq<Subscription> {
    if subs == [] then [s]
    else if subs[0].key == s.key then [s] + subs[1..]
    else [subs[0]] + Subscribed(subs[1..], s)
  }

  lemma {:induction false} SubscribedAt(subs: seq<Subscription>, s: Subscription, i: nat)
    requires i <= |subs| && forall k :: 0 <= k < i ==> subs[k].key != s.key
    ensures i == |subs| ==> Subscribed(subs, s) == subs + [s]
    ensures i < |subs| && subs[i].key == s.key ==> Subscribed(subs, s) == subs[i := s]
  {
    if i > 0 {
      SubscribedAt(subs[1..], s, i - 1);
    }
  }

  function Added(x: Exchange, s: Subscription): Exchange {
    x.(subscribers := Subscribed(x.subscribers, s))
  }

  function Cleared(x: Exchange): Exchange {
    x.(subscribers := [], handled := [], epoch := x.epoch + 1)
  }

  predicate Blocked(cfg: Config, x: Exchange, s: Subscription, e: Event) {
    e.kind in cfg.allowOnce && (s.key, e.kind) in x.handled
  }

  function Offered(x: Exchange, s: Subscription, e: Event): Exchange {
    x.(handled := x.handled + [(s.key, e.kind)],
       delivered := x.delivered + if e.kind in s.events then [Delivery(s.key, e, x.epoch)] else [])
  }

  /** One event offered to each of `subs` in turn; a subscriber that already had it ends the whole publication. */
  function OfferedAll(cfg: Config, x: Exchange, subs: seq<Subscription>, e: Event): (Exchange, bool)
    decreases |subs|
  {
    if subs == [] then (x, true)
    else if Blocked(cfg, x, subs[0], e) then (x, false)
    else OfferedAll(cfg, Offered(x, subs[0], e), subs[1..], e)
  }

  function PublishedFrom(cfg: Config, x: Exchange, events: seq<Event>, last: Event): Exchange
    decreases |events|
  {
    if events == [] then (if last.kind in cfg.resetOn then Cleared(x) else x)
    else
      var (y, through) := OfferedAll(cfg, x, x.subscribers, events[0]);
      if through then PublishedFrom(cfg, y, events[1..], last) else y
  }

  function Published(cfg: Config, x: Exchange, events: seq<Event>): Exchange
    requires |events| > 0
  {
    PublishedFrom(cfg, x, events, events[|events| - 1])
  }

  class EventExchange {
    const config: Config
    var subscribers: seq<Subscription>
    var handledEvents: seq<(Key, Kind)>
    ghost var epoch: nat
    ghost var delivered: seq<Delivery>

    ghost function Abs(): Exchange
      reads this
    {
      Exchange(subscribers, handledEvents, epoch, delivered)
    }

    constructor (config: Config)
      ensures Abs() == FRESH && this.config == config
    {
      this.config := config;
      subscribers, handledEvents, epoch, delivered := [], [], 0, [];
    }

    method AddSubscriber(s: Subscription)
      modifies this`subscribers
      ensures Abs() == Added(old(Abs()), s)
    {
      var i := 0;
      while i < |subscribers| && subscribers[i].key != s.key
        invariant 0 <= i <= |subscribers|
        invariant forall k :: 0 <= k < i ==> subscribers[k].key != s.key
      {
        i := i + 1;
      }
      SubscribedAt(subscribers, s, i);
      if i < |subscribers| {
        subscribers := subscribers[i := s];
      } else {
        subscribers := subscribers + [s];
      }
    }

    method Reset()
      modifies this
      ensures Abs() == Cleared(old(Abs()))
    {
      subscribers, handledEvents, epoch := [], [], epoch + 1;
    }

    method Publish(events: seq<Event>)
      requires |events| > 0
      modifies this
      ensures Abs() == Published(config, old(Abs()), events)
    {
      ghost var result := Published(config, Abs(), events);
      var last := events[|events| - 1];
      for k := 0 to |events|
        invariant PublishedFrom(config, Abs(), events[k..], last) == result
      {
        var e := events[k];
        assert events[k..][1..] == events[k + 1..];
        ghost var x := Abs();
        for i := 0 to |subscribers|
          invariant subscribers == x.subscribers
          invariant OfferedAll(config, Abs(), subscribers[i..], e) == OfferedAll(config, x, subscribers, e)
        {
          assert subscribers[i..][1..] == subscribers[i + 1..];
          var s := subscribers[i];
          assert Abs().delivered + [] == Abs().delivered;
          if e.kind in config.allowOnce && (s.key, e.kind) in handledEvents {
            return;
          }
          handledEvents := handledEvents + [(s.key, e.kind)];
          if e.kind in s.events {
            delivered := delivered + [Delivery(s.key, e, epoch)];
          }
        }
      }
      if last.kind in config.resetOn {
        Reset();
      }
    }
  }

  // Any use of the exchange.

  datatype Use = Subscribe(s: Subscription) | Publication(events: seq<Event>) | ResetNow

  predicate Proper(u: Use) {
    u.Publication? ==> |u.events| > 0
  }

  function Used(cfg: Config, x: Exchange, us: seq<Use>): Exchange
    requires forall i :: 0 <= i < |us| ==> Proper(us[i])
  {
    if us == [] then x
    else
      var y := Used(cfg, x, us[..|us| - 1]);
      assert Proper(us[|us| - 1]);
      match us[|us| - 1]
      case Subscribe(s) => Added(y, s)
      case Publication(events) => Published(cfg, y, events)
      case ResetNow => Cleared(y)
  }

  predicate SameOnce(cfg: Config, d: Delivery, d': Delivery) {
    d.event.kind in cfg.allowOnce && d.key == d'.key && d.event.kind == d'.event.kind && d.epoch == d'.epoch
  }

  /** Once-only events were not delivered twice within an epoch, and those of this epoch are remembered as handled. */
  ghost predicate OnceOnly(cfg: Config, x: Exchange) {
    && (forall i, j :: 0 <= i < j < |x.delivered| ==> !SameOnce(cfg, x.delivered[i], x.delivered[j]))
    && (forall d :: d in x.delivered ==> d.epoch <= x.epoch)
    && (forall d :: d in x.delivered && d.epoch == x.epoch ==> (d.key, d.event.kind) in x.handled)
    && KeysDiffer(x.subscribers)
  }

  ghost predicate KeysDiffer(subs: seq<Subscription>) {
    forall i, j :: 0 <= i < j < |subs| ==> subs[i].key != subs[j].key
  }

  lemma {:induction false} SubscribedKeys(subs: seq<Subscription>, s: Subscription)
    requires KeysDiffer(subs)
    ensures KeysDiffer(Subscribed(subs, s))
    ensures forall t :: t in Subscribed(subs, s) ==> t == s || t in subs
  {
    if subs != [] && subs[0].key != s.key {
      SubscribedKeys(subs[1..], s);
      var r := Subscribed(subs[1..], s);
      forall j | 0 <= j < |r| ensures r[j].key != subs[0].key {
        assert r[j] in r;
        if r[j] in subs[1..] {
          var k :| 0 <= k < |subs[1..]| && subs[1..][k] == r[j];
          assert subs[k + 1] == r[j];
        }
      }
    }
  }

  lemma {:induction false} OfferKeepsOnce(cfg: Config, x: Exchange, s: Subscription, e: Event)
    requires OnceOnly(cfg, x) && !Blocked(cfg, x, s, e)
    ensures OnceOnly(cfg, Offered(x, s, e))
  {
  }

  lemma {:induction false} OfferAllKeepsOnce(cfg: Config, x: Exchange, subs: seq<Subscription>, e: Event)
    requires OnceOnly(cfg, x)
    ensures OnceOnly(cfg, OfferedAll(cfg, x, subs, e).0)
    decreases |subs|
  {
    if subs != [] && !Blocked(cfg, x, subs[0], e) {
      OfferKeepsOnce(cfg, x, subs[0], e);
      OfferAllKeepsOnce(cfg, Offered(x, subs[0], e), subs[1..], e);
    }
  }

  lemma {:induction false} PublishKeepsOnce(cfg: Config, x: Exchange, events: seq<Event>, last: Event)
    requires OnceOnly(cfg, x)
    ensures OnceOnly(cfg, PublishedFrom(cfg, x, events, last))
    decreases |events|
  {
    if events != [] {
      OfferAllKeepsOnce(cfg, x, x.subscribers, events[0]);
      var (y, through) := OfferedAll(cfg, x, x.subscribers, events[0]);
      if through {
        PublishKeepsOnce(cfg, y, events[1..], last);
      }
    }
  }

  /** Whatever the configuration and the use, between two resets a subscriber is
      handed each once-only kind of event at most once. */
  lemma {:induction false} DeliveredAtMostOnce(cfg: Config, us: seq<Use>)
    requires forall i :: 0 <= i < |us| ==> Proper(us[i])
    ensures OnceOnly(cfg, Used(cfg, FRESH, us))
  {
    if us != [] {
      var n := |us| - 1;
      DeliveredAtMostOnce(cfg, us[..n]);
      var y := Used(cfg, FRESH, us[..n]);
      match us[n] {
        case Subscribe(s) => SubscribedKeys(y.subscribers, s);
        case Publication(events) =>
          assert Proper(us[n]);
          PublishKeepsOnce(cfg, y, events, events[|events| - 1]);
        case ResetNow =>
      }
    }
  }

  /** The calls owed for `e` to those of `subs` who registered for it, in registration order. */
  function Owed(subs: seq<Subscription>, e: Event, epoch: nat): seq<Delivery> {
    if subs == [] then []
    else (if e.kind in subs[0].events then [Delivery(subs[0].key, e, epoch)] else []) + Owed(subs[1..], e, epoch)
  }

  lemma {:induction false} OfferReachesAll(cfg: Config, x: Exchange, subs: seq<Subscription>, e: Event)
    requires KeysDiffer(subs)
    requires forall s :: s in subs ==> !Blocked(cfg, x, s, e)
    ensures var (y, through) := OfferedAll(cfg, x, subs, e);
      && through && y.delivered == x.delivered + Owed(subs, e, x.epoch)
      && y.subscribers == x.subscribers && y.epoch == x.epoch
      && (forall k, d :: (k, d) in y.handled ==> (k, d) in x.handled || d == e.kind)
    decreases |subs|
  {
    if subs != [] {
      var x1 := Offered(x, subs[0], e);
      forall s | s in subs[1..] ensures !Blocked(cfg, x1, s, e) && s in subs {
        var j :| 0 <= j < |subs[1..]| && subs[1..][j] == s;
        assert s == subs[j + 1] && s in subs && !Blocked(cfg, x, s, e);
      }
      OfferReachesAll(cfg, x1, subs[1..], e);
      var first := if e.kind in subs[0].events then [Delivery(subs[0].key, e, x.epoch)] else [];
      assert (x.delivered + first) + Owed(subs[1..], e, x.epoch) == x.delivered + (first + Owed(subs[1..], e, x.epoch));
    }
  }

  /** An event that may be handled repeatedly, or that nobody has handled since the
      last reset, reaches everyone registered for it exactly once, in registration order. */
  lemma {:induction false} PublicationReachesAll(cfg: Config, x: Exchange, e: Event)
    requires OnceOnly(cfg, x)
    requires e.kind !in cfg.allowOnce || forall s :: s in x.subscribers ==> (s.key, e.kind) !in x.handled
    ensures Published(cfg, x, [e]).delivered == x.delivered + Owed(x.subscribers, e, x.epoch)
    ensures e.kind !in cfg.resetOn ==> Published(cfg, x, [e]).subscribers == x.subscribers && Published(cfg, x, [e]).epoch == x.epoch
    ensures e.kind !in cfg.resetOn ==> forall k, d :: (k, d) in Published(cfg, x, [e]).handled ==> (k, d) in x.handled || d == e.kind
    ensures e.kind in cfg.resetOn ==> Published(cfg, x, [e]).subscribers == []
  {
    OfferReachesAll(cfg, x, x.subscribers, e);
    var (y, through) := OfferedAll(cfg, x, x.subscribers, e);
    assert [e][1..] == [];
    assert PublishedFrom(cfg, x, [e], e) == PublishedFrom(cfg, y, [], e);
  }

  lemma {:induction false} OfferStops(cfg: Config, x: Exchange, subs: seq<Subscription>, e: Event, i: nat)
    requires KeysDiffer(subs) && i < |subs| && Blocked(cfg, x, subs[i], e) && forall j :: 0 <= j < i ==> !Blocked(cfg, x, subs[j], e)
    ensures var (y, through) := OfferedAll(cfg, x, subs, e);
      && !through && y.delivered == x.delivered + Owed(subs[..i], e, x.epoch) && y.subscribers == x.subscribers && y.epoch == x.epoch
    decreases |subs|
  {
    if i > 0 {
      var x1 := Offered(x, subs[0], e);
      forall j | 0 < j <= i ensures Blocked(cfg, x1, subs[j], e) <==> Blocked(cfg, x, subs[j], e) {
        assert subs[j].key != subs[0].key;
      }
      OfferStops(cfg, x1, subs[1..], e, i - 1);
      assert subs[..i][0] == subs[0] && subs[..i][1..] == subs[1..][..i - 1];
      var first := if e.kind in subs[0].events then [Delivery(subs[0].key, e, x.epoch)] else [];
      assert x.delivered + (first + Owed(subs[1..][..i - 1], e, x.epoch)) == (x.delivered + first) + Owed(subs[1..][..i - 1], e, x.epoch);
    } else {
      assert x.delivered + [] == x.delivered;
    }
  }

  /** The first subscriber that already had a once-only event ends the publication:
      those before it are handed the event, nobody gets any event after it, and
      nothing is reset. */
  lemma {:induction false} PublicationStops(cfg: Config, x: Exchange, e: Event, rest: seq<Event>, i: nat)
    requires OnceOnly(cfg, x) && i < |x.subscribers| && Blocked(cfg, x, x.subscribers[i], e)
    requires forall j :: 0 <= j < i ==> !Blocked(cfg, x, x.subscribers[j], e)
    ensures var y := Published(cfg, x, [e] + rest);
      y.delivered == x.delivered + Owed(x.subscribers[..i], e, x.epoch) && y.subscribers == x.subscribers && y.epoch == x.epoch
  {
    OfferStops(cfg, x, x.subscribers, e, i);
    assert ([e] + rest)[0] == e;
  }

  /** The calls owed for several events, one event after the other. */
  function OwedEach(subs: seq<Subscription>, events: seq<Event>, epoch: nat): seq<Delivery> {
    if events == [] then [] else Owed(subs, events[0], epoch) + OwedEach(subs, events[1..], epoch)
  }

  lemma {:induction false} LastTurn(cfg: Config, x: Exchange, last: Event)
    ensures var y := PublishedFrom(cfg, x, [], last);
      && y.delivered == x.delivered
      && (if last.kind in cfg.resetOn then y.subscribers == [] && y.handled == [] && y.epoch == x.epoch + 1 else y == x)
  {
  }

  lemma {:induction false} TurnTaken(cfg: Config, x: Exchange, events: seq<Event>, last: Event) returns (y: Exchange)
    requires KeysDiffer(x.subscribers) && events != [] && events[0].kind !in cfg.allowOnce
    ensures PublishedFrom(cfg, x, events, last) == PublishedFrom(cfg, y, events[1..], last)
    ensures y.delivered == x.delivered + Owed(x.subscribers, events[0], x.epoch) && y.subscribers == x.subscribers && y.epoch == x.epoch
  {
    OfferReachesAll(cfg, x, x.subscribers, events[0]);
    y := OfferedAll(cfg, x, x.subscribers, events[0]).0;
    hide OfferedAll, Owed;
  }

  lemma {:induction false} TurnsTaken(cfg: Config, x: Exchange, events: seq<Event>, last: Event)
    requires KeysDiffer(x.subscribers) && forall e :: e in events ==> e.kind !in cfg.allowOnce
    ensures var y := PublishedFrom(cfg, x, events, last);
      && y.delivered == x.delivered + OwedEach(x.subscribers, events, x.epoch)
      && (if last.kind in cfg.resetOn then y.subscribers == [] && y.handled == [] && y.epoch == x.epoch + 1
          else y.subscribers == x.subscribers && y.epoch == x.epoch)
    decreases |events|
  {
    if events == [] {
      LastTurn(cfg, x, last);
      assert x.delivered + [] == x.delivered;
    } else {
      var y := TurnTaken(cfg, x, events, last);
      TurnsTaken(cfg, y, events[1..], last);
      hide PublishedFrom, Owed;
      assert (x.delivered + Owed(x.subscribers, events[0], x.epoch)) + OwedEach(x.subscribers, events[1..], x.epoch)
          == x.delivered + (Owed(x.subscribers, events[0], x.epoch) + OwedEach(x.subscribers, events[1..], x.epoch));
    }
  }

  /** Several events published at once reach the subscribers event by event, and the
      last event alone decides whether everything is forgotten. */
  lemma {:induction false} PublishesInTurn(cfg: Config, x: Exchange, events: seq<Event>)
    requires OnceOnly(cfg, x) && |events| > 0 && forall e :: e in events ==> e.kind !in cfg.allowOnce
    ensures var y := Published(cfg, x, events);
      && y.delivered == x.delivered + OwedEach(x.subscribers, events, x.epoch)
      && (if events[|events| - 1].kind in cfg.resetOn then y.subscribers == [] && y.handled == [] && y.epoch == x.epoch + 1
          else y.subscribers == x.subscribers && y.epoch == x.epoch)
  {
    TurnsTaken(cfg, x, events, events[|events| - 1]);
  }

  /** A publication that resets forgets who has handled what: whoever subscribes
      afterwards, under an old key or a new one, is handed the next event it
      registered for, terminal or not. */
  lemma {:induction false} HeardAfterReset(cfg: Config, x: Exchange, e: Event, s: Subscription, next: Event)
    requires OnceOnly(cfg, x) && e.kind in cfg.resetOn
    requires e.kind !in cfg.allowOnce || forall t :: t in x.subscribers ==> (t.key, e.kind) !in x.handled
    ensures var y := Published(cfg, x, [e]);
      && y.subscribers == [] && y.handled == []
      && Published(cfg, Added(y, s), [next]).delivered == y.delivered + if next.kind in s.events then [Delivery(s.key, next, y.epoch)] else []
  {
    OfferReachesAll(cfg, x, x.subscribers, e);
    PublishKeepsOnce(cfg, x, [e], e);
    var y := Published(cfg, x, [e]);
    var z := OfferedAll(cfg, x, x.subscribers, e).0;
    assert [e][1..] == [];
    assert PublishedFrom(cfg, x, [e], e) == PublishedFrom(cfg, z, [], e) == Cleared(z);
    PublicationReachesAll(cfg, Added(y, s), next);
    assert [s][1..] == [];
    assert Owed([s], next, y.epoch) == (if next.kind in s.events then [Delivery(s.key, next, y.epoch)] else []) + Owed([], next, y.epoch);
  }
}
