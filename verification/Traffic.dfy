/**
The traffic counters behind the dynamic speed limit (node/controller.go). A counter is a 64-bit
number, and a counter map that was never made reads as an empty one.
*/
module Traffic {
  import opened Int64
  import opened Ordering

  type Counters = map<string, int>

  /** Threshold settings: consuming does nothing unless limiting is enabled with a positive threshold. */
  datatype Settings = Settings(enabled: bool, threshold: int) {
    predicate Active() {
      enabled && threshold > 0
    }
  }

  function AfterAdd(t: Counters, uuid: string, traffic: int): Counters {
    if traffic <= 0 then t else t[uuid := Wrap64((if uuid in t then t[uuid] else 0) + traffic)]
  }

  predicate Reaches(t: Counters, c: Settings, uuid: string) {
    c.Active() && uuid in t && t[uuid] >= c.threshold
  }

  function AfterConsume(t: Counters, c: Settings): Counters {
    map uuid | uuid in t && !Reaches(t, c, uuid) :: t[uuid]
  }

  function Consumed(t: Counters, c: Settings): Counters {
    map uuid | uuid in t && Reaches(t, c, uuid) :: t[uuid]
  }

  class TrafficTable {
    const settings: Settings
    var traffic: Counters

    constructor (settings: Settings)
      ensures this.settings == settings && traffic == map[]
    {
      this.settings := settings;
      traffic := map[];
    }

    method ResetTraffic()
      modifies this
      ensures traffic == map[]
    {
      traffic := map[];
    }

    method AddTraffic(uuid: string, amount: int)
      modifies this
      ensures traffic == AfterAdd(old(traffic), uuid, amount)
    {
      if amount <= 0 {
        return;
      }
      if uuid in traffic {
        traffic := traffic[uuid := Wrap64(traffic[uuid] + amount)];
      } else {
        traffic := traffic[uuid := Wrap64(amount)];
      }
    }

    method DeleteTraffic(uuid: string)
      modifies this
      ensures traffic == old(traffic) - {uuid}
    {
      traffic := traffic - {uuid};
    }

    /** Returns and forgets the users at or above the threshold, walking the map in any order. */
    method ConsumeDynamicSpeedLimitUsers() returns (matched: seq<string>)
      modifies this
      ensures forall uuid :: uuid in matched <==> Reaches(old(traffic), settings, uuid)
      ensures Distinct(matched)
      ensures traffic == AfterConsume(old(traffic), settings)
    {
      matched := [];
      if !settings.enabled || settings.threshold <= 0 {
        assert traffic == AfterConsume(traffic, settings);
        return;
      }
      var pending := traffic.Keys;
      while pending != {}
        invariant pending <= traffic.Keys <= old(traffic).Keys && Distinct(matched)
        invariant forall uuid :: uuid in matched <==> Reaches(old(traffic), settings, uuid) && uuid !in pending
        invariant forall uuid :: uuid in old(traffic) ==> (uuid in traffic <==> uuid !in matched)
        invariant forall uuid :: uuid in traffic ==> traffic[uuid] == old(traffic)[uuid]
        decreases pending
      {
        var uuid :| uuid in pending;
        pending := pending - {uuid};
        if traffic[uuid] >= settings.threshold {
          matched := matched + [uuid];
          traffic := traffic - {uuid};
        }
      }
      assert traffic == AfterConsume(old(traffic), settings);
    }
  }

  // ---------- conservation ----------

  ghost function Total(t: Counters): int {
    if t == map[] then 0
    else
      var k :| k in t;
      t[k] + Total(t - {k})
  }

  lemma {:induction false} TotalRemove(t: Counters, k: string)
    requires k in t
    ensures Total(t) == t[k] + Total(t - {k})
    decreases t
  {
    var first :| first in t && Total(t) == t[first] + Total(t - {first});
    if first != k {
      TotalRemove(t - {first}, k);
      TotalRemove(t - {k}, first);
      assert t - {first} - {k} == t - {k} - {first};
    }
  }

  lemma {:induction false} TotalSplits(t: Counters, a: Counters, b: Counters)
    requires a.Keys !! b.Keys && t == a + b
    ensures Total(t) == Total(a) + Total(b)
    decreases t
  {
    if a == map[] {
      assert t == b;
    } else {
      var k :| k in a;
      TotalRemove(t, k);
      TotalRemove(a, k);
      TotalSplits(t - {k}, a - {k}, b);
    }
  }

  /** What a consume returns and what it leaves add up to what there was. */
  lemma ConsumeConserves(t: Counters, c: Settings)
    ensures Total(t) == Total(Consumed(t, c)) + Total(AfterConsume(t, c))
    ensures c.Active() ==> forall uuid :: uuid in AfterConsume(t, c) ==> AfterConsume(t, c)[uuid] < c.threshold
  {
    assert t == Consumed(t, c) + AfterConsume(t, c);
    TotalSplits(t, Consumed(t, c), AfterConsume(t, c));
  }

  // ---------- the window ----------

  datatype Event = Add(uuid: string, amount: int) | Delete(uuid: string) | Reset | Consume

  function Run(c: Settings, es: seq<Event>): Counters {
    if es == [] then map[]
    else
      var t := Run(c, es[..|es| - 1]);
      match es[|es| - 1]
      case Add(uuid, amount) => AfterAdd(t, uuid, amount)
      case Delete(uuid) => t - {uuid}
      case Reset => map[]
      case Consume => AfterConsume(t, c)
  }

  /** A consume takes a user whose window adds up to the threshold, when limiting is on and a threshold is set. */
  predicate MeetsThreshold(c: Settings, window: seq<int>) {
    c.enabled && c.threshold > 0 && window != [] && Wrap64(Sum(window)) >= c.threshold
  }

  /** The positive amounts added for a user since the last consume that took it, delete or reset. */
  function Window(c: Settings, es: seq<Event>, uuid: string): seq<int> {
    if es == [] then []
    else
      var before := es[..|es| - 1];
      match es[|es| - 1]
      case Add(u, amount) => Window(c, before, uuid) + if u == uuid && amount > 0 then [amount] else []
      case Delete(u) => if u == uuid then [] else Window(c, before, uuid)
      case Reset => []
      case Consume => if MeetsThreshold(c, Window(c, before, uuid)) then [] else Window(c, before, uuid)
  }

  function Sum(xs: seq<int>): int {
    if xs == [] then 0 else Sum(xs[..|xs| - 1]) + xs[|xs| - 1]
  }

  /**
  Over any run a user has a counter exactly when something was added in its window, and the
  counter is the 64-bit sum of that window; a consume would take it exactly when that sum meets the threshold.
  */
  lemma {:induction false} CounterIsWindowSum(c: Settings, es: seq<Event>, uuid: string)
    ensures uuid in Run(c, es) <==> Window(c, es, uuid) != []
    ensures uuid in Run(c, es) ==> Run(c, es)[uuid] == Wrap64(Sum(Window(c, es, uuid)))
    ensures Reaches(Run(c, es), c, uuid) <==> MeetsThreshold(c, Window(c, es, uuid))
  {
    if es == [] {
    } else {
      var (before, e) := (es[..|es| - 1], es[|es| - 1]);
      CounterIsWindowSum(c, before, uuid);
      var w := Window(c, before, uuid);
      assert w + [] == w;
      if e.Add? && e.uuid == uuid && e.amount > 0 {
        assert (w + [e.amount])[..|w|] == w;
        WrapAdds(Sum(w), e.amount);
      }
    }
  }
}
