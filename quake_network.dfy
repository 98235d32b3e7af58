// The crowd-sensing earthquake network of the client (echoaid-app/src/EarthquakeEventNetwork.jsx):
// phones report shaking with a location cell, and an alert is raised for a cell once enough
// distinct devices have reported strong enough shaking there within a short window. Times are
// integer milliseconds; the clock is a parameter.

module QuakeNetwork {
  import opened Wrappers
  import opened Seqs

  /** A shaking report as stored. */
  datatype Event = Event(timestamp: int, cellId: string, intensity: real, deviceId: string,
                         features: map<string, real>)

  /** A raised alert. */
  datatype Alert = Alert(timestamp: int, cellId: string, deviceCount: nat, avgIntensity: real,
                         maxIntensity: real, devices: seq<string>, status: string, confidence: real)

  /** The thresholds: devices needed, window, minimum intensity and per-cell cooldown. */
  datatype Config = Config(nDevices: int, tWindow: int, minIntensity: real, alertCooldown: int)

  /** A partial configuration: only the supplied fields override. */
  datatype ConfigPatch = ConfigPatch(nDevices: Option<int>, tWindow: Option<int>,
                                     minIntensity: Option<real>, alertCooldown: Option<int>)

  /** Per-cell figures of getStats. */
  datatype CellStat = CellStat(count: nat, devices: seq<string>, avgIntensity: real, maxIntensity: real)

  /** getStats. */
  datatype Stats = Stats(totalEvents: nat, totalAlerts: nat, activeDevices: nat, cellStats: map<string, CellStat>)

  const DEFAULT_CONFIG := Config(3, 4000, 2.0, 10000)
  /** Events older than this are dropped when a report arrives. */
  const EVENT_RETENTION := 10000
  /** Alerts older than this are dropped when an alert is raised. */
  const ALERT_RETENTION := 60000
  /** A device is active if it reported within this time. */
  const DEVICE_TIMEOUT := 30000
  const STATS_WINDOW := 60000

  // ---------------------------------------------------------------------------------------
  // Sequence helpers (new Set(...), reduce, Math.max)

  /** The distinct elements in order of first appearance (Array.from(new Set(xs))). */
  function Dedup(xs: seq<string>): seq<string>
    decreases |xs|
  {
    if xs == [] then []
    else
      var n := |xs| - 1;
      var d := Dedup(xs[..n]);
      if xs[n] in d then d else d + [xs[n]]
  }

  /** Dedup keeps every element once: its length is the number of distinct elements. */
  lemma {:induction false} DedupSpec(xs: seq<string>)
    ensures forall x :: x in Dedup(xs) <==> x in xs
    ensures Distinct(Dedup(xs))
    ensures |Dedup(xs)| == |set x | x in xs|
    ensures |Dedup(xs)| <= |xs|
    decreases |xs|
  {
    if xs != [] {
      var n := |xs| - 1;
      DedupSpec(xs[..n]);
      assert xs == xs[..n] + [xs[n]];
      assert (set x | x in xs) == (set x | x in xs[..n]) + {xs[n]};
      DistinctCard(Dedup(xs));
    }
  }

  function DeviceIds(es: seq<Event>): (r: seq<string>)
    ensures |r| == |es| && forall i :: 0 <= i < |es| ==> r[i] == es[i].deviceId
  {
    seq(|es|, i requires 0 <= i < |es| => es[i].deviceId)
  }

  function Intensities(es: seq<Event>): (r: seq<real>)
    ensures |r| == |es| && forall i :: 0 <= i < |es| ==> r[i] == es[i].intensity
  {
    seq(|es|, i requires 0 <= i < |es| => es[i].intensity)
  }

  function Sum(xs: seq<real>): real
    decreases |xs|
  {
    if xs == [] then 0.0 else Sum(xs[..|xs| - 1]) + xs[|xs| - 1]
  }

  function Mean(xs: seq<real>): real {
    if xs == [] then 0.0 else Sum(xs) / |xs| as real
  }

  function Max(a: real, b: real): real {
    if a < b then b else a
  }

  /** Math.max over the values: the largest one. */
  function Largest(xs: seq<real>): (r: real)
    requires xs != []
    ensures r in xs && forall i :: 0 <= i < |xs| ==> xs[i] <= r
    decreases |xs|
  {
    if |xs| == 1 then xs[0] else Max(Largest(xs[..|xs| - 1]), xs[|xs| - 1])
  }

  /** Math.max of 0 and the values, folded in order (getStats' running maximum). */
  function RunningMax(xs: seq<real>): (r: real)
    ensures r >= 0.0 && forall i :: 0 <= i < |xs| ==> xs[i] <= r
    ensures r == 0.0 || r in xs
    decreases |xs|
  {
    if xs == [] then 0.0 else Max(RunningMax(xs[..|xs| - 1]), xs[|xs| - 1])
  }

  /** The events later than the cutoff, in order. */
  function EventsAfter(es: seq<Event>, cutoff: int): seq<Event> {
    Filter(es, (e: Event) => e.timestamp > cutoff)
  }

  /** The alerts later than the cutoff, in order. */
  function AlertsAfter(alerts: seq<Alert>, cutoff: int): seq<Alert> {
    Filter(alerts, (a: Alert) => a.timestamp > cutoff)
  }

  /** Pruning keeps exactly the entries later than the cutoff. */
  lemma AfterSpec(es: seq<Event>, alerts: seq<Alert>, cutoff: int)
    ensures forall e :: e in EventsAfter(es, cutoff) <==> e in es && e.timestamp > cutoff
    ensures forall a :: a in AlertsAfter(alerts, cutoff) <==> a in alerts && a.timestamp > cutoff
  {
    FilterSpec(es, (e: Event) => e.timestamp > cutoff);
    FilterSpec(alerts, (a: Alert) => a.timestamp > cutoff);
  }

  // ---------------------------------------------------------------------------------------
  // The alert rule

  /** The reports counted for a cell at time t: same cell, inside the window, strong enough. */
  function Recent(events: seq<Event>, cfg: Config, cell: string, t: int): seq<Event> {
    Filter(events, (e: Event) => Counted(e, cfg, cell, t))
  }

  predicate Counted(e: Event, cfg: Config, cell: string, t: int) {
    e.cellId == cell && e.timestamp > t - cfg.tWindow && e.intensity >= cfg.minIntensity
  }

  /** An alert for the cell raised less than the cooldown ago. */
  predicate CoolingDown(alerts: seq<Alert>, cfg: Config, cell: string, t: int) {
    exists i :: 0 <= i < |alerts| && alerts[i].cellId == cell && t - alerts[i].timestamp < cfg.alertCooldown
  }

  /**
   * The rough confidence: the device ratio scaled to 100 plus 30 per 10 of mean intensity,
   * capped at 100. With no device threshold the ratio is unbounded, so the cap applies.
   */
  function Confidence(devices: nat, n: int, avg: real): (r: real)
    ensures r <= 100.0
    ensures n != 0 && devices as real / n as real * 100.0 + avg / 10.0 * 30.0 <= 100.0 ==>
              r == devices as real / n as real * 100.0 + avg / 10.0 * 30.0
  {
    if n == 0 then 100.0
    else
      var score := devices as real / n as real * 100.0 + avg / 10.0 * 30.0;
      if score < 100.0 then score else 100.0
  }

  /** The alert raised from the counted reports. */
  function MakeAlert(recent: seq<Event>, cfg: Config, cell: string, t: int): Alert {
    var unique := Dedup(DeviceIds(recent));
    var avg := Mean(Intensities(recent));
    Alert(t, cell, |unique|, avg, if recent == [] then 0.0 else Largest(Intensities(recent)),
          unique, "ALERT", Confidence(|unique|, cfg.nDevices, avg))
  }

  /** checkAlertTrigger as a function: the alert raised, if any, and the new alert list. */
  function Trigger(events: seq<Event>, alerts: seq<Alert>, cfg: Config, cell: string, t: int): (Option<Alert>, seq<Alert>) {
    var recent := Recent(events, cfg, cell, t);
    if |recent| < cfg.nDevices then (None, alerts)
    else if |Dedup(DeviceIds(recent))| < cfg.nDevices then (None, alerts)
    else if CoolingDown(alerts, cfg, cell, t) then (None, alerts)
    else
      var alert := MakeAlert(recent, cfg, cell, t);
      (Some(alert), AlertsAfter(alerts + [alert], t - ALERT_RETENTION))
  }

  /**
   * An alert is raised exactly when enough counted reports come from enough distinct devices
   * and the cell is not cooling down; otherwise the alerts are left unchanged.
   */
  lemma TriggerWhen(events: seq<Event>, alerts: seq<Alert>, cfg: Config, cell: string, t: int)
    ensures var (r, after) := Trigger(events, alerts, cfg, cell, t);
            var recent := Recent(events, cfg, cell, t);
            (r.Some? <==> |recent| >= cfg.nDevices && |set d | d in DeviceIds(recent)| >= cfg.nDevices
                          && !CoolingDown(alerts, cfg, cell, t))
            && (r.None? ==> after == alerts)
  {
    DedupSpec(DeviceIds(Recent(events, cfg, cell, t)));
  }

  /**
   * A raised alert is stamped with the cell and time, counts the distinct reporting devices
   * (at least the threshold), lists each of them once, has confidence at most 100 and is
   * kept; every kept alert is younger than 60 s.
   */
  lemma TriggerRaised(events: seq<Event>, alerts: seq<Alert>, cfg: Config, cell: string, t: int)
    requires Trigger(events, alerts, cfg, cell, t).0.Some?
    ensures var (r, after) := Trigger(events, alerts, cfg, cell, t);
            var recent := Recent(events, cfg, cell, t);
            r.value.deviceCount == |set d | d in DeviceIds(recent)|
            && r.value.deviceCount >= cfg.nDevices
            && Distinct(r.value.devices)
            && (forall d :: d in r.value.devices <==> d in DeviceIds(recent))
            && r.value.confidence <= 100.0
            && r.value.cellId == cell && r.value.timestamp == t
            && r.value in after
            && forall a :: a in after ==> a.timestamp > t - ALERT_RETENTION
  {
    var recent := Recent(events, cfg, cell, t);
    DedupSpec(DeviceIds(recent));
    var alert := MakeAlert(recent, cfg, cell, t);
    AfterSpec([], alerts + [alert], t - ALERT_RETENTION);
  }

  /** Every counted report is from the cell, inside the window and strong enough. */
  lemma RecentSpec(events: seq<Event>, cfg: Config, cell: string, t: int)
    ensures forall e :: e in Recent(events, cfg, cell, t) <==>
              e in events && e.cellId == cell && e.timestamp > t - cfg.tWindow && e.intensity >= cfg.minIntensity
  {
    forall e | e in Recent(events, cfg, cell, t)
      ensures e in events && Counted(e, cfg, cell, t)
    {
      FilterMember(events, (e: Event) => Counted(e, cfg, cell, t), e);
    }
    FilterSpec(events, (e: Event) => Counted(e, cfg, cell, t));
  }

  /** The supplied fields replace the old ones ({...config, ...newConfig}). */
  function Override(cfg: Config, patch: ConfigPatch): (r: Config)
    ensures r.nDevices == patch.nDevices.GetOr(cfg.nDevices)
    ensures r.tWindow == patch.tWindow.GetOr(cfg.tWindow)
    ensures r.minIntensity == patch.minIntensity.GetOr(cfg.minIntensity)
    ensures r.alertCooldown == patch.alertCooldown.GetOr(cfg.alertCooldown)
  {
    Config(patch.nDevices.GetOr(cfg.nDevices), patch.tWindow.GetOr(cfg.tWindow),
           patch.minIntensity.GetOr(cfg.minIntensity), patch.alertCooldown.GetOr(cfg.alertCooldown))
  }

  /** arr.slice(start): a negative start counts from the end. */
  function SliceFrom<T>(xs: seq<T>, start: int): (r: seq<T>)
    ensures start < 0 ==> |r| == (if |xs| + start < 0 then |xs| else -start)
    ensures start >= 0 ==> |r| == (if start < |xs| then |xs| - start else 0)
    ensures r == xs[|xs| - |r|..]
  {
    if start < 0 then (if |xs| + start < 0 then xs else xs[|xs| + start..])
    else if start < |xs| then xs[start..] else []
  }

  /** The first element satisfying p (Array.prototype.find). */
  function Find<T>(xs: seq<T>, p: T -> bool): (r: Option<T>)
    ensures r.Some? ==> r.value in xs && p(r.value)
    ensures r.None? ==> forall i :: 0 <= i < |xs| ==> !p(xs[i])
    ensures r.Some? ==> exists k :: 0 <= k < |xs| && xs[k] == r.value && forall j :: 0 <= j < k ==> !p(xs[j])
    decreases |xs|
  {
    if xs == [] then None
    else if p(xs[0]) then Some(xs[0])
    else
      var r := Find(xs[1..], p);
      assert forall i :: 0 < i < |xs| ==> xs[i] == xs[1..][i - 1];
      r
  }

  // ---------------------------------------------------------------------------------------
  // Per-cell statistics

  /** The running figures of one cell: count, distinct devices, intensity sum and maximum. */
  datatype Acc = Acc(count: nat, devices: seq<string>, sum: real, max: real)

  /** The forEach of getStats over the given events. */
  function Tally(es: seq<Event>): map<string, Acc>
    decreases |es|
  {
    if es == [] then map[]
    else
      var n := |es| - 1;
      var acc := Tally(es[..n]);
      var e := es[n];
      acc[e.cellId := Bump(if e.cellId in acc then acc[e.cellId] else Acc(0, [], 0.0, 0.0), e)]
  }

  /** One event added to its cell's figures. */
  function Bump(s: Acc, e: Event): Acc {
    Acc(s.count + 1, if e.deviceId in s.devices then s.devices else s.devices + [e.deviceId],
        s.sum + e.intensity, Max(s.max, e.intensity))
  }

  /** One more event bumps its own cell's entry, opened empty if missing. */
  lemma TallySnoc(es: seq<Event>, e: Event)
    ensures var acc := Tally(es);
            Tally(es + [e]) == acc[e.cellId := Bump(if e.cellId in acc then acc[e.cellId] else Acc(0, [], 0.0, 0.0), e)]
  {
    assert (es + [e])[..|es|] == es;
  }

  /** The forEach of getStats: each event opens its cell's entry if needed, then adds itself. */
  method TallyEvents(recent: seq<Event>) returns (acc: map<string, Acc>)
    ensures acc == Tally(recent)
  {
    acc := map[];
    for i := 0 to |recent|
      invariant acc == Tally(recent[..i])
    {
      var e := recent[i];
      assert recent[..i + 1] == recent[..i] + [e];
      TallySnoc(recent[..i], e);
      ghost var before := acc;
      if e.cellId !in acc {
        acc := acc[e.cellId := Acc(0, [], 0.0, 0.0)];
      }
      var stat := acc[e.cellId];
      acc := acc[e.cellId := Acc(stat.count + 1,
                                 if e.deviceId in stat.devices then stat.devices else stat.devices + [e.deviceId],
                                 stat.sum + e.intensity, Max(stat.max, e.intensity))];
      assert acc == before[e.cellId := Bump(stat, e)];
    }
    assert recent[..|recent|] == recent;
  }

  /** The cell's reports grow by the last event exactly when it is from the cell. */
  lemma CellEventsLast(es: seq<Event>, c: string)
    requires es != []
    ensures var n := |es| - 1;
            CellEvents(es, c) == CellEvents(es[..n], c) + (if es[n].cellId == c then [es[n]] else [])
  {
  }

  /** Appending one event to a cell's reports extends each derived sequence by that event. */
  lemma CellAccSnoc(before: seq<Event>, e: Event)
    ensures var mine := before + [e];
            DeviceIds(mine) == DeviceIds(before) + [e.deviceId]
            && Intensities(mine) == Intensities(before) + [e.intensity]
            && Dedup(DeviceIds(mine)) == (var d := Dedup(DeviceIds(before));
                                          if e.deviceId in d then d else d + [e.deviceId])
            && Sum(Intensities(mine)) == Sum(Intensities(before)) + e.intensity
            && RunningMax(Intensities(mine)) == Max(RunningMax(Intensities(before)), e.intensity)
  {
    var mine := before + [e];
    assert DeviceIds(mine) == DeviceIds(before) + [e.deviceId];
    assert DeviceIds(mine)[..|before|] == DeviceIds(before);
    assert Intensities(mine) == Intensities(before) + [e.intensity];
    assert Intensities(mine)[..|before|] == Intensities(before);
  }

  function CellEvents(es: seq<Event>, cell: string): seq<Event> {
    Filter(es, (e: Event) => e.cellId == cell)
  }

  /** A reported cell has an entry in the tally. */
  lemma {:induction false} TallyHas(es: seq<Event>, i: int)
    requires 0 <= i < |es|
    ensures es[i].cellId in Tally(es)
    decreases |es|
  {
    var n := |es| - 1;
    if i < n {
      TallyHas(es[..n], i);
      assert es[..n][i] == es[i];
    }
  }

  /** A cell with an entry in the tally was reported. */
  lemma {:induction false} TallyWitness(es: seq<Event>, c: string) returns (i: int)
    requires c in Tally(es)
    ensures 0 <= i < |es| && es[i].cellId == c
    decreases |es|
  {
    var n := |es| - 1;
    if es[n].cellId == c {
      i := n;
    } else {
      i := TallyWitness(es[..n], c);
      assert es[..n][i] == es[i];
    }
  }

  /** The tally has an entry exactly for the cells reported. */
  lemma TallyKeys(es: seq<Event>)
    ensures forall c :: c in Tally(es) <==> exists i :: 0 <= i < |es| && es[i].cellId == c
  {
    forall c
      ensures c in Tally(es) <==> exists i :: 0 <= i < |es| && es[i].cellId == c
    {
      if c in Tally(es) {
        var i := TallyWitness(es, c);
      }
      if exists i :: 0 <= i < |es| && es[i].cellId == c {
        var i :| 0 <= i < |es| && es[i].cellId == c;
        TallyHas(es, i);
      }
    }
  }

  /** The figures of a cell as computed from that cell's own reports. */
  function CellAcc(es: seq<Event>, c: string): Acc {
    var mine := CellEvents(es, c);
    Acc(|mine|, Dedup(DeviceIds(mine)), Sum(Intensities(mine)), RunningMax(Intensities(mine)))
  }

  /** A report from the cell adds itself to the cell's own figures. */
  lemma CellAccLast(es: seq<Event>, c: string)
    requires es != [] && es[|es| - 1].cellId == c
    ensures CellAcc(es, c) == Bump(CellAcc(es[..|es| - 1], c), es[|es| - 1])
  {
    CellEventsLast(es, c);
    CellAccSnoc(CellEvents(es[..|es| - 1], c), es[|es| - 1]);
  }

  /** A report from another cell leaves the cell's own figures alone. */
  lemma CellAccOther(es: seq<Event>, c: string)
    requires es != [] && es[|es| - 1].cellId != c
    ensures CellAcc(es, c) == CellAcc(es[..|es| - 1], c)
  {
    CellEventsLast(es, c);
    assert CellEvents(es, c) == CellEvents(es[..|es| - 1], c);
  }

  /** A cell with no entry in the tally has no reports. */
  lemma CellAccAbsent(es: seq<Event>, c: string)
    requires c !in Tally(es)
    ensures CellAcc(es, c) == Acc(0, [], 0.0, 0.0)
  {
    TallyKeys(es);
    FilterSpec(es, (e: Event) => e.cellId == c);
    assert forall e :: e in es ==> e.cellId != c;
  }

  /** A cell's entry in the tally holds the figures of that cell's own reports. */
  lemma {:induction false} TallyCell(es: seq<Event>, c: string)
    requires c in Tally(es)
    ensures Tally(es)[c] == CellAcc(es, c)
    decreases |es|
  {
    var n := |es| - 1;
    var init := es[..n];
    var prev := if es[n].cellId in Tally(init) then Tally(init)[es[n].cellId] else Acc(0, [], 0.0, 0.0);
    assert Tally(es) == Tally(init)[es[n].cellId := Bump(prev, es[n])];
    if es[n].cellId == c {
      CellAccLast(es, c);
      if c in Tally(init) {
        TallyCell(init, c);
      } else {
        CellAccAbsent(init, c);
      }
    } else {
      CellAccOther(es, c);
      TallyCell(init, c);
    }
  }

  /** What getStats reports for each cell, from its tally. */
  function CellStats(acc: map<string, Acc>): (r: map<string, CellStat>)
    ensures r.Keys == acc.Keys
  {
    map c | c in acc :: CellStat(acc[c].count, acc[c].devices,
                                 if acc[c].count > 0 then acc[c].sum / acc[c].count as real else 0.0,
                                 acc[c].max)
  }

  // ---------------------------------------------------------------------------------------
  // The network

  class Network {
    var events: seq<Event>
    var alerts: seq<Alert>
    /** Last report time of each device. */
    var devices: map<string, int>
    /** The keys of `devices` in insertion order. */
    var deviceOrder: seq<string>
    var config: Config

    ghost predicate Valid()
      reads this
    {
      Distinct(deviceOrder) && devices.Keys == set d | d in deviceOrder
    }

    constructor ()
      ensures Valid()
      ensures events == [] && alerts == [] && devices == map[] && deviceOrder == []
      ensures config == DEFAULT_CONFIG
    {
      events := [];
      alerts := [];
      devices := map[];
      deviceOrder := [];
      config := DEFAULT_CONFIG;
    }

    /**
     * reportShaking: a report without a location cell (absent or empty) is ignored. Otherwise
     * the device's heartbeat is recorded, the event appended, events older than 10 s dropped,
     * and the alert rule run for the cell.
     */
    method ReportShaking(timestamp: int, locationCell: Option<string>, intensity: real,
                         deviceId: Option<string>, features: Option<map<string, real>>)
      returns (r: Option<Event>)
      requires Valid()
      modifies this
      ensures Valid()
      ensures locationCell.None? || locationCell.value == "" ==>
                r.None? && events == old(events) && alerts == old(alerts)
                && devices == old(devices) && deviceOrder == old(deviceOrder)
      ensures locationCell.Some? && locationCell.value != "" ==>
                var id := deviceId.GetOr("anon");
                var ev := Event(timestamp, locationCell.value, intensity, id, features.GetOr(map[]));
                r == Some(ev)
                && devices == old(devices)[id := timestamp]
                && deviceOrder == (if id in old(devices) then old(deviceOrder) else old(deviceOrder) + [id])
                && events == EventsAfter(old(events) + [ev], timestamp - EVENT_RETENTION)
                && ev in events
                && (forall e :: e in events ==> e.timestamp > timestamp - EVENT_RETENTION)
                && alerts == Trigger(events, old(alerts), config, locationCell.value, timestamp).1
      ensures config == old(config)
    {
      if locationCell.None? || locationCell.value == "" {
        return None;
      }
      var id := deviceId.GetOr("anon");
      Heartbeat(id, timestamp);
      var ev := Event(timestamp, locationCell.value, intensity, id, features.GetOr(map[]));
      var cutoff := timestamp - EVENT_RETENTION;
      AfterSpec(events + [ev], [], cutoff);
      events := EventsAfter(events + [ev], cutoff);
      var _ := CheckAlertTrigger(locationCell.value, timestamp);
      r := Some(ev);
    }

    /** The device's heartbeat: its last report time, and its place in first-seen order. */
    method Heartbeat(id: string, t: int)
      requires Valid()
      modifies this
      ensures Valid()
      ensures devices == old(devices)[id := t]
      ensures deviceOrder == (if id in old(devices) then old(deviceOrder) else old(deviceOrder) + [id])
      ensures events == old(events) && alerts == old(alerts) && config == old(config)
    {
      if id !in devices {
        assert id !in deviceOrder;
        deviceOrder := deviceOrder + [id];
      }
      devices := devices[id := t];
    }

    /** checkAlertTrigger: only the alert list may change. */
    method CheckAlertTrigger(cellId: string, currentTime: int) returns (r: Option<Alert>)
      modifies this
      ensures (r, alerts) == Trigger(events, old(alerts), config, cellId, currentTime)
      ensures events == old(events) && devices == old(devices) && deviceOrder == old(deviceOrder)
      ensures config == old(config)
    {
      var cfg := config;
      var recent := Recent(events, cfg, cellId, currentTime);
      if |recent| < config.nDevices {
        return None;
      }
      var unique := Dedup(DeviceIds(recent));
      if |unique| < config.nDevices {
        return None;
      }
      var lastAlert := Find(alerts, (a: Alert) => a.cellId == cellId && currentTime - a.timestamp < cfg.alertCooldown);
      if lastAlert.Some? {
        return None;
      }
      var alert := MakeAlert(recent, config, cellId, currentTime);
      alerts := alerts + [alert];
      var cutoff := currentTime - ALERT_RETENTION;
      alerts := AlertsAfter(alerts, cutoff);
      r := Some(alert);
    }

    /** The events getRecentEvents draws from: the cell's, or all of them when no cell is given. */
    function Pool(cellId: Option<string>): seq<Event>
      reads this
    {
      if cellId.Some? && cellId.value != "" then CellEvents(events, cellId.value) else events
    }

    /**
     * getRecentEvents(cellId, limit): the events of the cell (all events when no cell is
     * given), then the last `limit` of them (100 by default).
     */
    function GetRecentEvents(cellId: Option<string>, limit: Option<int>): (r: seq<Event>)
      reads this
    {
      SliceFrom(Pool(cellId), -limit.GetOr(100))
    }

    /**
     * For a positive limit: at most `limit` events, the last ones of the pool in their order,
     * all of them from the cell when one is given.
     */
    lemma RecentEventsSpec(cellId: Option<string>, limit: int)
      requires limit > 0
      ensures |GetRecentEvents(cellId, Some(limit))| == (if |Pool(cellId)| < limit then |Pool(cellId)| else limit)
      ensures GetRecentEvents(cellId, Some(limit)) == Pool(cellId)[|Pool(cellId)| - |GetRecentEvents(cellId, Some(limit))|..]
      ensures cellId.Some? && cellId.value != "" ==>
                forall e :: e in GetRecentEvents(cellId, Some(limit)) ==> e in events && e.cellId == cellId.value
    {
      var pool := Pool(cellId);
      var r := SliceFrom(pool, -limit);
      assert GetRecentEvents(cellId, Some(limit)) == r;
      if cellId.Some? && cellId.value != "" {
        forall e | e in r
          ensures e in events && e.cellId == cellId.value
        {
          assert e in pool;
          FilterMember(events, (e: Event) => e.cellId == cellId.value, e);
        }
      }
    }

    function GetAlerts(): (r: seq<Alert>)
      reads this
      ensures r == alerts
    {
      alerts
    }

    /** getAlertForCell: the oldest kept alert for the cell. */
    function GetAlertForCell(cellId: string): (r: Option<Alert>)
      reads this
      ensures r.Some? ==> r.value in alerts && r.value.cellId == cellId
      ensures r.None? ==> forall i :: 0 <= i < |alerts| ==> alerts[i].cellId != cellId
      ensures r.Some? ==> exists k :: 0 <= k < |alerts| && alerts[k] == r.value
                                      && forall j :: 0 <= j < k ==> alerts[j].cellId != cellId
    {
      Find(alerts, (a: Alert) => a.cellId == cellId)
    }

    /** getActiveDevices at time now: devices heard from in the last 30 s, in insertion order. */
    function GetActiveDevices(now: int): (r: seq<string>)
      reads this
    {
      var ds := devices;
      Filter(deviceOrder, (d: string) => d in ds && now - ds[d] < DEVICE_TIMEOUT)
    }

    /** The active devices are exactly the known devices seen within the timeout, each once. */
    lemma ActiveDevicesSpec(now: int)
      requires Valid()
      ensures forall d :: d in GetActiveDevices(now) <==> d in devices && now - devices[d] < DEVICE_TIMEOUT
      ensures Distinct(GetActiveDevices(now))
    {
      var ds := devices;
      var p := (d: string) => d in ds && now - ds[d] < DEVICE_TIMEOUT;
      FilterSpec(deviceOrder, p);
      FilterDistinct(deviceOrder, p);
    }

    /** setConfig: overrides the supplied fields only, and returns the new configuration. */
    method SetConfig(patch: ConfigPatch) returns (c: Config)
      modifies this
      ensures config == Override(old(config), patch) && c == config
      ensures events == old(events) && alerts == old(alerts)
      ensures devices == old(devices) && deviceOrder == old(deviceOrder)
    {
      config := Override(config, patch);
      c := config;
    }

    function GetConfig(): (c: Config)
      reads this
      ensures c == config
    {
      config
    }

    /** reset: events, alerts and devices are emptied; the configuration stays. */
    method Reset()
      modifies this
      ensures Valid()
      ensures events == [] && alerts == [] && devices == map[] && deviceOrder == []
      ensures config == old(config)
    {
      events := [];
      alerts := [];
      devices := map[];
      deviceOrder := [];
    }

    /**
     * getStats at time now: events and alerts of the last 60 s, active devices, and the
     * per-cell figures of the recent events.
     */
    method GetStats(now: int) returns (s: Stats)
      ensures s.totalEvents == |EventsAfter(events, now - STATS_WINDOW)|
      ensures s.totalAlerts == |AlertsAfter(alerts, now - STATS_WINDOW)|
      ensures s.activeDevices == |GetActiveDevices(now)|
      ensures s.cellStats == CellStats(Tally(EventsAfter(events, now - STATS_WINDOW)))
    {
      var cutoff := now - STATS_WINDOW;
      var recent := EventsAfter(events, cutoff);
      var acc := TallyEvents(recent);
      var totalAlerts := |AlertsAfter(alerts, cutoff)|;
      s := Stats(|recent|, totalAlerts, |GetActiveDevices(now)|, CellStats(acc));
    }
  }
}
