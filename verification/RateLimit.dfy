/** The API's bounded fixed-window rate limiter, and the limiter without bound or pruning that it
    stands in for. */
module RateLimit {
  import opened Base
  import Decimal

  const MAX_BUCKETS: nat := 10_000
  const MAX_KEY_BYTES: nat := 256
  const ONE_SECOND: nat := 1_000_000_000

  /** Times and durations are nanoseconds. */
  datatype Config = Config(window: nat, maxPerWindow: u32)

  datatype Bucket = Bucket(start: nat, count: nat)

  datatype State = State(entries: map<string, Bucket>, lastPruned: nat)

  datatype Outcome = Granted | BadKey | Limited(retryAfter: nat, max: u32)

  function Utf8Len(s: string): nat {
    if s == "" then 0 else
    var c := s[0] as int;
    (if c < 0x80 then 1 else if c < 0x800 then 2 else if c < 0x10000 then 3 else 4) + Utf8Len(s[1..])
  }

  predicate GoodKey(key: string) { key != "" && Utf8Len(key) <= MAX_KEY_BYTES }

  /** `saturating_duration_since`. */
  function Since(now: nat, earlier: nat): nat {
    if now >= earlier then now - earlier else 0
  }

  function Prune(cfg: Config, s: State, now: nat): State {
    if Since(now, s.lastPruned) >= cfg.window then
      State(map k | k in s.entries && Since(now, s.entries[k].start) < cfg.window :: s.entries[k], now)
    else s
  }

  /** One request against one bucket. */
  function Take(cfg: Config, b: Option<Bucket>, now: nat): (r: (Bucket, Outcome))
    ensures r.1.Granted? ==> 0 < r.0.count <= cfg.maxPerWindow
  {
    var b0 := if b.None? then Bucket(now, 0) else b.value;
    var b1 := if Since(now, b0.start) >= cfg.window then Bucket(now, 0) else b0;
    if b1.count >= cfg.maxPerWindow then (b1, Limited(Since(cfg.window, Since(now, b1.start)), cfg.maxPerWindow))
    else (Bucket(b1.start, b1.count + 1), Granted)
  }

  function Lookup(m: map<string, Bucket>, key: string): Option<Bucket> {
    if key in m then Some(m[key]) else None
  }

  /** The request is turned away because its key is new and the table is full. */
  predicate Full(cfg: Config, s: State, key: string, now: nat) {
    var p := Prune(cfg, s, now);
    key !in p.entries && |p.entries| >= MAX_BUCKETS
  }

  /** `check_at`. */
  function Step(cfg: Config, s: State, rawKey: string, now: nat): (State, Outcome) {
    var key := Decimal.Trim(rawKey);
    if !GoodKey(key) then (s, BadKey)
    else
      var p := Prune(cfg, s, now);
      if Full(cfg, s, key, now) then (p, Limited(cfg.window, cfg.maxPerWindow))
      else
        var (b, outcome) := Take(cfg, Lookup(p.entries, key), now);
        (State(p.entries[key := b], p.lastPruned), outcome)
  }

  class RateLimiter {
    const cfg: Config
    var entries: map<string, Bucket>
    var lastPruned: nat

    constructor (window: nat, maxPerWindow: u32, now: nat)
      ensures cfg == Config(if window >= ONE_SECOND then window else ONE_SECOND, maxPerWindow)
      ensures Now() == State(map[], now)
    {
      cfg := Config(if window >= ONE_SECOND then window else ONE_SECOND, maxPerWindow);
      entries := map[];
      lastPruned := now;
    }

    function Now(): State
      reads this
    {
      State(entries, lastPruned)
    }

    method CheckAt(rawKey: string, now: nat) returns (outcome: Outcome)
      modifies this
      ensures (Now(), outcome) == Step(cfg, old(Now()), rawKey, now)
    {
      hide Decimal.Trim, Utf8Len;
      var key := Decimal.Trim(rawKey);
      if key == "" || Utf8Len(key) > MAX_KEY_BYTES {
        return BadKey;
      }
      if Since(now, lastPruned) >= cfg.window {
        entries := map k | k in entries && Since(now, entries[k].start) < cfg.window :: entries[k];
        lastPruned := now;
      }
      if key !in entries && |entries| >= MAX_BUCKETS {
        return Limited(cfg.window, cfg.maxPerWindow);
      }
      ghost var pruned := entries;
      if key !in entries {
        entries := entries[key := Bucket(now, 0)];
      }
      if Since(now, entries[key].start) >= cfg.window {
        entries := entries[key := Bucket(now, 0)];
      }
      var b := entries[key];
      assert entries == pruned[key := b];
      if b.count >= cfg.maxPerWindow {
        return Limited(Since(cfg.window, Since(now, b.start)), cfg.maxPerWindow);
      }
      entries := entries[key := Bucket(b.start, b.count + 1)];
      assert entries == pruned[key := Bucket(b.start, b.count + 1)];
      return Granted;
    }
  }

  // ----- Runs -----

  datatype Event = Event(rawKey: string, time: nat) {
    function Key(): string { Decimal.Trim(rawKey) }
  }

  ghost predicate InOrder(events: seq<Event>) {
    forall i, j :: 0 <= i <= j < |events| ==> events[i].time <= events[j].time
  }

  /** Request `m` is a moment at which buckets may be dropped. */
  predicate PrunesAt(cfg: Config, start: nat, events: seq<Event>, m: nat)
    requires m < |events|
  {
    GoodKey(events[m].Key()) && Since(events[m].time, After(cfg, start, events[..m]).lastPruned) >= cfg.window
  }

  /** No request is timed before one that pruned ahead of it. The clock is read before the lock is
      taken, so requests may overtake each other; this much order is what the limiter relies on. */
  ghost predicate Timely(cfg: Config, start: nat, events: seq<Event>) {
    forall m, n :: 0 <= m < n < |events| && PrunesAt(cfg, start, events, m) ==> events[m].time <= events[n].time
  }

  function After(cfg: Config, start: nat, events: seq<Event>): State {
    if events == [] then State(map[], start) else
    var e := events[|events| - 1];
    Step(cfg, After(cfg, start, events[..|events| - 1]), e.rawKey, e.time).0
  }

  /** What request `n` of the run was told. */
  function OutcomeAt(cfg: Config, start: nat, events: seq<Event>, n: nat): Outcome
    requires n < |events|
  {
    Step(cfg, After(cfg, start, events[..n]), events[n].rawKey, events[n].time).1
  }

  predicate FullAt(cfg: Config, start: nat, events: seq<Event>, n: nat)
    requires n < |events|
  {
    GoodKey(events[n].Key()) && Full(cfg, After(cfg, start, events[..n]), events[n].Key(), events[n].time)
  }

  /** The times at which a key asked and was not turned away by a full table. */
  function History(cfg: Config, start: nat, events: seq<Event>, key: string): seq<nat> {
    if events == [] then [] else
    var n := |events| - 1;
    var before := History(cfg, start, events[..n], key);
    if events[n].Key() == key && GoodKey(key) && !FullAt(cfg, start, events, n) then before + [events[n].time] else before
  }

  /** The ideal limiter: one fixed window per key, a function of that key's own requests alone. */
  function Ideal(cfg: Config, times: seq<nat>): Option<Bucket> {
    if times == [] then None else
    Some(Take(cfg, Ideal(cfg, times[..|times| - 1]), times[|times| - 1]).0)
  }

  // ----- What every reachable state keeps -----

  ghost predicate Bounded(cfg: Config, s: State) {
    |s.entries| <= MAX_BUCKETS && forall k :: k in s.entries ==> s.entries[k].count <= cfg.maxPerWindow
  }

  lemma StepBounded(cfg: Config, s: State, rawKey: string, now: nat)
    requires Bounded(cfg, s)
    ensures Bounded(cfg, Step(cfg, s, rawKey, now).0)
  {
    hide Decimal.Trim, GoodKey, Since;
    var p := Prune(cfg, s, now);
    SubmapSize(p.entries, s.entries);
    var key := Decimal.Trim(rawKey);
    if GoodKey(key) && !Full(cfg, s, key, now) {
      var (b, _) := Take(cfg, Lookup(p.entries, key), now);
      TakeBounded(cfg, Lookup(p.entries, key), now);
      var m := p.entries[key := b];
      assert m.Keys == p.entries.Keys + {key};
      assert |m| == |m.Keys|;
    }
  }

  lemma TakeBounded(cfg: Config, b: Option<Bucket>, now: nat)
    requires b.Some? ==> b.value.count <= cfg.maxPerWindow
    ensures Take(cfg, b, now).0.count <= cfg.maxPerWindow
  {
  }

  lemma SubmapSize(m: map<string, Bucket>, n: map<string, Bucket>)
    requires m.Keys <= n.Keys
    ensures |m| <= |n|
  {
    SubsetSize(m.Keys, n.Keys);
  }

  lemma {:induction false} SubsetSize(a: set<string>, b: set<string>)
    requires a <= b
    ensures |a| <= |b|
  {
    if a != {} {
      var x :| x in a;
      SubsetSize(a - {x}, b - {x});
    }
  }

  /** At most `MAX_BUCKETS` entries, none above its limit, in every state of every run. */
  lemma {:induction false} ReachableBounded(cfg: Config, start: nat, events: seq<Event>)
    ensures Bounded(cfg, After(cfg, start, events))
  {
    if events != [] {
      var n := |events| - 1;
      ReachableBounded(cfg, start, events[..n]);
      StepBounded(cfg, After(cfg, start, events[..n]), events[n].rawKey, events[n].time);
    }
  }

  // ----- One request, in full -----

  /** The buckets that are left at a time: all of them, or after a window without pruning those whose
      own window has not ended. */
  function KeptAt(cfg: Config, s: State, now: nat): map<string, Bucket> {
    map k | k in s.entries && (now < s.lastPruned + cfg.window || now < s.entries[k].start + cfg.window) :: s.entries[k]
  }

  lemma PruneKeeps(cfg: Config, s: State, now: nat)
    requires cfg.window > 0
    ensures Prune(cfg, s, now) == State(KeptAt(cfg, s, now), if now >= s.lastPruned + cfg.window then now else s.lastPruned)
  {
    assert now < s.lastPruned + cfg.window ==> KeptAt(cfg, s, now) == s.entries;
  }

  /** What a request with a usable key is told and what it leaves. A key without a bucket is turned away
      exactly if 10000 others are left; otherwise it counts in its window, or in a new one that starts
      now, and once the limit is used up it is told the rest of that window. */
  lemma StepExplained(cfg: Config, s: State, rawKey: string, now: nat)
    requires cfg.window > 0 && GoodKey(Decimal.Trim(rawKey))
    ensures var key, kept, (s', outcome) := Decimal.Trim(rawKey), KeptAt(cfg, s, now), Step(cfg, s, rawKey, now);
      && s'.lastPruned == (if now >= s.lastPruned + cfg.window then now else s.lastPruned)
      && (key !in kept && |kept| >= 10_000 ==> s'.entries == kept && outcome == Limited(cfg.window, cfg.maxPerWindow))
      && (key in kept || |kept| < 10_000 ==>
            var running := key in kept && now < kept[key].start + cfg.window;
            var start, count := if running then kept[key].start else now, if running then kept[key].count else 0;
            if count < cfg.maxPerWindow then outcome == Granted && s'.entries == kept[key := Bucket(start, count + 1)]
            else
              && s'.entries == kept[key := Bucket(start, count)] && outcome.Limited? && outcome.max == cfg.maxPerWindow
              && (if now <= start then outcome.retryAfter == cfg.window else now + outcome.retryAfter == start + cfg.window))
  {
    hide Decimal.Trim, GoodKey, KeptAt, Prune;
    PruneKeeps(cfg, s, now);
  }

  /** Whoever is told to wait by its own bucket is refused until then, and granted then, if it asks again
      next at that time. */
  lemma WaitIsExact(cfg: Config, s: State, rawKey: string, now: nat, u: nat)
    requires cfg.window > 0 && cfg.maxPerWindow > 0 && Bounded(cfg, s)
    requires var (s', outcome) := Step(cfg, s, rawKey, now);
      outcome.Limited? && Decimal.Trim(rawKey) in s'.entries && s'.entries[Decimal.Trim(rawKey)].start <= now
    ensures var (s', outcome) := Step(cfg, s, rawKey, now);
      && 0 < outcome.retryAfter <= cfg.window
      && (u < outcome.retryAfter ==> Step(cfg, s', rawKey, now + u).1.Limited?)
      && (u == outcome.retryAfter ==> Step(cfg, s', rawKey, now + u).1.Granted?)
  {
    hide Decimal.Trim, GoodKey, KeptAt, Step, Bounded;
    var key := Decimal.Trim(rawKey);
    var s' := Step(cfg, s, rawKey, now).0;
    RefusedOrNot(cfg, s, rawKey, now);
    StepExplained(cfg, s, rawKey, now);
    StepBounded(cfg, s, rawKey, now);
    StepExplained(cfg, s', rawKey, now + u);
    KeptWhile(cfg, s, key, now);
    KeptWhile(cfg, s', key, now + u);
    RoomLeft(cfg, s', key, now + u);
  }

  lemma RefusedOrNot(cfg: Config, s: State, rawKey: string, now: nat)
    ensures Step(cfg, s, rawKey, now).1.BadKey? <==> !GoodKey(Decimal.Trim(rawKey))
  {
    hide Decimal.Trim, GoodKey;
  }

  lemma KeptWhile(cfg: Config, s: State, key: string, now: nat)
    ensures key in KeptAt(cfg, s, now)
            <==> key in s.entries && (now < s.lastPruned + cfg.window || now < s.entries[key].start + cfg.window)
    ensures key in KeptAt(cfg, s, now) ==> KeptAt(cfg, s, now)[key] == s.entries[key]
  {
  }

  /** A bucket that has been dropped has left room for its key. */
  lemma RoomLeft(cfg: Config, s: State, key: string, now: nat)
    requires Bounded(cfg, s) && key in s.entries
    ensures key in KeptAt(cfg, s, now) || |KeptAt(cfg, s, now)| < 10_000
  {
    var kept := KeptAt(cfg, s, now);
    if key !in kept {
      SubsetSize(kept.Keys, s.entries.Keys - {key});
      assert |kept| == |kept.Keys| && |s.entries| == |s.entries.Keys|;
    }
  }

  /** A key is unusable exactly if it is blank or its trimmed text has more than 256 bytes; then nothing
      changes. */
  lemma BadKeyIff(cfg: Config, s: State, rawKey: string, now: nat)
    ensures Step(cfg, s, rawKey, now).1.BadKey? <==> Decimal.AllSpace(rawKey) || Utf8Len(Decimal.Trim(rawKey)) > 256
    ensures Step(cfg, s, rawKey, now).1.BadKey? ==> Step(cfg, s, rawKey, now).0 == s
  {
    hide Decimal.Trim, Utf8Len, Prune;
    Decimal.BlankIff(rawKey);
  }

  /** Key lengths are those of UTF-8: one to four bytes a character. */
  lemma {:induction false} KeyLength(s: string)
    ensures Utf8Len(s) >= |s|
    ensures Utf8Len(s) == |s| <==> forall i :: 0 <= i < |s| ==> (s[i] as int) < 0x80
  {
    if s != "" {
      KeyLength(s[1..]);
      assert forall i :: 0 < i < |s| ==> s[i] == s[1..][i - 1];
      assert forall i :: 0 <= i < |s| - 1 ==> s[1..][i] == s[i + 1];
    }
  }

  lemma {:induction false} KeyLengthOf(s: string, c: char)
    ensures Utf8Len(s + [c]) == Utf8Len(s) + Utf8Len([c])
    ensures var u := c as int;
      && (u < 0x80 ==> Utf8Len([c]) == 1) && (0x80 <= u < 0x800 ==> Utf8Len([c]) == 2)
      && (0x800 <= u < 0x10000 ==> Utf8Len([c]) == 3) && (u >= 0x10000 ==> Utf8Len([c]) == 4)
  {
    assert [c][1..] == "";
    if s == "" {
      assert s + [c] == [c];
    } else {
      KeyLengthOf(s[1..], c);
      assert (s + [c])[1..] == s[1..] + [c];
    }
  }

  /** A key's bucket is that of the ideal limiter, or it has been dropped and the ideal one has expired. */
  ghost predicate Tracks(cfg: Config, s: State, key: string, ideal: Option<Bucket>, now: nat) {
    if key in s.entries then ideal == Some(s.entries[key])
    else ideal.Some? ==> ideal.value.start + cfg.window <= now
  }

  lemma TakeTracked(cfg: Config, s: State, key: string, ideal: Option<Bucket>, now: nat)
    requires cfg.window > 0 && Tracks(cfg, s, key, ideal, now)
    ensures Tracks(cfg, Prune(cfg, s, now), key, ideal, now)
    ensures Take(cfg, Lookup(Prune(cfg, s, now).entries, key), now) == Take(cfg, ideal, now)
  {
  }

  lemma StepTracks(cfg: Config, s: State, e: Event, key: string, ideal: Option<Bucket>, now: nat)
    requires cfg.window > 0 && Tracks(cfg, s, key, ideal, e.time) && Tracks(cfg, s, key, ideal, now)
    requires GoodKey(e.Key()) && Since(e.time, s.lastPruned) >= cfg.window ==> e.time <= now
    ensures var s' := Step(cfg, s, e.rawKey, e.time).0;
      Tracks(cfg, s', key,
             if e.Key() == key && GoodKey(key) && !Full(cfg, s, key, e.time) then Some(Take(cfg, ideal, e.time).0) else ideal,
             now)
  {
    hide Decimal.Trim, GoodKey, Take;
    TakeTracked(cfg, s, key, ideal, e.time);
  }

  lemma IdealSnoc(cfg: Config, times: seq<nat>, t: nat)
    ensures Ideal(cfg, times + [t]) == Some(Take(cfg, Ideal(cfg, times), t).0)
  {
    assert (times + [t])[..|times|] == times;
  }

  /** A time that no pruning of the run is after. */
  ghost predicate AfterPrunes(cfg: Config, start: nat, events: seq<Event>, now: nat) {
    forall m :: 0 <= m < |events| && PrunesAt(cfg, start, events, m) ==> events[m].time <= now
  }

  lemma PrefixTimely(cfg: Config, start: nat, events: seq<Event>, n: nat)
    requires n <= |events| && Timely(cfg, start, events)
    ensures Timely(cfg, start, events[..n])
    ensures n < |events| ==> AfterPrunes(cfg, start, events[..n], events[n].time)
  {
    hide After, GoodKey;
    PrunesInPrefix(cfg, start, events, n);
  }

  lemma PrunesInPrefix(cfg: Config, start: nat, events: seq<Event>, n: nat)
    requires n <= |events|
    ensures forall m :: 0 <= m < n ==> PrunesAt(cfg, start, events[..n], m) == PrunesAt(cfg, start, events, m)
  {
    hide After, GoodKey;
    forall m | 0 <= m < n
      ensures PrunesAt(cfg, start, events[..n], m) == PrunesAt(cfg, start, events, m)
    {
      assert events[..n][..m] == events[..m];
    }
  }

  lemma {:induction false} RunTracks(cfg: Config, start: nat, events: seq<Event>, key: string, now: nat)
    requires cfg.window > 0 && Timely(cfg, start, events) && AfterPrunes(cfg, start, events, now)
    ensures Tracks(cfg, After(cfg, start, events), key, Ideal(cfg, History(cfg, start, events, key)), now)
    decreases |events|
  {
    hide Step, Ideal, Full, GoodKey, Tracks, Timely, After, History, PrunesAt, AfterPrunes;
    if events == [] {
      NothingTracked(cfg, start, key, now);
    } else {
      var n := |events| - 1;
      var e, s := events[n], After(cfg, start, events[..n]);
      var before := History(cfg, start, events[..n], key);
      PrefixTimely(cfg, start, events, n);
      LastPrune(cfg, start, events, now);
      LastRequest(cfg, start, events, key);
      RunTracks(cfg, start, events[..n], key, e.time);
      RunTracks(cfg, start, events[..n], key, now);
      StepTracks(cfg, s, e, key, Ideal(cfg, before), now);
      IdealSnoc(cfg, before, e.time);
    }
  }

  lemma LastPrune(cfg: Config, start: nat, events: seq<Event>, now: nat)
    requires events != [] && AfterPrunes(cfg, start, events, now)
    ensures var n := |events| - 1;
      && AfterPrunes(cfg, start, events[..n], now)
      && (GoodKey(events[n].Key()) && Since(events[n].time, After(cfg, start, events[..n]).lastPruned) >= cfg.window
          ==> events[n].time <= now)
  {
    hide After, GoodKey;
    PrunesInPrefix(cfg, start, events, |events| - 1);
    assert PrunesAt(cfg, start, events, |events| - 1) ==> events[|events| - 1].time <= now;
  }

  lemma LastRequest(cfg: Config, start: nat, events: seq<Event>, key: string)
    requires events != []
    ensures var n := |events| - 1;
      var e, s, before := events[n], After(cfg, start, events[..n]), History(cfg, start, events[..n], key);
      && After(cfg, start, events) == Step(cfg, s, e.rawKey, e.time).0
      && History(cfg, start, events, key)
         == if e.Key() == key && GoodKey(key) && !Full(cfg, s, key, e.time) then before + [e.time] else before
  {
    hide Step, Full, GoodKey;
  }

  lemma NothingTracked(cfg: Config, start: nat, key: string, now: nat)
    ensures Tracks(cfg, After(cfg, start, []), key, Ideal(cfg, History(cfg, start, [], key)), now)
  {
  }

  // ----- Main results -----

  /** Every request with a usable key gets the ideal limiter's answer for that key's own history,
      except when its key is absent from a full table; then it is refused and no other key's budget
      moves. Requests with an unusable key change nothing. */
  lemma RefinesIdeal(cfg: Config, start: nat, events: seq<Event>, n: nat)
    requires cfg.window > 0 && Timely(cfg, start, events) && n < |events|
    ensures var e, s := events[n], After(cfg, start, events[..n]);
      && (!GoodKey(e.Key()) ==> Step(cfg, s, e.rawKey, e.time) == (s, BadKey))
      && (FullAt(cfg, start, events, n) ==>
            OutcomeAt(cfg, start, events, n) == Limited(cfg.window, cfg.maxPerWindow))
      && (GoodKey(e.Key()) && !FullAt(cfg, start, events, n) ==>
            OutcomeAt(cfg, start, events, n)
            == Take(cfg, Ideal(cfg, History(cfg, start, events[..n], e.Key())), e.time).1)
  {
    hide Ideal, History, After, GoodKey, Tracks, Take, Timely, AfterPrunes;
    var e, s := events[n], After(cfg, start, events[..n]);
    var ideal := Ideal(cfg, History(cfg, start, events[..n], e.Key()));
    PrefixTimely(cfg, start, events, n);
    RunTracks(cfg, start, events[..n], e.Key(), e.time);
    TakeTracked(cfg, s, e.Key(), ideal, e.time);
  }

  /** A request, refused or not, leaves what every other key will be told as it was. */
  lemma OthersUntouched(cfg: Config, s: State, e: Event, key: string, later: nat)
    requires cfg.window > 0 && key != e.Key() && e.time <= later
    ensures Take(cfg, Lookup(Step(cfg, s, e.rawKey, e.time).0.entries, key), later)
            == Take(cfg, Lookup(s.entries, key), later)
  {
    hide Decimal.Trim, GoodKey;
  }

  /** The grants of a key with a time in `[from, from + window)`. */
  function GrantsIn(cfg: Config, start: nat, events: seq<Event>, key: string, from: nat): nat {
    if events == [] then 0 else
    var n := |events| - 1;
    GrantsIn(cfg, start, events[..n], key, from)
    + (if events[n].Key() == key && from <= events[n].time < from + cfg.window
          && OutcomeAt(cfg, start, events, n).Granted? then 1 else 0)
  }

  function Less(n: nat): nat { if n == 0 then 0 else n - 1 }

  /** How far the grants of an interval can have come, given where the current window started. The first
      grant of a window is at its start. */
  ghost predicate GrantsBound(cfg: Config, ideal: Option<Bucket>, grants: nat, from: nat, now: nat) {
    && (now < from ==> grants == 0)
    && (ideal.None? ==> grants == 0)
    && (ideal.Some? ==>
          && ideal.value.start <= now && ideal.value.count <= cfg.maxPerWindow
          && (cfg.maxPerWindow > 0 ==> ideal.value.count > 0)
          && grants <= if ideal.value.start < from then Less(ideal.value.count)
                       else if ideal.value.start < from + cfg.window then Less(cfg.maxPerWindow) + ideal.value.count
                       else Less(cfg.maxPerWindow) + cfg.maxPerWindow)
  }

  lemma GrantsStep(cfg: Config, ideal: Option<Bucket>, grants: nat, from: nat, before: nat, now: nat)
    requires cfg.window > 0 && before <= now && GrantsBound(cfg, ideal, grants, from, before)
    ensures var (b, outcome) := Take(cfg, ideal, now);
      GrantsBound(cfg, Some(b), grants + (if from <= now < from + cfg.window && outcome.Granted? then 1 else 0), from, now)
  {
  }

  /** A key's own requests are in time order. */
  ghost predicate KeyInOrder(events: seq<Event>, key: string) {
    forall i, j :: 0 <= i <= j < |events| && events[i].Key() == key && events[j].Key() == key
                   ==> events[i].time <= events[j].time
  }

  lemma {:induction false} GrantsKept(cfg: Config, start: nat, events: seq<Event>, key: string, from: nat, now: nat)
    requires cfg.window > 0 && Timely(cfg, start, events) && KeyInOrder(events, key)
    requires forall i :: 0 <= i < |events| && events[i].Key() == key ==> events[i].time <= now
    ensures GrantsBound(cfg, Ideal(cfg, History(cfg, start, events, key)), GrantsIn(cfg, start, events, key, from), from, now)
    decreases |events|
  {
    hide Ideal, GoodKey, Take, Step, Full, Event.Key, After, Timely;
    if events == [] {
      IdealEmpty(cfg);
    } else {
      var n := |events| - 1;
      var e, before := events[n], History(cfg, start, events[..n], key);
      PrefixTimely(cfg, start, events, n);
      if e.Key() == key {
        GrantsKept(cfg, start, events[..n], key, from, e.time);
        RefinesIdeal(cfg, start, events, n);
        GrantsStep(cfg, Ideal(cfg, before), GrantsIn(cfg, start, events[..n], key, from), from, e.time, e.time);
        IdealSnoc(cfg, before, e.time);
      } else {
        GrantsKept(cfg, start, events[..n], key, from, now);
      }
    }
  }

  lemma IdealEmpty(cfg: Config)
    ensures Ideal(cfg, []) == None
  {
  }

  /** Over any half-open interval one window long a key is granted less than twice its limit, if its own
      requests are in time order and no request is timed before one that pruned ahead of it. */
  lemma TwiceTheLimit(cfg: Config, start: nat, events: seq<Event>, key: string, from: nat)
    requires cfg.window > 0 && Timely(cfg, start, events) && KeyInOrder(events, key)
    ensures GrantsIn(cfg, start, events, key, from) <= Less(cfg.maxPerWindow) + cfg.maxPerWindow
  {
    hide Timely, Event.Key, Latest, Ideal, History, GrantsIn, KeyInOrder;
    GrantsKept(cfg, start, events, key, from, Latest(events));
  }

  function Latest(events: seq<Event>): (t: nat)
    ensures forall i :: 0 <= i < |events| ==> events[i].time <= t
  {
    if events == [] then 0 else
    var t, e := Latest(events[..|events| - 1]), events[|events| - 1];
    if e.time > t then e.time else t
  }

  /** Runs in time order meet both conditions. */
  lemma InOrderSuffices(cfg: Config, start: nat, events: seq<Event>, key: string)
    requires InOrder(events)
    ensures Timely(cfg, start, events) && KeyInOrder(events, key)
  {
  }

  // ----- Keys out of order -----

  /** The same when a key's requests overtake each other: a request may fall into a window that started
      after it, but not before the last pruning, so a third window can add to the interval. */
  ghost predicate SpreadBound(cfg: Config, ideal: Option<Bucket>, grants: nat, from: nat, pruned: nat) {
    var max: nat := cfg.maxPerWindow;
    && (ideal.None? ==> grants == 0)
    && (ideal.Some? ==>
          var b := ideal.value;
          && b.count <= max && (max > 0 ==> b.count > 0) && b.start < pruned + cfg.window
          && grants <= if b.start + cfg.window <= from then 0
                       else if b.start < from then Less(b.count)
                       else if b.start < from + cfg.window then Less(max) + b.count
                       else if b.start < from + 2 * cfg.window then Less(max) + max + Less(b.count)
                       else Less(max) + max + Less(max))
  }

  lemma SpreadStep(cfg: Config, ideal: Option<Bucket>, grants: nat, from: nat, pruned: nat, now: nat)
    requires cfg.window > 0 && pruned <= now && SpreadBound(cfg, ideal, grants, from, pruned)
    ensures var (b, outcome) := Take(cfg, ideal, now);
      SpreadBound(cfg, Some(b), grants + (if from <= now < from + cfg.window && outcome.Granted? then 1 else 0), from,
                  if now - pruned >= cfg.window then now else pruned)
  {
  }

  lemma PrunedGrows(cfg: Config, s: State, e: Event)
    requires cfg.window > 0
    ensures s.lastPruned <= Step(cfg, s, e.rawKey, e.time).0.lastPruned
    ensures GoodKey(e.Key()) ==> Step(cfg, s, e.rawKey, e.time).0.lastPruned
                                 == if Since(e.time, s.lastPruned) >= cfg.window then e.time else s.lastPruned
    ensures !GoodKey(e.Key()) ==> Step(cfg, s, e.rawKey, e.time).0 == s
  {
    hide Decimal.Trim, GoodKey, Take;
  }

  /** The last pruning was at the start of the run or at one of its requests. */
  lemma {:induction false} PrunedBefore(cfg: Config, start: nat, events: seq<Event>, now: nat)
    requires cfg.window > 0 && start <= now && AfterPrunes(cfg, start, events, now)
    ensures After(cfg, start, events).lastPruned <= now
  {
    hide Step, GoodKey, AfterPrunes, Event.Key;
    if events != [] {
      var n := |events| - 1;
      LastPrune(cfg, start, events, now);
      PrunedBefore(cfg, start, events[..n], now);
      PrunedGrows(cfg, After(cfg, start, events[..n]), events[n]);
    }
  }

  /** A key is not asked for before the limiter is made. */
  ghost predicate KeyAfterStart(start: nat, events: seq<Event>, key: string) {
    forall i :: 0 <= i < |events| && events[i].Key() == key ==> start <= events[i].time
  }

  lemma {:induction false} SpreadKept(cfg: Config, start: nat, events: seq<Event>, key: string, from: nat)
    requires cfg.window > 0 && Timely(cfg, start, events) && KeyAfterStart(start, events, key)
    ensures SpreadBound(cfg, Ideal(cfg, History(cfg, start, events, key)), GrantsIn(cfg, start, events, key, from), from,
                        After(cfg, start, events).lastPruned)
  {
    hide Ideal, GoodKey, Take, Step, Full, Event.Key, Timely, AfterPrunes;
    if events == [] {
      IdealEmpty(cfg);
    } else {
      var n := |events| - 1;
      var e, before, s := events[n], History(cfg, start, events[..n], key), After(cfg, start, events[..n]);
      PrefixTimely(cfg, start, events, n);
      SpreadKept(cfg, start, events[..n], key, from);
      PrunedGrows(cfg, s, e);
      if e.Key() == key {
        PrunedBefore(cfg, start, events[..n], e.time);
        RefinesIdeal(cfg, start, events, n);
        SpreadStep(cfg, Ideal(cfg, before), GrantsIn(cfg, start, events[..n], key, from), from, s.lastPruned, e.time);
        IdealSnoc(cfg, before, e.time);
      }
    }
  }

  /** If only no request is timed before one that pruned ahead of it, or before the limiter was made, a
      key is granted at most three times its limit, less two, over any such interval. */
  lemma ThriceTheLimit(cfg: Config, start: nat, events: seq<Event>, key: string, from: nat)
    requires cfg.window > 0 && Timely(cfg, start, events) && KeyAfterStart(start, events, key)
    ensures GrantsIn(cfg, start, events, key, from) <= Less(cfg.maxPerWindow) + cfg.maxPerWindow + Less(cfg.maxPerWindow)
  {
    hide Timely, Event.Key, Ideal, History, GrantsIn, KeyAfterStart, After;
    SpreadKept(cfg, start, events, key, from);
  }

  // ----- The first late request -----

  /** At the first request that may be out of order the answers differ exactly if the key's bucket is
      gone although its window, used up, has not ended by the request's own time. */
  lemma LateAnswerIff(cfg: Config, start: nat, events: seq<Event>, n: nat)
    requires cfg.window > 0 && cfg.maxPerWindow > 0 && n < |events| && Timely(cfg, start, events[..n])
    requires GoodKey(events[n].Key()) && !FullAt(cfg, start, events, n)
    ensures var e, s := events[n], After(cfg, start, events[..n]);
      var ideal := Ideal(cfg, History(cfg, start, events[..n], e.Key()));
      OutcomeAt(cfg, start, events, n) == Take(cfg, ideal, e.time).1
      <==> !(e.Key() !in s.entries && ideal.Some? && Since(e.time, ideal.value.start) < cfg.window
             && ideal.value.count >= cfg.maxPerWindow)
  {
    hide Ideal, History, After, GoodKey, Timely, AfterPrunes, Decimal.Trim, Latest;
    var e, s := events[n], After(cfg, start, events[..n]);
    LatestIsAfter(cfg, start, events[..n]);
    RunTracks(cfg, start, events[..n], e.Key(), Latest(events[..n]));
  }

  lemma LatestIsAfter(cfg: Config, start: nat, events: seq<Event>)
    ensures AfterPrunes(cfg, start, events, Latest(events))
  {
    hide After, GoodKey, Latest;
  }

  // ----- Runs in which the results are sharp, or fail -----

  function Times(key: string, time: nat, k: nat): (r: seq<Event>)
    ensures |r| == k && forall i :: 0 <= i < k ==> r[i] == Event(key, time)
  {
    if k == 0 then [] else Times(key, time, k - 1) + [Event(key, time)]
  }

  lemma PlainKeys()
    ensures Decimal.Trim("a") == "a" && Decimal.Trim("b") == "b" && GoodKey("a") && GoodKey("b")
  {
    assert "a"[1..] == "" && "b"[1..] == "";
  }

  /** Where a run has led, and what `a` was granted. */
  ghost predicate Reached(cfg: Config, events: seq<Event>, s: State, from: nat, grants: nat) {
    After(cfg, 0, events) == s && GrantsIn(cfg, 0, events, "a", from) == grants
  }

  lemma Extend(cfg: Config, events: seq<Event>, e: Event, s: State, s': State, from: nat, grants: nat)
    requires Reached(cfg, events, s, from, grants) && Step(cfg, s, e.rawKey, e.time) == (s', Granted)
    ensures Reached(cfg, events + [e], s', from,
                    grants + if e.Key() == "a" && from <= e.time < from + cfg.window then 1 else 0)
  {
    hide Decimal.Trim, Step;
    assert (events + [e])[..|events|] == events;
  }

  /** A request for a key that is not there. */
  lemma FreshStep(cfg: Config, s: State, key: string, now: nat)
    requires Decimal.Trim(key) == key && GoodKey(key) && cfg.window > 0 && cfg.maxPerWindow > 0
    requires key !in Prune(cfg, s, now).entries && |Prune(cfg, s, now).entries| < MAX_BUCKETS
    ensures var p := Prune(cfg, s, now);
      Step(cfg, s, key, now) == (State(p.entries[key := Bucket(now, 1)], p.lastPruned), Granted)
  {
    hide Decimal.Trim, GoodKey, Prune;
  }

  /** A request for a key that is there, with room in its window or after it. */
  lemma HeldStep(cfg: Config, s: State, key: string, now: nat)
    requires Decimal.Trim(key) == key && GoodKey(key) && cfg.maxPerWindow > 0
    requires key in s.entries && Since(now, s.lastPruned) < cfg.window
    requires Since(now, s.entries[key].start) >= cfg.window || s.entries[key].count < cfg.maxPerWindow
    ensures var b := s.entries[key];
      var b' := if Since(now, b.start) >= cfg.window then Bucket(now, 1) else Bucket(b.start, b.count + 1);
      Step(cfg, s, key, now) == (State(s.entries[key := b'], s.lastPruned), Granted)
  {
    hide Decimal.Trim, GoodKey;
  }

  lemma {:induction false} PrunesUpTo(cfg: Config, start: nat, events: seq<Event>)
    requires cfg.window > 0
    ensures AfterPrunes(cfg, start, events, After(cfg, start, events).lastPruned)
  {
    hide Step, GoodKey, Event.Key, After;
    if events != [] {
      var n := |events| - 1;
      PrunesUpTo(cfg, start, events[..n]);
      PrunedGrows(cfg, After(cfg, start, events[..n]), events[n]);
      PrunesInPrefix(cfg, start, events, n);
      LastRequest(cfg, start, events, "");
    }
  }

  lemma TimelyNext(cfg: Config, start: nat, events: seq<Event>, e: Event)
    requires cfg.window > 0 && Timely(cfg, start, events) && After(cfg, start, events).lastPruned <= e.time
    ensures Timely(cfg, start, events + [e])
  {
    hide GoodKey, Event.Key, After;
    PrunesUpTo(cfg, start, events);
    PrunesInPrefix(cfg, start, events + [e], |events|);
    assert (events + [e])[..|events|] == events;
  }

  /** Repeated requests within one window are all granted while they fit. */
  lemma {:induction false} Repeated(cfg: Config, events: seq<Event>, s: State, now: nat, k: nat, from: nat, grants: nat)
    requires cfg.window > 0 && Timely(cfg, 0, events) && Reached(cfg, events, s, from, grants)
    requires "a" in s.entries && s.entries["a"].count + k <= cfg.maxPerWindow
    requires s.lastPruned <= now < s.lastPruned + cfg.window && now < s.entries["a"].start + cfg.window
    ensures var b := s.entries["a"];
      var m := events + Times("a", now, k);
      && Timely(cfg, 0, m)
      && Reached(cfg, m, State(s.entries["a" := Bucket(b.start, b.count + k)], s.lastPruned), from,
                 grants + if from <= now < from + cfg.window then k else 0)
  {
    hide Decimal.Trim, GoodKey, Step, Timely, After, GrantsIn;
    PlainKeys();
    if k == 0 {
      assert events + [] == events;
      assert s.entries["a" := s.entries["a"]] == s.entries;
    } else {
      var b := s.entries["a"];
      var sofar := events + Times("a", now, k - 1);
      var s1 := State(s.entries["a" := Bucket(b.start, b.count + k - 1)], s.lastPruned);
      Repeated(cfg, events, s, now, k - 1, from, grants);
      HeldStep(cfg, s1, "a", now);
      Extend(cfg, sofar, Event("a", now), s1, Step(cfg, s1, "a", now).0, from,
             grants + if from <= now < from + cfg.window then k - 1 else 0);
      TimelyNext(cfg, 0, sofar, Event("a", now));
      assert s.entries["a" := Bucket(b.start, b.count + k - 1)]["a" := Bucket(b.start, b.count + k)]
          == s.entries["a" := Bucket(b.start, b.count + k)];
      assert events + Times("a", now, k) == sofar + [Event("a", now)];
    }
  }

  /** The first request after a pause, or a key's first. */
  lemma Asked(cfg: Config, events: seq<Event>, e: Event, s: State, s': State, from: nat, grants: nat)
    requires cfg.window > 0 && Timely(cfg, 0, events) && Reached(cfg, events, s, from, grants)
    requires s.lastPruned <= e.time && Step(cfg, s, e.rawKey, e.time) == (s', Granted)
    ensures Timely(cfg, 0, events + [e])
    ensures Reached(cfg, events + [e], s', from,
                    grants + if e.Key() == "a" && from <= e.time < from + cfg.window then 1 else 0)
  {
    hide Decimal.Trim, GoodKey, Step, Timely, GrantsIn;
    TimelyNext(cfg, 0, events, e);
    Extend(cfg, events, e, s, s', from, grants);
  }

  /** In time order: `a` opens a window, waits for its last moment, and opens the next one. */
  function Rush(cfg: Config): seq<Event>
    requires cfg.maxPerWindow > 0
  {
    var w, max: nat := cfg.window, cfg.maxPerWindow;
    [Event("a", 2), Event("b", w)] + Times("a", w + 1, max - 1) + [Event("a", w + 2)] + Times("a", w + 2, max - 1)
  }

  /** Then the requests that opened a third window are overtaken by earlier ones. */
  function Spread(cfg: Config): seq<Event>
    requires cfg.maxPerWindow > 0
  {
    var w, max: nat := cfg.window, cfg.maxPerWindow;
    Rush(cfg) + [Event("b", 2 * w)] + [Event("a", 2 * w + 2)] + Times("a", 2 * w, max - 1)
  }

  lemma RushOpens(cfg: Config)
    requires cfg.window > 2 && cfg.maxPerWindow > 0
    ensures var w, events := cfg.window, [Event("a", 2), Event("b", cfg.window)];
      && Timely(cfg, 0, events)
      && Reached(cfg, events, State(map["a" := Bucket(2, 1), "b" := Bucket(w, 1)], w), w + 1, 0)
  {
    hide Decimal.Trim, GoodKey, Step, Timely;
    PlainKeys();
    var w, s0 := cfg.window, State(map[], 0);
    var s1 := State(map["a" := Bucket(2, 1)], 0);
    assert Timely(cfg, 0, []) by { EmptyTimely(cfg); }
    FreshStep(cfg, s0, "a", 2);
    Asked(cfg, [], Event("a", 2), s0, s1, w + 1, 0);
    assert [] + [Event("a", 2)] == [Event("a", 2)];
    assert Prune(cfg, s1, w).entries == s1.entries;
    FreshStep(cfg, s1, "b", w);
    Asked(cfg, [Event("a", 2)], Event("b", w), s1, State(s1.entries["b" := Bucket(w, 1)], w), w + 1, 0);
    assert [Event("a", 2)] + [Event("b", w)] == [Event("a", 2), Event("b", w)];
  }

  lemma EmptyTimely(cfg: Config)
    ensures Timely(cfg, 0, [])
  {
  }

  lemma RushReaches(cfg: Config)
    requires cfg.window > 2 && cfg.maxPerWindow > 0
    ensures var w, max: nat := cfg.window, cfg.maxPerWindow;
      && Timely(cfg, 0, Rush(cfg))
      && Reached(cfg, Rush(cfg), State(map["a" := Bucket(w + 2, max), "b" := Bucket(w, 1)], w), w + 1, Less(max) + max)
  {
    hide Decimal.Trim, GoodKey, Step, Timely, Reached;
    PlainKeys();
    var w, max: nat := cfg.window, cfg.maxPerWindow;
    var m0 := [Event("a", 2), Event("b", w)];
    var m1 := m0 + Times("a", w + 1, max - 1);
    var m2 := m1 + [Event("a", w + 2)];
    var s0 := State(map["a" := Bucket(2, 1), "b" := Bucket(w, 1)], w);
    var s1 := State(s0.entries["a" := Bucket(2, max)], w);
    var s2 := State(s1.entries["a" := Bucket(w + 2, 1)], w);
    RushOpens(cfg);
    Repeated(cfg, m0, s0, w + 1, max - 1, w + 1, 0);
    HeldStep(cfg, s1, "a", w + 2);
    Asked(cfg, m1, Event("a", w + 2), s1, s2, w + 1, max - 1);
    Repeated(cfg, m2, s2, w + 2, max - 1, w + 1, max);
    assert s2.entries["a" := Bucket(w + 2, max)] == map["a" := Bucket(w + 2, max), "b" := Bucket(w, 1)];
  }

  /** The bound of `TwiceTheLimit` is met by a run in time order, for every window and limit. */
  lemma TwiceIsMet(cfg: Config)
    requires cfg.window > 2 && cfg.maxPerWindow > 0
    ensures InOrder(Rush(cfg))
    ensures GrantsIn(cfg, 0, Rush(cfg), "a", cfg.window + 1) == Less(cfg.maxPerWindow) + cfg.maxPerWindow
  {
    hide GrantsIn, Timely, After;
    RushReaches(cfg);
  }

  /** The bound of `ThriceTheLimit` is met too, so beyond a limit of one the smaller bound fails. */
  lemma ThriceIsMet(cfg: Config)
    requires cfg.window > 2 && cfg.maxPerWindow > 0
    ensures var max: nat := cfg.maxPerWindow;
      && Timely(cfg, 0, Spread(cfg)) && KeyAfterStart(0, Spread(cfg), "a")
      && GrantsIn(cfg, 0, Spread(cfg), "a", cfg.window + 1) == Less(max) + max + Less(max)
  {
    hide Decimal.Trim, GoodKey, Step, Timely, After, GrantsIn, Rush, Prune;
    PlainKeys();
    var w, max: nat := cfg.window, cfg.maxPerWindow;
    var m0 := Rush(cfg);
    var m1 := m0 + [Event("b", 2 * w)];
    var m2 := m1 + [Event("a", 2 * w + 2)];
    var s0 := State(map["a" := Bucket(w + 2, max), "b" := Bucket(w, 1)], w);
    var s1 := State(map["a" := Bucket(w + 2, max), "b" := Bucket(2 * w, 1)], 2 * w);
    var s2 := State(s1.entries["a" := Bucket(2 * w + 2, 1)], 2 * w);
    RushReaches(cfg);
    SpreadPrunes(cfg);
    FreshStep(cfg, s0, "b", 2 * w);
    assert map["a" := Bucket(w + 2, max)]["b" := Bucket(2 * w, 1)] == s1.entries;
    Asked(cfg, m0, Event("b", 2 * w), s0, s1, w + 1, Less(max) + max);
    HeldStep(cfg, s1, "a", 2 * w + 2);
    Asked(cfg, m1, Event("a", 2 * w + 2), s1, s2, w + 1, Less(max) + max);
    Repeated(cfg, m2, s2, 2 * w, max - 1, w + 1, Less(max) + max);
  }

  lemma SpreadPrunes(cfg: Config)
    requires cfg.window > 2
    ensures var w, max: nat := cfg.window, cfg.maxPerWindow;
      Prune(cfg, State(map["a" := Bucket(w + 2, max), "b" := Bucket(w, 1)], w), 2 * w)
      == State(map["a" := Bucket(w + 2, max)], 2 * w)
  {
  }

  /** Every key is in time order, but each request of `a` comes after a pruning at a later time. */
  function Overtaken(cfg: Config, n: nat): (r: seq<Event>)
    ensures forall i :: 0 <= i < |r| ==> r[i] == Event("a", 0) || r[i].rawKey == "b"
  {
    if n == 0 then [] else Overtaken(cfg, n - 1) + [Event("a", 0)] + [Event("b", n * cfg.window)]
  }

  lemma {:induction false} OvertakenReaches(cfg: Config, n: nat)
    requires cfg.window > 0 && cfg.maxPerWindow > 0
    ensures Reached(cfg, Overtaken(cfg, n), State(if n == 0 then map[] else map["b" := Bucket(n * cfg.window, 1)], n * cfg.window), 0, n)
  {
    hide Decimal.Trim, GoodKey, Step, Prune;
    PlainKeys();
    if n > 0 {
      var w, t := cfg.window, (n - 1) * cfg.window;
      var s0 := State(if n == 1 then map[] else map["b" := Bucket(t, 1)], t);
      var s1 := State(s0.entries["a" := Bucket(0, 1)], t);
      OvertakenReaches(cfg, n - 1);
      assert n * w == t + w;
      OvertakenPrunes(cfg, s0, s1, t);
      FreshStep(cfg, s0, "a", 0);
      Extend(cfg, Overtaken(cfg, n - 1), Event("a", 0), s0, s1, 0, n - 1);
      FreshStep(cfg, s1, "b", t + w);
      Extend(cfg, Overtaken(cfg, n - 1) + [Event("a", 0)], Event("b", t + w), s1,
             State(map["b" := Bucket(t + w, 1)], t + w), 0, n);
    }
  }

  lemma OvertakenPrunes(cfg: Config, s0: State, s1: State, t: nat)
    requires cfg.window > 0 && s0.lastPruned == s1.lastPruned == t
    requires s0.entries == map[] || s0.entries == map["b" := Bucket(t, 1)]
    requires s1.entries == s0.entries["a" := Bucket(0, 1)]
    ensures Prune(cfg, s0, 0) == s0 && Prune(cfg, s1, t + cfg.window) == State(map[], t + cfg.window)
  {
  }

  /** Without order between a pruning and what follows it no bound is left, though `a` keeps its own
      order: its grants in one window are as many as wanted. */
  lemma NoBoundOvertaken(cfg: Config, n: nat)
    requires cfg.window > 0 && cfg.maxPerWindow > 0
    ensures KeyInOrder(Overtaken(cfg, n), "a") && GrantsIn(cfg, 0, Overtaken(cfg, n), "a", 0) == n
  {
    hide Decimal.Trim, GrantsIn, After;
    PlainKeys();
    OvertakenReaches(cfg, n);
  }

  /** `a` is asked at 0, `b` prunes it one window later, then `a` comes late. */
  const LATE: seq<Event> := [Event("a", 0), Event("b", ONE_SECOND), Event("a", ONE_SECOND - 1)]

  lemma LateState(cfg: Config)
    requires cfg == Config(ONE_SECOND, 1)
    ensures LATE[..2] == Overtaken(cfg, 1) && After(cfg, 0, LATE[..1]) == State(map["a" := Bucket(0, 1)], 0)
    ensures After(cfg, 0, LATE[..2]) == State(map["b" := Bucket(ONE_SECOND, 1)], ONE_SECOND)
  {
    hide Decimal.Trim, GoodKey, Step, Prune, GrantsIn;
    PlainKeys();
    var s0, s1 := State(map[], 0), State(map["a" := Bucket(0, 1)], 0);
    OvertakenReaches(cfg, 1);
    OvertakenPrunes(cfg, s0, s1, 0);
    FreshStep(cfg, s0, "a", 0);
    assert LATE[..1] == [Event("a", 0)] && LATE[..0] == [];
    AfterSnoc(cfg, [], Event("a", 0));
    assert Overtaken(cfg, 0) == [];
    assert LATE[..2] == [] + [Event("a", 0)] + [Event("b", 1 * cfg.window)];
  }

  lemma AfterSnoc(cfg: Config, events: seq<Event>, e: Event)
    ensures After(cfg, 0, events + [e]) == Step(cfg, After(cfg, 0, events), e.rawKey, e.time).0
  {
    hide Step;
    assert (events + [e])[..|events|] == events;
  }

  /** Where `RefinesIdeal` fails without its condition: this run is not timely, and its last request is
      granted although the ideal limiter refuses it. The size and count bounds of `ReachableBounded`
      need no order. */
  lemma LateIsGranted(cfg: Config)
    requires cfg == Config(ONE_SECOND, 1)
    ensures !Timely(cfg, 0, LATE) && GoodKey(LATE[2].Key()) && !FullAt(cfg, 0, LATE, 2)
    ensures OutcomeAt(cfg, 0, LATE, 2).Granted?
    ensures Take(cfg, Ideal(cfg, History(cfg, 0, LATE[..2], LATE[2].Key())), LATE[2].time).1.Limited?
  {
    hide Decimal.Trim, GoodKey, After, Timely;
    PlainKeys();
    LateState(cfg);
    LateHistory(cfg);
    assert PrunesAt(cfg, 0, LATE, 1);
    assert !Timely(cfg, 0, LATE) by { NotTimely(cfg, 0, LATE, 1, 2); }
    IdealEmpty(cfg);
    IdealSnoc(cfg, [], 0);
    assert [] + [0] == [0];
  }

  lemma NotTimely(cfg: Config, start: nat, events: seq<Event>, m: nat, n: nat)
    requires m < n < |events| && PrunesAt(cfg, start, events, m) && events[n].time < events[m].time
    ensures !Timely(cfg, start, events)
  {
    hide GoodKey, Event.Key, After;
  }

  lemma LateHistory(cfg: Config)
    requires cfg == Config(ONE_SECOND, 1)
    ensures History(cfg, 0, LATE[..2], "a") == [0]
  {
    hide Decimal.Trim, GoodKey, After, History;
    PlainKeys();
    AfterNothing(cfg);
    assert LATE[..2][..1] == LATE[..1] && LATE[..1][..0] == [];
    LastRequest(cfg, 0, LATE[..2], "a");
    LastRequest(cfg, 0, LATE[..1], "a");
    assert [] + [0] == [0];
  }

  lemma AfterNothing(cfg: Config)
    ensures After(cfg, 0, []) == State(map[], 0) && History(cfg, 0, [], "a") == []
  {
  }
}
