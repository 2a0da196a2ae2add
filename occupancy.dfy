/**
 The occupancy-log aggregator: for every station prefix, an append-only log
 of (time, occupant) events in which no two consecutive events name the same
 occupant. `Ingest` is the reference definition of one `StationLoaded` batch;
 the lemmas below state what a batch does to the logs.
 */
module Occupancy {
  import opened Data

  type Log = seq<Event>
  type Logs = map<string, Log>

  /** No two consecutive events of a log name the same occupant. */
  predicate Deduped(log: Log)
  {
    forall i :: 0 < i < |log| ==> log[i - 1].occupant != log[i].occupant
  }

  /** Every log of the map is deduplicated. */
  predicate AllDeduped(logs: Logs)
  {
    forall k :: k in logs ==> Deduped(logs[k])
  }

  /** The log of a prefix, or the empty log when the prefix was never observed. */
  function LogOf(logs: Logs, prefix: string): Log
  {
    if prefix in logs then logs[prefix] else []
  }

  /**
   One station of a batch: its log is created if missing, and an event
   `(now, occupant)` is appended unless the last event already names that occupant.
   */
  function Observe(logs: Logs, st: Station, now: int): Logs
  {
    var log := LogOf(logs, st.prefix);
    var who := Occupant(st);
    if log != [] && log[|log| - 1].occupant == who then logs
    else logs[st.prefix := log + [Event(now, who)]]
  }

  /** A whole batch, station after station, in the order the batch lists them. */
  function Ingest(logs: Logs, batch: seq<Station>, now: int): Logs
    decreases |batch|
  {
    if batch == [] then logs
    else Observe(Ingest(logs, batch[..|batch| - 1], now), batch[|batch| - 1], now)
  }

  /** How many stations of the batch carry the prefix `k`. */
  function Count(batch: seq<Station>, k: string): nat
    decreases |batch|
  {
    if batch == [] then 0
    else Count(batch[..|batch| - 1], k) + (if batch[|batch| - 1].prefix == k then 1 else 0)
  }

  /** The set of prefixes a batch mentions. */
  function Prefixes(batch: seq<Station>): set<string>
  {
    set i | 0 <= i < |batch| :: batch[i].prefix
  }

  lemma ObserveKeepsDedup(logs: Logs, st: Station, now: int)
    requires AllDeduped(logs)
    ensures AllDeduped(Observe(logs, st, now))
  {
    var log := LogOf(logs, st.prefix);
    var r := Observe(logs, st, now);
    if !(log != [] && log[|log| - 1].occupant == Occupant(st)) {
      var log' := log + [Event(now, Occupant(st))];
      forall i | 0 < i < |log'|
        ensures log'[i - 1].occupant != log'[i].occupant
      {
        if i < |log| {
          assert log'[i - 1] == log[i - 1] && log'[i] == log[i];
        }
      }
    }
  }

  /** Dedup invariant: a batch never puts two equal occupants next to each other. */
  lemma {:induction false} IngestKeepsDedup(logs: Logs, batch: seq<Station>, now: int)
    requires AllDeduped(logs)
    ensures AllDeduped(Ingest(logs, batch, now))
    decreases |batch|
  {
    if batch != [] {
      var n := |batch| - 1;
      IngestKeepsDedup(logs, batch[..n], now);
      ObserveKeepsDedup(Ingest(logs, batch[..n], now), batch[n], now);
    }
  }

  lemma PrefixesOfSnoc(batch: seq<Station>)
    requires batch != []
    ensures Prefixes(batch) == Prefixes(batch[..|batch| - 1]) + {batch[|batch| - 1].prefix}
  {
    var n := |batch| - 1;
    forall k | k in Prefixes(batch) ensures k in Prefixes(batch[..n]) + {batch[n].prefix} {
      var i :| 0 <= i < |batch| && batch[i].prefix == k;
      if i < n { assert batch[..n][i] == batch[i]; }
    }
    forall k | k in Prefixes(batch[..n]) ensures k in Prefixes(batch) {
      var i :| 0 <= i < n && batch[..n][i].prefix == k;
      assert batch[i].prefix == k;
    }
  }

  /** A batch of one station is that station's observation. */
  lemma IngestOne(logs: Logs, st: Station, now: int)
    ensures Ingest(logs, [st], now) == Observe(logs, st, now)
  {
    assert [st][..0] == [];
  }

  /**
   After a batch the map holds exactly the old prefixes and those of the batch,
   and every prefix of the batch has at least one event.
   */
  lemma {:induction false} IngestCovers(logs: Logs, batch: seq<Station>, now: int)
    ensures Ingest(logs, batch, now).Keys == logs.Keys + Prefixes(batch)
    ensures forall i :: 0 <= i < |batch| ==> Ingest(logs, batch, now)[batch[i].prefix] != []
    decreases |batch|
  {
    if batch != [] {
      var n := |batch| - 1;
      var mid := Ingest(logs, batch[..n], now);
      var r := Ingest(logs, batch, now);
      IngestCovers(logs, batch[..n], now);
      PrefixesOfSnoc(batch);
      forall i | 0 <= i < |batch| ensures r[batch[i].prefix] != [] {
        if i < n && batch[i].prefix != batch[n].prefix {
          assert batch[..n][i] == batch[i];
          assert mid[batch[i].prefix] != [];
        }
      }
    }
  }

  /**
   Append-only: every old log is a prefix of its new log, a log grows by at
   most one event per station of the batch that carries its prefix, and every
   new event carries the batch's time and the occupant of one such station.
   */
  lemma {:induction false} IngestAppendOnly(logs: Logs, batch: seq<Station>, now: int)
    ensures forall k :: LogOf(logs, k) <= LogOf(Ingest(logs, batch, now), k)
    ensures forall k :: |LogOf(Ingest(logs, batch, now), k)| <= |LogOf(logs, k)| + Count(batch, k)
    ensures forall k, j :: |LogOf(logs, k)| <= j < |LogOf(Ingest(logs, batch, now), k)| ==>
              LogOf(Ingest(logs, batch, now), k)[j].at == now &&
              exists i :: 0 <= i < |batch| && batch[i].prefix == k &&
                          Occupant(batch[i]) == LogOf(Ingest(logs, batch, now), k)[j].occupant
    decreases |batch|
  {
    if batch != [] {
      var n := |batch| - 1;
      var mid := Ingest(logs, batch[..n], now);
      var r := Ingest(logs, batch, now);
      IngestAppendOnly(logs, batch[..n], now);
      assert r == Observe(mid, batch[n], now);
      forall k, j | |LogOf(logs, k)| <= j < |LogOf(r, k)|
        ensures LogOf(r, k)[j].at == now
        ensures exists i :: 0 <= i < |batch| && batch[i].prefix == k &&
                            Occupant(batch[i]) == LogOf(r, k)[j].occupant
      {
        assert LogOf(mid, k) <= LogOf(r, k);
        if j < |LogOf(mid, k)| {
          assert |LogOf(logs, k)| <= j < |LogOf(mid, k)|;
          assert LogOf(r, k)[j] == LogOf(mid, k)[j];
          var i :| 0 <= i < n && batch[..n][i].prefix == k &&
                   Occupant(batch[..n][i]) == LogOf(mid, k)[j].occupant;
          assert batch[i] == batch[..n][i];
          assert 0 <= i < |batch| && batch[i].prefix == k && Occupant(batch[i]) == LogOf(r, k)[j].occupant;
        } else {
          assert batch[n].prefix == k && LogOf(r, k)[j] == Event(now, Occupant(batch[n]));
          assert 0 <= n < |batch| && batch[n].prefix == k && Occupant(batch[n]) == LogOf(r, k)[j].occupant;
        }
      }
    }
  }

  /** Prefixes the batch does not mention are neither created nor changed. */
  lemma {:induction false} IngestLeavesOthers(logs: Logs, batch: seq<Station>, now: int, k: string)
    requires forall i :: 0 <= i < |batch| ==> batch[i].prefix != k
    ensures k in Ingest(logs, batch, now) <==> k in logs
    ensures k in logs ==> Ingest(logs, batch, now)[k] == logs[k]
    decreases |batch|
  {
    if batch != [] {
      var n := |batch| - 1;
      forall i | 0 <= i < n ensures batch[..n][i].prefix != k {
        assert batch[..n][i] == batch[i];
      }
      IngestLeavesOthers(logs, batch[..n], now, k);
    }
  }

  /** An empty batch leaves every log as it was. */
  lemma EmptyBatchChangesNothing(logs: Logs, now: int)
    ensures Ingest(logs, [], now) == logs
  {
  }

  /**
   The last event of a station's log names the occupant of the last station of
   the batch with that prefix: the first dispatcher's Steam id, or "BOT".
   */
  lemma {:induction false} IngestLastOccupant(logs: Logs, batch: seq<Station>, now: int, i: int)
    requires 0 <= i < |batch|
    requires forall j :: i < j < |batch| ==> batch[j].prefix != batch[i].prefix
    ensures batch[i].prefix in Ingest(logs, batch, now)
    ensures var log := Ingest(logs, batch, now)[batch[i].prefix];
            log != [] &&
            log[|log| - 1].occupant ==
              (if |batch[i].dispatchedBy| > 0 then batch[i].dispatchedBy[0].steamId else "BOT")
    decreases |batch|
  {
    var n := |batch| - 1;
    var p := batch[i].prefix;
    var mid := Ingest(logs, batch[..n], now);
    var r := Ingest(logs, batch, now);
    assert r == Observe(mid, batch[n], now);
    if i < n {
      forall j | i < j < n ensures batch[..n][j].prefix != batch[..n][i].prefix {
        assert batch[..n][j] == batch[j];
      }
      IngestLastOccupant(logs, batch[..n], now, i);
      assert batch[..n][i] == batch[i];
      assert batch[n].prefix != p;
      assert p in r && r[p] == mid[p];
    } else {
      assert p in r && r[p] != [] && r[p][|r[p]| - 1].occupant == Occupant(batch[i]);
    }
  }

  /**
   Every station of the batch with prefix `k` finds `log` non-empty and ending
   with that station's occupant.
   */
  predicate Settled(log: Log, k: string, batch: seq<Station>)
  {
    forall i :: 0 <= i < |batch| && batch[i].prefix == k ==>
      log != [] && Occupant(batch[i]) == log[|log| - 1].occupant
  }

  lemma SettledOfSnoc(log: Log, k: string, batch: seq<Station>)
    requires batch != []
    ensures Settled(log, k, batch) <==>
              Settled(log, k, batch[..|batch| - 1]) &&
              (batch[|batch| - 1].prefix == k ==>
                 log != [] && Occupant(batch[|batch| - 1]) == log[|log| - 1].occupant)
  {
    var n := |batch| - 1;
    if Settled(log, k, batch) {
      forall i | 0 <= i < n && batch[..n][i].prefix == k
        ensures log != [] && Occupant(batch[..n][i]) == log[|log| - 1].occupant
      {
        assert batch[..n][i] == batch[i];
      }
    }
    if Settled(log, k, batch[..n]) {
      forall i | 0 <= i < n && batch[i].prefix == k
        ensures log != [] && Occupant(batch[i]) == log[|log| - 1].occupant
      {
        assert batch[..n][i] == batch[i];
      }
    }
  }

  /**
   A log is left exactly as it was (original timestamps included) if and only if
   it is settled for the batch: every station of the batch with its prefix finds
   it non-empty and ending with that station's occupant.
   */
  lemma {:induction false} IngestUnchangedIff(logs: Logs, batch: seq<Station>, now: int, k: string)
    requires k in logs
    ensures k in Ingest(logs, batch, now)
    ensures Ingest(logs, batch, now)[k] == logs[k] <==> Settled(logs[k], k, batch)
    decreases |batch|
  {
    if batch != [] {
      var n := |batch| - 1;
      var mid := Ingest(logs, batch[..n], now);
      IngestUnchangedIff(logs, batch[..n], now, k);
      SettledOfSnoc(logs[k], k, batch);
      if mid[k] != logs[k] {
        IngestAppendOnly(logs, batch[..n], now);
        assert LogOf(logs, k) <= LogOf(mid, k);
        assert |Ingest(logs, batch, now)[k]| >= |mid[k]| > |logs[k]|;
      }
    }
  }

  /**
   An occupant that leaves and returns is recorded three times: with batches
   of one station each, A then B then A gives three events at t1, t2 and t3.
   */
  lemma ReturningOccupantIsRecorded(a: Station, b: Station, c: Station, t1: int, t2: int, t3: int)
    requires a.prefix == b.prefix == c.prefix
    requires Occupant(a) == Occupant(c) != Occupant(b)
    ensures Ingest(Ingest(Ingest(map[], [a], t1), [b], t2), [c], t3)[a.prefix] ==
            [Event(t1, Occupant(a)), Event(t2, Occupant(b)), Event(t3, Occupant(a))]
  {
    var l1 := Ingest(map[], [a], t1);
    IngestOne(map[], a, t1);
    var l2 := Ingest(l1, [b], t2);
    IngestOne(l1, b, t2);
    IngestOne(l2, c, t3);
  }

  /** The same occupant seen twice keeps one event with its first timestamp. */
  lemma SameOccupantKeepsFirstTime(a: Station, b: Station, t1: int, t2: int)
    requires a.prefix == b.prefix && Occupant(a) == Occupant(b)
    ensures Ingest(Ingest(map[], [a], t1), [b], t2)[a.prefix] == [Event(t1, Occupant(a))]
  {
    var l1 := Ingest(map[], [a], t1);
    IngestOne(map[], a, t1);
    IngestOne(l1, b, t2);
  }
}
