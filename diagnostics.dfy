/** `CacheDiagnostics`: request, hit, miss, fallback, error and
    stampede-prevention counters, plus a hit count per cache layer. Every
    request is a hit or a miss, and every hit is credited to one layer. */
module CacheDiagnosticsCounters {

  /** One recorded event. */
  datatype Record = Hit(layerName: string) | Miss | Fallback | Error | StampedePrevention

  /** The counters at one moment (`CacheStats` without its two ratios). */
  datatype Counters = Counters(
    totalRequests: nat,
    hits: nat,
    misses: nat,
    fallbacks: nat,
    errors: nat,
    stampedePreventions: nat,
    layerHits: map<string, nat>)

  const Zero: Counters := Counters(0, 0, 0, 0, 0, 0, map[])

  /** The sum of the per-layer hit counts. */
  ghost function SumHits(m: map<string, nat>): nat
    decreases |m.Keys|
  {
    if m == map[] then 0
    else
      var k :| k in m;
      m[k] + SumHits(m - {k})
  }

  /** The sum does not depend on which layer the definition takes first. */
  lemma {:induction false} SumHitsRemove(m: map<string, nat>, k: string)
    requires k in m
    ensures SumHits(m) == m[k] + SumHits(m - {k})
    decreases |m.Keys|
  {
    var j :| j in m && SumHits(m) == m[j] + SumHits(m - {j});
    if j != k {
      assert (m - {j}).Keys == m.Keys - {j};
      SumHitsRemove(m - {j}, k);
      assert (m - {k}).Keys == m.Keys - {k};
      SumHitsRemove(m - {k}, j);
      assert m - {j} - {k} == m - {k} - {j};
    }
  }

  /** Crediting one more hit to a layer adds one to the sum. */
  lemma SumHitsIncrement(m: map<string, nat>, k: string)
    ensures SumHits(m[k := if k in m then m[k] + 1 else 1]) == SumHits(m) + 1
  {
    var m' := m[k := if k in m then m[k] + 1 else 1];
    SumHitsRemove(m', k);
    assert m' - {k} == m - {k};
    if k in m {
      SumHitsRemove(m, k);
    } else {
      assert m - {k} == m;
    }
  }

  /** total = hits + misses, and the layer counts add up to the hits. */
  ghost predicate Consistent(c: Counters)
  {
    c.totalRequests == c.hits + c.misses && SumHits(c.layerHits) == c.hits
  }

  /** The counters after one `Record*` call. */
  function Apply(c: Counters, r: Record): (d: Counters)
    ensures d.totalRequests == c.totalRequests + (if r.Hit? || r.Miss? then 1 else 0)
    ensures d.hits >= c.hits && d.misses >= c.misses && d.fallbacks >= c.fallbacks
            && d.errors >= c.errors && d.stampedePreventions >= c.stampedePreventions
    ensures d.hits + d.misses + d.fallbacks + d.errors + d.stampedePreventions ==
              c.hits + c.misses + c.fallbacks + c.errors + c.stampedePreventions + 1
    ensures forall l :: l in c.layerHits ==> l in d.layerHits && d.layerHits[l] >= c.layerHits[l]
  {
    match r
    case Hit(layer) =>
      c.(totalRequests := c.totalRequests + 1, hits := c.hits + 1,
         layerHits := c.layerHits[layer := if layer in c.layerHits then c.layerHits[layer] + 1 else 1])
    case Miss => c.(totalRequests := c.totalRequests + 1, misses := c.misses + 1)
    case Fallback => c.(fallbacks := c.fallbacks + 1)
    case Error => c.(errors := c.errors + 1)
    case StampedePrevention => c.(stampedePreventions := c.stampedePreventions + 1)
  }

  /** Every `Record*` call keeps the counters consistent. */
  lemma ApplyKeepsConsistent(c: Counters, r: Record)
    requires Consistent(c)
    ensures Consistent(Apply(c, r))
  {
    if r.Hit? {
      SumHitsIncrement(c.layerHits, r.layerName);
    }
  }

  /** The counters after the records `rs`, starting from `Reset`. */
  function Replay(rs: seq<Record>): Counters
  {
    if rs == [] then Zero else Apply(Replay(rs[..|rs| - 1]), rs[|rs| - 1])
  }

  function CountHits(rs: seq<Record>, layer: string): nat
  {
    if rs == [] then 0 else CountHits(rs[..|rs| - 1], layer) + (if rs[|rs| - 1] == Hit(layer) then 1 else 0)
  }

  function CountOf(rs: seq<Record>, r: Record): nat
  {
    if rs == [] then 0 else CountOf(rs[..|rs| - 1], r) + (if rs[|rs| - 1] == r then 1 else 0)
  }

  function CountAllHits(rs: seq<Record>): nat
  {
    if rs == [] then 0 else CountAllHits(rs[..|rs| - 1]) + (if rs[|rs| - 1].Hit? then 1 else 0)
  }

  /** Whatever was recorded since the last `Reset`, each counter counts its
      own records, a layer's count is the number of hits credited to it (a
      layer with none is absent), and the counters are consistent. */
  lemma {:induction false} ReplayCounts(rs: seq<Record>)
    ensures var c := Replay(rs);
            && Consistent(c)
            && c.hits == CountAllHits(rs)
            && c.misses == CountOf(rs, Miss)
            && c.totalRequests == CountAllHits(rs) + CountOf(rs, Miss)
            && c.fallbacks == CountOf(rs, Fallback)
            && c.errors == CountOf(rs, Error)
            && c.stampedePreventions == CountOf(rs, StampedePrevention)
            && (forall layer :: layer in c.layerHits <==> CountHits(rs, layer) > 0)
            && (forall layer :: layer in c.layerHits ==> c.layerHits[layer] == CountHits(rs, layer))
  {
    if rs != [] {
      ReplayCounts(rs[..|rs| - 1]);
      ApplyKeepsConsistent(Replay(rs[..|rs| - 1]), rs[|rs| - 1]);
    }
  }

  /** The counters as `GetStats` reports them. The layer map is a value, so
      the report is independent of later records. */
  datatype CacheStats = CacheStats(
    totalRequests: nat,
    hits: nat,
    misses: nat,
    fallbacks: nat,
    errors: nat,
    stampedePreventions: nat,
    layerHits: map<string, nat>)

  class CacheDiagnostics {
    var totalRequests: nat
    var hits: nat
    var misses: nat
    var fallbacks: nat
    var errors: nat
    var stampedePreventions: nat
    var layerHits: map<string, nat>

    function Snapshot(): Counters
      reads this
    {
      Counters(totalRequests, hits, misses, fallbacks, errors, stampedePreventions, layerHits)
    }

    ghost predicate Valid()
      reads this
    {
      Consistent(Snapshot())
    }

    constructor()
      ensures Valid() && Snapshot() == Zero
    {
      totalRequests, hits, misses, fallbacks, errors, stampedePreventions := 0, 0, 0, 0, 0, 0;
      layerHits := map[];
    }

    method RecordHit(layerName: string)
      requires Valid()
      modifies this
      ensures Valid() && Snapshot() == Apply(old(Snapshot()), Hit(layerName))
    {
      ApplyKeepsConsistent(Snapshot(), Hit(layerName));
      totalRequests := totalRequests + 1;
      hits := hits + 1;
      layerHits := layerHits[layerName := if layerName in layerHits then layerHits[layerName] + 1 else 1];
    }

    method RecordMiss()
      requires Valid()
      modifies this
      ensures Valid() && Snapshot() == Apply(old(Snapshot()), Miss)
    {
      totalRequests := totalRequests + 1;
      misses := misses + 1;
    }

    method RecordFallback()
      requires Valid()
      modifies this
      ensures Valid() && Snapshot() == Apply(old(Snapshot()), Fallback)
    {
      fallbacks := fallbacks + 1;
    }

    method RecordError()
      requires Valid()
      modifies this
      ensures Valid() && Snapshot() == Apply(old(Snapshot()), Error)
    {
      errors := errors + 1;
    }

    method RecordStampedePrevention()
      requires Valid()
      modifies this
      ensures Valid() && Snapshot() == Apply(old(Snapshot()), StampedePrevention)
    {
      stampedePreventions := stampedePreventions + 1;
    }

    /** `GetStats`: the current counters and a copy of the layer map. */
    method GetStats() returns (stats: CacheStats)
      requires Valid()
      ensures stats.totalRequests == stats.hits + stats.misses
      ensures stats == CacheStats(totalRequests, hits, misses, fallbacks, errors, stampedePreventions, layerHits)
    {
      stats := CacheStats(totalRequests, hits, misses, fallbacks, errors, stampedePreventions, layerHits);
    }

    /** `Reset`: every counter back to zero and no layer counts. */
    method Reset()
      modifies this
      ensures Valid() && Snapshot() == Zero
    {
      totalRequests, hits, misses, fallbacks, errors, stampedePreventions := 0, 0, 0, 0, 0, 0;
      layerHits := map[];
    }
  }
}
