/** `HybridCache`: an ordered stack of cache layers (memory first, then the
    distributed cache) behind one key-value interface. Reads ask the layers in
    ascending `Order` and stop at the first non-null answer; writes, removals
    and region clears go to every available layer. A layer whose call throws
    costs one recorded error and is skipped. Each layer is modelled by its
    name, order, availability, a flag saying whether its calls throw, whether
    it supports regions, and its store. One caller at a time. */
module HybridCaching {
  import opened Kernel
  import opened CachePolicies
  import CacheDiagnosticsCounters

  /** A value or the exception the operation throws. */
  datatype Result<T> = Success(value: T) | Failure(error: Exception)

  /** What a layer stores under a key: the value and the options it was set with. */
  datatype Entry = Entry(value: Value, options: CacheOptions)

  datatype Layer = Layer(
    name: string,
    order: int,
    isAvailable: bool,
    faulting: bool,
    supportsRegions: bool,
    store: map<string, Entry>)

  /** The layer is skipped (`!IsAvailable`) or answers without throwing. */
  predicate Usable(l: Layer)
  {
    l.isAvailable && !l.faulting
  }

  /** An available layer whose call throws a non-cancellation exception. */
  predicate Faults(l: Layer)
  {
    l.isAvailable && l.faulting
  }

  /** The type argument `T` of a read: a reference type, whose default is
      null, or a non-nullable value type, whose default is that type's zero
      and is never null. */
  datatype ReadType = Reference | ValueType(tag: TypeTag)

  /** `default(T)` */
  function DefaultOf(t: ReadType): (v: Value)
    ensures v == Null <==> t.Reference?
  {
    match t
    case Reference => Null
    case ValueType(tag) => Boxed(tag, 0)
  }

  /** The stored value passes the layer's `value is T` test. */
  predicate IsOfType(v: Value, t: ReadType)
  {
    match t
    case Reference => v != Null
    case ValueType(tag) => v.Boxed? && v.runtimeType == tag
  }

  /** `GetAsync<T>` on a layer that does not throw: the stored value when it
      is a `T`, otherwise `default(T)`. */
  function LayerGet(l: Layer, key: string, t: ReadType): (v: Value)
    ensures key in l.store && IsOfType(l.store[key].value, t) ==> v == l.store[key].value
    ensures !(key in l.store && IsOfType(l.store[key].value, t)) ==> v == DefaultOf(t)
  {
    if key in l.store && IsOfType(l.store[key].value, t) then l.store[key].value else DefaultOf(t)
  }

  /** The layer passes the `value is not null` test of the read loop. For a
      value type that test always holds, so every usable layer answers. */
  predicate Answers(l: Layer, key: string, t: ReadType)
  {
    Usable(l) && LayerGet(l, key, t) != Null
  }

  /** `ExistsAsync` on the layer yields true. */
  predicate Reports(l: Layer, key: string)
  {
    Usable(l) && key in l.store
  }

  predicate SortedByOrder(ls: seq<Layer>)
  {
    forall i, j :: 0 <= i < j < |ls| ==> ls[i].order <= ls[j].order
  }

  /** The layer without its contents. */
  function Meta(l: Layer): Layer
  {
    l.(store := map[])
  }

  /** Two stacks of the same layers, whatever their contents. */
  predicate SameLayers(a: seq<Layer>, b: seq<Layer>)
  {
    |a| == |b| && forall i :: 0 <= i < |a| ==> Meta(a[i]) == Meta(b[i])
  }

  /** Changing the contents of the layers keeps their order. */
  lemma SameLayersKeepSorted(a: seq<Layer>, b: seq<Layer>)
    requires SameLayers(a, b) && SortedByOrder(a)
    ensures SortedByOrder(b)
  {
    forall i, j | 0 <= i < j < |b|
      ensures b[i].order <= b[j].order
    {
      assert Meta(a[i]).order == Meta(b[i]).order && Meta(a[j]).order == Meta(b[j]).order;
    }
  }

  /** `l` placed after every layer whose order does not exceed its own. */
  function Insert(l: Layer, ls: seq<Layer>): (r: seq<Layer>)
    ensures multiset(r) == multiset(ls) + multiset{l}
    ensures |r| == |ls| + 1
    ensures forall x :: x in r ==> x == l || x in ls
  {
    if ls == [] then [l]
    else if l.order < ls[0].order then [l] + ls
    else
      assert ls == [ls[0]] + ls[1..];
      [ls[0]] + Insert(l, ls[1..])
  }

  /** Inserting into a sorted list keeps it sorted. */
  lemma {:induction false} InsertKeepsSorted(l: Layer, ls: seq<Layer>)
    requires SortedByOrder(ls)
    ensures SortedByOrder(Insert(l, ls))
  {
    if ls != [] && l.order >= ls[0].order {
      var rest := Insert(l, ls[1..]);
      InsertKeepsSorted(l, ls[1..]);
      var r := [ls[0]] + rest;
      forall j | 0 <= j < |rest|
        ensures ls[0].order <= rest[j].order
      {
        assert rest[j] in rest;
        if rest[j] != l {
          var k :| 0 <= k < |ls[1..]| && ls[1..][k] == rest[j];
          assert ls[1..][k] == ls[k + 1];
        }
      }
      forall i, j | 0 <= i < j < |r|
        ensures r[i].order <= r[j].order
      {
        if i > 0 {
          assert r[i] == rest[i - 1] && r[j] == rest[j - 1];
        } else {
          assert r[j] == rest[j - 1];
        }
      }
    }
  }

  /** The layers of one order, in the order they appear. */
  function WithOrder(ls: seq<Layer>, o: int): (r: seq<Layer>)
    ensures |r| <= |ls|
  {
    if ls == [] then [] else (if ls[0].order == o then [ls[0]] else []) + WithOrder(ls[1..], o)
  }

  lemma {:induction false} WithOrderSnoc(ls: seq<Layer>, l: Layer, o: int)
    ensures WithOrder(ls + [l], o) == WithOrder(ls, o) + (if l.order == o then [l] else [])
    decreases |ls|
  {
    if ls == [] {
      assert [] + [l] == [l];
    } else {
      assert (ls + [l])[1..] == ls[1..] + [l];
      WithOrderSnoc(ls[1..], l, o);
    }
  }

  /** A sorted list whose first order exceeds `o` holds no layer of order `o`. */
  lemma {:induction false} WithOrderAbove(ls: seq<Layer>, o: int)
    requires SortedByOrder(ls) && ls != [] && o < ls[0].order
    ensures WithOrder(ls, o) == []
    decreases |ls|
  {
    if |ls| > 1 {
      assert ls[1] == ls[1..][0];
      WithOrderAbove(ls[1..], o);
    }
  }

  lemma WithOrderCons(x: Layer, ls: seq<Layer>, o: int)
    ensures WithOrder([x] + ls, o) == (if x.order == o then [x] else []) + WithOrder(ls, o)
  {
    assert ([x] + ls)[0] == x && ([x] + ls)[1..] == ls;
  }

  lemma ConcatAssoc(h: seq<Layer>, m: seq<Layer>, t: seq<Layer>)
    ensures h + (m + t) == (h + m) + t
  {
  }

  /** `Insert` puts `l` after every layer of its own order. */
  lemma {:induction false} InsertIsStable(l: Layer, ls: seq<Layer>, o: int)
    requires SortedByOrder(ls)
    ensures WithOrder(Insert(l, ls), o) == WithOrder(ls, o) + (if l.order == o then [l] else [])
    decreases |ls|
  {
    if ls == [] {
      assert Insert(l, ls) == [l];
      WithOrderCons(l, [], o);
    } else if l.order < ls[0].order {
      assert Insert(l, ls) == [l] + ls;
      WithOrderCons(l, ls, o);
      if l.order == o {
        WithOrderAbove(ls, o);
      }
    } else {
      InsertIsStableStep(l, ls, o);
    }
  }

  lemma {:induction false} InsertIsStableStep(l: Layer, ls: seq<Layer>, o: int)
    requires SortedByOrder(ls) && ls != [] && l.order >= ls[0].order
    ensures WithOrder(Insert(l, ls), o) == WithOrder(ls, o) + (if l.order == o then [l] else [])
    decreases |ls|, 0
  {
    var tail := if l.order == o then [l] else [];
    var rest := Insert(l, ls[1..]);
    assert Insert(l, ls) == [ls[0]] + rest;
    assert SortedByOrder(ls[1..]);
    InsertIsStable(l, ls[1..], o);
    var h := if ls[0].order == o then [ls[0]] else [];
    WithOrderCons(ls[0], rest, o);
    assert ls == [ls[0]] + ls[1..];
    WithOrderCons(ls[0], ls[1..], o);
    ConcatAssoc(h, WithOrder(ls[1..], o), tail);
  }

  /** `cacheLayers.OrderBy(l => l.Order)`: a stable sort by ascending order.
      Layers of equal order keep their registration order. */
  function SortByOrder(ls: seq<Layer>): (r: seq<Layer>)
    ensures SortedByOrder(r)
    ensures multiset(r) == multiset(ls)
    ensures forall o :: WithOrder(r, o) == WithOrder(ls, o)
  {
    if ls == [] then []
    else
      var init, last := ls[..|ls| - 1], ls[|ls| - 1];
      assert ls == init + [last];
      var sortedInit := SortByOrder(init);
      InsertKeepsSorted(last, sortedInit);
      assert forall o :: WithOrder(Insert(last, sortedInit), o) == WithOrder(ls, o) by {
        forall o ensures WithOrder(Insert(last, sortedInit), o) == WithOrder(ls, o) {
          InsertIsStable(last, sortedInit, o);
          WithOrderSnoc(init, last, o);
        }
      }
      Insert(last, sortedInit)
  }

  /** The first layer from index `i` on that answers a read of `key` as `t`. */
  function FirstAnswering(ls: seq<Layer>, key: string, t: ReadType, i: nat): (r: Option<nat>)
    requires i <= |ls|
    decreases |ls| - i
    ensures r.Some? ==> i <= r.value < |ls| && Answers(ls[r.value], key, t)
                        && forall j :: i <= j < r.value ==> !Answers(ls[j], key, t)
    ensures r.None? ==> forall j :: i <= j < |ls| ==> !Answers(ls[j], key, t)
  {
    if i == |ls| then None
    else if Answers(ls[i], key, t) then Some(i)
    else FirstAnswering(ls, key, t, i + 1)
  }

  /** The first layer from index `i` on that reports `key` as present. */
  function FirstReporting(ls: seq<Layer>, key: string, i: nat): (r: Option<nat>)
    requires i <= |ls|
    decreases |ls| - i
    ensures r.Some? ==> i <= r.value < |ls| && Reports(ls[r.value], key)
                        && forall j :: i <= j < r.value ==> !Reports(ls[j], key)
    ensures r.None? ==> forall j :: i <= j < |ls| ==> !Reports(ls[j], key)
  {
    if i == |ls| then None
    else if Reports(ls[i], key) then Some(i)
    else FirstReporting(ls, key, i + 1)
  }

  /** The number of throwing layers among the first `n`. */
  function FaultsBefore(ls: seq<Layer>, n: nat): nat
    requires n <= |ls|
  {
    if n == 0 then 0 else FaultsBefore(ls, n - 1) + (if Faults(ls[n - 1]) then 1 else 0)
  }

  /** The number of throwing layers in the stack. */
  function FaultCount(ls: seq<Layer>): nat
  {
    FaultsBefore(ls, |ls|)
  }

  function SetOne(l: Layer, key: string, e: Entry): Layer
  {
    if Usable(l) then l.(store := l.store[key := e]) else l
  }

  function RemoveOne(l: Layer, key: string): Layer
  {
    if Usable(l) then l.(store := l.store - {key}) else l
  }

  /** A layer that supports regions drops every key that starts with the prefix. */
  function ClearOne(l: Layer, prefix: string): Layer
  {
    if Usable(l) && l.supportsRegions
    then l.(store := map k | k in l.store && !(prefix <= k) :: l.store[k])
    else l
  }

  function SetAll(ls: seq<Layer>, key: string, e: Entry): (r: seq<Layer>)
    ensures |r| == |ls| && forall i :: 0 <= i < |ls| ==> r[i] == SetOne(ls[i], key, e)
  {
    seq(|ls|, i requires 0 <= i < |ls| => SetOne(ls[i], key, e))
  }

  function RemoveAll(ls: seq<Layer>, key: string): (r: seq<Layer>)
    ensures |r| == |ls| && forall i :: 0 <= i < |ls| ==> r[i] == RemoveOne(ls[i], key)
  {
    seq(|ls|, i requires 0 <= i < |ls| => RemoveOne(ls[i], key))
  }

  function ClearAll(ls: seq<Layer>, prefix: string): (r: seq<Layer>)
    ensures |r| == |ls| && forall i :: 0 <= i < |ls| ==> r[i] == ClearOne(ls[i], prefix)
  {
    seq(|ls|, i requires 0 <= i < |ls| => ClearOne(ls[i], prefix))
  }

  /** The first layer that takes writes. */
  function FirstUsable(ls: seq<Layer>, i: nat): (r: Option<nat>)
    requires i <= |ls|
    decreases |ls| - i
    ensures r.Some? ==> i <= r.value < |ls| && Usable(ls[r.value])
                        && forall j :: i <= j < r.value ==> !Usable(ls[j])
    ensures r.None? ==> forall j :: i <= j < |ls| ==> !Usable(ls[j])
  {
    if i == |ls| then None
    else if Usable(ls[i]) then Some(i)
    else FirstUsable(ls, i + 1)
  }

  /** Write-to-all then read: after a non-null value is written, the lookup
      is answered by the first layer that took the write, with that value. */
  lemma SetThenLookup(ls: seq<Layer>, key: string, t: ReadType, e: Entry)
    requires IsOfType(e.value, t)
    ensures var after := SetAll(ls, key, e);
            && FirstAnswering(after, key, t, 0) == FirstUsable(ls, 0)
            && (FirstUsable(ls, 0).Some? ==>
                  after[FirstUsable(ls, 0).value].store[key] == e
                  && LayerGet(after[FirstUsable(ls, 0).value], key, t) == e.value)
  {
    var after := SetAll(ls, key, e);
    var r := FirstAnswering(after, key, t, 0);
    var u := FirstUsable(ls, 0);
    if u.Some? {
      assert Answers(after[u.value], key, t);
      assert forall j :: 0 <= j < u.value ==> !Usable(after[j]);
    } else {
      assert forall j :: 0 <= j < |after| ==> !Usable(after[j]);
    }
  }

  /** Writing one key leaves every other key's lookup as it was. */
  lemma SetLeavesOtherKeys(ls: seq<Layer>, key: string, other: string, t: ReadType, e: Entry)
    requires other != key
    ensures FirstAnswering(SetAll(ls, key, e), other, t, 0) == FirstAnswering(ls, other, t, 0)
    ensures FirstReporting(SetAll(ls, key, e), other, 0) == FirstReporting(ls, other, 0)
  {
    var after := SetAll(ls, key, e);
    assert forall j :: 0 <= j < |ls| ==> (Answers(after[j], other, t) <==> Answers(ls[j], other, t));
    assert forall j :: 0 <= j < |ls| ==> (Reports(after[j], other) <==> Reports(ls[j], other));
    AnsweringAgrees(ls, after, other, t, 0);
    ReportingAgrees(ls, after, other, 0);
  }

  lemma {:induction false} AnsweringAgrees(a: seq<Layer>, b: seq<Layer>, key: string, t: ReadType, i: nat)
    requires |a| == |b| && i <= |a|
    requires forall j :: 0 <= j < |a| ==> (Answers(a[j], key, t) <==> Answers(b[j], key, t))
    ensures FirstAnswering(a, key, t, i) == FirstAnswering(b, key, t, i)
    decreases |a| - i
  {
    if i < |a| {
      AnsweringAgrees(a, b, key, t, i + 1);
    }
  }

  /** A read of a value type is answered by the first usable layer, with the
      stored value when it is of that type and the type's zero otherwise; the
      factory of `GetOrCreateAsync` never runs while a usable layer exists. */
  lemma {:induction false} ValueTypeAnsweredByFirstUsable(ls: seq<Layer>, key: string, tag: TypeTag, i: nat)
    requires i <= |ls|
    ensures FirstAnswering(ls, key, ValueType(tag), i) == FirstUsable(ls, i)
    ensures FirstUsable(ls, i).Some? ==>
              var l := ls[FirstUsable(ls, i).value];
              LayerGet(l, key, ValueType(tag)) ==
                if key in l.store && l.store[key].value.Boxed? && l.store[key].value.runtimeType == tag
                then l.store[key].value else Boxed(tag, 0)
    decreases |ls| - i
  {
    if i < |ls| {
      ValueTypeAnsweredByFirstUsable(ls, key, tag, i + 1);
    }
  }

  lemma {:induction false} ReportingAgrees(a: seq<Layer>, b: seq<Layer>, key: string, i: nat)
    requires |a| == |b| && i <= |a|
    requires forall j :: 0 <= j < |a| ==> (Reports(a[j], key) <==> Reports(b[j], key))
    ensures FirstReporting(a, key, i) == FirstReporting(b, key, i)
    decreases |a| - i
  {
    if i < |a| {
      ReportingAgrees(a, b, key, i + 1);
    }
  }

  /** After a removal no layer reports the key, so `ExistsAsync` is false
      and a lookup misses. */
  lemma RemoveThenAbsent(ls: seq<Layer>, key: string, tag: TypeTag)
    ensures FirstReporting(RemoveAll(ls, key), key, 0).None?
    ensures FirstAnswering(RemoveAll(ls, key), key, Reference, 0).None?
    ensures var after := RemoveAll(ls, key);
            var found := FirstAnswering(after, key, ValueType(tag), 0);
            found.Some? ==> LayerGet(after[found.value], key, ValueType(tag)) == Boxed(tag, 0)
  {
    var after := RemoveAll(ls, key);
    assert forall j :: 0 <= j < |after| ==> !Reports(after[j], key);
    assert forall j :: 0 <= j < |after| ==> !Answers(after[j], key, Reference);
  }

  /** A region clear leaves no key with the prefix in any layer that
      supports regions and took the call, and keeps every other key. */
  lemma ClearRegionDropsPrefixedKeys(ls: seq<Layer>, prefix: string, key: string, t: ReadType)
    ensures forall i :: 0 <= i < |ls| && Usable(ls[i]) && ls[i].supportsRegions ==>
              (key in ClearAll(ls, prefix)[i].store <==> key in ls[i].store && !(prefix <= key))
    ensures !(prefix <= key) ==> FirstAnswering(ClearAll(ls, prefix), key, t, 0) == FirstAnswering(ls, key, t, 0)
  {
    var after := ClearAll(ls, prefix);
    if !(prefix <= key) {
      forall j | 0 <= j < |ls| ensures Answers(after[j], key, t) <==> Answers(ls[j], key, t) {
        if Usable(ls[j]) && ls[j].supportsRegions && key in ls[j].store {
          assert after[j].store[key] == ls[j].store[key];
        }
      }
      AnsweringAgrees(ls, after, key, t, 0);
    }
  }

  /** `MergeWithPolicy`: explicit option fields win over the policy's
      memory and sliding expirations; the region comes from the options only. */
  function MergeWithPolicy(options: Option<CacheOptions>, policy: CachePolicy): (r: CacheOptions)
    ensures options.None? && policy == Default ==> r == CacheOptions(None, None, None)
    ensures r.absoluteExpirationRelativeToNow ==
              if options.Some? && options.value.absoluteExpirationRelativeToNow.Some?
              then options.value.absoluteExpirationRelativeToNow else policy.memoryExpiration
    ensures r.slidingExpiration ==
              if options.Some? && options.value.slidingExpiration.Some?
              then options.value.slidingExpiration else policy.slidingExpiration
    ensures r.region == if options.Some? then options.value.region else None
  {
    if options.None? && policy == Default then CacheOptions(None, None, None)
    else
      CacheOptions(
        if options.Some? && options.value.absoluteExpirationRelativeToNow.Some?
        then options.value.absoluteExpirationRelativeToNow else policy.memoryExpiration,
        if options.Some? && options.value.slidingExpiration.Some?
        then options.value.slidingExpiration else policy.slidingExpiration,
        if options.Some? then options.value.region else None)
  }

  /** The general rule with no options. */
  function FromPolicy(policy: CachePolicy): CacheOptions
  {
    CacheOptions(policy.memoryExpiration, policy.slidingExpiration, None)
  }

  /** Absent options take the policy's memory and sliding expirations, and
      the shortcut for the default policy agrees with that rule: the default
      policy has neither. */
  lemma AbsentOptionsFollowPolicy(policy: CachePolicy)
    ensures MergeWithPolicy(None, policy) == FromPolicy(policy)
  {
  }

  /** The merged options never depend on the policy's skip flags, its
      distributed expiration or its priority. */
  lemma MergeIgnoresSkipFlags(options: Option<CacheOptions>, policy: CachePolicy, other: CachePolicy)
    requires other.memoryExpiration == policy.memoryExpiration
    requires other.slidingExpiration == policy.slidingExpiration
    ensures MergeWithPolicy(options, other) == MergeWithPolicy(options, policy)
  {
    AbsentOptionsFollowPolicy(policy);
    AbsentOptionsFollowPolicy(other);
  }

  /** The diagnostics counters with `n` more errors. */
  function AddErrors(c: CacheDiagnosticsCounters.Counters, n: nat): CacheDiagnosticsCounters.Counters
  {
    c.(errors := c.errors + n)
  }

  class HybridCache {
    var layers: seq<Layer>
    const diagnostics: CacheDiagnosticsCounters.CacheDiagnostics
    const policyManager: CachePolicyManager
    /** The keys whose stampede lock is held. */
    var keyLocks: set<string>
    var disposed: bool
    var layersDisposed: bool

    ghost predicate Valid()
      reads this, diagnostics
    {
      diagnostics.Valid() && SortedByOrder(layers)
    }

    constructor(cacheLayers: seq<Layer>, diagnostics: CacheDiagnosticsCounters.CacheDiagnostics,
                policyManager: CachePolicyManager)
      requires diagnostics.Valid()
      ensures Valid()
      ensures layers == SortByOrder(cacheLayers) && multiset(layers) == multiset(cacheLayers)
      ensures this.diagnostics == diagnostics && this.policyManager == policyManager
      ensures keyLocks == {} && !disposed && !layersDisposed
    {
      layers := SortByOrder(cacheLayers);
      this.diagnostics := diagnostics;
      this.policyManager := policyManager;
      keyLocks := {};
      disposed := false;
      layersDisposed := false;
    }

    /** `TryGetFromLayersAsync<T>`: the first layer, in order, whose read
        yields a non-null value; one error for each throwing layer passed on
        the way. */
    method TryGetFromLayers(key: string, t: ReadType) returns (value: Value, found: Option<nat>)
      requires Valid()
      modifies diagnostics
      ensures Valid()
      ensures found == FirstAnswering(layers, key, t, 0)
      ensures found.Some? ==> value == LayerGet(layers[found.value], key, t) && value != Null
      ensures found.None? ==> value == DefaultOf(t)
      ensures diagnostics.Snapshot() ==
                AddErrors(old(diagnostics.Snapshot()), FaultsBefore(layers, if found.Some? then found.value else |layers|))
    {
      var i := 0;
      while i < |layers|
        invariant 0 <= i <= |layers|
        invariant diagnostics.Valid()
        invariant FirstAnswering(layers, key, t, 0) == FirstAnswering(layers, key, t, i)
        invariant diagnostics.Snapshot() == AddErrors(old(diagnostics.Snapshot()), FaultsBefore(layers, i))
      {
        var layer := layers[i];
        if layer.isAvailable {
          if layer.faulting {
            diagnostics.RecordError();
          } else {
            var v := LayerGet(layer, key, t);
            if v != Null {
              return v, Some(i);
            }
          }
        }
        i := i + 1;
      }
      return DefaultOf(t), None;
    }

    /** `SetInLayersAsync`: every available layer stores the entry; each
        throwing layer costs one error. */
    method SetInLayers(key: string, value: Value, options: CacheOptions)
      requires Valid()
      modifies this, diagnostics
      ensures Valid()
      ensures layers == SetAll(old(layers), key, Entry(value, options))
      ensures diagnostics.Snapshot() == AddErrors(old(diagnostics.Snapshot()), FaultCount(old(layers)))
      ensures keyLocks == old(keyLocks) && disposed == old(disposed) && layersDisposed == old(layersDisposed)
    {
      var i := 0;
      while i < |layers|
        invariant 0 <= i <= |layers| && |layers| == |old(layers)|
        invariant forall j :: 0 <= j < i ==> layers[j] == SetOne(old(layers)[j], key, Entry(value, options))
        invariant forall j :: i <= j < |layers| ==> layers[j] == old(layers)[j]
        invariant diagnostics.Valid()
        invariant diagnostics.Snapshot() == AddErrors(old(diagnostics.Snapshot()), FaultsBefore(old(layers), i))
        invariant keyLocks == old(keyLocks) && disposed == old(disposed) && layersDisposed == old(layersDisposed)
      {
        var layer := layers[i];
        if layer.isAvailable {
          if layer.faulting {
            diagnostics.RecordError();
          } else {
            layers := layers[i := layer.(store := layer.store[key := Entry(value, options)])];
          }
        }
        i := i + 1;
      }
      SameLayersKeepSorted(old(layers), layers);
    }

    /** `GetOrCreateAsync(key, factory, options)`; `factory` is what the
        factory yields when it runs. */
    method GetOrCreate(key: string, t: ReadType, factory: Result<Value>, options: Option<CacheOptions>) returns (r: Result<Value>)
      requires Valid()
      modifies this, diagnostics
      ensures Valid()
      ensures disposed == old(disposed) && layersDisposed == old(layersDisposed)
      ensures old(disposed) ==> r == Failure(ObjectDisposed)
      ensures !old(disposed) && key == "" ==> r == Failure(ArgumentError("key"))
      ensures old(disposed) || key == "" ==>
                layers == old(layers) && keyLocks == old(keyLocks) && diagnostics.Snapshot() == old(diagnostics.Snapshot())
      ensures !old(disposed) && key != "" && FirstAnswering(old(layers), key, t, 0).Some? ==>
                var hit := FirstAnswering(old(layers), key, t, 0).value;
                && r == Success(LayerGet(old(layers)[hit], key, t))
                && layers == old(layers) && keyLocks == old(keyLocks)
                && diagnostics.Snapshot() ==
                     CacheDiagnosticsCounters.Apply(AddErrors(old(diagnostics.Snapshot()), FaultsBefore(old(layers), hit)),
                                                    CacheDiagnosticsCounters.Hit(old(layers)[hit].name))
      ensures !old(disposed) && key != "" && FirstAnswering(old(layers), key, t, 0).None? ==>
                var faults := FaultCount(old(layers));
                var missed := CacheDiagnosticsCounters.Apply(AddErrors(old(diagnostics.Snapshot()), faults),
                                                             CacheDiagnosticsCounters.Miss);
                && r == factory
                && keyLocks == old(keyLocks) - {key}
                && (factory.Success? ==>
                      && diagnostics.Snapshot() == AddErrors(missed, faults + faults)
                      && exists policy :: Selects(policyManager.policies, key, policy)
                                          && layers == SetAll(old(layers), key, Entry(factory.value, MergeWithPolicy(options, policy))))
                && (factory.Failure? ==>
                      && layers == old(layers)
                      && diagnostics.Snapshot() ==
                           AddErrors(missed, faults + if factory.error == OperationCanceled then 0 else 1))
    {
      if disposed {
        return Failure(ObjectDisposed);
      }
      if key == "" {
        return Failure(ArgumentError("key"));
      }
      var policy := policyManager.GetPolicy(key);
      var merged := MergeWithPolicy(options, policy);
      var value, found := TryGetFromLayers(key, t);
      if found.Some? {
        diagnostics.RecordHit(layers[found.value].name);
        return Success(value);
      }
      diagnostics.RecordMiss();
      r := CreateOnMiss(key, t, factory, merged);
    }

    /** The miss path of `GetOrCreateAsync`: under the key's lock, the layers
        are asked again, then the factory runs and its value is stored in
        every available layer; a failing factory costs one error unless it
        was cancelled. */
    method CreateOnMiss(key: string, t: ReadType, factory: Result<Value>, merged: CacheOptions) returns (r: Result<Value>)
      requires Valid() && FirstAnswering(layers, key, t, 0).None?
      modifies this, diagnostics
      ensures Valid()
      ensures disposed == old(disposed) && layersDisposed == old(layersDisposed)
      ensures r == factory && keyLocks == old(keyLocks) - {key}
      ensures factory.Success? ==>
                && diagnostics.Snapshot() == AddErrors(old(diagnostics.Snapshot()), FaultCount(old(layers)) + FaultCount(old(layers)))
                && layers == SetAll(old(layers), key, Entry(factory.value, merged))
      ensures factory.Failure? ==>
                && layers == old(layers)
                && diagnostics.Snapshot() ==
                     AddErrors(old(diagnostics.Snapshot()),
                               FaultCount(old(layers)) + if factory.error == OperationCanceled then 0 else 1)
    {
      keyLocks := keyLocks + {key};
      var value, found := TryGetFromLayers(key, t);
      if found.Some? {
        // With one caller at a time nothing fills the key between the two lookups.
        assert false;
      }
      match factory {
        case Failure(e) =>
          if e != OperationCanceled {
            diagnostics.RecordError();
          }
          r := Failure(e);
        case Success(v) =>
          SetInLayers(key, v, merged);
          r := Success(v);
      }
      keyLocks := keyLocks - {key};
    }

    /** `GetAsync<T>`: the first layer's non-null value and a hit for that
        layer, or `default(T)` and a miss. */
    method Get(key: string, t: ReadType) returns (r: Result<Value>)
      requires Valid()
      modifies diagnostics
      ensures Valid()
      ensures old(disposed) ==> r == Failure(ObjectDisposed)
      ensures !old(disposed) && key == "" ==> r == Failure(ArgumentError("key"))
      ensures old(disposed) || key == "" ==> diagnostics.Snapshot() == old(diagnostics.Snapshot())
      ensures !disposed && key != "" ==>
                var found := FirstAnswering(layers, key, t, 0);
                && (found.Some? ==>
                      && r == Success(LayerGet(layers[found.value], key, t))
                      && diagnostics.Snapshot() ==
                           CacheDiagnosticsCounters.Apply(AddErrors(old(diagnostics.Snapshot()), FaultsBefore(layers, found.value)),
                                                          CacheDiagnosticsCounters.Hit(layers[found.value].name)))
                && (found.None? ==>
                      && r == Success(DefaultOf(t))
                      && diagnostics.Snapshot() ==
                           CacheDiagnosticsCounters.Apply(AddErrors(old(diagnostics.Snapshot()), FaultCount(layers)),
                                                          CacheDiagnosticsCounters.Miss))
    {
      if disposed {
        return Failure(ObjectDisposed);
      }
      if key == "" {
        return Failure(ArgumentError("key"));
      }
      var policy := policyManager.GetPolicy(key);
      var value, found := TryGetFromLayers(key, t);
      if found.Some? {
        diagnostics.RecordHit(layers[found.value].name);
        return Success(value);
      }
      diagnostics.RecordMiss();
      return Success(value);
    }

    /** `SetAsync`: the value goes to every available layer with the options
        merged with the key's policy. */
    method Set(key: string, value: Value, options: Option<CacheOptions>) returns (r: Result<()>)
      requires Valid()
      modifies this, diagnostics
      ensures Valid()
      ensures keyLocks == old(keyLocks) && disposed == old(disposed) && layersDisposed == old(layersDisposed)
      ensures old(disposed) ==> r == Failure(ObjectDisposed)
      ensures !old(disposed) && key == "" ==> r == Failure(ArgumentError("key"))
      ensures old(disposed) || key == "" ==> layers == old(layers) && diagnostics.Snapshot() == old(diagnostics.Snapshot())
      ensures !old(disposed) && key != "" ==>
                && r == Success(())
                && diagnostics.Snapshot() == AddErrors(old(diagnostics.Snapshot()), FaultCount(old(layers)))
                && exists policy :: Selects(policyManager.policies, key, policy)
                                    && layers == SetAll(old(layers), key, Entry(value, MergeWithPolicy(options, policy)))
    {
      if disposed {
        return Failure(ObjectDisposed);
      }
      if key == "" {
        return Failure(ArgumentError("key"));
      }
      var policy := policyManager.GetPolicy(key);
      SetInLayers(key, value, MergeWithPolicy(options, policy));
      r := Success(());
    }

    /** `RemoveAsync`: every available layer drops the key; each throwing
        layer costs one error and the rest still run. */
    method Remove(key: string) returns (r: Result<()>)
      requires Valid()
      modifies this, diagnostics
      ensures Valid()
      ensures keyLocks == old(keyLocks) && disposed == old(disposed) && layersDisposed == old(layersDisposed)
      ensures old(disposed) ==> r == Failure(ObjectDisposed)
      ensures !old(disposed) && key == "" ==> r == Failure(ArgumentError("key"))
      ensures old(disposed) || key == "" ==> layers == old(layers) && diagnostics.Snapshot() == old(diagnostics.Snapshot())
      ensures !old(disposed) && key != "" ==>
                && r == Success(())
                && layers == RemoveAll(old(layers), key)
                && diagnostics.Snapshot() == AddErrors(old(diagnostics.Snapshot()), FaultCount(old(layers)))
    {
      if disposed {
        return Failure(ObjectDisposed);
      }
      if key == "" {
        return Failure(ArgumentError("key"));
      }
      RemoveFromLayers(key);
      r := Success(());
    }

    /** The loop of `RemoveAsync`. */
    method RemoveFromLayers(key: string)
      requires Valid()
      modifies this, diagnostics
      ensures Valid()
      ensures keyLocks == old(keyLocks) && disposed == old(disposed) && layersDisposed == old(layersDisposed)
      ensures layers == RemoveAll(old(layers), key)
      ensures diagnostics.Snapshot() == AddErrors(old(diagnostics.Snapshot()), FaultCount(old(layers)))
    {
      var i := 0;
      while i < |layers|
        invariant 0 <= i <= |layers| && |layers| == |old(layers)|
        invariant forall j :: 0 <= j < i ==> layers[j] == RemoveOne(old(layers)[j], key)
        invariant forall j :: i <= j < |layers| ==> layers[j] == old(layers)[j]
        invariant diagnostics.Valid()
        invariant diagnostics.Snapshot() == AddErrors(old(diagnostics.Snapshot()), FaultsBefore(old(layers), i))
        invariant keyLocks == old(keyLocks) && disposed == old(disposed) && layersDisposed == old(layersDisposed)
      {
        var layer := layers[i];
        if layer.isAvailable {
          if layer.faulting {
            diagnostics.RecordError();
          } else {
            layers := layers[i := layer.(store := layer.store - {key})];
          }
        }
        i := i + 1;
      }
      SameLayersKeepSorted(old(layers), layers);
    }

    /** `ExistsAsync`: true as soon as an available layer reports the key;
        each throwing layer passed on the way costs one error. */
    method Exists(key: string) returns (r: Result<bool>)
      requires Valid()
      modifies diagnostics
      ensures Valid()
      ensures old(disposed) ==> r == Failure(ObjectDisposed)
      ensures !old(disposed) && key == "" ==> r == Failure(ArgumentError("key"))
      ensures old(disposed) || key == "" ==> diagnostics.Snapshot() == old(diagnostics.Snapshot())
      ensures !disposed && key != "" ==>
                var found := FirstReporting(layers, key, 0);
                && r == Success(found.Some?)
                && diagnostics.Snapshot() ==
                     AddErrors(old(diagnostics.Snapshot()), FaultsBefore(layers, if found.Some? then found.value else |layers|))
    {
      if disposed {
        return Failure(ObjectDisposed);
      }
      if key == "" {
        return Failure(ArgumentError("key"));
      }
      var i := 0;
      while i < |layers|
        invariant 0 <= i <= |layers|
        invariant diagnostics.Valid()
        invariant FirstReporting(layers, key, 0) == FirstReporting(layers, key, i)
        invariant diagnostics.Snapshot() == AddErrors(old(diagnostics.Snapshot()), FaultsBefore(layers, i))
      {
        var layer := layers[i];
        if layer.isAvailable {
          if layer.faulting {
            diagnostics.RecordError();
          } else if key in layer.store {
            return Success(true);
          }
        }
        i := i + 1;
      }
      return Success(false);
    }

    /** `ClearRegionAsync`: every available layer clears the region. */
    method ClearRegion(regionPrefix: string) returns (r: Result<()>)
      requires Valid()
      modifies this, diagnostics
      ensures Valid()
      ensures keyLocks == old(keyLocks) && disposed == old(disposed) && layersDisposed == old(layersDisposed)
      ensures old(disposed) ==> r == Failure(ObjectDisposed)
      ensures !old(disposed) && regionPrefix == "" ==> r == Failure(ArgumentError("regionPrefix"))
      ensures old(disposed) || regionPrefix == "" ==>
                layers == old(layers) && diagnostics.Snapshot() == old(diagnostics.Snapshot())
      ensures !old(disposed) && regionPrefix != "" ==>
                && r == Success(())
                && layers == ClearAll(old(layers), regionPrefix)
                && diagnostics.Snapshot() == AddErrors(old(diagnostics.Snapshot()), FaultCount(old(layers)))
    {
      if disposed {
        return Failure(ObjectDisposed);
      }
      if regionPrefix == "" {
        return Failure(ArgumentError("regionPrefix"));
      }
      ClearRegionInLayers(regionPrefix);
      r := Success(());
    }

    /** The loop of `ClearRegionAsync`. */
    method ClearRegionInLayers(regionPrefix: string)
      requires Valid()
      modifies this, diagnostics
      ensures Valid()
      ensures keyLocks == old(keyLocks) && disposed == old(disposed) && layersDisposed == old(layersDisposed)
      ensures layers == ClearAll(old(layers), regionPrefix)
      ensures diagnostics.Snapshot() == AddErrors(old(diagnostics.Snapshot()), FaultCount(old(layers)))
    {
      var i := 0;
      while i < |layers|
        invariant 0 <= i <= |layers| && |layers| == |old(layers)|
        invariant forall j :: 0 <= j < i ==> layers[j] == ClearOne(old(layers)[j], regionPrefix)
        invariant forall j :: i <= j < |layers| ==> layers[j] == old(layers)[j]
        invariant diagnostics.Valid()
        invariant diagnostics.Snapshot() == AddErrors(old(diagnostics.Snapshot()), FaultsBefore(old(layers), i))
        invariant keyLocks == old(keyLocks) && disposed == old(disposed) && layersDisposed == old(layersDisposed)
      {
        var layer := layers[i];
        if layer.isAvailable {
          if layer.faulting {
            diagnostics.RecordError();
          } else if layer.supportsRegions {
            layers := layers[i := ClearOne(layer, regionPrefix)];
          }
        }
        i := i + 1;
      }
      SameLayersKeepSorted(old(layers), layers);
    }

    /** `GetStatsAsync` */
    method GetStats() returns (r: Result<CacheDiagnosticsCounters.CacheStats>)
      requires Valid()
      ensures disposed ==> r == Failure(ObjectDisposed)
      ensures !disposed ==> r == Success(CacheDiagnosticsCounters.CacheStats(
                                   diagnostics.totalRequests, diagnostics.hits, diagnostics.misses, diagnostics.fallbacks,
                                   diagnostics.errors, diagnostics.stampedePreventions, diagnostics.layerHits))
      ensures !disposed ==> r.value.totalRequests == r.value.hits + r.value.misses
    {
      if disposed {
        return Failure(ObjectDisposed);
      }
      var stats := diagnostics.GetStats();
      r := Success(stats);
    }

    /** `Dispose`: the first call marks the cache disposed, drops the key
        locks and disposes the layers; later calls do nothing. */
    method Dispose()
      modifies this
      ensures disposed && layers == old(layers)
      ensures old(disposed) ==> keyLocks == old(keyLocks) && layersDisposed == old(layersDisposed)
      ensures !old(disposed) ==> keyLocks == {} && layersDisposed
    {
      if disposed {
        return;
      }
      disposed := true;
      keyLocks := {};
      layersDisposed := true;
    }
  }
}
