/** Pipeline composition of `Mediator.CreatePipeline` / `CreateStreamPipeline`:
    the resolved behaviours are cast to the erased behaviour interface,
    reversed and then folded around the handler,
    each step wrapping the pipeline built so far. A composed pipeline is kept
    as a value: `Wrap(b, next)` is the closure `(m, c) => b.Handle(m, next, c)`
    and `Terminal` is the handler delegate itself. */
module PipelineComposition {
  import opened Kernel

  datatype Pipeline<B> = Terminal | Wrap(behavior: B, next: Pipeline<B>)

  function Reverse<B>(s: seq<B>): (r: seq<B>)
    ensures |r| == |s|
  {
    if s == [] then [] else Reverse(s[1..]) + [s[0]]
  }

  /** `Enumerable.Aggregate(seed, (next, behavior) => Wrap(behavior, next))` */
  function Aggregate<B>(bs: seq<B>, seed: Pipeline<B>): Pipeline<B>
  {
    if bs == [] then seed else Aggregate(bs[1..], Wrap(bs[0], seed))
  }

  /** Reference shape: the first behaviour outermost, each later one nested
      inside it, `seed` innermost. */
  function NestOnto<B>(bs: seq<B>, seed: Pipeline<B>): Pipeline<B>
  {
    if bs == [] then seed else Wrap(bs[0], NestOnto(bs[1..], seed))
  }

  function Nest<B>(bs: seq<B>): Pipeline<B>
  {
    NestOnto(bs, Terminal)
  }

  lemma {:induction false} AggregateSnoc<B>(bs: seq<B>, b: B, seed: Pipeline<B>)
    ensures Aggregate(bs + [b], seed) == Wrap(b, Aggregate(bs, seed))
    decreases |bs|
  {
    if bs == [] {
      assert [] + [b] == [b];
    } else {
      assert (bs + [b])[1..] == bs[1..] + [b];
      AggregateSnoc(bs[1..], b, Wrap(bs[0], seed));
    }
  }

  /** Folding the reversed list is the same as nesting the list in order. */
  lemma {:induction false} AggregateReverse<B>(bs: seq<B>, seed: Pipeline<B>)
    ensures Aggregate(Reverse(bs), seed) == NestOnto(bs, seed)
    decreases |bs|
  {
    if bs != [] {
      AggregateSnoc(Reverse(bs[1..]), bs[0], seed);
      AggregateReverse(bs[1..], seed);
    }
  }

  /** The fold at the end of `CreatePipeline` / `CreateStreamPipeline`:
      behaviours in registration order are reversed and folded around the
      handler, so the first-registered behaviour is outermost and the handler
      innermost. */
  function ComposePipeline<B>(behaviors: seq<B>): (p: Pipeline<B>)
    ensures p == Nest(behaviors)
    ensures behaviors == [] ==> p == Terminal
    ensures behaviors != [] ==> p == Wrap(behaviors[0], Nest(behaviors[1..]))
  {
    AggregateReverse(behaviors, Terminal);
    Aggregate(Reverse(behaviors), Terminal)
  }

  /** `Enumerable.Cast<T>()` forced by `ToList()`: the elements unchanged
      when every one converts to `T`; `None` stands for the
      `InvalidCastException` thrown at the first one that does not. */
  function CastAll<B>(bs: seq<B>, converts: B -> bool): (r: Option<seq<B>>)
    ensures r.Some? <==> forall i :: 0 <= i < |bs| ==> converts(bs[i])
    ensures r.Some? ==> r.value == bs
    decreases |bs|
  {
    if bs == [] then Some([])
    else if !converts(bs[0]) then None
    else
      match CastAll(bs[1..], converts)
      case None => None
      case Some(rest) =>
        assert [bs[0]] + bs[1..] == bs;
        Some([bs[0]] + rest)
  }

  /** `CreatePipeline` and `CreateStreamPipeline` as written: the resolved
      behaviours are cast to the erased behaviour interface, then reversed
      and folded. `None` is the `InvalidCastException` of the cast; it is
      thrown when the pipeline is created, before anything runs. */
  function CreatePipeline<B>(behaviors: seq<B>, converts: B -> bool): (p: Option<Pipeline<B>>)
    ensures p.Some? <==> forall i :: 0 <= i < |behaviors| ==> converts(behaviors[i])
    ensures p.Some? ==> p.value == Nest(behaviors)
  {
    match CastAll(behaviors, converts)
    case None => None
    case Some(cast) => Some(ComposePipeline(cast))
  }

  /** The behaviours of a pipeline from the outside in. */
  function Layers<B>(p: Pipeline<B>): seq<B>
  {
    match p
    case Terminal => []
    case Wrap(b, next) => [b] + Layers(next)
  }

  lemma {:induction false} LayersOfNest<B>(bs: seq<B>)
    ensures Layers(Nest(bs)) == bs
    decreases |bs|
  {
    if bs != [] {
      LayersOfNest(bs[1..]);
      assert [bs[0]] + bs[1..] == bs;
    }
  }

  /** What an instrumented run observes: each behaviour records its entry
      before calling `next` and its exit after `next` returns. */
  datatype Step<B> = Enter(who: B) | HandlerRan | Exit(who: B)

  function Instrumented<B>(p: Pipeline<B>): seq<Step<B>>
  {
    match p
    case Terminal => [HandlerRan]
    case Wrap(b, next) => [Enter(b)] + Instrumented(next) + [Exit(b)]
  }

  function Entries<B>(bs: seq<B>): (r: seq<Step<B>>)
    ensures |r| == |bs|
  {
    if bs == [] then [] else [Enter(bs[0])] + Entries(bs[1..])
  }

  function Exits<B>(bs: seq<B>): (r: seq<Step<B>>)
    ensures |r| == |bs|
  {
    if bs == [] then [] else [Exit(bs[0])] + Exits(bs[1..])
  }

  lemma {:induction false} ExitsSnoc<B>(bs: seq<B>, b: B)
    ensures Exits(bs + [b]) == Exits(bs) + [Exit(b)]
    decreases |bs|
  {
    if bs == [] {
      assert [] + [b] == [b];
    } else {
      assert (bs + [b])[1..] == bs[1..] + [b];
      ExitsSnoc(bs[1..], b);
    }
  }

  /** Behaviours registered in order [A, B, C] are entered A, B, C, then the
      handler runs, then they are left C, B, A. */
  lemma {:induction false} InstrumentedOrder<B>(bs: seq<B>)
    ensures Instrumented(ComposePipeline(bs)) == Entries(bs) + [HandlerRan] + Exits(Reverse(bs))
    decreases |bs|
  {
    if bs != [] {
      InstrumentedOrder(bs[1..]);
      ExitsSnoc(Reverse(bs[1..]), bs[0]);
    }
  }
}
