/** `loadgen/internal/fault`: dropping spans, and skewing each service's clock by one constant. */
module Faults {
  import opened Spans
  import opened TracePlan
  import opened Generator

  function Rows(plan: seq<PlannedSpan>): seq<SpanRow> {
    seq(|plan|, i requires 0 <= i < |plan| => plan[i].row)
  }

  /** `DropInjector.Apply`; `draw` is the source of random reals. */
  method Drop(plan: seq<PlannedSpan>, rate: real, draw: nat -> real) returns (out: seq<PlannedSpan>)
    ensures |out| == |plan| && Rows(out) == Rows(plan)
    ensures forall i :: 0 <= i < |plan| ==> (out[i].drop <==> plan[i].drop || (rate > 0.0 && draw(i) < rate))
  {
    if rate <= 0.0 {
      return plan;
    }
    out := plan;
    for i := 0 to |out|
      invariant |out| == |plan| && Rows(out) == Rows(plan)
      invariant forall k :: 0 <= k < i ==> (out[k].drop <==> plan[k].drop || draw(k) < rate)
      invariant forall k :: i <= k < |plan| ==> out[k] == plan[k]
    {
      if draw(i) < rate {
        ghost var before := out;
        out := out[i := out[i].(drop := true)];
        assert Rows(out) == Rows(before);
      }
    }
  }

  function Shifted(row: SpanRow, offset: int): SpanRow {
    row.(start := row.start + offset, end := row.end + offset)
  }

  /** By how much each service's clock is off. */
  type Skew = string -> int

  function SkewRow(r: SpanRow, o: Skew): SpanRow {
    Shifted(r, o(r.service))
  }

  function SkewRows(rows: seq<SpanRow>, o: Skew): (r: seq<SpanRow>)
    ensures |r| == |rows|
  {
    seq(|rows|, i requires 0 <= i < |rows| => SkewRow(rows[i], o))
  }

  function SkewOf(rate: real, offsets: map<string, int>): Skew {
    s => if rate > 0.0 && s in offsets then offsets[s] else 0
  }

  lemma UnskewedRows(rows: seq<SpanRow>, o: Skew)
    requires forall s :: o(s) == 0
    ensures SkewRows(rows, o) == rows
  {
    assert forall i :: 0 <= i < |rows| ==> SkewRow(rows[i], o) == rows[i];
  }

  /** Clocks that agree on the services of these rows skew them alike. */
  lemma SameSkew(rows: seq<SpanRow>, o: Skew, o': Skew)
    requires forall r :: r in rows ==> o(r.service) == o'(r.service)
    ensures SkewRows(rows, o) == SkewRows(rows, o')
  {
    forall i | 0 <= i < |rows|
      ensures SkewRows(rows, o)[i] == SkewRows(rows, o')[i]
    {
      assert rows[i] in rows;
    }
  }

  /** One random decision about a service not seen before. */
  datatype Draw = Draw(chance: real, magnitude: int, negative: bool)

  /** The offset that a decision comes to. */
  function Drawn(rate: real, d: Draw): int {
    if d.chance >= rate then 0 else if d.negative then -d.magnitude else d.magnitude
  }

  class ClockSkewInjector {
    const rate: real
    const maxOffset: int
    const rootService: string
    const draw: nat -> Draw
    var draws: nat
    var offsets: map<string, int>

    /** Draws are in range, the root is never skewed, and no decision exceeds the configured bound. */
    ghost predicate Valid()
      reads this
    {
      && maxOffset > 0
      && (forall n :: 1 <= draw(n).magnitude <= maxOffset)
      && rootService !in offsets
      && forall s :: s in offsets ==> -maxOffset <= offsets[s] <= maxOffset
    }

    constructor (rate: real, maxOffset: int, rootService: string, draw: nat -> Draw)
      requires maxOffset > 0 && forall n :: 1 <= draw(n).magnitude <= maxOffset
      ensures Valid() && offsets == map[] && this.rate == rate && this.rootService == rootService
    {
      this.rate, this.maxOffset, this.rootService, this.draw := rate, maxOffset, rootService, draw;
      draws, offsets := 0, map[];
    }

    function Offset(service: string): int
      reads this
    {
      if service in offsets then offsets[service] else 0
    }

    /** The clocks as the spans sent so far show them. */
    function Clocks(): (o: Skew)
      reads this
    {
      SkewOf(rate, offsets)
    }

    /** Nothing that comes later can change the clock of any of these spans' services. */
    ghost predicate Decides(rows: seq<SpanRow>)
      reads this
    {
      rate > 0.0 ==> forall r :: r in rows ==> r.service == rootService || r.service in offsets
    }

    /** Every offset decided before is still the same. */
    predicate Keeps(before: map<string, int>)
      reads this
    {
      forall s :: s in before ==> s in offsets && offsets[s] == before[s]
    }

    /** Each offset decided since has come from a draw made since. */
    ghost predicate DrawnSince(before: map<string, int>, draws0: nat)
      reads this
    {
      draws0 <= draws && forall s :: s in offsets && s !in before ==> WasDrawn(offsets[s], draws0)
    }

    ghost predicate WasDrawn(offset: int, draws0: nat)
      reads this
    {
      exists n: nat :: draws0 <= n < draws && offset == Drawn(rate, draw(n))
    }

    method OffsetFor(service: string) returns (offset: int)
      requires Valid()
      modifies this
      ensures Valid() && offset == Offset(service)
      ensures service != rootService ==> service in offsets
      ensures if service == rootService || service in old(offsets) then draws == old(draws) && offsets == old(offsets)
              else draws == old(draws) + 1 && offsets == old(offsets)[service := Drawn(rate, draw(old(draws)))]
      ensures offsets.Keys <= old(offsets.Keys) + {service}
      ensures Keeps(old(offsets))
    {
      if service == rootService {
        return 0;
      }
      if service in offsets {
        return offsets[service];
      }
      offset := 0;
      var d := draw(draws);
      if d.chance < rate {
        offset := if d.negative then -d.magnitude else d.magnitude;
      }
      draws := draws + 1;
      offsets := offsets[service := offset];
    }

    /** Every span moves by its service's one offset, which no later call can change. */
    method Apply(plan: seq<PlannedSpan>) returns (out: seq<PlannedSpan>)
      requires Valid()
      modifies this
      ensures Valid() && |out| == |plan|
      ensures rate <= 0.0 ==> out == plan && offsets == old(offsets)
      ensures rate > 0.0 ==>
                forall i :: 0 <= i < |plan| ==> out[i] == plan[i].(row := Shifted(plan[i].row, Offset(plan[i].row.service)))
      ensures Keeps(old(offsets))
      ensures DrawnSince(old(offsets), old(draws))
      ensures Decides(Rows(plan)) && Rows(out) == SkewRows(Rows(plan), Clocks())
      ensures forall i :: 0 <= i < |plan| ==> out[i].drop == plan[i].drop
    {
      if rate <= 0.0 {
        UnskewedRows(Rows(plan), Clocks());
        return plan;
      }
      out := plan;
      for i := 0 to |out|
        invariant Valid() && |out| == |plan|
        invariant forall k :: 0 <= k < i ==> plan[k].row.service == rootService || plan[k].row.service in offsets
        invariant forall k :: 0 <= k < i ==> out[k] == plan[k].(row := Shifted(plan[k].row, Offset(plan[k].row.service)))
        invariant forall k :: i <= k < |plan| ==> out[k] == plan[k]
        invariant Keeps(old(offsets)) && DrawnSince(old(offsets), old(draws))
      {
        var offset := OffsetFor(out[i].row.service);
        if offset == 0 {
          continue;
        }
        out := out[i := out[i].(row := Shifted(out[i].row, offset))];
      }
    }
  }
}
