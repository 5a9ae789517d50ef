/** Compact spans of excluded row positions (ima/pipeline_graph.py, `_position_ranges`). */
module PositionRanges {

  /** A half-open span. */
  type Span = (nat, nat)

  ghost predicate Increasing(positions: seq<nat>) {
    forall i, j :: 0 <= i < j < |positions| ==> positions[i] < positions[j]
  }

  ghost predicate Inside(spans: seq<Span>, p: nat) {
    exists k :: 0 <= k < |spans| && spans[k].0 <= p < spans[k].1
  }

  /** Nonempty spans in order, no two touching. */
  ghost predicate Compact(spans: seq<Span>) {
    && (forall k :: 0 <= k < |spans| ==> spans[k].0 < spans[k].1)
    && (forall k, l :: 0 <= k < l < |spans| ==> spans[k].1 < spans[l].0)
  }

  ghost predicate Holds(spans: seq<Span>, positions: seq<nat>) {
    forall p: nat :: Inside(spans, p) <==> p in positions
  }

  /** The spans hold exactly the given positions, and are as few as possible. */
  method Spans(positions: seq<nat>) returns (spans: seq<Span>)
    requires Increasing(positions)
    ensures Compact(spans) && forall p: nat :: Inside(spans, p) <==> p in positions
  {
    hide Inside, Increasing, Compact, Holds;
    spans := [];
    Nothing(positions[..0]);
    for i := 0 to |positions|
      invariant Compact(spans) && Holds(spans, positions[..i])
      invariant spans != [] ==> i > 0 && spans[|spans|-1].1 == positions[i - 1] + 1
      invariant i > 0 ==> spans != []
    {
      ghost var before := spans;
      var position := positions[i];
      assert positions[..i + 1] == positions[..i] + [position];
      Later(positions, i);
      if spans != [] && spans[|spans|-1].1 == position {
        spans := spans[|spans|-1 := (spans[|spans|-1].0, position + 1)];
        Extended(before, spans, positions[..i], position);
      } else {
        spans := spans + [(position, position + 1)];
        Appended(before, positions[..i], position);
      }
    }
    assert positions[..|positions|] == positions;
    AllHeld(spans, positions);
  }

  lemma AllHeld(spans: seq<Span>, positions: seq<nat>)
    requires Holds(spans, positions)
    ensures forall p: nat :: Inside(spans, p) <==> p in positions
  {}

  lemma Nothing(positions: seq<nat>)
    requires positions == []
    ensures Compact([]) && Holds([], positions)
  {}

  lemma Later(positions: seq<nat>, i: nat)
    requires Increasing(positions) && i < |positions|
    ensures i > 0 ==> positions[i - 1] < positions[i]
  {}

  lemma Extended(before: seq<Span>, after: seq<Span>, positions: seq<nat>, position: nat)
    requires before != [] && before[|before|-1].1 == position && Compact(before) && Holds(before, positions)
    requires after == before[|before|-1 := (before[|before|-1].0, position + 1)]
    ensures Compact(after) && Holds(after, positions + [position])
  {
    var n := |before| - 1;
    forall p: nat ensures Inside(after, p) <==> Inside(before, p) || p == position {
      if Inside(after, p) {
        var k :| 0 <= k < |after| && after[k].0 <= p < after[k].1;
        assert k < n ==> before[k] == after[k];
        assert k == n && p != position ==> before[n].0 <= p < before[n].1;
      }
      if k :| 0 <= k < |before| && before[k].0 <= p < before[k].1 {
        assert after[k].0 <= p < after[k].1;
      }
      assert after[n].0 <= position < after[n].1;
    }
  }

  lemma Appended(before: seq<Span>, positions: seq<nat>, position: nat)
    requires Compact(before) && Holds(before, positions) && (before != [] ==> before[|before|-1].1 < position)
    ensures Compact(before + [(position, position + 1)]) && Holds(before + [(position, position + 1)], positions + [position])
  {
    var after := before + [(position, position + 1)];
    forall p: nat ensures Inside(after, p) <==> Inside(before, p) || p == position {
      if k :| 0 <= k < |before| && before[k].0 <= p < before[k].1 {
        assert after[k].0 <= p < after[k].1;
      }
      assert after[|before|].0 <= position < after[|before|].1;
    }
  }

  /** Compact spans of the same positions are the same spans. */
  lemma {:induction false} SpansUnique(a: seq<Span>, b: seq<Span>)
    requires Compact(a) && Compact(b) && forall p: nat :: Inside(a, p) <==> Inside(b, p)
    ensures a == b
  {
    if a == [] {
      if b != [] { assert Inside(b, b[0].0); }
    } else {
      assert Inside(a, a[0].0);
      if b == [] {
        assert false;
      } else {
        SameFirst(a, b);
        TailSame(a, b);
        SpansUnique(a[1..], b[1..]);
        assert a == [a[0]] + a[1..] && b == [b[0]] + b[1..];
      }
    }
  }

  lemma PastFirst(a: seq<Span>, p: nat)
    requires a != [] && a[0].0 <= p && !Inside(a, p)
    ensures a[0].1 <= p
  {
    assert !(a[0].0 <= p < a[0].1);
  }

  lemma EndNotBefore(a: seq<Span>, b: seq<Span>)
    requires Compact(a) && Compact(b) && a != [] && b != [] && a[0].0 == b[0].0
    requires forall p: nat :: Inside(a, p) <==> Inside(b, p)
    ensures a[0].1 <= b[0].1
  {
    PastFirst(a, b[0].1);
  }

  lemma SameFirst(a: seq<Span>, b: seq<Span>)
    requires Compact(a) && Compact(b) && a != [] && b != [] && forall p: nat :: Inside(a, p) <==> Inside(b, p)
    ensures a[0] == b[0]
  {
    assert Inside(a, a[0].0) && Inside(b, b[0].0);
    EndNotBefore(a, b);
    EndNotBefore(b, a);
  }

  lemma TailSame(a: seq<Span>, b: seq<Span>)
    requires Compact(a) && Compact(b) && a != [] && b != [] && a[0] == b[0] && forall p: nat :: Inside(a, p) <==> Inside(b, p)
    ensures Compact(a[1..]) && Compact(b[1..]) && forall p: nat :: Inside(a[1..], p) <==> Inside(b[1..], p)
  {
    forall p: nat ensures Inside(a[1..], p) <==> Inside(b[1..], p) {
      InTail(a, p);
      InTail(b, p);
    }
  }

  lemma InTail(a: seq<Span>, p: nat)
    requires Compact(a) && a != []
    ensures Inside(a[1..], p) <==> Inside(a, p) && p >= a[0].1
  {
    if k :| 0 <= k < |a[1..]| && a[1..][k].0 <= p < a[1..][k].1 {
      assert a[k + 1].0 <= p < a[k + 1].1 && a[0].1 < a[k + 1].0;
    }
    if Inside(a, p) && p >= a[0].1 {
      var k :| 0 <= k < |a| && a[k].0 <= p < a[k].1;
      assert a[1..][k - 1] == a[k];
    }
  }
}
