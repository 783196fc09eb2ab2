/**
 First-fit span allocation over a fixed free-span table, as used for object
 payloads and for cell spans.

 The free list is not specified by what the loops do to it.  It is specified by
 the spans that are live: the table must hold exactly the gaps between
 consecutive live spans (`Gaps`), and the extent must be the end of the last
 live span (`Extent`).  Sortedness, disjointness, exact tiling and full
 coalescing all follow, and the number of table entries is bounded because each
 gap sits directly in front of its own live span.
 */
module Spans {

  datatype Span = Span(offset: nat, length: nat) {
    function End(): nat { offset + length }
  }

  // ----- live spans and the gaps they leave -----

  /** Live spans in address order, none empty, none overlapping, all at or above `from`. */
  ghost predicate Ordered(live: seq<Span>, from: nat) {
    live == [] ||
    (from <= live[0].offset && 0 < live[0].length && Ordered(live[1..], live[0].End()))
  }

  /** The end of the last live span. */
  ghost function Extent(live: seq<Span>, from: nat): nat {
    if live == [] then from else Extent(live[1..], live[0].End())
  }

  /** The unused ranges in front of each live span, in address order. */
  ghost function Gaps(live: seq<Span>, from: nat): seq<Span>
    requires Ordered(live, from)
  {
    if live == [] then []
    else
      (if from < live[0].offset then [Span(from, live[0].offset - from)] else [])
      + Gaps(live[1..], live[0].End())
  }

  ghost function Total(spans: seq<Span>): nat {
    if spans == [] then 0 else spans[0].length + Total(spans[1..])
  }

  /** Sorted, nonempty, and neither overlapping nor touching, all at or above `from`. */
  ghost predicate Separated(spans: seq<Span>, from: nat) {
    spans == [] ||
    (from <= spans[0].offset && 0 < spans[0].length && Separated(spans[1..], spans[0].End() + 1))
  }

  lemma {:induction false} OrderedSplit(a: seq<Span>, b: seq<Span>, from: nat)
    ensures Extent(a + b, from) == Extent(b, Extent(a, from))
    ensures Ordered(a + b, from) <==> Ordered(a, from) && Ordered(b, Extent(a, from))
    ensures Ordered(a + b, from) ==> Gaps(a + b, from) == Gaps(a, from) + Gaps(b, Extent(a, from))
    ensures Total(a + b) == Total(a) + Total(b)
  {
    hide Total;
    TotalConcat(a, b);
    if a == [] {
      assert a + b == b;
    } else {
      assert (a + b)[0] == a[0] && (a + b)[1..] == a[1..] + b;
      OrderedSplit(a[1..], b, a[0].End());
      if Ordered(a + b, from) { GapsSplit(a, b, from); }
    }
  }

  lemma {:induction false} TotalConcat(a: seq<Span>, b: seq<Span>)
    ensures Total(a + b) == Total(a) + Total(b)
  {
    if a == [] {
      assert a + b == b;
    } else {
      assert (a + b)[0] == a[0] && (a + b)[1..] == a[1..] + b;
      TotalConcat(a[1..], b);
    }
  }

  function Lead(first: Span, from: nat): seq<Span> {
    if from < first.offset then [Span(from, first.offset - from)] else []
  }

  lemma {:induction false} GapsStep(live: seq<Span>, from: nat)
    requires live != [] && Ordered(live, from)
    ensures Gaps(live, from) == Lead(live[0], from) + Gaps(live[1..], live[0].End())
  {
  }

  lemma {:induction false} GapsSplit(a: seq<Span>, b: seq<Span>, from: nat)
    requires a != [] && Ordered(a + b, from) && Ordered(a, from) && Ordered(b, Extent(a, from))
    requires Ordered(a[1..] + b, a[0].End())
    requires Gaps(a[1..] + b, a[0].End()) == Gaps(a[1..], a[0].End()) + Gaps(b, Extent(a, from))
    ensures Gaps(a + b, from) == Gaps(a, from) + Gaps(b, Extent(a, from))
  {
    hide Gaps, Extent, Lead;
    assert (a + b)[0] == a[0] && (a + b)[1..] == a[1..] + b;
    GapsStep(a + b, from);
    GapsStep(a, from);
  }

  lemma {:induction false} ExtentAbove(live: seq<Span>, from: nat)
    requires Ordered(live, from)
    ensures from <= Extent(live, from)
    ensures forall i | 0 <= i < |live| :: from <= live[i].offset && live[i].End() <= Extent(live, from)
  {
    if live != [] {
      ExtentAbove(live[1..], live[0].End());
      forall i | 0 <= i < |live|
        ensures from <= live[i].offset && live[i].End() <= Extent(live, from)
      {
        if i > 0 { assert live[i] == live[1..][i - 1]; }
      }
    }
  }

  lemma SingleSpan(s: Span, from: nat)
    requires from <= s.offset && 0 < s.length
    ensures Ordered([s], from) && Extent([s], from) == s.End() && Total([s]) == s.length
    ensures Gaps([s], from) == if from < s.offset then [Span(from, s.offset - from)] else []
  {
    assert [s][1..] == [];
    assert Gaps([], s.End()) == [];
  }

  /** Free spans are sorted, disjoint, non-adjacent, and never touch the extent. */
  lemma {:induction false} GapsSeparated(live: seq<Span>, from: nat)
    requires Ordered(live, from)
    ensures Separated(Gaps(live, from), from)
    ensures live != [] ==> Extent(Gaps(live, from), from) < Extent(live, from)
  {
    if live != [] {
      var end := live[0].End();
      var rest := Gaps(live[1..], end);
      GapsSeparated(live[1..], end);
      ExtentAbove(live[1..], end);
      GapsAboveLive(live[1..], end);
      SeparatedFrom(rest, end, from);
      if from < live[0].offset {
        var g := Span(from, live[0].offset - from);
        assert ([g] + rest)[1..] == rest && Gaps(live, from) == [g] + rest;
        SeparatedFrom(rest, end, g.End() + 1);
      } else {
        assert Gaps(live, from) == rest;
      }
    }
  }

  lemma GapsAboveLive(live: seq<Span>, from: nat)
    requires Ordered(live, from)
    ensures Gaps(live, from) == [] ==> Extent(Gaps(live, from), from) == from
  {
  }

  lemma SeparatedFrom(s: seq<Span>, from: nat, lower: nat)
    requires Separated(s, from) && lower <= from
    ensures Separated(s, lower)
    ensures s != [] ==> Extent(s, from) == Extent(s, lower)
  {
  }

  /** Free spans never outnumber live ones. */
  lemma {:induction false} GapsBound(live: seq<Span>, from: nat)
    requires Ordered(live, from)
    ensures |Gaps(live, from)| <= |live|
  {
    if live != [] { GapsBound(live[1..], live[0].End()); }
  }

  lemma {:induction false} ExtentBeyond(live: seq<Span>, from: nat)
    requires Ordered(live, from)
    ensures from <= Extent(live, from)
  {
    if live != [] { ExtentBeyond(live[1..], live[0].End()); }
  }

  /** Live spans and free spans together account for every unit below the extent. */
  lemma {:induction false} LiveAndFreeTile(live: seq<Span>, from: nat)
    requires Ordered(live, from)
    ensures from + Total(live) + Total(Gaps(live, from)) == Extent(live, from)
  {
    if live != [] {
      LiveAndFreeTile(live[1..], live[0].End());
      var rest := Gaps(live[1..], live[0].End());
      if from < live[0].offset {
        var g := Span(from, live[0].offset - from);
        assert ([g] + rest)[1..] == rest;
      } else {
        assert [] + rest == rest;
      }
    }
  }

  ghost predicate Covers(spans: seq<Span>, x: nat) {
    spans != [] && (spans[0].offset <= x < spans[0].End() || Covers(spans[1..], x))
  }

  /** Every address below the extent lies in exactly one of the two lists. */
  lemma {:induction false} TilesExactly(live: seq<Span>, from: nat, x: nat)
    requires Ordered(live, from)
    requires from <= x < Extent(live, from)
    ensures Covers(live, x) <==> !Covers(Gaps(live, from), x)
  {
    if live != [] {
      var end := live[0].End();
      var rest := Gaps(live[1..], end);
      if from < live[0].offset {
        var g := Span(from, live[0].offset - from);
        assert ([g] + rest)[0] == g && ([g] + rest)[1..] == rest;
      } else {
        assert Gaps(live, from) == rest;
      }
      if x < end {
        NothingBelow(live[1..], end, x);
        GapsSeparated(live[1..], end);
        NothingBelowSeparated(rest, end, x);
      } else {
        TilesExactly(live[1..], end, x);
      }
    }
  }

  lemma {:induction false} NothingBelow(live: seq<Span>, from: nat, x: nat)
    requires Ordered(live, from) && x < from
    ensures !Covers(live, x)
  {
    if live != [] { NothingBelow(live[1..], live[0].End(), x); }
  }

  lemma {:induction false} NothingBelowSeparated(spans: seq<Span>, from: nat, x: nat)
    requires Separated(spans, from) && x < from
    ensures !Covers(spans, x)
  {
    if spans != [] { NothingBelowSeparated(spans[1..], spans[0].End() + 1, x); }
  }

  // ----- what the two table loops compute -----

  /** The result of the coalescing pass on a span table. */
  ghost function Merge(s: seq<Span>): seq<Span>
    decreases |s|
  {
    if |s| <= 1 then s
    else if s[0].End() < s[1].offset then [s[0]] + Merge(s[1..])
    else Merge([Joined(s[0], s[1])] + s[2..])
  }

  function Joined(prev: Span, current: Span): Span {
    if current.End() > prev.End()
    then Span(prev.offset, current.End() - prev.offset) else prev
  }

  /** The result of the tail-trimming pass: the table and the new extent. */
  ghost function Trim(s: seq<Span>, extent: nat): (seq<Span>, nat) {
    if s == [] || s[|s| - 1].End() != extent then (s, extent)
    else Trim(s[..|s| - 1], s[|s| - 1].offset)
  }

  /** A table whose first `i` rows are already separated, with the rest still to be merged. */
  ghost function MergedFrom(s: seq<Span>, i: nat): seq<Span>
    requires 1 <= i <= |s|
  {
    s[..i - 1] + Merge(s[i - 1..])
  }

  lemma MergeKeep(s: seq<Span>, i: nat)
    requires 1 <= i < |s| && s[i - 1].End() < s[i].offset
    ensures MergedFrom(s, i) == MergedFrom(s, i + 1)
  {
    assert s[i - 1..][1..] == s[i..];
    assert s[..i] == s[..i - 1] + [s[i - 1]];
  }

  lemma MergeJoin(s: seq<Span>, i: nat)
    requires 1 <= i < |s| && s[i].offset <= s[i - 1].End()
    ensures MergedFrom(s, i) == MergedFrom(s[..i - 1] + [Joined(s[i - 1], s[i])] + s[i + 1..], i)
  {
    var t := s[..i - 1] + [Joined(s[i - 1], s[i])] + s[i + 1..];
    assert t[..i - 1] == s[..i - 1];
    assert t[i - 1..] == [Joined(s[i - 1], s[i])] + s[i + 1..];
    assert s[i - 1..][2..] == s[i + 1..];
  }

  lemma MergeDone(s: seq<Span>)
    requires s != []
    ensures MergedFrom(s, |s|) == s && MergedFrom(s, 1) == Merge(s)
  {
    assert s[..0] == [] && s[0..] == s;
    assert s == s[..|s| - 1] + s[|s| - 1..];
  }

  lemma {:induction false} MergePrefix(p: seq<Span>, x: seq<Span>, from: nat)
    requires Separated(p, from)
    requires p == [] || x == [] || Extent(p, from) < x[0].offset
    ensures Merge(p + x) == p + Merge(x)
  {
    if p == [] {
      assert p + x == x && p + Merge(x) == Merge(x);
    } else {
      assert (p + x)[0] == p[0] && (p + x)[1..] == p[1..] + x;
      var next := p[0].End() + 1;
      SeparatedFrom(p[1..], next, p[0].End());
      MergePrefix(p[1..], x, next);
      assert p == [p[0]] + p[1..];
    }
  }

  lemma MergeSeparated(p: seq<Span>, from: nat)
    requires Separated(p, from)
    ensures Merge(p) == p
  {
    MergePrefix(p, [], from);
    assert p + [] == p;
  }

  /** A gap directly in front of the freed span is joined to it. */
  lemma MergeFront(top: nat, s: Span, tail: seq<Span>)
    requires top <= s.offset && 0 < s.length
    ensures Merge(Gaps([s], top) + ([s] + tail)) == Merge([Span(top, s.End() - top)] + tail)
  {
    SingleSpan(s, top);
    if top < s.offset {
      var x := Gaps([s], top) + ([s] + tail);
      assert x[1] == s && x[2..] == tail;
    } else {
      assert Gaps([s], top) + ([s] + tail) == [s] + tail;
    }
  }

  /** A gap directly behind the freed range is joined to it. */
  lemma JoinBehind(top: nat, end: nat, b: seq<Span>)
    requires top < end && Ordered(b, end) && b != []
    ensures Merge([Span(top, end - top)] + Gaps(b, end))
         == Merge([Span(top, b[0].offset - top)] + Gaps(b[1..], b[0].End()))
  {
    var hole := Span(top, end - top);
    var rest := Gaps(b[1..], b[0].End());
    if end < b[0].offset {
      var g := Span(end, b[0].offset - end);
      var y := [hole] + ([g] + rest);
      assert Gaps(b, end) == [g] + rest && y[1] == g && y[2..] == rest;
      assert Joined(hole, g) == Span(top, b[0].offset - top);
    } else {
      assert Gaps(b, end) == rest;
    }
  }

  lemma {:induction false} MergeBack(top: nat, end: nat, b: seq<Span>)
    requires top < end && Ordered(b, end)
    ensures Ordered(b, top)
    ensures Merge([Span(top, end - top)] + Gaps(b, end))
         == Gaps(b, top) + (if b == [] then [Span(top, end - top)] else [])
  {
    hide Merge, Joined;
    var hole := Span(top, end - top);
    if b == [] {
      assert [hole] + Gaps(b, end) == [hole];
      MergeOne(hole);
    } else {
      var rest := Gaps(b[1..], b[0].End());
      var wide := Span(top, b[0].offset - top);
      JoinBehind(top, end, b);
      assert Gaps(b, top) == [wide] + rest;
      GapsSeparated(b[1..], b[0].End());
      SeparatedFrom(rest, b[0].End(), wide.End() + 1);
      assert ([wide] + rest)[1..] == rest;
      MergeSeparated([wide] + rest, top);
    }
  }

  lemma MergeOne(s: Span)
    ensures Merge([s]) == [s]
  {
  }

  /** Everything about splitting the live order around one span. */
  lemma Around(a: seq<Span>, s: Span, b: seq<Span>, from: nat)
    requires Ordered(a + [s] + b, from)
    ensures Ordered(a, from) && 0 < s.length && Extent(a, from) <= s.offset
    ensures Ordered(a + [s], from) && Extent(a + [s], from) == s.End()
    ensures Ordered(b, s.End()) && Ordered(b, Extent(a, from)) && Ordered(a + b, from)
    ensures Extent(a + [s] + b, from) == Extent(b, s.End())
    ensures Extent(a + b, from) == Extent(b, Extent(a, from))
    ensures Gaps(a + [s], from) == Gaps(a, from) + Gaps([s], Extent(a, from))
    ensures Gaps(a + [s] + b, from) == Gaps(a + [s], from) + Gaps(b, s.End())
    ensures Gaps(a + b, from) == Gaps(a, from) + Gaps(b, Extent(a, from))
    ensures Total(a + [s] + b) == Total(a + b) + s.length
  {
    OrderedSplit(a + [s], b, from);
    OrderedSplit(a, [s], from);
    SingleSpan(s, Extent(a, from));
    OrderedSplit(a, b, from);
  }

  /** Coalescing after an insert leaves exactly the gaps of the remaining live spans,
      plus the freed tail when the released span was the last one. */
  lemma MergeAfterInsert(a: seq<Span>, s: Span, b: seq<Span>, from: nat)
    requires Ordered(a + [s] + b, from)
    ensures Ordered(a + b, from) && Ordered(a + [s], from) && Ordered(b, s.End())
    ensures Extent(a, from) <= s.offset
    ensures Merge(Gaps(a + [s], from) + [s] + Gaps(b, s.End()))
            == Gaps(a + b, from) + FreedTail(Extent(a, from), s, b)
  {
    Around(a, s, b, from);
    GapsSeparated(a, from);
    MergeParts(Gaps(a, from), Extent(a, from), s, b, from);
    if a != [] && Gaps(a, from) != [] { GapsSeparated(a, from); }
  }

  lemma MergeParts(ga: seq<Span>, top: nat, s: Span, b: seq<Span>, from: nat)
    requires Separated(ga, from) && (ga == [] || Extent(ga, from) < top)
    requires top <= s.offset && 0 < s.length && Ordered(b, s.End())
    ensures Ordered([s], top) && Ordered(b, top)
    ensures Merge(ga + Gaps([s], top) + [s] + Gaps(b, s.End())) == ga + Gaps(b, top) + FreedTail(top, s, b)
  {
    SingleSpan(s, top);
    MergeBack(top, s.End(), b);
    var gb := Gaps(b, s.End());
    var x := Gaps([s], top) + ([s] + gb);
    Regroup(ga, Gaps([s], top), [s], gb);
    assert top <= x[0].offset;
    MergePrefix(ga, x, from);
    MergeFront(top, s, gb);
    Regroup(ga, Gaps(b, top), FreedTail(top, s, b), []);
  }

  lemma Regroup<T>(a: seq<T>, b: seq<T>, c: seq<T>, d: seq<T>)
    ensures a + b + c + d == a + (b + (c + d))
    ensures d == [] ==> a + b + c + d == a + b + c && c + d == c
  {
  }

  /** What coalescing leaves behind the last live span when the last one was freed. */
  ghost function FreedTail(top: nat, s: Span, b: seq<Span>): seq<Span>
    requires top <= s.offset
  {
    if b == [] then [Span(top, s.End() - top)] else []
  }

  lemma {:induction false} LastOf(s: seq<Span>, from: nat)
    requires s != []
    ensures s[|s| - 1].End() == Extent(s, from)
  {
    if |s| > 1 {
      assert s[1..][|s| - 2] == s[|s| - 1];
      LastOf(s[1..], s[0].End());
    } else {
      assert s[1..] == [];
    }
  }

  lemma GapsDoNotTouch(live: seq<Span>, from: nat)
    requires Ordered(live, from)
    ensures Trim(Gaps(live, from), Extent(live, from)) == (Gaps(live, from), Extent(live, from))
  {
    if Gaps(live, from) != [] {
      GapsSeparated(live, from);
      LastOf(Gaps(live, from), from);
    }
  }

  /** Trimming then leaves exactly the gaps and the extent of the remaining live spans. */
  lemma TrimAfterMerge(a: seq<Span>, s: Span, b: seq<Span>, from: nat)
    requires Ordered(a + [s] + b, from)
    ensures Ordered(a + b, from) && Extent(a, from) <= s.offset
    ensures Trim(Gaps(a + b, from) + FreedTail(Extent(a, from), s, b), Extent(a + [s] + b, from))
            == (Gaps(a + b, from), Extent(a + b, from))
  {
    Around(a, s, b, from);
    var g, top := Gaps(a + b, from), Extent(a, from);
    GapsDoNotTouch(a + b, from);
    if b == [] {
      var t := g + [Span(top, s.End() - top)];
      assert t[..|t| - 1] == g;
    } else {
      assert g + [] == g;
    }
  }

  // ----- removing and inserting live spans -----

  ghost predicate SplitsAt(live: seq<Span>, k: nat, s: Span) {
    k < |live| && live[k] == s
  }

  ghost function RemoveAt(live: seq<Span>, k: nat): seq<Span>
    requires k < |live|
  {
    live[..k] + live[k + 1..]
  }

  ghost function InsertAt(live: seq<Span>, k: nat, s: Span): seq<Span>
    requires k <= |live|
  {
    live[..k] + [s] + live[k..]
  }

  /** No gap in front of the first `k` live spans has room for `length`. */
  ghost predicate NoRoomBefore(live: seq<Span>, from: nat, k: nat, length: nat)
    requires k <= |live| && Ordered(live, from)
  {
    OrderedSplit(live[..k], live[k..], from);
    assert live[..k] + live[k..] == live;
    forall g | g in Gaps(live[..k], from) :: g.length < length
  }

  /** Where in the live order free-table entry `i` sits: directly in front of live span `k`. */
  lemma {:induction false} GapPosition(live: seq<Span>, from: nat, i: nat) returns (k: nat)
    requires Ordered(live, from)
    requires i < |Gaps(live, from)|
    ensures k < |live| && AtGap(live, from, i, k)
  {
    hide AtGap, Extent;
    if from < live[0].offset && i == 0 {
      k := 0;
      FirstGap(live, from);
    } else {
      var lead := if from < live[0].offset then 1 else 0;
      var j := GapPosition(live[1..], live[0].End(), i - lead);
      k := j + 1;
      LaterGap(live, from, i - lead, j);
    }
  }

  /** Free-table entry `i` is the gap in front of live span `k`, and cuts the table in two. */
  ghost predicate AtGap(live: seq<Span>, from: nat, i: nat, k: nat)
    requires Ordered(live, from) && k < |live|
  {
    && i < |Gaps(live, from)|
    && Ordered(live[..k], from) && Extent(live[..k], from) < live[k].offset
    && Gaps(live, from)[i] == Span(Extent(live[..k], from), live[k].offset - Extent(live[..k], from))
    && Gaps(live[..k], from) == Gaps(live, from)[..i]
    && Ordered(live[k + 1..], live[k].End())
    && Gaps(live[k + 1..], live[k].End()) == Gaps(live, from)[i + 1..]
  }

  lemma FirstGap(live: seq<Span>, from: nat)
    requires Ordered(live, from) && live != [] && from < live[0].offset
    ensures AtGap(live, from, 0, 0)
  {
    assert live[..0] == [];
  }

  lemma LaterGap(live: seq<Span>, from: nat, i: nat, j: nat)
    requires Ordered(live, from) && live != [] && j + 1 < |live| && AtGap(live[1..], live[0].End(), i, j)
    ensures AtGap(live, from, i + (if from < live[0].offset then 1 else 0), j + 1)
  {
    var k, rest := j + 1, Gaps(live[1..], live[0].End());
    var lead := if from < live[0].offset then [Span(from, live[0].offset - from)] else [];
    assert live[..k][0] == live[0] && live[..k][1..] == live[1..][..j];
    assert live[k + 1..] == live[1..][j + 1..];
    assert Gaps(live, from) == lead + rest;
    assert (lead + rest)[..i + |lead|] == lead + rest[..i];
    assert (lead + rest)[i + |lead| + 1..] == rest[i + 1..];
  }

  ghost function Cut(g: Span, length: nat): seq<Span>
    requires length <= g.length
  {
    if g.length == length then [] else [Span(g.offset + length, g.length - length)]
  }

  /** Taking the front of the gap between `a` and `b` and making it live changes that gap alone. */
  lemma TakeFromGap(a: seq<Span>, b: seq<Span>, from: nat, s: Span)
    requires Ordered(a + b, from) && b != [] && 0 < s.length
    requires s.offset == Extent(a, from) && s.End() <= b[0].offset
    ensures var after := a + [s] + b;
            && Ordered(after, from) && Extent(after, from) == Extent(a + b, from)
            && Total(after) == Total(a + b) + s.length
            && Ordered(a, from) && Ordered(b[1..], b[0].End())
            && Gaps(after, from)
               == Gaps(a, from)
                  + Cut(Span(s.offset, b[0].offset - s.offset), s.length)
                  + Gaps(b[1..], b[0].End())
  {
    OrderedSplit(a, b, from);
    OrderedSplit(a, [s], from);
    SingleSpan(s, s.offset);
    OrderedSplit(a + [s], b, from);
    Around(a, s, b, from);
    assert Gaps(a, from) + [] == Gaps(a, from);
    var cut := Cut(Span(s.offset, b[0].offset - s.offset), s.length);
    assert Gaps(b, s.End()) == cut + Gaps(b[1..], b[0].End());
    assert Gaps(a, from) + (cut + Gaps(b[1..], b[0].End())) == Gaps(a, from) + cut + Gaps(b[1..], b[0].End());
  }

  lemma TakeFit(live: seq<Span>, from: nat, i: nat, length: nat) returns (k: nat)
    requires Ordered(live, from) && i < |Gaps(live, from)|
    requires 0 < length <= Gaps(live, from)[i].length
    ensures k <= |live| && Ordered(live[..k], from)
    ensures Gaps(live, from)[i].offset == Extent(live[..k], from)
    ensures Gaps(live[..k], from) == Gaps(live, from)[..i]
    ensures var g := Gaps(live, from);
            var after := InsertAt(live, k, Span(g[i].offset, length));
            && Ordered(after, from) && Extent(after, from) == Extent(live, from)
            && Total(after) == Total(live) + length
            && Gaps(after, from) == g[..i] + Cut(g[i], length) + g[i + 1..]
  {
    k := GapPosition(live, from, i);
    assert live == live[..k] + live[k..];
    assert live[k..][1..] == live[k + 1..];
    TakeFromGap(live[..k], live[k..], from, Span(Gaps(live, from)[i].offset, length));
  }

  lemma RoomExhausted(live: seq<Span>, from: nat, length: nat)
    requires Ordered(live, from)
    requires forall j | 0 <= j < |Gaps(live, from)| :: Gaps(live, from)[j].length < length
    ensures NoRoomBefore(live, from, |live|, length)
  {
    assert live[..|live|] == live;
  }

  /** Allocating and then releasing the same span restores the live order, hence the
      table, the extent and the usage, which are functions of it. */
  lemma AllocateThenRelease(live: seq<Span>, k: nat, s: Span)
    requires k <= |live|
    ensures RemoveAt(InsertAt(live, k, s), k) == live
  {
    var after := InsertAt(live, k, s);
    assert after[..k] == live[..k] && after[k + 1..] == live[k..];
  }

  // ----- the allocator -----

  class SpanAllocator {
    const origin: nat       // first address that is handed out
    const limit: nat        // end of the storage
    const spans: array<Span> // the free-span table
    var count: nat          // entries of the table in use
    var extent: nat
    var used: nat
    var highWater: nat
    ghost var live: seq<Span>

    ghost predicate Valid()
      reads this, spans
    {
      && Ordered(live, origin)
      && count < spans.Length
      && spans[..count] == Gaps(live, origin)
      && extent == Extent(live, origin) <= limit
      && used == Total(live) <= highWater
    }

    constructor (origin: nat, limit: nat, entries: nat)
      requires origin <= limit && 0 < entries
      ensures Valid() && fresh(spans)
      ensures live == [] && extent == origin && used == 0
      ensures this.origin == origin && this.limit == limit && spans.Length == entries
    {
      this.origin, this.limit := origin, limit;
      spans := new Span[entries](_ => Span(0, 0));
      count, extent, used, highWater := 0, origin, 0, 0;
      live := [];
    }

    /** Forgets every allocation. */
    method Reset()
      requires origin <= limit && 0 < spans.Length
      modifies this
      ensures Valid() && live == []
    {
      count, extent, used, highWater := 0, origin, 0, 0;
      live := [];
    }

    /** Moves the rows behind row `i` up by one. */
    method CloseRow(i: nat)
      requires i < count <= spans.Length
      modifies this`count, spans
      ensures count == old(count) - 1
      ensures spans[..count] == old(spans[..count])[..i] + old(spans[..count])[i + 1..]
    {
      forall j | i <= j < count - 1 { spans[j] := spans[j + 1]; }
      count := count - 1;
    }

    /** Cuts `length` off the front of table entry `i`, closing the row if nothing is left. */
    method CutEntry(i: nat, length: nat)
      requires i < count <= spans.Length && 0 < length <= spans[i].length
      modifies this`count, spans
      ensures count <= old(count)
      ensures spans[..count] == old(spans[..count])[..i]
                + Cut(old(spans[i]), length) + old(spans[..count])[i + 1..]
    {
      ghost var row := spans[..count];
      spans[i] := Span(spans[i].offset + length, spans[i].length - length);
      if spans[i].length == 0 {
        CloseRow(i);
        assert spans[..count] == row[..i] + [] + row[i + 1..];
      } else {
        assert spans[..count] == row[..i] + [spans[i]] + row[i + 1..];
      }
    }

    /** Scans the table for the first span with room and takes its front. */
    method TakeFreeSpan(length: nat) returns (ok: bool, offset: nat, ghost at: nat)
      requires Valid() && 0 < length
      modifies this`count, this`live, spans
      ensures !ok ==> unchanged(this) && unchanged(spans) && NoRoomBefore(live, origin, |live|, length)
      ensures ok ==> at <= |old(live)| && live == InsertAt(old(live), at, Span(offset, length))
                     && NoRoomBefore(old(live), origin, at, length)
                     && offset == Extent(old(live)[..at], origin)
      ensures Ordered(live, origin) && count < spans.Length && spans[..count] == Gaps(live, origin)
      ensures extent == Extent(live, origin)
      ensures ok ==> Total(live) == old(Total(live)) + length
    {
      ghost var g := Gaps(live, origin);
      var i := 0;
      while i < count && spans[i].length < length
        invariant i <= count
        invariant forall j | 0 <= j < i :: g[j].length < length
      {
        assert spans[i] == g[i];
        i := i + 1;
      }
      if i == count {
        RoomExhausted(live, origin, length);
        return false, 0, 0;
      }
      assert spans[i] == g[i] && spans[..i] == g[..i] && spans[i + 1..count] == g[i + 1..];
      ok, offset := true, spans[i].offset;
      at := TakeFit(live, origin, i, length);
      assert forall h | h in g[..i] :: h.length < length;
      CutEntry(i, length);
      live := InsertAt(live, at, Span(offset, length));
    }

    /** First fit; grows the extent when no free span has room, and fails only
        when neither a gap nor the space above the extent suffices. */
    method Allocate(length: nat) returns (ok: bool, span: Span, ghost at: nat)
      requires Valid() && 0 < length
      modifies this, spans
      ensures Valid()
      ensures ok ==> at <= |old(live)| && live == InsertAt(old(live), at, span) && span.length == length
                     && NoRoomBefore(old(live), origin, at, length)
                     && span.offset == Extent(old(live)[..at], origin)
                     && used == old(used) + length
      ensures extent <= old(extent) + length
      ensures !ok ==> live == old(live) && NoRoomBefore(live, origin, |live|, length)
                      && limit < old(extent) + length && used == old(used)
    {
      var offset;
      ok, offset, at := TakeFreeSpan(length);
      if !ok {
        if length > limit || extent > limit - length {
          return false, Span(0, 0), 0;
        }
        offset, at := extent, |live|;
        ghost var s := Span(offset, length);
        assert InsertAt(live, at, s) == live + [s] by {
          assert live[..at] == live && live[at..] == [];
        }
        assert live[..at] == live;
        OrderedSplit(live, [s], origin);
        SingleSpan(s, extent);
        assert Gaps(live + [s], origin) == Gaps(live, origin) + [];
        extent := extent + length;
        live := live + [s];
        ok := true;
      }
      used := used + length;
      if used > highWater { highWater := used; }
      span := Span(offset, length);
    }

    /** Opens a row for `s` in front of the first entry that does not start below it. */
    method InsertEntry(s: Span) returns (ghost at: nat)
      requires count < spans.Length
      modifies this`count, spans
      ensures at <= old(count)
      ensures forall i | 0 <= i < at :: old(spans[..count])[i].offset < s.offset
      ensures at < old(count) ==> s.offset <= old(spans[at]).offset
      ensures count == old(count) + 1
      ensures spans[..count] == old(spans[..count])[..at] + [s] + old(spans[..count])[at..]
    {
      var insert := 0;
      while insert < count && spans[insert].offset < s.offset
        invariant insert <= count
        invariant forall i | 0 <= i < insert :: spans[i].offset < s.offset
      {
        insert := insert + 1;
      }
      at := insert;
      forall i | insert < i <= count { spans[i] := spans[i - 1]; }
      spans[insert] := s;
      count := count + 1;
    }

    /** Joins every entry to its predecessor when the two touch or overlap. */
    method Coalesce()
      requires 0 < count <= spans.Length
      modifies this`count, spans
      ensures count <= old(count)
      ensures spans[..count] == Merge(old(spans[..count]))
    {
      hide Merge, MergedFrom, Joined;
      ghost var before := spans[..count];
      var i := 1;
      MergeDone(before);
      while i < count
        invariant 1 <= i <= count <= old(count)
        invariant MergedFrom(spans[..count], i) == Merge(before)
        decreases count - i
      {
        ghost var row := spans[..count];
        if spans[i - 1].End() < spans[i].offset {
          MergeKeep(row, i);
          i := i + 1;
          continue;
        }
        MergeJoin(row, i);
        spans[i - 1] := Joined(spans[i - 1], spans[i]);
        CloseRow(i);
        assert spans[..count] == row[..i - 1] + [Joined(row[i - 1], row[i])] + row[i + 1..];
      }
      MergeDone(spans[..count]);
    }

    /** Gives trailing free space back to the extent. */
    method TrimTail()
      requires count <= spans.Length
      modifies this`count, this`extent
      ensures count <= old(count)
      ensures (spans[..count], extent) == Trim(old(spans[..count]), old(extent))
    {
      while count > 0 && spans[count - 1].End() == extent
        invariant count <= old(count)
        invariant Trim(spans[..count], extent) == Trim(old(spans[..count]), old(extent))
      {
        assert spans[..count][..count - 1] == spans[..count - 1];
        extent := spans[count - 1].offset;
        count := count - 1;
      }
    }

    /** Inserts a span into the free table, coalesces, and trims the tail. */
    method AddFreeSpan(s: Span, ghost k: nat)
      requires Ordered(live, origin) && SplitsAt(live, k, s)
      requires Ordered(RemoveAt(live, k), origin)
      requires count < spans.Length && spans[..count] == Gaps(live, origin)
      requires extent == Extent(live, origin)
      modifies this`count, this`extent, spans
      ensures count <= spans.Length
      ensures spans[..count] == Gaps(RemoveAt(live, k), origin)
      ensures extent == Extent(RemoveAt(live, k), origin)
    {
      hide Merge, Trim, Ordered, Gaps, Extent;
      ghost var before, top := spans[..count], extent;
      var at := InsertEntry(s);
      Coalesce();
      TrimTail();
      assert live == live[..k] + [s] + live[k + 1..];
      ReleasedTable(live[..k], s, live[k + 1..], origin, before, at);
      assert (spans[..count], extent) == Trim(Merge(before[..at] + [s] + before[at..]), top);
    }

    /** Gives a live span back.  The table has room for the insert before coalescing
        because it never holds as many entries as it has slots. */
    method Release(s: Span, ghost k: nat)
      requires Valid() && SplitsAt(live, k, s)
      requires Ordered(RemoveAt(live, k), origin) ==> |Gaps(RemoveAt(live, k), origin)| < spans.Length
      modifies this, spans
      ensures Valid()
      ensures live == RemoveAt(old(live), k) && used == old(used) - s.length
    {
      ghost var remaining := RemoveAt(live, k);
      ShorterExtent(live, k, origin);
      used := used - s.length;
      AddFreeSpan(s, k);
      live := remaining;
    }

    /** Gives back the span that was allocated last.  Allocating and releasing it is the
        identity on the table, so there is room even when every object owns a span. */
    method TakeBack(s: Span, ghost at: nat, ghost before: seq<Span>)
      requires Valid() && at <= |before| && live == InsertAt(before, at, s)
      requires Ordered(before, origin) && |Gaps(before, origin)| < spans.Length
      modifies this, spans
      ensures Valid() && live == before
    {
      AllocateThenRelease(before, at, s);
      Release(s, at);
    }

    lemma HasRoom()
      requires Valid()
      ensures Ordered(live, origin) && |Gaps(live, origin)| < spans.Length
    {
      assert |spans[..count]| == count;
    }

    /** As `Release`, for a caller who knows that the live spans fit the table: since gaps
        never outnumber live spans, the remaining gaps do too. */
    method ReleaseOwned(s: Span)
      requires Valid() && s in live && |live| <= spans.Length
      modifies this, spans
      ensures Valid() && multiset(live) == old(multiset(live)) - multiset{s}
    {
      ghost var k := IndexOf(live, s);
      Removed(live, k);
      if Ordered(RemoveAt(live, k), origin) { GapsBound(RemoveAt(live, k), origin); }
      Release(s, k);
    }
  }

  ghost function IndexOf(live: seq<Span>, s: Span): (k: nat)
    requires s in live
    ensures k < |live| && live[k] == s
  {
    if live[0] == s then 0 else 1 + IndexOf(live[1..], s)
  }

  lemma Removed(live: seq<Span>, k: nat)
    requires k < |live|
    ensures multiset(RemoveAt(live, k)) == multiset(live) - multiset{live[k]}
    ensures |RemoveAt(live, k)| == |live| - 1
  {
    assert live == live[..k] + [live[k]] + live[k + 1..];
  }

  lemma InsertPosition(g1: seq<Span>, g2: seq<Span>, offset: nat, at: nat)
    requires at <= |g1 + g2|
    requires forall g | g in g1 :: g.offset < offset
    requires forall g | g in g2 :: offset < g.offset
    requires forall i | 0 <= i < at :: (g1 + g2)[i].offset < offset
    requires at < |g1 + g2| ==> offset <= (g1 + g2)[at].offset
    ensures at == |g1| && (g1 + g2)[..at] == g1 && (g1 + g2)[at..] == g2
  {
    assert forall i | 0 <= i < |g1| :: (g1 + g2)[i] in g1;
    assert g2 != [] ==> (g1 + g2)[|g1|] in g2;
  }

  /** Insert, coalesce, trim: together they turn the gaps of the live spans into the
      gaps of the live spans without `s`. */
  lemma ReleasedTable(a: seq<Span>, s: Span, b: seq<Span>, from: nat, g: seq<Span>, at: nat)
    requires Ordered(a + [s] + b, from) && g == Gaps(a + [s] + b, from) && at <= |g|
    requires forall i | 0 <= i < at :: g[i].offset < s.offset
    requires at < |g| ==> s.offset <= g[at].offset
    ensures Ordered(a + b, from)
    ensures Trim(Merge(g[..at] + [s] + g[at..]), Extent(a + [s] + b, from))
            == (Gaps(a + b, from), Extent(a + b, from))
  {
    Around(a, s, b, from);
    BeforeAndAfter(a, s, b, from);
    InsertPosition(Gaps(a + [s], from), Gaps(b, s.End()), s.offset, at);
    MergeAfterInsert(a, s, b, from);
    TrimAfterMerge(a, s, b, from);
  }

  /** Table entries in front of `s` start below it, those behind it do not. */
  lemma BeforeAndAfter(a: seq<Span>, s: Span, b: seq<Span>, from: nat)
    requires Ordered(a + [s] + b, from)
    ensures Ordered(a + [s], from) && Ordered(b, s.End())
    ensures forall g | g in Gaps(a + [s], from) :: g.offset < s.offset
    ensures forall g | g in Gaps(b, s.End()) :: s.offset < g.offset
  {
    Around(a, s, b, from);
    SingleSpan(s, Extent(a, from));
    GapsBelow(a, from);
    GapsBelow(b, s.End());
  }

  lemma {:induction false} GapsBelow(live: seq<Span>, from: nat)
    requires Ordered(live, from)
    ensures forall g | g in Gaps(live, from) :: from <= g.offset < Extent(live, from)
  {
    if live != [] {
      GapsBelow(live[1..], live[0].End());
      ExtentAbove(live[1..], live[0].End());
    }
  }

  lemma ShorterExtent(live: seq<Span>, k: nat, from: nat)
    requires Ordered(live, from) && k < |live|
    ensures Ordered(RemoveAt(live, k), from)
    ensures Extent(RemoveAt(live, k), from) <= Extent(live, from)
    ensures Total(RemoveAt(live, k)) == Total(live) - live[k].length
  {
    var a, s, b := live[..k], live[k], live[k + 1..];
    assert live == a + [s] + b;
    Around(a, s, b, from);
    if b != [] { assert Extent(b, Extent(a, from)) == Extent(b, s.End()); }
  }
}
