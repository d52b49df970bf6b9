/** `_split_text_across_windows`: the tokens of a text are dealt out by proportional position. */
module SegmentText {
  import opened SpeakerWindows
  import opened Text

  /** Instant at the middle of the `i`-th of `n` equal slices of [lo, hi]. */
  function Midpoint(lo: real, hi: real, i: nat, n: nat): real
    requires n > 0
  {
    PointAt(lo, hi, Fraction(i, n))
  }

  function Fraction(i: nat, n: nat): real
    requires n > 0
  {
    (i as real + 0.5) / n as real
  }

  lemma FractionsAdvance(i: nat, j: nat, n: nat)
    requires i <= j < n
    ensures 0.0 < Fraction(i, n) <= Fraction(j, n) < 1.0
  {
    var d := n as real;
    QuotientOrder(i as real + 0.5, j as real + 0.5, d);
    QuotientOrder(0.0, i as real + 0.5, d);
    QuotientOrder(j as real + 0.5, d, d);
  }

  function PointAt(lo: real, hi: real, fraction: real): real {
    lo + (hi - lo) * fraction
  }

  lemma PositiveProduct(x: real, y: real)
    requires x > 0.0 && y >= 0.0
    ensures x * y >= 0.0 && (y > 0.0 ==> x * y > 0.0)
  {
  }

  lemma PointsWithin(lo: real, hi: real, a: real, b: real)
    requires lo < hi && 0.0 < a <= b < 1.0
    ensures lo < PointAt(lo, hi, a) <= PointAt(lo, hi, b) < hi
  {
    PositiveProduct(hi - lo, a);
    PositiveProduct(hi - lo, b - a);
    PositiveProduct(hi - lo, 1.0 - b);
    assert PointAt(lo, hi, b) == PointAt(lo, hi, a) + (hi - lo) * (b - a);
    assert PointAt(lo, hi, b) == hi - (hi - lo) * (1.0 - b);
  }

  lemma MidpointsAdvance(lo: real, hi: real, i: nat, j: nat, n: nat)
    requires lo < hi && i <= j < n
    ensures lo < Midpoint(lo, hi, i, n) <= Midpoint(lo, hi, j, n) < hi
  {
    FractionsAdvance(i, j, n);
    PointsWithin(lo, hi, Fraction(i, n), Fraction(j, n));
  }

  lemma QuotientOrder(a: real, b: real, d: real)
    requires d > 0.0
    ensures a <= b ==> a / d <= b / d
    ensures a < b ==> a / d < b / d
    ensures 0.0 / d == 0.0 && d / d == 1.0
  {
    var x, y := a / d, b / d;
    assert x * d == a && y * d == b;
  }

  /** `cuts` says where each window's share of the tokens begins and ends. */
  ghost predicate AreCuts(cuts: seq<nat>, windows: nat, tokens: nat) {
    && |cuts| == windows + 1 && cuts[0] == 0 && cuts[windows] == tokens
    && forall i, j | 0 <= i <= j < |cuts| :: cuts[i] <= cuts[j]
  }

  ghost predicate IsDealt(texts: seq<string>, tokens: seq<string>, cuts: seq<nat>) {
    AreCuts(cuts, |texts|, |tokens|) && forall j | 0 <= j < |texts| :: texts[j] == Join(tokens[cuts[j]..cuts[j + 1]])
  }

  /** Token `i` is dealt to window `j`. */
  ghost predicate InShare(cuts: seq<nat>, j: nat, i: nat) {
    j + 1 < |cuts| && cuts[j] <= i < cuts[j + 1]
  }

  /** Each token is dealt to the window that contains its midpoint. */
  ghost predicate ByMidpoint(cuts: seq<nat>, ws: seq<Window>, n: nat, lo: real, hi: real)
    requires AreCuts(cuts, |ws|, n)
  {
    forall j: nat, i: nat | InShare(cuts, j, i) :: i < n && ws[j].start <= Midpoint(lo, hi, i, n) < ws[j].end
  }

  /** Dealing loses no token and keeps their order. */
  lemma {:induction false} DealtTokens(texts: seq<string>, tokens: seq<string>, cuts: seq<nat>, k: nat)
    requires IsDealt(texts, tokens, cuts) && k <= |texts|
    requires forall t | t in tokens :: IsToken(t)
    ensures Tokens(texts[..k]) == tokens[..cuts[k]]
  {
    if k > 0 {
      DealtTokens(texts, tokens, cuts, k - 1);
      assert cuts[k - 1] <= cuts[k] <= cuts[|texts|];
      SplitJoin(tokens[cuts[k - 1]..cuts[k]]);
      assert texts[..k][..k - 1] == texts[..k - 1];
      assert tokens[..cuts[k]] == tokens[..cuts[k - 1]] + tokens[cuts[k - 1]..cuts[k]];
    }
  }

  /** Deals everything to the first window. */
  lemma DealtToFirst(texts: seq<string>, tokens: seq<string>) returns (cuts: seq<nat>)
    requires texts != [] && texts[0] == Join(tokens) && forall j | 0 < j < |texts| :: texts[j] == ""
    ensures IsDealt(texts, tokens, cuts)
  {
    cuts := seq(|texts| + 1, i => if i == 0 then 0 else |tokens|);
    forall j | 0 <= j < |texts| ensures texts[j] == Join(tokens[cuts[j]..cuts[j + 1]]) {
      assert tokens[cuts[j]..cuts[j + 1]] == if j == 0 then tokens else [];
    }
  }

  method SplitTextAcrossWindows(text: string, lo: real, hi: real, windows: seq<Window>)
    returns (texts: seq<string>, ghost cuts: seq<nat>)
    ensures |texts| == |windows|
    ensures windows != [] ==> IsDealt(texts, Split(text), cuts)
    ensures Tiles(windows, lo, hi) && |windows| > 1 ==> ByMidpoint(cuts, windows, |Split(text)|, lo, hi)
  {
    cuts := [0];
    if windows == [] {
      return [], cuts;
    }
    var tokens := Split(text);
    if tokens == [] {
      texts := seq(|windows|, _ => "");
      cuts := seq(|windows| + 1, _ => 0);
      return;
    }
    if |windows| == 1 {
      texts := [Join(tokens)];
      cuts := DealtToFirst(texts, tokens);
      return;
    }
    var duration := hi - lo;
    if duration <= 0.0 {
      texts := [Join(tokens)] + seq(|windows| - 1, _ => "");
      cuts := DealtToFirst(texts, tokens);
      if Tiles(windows, lo, hi) { TilesAdvance(windows, lo, hi, 0); }
      return;
    }
    var buckets: seq<seq<string>>;
    buckets, cuts := DealTokens(tokens, lo, hi, windows);
    texts := seq(|buckets|, j requires 0 <= j < |buckets| => Join(buckets[j]));
  }

  lemma {:induction false} TilesAdvance(ws: seq<Window>, lo: real, hi: real, k: nat)
    requires Tiles(ws, lo, hi) && k < |ws|
    ensures lo <= ws[k].start && ws[k].end <= hi && lo < hi
    decreases |ws|
  {
    if |ws| > 1 {
      assert Tiles(ws[1..], ws[0].end, hi);
      TilesAdvance(ws[1..], ws[0].end, hi, if k > 0 then k - 1 else 0);
    }
  }

  /** What the loop has dealt so far: `w` is the current window, `idx` the next token. */
  ghost predicate Dealing(buckets: seq<seq<string>>, tokens: seq<string>, cuts: seq<nat>, w: nat, idx: nat) {
    && w < |buckets| && |cuts| == w + 1 && cuts[0] == 0 && cuts[w] <= idx <= |tokens|
    && (forall i, j | 0 <= i <= j <= w :: cuts[i] <= cuts[j])
    && (forall j: nat | j < w :: buckets[j] == Share(tokens, cuts, j))
    && buckets[w] == tokens[cuts[w]..idx]
    && (forall j | w < j < |buckets| :: buckets[j] == [])
  }

  ghost function Share(tokens: seq<string>, cuts: seq<nat>, j: nat): seq<string> {
    if j + 1 < |cuts| && cuts[j] <= cuts[j + 1] <= |tokens| then tokens[cuts[j]..cuts[j + 1]] else []
  }

  /** So far each token sits in the window of its midpoint. */
  ghost predicate DealtByMidpoint(ws: seq<Window>, n: nat, lo: real, hi: real, cuts: seq<nat>, w: nat, idx: nat)
    requires n > 0 && w < |ws| && |cuts| == w + 1
  {
    && (forall j | 0 < j <= w :: cuts[j] < n && ws[j - 1].end <= Midpoint(lo, hi, cuts[j], n))
    && (forall j: nat, i: nat | InShare(cuts, j, i) :: Midpoint(lo, hi, i, n) < ws[j].end)
    && (w + 1 < |ws| ==> forall i: nat | cuts[w] <= i < idx :: Midpoint(lo, hi, i, n) < ws[w].end)
  }

  lemma AdvanceWindow(buckets: seq<seq<string>>, tokens: seq<string>, ws: seq<Window>, lo: real, hi: real,
                      cuts: seq<nat>, w: nat, idx: nat)
    requires w + 1 < |ws| == |buckets| && idx < |tokens| && Dealing(buckets, tokens, cuts, w, idx)
    requires DealtByMidpoint(ws, |tokens|, lo, hi, cuts, w, idx) && Midpoint(lo, hi, idx, |tokens|) >= ws[w].end
    ensures Dealing(buckets, tokens, cuts + [idx], w + 1, idx)
    ensures DealtByMidpoint(ws, |tokens|, lo, hi, cuts + [idx], w + 1, idx)
  {
    var next := cuts + [idx];
    forall j: nat | j < w + 1 ensures buckets[j] == Share(tokens, next, j) {
      if j < w { assert buckets[j] == Share(tokens, cuts, j); }
    }
    forall j: nat, i: nat | InShare(next, j, i) ensures Midpoint(lo, hi, i, |tokens|) < ws[j].end {
      if j < w { assert InShare(cuts, j, i); }
    }
  }

  lemma DealToken(buckets: seq<seq<string>>, tokens: seq<string>, ws: seq<Window>, lo: real, hi: real,
                  cuts: seq<nat>, w: nat, idx: nat)
    requires w < |ws| == |buckets| && idx < |tokens| && Dealing(buckets, tokens, cuts, w, idx)
    requires DealtByMidpoint(ws, |tokens|, lo, hi, cuts, w, idx)
    requires w + 1 < |ws| ==> Midpoint(lo, hi, idx, |tokens|) < ws[w].end
    ensures Dealing(buckets[w := buckets[w] + [tokens[idx]]], tokens, cuts, w, idx + 1)
    ensures DealtByMidpoint(ws, |tokens|, lo, hi, cuts, w, idx + 1)
  {
    assert tokens[cuts[w]..idx + 1] == tokens[cuts[w]..idx] + [tokens[idx]];
  }

  method DealTokens(tokens: seq<string>, lo: real, hi: real, ws: seq<Window>)
    returns (buckets: seq<seq<string>>, ghost cuts: seq<nat>)
    requires tokens != [] && |ws| > 1 && lo < hi
    ensures AreCuts(cuts, |ws|, |tokens|) && |buckets| == |ws|
    ensures forall j | 0 <= j < |ws| :: buckets[j] == tokens[cuts[j]..cuts[j + 1]]
    ensures Tiles(ws, lo, hi) ==> ByMidpoint(cuts, ws, |tokens|, lo, hi)
  {
    buckets := seq(|ws|, _ => []);
    cuts := [0];
    var windowIdx: nat := 0;
    var tokenCount := |tokens|;
    for idx := 0 to tokenCount
      invariant windowIdx < |ws| == |buckets| && Dealing(buckets, tokens, cuts, windowIdx, idx)
      invariant DealtByMidpoint(ws, tokenCount, lo, hi, cuts, windowIdx, idx)
    {
      var midpoint := Midpoint(lo, hi, idx, tokenCount);
      while windowIdx < |ws| - 1 && midpoint >= ws[windowIdx].end
        invariant windowIdx < |ws| == |buckets| && Dealing(buckets, tokens, cuts, windowIdx, idx)
        invariant DealtByMidpoint(ws, tokenCount, lo, hi, cuts, windowIdx, idx)
        decreases |ws| - windowIdx
      {
        AdvanceWindow(buckets, tokens, ws, lo, hi, cuts, windowIdx, idx);
        cuts := cuts + [idx];
        windowIdx := windowIdx + 1;
      }
      DealToken(buckets, tokens, ws, lo, hi, cuts, windowIdx, idx);
      buckets := buckets[windowIdx := buckets[windowIdx] + [tokens[idx]]];
    }
    cuts := CloseCuts(buckets, tokens, ws, lo, hi, cuts, windowIdx);
  }

  /** The windows after the last one reached get nothing. */
  lemma CloseCuts(buckets: seq<seq<string>>, tokens: seq<string>, ws: seq<Window>, lo: real, hi: real,
                  open: seq<nat>, w: nat) returns (cuts: seq<nat>)
    requires tokens != [] && lo < hi && w < |ws| == |buckets| && Dealing(buckets, tokens, open, w, |tokens|)
    requires DealtByMidpoint(ws, |tokens|, lo, hi, open, w, |tokens|)
    ensures AreCuts(cuts, |ws|, |tokens|)
    ensures forall j | 0 <= j < |ws| :: buckets[j] == tokens[cuts[j]..cuts[j + 1]]
    ensures Tiles(ws, lo, hi) ==> ByMidpoint(cuts, ws, |tokens|, lo, hi)
  {
    var n := |tokens|;
    cuts := open + seq(|ws| - w, _ => n);
    assert open == cuts[..w + 1];
    forall j | 0 <= j < |ws| ensures buckets[j] == tokens[cuts[j]..cuts[j + 1]] {
      if j < w { assert buckets[j] == Share(tokens, open, j); }
    }
    if Tiles(ws, lo, hi) {
      forall j: nat, i: nat | InShare(cuts, j, i)
        ensures i < n && ws[j].start <= Midpoint(lo, hi, i, n) < ws[j].end
      {
        assert j < w ==> InShare(open, j, i);
        assert cuts[j + 1] <= cuts[|ws|];
        MidpointsAdvance(lo, hi, open[j], i, n);
      }
    }
  }

  /** The midpoint of token `i` of `n` splits the text's time as (2i + 1) to (2n - 2i - 1). */
  lemma MidpointIsProportional(lo: real, hi: real, i: nat, n: nat)
    requires n > 0
    ensures 2.0 * n as real * (Midpoint(lo, hi, i, n) - lo) == (hi - lo) * (2 * i + 1) as real
  {
    var d, f := n as real, Fraction(i, n);
    assert f * d == i as real + 0.5;
    Regrouped(hi - lo, f, d);
    assert (2 * i + 1) as real == 2.0 * (i as real + 0.5);
  }

  lemma Regrouped(x: real, f: real, d: real)
    ensures 2.0 * d * (x * f) == x * (2.0 * (f * d))
  {
  }

  /** The point (2i + 1) / 2n of the way from `lo` to `hi` lies in [start, end). */
  predicate HoldsPosition(lo: real, hi: real, i: nat, n: nat, start: real, end: real) {
    2.0 * n as real * (start - lo) <= (hi - lo) * (2 * i + 1) as real < 2.0 * n as real * (end - lo)
  }

  lemma MidpointHoldsPosition(lo: real, hi: real, i: nat, n: nat, start: real, end: real)
    requires n > 0 && start <= Midpoint(lo, hi, i, n) < end
    ensures HoldsPosition(lo, hi, i, n, start, end)
  {
    var c, m := 2.0 * n as real, Midpoint(lo, hi, i, n);
    MidpointIsProportional(lo, hi, i, n);
    Scales(c, start - lo, m - lo);
    Scales(c, m - lo, end - lo);
  }

  lemma Scales(c: real, a: real, b: real)
    requires c > 0.0
    ensures (a <= b ==> c * a <= c * b) && (a < b ==> c * a < c * b)
  {
  }
}
