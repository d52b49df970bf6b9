/** Python's `str.split()`, `str.strip()` and `" ".join`. */
module Text {
  /** The characters `str.isspace` accepts. */
  predicate IsSpace(c: char) {
    var n := c as int;
    9 <= n <= 13 || 28 <= n <= 32 || n == 0x85 || n == 0xA0 || n == 0x1680 ||
    0x2000 <= n <= 0x200A || n == 0x2028 || n == 0x2029 || n == 0x202F || n == 0x205F || n == 0x3000
  }

  /** A non-empty run of non-space characters. */
  ghost predicate IsToken(t: string) {
    t != "" && forall c | c in t :: !IsSpace(c)
  }

  /** Length of the leading run of non-space characters. */
  function TokenLength(s: string): (n: nat)
    ensures n <= |s| && (forall i | 0 <= i < n :: !IsSpace(s[i])) && (n < |s| ==> IsSpace(s[n]))
  {
    if s == "" || IsSpace(s[0]) then 0 else 1 + TokenLength(s[1..])
  }

  function Split(s: string): (r: seq<string>)
    ensures forall t | t in r :: IsToken(t)
    decreases |s|
  {
    if s == "" then []
    else if IsSpace(s[0]) then Split(s[1..])
    else [s[..TokenLength(s)]] + Split(s[TokenLength(s)..])
  }

  function Join(tokens: seq<string>): string {
    if tokens == [] then ""
    else if |tokens| == 1 then tokens[0]
    else tokens[0] + " " + Join(tokens[1..])
  }

  function LeftStrip(s: string): string {
    if s != "" && IsSpace(s[0]) then LeftStrip(s[1..]) else s
  }

  function RightStrip(s: string): string {
    if s != "" && IsSpace(s[|s| - 1]) then RightStrip(s[..|s| - 1]) else s
  }

  function Strip(s: string): string {
    RightStrip(LeftStrip(s))
  }

  lemma FirstToken(s: string, a: string, n: nat)
    requires 0 < n <= |a| <= |s| && s[..|a|] == a && n == TokenLength(a)
    requires n == |a| < |s| ==> IsSpace(s[n])
    ensures Split(s) == [a[..n]] + Split(s[n..]) && Split(a) == [a[..n]] + Split(a[n..])
  {
    assert forall i | 0 <= i < |a| :: s[i] == s[..|a|][i];
    assert s[..n] == a[..n];
  }

  /** A space between two texts separates their tokens. */
  lemma {:induction false} SplitAround(a: string, c: char, b: string)
    requires IsSpace(c)
    ensures Split(a + [c] + b) == Split(a) + Split(b)
    decreases |a|
  {
    var s := a + [c] + b;
    if a == "" {
      assert s[1..] == b;
    } else if IsSpace(a[0]) {
      SplitAround(a[1..], c, b);
      assert s[1..] == a[1..] + [c] + b;
    } else {
      var n := TokenLength(a);
      SplitAround(a[n..], c, b);
      assert s[n..] == a[n..] + [c] + b;
      FirstToken(s, a, n);
    }
  }

  lemma {:induction false} SplitLeftStrip(s: string)
    ensures Split(LeftStrip(s)) == Split(s)
  {
    if s != "" && IsSpace(s[0]) { SplitLeftStrip(s[1..]); }
  }

  lemma {:induction false} SplitRightStrip(s: string)
    ensures Split(RightStrip(s)) == Split(s)
  {
    if s != "" && IsSpace(s[|s| - 1]) {
      var n := |s| - 1;
      SplitRightStrip(s[..n]);
      SplitAround(s[..n], s[n], "");
      assert s == s[..n] + [s[n]] + "";
    }
  }

  /** Stripping loses no token. */
  lemma SplitStrip(s: string)
    ensures Split(Strip(s)) == Split(s)
  {
    SplitLeftStrip(s);
    SplitRightStrip(LeftStrip(s));
  }

  /** Splitting undoes joining. */
  lemma {:induction false} SplitJoin(tokens: seq<string>)
    requires forall t | t in tokens :: IsToken(t)
    ensures Split(Join(tokens)) == tokens
  {
    if tokens != [] {
      var t := tokens[0];
      SplitToken(t);
      if |tokens| > 1 {
        SplitJoin(tokens[1..]);
        SplitAround(t, ' ', Join(tokens[1..]));
        assert t + " " + Join(tokens[1..]) == t + [' '] + Join(tokens[1..]);
      }
    }
  }

  lemma SplitToken(t: string)
    requires IsToken(t)
    ensures Split(t) == [t]
  {
    assert forall i | 0 <= i < |t| :: t[i] in t;
    assert t[..|t|] == t && t[|t|..] == "";
  }

  /** Blank text has no tokens, and only blank text. */
  lemma {:induction false} BlankHasNoTokens(s: string)
    ensures Strip(s) == "" <==> Split(s) == []
    decreases |s|
  {
    SplitStrip(s);
    var t := LeftStrip(s);
    LeftStripped(s);
    RightStripped(t);
    if Strip(s) != "" {
      assert !IsSpace(Strip(s)[0]);
    }
  }

  lemma {:induction false} LeftStripped(s: string)
    ensures var t := LeftStrip(s); t != "" ==> !IsSpace(t[0])
  {
    if s != "" && IsSpace(s[0]) { LeftStripped(s[1..]); }
  }

  lemma {:induction false} RightStripped(s: string)
    requires s != "" ==> !IsSpace(s[0])
    ensures RightStrip(s) != "" ==> !IsSpace(RightStrip(s)[0])
    ensures s != "" ==> RightStrip(s) != ""
  {
    if s != "" && IsSpace(s[|s| - 1]) { RightStripped(s[..|s| - 1]); }
  }

  /** All tokens of a list of texts, in order. */
  function Tokens(texts: seq<string>): (r: seq<string>) {
    if texts == [] then [] else Tokens(texts[..|texts| - 1]) + Split(texts[|texts| - 1])
  }

  lemma TokensOne(t: string)
    ensures Tokens([t]) == Split(t)
  {
    assert [t][..|[t]| - 1] == [];
    assert Tokens([]) == [];
  }

  lemma {:induction false} TokensConcat(a: seq<string>, b: seq<string>)
    ensures Tokens(a + b) == Tokens(a) + Tokens(b)
    decreases |b|
  {
    if b == [] {
      assert a + b == a;
    } else {
      var n := |b| - 1;
      TokensConcat(a, b[..n]);
      assert (a + b)[..|a + b| - 1] == a + b[..n];
    }
  }

  /** Splitting a joined list of texts gives all their tokens in order. */
  lemma {:induction false} SplitOfJoin(texts: seq<string>)
    ensures Split(Join(texts)) == Tokens(texts)
  {
    if |texts| == 1 {
      TokensOne(texts[0]);
      assert texts == [texts[0]];
    } else if texts != [] {
      SplitOfJoin(texts[1..]);
      SplitAround(texts[0], ' ', Join(texts[1..]));
      assert texts[0] + " " + Join(texts[1..]) == texts[0] + [' '] + Join(texts[1..]);
      TokensConcat([texts[0]], texts[1..]);
      TokensOne(texts[0]);
      assert texts == [texts[0]] + texts[1..];
    }
  }

  lemma {:induction false} LeftStripTrims(s: string)
    ensures var t := LeftStrip(s); var n := |s| - |t|;
      n >= 0 && t == s[n..] && (forall i | 0 <= i < n :: IsSpace(s[i])) && (t != "" ==> !IsSpace(t[0]))
  {
    if s != "" && IsSpace(s[0]) { LeftStripTrims(s[1..]); }
  }

  lemma {:induction false} RightStripTrims(s: string)
    ensures var t := RightStrip(s);
      |t| <= |s| && t == s[..|t|] && (forall i | |t| <= i < |s| :: IsSpace(s[i])) && (t != "" ==> !IsSpace(t[|t| - 1]))
  {
    if s != "" && IsSpace(s[|s| - 1]) { RightStripTrims(s[..|s| - 1]); }
  }

  /** Stripping cuts white space off both ends, all of it and nothing else. */
  lemma StripTrims(s: string) returns (lo: nat, hi: nat)
    ensures lo <= hi <= |s| && Strip(s) == s[lo..hi]
    ensures (forall i | 0 <= i < lo :: IsSpace(s[i])) && forall i | hi <= i < |s| :: IsSpace(s[i])
    ensures lo < hi ==> !IsSpace(s[lo]) && !IsSpace(s[hi - 1])
  {
    var t := LeftStrip(s);
    LeftStripTrims(s);
    RightStripTrims(t);
    lo := |s| - |t|;
    hi := lo + |Strip(s)|;
    assert forall i | hi <= i < |s| :: s[i] == t[i - lo];
  }
}
