/** The YAML front-matter block of a movie note and the `watches:` counter
    in it, located the way the source's regular expressions locate them. */
module FrontMatter {
  import opened Wrappers
  import opened Text
  import opened Numbers

  const Fence := "---\n"
  const Closing := "\n---"

  // ---------------------------------------------------------------------
  // The block

  /** The match of `^---\n(.*?)\n---` with `.` matching newlines: the text
      must open with the fence, and the lazy group runs from index 4 to the
      first closing `\n---` at or after it. The result is the index where
      the group ends and the closing delimiter begins. */
  function FrontMatterEnd(text: string): (r: Option<nat>)
    ensures r.Some? ==> |text| >= 4 && text[..4] == Fence
    ensures r.Some? ==> 4 <= r.value && OccursAt(text, Closing, r.value)
    ensures r.Some? ==> forall j :: 4 <= j < r.value ==> !OccursAt(text, Closing, j)
    ensures r.None? && |text| >= 4 && text[..4] == Fence ==>
              forall j: nat :: 4 <= j ==> !OccursAt(text, Closing, j)
  {
    if |text| >= 4 && text[..4] == Fence then IndexOf(text, Closing, 4) else None
  }

  /** A block written as the fence, a body without a closing delimiter in
      it, and the closing delimiter is found again, body and all, whatever
      follows it. */
  lemma FrontMatterOfBlock(body: string, rest: string)
    requires !Contains(body, Closing)
    ensures FrontMatterEnd(Fence + body + Closing + rest) == Some(4 + |body|)
    ensures var text := Fence + body + Closing + rest;
      text[4..4 + |body|] == body && text[4 + |body| + 4..] == rest
  {
    var head := Fence + body;
    var t := Closing + rest;
    var text := Fence + body + Closing + rest;
    assert text == head + t;
    assert text[..4] == Fence;
    assert IndexOf(head, Closing, 4).None? by {
      forall j: nat | 4 <= j ensures !OccursAt(head, Closing, j) {
        OccursAfterBoundary(Fence, body, Closing, j - 4);
      }
    }
    IndexOfAcrossBoundary(head, t, Closing, 4);
    assert OccursAt(t, Closing, 0);
  }

  /** A line break followed by one line that does not start with `-` holds
      no closing delimiter. */
  lemma LineWithoutClosing(line: string)
    requires '\n' !in line && (line == [] || line[0] != '-')
    ensures !Contains("\n" + line, Closing)
  {
    var s := "\n" + line;
    forall q: nat | q + |Closing| <= |s| ensures !OccursAt(s, Closing, q) {
      var w := s[q..q + |Closing|];
      if q == 0 {
        assert w[1] == line[0] && Closing[1] == '-';
      } else {
        assert w[0] == line[q - 1] && line[q - 1] in line;
      }
      assert w != Closing;
    }
  }

  // ---------------------------------------------------------------------
  // The counter

  const CounterKey := "watches: "

  /** `watches: (\d+)` matches at `p`: the key, then at least one digit. */
  predicate CounterAt(s: string, p: nat) {
    OccursAt(s, CounterKey, p) && p + |CounterKey| < |s| && IsDigit(s[p + |CounterKey|])
  }

  /** The first match of `watches: (\d+)` at or after `from`. */
  function FirstCounter(s: string, from: nat): (r: Option<nat>)
    ensures r.Some? ==> from <= r.value && CounterAt(s, r.value)
    ensures r.Some? ==> forall q :: from <= q < r.value ==> !CounterAt(s, q)
    ensures r.None? ==> forall q: nat :: from <= q ==> !CounterAt(s, q)
    decreases |s| - from
  {
    if from + |CounterKey| >= |s| then None
    else if CounterAt(s, from) then Some(from)
    else FirstCounter(s, from + 1)
  }

  /** The end of the greedy `\d+` that starts at `i`. */
  function DigitRunEnd(s: string, i: nat): (j: nat)
    requires i <= |s|
    ensures i <= j <= |s| && AllDigits(s[i..j])
    ensures j == |s| || !IsDigit(s[j])
    decreases |s| - i
  {
    if i < |s| && IsDigit(s[i]) then
      var j := DigitRunEnd(s, i + 1);
      assert s[i..j] == [s[i]] + s[i + 1..j];
      j
    else i
  }

  /** A digit run followed by a non-digit (or the end) is the greedy run. */
  lemma DigitRunEndUnique(s: string, i: nat, k: nat)
    requires i <= k <= |s| && AllDigits(s[i..k]) && (k == |s| || !IsDigit(s[k]))
    ensures DigitRunEnd(s, i) == k
  {
  }

  /** The number the first `watches: N` holds, read with `parseInt`. */
  function CounterValue(s: string): Option<nat> {
    match FirstCounter(s, 0)
    case None => None
    case Some(p) =>
      var i := p + |CounterKey|;
      Some(DigitsValue(s[i..DigitRunEnd(s, i)]))
  }

  /** `s.replace(/watches: (\d+)/, ...)` with the callback that writes the
      number plus one; unchanged when nothing matches. */
  function IncrementCounter(s: string): string {
    match FirstCounter(s, 0)
    case None => s
    case Some(p) =>
      var i := p + |CounterKey|;
      var j := DigitRunEnd(s, i);
      s[..i] + NatToString(DigitsValue(s[i..j]) + 1) + s[j..]
  }

  /** Incrementing raises the counter by exactly one, and changes nothing
      when there is no counter. */
  lemma IncrementCounterValue(s: string)
    ensures CounterValue(IncrementCounter(s)) ==
              match CounterValue(s)
              case None => None
              case Some(n) => Some(n + 1)
    ensures CounterValue(s).None? ==> IncrementCounter(s) == s
    ensures FirstCounter(s, 0).Some? ==>
              var i := FirstCounter(s, 0).value + |CounterKey|;
              var j, r := DigitRunEnd(s, i), IncrementCounter(s);
              i + (|s| - j) <= |r| && r[..i] == s[..i] && r[|r| - (|s| - j)..] == s[j..]
              && AllDigits(r[i..|r| - (|s| - j)])
  {
    if FirstCounter(s, 0).Some? {
      IncrementFound(s, FirstCounter(s, 0).value);
    }
  }

  lemma IncrementFound(s: string, p: nat)
    requires FirstCounter(s, 0) == Some(p)
    ensures CounterValue(s).Some?
    ensures CounterValue(IncrementCounter(s)) == Some(CounterValue(s).value + 1)
  {
    var i := p + |CounterKey|;
    var j := DigitRunEnd(s, i);
    var n := DigitsValue(s[i..j]);
    var d := NatToString(n + 1);
    var t := s[..i] + d + s[j..];
    assert IncrementCounter(s) == t;
    assert CounterValue(s) == Some(n);
    ReplacedValue(s, p, d);
    NatToStringRoundTrip(n + 1);
  }

  lemma ReplacedValue(s: string, p: nat, d: string)
    requires FirstCounter(s, 0) == Some(p)
    requires d != [] && AllDigits(d)
    ensures var i := p + |CounterKey|;
      CounterValue(s[..i] + d + s[DigitRunEnd(s, i)..]) == Some(DigitsValue(d))
  {
    ReplaceDigitRun(s, p, d);
  }

  /** Writing other digits in place of the digits of the first counter
      keeps the counter where it was and makes the new digits its run. */
  lemma ReplaceDigitRun(s: string, p: nat, d: string)
    requires FirstCounter(s, 0) == Some(p)
    requires d != [] && AllDigits(d)
    ensures var i := p + |CounterKey|;
      var t := s[..i] + d + s[DigitRunEnd(s, i)..];
      FirstCounter(t, 0) == Some(p) && DigitRunEnd(t, i) == i + |d| && t[i..i + |d|] == d
  {
    var i := p + |CounterKey|;
    var j := DigitRunEnd(s, i);
    var t := s[..i] + d + s[j..];
    forall q | 0 <= q < p ensures !CounterAt(t, q) {
      SameCounterBefore(s, t, q, i);
    }
    assert t[p..p + |CounterKey|] == s[p..p + |CounterKey|];
    assert t[i] == d[0];
    assert CounterAt(t, p);
    assert t[i..i + |d|] == d;
    assert i + |d| == |t| || t[i + |d|] == s[j];
    DigitRunEndUnique(t, i, i + |d|);
  }

  /** Two texts that agree before `i` and both have a digit at `i` have the
      same matches before `i - 9`. */
  lemma SameCounterBefore(s: string, t: string, q: nat, i: nat)
    requires i < |s| && i < |t| && s[..i] == t[..i]
    requires IsDigit(s[i]) && IsDigit(t[i])
    requires q + |CounterKey| <= i
    ensures CounterAt(t, q) == CounterAt(s, q)
  {
    assert s[q..q + |CounterKey|] == s[..i][q..q + |CounterKey|];
    assert t[q..q + |CounterKey|] == t[..i][q..q + |CounterKey|];
    if q + |CounterKey| < i {
      assert s[q + |CounterKey|] == s[..i][q + |CounterKey|];
      assert t[q + |CounterKey|] == t[..i][q + |CounterKey|];
    }
  }

  /** `CounterKey` starts with the only `w` it holds, so no match can
      begin in a text without the key and end in a text starting with it. */
  lemma KeyNoStraddle(t: string)
    requires t != [] && t[0] == 'w'
    ensures NoStraddle(t, CounterKey)
  {
  }

  /** The first counter of `a + t`, when `a` holds no `watches: ` and `t`
      starts with a counter, is the counter of `t`. */
  lemma CounterAfterPlainText(a: string, t: string)
    requires !Contains(a, CounterKey)
    requires CounterAt(t, 0)
    ensures FirstCounter(a + t, 0) == Some(|a|)
    ensures CounterValue(a + t) == CounterValue(t)
  {
    FirstCounterAfterPlainText(a, t);
    CounterValueAfterPlainText(a, t);
  }

  lemma CounterValueAfterPlainText(a: string, t: string)
    requires CounterAt(t, 0) && FirstCounter(a + t, 0) == Some(|a|)
    ensures CounterValue(a + t) == CounterValue(t)
  {
    assert FirstCounter(t, 0) == Some(0);
    var u := a + t;
    var i := |CounterKey|;
    var j := DigitRunEnd(t, i);
    DigitRunShift(a, t, i);
    assert u[|a| + i..|a| + j] == t[i..j];
  }

  /** The digit run of `t` is found at the same place after a prefix. */
  lemma {:induction false} DigitRunShift(a: string, t: string, i: nat)
    requires i <= |t|
    ensures DigitRunEnd(a + t, |a| + i) == |a| + DigitRunEnd(t, i)
    decreases |t| - i
  {
    if i < |t| {
      assert (a + t)[|a| + i] == t[i];
      if IsDigit(t[i]) {
        DigitRunShift(a, t, i + 1);
      }
    }
  }

  lemma FirstCounterAfterPlainText(a: string, t: string)
    requires !Contains(a, CounterKey)
    requires CounterAt(t, 0)
    ensures FirstCounter(a + t, 0) == Some(|a|)
  {
    var u := a + t;
    assert t[0] == 'w' by {
      assert t[..|CounterKey|][0] == t[0];
    }
    KeyNoStraddle(t);
    forall q | 0 <= q < |a| ensures !CounterAt(u, q) {
      if OccursAt(u, CounterKey, q) {
        OccursBeforeBoundary(a, t, CounterKey, q);
      }
    }
    OccursAfterBoundary(a, t, CounterKey, 0);
    assert u[|a| + |CounterKey|] == t[|CounterKey|];
    assert CounterAt(u, |a|);
  }

  /** Text without the key has no counter, and incrementing leaves it
      alone. */
  lemma NoKeyNoCounter(s: string)
    requires !Contains(s, CounterKey)
    ensures CounterValue(s).None? && IncrementCounter(s) == s
  {
    if FirstCounter(s, 0).Some? {
      ContainsAt(s, CounterKey, FirstCounter(s, 0).value);
    }
  }

  /** The counter line a new note carries: its value is read back. */
  lemma CounterLineValue(n: nat, rest: string)
    requires rest == [] || rest[0] == '\n'
    ensures CounterValue(CounterKey + NatToString(n) + rest) == Some(n)
  {
    var d := NatToString(n);
    var t := CounterKey + d + rest;
    assert t[..|CounterKey|] == CounterKey;
    assert t[|CounterKey|] == d[0];
    assert CounterAt(t, 0);
    assert FirstCounter(t, 0) == Some(0);
    var i := |CounterKey|;
    assert t[i..i + |d|] == d;
    assert i + |d| == |t| || t[i + |d|] == '\n';
    DigitRunEndUnique(t, i, i + |d|);
    NatToStringRoundTrip(n);
  }

  /** A counter line after text without a counter: incrementing rewrites
      its number to the next one and leaves the rest of the text alone. */
  lemma IncrementCounterLine(h: string, n: nat, rest: string)
    requires !Contains(h, CounterKey)
    requires rest == [] || rest[0] == '\n'
    ensures IncrementCounter(h + ((CounterKey + NatToString(n)) + rest))
         == h + ((CounterKey + NatToString(n + 1)) + rest)
  {
    NatToStringRoundTrip(n);
    IncrementDigitsLine(h, NatToString(n), rest, NatToString(n + 1));
  }

  /** The same for any digit string `d`, with `m` the text of its value plus one. */
  lemma IncrementDigitsLine(h: string, d: string, rest: string, m: string)
    requires !Contains(h, CounterKey) && d != [] && AllDigits(d)
    requires rest == [] || rest[0] == '\n'
    requires m == NatToString(DigitsValue(d) + 1)
    ensures IncrementCounter(h + ((CounterKey + d) + rest)) == h + ((CounterKey + m) + rest)
  {
    CounterLineFirst(h, d, rest);
    CounterLineDigits(h, d, rest);
    SpliceCounter(h, d, rest, m);
  }

  /** Once the counter is located at the key after `h`, with digits `d`,
      incrementing replaces exactly those digits. */
  lemma SpliceCounter(h: string, d: string, rest: string, m: string)
    requires FirstCounter(h + ((CounterKey + d) + rest), 0) == Some(|h|)
    requires DigitRunEnd(h + ((CounterKey + d) + rest), |h| + |CounterKey|) == |h| + |CounterKey| + |d|
    requires AllDigits(d) && m == NatToString(DigitsValue(d) + 1)
    ensures IncrementCounter(h + ((CounterKey + d) + rest)) == h + ((CounterKey + m) + rest)
  {
    var s := h + ((CounterKey + d) + rest);
    var i := |h| + |CounterKey|;
    LineSlices(h, CounterKey, d, rest);
    var j := i + |d|;
    IncrementAt(s, |h|, j, d, m);
    LineSplice(s, h, CounterKey, d, rest, m, i, j);
  }

  /** Incrementing a counter found at `p` whose digits `d` end at `j`,
      with `m` the text of their value plus one. */
  lemma IncrementAt(s: string, p: nat, j: nat, d: string, m: string)
    requires FirstCounter(s, 0) == Some(p) && DigitRunEnd(s, p + |CounterKey|) == j
    requires s[p + |CounterKey|..j] == d
    requires AllDigits(d) && m == NatToString(DigitsValue(d) + 1)
    ensures IncrementCounter(s) == s[..p + |CounterKey|] + m + s[j..]
  {
    var i := p + |CounterKey|;
    var v := DigitsValue(s[i..j]);
    assert IncrementCounter(s) == s[..i] + NatToString(v + 1) + s[j..];
  }

  lemma CounterLineFirst(h: string, d: string, rest: string)
    requires !Contains(h, CounterKey) && d != [] && AllDigits(d)
    ensures FirstCounter(h + ((CounterKey + d) + rest), 0) == Some(|h|)
  {
    var t := (CounterKey + d) + rest;
    assert t[..|CounterKey|] == CounterKey && t[|CounterKey|] == d[0];
    FirstCounterAfterPlainText(h, t);
  }

  lemma CounterLineDigits(h: string, d: string, rest: string)
    requires AllDigits(d) && (rest == [] || rest[0] == '\n')
    ensures var s := h + ((CounterKey + d) + rest);
      DigitRunEnd(s, |h| + |CounterKey|) == |h| + |CounterKey| + |d|
  {
    var s := h + ((CounterKey + d) + rest);
    var i := |h| + |CounterKey|;
    var k := i + |d|;
    LineSlices(h, CounterKey, d, rest);
    assert AllDigits(s[i..k]) by {
      assert s[i..k] == d;
    }
    assert k == |s| || !IsDigit(s[k]) by {
      if rest != [] {
        assert s[k] == s[k..][0] == rest[0];
      }
    }
    DigitRunEndUnique(s, i, k);
  }

  lemma LineSlices<T>(h: seq<T>, k: seq<T>, d: seq<T>, rest: seq<T>)
    ensures var s := h + ((k + d) + rest);
      var i := |h| + |k|;
      s[..i] == h + k && s[i..i + |d|] == d && s[i + |d|..] == rest
  {
  }

  /** Replacing the value `d` after key `k` by `m` keeps what surrounds it. */
  lemma LineSplice(s: string, h: string, k: string, d: string, rest: string, m: string, i: nat, j: nat)
    requires s == h + ((k + d) + rest) && i == |h| + |k| && j == i + |d|
    ensures s[..i] + m + s[j..] == h + ((k + m) + rest)
  {
    LineSlices(h, k, d, rest);
  }
}
