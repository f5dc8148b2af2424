/** String helpers with JavaScript's meaning: `trim`, `split` on one
    character, `includes`/`indexOf`, and character-wise replacement. */
module Text {
  import opened Wrappers

  /** The code points `String.prototype.trim` removes: ECMAScript's
      WhiteSpace (tab, vertical tab, form feed, space, no-break space,
      byte order mark and the Zs category) and LineTerminator. */
  predicate IsWhitespace(c: char) {
    || c == '\t' || c == '\n' || c == '\U{B}' || c == '\U{C}' || c == '\r' || c == ' '
    || c == '\U{A0}' || c == '\U{1680}' || ('\U{2000}' <= c <= '\U{200A}')
    || c == '\U{2028}' || c == '\U{2029}' || c == '\U{202F}' || c == '\U{205F}'
    || c == '\U{3000}' || c == '\U{FEFF}'
  }

  predicate AllWhitespace(s: string) {
    forall i :: 0 <= i < |s| ==> IsWhitespace(s[i])
  }

  /** No whitespace at either end. */
  predicate IsTrimmed(s: string) {
    s == [] || (!IsWhitespace(s[0]) && !IsWhitespace(s[|s| - 1]))
  }

  /** Drops the leading whitespace. */
  function TrimStart(s: string): (r: string)
    ensures |r| <= |s|
    ensures r == [] || !IsWhitespace(r[0])
  {
    if s != [] && IsWhitespace(s[0]) then TrimStart(s[1..]) else s
  }

  /** Drops the trailing whitespace. */
  function TrimEnd(s: string): (r: string)
    ensures |r| <= |s|
    ensures r == [] || !IsWhitespace(r[|r| - 1])
    ensures r != [] ==> r[0] == s[0]
  {
    if s != [] && IsWhitespace(s[|s| - 1]) then TrimEnd(s[..|s| - 1]) else s
  }

  /** `s.trim()`: whitespace removed from both ends. */
  function Trim(s: string): (r: string)
    ensures IsTrimmed(r)
  {
    TrimEnd(TrimStart(s))
  }

  /** `TrimStart` keeps a suffix and drops only whitespace. */
  lemma {:induction false} TrimStartIsSuffix(s: string)
    ensures var r := TrimStart(s);
      r == s[|s| - |r|..] && AllWhitespace(s[..|s| - |r|])
    decreases |s|
  {
    if s != [] && IsWhitespace(s[0]) {
      TrimStartIsSuffix(s[1..]);
      var r := TrimStart(s);
      assert s[1..][|s| - 1 - |r|..] == s[|s| - |r|..];
      forall k | 0 <= k < |s| - |r| ensures IsWhitespace(s[k]) {
        if k > 0 { assert s[1..][..|s| - 1 - |r|][k - 1] == s[k]; }
      }
    }
  }

  /** `TrimEnd` keeps a prefix and drops only whitespace. */
  lemma {:induction false} TrimEndIsPrefix(s: string)
    ensures var r := TrimEnd(s);
      r == s[..|r|] && AllWhitespace(s[|r|..])
    decreases |s|
  {
    if s != [] && IsWhitespace(s[|s| - 1]) {
      var s' := s[..|s| - 1];
      TrimEndIsPrefix(s');
      var r := TrimEnd(s);
      assert s'[..|r|] == s[..|r|];
      forall k | |r| <= k < |s| ensures IsWhitespace(s[k]) {
        if k < |s| - 1 { assert s'[|r|..][k - |r|] == s[k]; }
      }
    }
  }

  /** What `Trim` keeps is the infix that starts where `TrimStart` cut. */
  lemma TrimSlice(s: string)
    ensures var i, r := |s| - |TrimStart(s)|, Trim(s);
      0 <= i <= |s| - |r| && r == s[i..i + |r|]
  {
    var t := TrimStart(s);
    TrimStartIsSuffix(s);
    TrimEndIsPrefix(t);
  }

  /** What `Trim` removes is whitespace and what it keeps is an infix of
      the input. */
  lemma TrimIsInfix(s: string)
    ensures var r := Trim(s);
      exists i :: 0 <= i <= |s| - |r| && r == s[i..i + |r|]
                  && AllWhitespace(s[..i]) && AllWhitespace(s[i + |r|..])
  {
    var t := TrimStart(s);
    var r := TrimEnd(t);
    TrimStartIsSuffix(s);
    TrimEndIsPrefix(t);
    var i := |s| - |t|;
    assert r == s[i..i + |r|];
    assert s[i + |r|..] == t[|r|..];
    assert 0 <= i <= |s| - |r| && AllWhitespace(s[..i]) && AllWhitespace(s[i + |r|..]);
  }

  lemma TrimmedIsFixpoint(s: string)
    requires IsTrimmed(s)
    ensures Trim(s) == s
  {
  }

  lemma TrimIdempotent(s: string)
    ensures Trim(Trim(s)) == Trim(s)
  {
    TrimmedIsFixpoint(Trim(s));
  }

  /** A string trims to nothing exactly when it is all whitespace. */
  lemma TrimEmptyIff(s: string)
    ensures Trim(s) == [] <==> AllWhitespace(s)
  {
    var t := TrimStart(s);
    var i := |s| - |t|;
    TrimStartIsSuffix(s);
    TrimEndIsPrefix(t);
    if Trim(s) == [] {
      assert t[0..] == t;
      assert t == [];
      forall k | 0 <= k < |s| ensures IsWhitespace(s[k]) {
        assert s[..i][k] == s[k];
      }
    } else {
      assert Trim(s)[0] == t[0] == s[i];
      assert !IsWhitespace(s[i]);
    }
  }

  // ---------------------------------------------------------------------
  // Splitting on one separator and joining back

  /** The number of occurrences of `x` in `s`. */
  function Count<T(==)>(s: seq<T>, x: T): nat {
    if s == [] then 0 else (if s[0] == x then 1 else 0) + Count(s[1..], x)
  }

  lemma {:induction false} CountZeroIff<T>(s: seq<T>, x: T)
    ensures Count(s, x) == 0 <==> x !in s
    decreases |s|
  {
    if s != [] {
      CountZeroIff(s[1..], x);
      assert s == [s[0]] + s[1..];
    }
  }

  /** `ss.map(s => s.trim())`. */
  function TrimEach(ss: seq<string>): (ts: seq<string>)
    ensures |ts| == |ss|
  {
    seq(|ss|, i requires 0 <= i < |ss| => Trim(ss[i]))
  }

  lemma TrimEachConcat(a: seq<string>, b: seq<string>)
    ensures TrimEach(a + b) == TrimEach(a) + TrimEach(b)
  {
    var l, r := TrimEach(a + b), TrimEach(a) + TrimEach(b);
    forall k | 0 <= k < |l| ensures l[k] == r[k] {
      if k < |a| {
        assert (a + b)[k] == a[k];
      } else {
        assert (a + b)[k] == b[k - |a|];
      }
    }
  }

  lemma TrimEachCons(s: string, ss: seq<string>)
    ensures TrimEach([s] + ss) == [Trim(s)] + TrimEach(ss)
  {
    var l := TrimEach([s] + ss);
    var r := [Trim(s)] + TrimEach(ss);
    forall k | 0 <= k < |l| ensures l[k] == r[k] {
      if k > 0 {
        assert ([s] + ss)[k] == ss[k - 1];
      }
    }
  }

  /** `xs.flatMap(f)`: the results of `f` on each element, concatenated in
      order. */
  function ConcatMap<A, B>(f: A -> seq<B>, xs: seq<A>): seq<B>
    decreases |xs|
  {
    if xs == [] then [] else f(xs[0]) + ConcatMap(f, xs[1..])
  }

  lemma {:induction false} ConcatMapAppend<A, B>(f: A -> seq<B>, xs: seq<A>, ys: seq<A>)
    ensures ConcatMap(f, xs + ys) == ConcatMap(f, xs) + ConcatMap(f, ys)
    decreases |xs|
  {
    if xs == [] {
      assert xs + ys == ys;
    } else {
      ConcatMapAppend(f, xs[1..], ys);
      assert (xs + ys)[0] == xs[0] && (xs + ys)[1..] == xs[1..] + ys;
    }
  }

  /** `s.split(sep)` for a one-element separator: the maximal separator-free
      pieces, one more than there are separators. */
  function Split<T(==)>(s: seq<T>, sep: T): (parts: seq<seq<T>>)
    ensures |parts| == Count(s, sep) + 1
    ensures forall i :: 0 <= i < |parts| ==> sep !in parts[i]
  {
    if s == [] then [[]]
    else
      var rest := Split(s[1..], sep);
      if s[0] == sep then [[]] + rest
      else [[s[0]] + rest[0]] + rest[1..]
  }

  /** `parts.join(sep)`. */
  function Join<T>(parts: seq<seq<T>>, sep: T): seq<T> {
    if parts == [] then []
    else if |parts| == 1 then parts[0]
    else parts[0] + [sep] + Join(parts[1..], sep)
  }

  /** Splitting loses nothing: joining the pieces gives the input back. */
  lemma {:induction false} SplitThenJoin<T>(s: seq<T>, sep: T)
    ensures Join(Split(s, sep), sep) == s
    decreases |s|
  {
    if s != [] {
      SplitThenJoin(s[1..], sep);
      var rest := Split(s[1..], sep);
      if s[0] != sep {
        if |rest| == 1 {
          assert Join(Split(s, sep), sep) == [s[0]] + rest[0];
        } else {
          assert Join(Split(s, sep), sep) == [s[0]] + rest[0] + [sep] + Join(rest[1..], sep);
        }
      }
      assert s == [s[0]] + s[1..];
    }
  }

  /** Joining separator-free pieces and splitting again gives the pieces
      back. */
  lemma {:induction false} JoinThenSplit<T>(parts: seq<seq<T>>, sep: T)
    requires |parts| > 0
    requires forall i :: 0 <= i < |parts| ==> sep !in parts[i]
    ensures Split(Join(parts, sep), sep) == parts
    decreases parts
  {
    if |parts| == 1 {
      SplitWithoutSeparator(parts[0], sep);
    } else {
      JoinThenSplit(parts[1..], sep);
      SplitAfterPiece(parts[0], sep, Join(parts[1..], sep));
      assert parts == [parts[0]] + parts[1..];
    }
  }

  lemma {:induction false} SplitWithoutSeparator<T>(s: seq<T>, sep: T)
    requires sep !in s
    ensures Split(s, sep) == [s]
    decreases |s|
  {
    if s != [] {
      SplitWithoutSeparator(s[1..], sep);
      assert s == [s[0]] + s[1..];
    }
  }

  /** A separator-free piece followed by a separator splits off as the first
      part. */
  lemma {:induction false} SplitAfterPiece<T>(p: seq<T>, sep: T, rest: seq<T>)
    requires sep !in p
    ensures Split(p + [sep] + rest, sep) == [p] + Split(rest, sep)
    decreases |p|
  {
    if p == [] {
      assert p + [sep] + rest == [sep] + rest;
      assert ([sep] + rest)[1..] == rest;
    } else {
      SplitAfterPiece(p[1..], sep, rest);
      assert (p + [sep] + rest)[1..] == p[1..] + [sep] + rest;
      assert p == [p[0]] + p[1..];
    }
  }

  /** One step of `Split` on a non-empty input. */
  lemma SplitStep<T>(s: seq<T>, sep: T)
    requires s != []
    ensures s[0] == sep ==> Split(s, sep) == [[]] + Split(s[1..], sep)
    ensures s[0] != sep ==>
      var rest := Split(s[1..], sep);
      Split(s, sep) == [[s[0]] + rest[0]] + rest[1..]
  {
  }

  /** Extending the first piece commutes with appending more pieces. */
  lemma ExtendFirstPiece<T>(h: T, left: seq<seq<T>>, right: seq<seq<T>>)
    requires left != []
    ensures var both := left + right;
      [[h] + both[0]] + both[1..] == ([[h] + left[0]] + left[1..]) + right
  {
    ConcatHeadTail(left, right);
  }

  /** A separator between two texts splits them apart: the pieces of the
      whole are the pieces of the first followed by those of the second. */
  lemma {:induction false} SplitConcat<T>(a: seq<T>, sep: T, b: seq<T>)
    ensures Split(a + [sep] + b, sep) == Split(a, sep) + Split(b, sep)
    decreases |a|
  {
    if a == [] {
      assert a + [sep] + b == [sep] + b;
      SplitStep([sep] + b, sep);
      assert ([sep] + b)[1..] == b;
    } else {
      var whole := a + [sep] + b;
      ConcatHeadTail(a, [sep] + b);
      Assoc(a, [sep], b);
      assert whole[0] == a[0] && whole[1..] == a[1..] + [sep] + b;
      SplitConcat(a[1..], sep, b);
      SplitStep(whole, sep);
      SplitStep(a, sep);
      if a[0] != sep {
        ExtendFirstPiece(a[0], Split(a[1..], sep), Split(b, sep));
      }
    }
  }

  /** `pat` occurs in `s` starting at index `i`. */
  predicate OccursAt(s: string, pat: string, i: nat) {
    i + |pat| <= |s| && s[i..i + |pat|] == pat
  }

  /** `s.indexOf(pat, from)`: the first occurrence at or after `from`. */
  function IndexOf(s: string, pat: string, from: nat): (r: Option<nat>)
    ensures r.Some? ==> from <= r.value && OccursAt(s, pat, r.value)
    ensures r.Some? ==> forall j :: from <= j < r.value ==> !OccursAt(s, pat, j)
    ensures r.None? ==> forall j: nat :: from <= j ==> !OccursAt(s, pat, j)
    decreases |s| - from
  {
    if from + |pat| > |s| then None
    else if OccursAt(s, pat, from) then Some(from)
    else IndexOf(s, pat, from + 1)
  }

  /** `s.includes(pat)`. */
  predicate Contains(s: string, pat: string) {
    IndexOf(s, pat, 0).Some?
  }

  lemma ContainsAt(s: string, pat: string, i: nat)
    requires OccursAt(s, pat, i)
    ensures Contains(s, pat)
  {
  }

  lemma ConcatHeadTail<T>(a: seq<T>, b: seq<T>)
    requires a != []
    ensures (a + b)[0] == a[0] && (a + b)[1..] == a[1..] + b
  {
  }

  lemma Assoc<T>(a: seq<T>, b: seq<T>, c: seq<T>)
    ensures a + b + c == a + (b + c)
  {
  }

  lemma AssocFive<T>(a: seq<T>, b: seq<T>, c: seq<T>, d: seq<T>, e: seq<T>)
    ensures a + b + c + d + e == a + (b + c + d + e)
  {
  }

  lemma ContainsInfix(a: string, pat: string, b: string)
    ensures Contains(a + pat + b, pat)
  {
    var s := a + pat + b;
    assert s[|a|..|a| + |pat|] == pat;
    ContainsAt(s, pat, |a|);
  }

  /** `t` starts with a character that `pat` holds at index 0 at most, so
      no occurrence of `pat` in `s + t` can straddle the boundary. */
  predicate NoStraddle(t: string, pat: string) {
    t != [] && forall k :: 0 < k < |pat| ==> pat[k] != t[0]
  }

  lemma OccurrenceChars(u: string, pat: string, i: nat)
    requires OccursAt(u, pat, i)
    ensures forall p :: i <= p < i + |pat| ==> u[p] == pat[p - i]
  {
    forall p | i <= p < i + |pat| ensures u[p] == pat[p - i] {
      assert u[i..i + |pat|][p - i] == u[p];
    }
  }

  lemma OccursBeforeBoundary(s: string, t: string, pat: string, i: nat)
    requires NoStraddle(t, pat)
    requires OccursAt(s + t, pat, i) && i < |s|
    ensures OccursAt(s, pat, i)
  {
    OccurrenceChars(s + t, pat, i);
    assert (s + t)[|s|] == t[0];
    assert i + |pat| <= |s|;
    assert (s + t)[i..i + |pat|] == s[i..i + |pat|];
  }

  lemma OccursAfterBoundary(s: string, t: string, pat: string, j: nat)
    ensures OccursAt(s + t, pat, |s| + j) == OccursAt(t, pat, j)
  {
    if |s| + j + |pat| <= |s + t| {
      assert (s + t)[|s| + j..|s| + j + |pat|] == t[j..j + |pat|];
    }
  }

  /** An occurrence with none before it is the one the search finds. */
  lemma IndexOfFirst(s: string, pat: string, i: nat)
    requires OccursAt(s, pat, i)
    requires forall j :: 0 <= j < i ==> !OccursAt(s, pat, j)
    ensures IndexOf(s, pat, 0) == Some(i)
  {
    var r := IndexOf(s, pat, 0);
    assert r.Some?;
    assert r.value == i;
  }

  /** Search in `s + t` from a point of `s` after which `s` holds no
      occurrence: the first occurrence is the first one in `t`. */
  lemma IndexOfAcrossBoundary(s: string, t: string, pat: string, from: nat)
    requires from <= |s| && IndexOf(s, pat, from).None? && NoStraddle(t, pat)
    ensures IndexOf(s + t, pat, from) ==
              match IndexOf(t, pat, 0)
              case None => None
              case Some(j) => Some(|s| + j)
  {
    var r := IndexOf(s + t, pat, from);
    match IndexOf(t, pat, 0)
    case None =>
      if r.Some? {
        if r.value < |s| {
          OccursBeforeBoundary(s, t, pat, r.value);
        } else {
          OccursAfterBoundary(s, t, pat, r.value - |s|);
        }
      }
    case Some(j) =>
      OccursAfterBoundary(s, t, pat, j);
      assert r.Some?;
      if r.value < |s| {
        OccursBeforeBoundary(s, t, pat, r.value);
      } else if r.value < |s| + j {
        OccursAfterBoundary(s, t, pat, r.value - |s|);
      }
  }

  /** Text without an occurrence followed by text without one holds none,
      when the second part's first character cannot continue one. */
  lemma NoneAcross(s: string, t: string, pat: string)
    requires !Contains(s, pat) && !Contains(t, pat)
    requires t == [] || NoStraddle(t, pat)
    ensures !Contains(s + t, pat)
  {
    if t == [] {
      assert s + t == s;
    } else {
      IndexOfAcrossBoundary(s, t, pat, 0);
    }
  }

  /** Text none of whose characters starts the pattern, followed by text
      without an occurrence, holds none. */
  lemma NoneAfterPlain(s: string, t: string, pat: string)
    requires pat != [] && pat[0] !in s && !Contains(t, pat)
    ensures !Contains(s + t, pat)
  {
    forall q: nat ensures !OccursAt(s + t, pat, q) {
      if q < |s| {
        if q + |pat| <= |s + t| {
          assert (s + t)[q..q + |pat|][0] == s[q];
        }
      } else {
        OccursAfterBoundary(s, t, pat, q - |s|);
      }
    }
  }

  /** A suffix of text without an occurrence holds none. */
  lemma NoneInSuffix(s: string, t: string, pat: string)
    requires !Contains(s + t, pat)
    ensures !Contains(t, pat)
  {
    forall j: nat ensures !OccursAt(t, pat, j) {
      OccursAfterBoundary(s, t, pat, j);
    }
  }

  /** Replacing a middle part by one of the same length whose characters
      the pattern never uses creates no occurrence. */
  lemma NoneAfterSwap(x: string, a: string, b: string, y: string, pat: string)
    requires |a| == |b| && forall k :: 0 <= k < |b| ==> b[k] !in pat
    requires !Contains(x + a + y, pat)
    ensures !Contains(x + b + y, pat)
  {
    var s, t := x + a + y, x + b + y;
    forall q: nat | q + |pat| <= |t| ensures !OccursAt(t, pat, q) {
      if b != [] && q < |x| + |b| && |x| < q + |pat| {
        var p := if q < |x| then |x| else q;
        assert t[p] == b[p - |x|];
        assert t[q..q + |pat|] != pat by {
          assert t[q..q + |pat|][p - q] !in pat;
          assert pat[p - q] in pat;
        }
      } else {
        var u, v := t[q..q + |pat|], s[q..q + |pat|];
        forall i | 0 <= i < |pat| ensures u[i] == v[i] {
          var k := q + i;
          if k < |x| {
            assert t[k] == x[k] == s[k];
          } else {
            assert t[k] == y[k - |x| - |b|] == s[k];
          }
        }
        assert u == v;
        assert IndexOf(s, pat, 0).None?;
        assert !OccursAt(s, pat, q);
      }
    }
  }

  // ---------------------------------------------------------------------
  // Character-wise rewriting

  /** `s.replace(/q/g, qq)`: every `q` written twice, as the single-quote
      escaping of YAML and the double-quote escaping of CSV do. */
  function DoubleChar(s: string, q: char): string {
    if s == [] then []
    else
      (if s[0] == q then [q, q] else [s[0]]) + DoubleChar(s[1..], q)
  }

  /** Each `q` adds one character. */
  lemma {:induction false} DoubleCharLength(s: string, q: char)
    ensures |DoubleChar(s, q)| == |s| + Count(s, q)
    decreases |s|
  {
    if s != [] {
      DoubleCharLength(s[1..], q);
    }
  }

  lemma {:induction false} DoubleCharWithout(s: string, q: char, c: char)
    requires c != q && c !in s
    ensures c !in DoubleChar(s, q)
    decreases |s|
  {
    if s != [] {
      DoubleCharWithout(s[1..], q, c);
    }
  }

  lemma {:induction false} DoubleCharAppend(a: string, b: string, q: char)
    ensures DoubleChar(a + b, q) == DoubleChar(a, q) + DoubleChar(b, q)
    decreases |a|
  {
    if a == [] {
      assert a + b == b;
    } else {
      DoubleCharAppend(a[1..], b, q);
      var h := if a[0] == q then [q, q] else [a[0]];
      assert (a + b)[0] == a[0] && (a + b)[1..] == a[1..] + b;
      assert DoubleChar(a + b, q) == h + DoubleChar(a[1..] + b, q);
      assert DoubleChar(a, q) == h + DoubleChar(a[1..], q);
    }
  }

  /** Text without `q` is left as it is. */
  lemma {:induction false} DoubleCharIdentity(s: string, q: char)
    requires q !in s
    ensures DoubleChar(s, q) == s
    decreases |s|
  {
    if s != [] {
      assert s[0] in s;
      assert forall c :: c in s[1..] ==> c in s;
      DoubleCharIdentity(s[1..], q);
    }
  }
}
