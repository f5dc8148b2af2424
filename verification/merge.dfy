/** `appendWatchEntry`: adding a new watch to an existing movie note. The
    front-matter counter is raised, a poster line is added when missing,
    and the new entry goes to the top of the watch history.

    The source does both rewrites with `String.prototype.replace` and a
    replacement *string*, in which `$` sequences are expanded. `Expand`
    models that expansion; `AppendWatchEntryAsWritten` is the source's
    behaviour and `AppendWatchEntry` the literal insertion evidently meant,
    which the import loop uses. */
module Merge {
  import opened Wrappers
  import opened Text
  import opened Numbers
  import opened Csv
  import opened FrontMatter
  import opened Document

  // ---------------------------------------------------------------------
  // Replacement strings

  /** The expansion of a replacement string by the GetSubstitution
      operation of ECMAScript (ECMA-262): `$$` is a dollar, `$&` the
      matched text, `` $` `` the text before the match, `$'` the text after
      it, `$n` and `$nn` a capture group when one with that number exists
      (a two-digit number too large falls back to one digit), and anything
      else, `$<` included when there are no named groups, stays as it
      is. */
  function Expand(t: string, matched: string, before: string, after: string, groups: seq<string>): string
    decreases |t|
  {
    if t == [] then []
    else if t[0] != '$' || |t| == 1 then [t[0]] + Expand(t[1..], matched, before, after, groups)
    else
      var c := t[1];
      if c == '$' then "$" + Expand(t[2..], matched, before, after, groups)
      else if c == '&' then matched + Expand(t[2..], matched, before, after, groups)
      else if c == '`' then before + Expand(t[2..], matched, before, after, groups)
      else if c == '\'' then after + Expand(t[2..], matched, before, after, groups)
      else if IsDigit(c) then
        if |t| > 2 && IsDigit(t[2]) && DigitValue(c) * 10 + DigitValue(t[2]) <= |groups| then
          var n := DigitValue(c) * 10 + DigitValue(t[2]);
          (if 1 <= n then groups[n - 1] else t[..3]) + Expand(t[3..], matched, before, after, groups)
        else
          var n := DigitValue(c);
          (if 1 <= n <= |groups| then groups[n - 1] else t[..2]) + Expand(t[2..], matched, before, after, groups)
      else if c == '<' then "$<" + Expand(t[2..], matched, before, after, groups)
      else "$" + Expand(t[1..], matched, before, after, groups)
  }

  /** Text without a dollar sign passes through unchanged in front of
      whatever follows it. */
  lemma {:induction false} ExpandPlainPrefix(a: string, b: string, m: string, be: string, af: string, gs: seq<string>)
    requires '$' !in a
    ensures Expand(a + b, m, be, af, gs) == a + Expand(b, m, be, af, gs)
    decreases |a|
  {
    if a != [] {
      var s := a + b;
      assert s[0] == a[0] && a[0] in a;
      assert forall c :: c in a[1..] ==> c in a;
      if |s| == 1 {
        assert b == [] && a[1..] == [];
      }
      assert s[1..] == a[1..] + b;
      ExpandPlainPrefix(a[1..], b, m, be, af, gs);
      assert a == [a[0]] + a[1..];
    } else {
      assert a + b == b;
    }
  }

  /** A replacement string without a dollar sign is inserted literally. */
  lemma ExpandPlain(a: string, m: string, be: string, af: string, gs: seq<string>)
    requires '$' !in a
    ensures Expand(a, m, be, af, gs) == a
  {
    ExpandPlainPrefix(a, [], m, be, af, gs);
    assert a + [] == a;
  }

  /** A replacement string whose every `$` is doubled expands to the text
      it escapes: each `$$` pair is halved and nothing else changes. */
  lemma {:induction false} ExpandEscaped(s: string, m: string, be: string, af: string, gs: seq<string>)
    ensures Expand(DoubleChar(s, '$'), m, be, af, gs) == s
    decreases |s|
  {
    if s != [] {
      ExpandEscaped(s[1..], m, be, af, gs);
      var rest := DoubleChar(s[1..], '$');
      if s[0] == '$' {
        assert DoubleChar(s, '$') == "$$" + rest;
        ExpandDollarDollar(rest, m, be, af, gs);
      } else {
        assert DoubleChar(s, '$') == [s[0]] + rest;
        ExpandPlainPrefix([s[0]], rest, m, be, af, gs);
      }
      assert s == [s[0]] + s[1..];
    }
  }

  lemma ExpandDollarDollar(b: string, m: string, be: string, af: string, gs: seq<string>)
    ensures Expand("$$" + b, m, be, af, gs) == "$" + Expand(b, m, be, af, gs)
  {
    assert ("$$" + b)[2..] == b;
  }

  lemma ExpandMatched(b: string, m: string, be: string, af: string, gs: seq<string>)
    ensures Expand("$&" + b, m, be, af, gs) == m + Expand(b, m, be, af, gs)
  {
    assert ("$&" + b)[2..] == b;
  }

  lemma ExpandFirstGroup(b: string, m: string, be: string, af: string, g: string)
    requires b == [] || !IsDigit(b[0])
    ensures Expand("$1" + b, m, be, af, [g]) == g + Expand(b, m, be, af, [g])
  {
    var t := "$1" + b;
    assert t[1] == '1' && t[2..] == b;
    if |t| > 2 {
      assert t[2] == b[0];
    }
  }

  // ---------------------------------------------------------------------
  // The front matter

  const WatchesKey := "watches:"
  const PosterKey := "poster:"

  /** The counter step: the number after `watches: ` raised when the
      front matter mentions `watches:` (whether or not a number follows),
      a `watches: 2` line added when it does not. */
  function RaiseCounter(fm: string): string {
    if Contains(fm, WatchesKey) then IncrementCounter(fm) else fm + "\n" + CounterKey + "2"
  }

  /** The poster step: a `poster:` line added when there is a poster and
      the front matter has none yet. */
  function AddPoster(fm: string, poster: string): string {
    if poster != [] && !Contains(fm, PosterKey) then fm + "\nposter: '" + poster + "'" else fm
  }

  /** The new front matter: the counter step, then the poster step. */
  function RewriteFrontMatter(fm: string, poster: string): string {
    AddPoster(RaiseCounter(fm), poster)
  }

  /** The text with its front matter rewritten, the replacement string
      expanded (`expand`) or taken literally. Text without a front-matter
      block is left alone. */
  function WithFrontMatter(content: string, poster: string, expand: bool): string {
    match FrontMatterEnd(content)
    case None => content
    case Some(k) =>
      var template := Fence + RewriteFrontMatter(content[4..k], poster) + Closing;
      var after := content[k + 4..];
      (if expand then Expand(template, content[..k + 4], [], after, []) else template) + after
  }

  // ---------------------------------------------------------------------
  // The history

  /** The new entry put right after the first `## Watch History` heading
      followed by a blank line, with the replacement string `$1<entry>`
      expanded (`expand`) or the heading and entry taken literally. With no
      heading at all a new section is appended; with a heading that is not
      followed by a blank line nothing is inserted. */
  function InsertEntry(text: string, entry: string, expand: bool): string {
    if !Contains(text, HistoryMarker) then text + "\n\n" + HistoryAnchor + entry
    else
      match IndexOf(text, HistoryAnchor, 0)
      case None => text
      case Some(i) =>
        var before, after := text[..i], text[i + |HistoryAnchor|..];
        var inserted :=
          if expand then Expand("$1" + entry, HistoryAnchor, before, after, [HistoryAnchor])
          else HistoryAnchor + entry;
        before + inserted + after
  }

  /** The history heading is there but the blank line after it is not:
      the entry is dropped, though the append still counts as done. */
  predicate EntryLost(text: string) {
    Contains(text, HistoryMarker) && IndexOf(text, HistoryAnchor, 0).None?
  }

  // ---------------------------------------------------------------------
  // The append

  datatype AppendResult = Duplicate | Appended(text: string)

  /** The note already holds an entry for this (non-empty) date. */
  predicate IsDuplicate(content: string, date: string) {
    date != [] && Contains(content, DateHeading(date))
  }

  function AppendCore(content: string, row: Row, poster: string, date: string, expand: bool): (r: AppendResult)
    ensures r.Duplicate? <==> IsDuplicate(content, date)
  {
    if IsDuplicate(content, date) then Duplicate
    else
      var entry := HistoryEntry(date, Get(row, "Rating"), Get(row, "Review"));
      Appended(InsertEntry(WithFrontMatter(content, poster, expand), entry, expand))
  }

  /** `appendWatchEntry` with both replacements literal: refused as a
      duplicate exactly when a non-empty date already has its heading in
      the note. */
  function AppendWatchEntry(content: string, row: Row, poster: string, date: string): (r: AppendResult)
    ensures r.Duplicate? <==> date != [] && Contains(content, DateHeading(date))
  {
    AppendCore(content, row, poster, date, false)
  }

  /** `appendWatchEntry` as the source writes it, with both replacement
      strings expanded. */
  function AppendWatchEntryAsWritten(content: string, row: Row, poster: string, date: string): (r: AppendResult)
    ensures r.Duplicate? <==> date != [] && Contains(content, DateHeading(date))
  {
    AppendCore(content, row, poster, date, true)
  }

  // ---------------------------------------------------------------------
  // Properties of the counter and poster rewrite

  lemma OccursAtPrefix(s: string, p: string, x: string, i: nat)
    requires OccursAt(s, p + x, i)
    ensures OccursAt(s, p, i)
  {
    assert s[i..i + |p|] == s[i..i + |p + x|][..|p|];
  }

  /** Text that never mentions `watches:` has no `watches: ` either, even
      with a newline after it. */
  lemma NoWatchesKey(fm: string)
    requires !Contains(fm, WatchesKey)
    ensures !Contains(fm + "\n", CounterKey)
  {
    assert CounterKey == WatchesKey + " ";
    forall j: nat | 0 <= j ensures !OccursAt(fm, CounterKey, j) {
      if OccursAt(fm, CounterKey, j) {
        OccursAtPrefix(fm, WatchesKey, " ", j);
      }
    }
    IndexOfAcrossBoundary(fm, "\n", CounterKey, 0);
  }

  /** A counter followed by text that does not start with a digit keeps
      its value. */
  lemma CounterBeforeText(a: string, b: string)
    requires CounterValue(a).Some?
    requires b == [] || !IsDigit(b[0])
    ensures CounterValue(a + b) == CounterValue(a)
  {
    var p := FirstCounter(a, 0).value;
    var s := a + b;
    var i := p + |CounterKey|;
    forall q | 0 <= q <= p ensures CounterAt(s, q) == CounterAt(a, q) {
      assert q + |CounterKey| < |a|;
      assert s[q..q + |CounterKey|] == a[q..q + |CounterKey|];
      assert s[q + |CounterKey|] == a[q + |CounterKey|];
    }
    assert FirstCounter(s, 0) == Some(p);
    var j := DigitRunEnd(a, i);
    assert s[i..j] == a[i..j];
    assert j == |s| || !IsDigit(s[j]) by {
      if j < |a| {
        assert s[j] == a[j];
      } else if j < |s| {
        assert s[j] == b[0];
      }
    }
    DigitRunEndUnique(s, i, j);
  }

  /** A counter is also a mention of `watches:`. */
  lemma CounterMentionsKey(fm: string)
    requires CounterValue(fm).Some?
    ensures Contains(fm, WatchesKey)
  {
    var p := FirstCounter(fm, 0).value;
    assert CounterKey == WatchesKey + " ";
    OccursAtPrefix(fm, WatchesKey, " ", p);
    ContainsAt(fm, WatchesKey, p);
  }

  /** The counter step raises a counter by one, gives a front matter that
      never mentions `watches:` the count 2, and leaves alone one that
      mentions `watches:` with no number after it. */
  lemma RaiseCounterValue(fm: string)
    ensures CounterValue(fm).Some? ==> CounterValue(RaiseCounter(fm)) == Some(CounterValue(fm).value + 1)
    ensures !Contains(fm, WatchesKey) ==> CounterValue(RaiseCounter(fm)) == Some(2)
    ensures Contains(fm, WatchesKey) && CounterValue(fm).None? ==> RaiseCounter(fm) == fm
  {
    IncrementCounterValue(fm);
    if CounterValue(fm).Some? {
      CounterMentionsKey(fm);
    }
    if !Contains(fm, WatchesKey) {
      AddedCounter(fm);
    }
  }

  lemma AddedCounter(fm: string)
    requires !Contains(fm, WatchesKey)
    ensures CounterValue(fm + "\n" + CounterKey + "2") == Some(2)
  {
    NoWatchesKey(fm);
    var t := CounterKey + "2";
    assert NatToString(2) == "2";
    CounterLineValue(2, []);
    assert CounterKey + NatToString(2) + [] == t;
    assert t[..|CounterKey|] == CounterKey && t[|CounterKey|] == '2';
    CounterAfterPlainText(fm + "\n", t);
    Assoc(fm + "\n", CounterKey, "2");
  }

  /** The poster step keeps the counter. */
  lemma AddPosterKeepsCounter(fm: string, poster: string)
    requires CounterValue(fm).Some?
    ensures CounterValue(AddPoster(fm, poster)) == CounterValue(fm)
  {
    if poster != [] && !Contains(fm, PosterKey) {
      Assoc(fm, "\nposter: '" + poster, "'");
      Assoc(fm, "\nposter: '", poster);
      CounterBeforeText(fm, "\nposter: '" + poster + "'");
    }
  }

  /** The counter of the rewritten front matter: one more than before, or
      2 when there was no `watches:` at all. */
  lemma RewriteCounter(fm: string, poster: string)
    ensures CounterValue(fm).Some? ==>
              CounterValue(RewriteFrontMatter(fm, poster)) == Some(CounterValue(fm).value + 1)
    ensures !Contains(fm, WatchesKey) ==> CounterValue(RewriteFrontMatter(fm, poster)) == Some(2)
  {
    RaiseCounterValue(fm);
    if CounterValue(RaiseCounter(fm)).Some? {
      AddPosterKeepsCounter(RaiseCounter(fm), poster);
    }
  }

  /** A `watches:` with no number after it: without a poster to add, the
      front matter comes back unchanged and still holds no counter. */
  lemma RewriteWithoutNumber(fm: string)
    requires Contains(fm, WatchesKey) && CounterValue(fm).None?
    ensures RewriteFrontMatter(fm, []) == fm && CounterValue(RewriteFrontMatter(fm, [])).None?
  {
    RaiseCounterValue(fm);
  }

  /** After the rewrite there is a `poster:` entry whenever there is a
      poster; a front matter that has one gets no second one, and one that
      has none keeps its text and gains the quoted URL after it. */
  lemma RewritePoster(fm: string, poster: string)
    ensures poster != [] ==> Contains(RewriteFrontMatter(fm, poster), PosterKey)
    ensures poster == [] || Contains(RaiseCounter(fm), PosterKey) ==> RewriteFrontMatter(fm, poster) == RaiseCounter(fm)
    ensures poster != [] && !Contains(RaiseCounter(fm), PosterKey) ==>
              StartsWith(RewriteFrontMatter(fm, poster), RaiseCounter(fm)) &&
              Contains(RewriteFrontMatter(fm, poster), "poster: '" + poster + "'")
  {
    var counted := RaiseCounter(fm);
    if poster != [] && !Contains(counted, PosterKey) {
      PosterAdded(counted, poster);
    }
  }

  lemma PosterAdded(fm: string, poster: string)
    requires poster != [] && !Contains(fm, PosterKey)
    ensures Contains(AddPoster(fm, poster), PosterKey)
    ensures StartsWith(AddPoster(fm, poster), fm)
    ensures Contains(AddPoster(fm, poster), "poster: '" + poster + "'")
  {
    var value := " '" + poster + "'";
    assert "poster: '" + poster + "'" == PosterKey + value;
    assert AddPoster(fm, poster) == fm + "\n" + (PosterKey + value);
    LineAppended(fm, PosterKey, value);
  }

  /** Text with one more line after it starts with the text and contains
      the line and the line's key. */
  lemma LineAppended(s: string, key: string, value: string)
    ensures StartsWith(s + "\n" + (key + value), s)
    ensures Contains(s + "\n" + (key + value), key + value)
    ensures Contains(s + "\n" + (key + value), key)
  {
    var t := s + "\n" + (key + value);
    assert t == s + ("\n" + (key + value));
    StartsAfter(s, "\n" + (key + value));
    assert t == (s + "\n") + (key + value) + [];
    ContainsInfix(s + "\n", key + value, []);
    assert t == (s + "\n") + key + value;
    ContainsInfix(s + "\n", key, value);
  }



  // ---------------------------------------------------------------------
  // Properties of the front-matter step

  /** Text without a front-matter block is not touched. */
  lemma WithoutFrontMatter(content: string, poster: string, expand: bool)
    requires FrontMatterEnd(content).None?
    ensures WithFrontMatter(content, poster, expand) == content
  {
  }

  /** The literal rewrite puts the new front matter where the old one was
      and keeps everything after the closing delimiter; read again, the
      block is the new front matter. */
  lemma WithFrontMatterShape(content: string, poster: string)
    requires FrontMatterEnd(content).Some?
    requires !Contains(RewriteFrontMatter(content[4..FrontMatterEnd(content).value], poster), Closing)
    ensures var k := FrontMatterEnd(content).value;
      var fm := RewriteFrontMatter(content[4..k], poster);
      var r := WithFrontMatter(content, poster, false);
      FrontMatterEnd(r) == Some(4 + |fm|) && r[4..4 + |fm|] == fm && r[4 + |fm| + 4..] == content[k + 4..]
  {
    var k := FrontMatterEnd(content).value;
    var fm := RewriteFrontMatter(content[4..k], poster);
    FrontMatterOfBlock(fm, content[k + 4..]);
  }

  /** Read back after the literal rewrite, the front matter of a note
      whose counter was `n` holds `n + 1`, and one without any `watches:`
      holds 2. */
  lemma FrontMatterStepCounter(content: string, poster: string)
    requires FrontMatterEnd(content).Some?
    requires !Contains(RewriteFrontMatter(content[4..FrontMatterEnd(content).value], poster), Closing)
    ensures var fm := content[4..FrontMatterEnd(content).value];
      var r := WithFrontMatter(content, poster, false);
      FrontMatterEnd(r).Some?
      && (CounterValue(fm).Some? ==> CounterValue(r[4..FrontMatterEnd(r).value]) == Some(CounterValue(fm).value + 1))
      && (!Contains(fm, WatchesKey) ==> CounterValue(r[4..FrontMatterEnd(r).value]) == Some(2))
  {
    var fm := content[4..FrontMatterEnd(content).value];
    WithFrontMatterShape(content, poster);
    RewriteCounter(fm, poster);
  }

  // ---------------------------------------------------------------------
  // Properties of the history step

  /** The literal insertion puts the heading and the entry right where the
      first heading-and-blank-line was, and keeps the text on both sides. */
  lemma InsertEntryPlacement(text: string, entry: string, i: nat)
    requires IndexOf(text, HistoryAnchor, 0) == Some(i)
    ensures var r := InsertEntry(text, entry, false);
      var n := i + |HistoryAnchor|;
      r[..n] == text[..n] && r[n..n + |entry|] == entry && r[n + |entry|..] == text[n..]
  {
    ContainsAt(text, HistoryMarker, i) by {
      OccursAtPrefix(text, HistoryMarker, "\n\n", i);
    }
    var n := i + |HistoryAnchor|;
    assert text[..n] == text[..i] + HistoryAnchor;
  }

  /** Without any heading, the entry arrives in a new section at the end. */
  lemma InsertEntryNewSection(text: string, entry: string, expand: bool)
    requires !Contains(text, HistoryMarker)
    ensures InsertEntry(text, entry, expand) == text + "\n\n" + HistoryAnchor + entry
  {
  }

  /** The literal insertion leaves the entry in the text unless the heading
      lacks its blank line, in which case the text is unchanged. */
  lemma InsertEntryKeepsEntry(text: string, entry: string)
    ensures EntryLost(text) ==> InsertEntry(text, entry, false) == text
    ensures !EntryLost(text) ==> Contains(InsertEntry(text, entry, false), entry)
  {
    if !Contains(text, HistoryMarker) {
      ContainsInfix(text + "\n\n" + HistoryAnchor, entry, []);
      assert text + "\n\n" + HistoryAnchor + entry + [] == text + "\n\n" + HistoryAnchor + entry;
    } else if IndexOf(text, HistoryAnchor, 0).Some? {
      var i := IndexOf(text, HistoryAnchor, 0).value;
      var before, after := text[..i], text[i + |HistoryAnchor|..];
      Assoc(before, HistoryAnchor + entry, after);
      Assoc(before + HistoryAnchor, entry, after);
      Assoc(before, HistoryAnchor, entry);
      ContainsInfix(before + HistoryAnchor, entry, after);
    }
  }

  /** Read back, the literal insertion of an entry puts its watch first
      in the history, ahead of the watches already there; without any
      heading the note gets a history of that watch alone. */
  lemma InsertEntryAddsWatch(text: string, date: string, rating: string, review: string)
    requires '\n' !in date && '\n' !in rating && '\n' !in review
    ensures var r := InsertEntry(text, HistoryEntry(date, rating, review), false);
      (!Contains(text, HistoryMarker) ==> ReadHistory(r) == Some([Watch(date, rating, review)]))
      && (ReadHistory(text).Some? ==>
            ReadHistory(r) == Some([Watch(date, rating, review)] + ReadHistory(text).value))
  {
    if !Contains(text, HistoryMarker) {
      OneEntryHistory(text, date, rating, review);
    } else if ReadHistory(text).Some? {
      var i := IndexOf(text, HistoryMarker, 0).value;
      assert text[i..][|HistoryAnchor|..] == text[i + |HistoryAnchor|..];
      InsertIntoHistory(text, date, rating, review, i);
    }
  }

  /** The literal insertion after the first heading, which is followed by
      a blank line and readable entries. */
  lemma InsertIntoHistory(text: string, date: string, rating: string, review: string, i: nat)
    requires '\n' !in date && '\n' !in rating && '\n' !in review
    requires IndexOf(text, HistoryMarker, 0) == Some(i) && StartsWith(text[i..], HistoryAnchor)
    requires ReadHistoryEntries(text[i + |HistoryAnchor|..]).Some?
    ensures ReadHistory(InsertEntry(text, HistoryEntry(date, rating, review), false))
         == Some([Watch(date, rating, review)] + ReadHistoryEntries(text[i + |HistoryAnchor|..]).value)
  {
    var e := HistoryEntry(date, rating, review);
    var r := InsertEntry(text, e, false);
    var n := i + |HistoryAnchor|;
    AnchorFirst(text, i);
    InsertEntryPlacement(text, e, i);
    FirstOccurrenceKept(text, r, HistoryMarker, i, n);
    assert StartsWith(r[i..], HistoryAnchor) by {
      SameSlice(text, r, n, i, n);
      assert r[i..][..|HistoryAnchor|] == r[i..n];
      assert text[i..][..|HistoryAnchor|] == text[i..n];
    }
    assert r[i..][|HistoryAnchor|..] == e + text[n..] by {
      assert r[n..] == r[n..n + |e|] + r[n + |e|..];
    }
    EntryThenHistory(date, rating, review, text[n..]);
  }

  /** An entry put in front of readable entries is read first. */
  lemma EntryThenHistory(date: string, rating: string, review: string, after: string)
    requires '\n' !in date && '\n' !in rating && '\n' !in review
    requires ReadHistoryEntries(after).Some?
    ensures ReadHistoryEntries(HistoryEntry(date, rating, review) + after)
         == Some([Watch(date, rating, review)] + ReadHistoryEntries(after).value)
  {
    var e := HistoryEntry(date, rating, review);
    HistoryEntryRoundTrip(date, rating, review, after);
    EntryStartsWithHeading(date, rating, review);
    assert e + after != [];
  }

  /** A first history heading followed by a blank line is also the first
      heading-and-blank-line. */
  lemma AnchorFirst(text: string, i: nat)
    requires IndexOf(text, HistoryMarker, 0) == Some(i)
    requires StartsWith(text[i..], HistoryAnchor)
    ensures IndexOf(text, HistoryAnchor, 0) == Some(i)
  {
    assert HistoryAnchor == HistoryMarker + "\n\n";
    assert text[i..i + |HistoryAnchor|] == text[i..][..|HistoryAnchor|];
    forall j | 0 <= j < i ensures !OccursAt(text, HistoryAnchor, j) {
      if OccursAt(text, HistoryAnchor, j) {
        OccursAtPrefix(text, HistoryMarker, "\n\n", j);
      }
    }
    IndexOfFirst(text, HistoryAnchor, i);
  }

  /** Text that agrees with `s` up to the end of the first occurrence of
      `pat` in `s` has its first occurrence at the same place. */
  lemma FirstOccurrenceKept(s: string, t: string, pat: string, i: nat, n: nat)
    requires IndexOf(s, pat, 0) == Some(i)
    requires i + |pat| <= n <= |s| && n <= |t| && s[..n] == t[..n]
    ensures IndexOf(t, pat, 0) == Some(i)
  {
    assert OccursAt(s, pat, i);
    OccursAtSame(s, t, pat, n, i);
    forall j | 0 <= j < i ensures !OccursAt(t, pat, j) {
      assert !OccursAt(s, pat, j);
      OccursAtSame(s, t, pat, n, j);
    }
    IndexOfFirst(t, pat, i);
  }

  /** Texts that agree up to `n` have the same occurrences ending by `n`. */
  lemma OccursAtSame(s: string, t: string, pat: string, n: nat, j: nat)
    requires j + |pat| <= n <= |s| && n <= |t| && s[..n] == t[..n]
    ensures OccursAt(t, pat, j) == OccursAt(s, pat, j)
  {
    SameSlice(s, t, n, j, j + |pat|);
  }

  lemma SameSlice(s: string, t: string, n: nat, a: nat, b: nat)
    requires a <= b <= n <= |s| && n <= |t| && s[..n] == t[..n]
    ensures s[a..b] == t[a..b]
  {
    forall k | 0 <= k < b - a ensures s[a..b][k] == t[a..b][k] {
      assert s[..n][a + k] == t[..n][a + k];
    }
  }

  lemma ContainsPrefixOf(s: string, p: string, x: string)
    requires Contains(s, p + x)
    ensures Contains(s, p)
  {
    var i := IndexOf(s, p + x, 0).value;
    OccursAtPrefix(s, p, x, i);
    ContainsAt(s, p, i);
  }

  /** Appending a date twice: the second append is refused as a duplicate,
      unless the first one lost its entry to a heading without a blank
      line. */
  lemma AppendThenDuplicate(content: string, row: Row, poster: string, date: string, row': Row, poster': string)
    requires date != []
    requires AppendWatchEntry(content, row, poster, date).Appended?
    requires !EntryLost(WithFrontMatter(content, poster, false))
    ensures AppendWatchEntry(AppendWatchEntry(content, row, poster, date).text, row', poster', date).Duplicate?
  {
    var entry := HistoryEntry(date, Get(row, "Rating"), Get(row, "Review"));
    var u := WithFrontMatter(content, poster, false);
    var t := InsertEntry(u, entry, false);
    InsertEntryKeepsEntry(u, entry);
    EntryStartsWithHeading(date, Get(row, "Rating"), Get(row, "Review"));
    assert entry == DateHeading(date) + entry[|DateHeading(date)|..];
    ContainsPrefixOf(t, DateHeading(date), entry[|DateHeading(date)|..]);
  }

  // ---------------------------------------------------------------------
  // What the expansion changes

  /** The history template `$1<entry>` for an entry holding `$&`: the
      group and the matched text are both the heading. */
  lemma ExpandEntryTemplate(a: string, b: string, before: string, after: string)
    requires a != [] && a[0] == '#' && '$' !in a && '$' !in b
    ensures Expand("$1" + (a + "$&" + b), HistoryAnchor, before, after, [HistoryAnchor])
         == HistoryAnchor + a + HistoryAnchor + b
  {
    var gs := [HistoryAnchor];
    ExpandFirstGroup(a + "$&" + b, HistoryAnchor, before, after, HistoryAnchor);
    Assoc(a, "$&", b);
    ExpandPlainPrefix(a, "$&" + b, HistoryAnchor, before, after, gs);
    ExpandMatched(b, HistoryAnchor, before, after, gs);
    ExpandPlain(b, HistoryAnchor, before, after, gs);
  }

  /** The insertion at a found heading, spelled out. */
  lemma InsertEntryAt(text: string, entry: string, expand: bool, i: nat)
    requires IndexOf(text, HistoryAnchor, 0) == Some(i)
    ensures var n := i + |HistoryAnchor|;
      InsertEntry(text, entry, expand) == text[..i]
        + (if expand then Expand("$1" + entry, HistoryAnchor, text[..i], text[n..], [HistoryAnchor])
           else HistoryAnchor + entry)
        + text[n..]
  {
    ContainsAt(text, HistoryMarker, i) by {
      OccursAtPrefix(text, HistoryMarker, "\n\n", i);
    }
  }

  /** A review holding `$&` (anything before it in the entry free of
      dollar signs): the source writes the matched heading in its place,
      so the entry in the note is not the one built from the row. */
  lemma ExpandedEntryDiffers(text: string, a: string, b: string, i: nat)
    requires IndexOf(text, HistoryAnchor, 0) == Some(i)
    requires a != [] && a[0] == '#' && '$' !in a && '$' !in b
    ensures var n := i + |HistoryAnchor|;
      InsertEntry(text, a + "$&" + b, true) == text[..i] + (HistoryAnchor + a + HistoryAnchor + b) + text[n..]
      && InsertEntry(text, a + "$&" + b, false) == text[..i] + (HistoryAnchor + (a + "$&" + b)) + text[n..]
  {
    var n := i + |HistoryAnchor|;
    InsertEntryAt(text, a + "$&" + b, true, i);
    InsertEntryAt(text, a + "$&" + b, false, i);
    ExpandEntryTemplate(a, b, text[..i], text[n..]);
  }

  lemma NoDollarConcat(x: string, y: string)
    requires '$' !in x && '$' !in y
    ensures '$' !in x + y
  {
  }

  /** A dollar pair between text without dollar signs becomes one
      dollar. */
  lemma ExpandDollarPair(x: string, y: string, m: string, be: string, af: string, gs: seq<string>)
    requires '$' !in x && '$' !in y
    ensures Expand(x + "$$" + y, m, be, af, gs) == x + "$" + y
  {
    Assoc(x, "$$", y);
    ExpandPlainPrefix(x, "$$" + y, m, be, af, gs);
    ExpandDollarDollar(y, m, be, af, gs);
    ExpandPlain(y, m, be, af, gs);
  }

  /** The front-matter template for a front matter holding `$$` and no
      other dollar sign: the pair becomes one dollar. */
  lemma ExpandFrontMatterTemplate(a: string, b: string, m: string, after: string)
    requires '$' !in a && '$' !in b
    ensures Expand(Fence + (a + "$$" + b) + Closing, m, [], after, []) == Fence + a + "$" + b + Closing
  {
    var x, y := Fence + a, b + Closing;
    assert '$' !in Fence && '$' !in Closing;
    NoDollarConcat(Fence, a);
    NoDollarConcat(b, Closing);
    assert Fence + (a + "$$" + b) + Closing == x + "$$" + y;
    ExpandDollarPair(x, y, m, [], after, []);
    assert x + "$" + y == Fence + a + "$" + b + Closing;
  }

  /** A front matter holding `$$` (with no other dollar sign): the source
      writes a single `$` back, so an append silently rewrites a value the
      note already had. */
  lemma ExpandedFrontMatterDiffers(content: string, poster: string, a: string, b: string)
    requires FrontMatterEnd(content).Some?
    requires RewriteFrontMatter(content[4..FrontMatterEnd(content).value], poster) == a + "$$" + b
    requires '$' !in a && '$' !in b
    ensures var k := FrontMatterEnd(content).value;
      WithFrontMatter(content, poster, true) == Fence + a + "$" + b + Closing + content[k + 4..]
      && WithFrontMatter(content, poster, false) == Fence + (a + "$$" + b) + Closing + content[k + 4..]
  {
    var k := FrontMatterEnd(content).value;
    ExpandFrontMatterTemplate(a, b, content[..k + 4], content[k + 4..]);
  }

  /** Without dollar signs the two readings of the front-matter step
      agree. */
  lemma WithFrontMatterNoDollar(content: string, poster: string)
    requires FrontMatterEnd(content).Some? ==>
               '$' !in RewriteFrontMatter(content[4..FrontMatterEnd(content).value], poster)
    ensures WithFrontMatter(content, poster, true) == WithFrontMatter(content, poster, false)
  {
    if FrontMatterEnd(content).Some? {
      var k := FrontMatterEnd(content).value;
      var fm := RewriteFrontMatter(content[4..k], poster);
      assert '$' !in Fence + fm + Closing by {
        assert forall c :: c in Fence + fm + Closing ==> c in Fence || c in fm || c in Closing;
      }
      ExpandPlain(Fence + fm + Closing, content[..k + 4], [], content[k + 4..], []);
    }
  }

  /** Without dollar signs the two readings of the history step agree. */
  lemma InsertEntryNoDollar(text: string, entry: string)
    requires entry != [] && !IsDigit(entry[0]) && '$' !in entry
    ensures InsertEntry(text, entry, true) == InsertEntry(text, entry, false)
  {
    if Contains(text, HistoryMarker) && IndexOf(text, HistoryAnchor, 0).Some? {
      var i := IndexOf(text, HistoryAnchor, 0).value;
      var before, after := text[..i], text[i + |HistoryAnchor|..];
      InsertEntryAt(text, entry, true, i);
      InsertEntryAt(text, entry, false, i);
      ExpandFirstGroup(entry, HistoryAnchor, before, after, HistoryAnchor);
      ExpandPlain(entry, HistoryAnchor, before, after, [HistoryAnchor]);
    }
  }

  /** The two readings agree whenever no dollar sign is involved. */
  lemma NoDollarSameAppend(content: string, row: Row, poster: string, date: string)
    requires FrontMatterEnd(content).Some? ==>
               '$' !in RewriteFrontMatter(content[4..FrontMatterEnd(content).value], poster)
    requires '$' !in HistoryEntry(date, Get(row, "Rating"), Get(row, "Review"))
    ensures AppendWatchEntryAsWritten(content, row, poster, date) == AppendWatchEntry(content, row, poster, date)
  {
    if !IsDuplicate(content, date) {
      var entry := HistoryEntry(date, Get(row, "Rating"), Get(row, "Review"));
      WithFrontMatterNoDollar(content, poster);
      EntryStartsWithHeading(date, Get(row, "Rating"), Get(row, "Review"));
      assert entry[0] == DateHeading(date)[0] == '#';
      InsertEntryNoDollar(WithFrontMatter(content, poster, false), entry);
    }
  }

  // ---------------------------------------------------------------------
  // A second watch of a new note

  /** Incrementing the counter of a written block's body gives the body
      with the next count, when the header lines hold no counter of their
      own. */
  lemma BodyIncrement(row: Row, poster: string, n: nat, tags: seq<string>)
    requires !Contains(Head(row, poster), CounterKey)
    ensures IncrementCounter(BlockBody(row, poster, n, tags)) == BlockBody(row, poster, n + 1, tags)
  {
    BodyPieces(row, poster, n, tags);
    BodyPieces(row, poster, n + 1, tags);
    NoneInSuffix(Fence, EntryLines(row) + PosterLine(poster), CounterKey);
    assert TagTail(tags) == [] || TagTail(tags)[0] == '\n';
    IncrementCounterLine(EntryLines(row) + PosterLine(poster), n, TagTail(tags));
  }

  lemma BodyHasWatchesKey(row: Row, poster: string, n: nat, tags: seq<string>)
    ensures Contains(BlockBody(row, poster, n, tags), WatchesKey)
  {
    var h := EntryLines(row) + PosterLine(poster);
    var rest := " " + NatToString(n) + TagTail(tags);
    BodyPieces(row, poster, n, tags);
    assert CounterKey == WatchesKey + " ";
    KeyRegroup(h, WatchesKey, " ", NatToString(n), TagTail(tags));
    ContainsInfix(h, WatchesKey, rest);
  }

  lemma KeyRegroup<T>(h: seq<T>, key: seq<T>, sp: seq<T>, n: seq<T>, tail: seq<T>)
    ensures h + (((key + sp) + n) + tail) == h + key + (sp + n + tail)
  {
  }

  lemma BodyHasPosterKey(row: Row, poster: string, n: nat, tags: seq<string>)
    requires poster != []
    ensures Contains(BlockBody(row, poster, n, tags), PosterKey)
  {
    var e := EntryLines(row);
    var value := " '" + poster + "'\n";
    var rest := value + CounterKey + NatToString(n) + TagTail(tags);
    assert PosterLine(poster) == PosterKey + value;
    PosterRegroup(e, PosterKey, value, CounterKey, NatToString(n), TagTail(tags));
    ContainsInfix(e, PosterKey, rest);
  }

  lemma PosterRegroup<T>(e: seq<T>, key: seq<T>, value: seq<T>, c: seq<T>, n: seq<T>, tail: seq<T>)
    ensures e + (key + value) + c + n + tail == e + key + (value + c + n + tail)
  {
  }

  /** The front-matter rewrite of a written block's body raises its count
      by one and, when no poster is added or the block has one already, changes
      nothing else. */
  lemma RewriteBody(row: Row, poster: string, n: nat, tags: seq<string>, poster': string)
    requires !Contains(Head(row, poster), CounterKey)
    requires poster' == [] || poster != []
    ensures RewriteFrontMatter(BlockBody(row, poster, n, tags), poster') == BlockBody(row, poster, n + 1, tags)
  {
    BodyHasWatchesKey(row, poster, n, tags);
    BodyIncrement(row, poster, n, tags);
    if poster' != [] {
      BodyHasPosterKey(row, poster, n + 1, tags);
    }
  }

  /** Where a written block ends, what it holds, and what follows it,
      whatever body comes after. */
  lemma WrittenBlockEnd(row: Row, poster: string, n: nat, tags: seq<string>, rest: string)
    requires !Contains(Head(row, poster), Closing)
    requires forall i :: 0 <= i < |tags| ==> '\n' !in tags[i]
    ensures var doc := FrontMatterText(row, poster, n, tags) + rest;
      var body := BlockBody(row, poster, n, tags);
      var k := 4 + |body|;
      FrontMatterEnd(doc) == Some(k) && doc[4..k] == body && doc[k + 4..] == "\n\n" + rest
  {
    var body := BlockBody(row, poster, n, tags);
    BlockOfBody(row, poster, n, tags);
    BlankRegroup(Fence + body, Closing, "\n\n", rest);
    BodyNoClosing(row, poster, n, tags);
    FrontMatterOfBlock(body, "\n\n" + rest);
  }

  lemma BlankRegroup<T>(a: seq<T>, c: seq<T>, blank: seq<T>, b: seq<T>)
    ensures a + c + blank + b == a + c + (blank + b)
  {
  }

  /** The front-matter step on a written block raises its count by one and
      keeps everything else, whatever body comes after. */
  lemma WrittenFrontMatterStep(row: Row, poster: string, n: nat, tags: seq<string>, rest: string, poster': string)
    requires !Contains(Head(row, poster), Closing) && !Contains(Head(row, poster), CounterKey)
    requires forall i :: 0 <= i < |tags| ==> '\n' !in tags[i]
    requires poster' == [] || poster != []
    ensures WithFrontMatter(FrontMatterText(row, poster, n, tags) + rest, poster', false)
         == FrontMatterText(row, poster, n + 1, tags) + rest
  {
    WrittenBlockRewritten(row, poster, n, tags, rest, poster');
    RewriteBody(row, poster, n, tags, poster');
    BlockOfBody(row, poster, n + 1, tags);
    BlankRegroup(Fence + BlockBody(row, poster, n + 1, tags), Closing, "\n\n", rest);
  }

  lemma WrittenBlockRewritten(row: Row, poster: string, n: nat, tags: seq<string>, rest: string, poster': string)
    requires !Contains(Head(row, poster), Closing)
    requires forall i :: 0 <= i < |tags| ==> '\n' !in tags[i]
    ensures WithFrontMatter(FrontMatterText(row, poster, n, tags) + rest, poster', false)
         == Fence + RewriteFrontMatter(BlockBody(row, poster, n, tags), poster') + Closing + ("\n\n" + rest)
  {
    WrittenBlockEnd(row, poster, n, tags, rest);
  }

  /** In a text whose first history heading is the one before `first`,
      the new entry goes between that heading and `first`. */
  lemma InsertBeforeFirstEntry(pre: string, first: string, entry: string)
    requires !Contains(pre, HistoryMarker)
    ensures InsertEntry(pre + "\n\n" + HistoryAnchor + first, entry, false)
         == pre + "\n\n" + HistoryAnchor + entry + first
  {
    var text := pre + "\n\n" + HistoryAnchor + first;
    var i := |pre| + 2;
    AnchorAfterBlank(pre, first);
    assert OccursAt(HistoryAnchor + first, HistoryMarker, 0) by {
      StartsAfter(HistoryMarker, "\n\n" + first);
    }
    HistoryFoundAfter(pre, HistoryAnchor + first);
    StartsAfter(HistoryAnchor, first);
    AnchorFirst(text, i);
    assert text[..i] == pre + "\n\n";
    assert InsertEntry(text, entry, false) == (pre + "\n\n") + (HistoryAnchor + entry) + first;
  }

  lemma CountSplit(row: Row, poster: string, n: nat, tags: seq<string>, c: string)
    ensures FrontMatterText(row, poster, n, tags) + c
         == (Head(row, poster) + CounterKey) + NatToString(n) + ("\n" + TagBlock(tags) + BlockEnd + c)
  {
  }

  /** Raising the count from 1 to 2 puts no history heading into the text
      before the history. */
  lemma HeadingFreeAtTwo(row: Row, poster: string, tags: seq<string>, c: string)
    requires !Contains(FrontMatterText(row, poster, 1, tags) + c, HistoryMarker)
    ensures !Contains(FrontMatterText(row, poster, 2, tags) + c, HistoryMarker)
  {
    CountSplit(row, poster, 1, tags, c);
    CountSplit(row, poster, 2, tags, c);
    assert NatToString(1) == "1" && NatToString(2) == "2";
    assert '2' !in HistoryMarker;
    NoneAfterSwap(Head(row, poster) + CounterKey, "1", "2", "\n" + TagBlock(tags) + BlockEnd + c, HistoryMarker);
  }

  /** The body of a note after its second watch: the row's content, then a
      history of the new watch followed by the first. */
  function SecondWatchBody(row: Row, date: string, row': Row, date': string): string {
    Get(row, "content") + "\n\n" + HistoryAnchor
    + HistoryEntry(date', Get(row', "Rating"), Get(row', "Review"))
    + HistoryEntry(date, Get(row, "Rating"), Get(row, "Review"))
  }

  /** The whole note after its second watch: the block with `watches: 2`,
      then that body. */
  function SecondWatchNote(row: Row, poster: string, tags: seq<string>, date: string, row': Row, date': string): string {
    FrontMatterText(row, poster, 2, tags) + SecondWatchBody(row, date, row', date')
  }

  /** `appendWatchEntry` on the note `createNewMovieFile` wrote gives the same
      note with `watches: 2` and the new entry first in the history, when
      the header lines hold no closing delimiter and no counter, the tags
      are single lines, nothing before the history holds a history heading,
      the second import brings no poster or the note has one, and the new date
      is not in the note yet. */
  lemma AppendToNewNote(row: Row, poster: string, tags: seq<string>, date: string,
                        row': Row, poster': string, date': string)
    requires !Contains(Head(row, poster), Closing) && !Contains(Head(row, poster), CounterKey)
    requires forall i :: 0 <= i < |tags| ==> '\n' !in tags[i]
    requires !Contains(FrontMatterText(row, poster, 1, tags) + Get(row, "content"), HistoryMarker)
    requires poster' == [] || poster != []
    requires !IsDuplicate(NewDocument(row, poster, tags, date), date')
    ensures AppendWatchEntry(NewDocument(row, poster, tags, date), row', poster', date')
         == Appended(SecondWatchNote(row, poster, tags, date, row', date'))
  {
    var c := Get(row, "content");
    var first := HistoryEntry(date, Get(row, "Rating"), Get(row, "Review"));
    var entry := HistoryEntry(date', Get(row', "Rating"), Get(row', "Review"));
    var fm := FrontMatterText(row, poster, 2, tags);
    var nb := NewBody(c, date, Get(row, "Rating"), Get(row, "Review"));
    assert NewDocument(row, poster, tags, date) == FrontMatterText(row, poster, 1, tags) + nb;
    WrittenFrontMatterStep(row, poster, 1, tags, nb, poster');
    AssocFive(fm, c, "\n\n", HistoryAnchor, first);
    HeadingFreeAtTwo(row, poster, tags, c);
    InsertBeforeFirstEntry(fm + c, first, entry);
    HistoryRegroup(fm, c, "\n\n", HistoryAnchor, entry, first);
  }

  lemma HistoryRegroup<T>(f: seq<T>, c: seq<T>, blank: seq<T>, anchor: seq<T>, e2: seq<T>, e1: seq<T>)
    ensures f + c + blank + anchor + e2 + e1 == f + (c + blank + anchor + e2 + e1)
    ensures f + (c + blank + anchor + e2 + e1) == (f + c) + blank + anchor + (e2 + e1)
  {
  }

  /** The note after a second watch counts two watches. */
  lemma SecondWatchCounter(row: Row, poster: string, tags: seq<string>, date: string, row': Row, date': string)
    requires !Contains(Head(row, poster), CounterKey)
    ensures CounterValue(SecondWatchNote(row, poster, tags, date, row', date')) == Some(2)
  {
    FrontMatterCounter(row, poster, 2, tags, SecondWatchBody(row, date, row', date'));
  }

  /** Its history reads the new watch, then the first. */
  lemma SecondWatchHistory(row: Row, poster: string, tags: seq<string>, date: string, row': Row, date': string)
    requires !Contains(FrontMatterText(row, poster, 1, tags) + Get(row, "content"), HistoryMarker)
    requires '\n' !in date && '\n' !in Get(row, "Rating") && '\n' !in Get(row, "Review")
    requires '\n' !in date' && '\n' !in Get(row', "Rating") && '\n' !in Get(row', "Review")
    ensures ReadHistory(SecondWatchNote(row, poster, tags, date, row', date'))
         == Some([Watch(date', Get(row', "Rating"), Get(row', "Review")), Watch(date, Get(row, "Rating"), Get(row, "Review"))])
  {
    var c := Get(row, "content");
    var first := HistoryEntry(date, Get(row, "Rating"), Get(row, "Review"));
    var entry := HistoryEntry(date', Get(row', "Rating"), Get(row', "Review"));
    var fm := FrontMatterText(row, poster, 2, tags);
    HistoryRegroup(fm, c, "\n\n", HistoryAnchor, entry, first);
    HeadingFreeAtTwo(row, poster, tags, c);
    TwoEntryHistory(fm + c, date', Get(row', "Rating"), Get(row', "Review"), date, Get(row, "Rating"), Get(row, "Review"));
  }

  /** After text without a history heading, a history of two entries reads
      back as those two watches in order. */
  lemma TwoEntryHistory(pre: string, date': string, rating': string, review': string,
                        date: string, rating: string, review: string)
    requires !Contains(pre, HistoryMarker)
    requires '\n' !in date && '\n' !in rating && '\n' !in review
    requires '\n' !in date' && '\n' !in rating' && '\n' !in review'
    ensures ReadHistory(pre + "\n\n" + HistoryAnchor + (HistoryEntry(date', rating', review') + HistoryEntry(date, rating, review)))
         == Some([Watch(date', rating', review'), Watch(date, rating, review)])
  {
    var first := HistoryEntry(date, rating, review);
    var entry := HistoryEntry(date', rating', review');
    HistoryOfBody(pre, entry + first);
    OneEntryRead(date, rating, review);
    EntryThenHistory(date', rating', review', first);
    assert [Watch(date', rating', review')] + [Watch(date, rating, review)]
        == [Watch(date', rating', review'), Watch(date, rating, review)];
  }

  /** A second import of a film whose note the first import wrote: the
      append is done, the counter reads 2, the history reads the new watch
      and then the first one, and the block reads back with the same fields
      and tags. */
  lemma AppendAfterCreate(row: Row, poster: string, tags: seq<string>, date: string,
                          row': Row, poster': string, date': string)
    requires !Contains(Head(row, poster), Closing) && !Contains(Head(row, poster), CounterKey)
    requires forall i :: 0 <= i < |tags| ==> '\n' !in tags[i]
    requires !Contains(FrontMatterText(row, poster, 1, tags) + Get(row, "content"), HistoryMarker)
    requires poster' == [] || poster != []
    requires !IsDuplicate(NewDocument(row, poster, tags, date), date')
    requires '\n' !in date && '\n' !in Get(row, "Rating") && '\n' !in Get(row, "Review")
    requires '\n' !in date' && '\n' !in Get(row', "Rating") && '\n' !in Get(row', "Review")
    ensures var r := AppendWatchEntry(NewDocument(row, poster, tags, date), row', poster', date');
      r.Appended?
      && CounterValue(r.text) == Some(2)
      && ReadHistory(r.text)
         == Some([Watch(date', Get(row', "Rating"), Get(row', "Review")), Watch(date, Get(row, "Rating"), Get(row, "Review"))])
      && (Readable(row, poster, tags) ==>
            ReadNote(r.text) == Some((Filled(row) + PosterField(poster), 2, tags, SecondWatchBody(row, date, row', date'))))
  {
    AppendToNewNote(row, poster, tags, date, row', poster', date');
    SecondWatchCounter(row, poster, tags, date, row', date');
    SecondWatchHistory(row, poster, tags, date, row', date');
    if Readable(row, poster, tags) {
      FrontMatterReadBack(row, poster, 2, tags, SecondWatchBody(row, date, row', date'));
    }
  }
}
