/** `updateMovieFile`: rewriting an existing note from a new row. The front
    matter is written afresh from the row, with the counter one more than
    the first `watches: N` anywhere in the old note (1 when there is none);
    the row's `content` replaces the old body; the old watch history is kept
    verbatim. */
module Update {
  import opened Wrappers
  import opened Text
  import opened Numbers
  import opened Csv
  import opened FrontMatter
  import opened Document

  /** The count the rewritten note carries. */
  function NextWatches(content: string): (n: nat)
    ensures n >= 1
  {
    match CounterValue(content)
    case None => 1
    case Some(c) => c + 1
  }

  /** The match of `(## Watch History.*)` with `.` matching newlines, put
      after a blank line: everything from the first history heading to the
      end; nothing when there is no heading. */
  function HistorySuffix(content: string): string {
    match IndexOf(content, HistoryMarker, 0)
    case None => []
    case Some(i) => "\n\n" + content[i..]
  }

  /** The rewritten note. Read back, its block gives the row's non-empty
      fields, the poster when there is one, the next count and the tags;
      its body is the row's `content` followed by the old history. */
  function UpdateDocument(content: string, row: Row, poster: string, tags: seq<string>): (doc: string)
    ensures Readable(row, poster, tags) ==>
      ReadNote(doc) == Some((Filled(row) + PosterField(poster), NextWatches(content), tags,
                             Get(row, "content") + HistorySuffix(content)))
  {
    var fm := FrontMatterText(row, poster, NextWatches(content), tags);
    var body := Get(row, "content") + HistorySuffix(content);
    assert Readable(row, poster, tags) ==>
        ReadNote(fm + body) == Some((Filled(row) + PosterField(poster), NextWatches(content), tags, body)) by {
      if Readable(row, poster, tags) {
        FrontMatterReadBack(row, poster, NextWatches(content), tags, body);
      }
    }
    Assoc(fm, Get(row, "content"), HistorySuffix(content));
    fm + Get(row, "content") + HistorySuffix(content)
  }

  /** The new note's counter is one more than the old note's first counter,
      or 1 when the old note has none, provided the row's entries and the
      poster do not themselves spell `watches: `. */
  lemma UpdateCounter(content: string, row: Row, poster: string, tags: seq<string>)
    requires !Contains(Head(row, poster), CounterKey)
    ensures CounterValue(UpdateDocument(content, row, poster, tags)) ==
              match CounterValue(content)
              case None => Some(1)
              case Some(c) => Some(c + 1)
  {
    var rest := Get(row, "content") + HistorySuffix(content);
    FrontMatterCounter(row, poster, NextWatches(content), tags, rest);
    Assoc(FrontMatterText(row, poster, NextWatches(content), tags), Get(row, "content"), HistorySuffix(content));
  }

  /** The old history, from its heading to the end of the note, closes the
      new note unchanged; a note without a history heading gets none. */
  lemma UpdateKeepsHistory(content: string, row: Row, poster: string, tags: seq<string>)
    ensures var r := UpdateDocument(content, row, poster, tags);
      match IndexOf(content, HistoryMarker, 0)
      case None => r == FrontMatterText(row, poster, NextWatches(content), tags) + Get(row, "content")
      case Some(i) => |r| >= |content| - i + 2 && r[|r| - (|content| - i) - 2..] == "\n\n" + content[i..]
  {
  }

  /** The new front matter and body depend on the old note only through
      its counter: notes with the same counter and the same history are
      rewritten alike. */
  lemma UpdateDependsOnCounterAndHistory(c1: string, c2: string, row: Row, poster: string, tags: seq<string>)
    requires CounterValue(c1) == CounterValue(c2) && HistorySuffix(c1) == HistorySuffix(c2)
    ensures UpdateDocument(c1, row, poster, tags) == UpdateDocument(c2, row, poster, tags)
  {
    assert NextWatches(c1) == NextWatches(c2);
  }

  /** A history (text starting with the heading) after a blank line, put
      after text without a heading, is found again as the history. */
  lemma HistoryAfterPlainText(pre: string, x: string)
    requires !Contains(pre, HistoryMarker) && OccursAt(x, HistoryMarker, 0)
    ensures HistorySuffix(pre + ("\n\n" + x)) == "\n\n" + x
  {
    var h := "\n\n" + x;
    MarkerNoStraddle(h);
    IndexOfAcrossBoundary(pre, h, HistoryMarker, 0);
    MarkerAfterBlank(x);
    assert (pre + h)[|pre| + 2..] == x;
  }

  /** The body of the rewritten note, the row's content `c` and the old
      history, holds the same watches as the old note, provided `c` has
      no history heading of its own. */
  lemma UpdateKeepsWatches(content: string, c: string)
    requires !Contains(c, HistoryMarker)
    ensures ReadHistory(c + HistorySuffix(content)) == ReadHistory(content)
  {
    match IndexOf(content, HistoryMarker, 0)
    case None =>
      assert c + HistorySuffix(content) == c;
    case Some(i) =>
      var x := content[i..];
      assert x[..|HistoryMarker|] == content[i..i + |HistoryMarker|];
      HistoryFoundAfter(c, x);
      var body := c + ("\n\n" + x);
      assert c + HistorySuffix(content) == body;
      assert body[|c| + 2..] == x;
  }

  /** The quirk behind the proviso of `UpdateTwiceKeepsHistory`: when the
      new block itself spells the history heading (in a field value, say),
      the history a later rewrite keeps starts inside that block, so it is
      longer than the row's `content` and the old history together. */
  lemma UpdateHistoryFromFrontMatter(content: string, row: Row, poster: string, tags: seq<string>)
    requires Contains(FrontMatterText(row, poster, NextWatches(content), tags), HistoryMarker)
    ensures var doc := UpdateDocument(content, row, poster, tags);
      |HistorySuffix(doc)| > |Get(row, "content")| + |HistorySuffix(content)|
  {
    var fm := FrontMatterText(row, poster, NextWatches(content), tags);
    var doc := UpdateDocument(content, row, poster, tags);
    var k := IndexOf(fm, HistoryMarker, 0).value;
    var tail := Get(row, "content") + HistorySuffix(content);
    Assoc(fm, Get(row, "content"), HistorySuffix(content));
    assert doc == fm + tail;
    OccursExtended(fm, tail, HistoryMarker, k);
    var j := IndexOf(doc, HistoryMarker, 0).value;
    assert j <= k;
  }

  lemma OccursExtended(s: string, t: string, pat: string, k: nat)
    requires OccursAt(s, pat, k)
    ensures OccursAt(s + t, pat, k)
  {
    assert (s + t)[k..k + |pat|] == s[k..k + |pat|];
  }

  /** Updating an updated note keeps the same history, provided the new
      front matter and body do not themselves hold a history heading. */
  lemma UpdateTwiceKeepsHistory(content: string, row: Row, poster: string, tags: seq<string>)
    requires !Contains(FrontMatterText(row, poster, NextWatches(content), tags) + Get(row, "content"), HistoryMarker)
    ensures HistorySuffix(UpdateDocument(content, row, poster, tags)) == HistorySuffix(content)
  {
    var pre := FrontMatterText(row, poster, NextWatches(content), tags) + Get(row, "content");
    var h := HistorySuffix(content);
    assert UpdateDocument(content, row, poster, tags) == pre + h;
    if h != [] {
      var i := IndexOf(content, HistoryMarker, 0).value;
      assert content[i..][..|HistoryMarker|] == content[i..i + |HistoryMarker|];
      HistoryAfterPlainText(pre, content[i..]);
    } else {
      assert pre + h == pre;
    }
  }

  /** A note created and then updated counts two watches. */
  lemma UpdateAfterCreate(row: Row, poster: string, tags: seq<string>, date: string,
                          row': Row, poster': string, tags': seq<string>)
    requires !Contains(Head(row, poster), CounterKey) && !Contains(Head(row', poster'), CounterKey)
    ensures CounterValue(UpdateDocument(NewDocument(row, poster, tags, date), row', poster', tags')) == Some(2)
  {
    var doc := NewDocument(row, poster, tags, date);
    var rest := Get(row, "content") + "\n\n" + HistoryAnchor + HistoryEntry(date, Get(row, "Rating"), Get(row, "Review"));
    AssocFive(FrontMatterText(row, poster, 1, tags), Get(row, "content"), "\n\n", HistoryAnchor,
              HistoryEntry(date, Get(row, "Rating"), Get(row, "Review")));
    FrontMatterCounter(row, poster, 1, tags, rest);
    UpdateCounter(doc, row', poster', tags');
  }

}
