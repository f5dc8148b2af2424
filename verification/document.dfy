/** The text of a movie note as `createNewMovieFile` writes it: a YAML
    front-matter block built from the row, the row's `content`, and a
    `## Watch History` section with one entry. Readers for the entry lines
    and the history entry show that nothing written is lost. */
module Document {
  import opened Wrappers
  import opened Text
  import opened Numbers
  import opened Csv
  import opened FrontMatter

  // ---------------------------------------------------------------------
  // Front matter

  /** One `key: 'value'` line, the value in YAML's single-quoted style
      with every `'` doubled. */
  function EntryLine(f: Field): string {
    f.key + ": '" + DoubleChar(f.value, '\'') + "'\n"
  }

  /** The line a field contributes: none for an empty value. */
  function EntryText(f: Field): string {
    if f.value == [] then [] else EntryLine(f)
  }

  /** The entry lines of a row, in row order. */
  function EntryLines(row: Row): string {
    ConcatMap(EntryText, row)
  }

  /** The fields that get a line: those with a non-empty value. */
  function Filled(row: Row): (r: Row)
    ensures |r| <= |row|
    ensures forall i :: 0 <= i < |r| ==> r[i] in row && r[i].value != []
    ensures forall f :: f in row && f.value != [] ==> f in r
  {
    if row == [] then []
    else if row[0].value == [] then Filled(row[1..])
    else [row[0]] + Filled(row[1..])
  }

  /** `poster: '<url>'`, present only for a non-empty URL (which is not
      escaped). */
  function PosterLine(poster: string): string {
    if poster == [] then [] else "poster: '" + poster + "'\n"
  }

  const TagsKey := "tags:\n"
  /** The closing delimiter of the block and the blank line after it. */
  const BlockEnd := "---\n\n"
  const TagBullet := "  - "

  function TagLine(tag: string): string {
    TagBullet + tag + "\n"
  }

  /** The `tags:` list, present only when there are tags. */
  function TagBlock(tags: seq<string>): string {
    if tags == [] then [] else TagsKey + ConcatMap(TagLine, tags)
  }

  /** The lines of the block before the counter. */
  function Head(row: Row, poster: string): string {
    Fence + EntryLines(row) + PosterLine(poster)
  }

  /** The whole front-matter block with the given watch count, followed
      by the blank line both writers put after it. */
  function FrontMatterText(row: Row, poster: string, watches: nat, tags: seq<string>): string {
    Head(row, poster) + CounterKey + NatToString(watches) + "\n" + TagBlock(tags) + BlockEnd
  }

  /** A tag line as the block's body holds it when read up to the closing
      delimiter: the line break before the bullet instead of after the tag. */
  function IndentedTag(tag: string): string {
    "\n" + TagBullet + tag
  }

  /** What follows the counter's digits inside the block: nothing, or the
      `tags:` key and one line per tag. */
  function TagTail(tags: seq<string>): string {
    if tags == [] then [] else "\ntags:" + ConcatMap(IndentedTag, tags)
  }

  /** The text between the opening `---` line and the closing `\n---`. */
  function BlockBody(row: Row, poster: string, watches: nat, tags: seq<string>): string {
    EntryLines(row) + PosterLine(poster) + CounterKey + NatToString(watches) + TagTail(tags)
  }

  // ---------------------------------------------------------------------
  // Watch history

  const HistoryMarker := "## Watch History"
  const HistoryAnchor := "## Watch History\n\n"

  /** One entry of the history: the date heading, then a rating line and a
      review line only when those are non-empty, then a blank line. */
  function HistoryEntry(date: string, rating: string, review: string): string {
    "### " + date + "\n"
    + (if rating != [] then "**Rating:** " + rating + "\n" else [])
    + (if review != [] then "**Review:** " + review + "\n" else [])
    + "\n"
  }

  /** The heading that identifies an entry by its date. */
  function DateHeading(date: string): string {
    "### " + date
  }

  /** The body of a new note: its content, a blank line, the history
      heading and the first entry. */
  function NewBody(content: string, date: string, rating: string, review: string): string {
    content + "\n\n" + HistoryAnchor + HistoryEntry(date, rating, review)
  }

  /** The note for a row: the block with `watches: 1`, then a body that
      holds the row's `content` and a history of the one watch on `date`.
      Read back, the block gives the row's non-empty fields, the poster
      when there is one, the count 1 and the tags, and the history gives
      exactly that watch, with the row's rating and review. */
  function NewDocument(row: Row, poster: string, tags: seq<string>, date: string): (doc: string)
    ensures var body := NewBody(Get(row, "content"), date, Get(row, "Rating"), Get(row, "Review"));
      Readable(row, poster, tags) ==>
        ReadNote(doc) == Some((Filled(row) + PosterField(poster), 1, tags, body))
    ensures var body := NewBody(Get(row, "content"), date, Get(row, "Rating"), Get(row, "Review"));
      ('\n' !in date && '\n' !in Get(row, "Rating") && '\n' !in Get(row, "Review")
       && !Contains(Get(row, "content"), HistoryMarker)) ==>
        ReadHistory(body) == Some([Watch(date, Get(row, "Rating"), Get(row, "Review"))])
  {
    var rating, review := Get(row, "Rating"), Get(row, "Review");
    var body := NewBody(Get(row, "content"), date, rating, review);
    assert Readable(row, poster, tags) ==>
        ReadNote(FrontMatterText(row, poster, 1, tags) + body) == Some((Filled(row) + PosterField(poster), 1, tags, body)) by {
      if Readable(row, poster, tags) {
        FrontMatterReadBack(row, poster, 1, tags, body);
      }
    }
    assert ('\n' !in date && '\n' !in rating && '\n' !in review && !Contains(Get(row, "content"), HistoryMarker)) ==>
        ReadHistory(body) == Some([Watch(date, rating, review)]) by {
      if '\n' !in date && '\n' !in rating && '\n' !in review && !Contains(Get(row, "content"), HistoryMarker) {
        OneEntryHistory(Get(row, "content"), date, rating, review);
      }
    }
    FrontMatterText(row, poster, 1, tags) + body
  }

  /** The date the note-writer reads: `Watched Date`, else `Date`. */
  function CreatedDate(row: Row): string {
    GetFirst(row, ["Watched Date", "Date"])
  }

  /** The date the import loop reads: `Watched Date`, else `Date`, else
      `date`. */
  function WatchedDate(row: Row): string {
    GetFirst(row, ["Watched Date", "Date", "date"])
  }

  /** The note as the source writes it, with the note-writer's own,
      narrower choice of date column. */
  function NewDocumentAsWritten(row: Row, poster: string, tags: seq<string>): string {
    NewDocument(row, poster, tags, CreatedDate(row))
  }

  // ---------------------------------------------------------------------
  // Properties of a new note

  /** A new note opens the front-matter block and carries the entry of its
      date, so a later append of the same date is recognised. */
  lemma NewDocumentShape(row: Row, poster: string, tags: seq<string>, date: string)
    ensures var doc := NewDocument(row, poster, tags, date);
      |doc| >= 4 && doc[..4] == Fence && Contains(doc, DateHeading(date))
      && Contains(doc, HistoryAnchor)
  {
    var fm := FrontMatterText(row, poster, 1, tags);
    var pre := fm + Get(row, "content") + "\n\n";
    var entry := HistoryEntry(date, Get(row, "Rating"), Get(row, "Review"));
    var doc := NewDocument(row, poster, tags, date);
    AssocFive(fm, Get(row, "content"), "\n\n", HistoryAnchor, entry);
    assert doc == pre + HistoryAnchor + entry;
    ContainsInfix(pre, HistoryAnchor, entry);
    EntryStartsWithHeading(date, Get(row, "Rating"), Get(row, "Review"));
    var more := entry[|DateHeading(date)|..];
    assert entry == DateHeading(date) + more;
    Assoc(pre + HistoryAnchor, DateHeading(date), more);
    ContainsInfix(pre + HistoryAnchor, DateHeading(date), more);
    assert doc[..4] == Fence by {
      FrontMatterStartsWithFence(row, poster, 1, tags);
    }
  }

  lemma EntryStartsWithHeading(date: string, rating: string, review: string)
    ensures var e := HistoryEntry(date, rating, review);
      |e| >= |DateHeading(date)| && e[..|DateHeading(date)|] == DateHeading(date)
  {
    var h := DateHeading(date);
    var e := HistoryEntry(date, rating, review);
    assert e[..|h|] == h;
  }

  lemma FrontMatterStartsWithFence(row: Row, poster: string, watches: nat, tags: seq<string>)
    ensures forall rest :: var s := FrontMatterText(row, poster, watches, tags) + rest;
      |s| >= 4 && s[..4] == Fence
  {
  }

  /** The counter of a block is the count it was written with, provided
      nothing before it (row fields, poster) spells `watches: `. */
  lemma FrontMatterCounter(row: Row, poster: string, watches: nat, tags: seq<string>, rest: string)
    requires !Contains(Head(row, poster), CounterKey)
    ensures CounterValue(FrontMatterText(row, poster, watches, tags) + rest) == Some(watches)
  {
    var h, n := Head(row, poster), NatToString(watches);
    var tail := "\n" + TagBlock(tags) + BlockEnd + rest;
    var t := CounterKey + n + tail;
    assert FrontMatterText(row, poster, watches, tags) + rest == h + t by {
      CounterLineSplit(h, n, TagBlock(tags), rest);
    }
    CounterLineValue(watches, tail);
    assert t[..|CounterKey|] == CounterKey;
    assert t[|CounterKey|] == n[0];
    CounterAfterPlainText(h, t);
  }

  lemma CounterLineSplit(h: string, n: string, tb: string, rest: string)
    ensures h + CounterKey + n + "\n" + tb + BlockEnd + rest
         == h + (CounterKey + n + ("\n" + tb + BlockEnd + rest))
  {
  }

  // ---------------------------------------------------------------------
  // The block's body

  /** The written block is the opening delimiter, the body, the closing
      delimiter and the blank line. */
  lemma BlockOfBody(row: Row, poster: string, watches: nat, tags: seq<string>)
    ensures FrontMatterText(row, poster, watches, tags)
         == Fence + BlockBody(row, poster, watches, tags) + Closing + "\n\n"
  {
    var lines := EntryLines(row) + PosterLine(poster) + CounterKey + NatToString(watches);
    TagTailEnd(tags);
    Regroup(Fence, EntryLines(row), PosterLine(poster), CounterKey, NatToString(watches), "\n", TagBlock(tags), BlockEnd);
    Assoc(Fence + lines, TagTail(tags), Closing);
    Assoc(Fence + lines, TagTail(tags) + Closing, "\n\n");
  }

  lemma Regroup<T>(f: seq<T>, e: seq<T>, p: seq<T>, k: seq<T>, n: seq<T>, nl: seq<T>, tb: seq<T>, be: seq<T>)
    ensures f + e + p + k + n + nl + tb + be == f + (e + p + k + n) + (nl + tb + be)
  {
  }

  /** The tag lines end in a line break; moved to the front of each line,
      the same breaks leave one over at the end. */
  lemma {:induction false} TagLinesShift(tags: seq<string>)
    ensures "\n" + ConcatMap(TagLine, tags) == ConcatMap(IndentedTag, tags) + "\n"
    decreases |tags|
  {
    if tags != [] {
      var b := TagBullet + tags[0];
      var rest := ConcatMap(TagLine, tags[1..]);
      TagLinesShift(tags[1..]);
      assert TagLine(tags[0]) == b + "\n" && IndentedTag(tags[0]) == "\n" + b;
      calc {
        "\n" + ConcatMap(TagLine, tags);
        "\n" + (b + "\n" + rest);
        { MoveBreak("\n", b, rest); }
        ("\n" + b) + ("\n" + rest);
        ("\n" + b) + (ConcatMap(IndentedTag, tags[1..]) + "\n");
        { Assoc("\n" + b, ConcatMap(IndentedTag, tags[1..]), "\n"); }
        ConcatMap(IndentedTag, tags) + "\n";
      }
    }
  }

  lemma MoveBreak<T>(nl: seq<T>, b: seq<T>, rest: seq<T>)
    ensures nl + (b + nl + rest) == (nl + b) + (nl + rest)
  {
  }

  /** After the counter's digits, the written block reads as the tag tail,
      the closing delimiter and the blank line. */
  lemma TagTailEnd(tags: seq<string>)
    ensures "\n" + TagBlock(tags) + BlockEnd == TagTail(tags) + Closing + "\n\n"
  {
    if tags != [] {
      var lines := ConcatMap(TagLine, tags);
      var indented := ConcatMap(IndentedTag, tags);
      TagLinesShift(tags);
      assert TagsKey == "tags:" + "\n" && "\ntags:" == "\n" + "tags:";
      assert Closing + "\n\n" == "\n" + BlockEnd;
      calc {
        "\n" + TagBlock(tags) + BlockEnd;
        "\n" + ("tags:" + "\n" + lines) + BlockEnd;
        { MoveBreak("\n", "tags:", lines); }
        ("\n" + "tags:") + ("\n" + lines) + BlockEnd;
        ("\n" + "tags:") + (indented + "\n") + BlockEnd;
        { Regroup([], "\ntags:", indented, [], [], "\n", BlockEnd, []); }
        ("\ntags:" + indented) + ("\n" + BlockEnd);
        { Assoc(TagTail(tags), Closing, "\n\n"); }
        TagTail(tags) + Closing + "\n\n";
      }
    }
  }

  /** Tag lines hold no closing delimiter when no tag holds a line break. */
  lemma {:induction false} IndentedTagsNoClosing(tags: seq<string>)
    requires forall i :: 0 <= i < |tags| ==> '\n' !in tags[i]
    ensures !Contains(ConcatMap(IndentedTag, tags), Closing)
    ensures tags != [] ==> NoStraddle(ConcatMap(IndentedTag, tags), Closing)
    decreases |tags|
  {
    if tags != [] {
      var b := TagBullet + tags[0];
      var rest := ConcatMap(IndentedTag, tags[1..]);
      IndentedTagsNoClosing(tags[1..]);
      assert '\n' !in b && b[0] != '-';
      LineWithoutClosing(b);
      assert IndentedTag(tags[0]) == "\n" + b;
      NoneAcross("\n" + b, rest, Closing);
      assert ConcatMap(IndentedTag, tags)[0] == '\n';
    }
  }

  /** Nor does the tag tail. */
  lemma TagTailNoClosing(tags: seq<string>)
    requires forall i :: 0 <= i < |tags| ==> '\n' !in tags[i]
    ensures !Contains(TagTail(tags), Closing)
    ensures tags != [] ==> TagTail(tags)[0] == '\n'
  {
    if tags != [] {
      IndentedTagsNoClosing(tags);
      LineWithoutClosing("tags:");
      assert "\ntags:" == "\n" + "tags:";
      NoneAcross("\ntags:", ConcatMap(IndentedTag, tags), Closing);
    }
  }

  /** The body holds no closing delimiter when the header lines and the
      tags hold none, so the block ends where the writer closed it. */
  lemma BodyNoClosing(row: Row, poster: string, watches: nat, tags: seq<string>)
    requires !Contains(Head(row, poster), Closing)
    requires forall i :: 0 <= i < |tags| ==> '\n' !in tags[i]
    ensures !Contains(BlockBody(row, poster, watches, tags), Closing)
  {
    BodyPieces(row, poster, watches, tags);
    TagTailNoClosing(tags);
    CounterLineWithoutBreak(watches);
    PiecesNoClosing(EntryLines(row) + PosterLine(poster), CounterKey + NatToString(watches), TagTail(tags));
  }

  lemma BodyPieces(row: Row, poster: string, watches: nat, tags: seq<string>)
    ensures Head(row, poster) == Fence + (EntryLines(row) + PosterLine(poster))
    ensures BlockBody(row, poster, watches, tags)
         == (EntryLines(row) + PosterLine(poster)) + ((CounterKey + NatToString(watches)) + TagTail(tags))
  {
    var h := EntryLines(row) + PosterLine(poster);
    Assoc(h, CounterKey, NatToString(watches));
    Assoc(h, CounterKey + NatToString(watches), TagTail(tags));
  }

  lemma PiecesNoClosing(h: string, num: string, tail: string)
    requires !Contains(Fence + h, Closing) && !Contains(tail, Closing)
    requires '\n' !in num && num != [] && num[0] == 'w'
    ensures !Contains(h + (num + tail), Closing)
  {
    NoneInSuffix(Fence, h, Closing);
    NoneAfterPlain(num, tail, Closing);
    assert (num + tail)[0] == 'w';
    NoneAcross(h, num + tail, Closing);
  }

  lemma CounterLineWithoutBreak(watches: nat)
    ensures '\n' !in CounterKey + NatToString(watches)
  {
    var n := NatToString(watches);
    assert '\n' !in n by {
      forall k | 0 <= k < |n| ensures n[k] != '\n' {
        assert IsDigit(n[k]);
      }
    }
    assert '\n' !in CounterKey;
  }

  // ---------------------------------------------------------------------
  // Reading the entry lines back

  /** The first `:` at or after `i`, or the end. */
  function KeyEnd(s: string, i: nat): (k: nat)
    requires i <= |s|
    ensures i <= k <= |s| && (k < |s| ==> s[k] == ':')
    ensures forall j :: i <= j < k ==> s[j] != ':'
    decreases |s| - i
  {
    if i == |s| || s[i] == ':' then i else KeyEnd(s, i + 1)
  }

  /** YAML's single-quoted scalar (section 7.3.2 of YAML 1.2), read from
      just after the opening quote: a doubled `'` is one quote, a lone one
      closes the scalar. Gives the value and what follows the closing
      quote. */
  function ReadQuoted(s: string): (r: Option<(string, string)>)
    ensures r.Some? ==> |r.value.1| < |s|
    decreases |s|
  {
    if s == [] then None
    else if s[0] == '\'' then
      if |s| > 1 && s[1] == '\'' then
        match ReadQuoted(s[2..])
        case None => None
        case Some((v, rest)) => Some((['\''] + v, rest))
      else Some(([], s[1..]))
    else
      match ReadQuoted(s[1..])
      case None => None
      case Some((v, rest)) => Some(([s[0]] + v, rest))
  }

  /** Reads `key: 'value'` lines until the counter line `watches: N`
      begins. Gives the fields and the text from the counter line on. */
  function ReadFields(s: string): Option<(Row, string)>
    decreases |s|
  {
    if CounterAt(s, 0) then Some(([], s))
    else
      var k := KeyEnd(s, 0);
      if k + 3 > |s| || s[k..k + 3] != ": '" then None
      else
        match ReadQuoted(s[k + 3..])
        case None => None
        case Some((v, rest)) =>
          if rest == [] || rest[0] != '\n' then None
          else
            match ReadFields(rest[1..])
            case None => None
            case Some((fs, tail)) => Some(([Field(s[..k], v)] + fs, tail))
  }

  /** An escaped value followed by the closing quote reads back as the
      value, whatever follows that does not start with another quote. */
  lemma {:induction false} ReadQuotedRoundTrip(v: string, rest: string)
    requires rest == [] || rest[0] != '\''
    ensures ReadQuoted(DoubleChar(v, '\'') + "'" + rest) == Some((v, rest))
    decreases |v|
  {
    var s := DoubleChar(v, '\'') + "'" + rest;
    if v == [] {
      assert s == "'" + rest && s[1..] == rest;
    } else {
      ReadQuotedRoundTrip(v[1..], rest);
      var tail := DoubleChar(v[1..], '\'') + "'" + rest;
      var h := if v[0] == '\'' then "''" else [v[0]];
      assert DoubleChar(v, '\'') == h + DoubleChar(v[1..], '\'');
      assert s == h + tail;
      if v[0] == '\'' {
        assert s[2..] == tail;
      } else {
        assert s[1..] == tail;
      }
      assert v == [v[0]] + v[1..];
    }
  }

  /** One entry line is read back as its field, in front of whatever the
      lines after it read as. */
  lemma ReadEntryLine(f: Field, rest: string)
    requires ':' !in f.key
    ensures ReadFields(EntryLine(f) + rest) ==
              match ReadFields(rest)
              case None => None
              case Some((fs, tail)) => Some(([f] + fs, tail))
  {
    var d := DoubleChar(f.value, '\'');
    var after := "\n" + rest;
    var w := d + "'" + after;
    var s := EntryLine(f) + rest;
    EntryLineSplit(f.key, d, rest);
    assert s == f.key + (": '" + w);
    KeyEndAfter(f.key, ": '" + w);
    EntryLineNotCounter(f.key, ": '" + w);
    var k := |f.key|;
    assert s[..k] == f.key && s[k..k + 3] == ": '" && s[k + 3..] == w;
    ReadQuotedRoundTrip(f.value, after);
    assert after[1..] == rest;
  }

  lemma EntryLineSplit(key: string, d: string, rest: string)
    ensures key + ": '" + d + "'\n" + rest == key + (": '" + (d + "'" + ("\n" + rest)))
  {
  }

  lemma KeyEndAfter(key: string, u: string)
    requires ':' !in key && u != [] && u[0] == ':'
    ensures KeyEnd(key + u, 0) == |key|
  {
    var s := key + u;
    forall j | 0 <= j < |key| ensures s[j] != ':' {
      assert s[j] == key[j];
    }
    assert s[|key|] == ':';
  }

  /** An entry line is never taken for the counter line: its key has no
      colon, and the key `watches` is followed by a quote, not a digit. */
  lemma EntryLineNotCounter(key: string, u: string)
    requires ':' !in key && |u| >= 3 && u[..3] == ": '"
    ensures !CounterAt(key + u, 0)
  {
    var s := key + u;
    var n := |CounterKey|;
    assert s[|key|] == ':' && s[|key| + 1] == ' ' && s[|key| + 2] == '\'';
    if |key| < 7 {
      assert CounterKey[|key|] != ':';
      assert n <= |s| ==> s[..n][|key|] == s[|key|];
    } else if |key| > 7 {
      assert key[7] in key;
      assert s[7] == key[7];
      assert n <= |s| ==> s[..n][7] == s[7];
    } else {
      assert s[n] == '\'';
    }
  }

  /** Reading the entry lines gives back every field with a non-empty
      value, in row order: one line per such field and nothing else. The
      counter line that follows is left unread. */
  lemma {:induction false} EntryLinesRoundTrip(row: Row, rest: string)
    requires forall i :: 0 <= i < |row| ==> ':' !in row[i].key
    requires CounterAt(rest, 0)
    ensures ReadFields(EntryLines(row) + rest) == Some((Filled(row), rest))
    decreases |row|
  {
    if row == [] {
      assert EntryLines(row) + rest == rest;
    } else {
      EntryLinesRoundTrip(row[1..], rest);
      assert EntryLines(row) == EntryText(row[0]) + EntryLines(row[1..]);
      Assoc(EntryText(row[0]), EntryLines(row[1..]), rest);
      if row[0].value != [] {
        ReadEntryLine(row[0], EntryLines(row[1..]) + rest);
      } else {
        assert EntryText(row[0]) == [];
        assert EntryText(row[0]) + (EntryLines(row[1..]) + rest) == EntryLines(row[1..]) + rest;
      }
    }
  }

  /** Keeping the filled fields commutes with concatenation, so the entry
      lines come in row order. */
  lemma {:induction false} FilledConcat(a: Row, b: Row)
    ensures Filled(a + b) == Filled(a) + Filled(b)
    decreases |a|
  {
    if a == [] {
      assert a + b == b;
    } else {
      FilledConcat(a[1..], b);
      FilledStep(a, b);
      Assoc(if a[0].value == [] then [] else [a[0]], Filled(a[1..]), Filled(b));
    }
  }

  lemma FilledStep(a: Row, b: Row)
    requires a != []
    ensures var h := if a[0].value == [] then [] else [a[0]];
      Filled(a + b) == h + Filled(a[1..] + b) && Filled(a) == h + Filled(a[1..])
  {
    ConcatHeadTail(a, b);
  }

  // ---------------------------------------------------------------------
  // Reading a whole front-matter block back

  /** The poster line reads as a field named `poster`, present exactly
      when there is a poster URL. */
  function PosterField(poster: string): Row {
    if poster == [] then [] else [Field("poster", poster)]
  }

  /** Reads the counter line `watches: N`: gives N and the text after the
      line. */
  function ReadCounter(s: string): Option<(nat, string)> {
    if !CounterAt(s, 0) then None
    else
      var i := |CounterKey|;
      var j := DigitRunEnd(s, i);
      if j < |s| && s[j] == '\n' then Some((DigitsValue(s[i..j]), s[j + 1..])) else None
  }

  /** Reads `  - tag` lines. */
  function ReadTagLines(s: string): Option<(seq<string>, string)>
    decreases |s|
  {
    if !StartsWith(s, TagBullet) then Some(([], s))
    else
      match ReadLine(s[4..])
      case None => None
      case Some((t, rest)) =>
        match ReadTagLines(rest)
        case None => None
        case Some((ts, tail)) => Some(([t] + ts, tail))
  }

  /** Reads the `tags:` list; no list reads as no tags. */
  function ReadTags(s: string): Option<(seq<string>, string)> {
    if StartsWith(s, TagsKey) then ReadTagLines(s[|TagsKey|..]) else Some(([], s))
  }

  /** Reads a note: the fence, the field lines, the counter line, the tag
      list and the closing `---` with the blank line after it. Gives the
      fields, the count, the tags and the body that follows. */
  function ReadNote(s: string): Option<(Row, nat, seq<string>, string)> {
    if !StartsWith(s, Fence) then None
    else
      match ReadFields(s[4..])
      case None => None
      case Some((fs, s1)) =>
        match ReadCounter(s1)
        case None => None
        case Some((n, s2)) =>
          match ReadTags(s2)
          case None => None
          case Some((ts, s3)) =>
            if StartsWith(s3, BlockEnd) then Some((fs, n, ts, s3[|BlockEnd|..])) else None
  }

  /** What the readers need of a block: keys without `:` (the key ends at
      the first colon), a poster URL without `'` (it is written unescaped)
      and tags without line breaks. */
  predicate Readable(row: Row, poster: string, tags: seq<string>) {
    (forall i :: 0 <= i < |row| ==> ':' !in row[i].key)
    && '\'' !in poster
    && (forall i :: 0 <= i < |tags| ==> '\n' !in tags[i])
  }

  /** A front-matter block reads back as the row's non-empty fields in row
      order, then the poster exactly when there is one, the count it was
      written with and the tags; the body after it is left as it is. */
  lemma FrontMatterReadBack(row: Row, poster: string, n: nat, tags: seq<string>, body: string)
    requires Readable(row, poster, tags)
    ensures ReadNote(FrontMatterText(row, poster, n, tags) + body)
         == Some((Filled(row) + PosterField(poster), n, tags, body))
  {
    var pf := Field("poster", poster);
    var lines := EntryLines(row + [pf]);
    var d := NatToString(n);
    var closing := BlockEnd + body;
    var tail := TagBlock(tags) + closing;
    var c := CounterKey + d + "\n" + tail;
    var s := FrontMatterText(row, poster, n, tags) + body;
    PosterLineIsEntry(row, poster);
    BlockSplit(Fence, EntryLines(row), PosterLine(poster), CounterKey, d, "\n", TagBlock(tags), BlockEnd, body);
    assert s == Fence + (lines + c);
    StartsAfter(Fence, lines + c);
    CounterLineStarts(d, tail);
    assert ':' !in pf.key;
    EntryLinesRoundTrip(row + [pf], c);
    FilledConcat(row, [pf]);
    assert Filled([pf]) == PosterField(poster);
    CounterLineRead(n, tail);
    TagBlockRoundTrip(tags, closing);
    StartsAfter(BlockEnd, body);
  }

  /** A text opens with its first part, and what follows it is the rest. */
  lemma StartsAfter(p: string, rest: string)
    ensures StartsWith(p + rest, p) && (p + rest)[|p|..] == rest
  {
  }

  lemma CounterLineStarts(d: string, tail: string)
    requires d != [] && AllDigits(d)
    ensures CounterAt(CounterKey + d + "\n" + tail, 0)
  {
    var c := CounterKey + d + "\n" + tail;
    assert c[..|CounterKey|] == CounterKey && c[|CounterKey|] == d[0];
  }

  lemma BlockSplit<T>(f: seq<T>, e: seq<T>, p: seq<T>, k: seq<T>, d: seq<T>, nl: seq<T>, tb: seq<T>, cl: seq<T>, body: seq<T>)
    ensures f + e + p + k + d + nl + tb + cl + body == f + (e + p + (k + d + nl + (tb + (cl + body))))
  {
  }

  /** The poster line is the entry line of a `poster` field, since the URL
      holds no quote to escape. */
  lemma PosterLineIsEntry(row: Row, poster: string)
    requires '\'' !in poster
    ensures EntryLines(row) + PosterLine(poster) == EntryLines(row + [Field("poster", poster)])
  {
    var pf := Field("poster", poster);
    PosterEntryText(poster);
    ConcatMapAppend(EntryText, row, [pf]);
    ConcatMapOne(EntryText, pf);
  }

  lemma PosterEntryText(poster: string)
    requires '\'' !in poster
    ensures PosterLine(poster) == EntryText(Field("poster", poster))
  {
    DoubleCharIdentity(poster, '\'');
  }

  lemma ConcatMapOne<A, B>(f: A -> seq<B>, x: A)
    ensures ConcatMap(f, [x]) == f(x)
  {
    assert [x][1..] == [];
    assert ConcatMap(f, [x]) == f(x) + ConcatMap(f, []);
  }

  /** The counter line reads back as the count it was written with. */
  lemma CounterLineRead(n: nat, rest: string)
    ensures ReadCounter(CounterKey + NatToString(n) + "\n" + rest) == Some((n, rest))
  {
    var d := NatToString(n);
    var t := CounterKey + d + "\n" + rest;
    var i := |CounterKey|;
    assert t[..i] == CounterKey;
    assert t[i] == d[0];
    assert t[i..i + |d|] == d;
    assert t[i + |d|] == '\n';
    DigitRunEndUnique(t, i, i + |d|);
    NatToStringRoundTrip(n);
    assert t[i + |d| + 1..] == rest;
  }

  /** The tag lines read back as the tags, and reading stops at the first
      line that is not a tag line. */
  lemma {:induction false} TagLinesRoundTrip(tags: seq<string>, rest: string)
    requires forall i :: 0 <= i < |tags| ==> '\n' !in tags[i]
    requires !StartsWith(rest, TagBullet)
    ensures ReadTagLines(ConcatMap(TagLine, tags) + rest) == Some((tags, rest))
    decreases |tags|
  {
    if tags == [] {
      assert ConcatMap(TagLine, tags) + rest == rest;
    } else {
      TagLinesRoundTrip(tags[1..], rest);
      var more := ConcatMap(TagLine, tags[1..]) + rest;
      var s := ConcatMap(TagLine, tags) + rest;
      TagLineSplit(tags[0], ConcatMap(TagLine, tags[1..]), rest);
      assert ConcatMap(TagLine, tags) == TagLine(tags[0]) + ConcatMap(TagLine, tags[1..]);
      assert s == TagBullet + (tags[0] + "\n" + more);
      assert s[..4] == TagBullet && s[4..] == tags[0] + "\n" + more;
      ReadLineRoundTrip(tags[0], more);
      assert tags == [tags[0]] + tags[1..];
    }
  }

  lemma TagLineSplit(t: string, lines: string, rest: string)
    ensures TagLine(t) + lines + rest == TagBullet + (t + "\n" + (lines + rest))
  {
  }

  lemma TagBlockRoundTrip(tags: seq<string>, rest: string)
    requires forall i :: 0 <= i < |tags| ==> '\n' !in tags[i]
    requires rest != [] && rest[0] == '-'
    ensures ReadTags(TagBlock(tags) + rest) == Some((tags, rest))
  {
    assert !StartsWith(rest, TagBullet) by {
      assert TagBullet[0] == ' ';
    }
    if tags == [] {
      NoTagList(rest);
    } else {
      TagLinesRoundTrip(tags, rest);
      TagListRead(ConcatMap(TagLine, tags), rest);
    }
  }

  lemma NoTagList(rest: string)
    requires rest != [] && rest[0] == '-'
    ensures ReadTags(TagBlock([]) + rest) == Some(([], rest))
  {
    assert TagBlock([]) + rest == rest;
    assert !StartsWith(rest, TagsKey) by {
      assert TagsKey[0] == 't';
    }
  }

  lemma TagListRead(lines: string, rest: string)
    ensures StartsWith(TagsKey + lines + rest, TagsKey)
    ensures (TagsKey + lines + rest)[|TagsKey|..] == lines + rest
  {
  }

  // ---------------------------------------------------------------------
  // Reading a history entry back

  /** The text up to the first newline, and what follows the newline. */
  function ReadLine(s: string): (r: Option<(string, string)>)
    ensures r.Some? ==> '\n' !in r.value.0 && s == r.value.0 + "\n" + r.value.1
    decreases |s|
  {
    if s == [] then None
    else if s[0] == '\n' then Some(([], s[1..]))
    else
      match ReadLine(s[1..])
      case None => None
      case Some((l, rest)) => Some(([s[0]] + l, rest))
  }

  lemma {:induction false} ReadLineRoundTrip(l: string, rest: string)
    requires '\n' !in l
    ensures ReadLine(l + "\n" + rest) == Some((l, rest))
    decreases |l|
  {
    var s := l + "\n" + rest;
    if l == [] {
      assert s[1..] == rest;
    } else {
      assert s[1..] == l[1..] + "\n" + rest;
      assert l[0] in l;
      assert forall c :: c in l[1..] ==> c in l;
      ReadLineRoundTrip(l[1..], rest);
      assert l == [l[0]] + l[1..];
    }
  }

  predicate StartsWith(s: string, p: string) {
    |p| <= |s| && s[..|p|] == p
  }

  /** Reads one history entry: the date heading, an optional rating line,
      an optional review line and the blank line. Gives the date, rating,
      review and what follows. */
  function ReadHistoryEntry(s: string): (r: Option<(string, string, string, string)>)
    ensures r.Some? ==> |r.value.3| < |s|
  {
    if !StartsWith(s, "### ") then None
    else
      match ReadLine(s[4..])
      case None => None
      case Some((date, s1)) =>
        match ReadTagged(s1, "**Rating:** ")
        case None => None
        case Some((rating, s2)) =>
          match ReadTagged(s2, "**Review:** ")
          case None => None
          case Some((review, s3)) =>
            if s3 != [] && s3[0] == '\n' then Some((date, rating, review, s3[1..])) else None
  }

  /** An optional line that starts with `tag`: its text, or the empty
      text when the line is not there. */
  function ReadTagged(s: string, tag: string): (r: Option<(string, string)>)
    ensures r.Some? ==> |r.value.1| <= |s|
  {
    if StartsWith(s, tag) then ReadLine(s[|tag|..]) else Some(([], s))
  }

  lemma ReadTaggedRoundTrip(tag: string, v: string, rest: string)
    requires '\n' !in v && (v != [] || !StartsWith(rest, tag))
    ensures ReadTagged((if v != [] then tag + v + "\n" else []) + rest, tag) == Some((v, rest))
  {
    if v != [] {
      var s := tag + v + "\n" + rest;
      assert s[..|tag|] == tag;
      assert s[|tag|..] == v + "\n" + rest;
      ReadLineRoundTrip(v, rest);
    } else {
      assert ([] + rest) == rest;
    }
  }

  /** A history entry reads back as its date, rating and review, so the
      rating and review lines are there exactly when those are
      non-empty. */
  lemma HistoryEntryRoundTrip(date: string, rating: string, review: string, rest: string)
    requires '\n' !in date && '\n' !in rating && '\n' !in review
    ensures ReadHistoryEntry(HistoryEntry(date, rating, review) + rest) == Some((date, rating, review, rest))
  {
    var ra := if rating != [] then "**Rating:** " + rating + "\n" else [];
    var re := if review != [] then "**Review:** " + review + "\n" else [];
    var s3 := "\n" + rest;
    var s1 := ra + (re + s3);
    var s := HistoryEntry(date, rating, review) + rest;
    EntrySplit(date, ra, re, rest);
    assert s[..4] == "### " && s[4..] == date + "\n" + s1;
    ReadLineRoundTrip(date, s1);
    ReadRatingReview(rating, review, rest);
    assert s3[1..] == rest;
  }

  lemma ReadRatingReview(rating: string, review: string, rest: string)
    requires '\n' !in rating && '\n' !in review
    ensures var ra := if rating != [] then "**Rating:** " + rating + "\n" else [];
      var re := if review != [] then "**Review:** " + review + "\n" else [];
      ReadTagged(ra + (re + ("\n" + rest)), "**Rating:** ") == Some((rating, re + ("\n" + rest)))
      && ReadTagged(re + ("\n" + rest), "**Review:** ") == Some((review, "\n" + rest))
  {
    var re := if review != [] then "**Review:** " + review + "\n" else [];
    var s3 := "\n" + rest;
    var s2 := re + s3;
    assert !StartsWith(s3, "**Review:** ") by {
      assert s3[0] == '\n';
    }
    ReadTaggedRoundTrip("**Review:** ", review, s3);
    if rating == [] {
      assert !StartsWith(s2, "**Rating:** ") by {
        if review != [] {
          assert s2[3] == 'e';
        } else {
          assert s2[0] == '\n';
        }
      }
    }
    ReadTaggedRoundTrip("**Rating:** ", rating, s2);
  }

  lemma EntrySplit(date: string, ra: string, re: string, rest: string)
    ensures "### " + date + "\n" + ra + re + "\n" + rest
         == "### " + (date + "\n" + (ra + (re + ("\n" + rest))))
  {
  }

  // ---------------------------------------------------------------------
  // Finding the history heading

  /** `HistoryMarker` holds no newline, so no occurrence of it can start
      before a blank line and end after it. */
  lemma MarkerNoStraddle(t: string)
    requires t != [] && t[0] == '\n'
    ensures NoStraddle(t, HistoryMarker)
  {
  }

  lemma MarkerAfterBlank(x: string)
    requires OccursAt(x, HistoryMarker, 0)
    ensures IndexOf("\n\n" + x, HistoryMarker, 0) == Some(2)
  {
    var h := "\n\n" + x;
    OccursAfterBoundary("\n\n", x, HistoryMarker, 0);
    assert HistoryMarker[0] == '#';
    if OccursAt(h, HistoryMarker, 0) {
      OpensWith(h, HistoryMarker, 0);
    }
    if OccursAt(h, HistoryMarker, 1) {
      OpensWith(h, HistoryMarker, 1);
    }
  }

  lemma OpensWith(s: string, pat: string, i: nat)
    requires pat != [] && OccursAt(s, pat, i)
    ensures s[i] == pat[0]
  {
    assert s[i..i + |pat|][0] == s[i];
  }

  // ---------------------------------------------------------------------
  // Reading the history back

  /** A watch recorded in the history. */
  datatype Watch = Watch(date: string, rating: string, review: string)

  /** The entries that make up the whole of `s`, in order. */
  function ReadHistoryEntries(s: string): Option<seq<Watch>>
    decreases |s|
  {
    if s == [] then Some([])
    else
      match ReadHistoryEntry(s)
      case None => None
      case Some((date, rating, review, rest)) =>
        match ReadHistoryEntries(rest)
        case None => None
        case Some(ws) => Some([Watch(date, rating, review)] + ws)
  }

  /** The watches of a note body: the entries after its first history
      heading, which must be followed by a blank line. */
  function ReadHistory(body: string): Option<seq<Watch>> {
    match IndexOf(body, HistoryMarker, 0)
    case None => None
    case Some(i) => HistoryAt(body[i..])
  }

  /** The entries of a history that starts at the front of `x`. */
  function HistoryAt(x: string): Option<seq<Watch>> {
    if StartsWith(x, HistoryAnchor) then ReadHistoryEntries(x[|HistoryAnchor|..]) else None
  }

  /** The first history heading of text without one, a blank line and a
      history is the history's own. */
  lemma HistoryFoundAfter(pre: string, x: string)
    requires !Contains(pre, HistoryMarker) && OccursAt(x, HistoryMarker, 0)
    ensures IndexOf(pre + ("\n\n" + x), HistoryMarker, 0) == Some(|pre| + 2)
  {
    var h := "\n\n" + x;
    MarkerNoStraddle(h);
    IndexOfAcrossBoundary(pre, h, HistoryMarker, 0);
    MarkerAfterBlank(x);
  }

  /** The body of a new note reads back as a history of its one watch,
      provided its content holds no history heading of its own. */
  lemma OneEntryHistory(content: string, date: string, rating: string, review: string)
    requires '\n' !in date && '\n' !in rating && '\n' !in review
    requires !Contains(content, HistoryMarker)
    ensures ReadHistory(NewBody(content, date, rating, review)) == Some([Watch(date, rating, review)])
  {
    HistoryOfBody(content, HistoryEntry(date, rating, review));
    OneEntryRead(date, rating, review);
  }

  /** Text without a history heading, a blank line, the heading and the
      entries: the history read back is the entries'. */
  lemma HistoryOfBody(pre: string, entries: string)
    requires !Contains(pre, HistoryMarker)
    ensures ReadHistory(pre + "\n\n" + HistoryAnchor + entries) == ReadHistoryEntries(entries)
  {
    var x := HistoryAnchor + entries;
    var body := pre + "\n\n" + HistoryAnchor + entries;
    var i := |pre| + 2;
    AnchorAfterBlank(pre, entries);
    assert x[..|HistoryMarker|] == HistoryMarker by {
      StartsAfter(HistoryMarker, "\n\n" + entries);
    }
    HistoryFoundAfter(pre, x);
    StartsAfter(HistoryAnchor, entries);
    assert body[i + |HistoryAnchor|..] == entries;
  }

  lemma AnchorAfterBlank(content: string, e: string)
    ensures var body := content + "\n\n" + HistoryAnchor + e;
      body == content + ("\n\n" + (HistoryAnchor + e))
      && body[|content| + 2..] == HistoryAnchor + e
      && body[|content| + 2 + |HistoryAnchor|..] == e
      && HistoryAnchor + e == HistoryMarker + ("\n\n" + e)
  {
  }

  lemma OneEntryRead(date: string, rating: string, review: string)
    requires '\n' !in date && '\n' !in rating && '\n' !in review
    ensures ReadHistoryEntries(HistoryEntry(date, rating, review)) == Some([Watch(date, rating, review)])
  {
    var e := HistoryEntry(date, rating, review);
    HistoryEntryRoundTrip(date, rating, review, []);
    assert e + [] == e;
    assert e != [] by {
      EntryStartsWithHeading(date, rating, review);
    }
    assert ReadHistoryEntry(e) == Some((date, rating, review, []));
    assert ReadHistoryEntries([]) == Some([]);
    assert ReadHistoryEntries(e) == Some([Watch(date, rating, review)] + []);
    assert [Watch(date, rating, review)] + [] == [Watch(date, rating, review)];
  }
}
