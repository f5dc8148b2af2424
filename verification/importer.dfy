/** `processCsvData`: the import loop. Each row with a title goes to the
    note `<folder>/<sanitized title>[ (<year>)].md`; a new path gets a new
    note, an existing one is skipped, appended to or rewritten as the
    duplicate-handling setting says. The vault is a map from paths to note
    texts, and the poster lookup, which goes to the network, is a
    parameter. */
module Importer {
  import opened Wrappers
  import opened Text
  import opened Csv
  import opened Naming
  import opened FrontMatter
  import opened Document
  import opened Merge
  import opened Update

  /** The three choices the settings tab offers for an existing note. */
  datatype Policy = SkipExisting | AppendWatch | UpdateExisting

  datatype Settings = Settings(outputFolder: string, duplicateHandling: Policy, tags: string)

  datatype Outcome = Created | Updated | Skipped

  /** The three counters the summary notice reports. */
  datatype Summary = Summary(created: nat, updated: nat, skipped: nat)

  type Vault = map<string, string>

  const TitleColumns := ["Name", "name", "Title", "title", "Film", "film", "Movie", "movie"]
  const YearColumns := ["Year", "year"]

  function TitleOf(row: Row): string {
    GetFirst(row, TitleColumns)
  }

  function YearOf(row: Row): string {
    GetFirst(row, YearColumns)
  }

  // ---------------------------------------------------------------------
  // Paths

  /** `<sanitized title>[ (<year>)].md`. */
  function FileName(title: string, year: string): string {
    SanitizeFilename(title) + (if year != [] then " (" + year + ")" else []) + ".md"
  }

  /** The path of a row's note: the trimmed title, sanitized, in the
      output folder. */
  function TargetPath(folder: string, title: string, year: string): string {
    folder + "/" + FileName(Trim(title), year)
  }

  function RowPath(s: Settings, row: Row): string {
    TargetPath(s.outputFolder, TitleOf(row), YearOf(row))
  }

  /** Titles that differ only in surrounding whitespace, or only in which
      forbidden character stands at a place, share one note. */
  lemma TargetPathCollisions(folder: string, t1: string, t2: string, year: string)
    requires |Trim(t1)| == |Trim(t2)|
    requires forall i :: 0 <= i < |Trim(t1)| ==>
               Trim(t1)[i] == Trim(t2)[i] || (IsForbidden(Trim(t1)[i]) && IsForbidden(Trim(t2)[i]))
    ensures TargetPath(folder, t1, year) == TargetPath(folder, t2, year)
  {
    var a, b := Trim(t1), Trim(t2);
    assert ReplaceForbidden(a) == ReplaceForbidden(b);
  }

  /** The trimmed title gives the same path as the title. */
  lemma TargetPathOfTrimmed(folder: string, title: string, year: string)
    ensures TargetPath(folder, Trim(title), year) == TargetPath(folder, title, year)
  {
    TrimIdempotent(title);
  }

  /** The worked example: the film "Heat" of 1995 goes to
      `Heat (1995).md`. */
  lemma HeatFileName()
    ensures FileName("Heat", "1995") == "Heat (1995).md"
  {
    var title := "Heat";
    assert IsTrimmed(title) && NoForbidden(title);
    ReplaceForbiddenIdentity(title);
    TrimmedIsFixpoint(title);
  }

  // ---------------------------------------------------------------------
  // One row

  /** The policy applied to an existing note: its new text, or nothing
      when the row is skipped. Appending uses the import loop's date, with
      its `date` fallback. */
  function HandleExisting(content: string, policy: Policy, row: Row, poster: string, tags: seq<string>): (r: Option<string>)
    ensures r.None? <==> policy == SkipExisting
                         || (policy == AppendWatch && IsDuplicate(content, WatchedDate(row)))
  {
    match policy
    case SkipExisting => None
    case AppendWatch =>
      (match AppendWatchEntry(content, row, poster, WatchedDate(row))
       case Duplicate => None
       case Appended(t) => Some(t))
    case UpdateExisting => Some(UpdateDocument(content, row, poster, tags))
  }

  /** A row with a title, at `path`: a new note when the path is free,
      else the policy's result. */
  function ImportAt(vault: Vault, path: string, policy: Policy, row: Row, poster: string, tags: seq<string>)
    : (r: (Vault, Outcome))
    ensures r.1 == Created <==> path !in vault
    ensures r.0.Keys == if r.1 == Created then vault.Keys + {path} else vault.Keys
    ensures forall k :: k in vault && k != path ==> r.0[k] == vault[k]
    ensures r.1 == Skipped ==> r.0 == vault
  {
    if path !in vault then (vault[path := NewDocument(row, poster, tags, WatchedDate(row))], Created)
    else
      match HandleExisting(vault[path], policy, row, poster, tags)
      case None => (vault, Skipped)
      case Some(t) => (vault[path := t], Updated)
  }

  /** One turn of the loop. A row whose title is missing or blank is
      skipped; otherwise the poster is looked up for the trimmed title and
      the row's note is created, or, when it exists, handled by the
      policy. */
  function ImportRow(vault: Vault, s: Settings, poster: string -> string, row: Row): (r: (Vault, Outcome))
    ensures Trim(TitleOf(row)) == [] ==> r == (vault, Skipped)
    ensures r.1 == Created <==> Trim(TitleOf(row)) != [] && RowPath(s, row) !in vault
    ensures r.0.Keys == if r.1 == Created then vault.Keys + {RowPath(s, row)} else vault.Keys
    ensures forall k :: k in vault && k != RowPath(s, row) ==> r.0[k] == vault[k]
    ensures r.1 == Skipped ==> r.0 == vault
  {
    var title := TitleOf(row);
    if Trim(title) == [] then (vault, Skipped)
    else ImportAt(vault, RowPath(s, row), s.duplicateHandling, row, poster(Trim(title)), TagsOf(s.tags))
  }

  /** Importing a row again under the append policy, right after its note
      was created, is refused as a duplicate when the row has a date. */
  lemma ReimportSkipped(vault: Vault, s: Settings, poster: string -> string, row: Row)
    requires s.duplicateHandling == AppendWatch && WatchedDate(row) != []
    requires ImportRow(vault, s, poster, row).1 == Created
    ensures var v := ImportRow(vault, s, poster, row).0;
      ImportRow(v, s, poster, row) == (v, Skipped)
  {
    var v := ImportRow(vault, s, poster, row).0;
    var p := poster(Trim(TitleOf(row)));
    var date := WatchedDate(row);
    NewDocumentShape(row, p, TagsOf(s.tags), date);
    assert v[RowPath(s, row)] == NewDocument(row, p, TagsOf(s.tags), date);
  }

  /** Under the update policy an existing note is replaced by the
      rewritten one, whose counter `UpdateCounter` gives. */
  lemma ImportRowUpdates(vault: Vault, s: Settings, poster: string -> string, row: Row)
    requires s.duplicateHandling == UpdateExisting
    requires Trim(TitleOf(row)) != [] && RowPath(s, row) in vault
    ensures var v := ImportRow(vault, s, poster, row);
      var path := RowPath(s, row);
      v.1 == Updated && v.0[path] == UpdateDocument(vault[path], row, poster(Trim(TitleOf(row))), TagsOf(s.tags))
  {
    var path := RowPath(s, row);
    var p := poster(Trim(TitleOf(row)));
    UpdatedAt(vault, path, row, p, TagsOf(s.tags));
    ImportRowTitled(vault, s, poster, row);
  }

  lemma ImportRowTitled(vault: Vault, s: Settings, poster: string -> string, row: Row)
    requires Trim(TitleOf(row)) != []
    ensures ImportRow(vault, s, poster, row)
         == ImportAt(vault, RowPath(s, row), s.duplicateHandling, row, poster(Trim(TitleOf(row))), TagsOf(s.tags))
  {
  }

  lemma UpdatedAt(vault: Vault, path: string, row: Row, poster: string, tags: seq<string>)
    requires path in vault
    ensures var v := ImportAt(vault, path, UpdateExisting, row, poster, tags);
      v.1 == Updated && v.0[path] == UpdateDocument(vault[path], row, poster, tags)
  {
  }

  // ---------------------------------------------------------------------
  // All rows

  function Tally(sm: Summary, o: Outcome): (r: Summary)
    ensures r.created + r.updated + r.skipped == sm.created + sm.updated + sm.skipped + 1
  {
    match o
    case Created => sm.(created := sm.created + 1)
    case Updated => sm.(updated := sm.updated + 1)
    case Skipped => sm.(skipped := sm.skipped + 1)
  }

  /** The loop over the rows, in order. Every row is counted once; notes
      are only ever added, one per creation. */
  function ImportRows(vault: Vault, s: Settings, poster: string -> string, rows: seq<Row>): (r: (Vault, Summary))
    ensures r.1.created + r.1.updated + r.1.skipped == |rows|
    ensures vault.Keys <= r.0.Keys
    ensures |r.0.Keys| == |vault.Keys| + r.1.created
    decreases |rows|
  {
    if rows == [] then (vault, Summary(0, 0, 0))
    else
      var (v, o) := ImportRow(vault, s, poster, rows[0]);
      var (v', sm) := ImportRows(v, s, poster, rows[1..]);
      (v', Tally(sm, o))
  }

  /** Under the skip policy no note that was there before is changed. */
  lemma {:induction false} SkipKeepsNotes(vault: Vault, s: Settings, poster: string -> string, rows: seq<Row>)
    requires s.duplicateHandling == SkipExisting
    ensures var v := ImportRows(vault, s, poster, rows).0;
      forall k :: k in vault ==> k in v && v[k] == vault[k]
    decreases |rows|
  {
    if rows != [] {
      var v := ImportRow(vault, s, poster, rows[0]).0;
      SkipKeepsNotes(v, s, poster, rows[1..]);
    }
  }

  /** `processCsvData`: nothing is imported when the CSV text has no data
      line; otherwise every parsed row is counted once. */
  function ProcessCsvData(content: string, vault: Vault, s: Settings, poster: string -> string)
    : (r: Result<(Vault, Summary), string>)
    ensures r.Failure? <==> '\n' !in Trim(content)
    ensures r.Failure? ==> r.error == MissingDataError
    ensures r.Success? ==> var sm := r.value.1;
      sm.created + sm.updated + sm.skipped == |ParseCsv(content).value|
  {
    match ParseCsv(content)
    case Failure(e) => Failure(e)
    case Success(rows) => Success(ImportRows(vault, s, poster, rows))
  }

  // ---------------------------------------------------------------------
  // The note-writer's date

  /** A row dated only in a lower-case `date` column: the import loop sees
      the date, but the note-writer as written does not, so the new note's
      entry has an empty heading and the note differs from the one written
      with the loop's date. */
  lemma CreatedDateMissesLowercase(row: Row, poster: string, tags: seq<string>)
    requires Get(row, "Watched Date") == [] && Get(row, "Date") == [] && Get(row, "date") != []
    ensures CreatedDate(row) == [] && WatchedDate(row) == Get(row, "date")
    ensures NewDocumentAsWritten(row, poster, tags) != NewDocument(row, poster, tags, WatchedDate(row))
  {
    LowercaseDate(row);
    NewDocumentLength(row, poster, tags, Get(row, "date"));
  }

  lemma LowercaseDate(row: Row)
    requires Get(row, "Watched Date") == [] && Get(row, "Date") == [] && Get(row, "date") != []
    ensures CreatedDate(row) == [] && WatchedDate(row) == Get(row, "date")
  {
    var d := Get(row, "date");
    assert GetFirst(row, ["date"]) == d by {
      assert ["date"][1..] == [];
    }
    assert GetFirst(row, ["Date", "date"]) == d by {
      assert ["Date", "date"][1..] == ["date"];
    }
    assert GetFirst(row, ["Watched Date", "Date", "date"]) == d by {
      assert ["Watched Date", "Date", "date"][1..] == ["Date", "date"];
    }
    assert GetFirst(row, ["Date"]) == [] by {
      assert ["Date"][1..] == [];
    }
    assert GetFirst(row, ["Watched Date", "Date"]) == [] by {
      assert ["Watched Date", "Date"][1..] == ["Date"];
    }
  }

  /** The date's length is the only way the date enters the note's length. */
  lemma NewDocumentLength(row: Row, poster: string, tags: seq<string>, date: string)
    ensures |NewDocument(row, poster, tags, date)| == |NewDocument(row, poster, tags, [])| + |date|
  {
    var rating, review := Get(row, "Rating"), Get(row, "Review");
    assert |HistoryEntry(date, rating, review)| == |HistoryEntry([], rating, review)| + |date|;
  }
}
