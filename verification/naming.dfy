/** The two small helpers behind file names and tags: `sanitizeFilename`
    and `getTagsArray`. */
module Naming {
  import opened Text

  // ---------------------------------------------------------------------
  // File names

  /** The nine characters file systems refuse in a name: backslash,
      slash, star, question mark, colon, double quote, angle brackets and
      the vertical bar. */
  predicate IsForbidden(c: char) {
    c == '\\' || c == '/' || c == '*' || c == '?' || c == ':' || c == '"'
    || c == '<' || c == '>' || c == '|'
  }

  predicate NoForbidden(s: string) {
    forall i :: 0 <= i < |s| ==> !IsForbidden(s[i])
  }

  /** The global replacement of the forbidden class by `'-'`: every
      forbidden character becomes a dash, everything else stays where it
      is. */
  function ReplaceForbidden(s: string): (r: string)
    ensures |r| == |s| && NoForbidden(r)
    ensures forall i :: 0 <= i < |s| && !IsForbidden(s[i]) ==> r[i] == s[i]
    ensures forall i :: 0 <= i < |s| && IsForbidden(s[i]) ==> r[i] == '-'
  {
    seq(|s|, i requires 0 <= i < |s| => if IsForbidden(s[i]) then '-' else s[i])
  }

  /** `sanitizeFilename`: forbidden characters replaced, then trimmed. The
      result is a name with no forbidden character and no whitespace at
      either end. */
  function SanitizeFilename(s: string): (r: string)
    ensures NoForbidden(r) && IsTrimmed(r)
  {
    var t := ReplaceForbidden(s);
    TrimPreserves(t);
    Trim(t)
  }

  /** Whatever `Trim` keeps lies inside its input, so it keeps every
      property that holds of each character. */
  lemma TrimPreserves(s: string)
    requires NoForbidden(s)
    ensures NoForbidden(Trim(s))
  {
    TrimSlice(s);
    var r := Trim(s);
    var i := |s| - |TrimStart(s)|;
    forall k | 0 <= k < |r| ensures !IsForbidden(r[k]) {
      assert r[k] == s[i + k];
    }
  }

  lemma ReplaceForbiddenIdentity(s: string)
    requires NoForbidden(s)
    ensures ReplaceForbidden(s) == s
  {
  }

  /** Sanitizing a sanitized name changes nothing. */
  lemma SanitizeIdempotent(s: string)
    ensures SanitizeFilename(SanitizeFilename(s)) == SanitizeFilename(s)
  {
    var r := SanitizeFilename(s);
    ReplaceForbiddenIdentity(r);
    TrimmedIsFixpoint(r);
  }

  /** The dash that replaces a forbidden character is not whitespace, so
      replacing before or after trimming gives the same name; in particular
      sanitizing a trimmed title is sanitizing the title. */
  lemma SanitizeTrimmed(s: string)
    ensures SanitizeFilename(Trim(s)) == SanitizeFilename(s)
    ensures SanitizeFilename(s) == ReplaceForbidden(Trim(s))
  {
    ReplaceTrimStart(s);
    ReplaceTrimEnd(TrimStart(s));
    var t := ReplaceForbidden(Trim(s));
    assert IsTrimmed(t) by {
      if t != [] {
        assert !IsWhitespace(Trim(s)[0]) && !IsWhitespace(Trim(s)[|t| - 1]);
      }
    }
    TrimmedIsFixpoint(t);
    assert NoForbidden(t);
    ReplaceForbiddenIdentity(t);
  }

  lemma ReplaceKeepsWhitespace(s: string, i: nat)
    requires i < |s|
    ensures IsWhitespace(ReplaceForbidden(s)[i]) <==> IsWhitespace(s[i])
  {
  }

  lemma ReplaceSlice(s: string, a: nat, b: nat)
    requires a <= b <= |s|
    ensures ReplaceForbidden(s)[a..b] == ReplaceForbidden(s[a..b])
  {
  }

  lemma {:induction false} ReplaceTrimStart(s: string)
    ensures TrimStart(ReplaceForbidden(s)) == ReplaceForbidden(TrimStart(s))
    decreases |s|
  {
    if s != [] {
      var t := ReplaceForbidden(s);
      ReplaceKeepsWhitespace(s, 0);
      ReplaceSlice(s, 1, |s|);
      ReplaceTrimStart(s[1..]);
      assert t[1..] == ReplaceForbidden(s[1..]);
    }
  }

  lemma {:induction false} ReplaceTrimEnd(s: string)
    ensures TrimEnd(ReplaceForbidden(s)) == ReplaceForbidden(TrimEnd(s))
    decreases |s|
  {
    if s != [] {
      var t := ReplaceForbidden(s);
      ReplaceKeepsWhitespace(s, |s| - 1);
      ReplaceSlice(s, 0, |s| - 1);
      ReplaceTrimEnd(s[..|s| - 1]);
      assert t[..|t| - 1] == ReplaceForbidden(s[..|s| - 1]);
    }
  }

  // ---------------------------------------------------------------------
  // Tags

  /** The elements of `xs` that are not empty, in order. */
  function NonEmpty(xs: seq<string>): (ys: seq<string>)
    ensures |ys| <= |xs|
    ensures forall i :: 0 <= i < |ys| ==> ys[i] != [] && ys[i] in xs
    ensures forall x :: x in xs && x != [] ==> x in ys
  {
    if xs == [] then []
    else if xs[0] == [] then NonEmpty(xs[1..])
    else [xs[0]] + NonEmpty(xs[1..])
  }

  /** `getTagsArray` on the tag setting: nothing for a blank setting,
      otherwise the comma-separated pieces, trimmed, with the empty ones
      dropped. */
  function TagsOf(setting: string): (tags: seq<string>)
    ensures forall i :: 0 <= i < |tags| ==> tags[i] != [] && IsTrimmed(tags[i])
    ensures forall i :: 0 <= i < |tags| ==> ',' !in tags[i]
    ensures forall t :: t in TrimEach(Split(setting, ',')) && t != [] ==> t in tags
  {
    if Trim(setting) == [] then
      BlankPieces(setting);
      []
    else
      var pieces := Split(setting, ',');
      TrimEachCommaFree(pieces);
      NonEmpty(TrimEach(pieces))
  }

  lemma TrimEachCommaFree(pieces: seq<string>)
    requires forall i :: 0 <= i < |pieces| ==> ',' !in pieces[i]
    ensures forall t :: t in TrimEach(pieces) ==> IsTrimmed(t) && ',' !in t
  {
    forall t | t in TrimEach(pieces) ensures IsTrimmed(t) && ',' !in t {
      var i :| 0 <= i < |pieces| && TrimEach(pieces)[i] == t;
      CharsOfTrim(pieces[i], ',');
    }
  }

  lemma CharsOfTrim(s: string, c: char)
    requires c !in s
    ensures c !in Trim(s)
  {
    TrimSlice(s);
    var r := Trim(s);
    var i := |s| - |TrimStart(s)|;
    forall k | 0 <= k < |r| ensures r[k] != c {
      assert r[k] == s[i + k];
    }
  }

  /** Tags written back as a comma-separated setting are read back
      unchanged: the tag list is the inverse of joining with commas. */
  lemma TagsRoundTrip(tags: seq<string>)
    requires forall i :: 0 <= i < |tags| ==> tags[i] != [] && IsTrimmed(tags[i]) && ',' !in tags[i]
    ensures TagsOf(Join(tags, ',')) == tags
  {
    if tags != [] {
      var s := Join(tags, ',');
      JoinThenSplit(tags, ',');
      JoinStartsWith(tags, ',');
      assert Trim(s) != [] by {
        TrimEmptyIff(s);
        assert !IsWhitespace(s[0]);
      }
      forall i | 0 <= i < |tags| ensures Trim(tags[i]) == tags[i] {
        TrimmedIsFixpoint(tags[i]);
      }
      assert TrimEach(tags) == tags;
      NonEmptyIdentity(tags);
    }
  }

  lemma JoinStartsWith(parts: seq<string>, sep: char)
    requires |parts| > 0 && parts[0] != []
    ensures var s := Join(parts, sep); s != [] && s[0] == parts[0][0]
  {
  }

  lemma {:induction false} NonEmptyIdentity(xs: seq<string>)
    requires forall i :: 0 <= i < |xs| ==> xs[i] != []
    ensures NonEmpty(xs) == xs
    decreases |xs|
  {
    if xs != [] {
      NonEmptyIdentity(xs[1..]);
    }
  }

  /** A setting with no tags in it yields none, whether or not it is blank:
      the blank-setting guard only short-cuts the general case. */
  lemma BlankGuardRedundant(setting: string)
    ensures TagsOf(setting) == NonEmpty(TrimEach(Split(setting, ',')))
  {
    if Trim(setting) == [] {
      BlankPieces(setting);
      NonEmptyOfEmpties(TrimEach(Split(setting, ',')));
    }
  }

  /** Every comma-separated piece of a blank setting trims to nothing. */
  lemma BlankPieces(setting: string)
    requires Trim(setting) == []
    ensures forall i :: 0 <= i < |TrimEach(Split(setting, ','))| ==> TrimEach(Split(setting, ','))[i] == []
  {
    TrimEmptyIff(setting);
    var pieces := Split(setting, ',');
    forall i | 0 <= i < |pieces| ensures Trim(pieces[i]) == [] {
      SplitPiecesWhitespace(setting, ',', i);
      TrimEmptyIff(pieces[i]);
    }
  }

  /** Dropping the empty elements commutes with concatenation, so the kept
      elements stay in input order. */
  lemma {:induction false} NonEmptyConcat(a: seq<string>, b: seq<string>)
    ensures NonEmpty(a + b) == NonEmpty(a) + NonEmpty(b)
    decreases |a|
  {
    if a == [] {
      assert a + b == b;
    } else {
      NonEmptyConcat(a[1..], b);
      assert (a + b)[0] == a[0] && (a + b)[1..] == a[1..] + b;
    }
  }

  /** The tags of two settings joined with a comma are the tags of the
      first followed by the tags of the second: tags come out in the order
      they are written. */
  lemma TagsOfJoin(a: string, b: string)
    ensures TagsOf(a + [','] + b) == TagsOf(a) + TagsOf(b)
  {
    BlankGuardRedundant(a + [','] + b);
    BlankGuardRedundant(a);
    BlankGuardRedundant(b);
    SplitConcat(a, ',', b);
    var pa, pb := Split(a, ','), Split(b, ',');
    TrimEachConcat(pa, pb);
    NonEmptyConcat(TrimEach(pa), TrimEach(pb));
  }

  lemma {:induction false} SplitPiecesWhitespace(s: string, sep: char, i: nat)
    requires AllWhitespace(s) && i < |Split(s, sep)|
    ensures AllWhitespace(Split(s, sep)[i])
    decreases |s|
  {
    if s != [] {
      var rest := Split(s[1..], sep);
      if s[0] == sep {
        if i > 0 {
          SplitPiecesWhitespace(s[1..], sep, i - 1);
        }
      } else if i == 0 {
        SplitPiecesWhitespace(s[1..], sep, 0);
        var p := [s[0]] + rest[0];
        forall k | 0 <= k < |p| ensures IsWhitespace(p[k]) {
          if k > 0 {
            assert p[k] == rest[0][k - 1];
          }
        }
      } else {
        SplitPiecesWhitespace(s[1..], sep, i);
      }
    }
  }

  lemma {:induction false} NonEmptyOfEmpties(xs: seq<string>)
    requires forall i :: 0 <= i < |xs| ==> xs[i] == []
    ensures NonEmpty(xs) == []
    decreases |xs|
  {
    if xs != [] {
      NonEmptyOfEmpties(xs[1..]);
    }
  }
}
