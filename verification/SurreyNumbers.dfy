/** What the official number of a Surrey row looks like, which legacy key it has, and what is stored of a scraped
    text. */
module SurreyNumbers {
  import opened Outcomes
  import opened Text
  import opened SurreyPermits

  // ---------------------------------------------------------------- the formats as pictures

  /** Digits, letters and dashes; everything else is one more kind. */
  function KindOf(c: char): char {
    if IsDigit(c) then '9' else if IsLetter(c) then 'A' else if c == '-' then '-' else '?'
  }

  predicate Pictured(s: string, picture: string) {
    |s| == |picture| && forall i | 0 <= i < |s| :: KindOf(s[i]) == picture[i]
  }

  const LEGACY_PICTURE := "99-999999-999-99"

  lemma LegacyIff(s: string)
    ensures LegacyFormat(s) <==> Pictured(s, LEGACY_PICTURE)
  {
    var p := LEGACY_PICTURE;
    assert p[0] == p[1] == p[3] == p[4] == p[5] == p[6] == p[7] == p[8] == '9';
    assert p[10] == p[11] == p[12] == p[14] == p[15] == '9' && p[2] == p[9] == p[13] == '-';
    if Pictured(s, p) {
      assert forall i | 0 <= i < 2 || 3 <= i < 9 || 10 <= i < 13 || 14 <= i < 16 :: KindOf(s[i]) == '9';
      assert KindOf(s[2]) == p[2] && KindOf(s[9]) == p[9] && KindOf(s[13]) == p[13];
    }
  }

  predicate PicturedCurrent(s: string, suffix: string) {
    Pictured(s, LEGACY_PICTURE + "?" + suffix)
  }

  lemma PictureSplits(s: string, suffix: string)
    ensures PicturedCurrent(s, suffix) <==>
      |s| == 17 + |suffix| && Pictured(s[..16], LEGACY_PICTURE) && KindOf(s[16]) == '?' && Pictured(s[17..], suffix)
  {
    var p := LEGACY_PICTURE + "?" + suffix;
    assert |LEGACY_PICTURE| == 16;
    assert p[16] == '?' && p[..16] == LEGACY_PICTURE && p[17..] == suffix;
    if PicturedCurrent(s, suffix) {
      assert forall i | 0 <= i < 16 :: s[..16][i] == s[i] && p[..16][i] == p[i];
      assert forall i | 0 <= i < |suffix| :: s[17..][i] == s[17 + i] && p[17..][i] == p[17 + i];
    } else if |s| == |p| {
      var i :| 0 <= i < |s| && KindOf(s[i]) != p[i];
      if i < 16 {
        assert s[..16][i] == s[i] && p[..16][i] == p[i];
      } else if i > 16 {
        assert s[17..][i - 17] == s[i] && p[17..][i - 17] == p[i];
      }
    }
  }

  /** The current format is the legacy one, a separator, and one of three suffixes. */
  lemma CurrentIff(s: string)
    ensures CurrentFormat(s) <==> PicturedCurrent(s, "AA") || PicturedCurrent(s, "A9") || PicturedCurrent(s, "A9AA")
  {
    PictureSplits(s, "AA");
    PictureSplits(s, "A9");
    PictureSplits(s, "A9AA");
    if |s| > 17 {
      LegacyIff(s[..16]);
      SuffixIff(s[17..]);
    }
  }

  lemma SuffixIff(x: string)
    ensures Pictured(x, "AA") <==> |x| == 2 && IsLetter(x[0]) && IsLetter(x[1])
    ensures Pictured(x, "A9") <==> |x| == 2 && IsLetter(x[0]) && IsDigit(x[1])
    ensures Pictured(x, "A9AA") <==> |x| == 4 && IsLetter(x[0]) && IsDigit(x[1]) && IsLetter(x[2]) && IsLetter(x[3])
  {
  }

  // ---------------------------------------------------------------- the number and its key

  /** `cell` is the cleaned text, cut off at `width`. */
  predicate Cut(cell: string, text: string, width: nat) {
    cell <= Clean(text) && |cell| == if |Clean(text)| < width then |Clean(text)| else width
  }

  lemma CurrentIsShort(s: string)
    ensures CurrentFormat(s) ==> |s| <= 21
  {
  }

  /** Cutting the number at its width leaves nothing for a second cleaning to change, as far as the format goes. */
  lemma CleanNumber(row: RawRow)
    ensures CurrentFormat(Clean(OfficialNumber(row))) || CurrentFormat(OfficialNumber(row)) ==>
              Clean(OfficialNumber(row)) == OfficialNumber(row)
  {
    hide Clean, CurrentFormat;
    var full, number := Clean(row.externalId), OfficialNumber(row);
    CleanFixedIff(row.externalId);
    CurrentIsShort(number);
    CurrentIsShort(Clean(number));
    if number != full {
      assert number == full[..100];
      CleanOfPrefix(full, 100);
    }
  }

  lemma CleanOfPrefix(s: string, n: nat)
    requires Tidy(s) && Stripped(s) && 0 < n < |s|
    ensures |Clean(s[..n])| >= n - 1
  {
    var p := s[..n];
    assert Tidy(p) by { assert forall i | 0 <= i < n :: p[i] == s[i]; }
    TidyCollapses(p);
    var from, to := StripIs(p);
    assert !IsSpace(p[0]) && p[0] == s[0];
    assert n >= 2 ==> !(IsSpace(p[n - 2]) && IsSpace(p[n - 1]));
  }

  /** The key of a row: the first sixteen characters of a number in the current format, and nothing otherwise. */
  lemma KeyIs(row: RawRow)
    ensures LegacyKey(OfficialNumber(row)) ==
        if CurrentFormat(OfficialNumber(row)) then Some(OfficialNumber(row)[..LEGACY_LENGTH]) else None
  {
    hide Clean;
    CleanNumber(row);
  }

  // ---------------------------------------------------------------- the stored cells

  predicate FieldsStored(stored: Fields, scraped: Fields) {
    && Cut(stored.address, scraped.address, 300)
    && Cut(stored.permitType, scraped.permitType, 100)
    && Cut(stored.projectValue, scraped.projectValue, 50)
    && Cut(stored.architect, scraped.architect, 300)
    && Cut(stored.issueDate, scraped.issueDate, 20)
    && Cut(stored.applicationDate, scraped.applicationDate, 20)
    && stored.description == Clean(scraped.description)
    && Cut(stored.contractor, scraped.contractor, 300)
    && Cut(stored.localArea, scraped.localArea, 100)
  }

  lemma CutIs(cell: string, text: string, width: nat)
    ensures Cut(cell, text, width) <==> cell == Truncate(Clean(text), width)
  {
  }

  /** Every column holds its own scraped text, cleaned and cut at the width of the column. */
  lemma ValuesAreStored(row: RawRow, stored: Fields)
    ensures stored == Values(row) <==> FieldsStored(stored, row.fields)
  {
    hide Clean, Cut, Truncate;
    var f := row.fields;
    CutIs(stored.address, f.address, 300);
    CutIs(stored.permitType, f.permitType, 100);
    CutIs(stored.projectValue, f.projectValue, 50);
    CutIs(stored.architect, f.architect, 300);
    CutIs(stored.issueDate, f.issueDate, 20);
    CutIs(stored.applicationDate, f.applicationDate, 20);
    CutIs(stored.contractor, f.contractor, 300);
    CutIs(stored.localArea, f.localArea, 100);
  }

  lemma NumberIsCut(row: RawRow)
    ensures Cut(OfficialNumber(row), row.externalId, 100)
  {
    CutIs(OfficialNumber(row), row.externalId, 100);
  }
}
