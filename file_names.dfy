/** The filename convention that pairs the two sides of a sheet: a name ends
    in an '_'-separated run of digits, the odd number is the front, and the
    other side is the number one above or below, zero-padded to the same
    width (imgProAPP/views.py, get_next_file_name and get_file_scan_result). */
module FileNames {
  import opened Wrappers
  import opened Text

  /** get_next_file_name: replace the last '_'-segment by its integer value
      plus `direction`, formatted to the segment's original width. `None` is
      the ValueError `int()` raises on a segment that is not an integer. */
  function NextFileName(fileName: string, direction: int): Option<string> {
    var parts := Split(fileName, '_');
    var last := parts[|parts| - 1];
    match ParseInt(last)
    case None => None
    case Some(num) => Some(Join(parts[..|parts| - 1] + [FormatInt(num + direction, |last|)], '_'))
  }

  /** Which way the sibling lies: an even number looks one below, an odd one
      one above. */
  function Direction(num: int): int {
    if num % 2 == 0 then -1 else 1
  }

  lemma DirectionFlipsParity(v: int)
    ensures v % 2 == 0 <==> (v + Direction(v)) % 2 == 1
    ensures Direction(v + Direction(v)) == -Direction(v)
  {
  }

  /** The name get_file_scan_result looks up: the parity is read from the last
      '_'-segment cut at its first '.', the sibling is then computed from the
      whole name. `None` is a ValueError from either `int()`. */
  function SiblingName(fileName: string): Option<string> {
    match ParseInt(First(Last(fileName, '_'), '.'))
    case None => None
    case Some(num) => NextFileName(fileName, Direction(num))
  }

  /** With the last segment read as `v`, the new name is the text up to the
      last '_' followed by `v + direction` padded to the segment's width. */
  lemma NextFileNameIs(fileName: string, direction: int, v: int)
    requires ParseInt(Last(fileName, '_')) == Some(v)
    ensures NextFileName(fileName, direction)
            == Some(Prefix(fileName, '_') + FormatInt(v + direction, |Last(fileName, '_')|))
  {
    var parts := Split(fileName, '_');
    var newSeg := FormatInt(v + direction, |Last(fileName, '_')|);
    assert Join(parts[..|parts| - 1] + [newSeg], '_') == Prefix(fileName, '_') + newSeg by {
      ReplaceLast(fileName, newSeg, '_');
    }
  }

  /** The joined result is the text up to the last '_' followed by the new
      segment. */
  lemma NextFileNameValue(fileName: string, direction: int)
    ensures var seg := Last(fileName, '_');
            NextFileName(fileName, direction) ==
              match ParseInt(seg)
              case None => None
              case Some(v) => Some(Prefix(fileName, '_') + FormatInt(v + direction, |seg|))
  {
    match ParseInt(Last(fileName, '_'))
    case None =>
    case Some(v) => NextFileNameIs(fileName, direction, v);
  }

  /** The new name's last segment is the stepped number and everything
      before it is unchanged. */
  lemma StepShape(fileName: string, direction: int, v: int)
    requires ParseInt(Last(fileName, '_')) == Some(v)
    ensures NextFileName(fileName, direction).Some?
    ensures var r := NextFileName(fileName, direction).value;
            && r == Prefix(fileName, '_') + FormatInt(v + direction, |Last(fileName, '_')|)
            && Last(r, '_') == FormatInt(v + direction, |Last(fileName, '_')|)
            && Prefix(r, '_') == Prefix(fileName, '_')
  {
    var newSeg := FormatInt(v + direction, |Last(fileName, '_')|);
    assert NextFileName(fileName, direction) == Some(Prefix(fileName, '_') + newSeg) by {
      NextFileNameIs(fileName, direction, v);
    }
    assert Last(Prefix(fileName, '_') + newSeg, '_') == newSeg
        && Prefix(Prefix(fileName, '_') + newSeg, '_') == Prefix(fileName, '_') by {
      FormatChars(v + direction, |Last(fileName, '_')|, '_');
      AppendToPrefix(fileName, newSeg, '_');
    }
  }

  /** get_next_file_name changes the last segment only: it fails exactly when
      that segment is not an integer, and otherwise keeps every earlier
      segment and puts `int(segment) + direction`, padded to the segment's
      width, in its place. */
  lemma NextFileNameShape(fileName: string, direction: int)
    ensures var seg := Last(fileName, '_');
            NextFileName(fileName, direction).Some? <==> ParseInt(seg).Some?
    ensures var seg := Last(fileName, '_');
            ParseInt(seg).Some? ==>
              var newSeg := FormatInt(ParseInt(seg).value + direction, |seg|);
              var r := NextFileName(fileName, direction).value;
              && r == Prefix(fileName, '_') + newSeg
              && Last(r, '_') == newSeg
              && Prefix(r, '_') == Prefix(fileName, '_')
  {
    match ParseInt(Last(fileName, '_'))
    case None =>
      NextFileNameValue(fileName, direction);
    case Some(v) =>
      StepShape(fileName, direction, v);
  }

  /** Stepping by `direction` and back restores the name, provided the
      stepped number is non-negative and still fits the segment's width. */
  lemma StepAndBack(fileName: string, direction: int)
    requires var seg := Last(fileName, '_');
             |seg| >= 1 && AllDigits(seg) && 0 <= Value(seg) + direction < Pow10(|seg|)
    ensures NextFileName(fileName, direction).Some?
    ensures var n1 := NextFileName(fileName, direction).value;
            var seg := Last(fileName, '_');
            && Last(n1, '_') == FormatInt(Value(seg) + direction, |seg|)
            && |Last(n1, '_')| == |seg|
            && NextFileName(n1, -direction) == Some(fileName)
  {
    var seg := Last(fileName, '_');
    SegmentSteps(seg, direction);
    StepShape(fileName, direction, Value(seg));
    var n1 := NextFileName(fileName, direction).value;
    StepBack(n1, fileName, -direction, Value(seg) + direction, Value(seg), |seg|);
  }

  /** A zero-padded run of digits reads as its value, is that value written
      back to its width, and a step that stays below 10^width keeps the
      width. */
  lemma SegmentSteps(seg: string, direction: int)
    requires |seg| >= 1 && AllDigits(seg) && 0 <= Value(seg) + direction < Pow10(|seg|)
    ensures ParseInt(seg) == Some(Value(seg))
    ensures FormatInt(Value(seg), |seg|) == seg
    ensures |FormatInt(Value(seg) + direction, |seg|)| == |seg|
  {
    assert FormatInt(Value(seg), |seg|) == seg by {
      Canonical(seg);
    }
    DecimalFits(Value(seg) + direction, |seg|);
  }

  /** A name whose last segment is `u` in width `w`, sharing its prefix
      with `fileName`, steps by `back` to `fileName` when the latter's
      segment is `u + back` in the same width. */
  lemma StepBack(n1: string, fileName: string, back: int, u: int, v: int, w: nat)
    requires Last(n1, '_') == FormatInt(u, w) && |FormatInt(u, w)| == w
    requires Prefix(n1, '_') == Prefix(fileName, '_')
    requires v == u + back && FormatInt(v, w) == Last(fileName, '_')
    ensures NextFileName(n1, back) == Some(fileName)
  {
    assert ParseInt(Last(n1, '_')) == Some(u) by {
      ParseFormat(u, w);
    }
    assert NextFileName(n1, back) == Some(Prefix(n1, '_') + FormatInt(u + back, |Last(n1, '_')|)) by {
      NextFileNameIs(n1, back, u);
    }
    assert FormatInt(u + back, |Last(n1, '_')|) == Last(fileName, '_');
    assert Prefix(fileName, '_') + Last(fileName, '_') == fileName by {
      PrefixAndLast(fileName, '_');
    }
  }

  /** `get_next_file_name(get_next_file_name(n, 1), -1) == n` whenever the
      incremented number does not carry into an extra digit. */
  lemma NextFileNameRoundTrip(fileName: string)
    requires var seg := Last(fileName, '_');
             |seg| >= 1 && AllDigits(seg) && Value(seg) + 1 < Pow10(|seg|)
    ensures NextFileName(fileName, 1).Some?
    ensures NextFileName(NextFileName(fileName, 1).value, -1) == Some(fileName)
  {
    StepAndBack(fileName, 1);
  }

  /** The looked-up name is one step in the direction the number's parity
      chooses: a segment that `int()` accepts has no '.', so cutting it at
      its first '.' changes nothing. */
  lemma SiblingIsStep(fileName: string, v: int)
    requires ParseInt(Last(fileName, '_')) == Some(v)
    ensures SiblingName(fileName) == NextFileName(fileName, Direction(v))
  {
    var seg := Last(fileName, '_');
    assert First(seg, '.') == seg by {
      ParsedChars(seg, '.');
      NoSeparator(seg, '.');
    }
  }

  /** The looked-up name, read off directly: the parity comes from the last
      segment itself. */
  lemma SiblingNameValue(fileName: string)
    ensures var seg := Last(fileName, '_');
            SiblingName(fileName) ==
              match ParseInt(seg)
              case None => None
              case Some(v) => Some(Prefix(fileName, '_') + FormatInt(v + Direction(v), |seg|))
  {
    match ParseInt(Last(fileName, '_'))
    case None =>
      NextFileNameValue(fileName, 1);
      NextFileNameValue(fileName, -1);
    case Some(v) =>
      SiblingIsStep(fileName, v);
      NextFileNameIs(fileName, Direction(v), v);
  }

  /** The sibling's last segment is the stepped number padded to the
      original width. */
  lemma SiblingSegment(fileName: string, v: int)
    requires ParseInt(Last(fileName, '_')) == Some(v)
    ensures SiblingName(fileName).Some?
    ensures Last(SiblingName(fileName).value, '_') == FormatInt(v + Direction(v), |Last(fileName, '_')|)
  {
    SiblingIsStep(fileName, v);
    StepShape(fileName, Direction(v), v);
  }

  /** When the sibling name exists, its last segment parses to the original
      number plus the direction the parity chose, which has the opposite
      parity. */
  lemma SiblingOppositeParity(fileName: string)
    requires SiblingName(fileName).Some?
    ensures ParseInt(Last(fileName, '_')).Some?
    ensures var v := ParseInt(Last(fileName, '_')).value;
            var sib := SiblingName(fileName).value;
            && ParseInt(Last(sib, '_')) == Some(v + Direction(v))
            && (v % 2 == 0 <==> (v + Direction(v)) % 2 == 1)
  {
    assert ParseInt(Last(fileName, '_')).Some? by {
      SiblingNameValue(fileName);
    }
    var v := ParseInt(Last(fileName, '_')).value;
    SiblingSegment(fileName, v);
    assert ParseInt(FormatInt(v + Direction(v), |Last(fileName, '_')|)) == Some(v + Direction(v)) by {
      ParseFormat(v + Direction(v), |Last(fileName, '_')|);
    }
    DirectionFlipsParity(v);
  }

  /** A sibling is never the name itself, so a page is never paired with its
      own record. */
  lemma SiblingIsAnotherName(fileName: string)
    requires SiblingName(fileName).Some?
    ensures SiblingName(fileName).value != fileName
  {
    SiblingOppositeParity(fileName);
  }

  /** Pairing is mutual: the sibling of a page's sibling is the page, as long
      as the names are plain zero-padded digit runs, an odd number does not
      carry into an extra digit, and an even number is not zero. This is why
      the two sides pair up in whichever order they arrive. */
  lemma SiblingSymmetric(fileName: string)
    requires var seg := Last(fileName, '_');
             && |seg| >= 1 && AllDigits(seg)
             && (Value(seg) % 2 == 1 ==> Value(seg) + 1 < Pow10(|seg|))
             && (Value(seg) % 2 == 0 ==> Value(seg) >= 1)
    ensures SiblingName(fileName).Some?
    ensures SiblingName(SiblingName(fileName).value) == Some(fileName)
  {
    SiblingStepsBack(fileName);
    SiblingOfStepped(fileName, SiblingName(fileName).value, Value(Last(fileName, '_')));
  }

  /** A name whose number is `v` stepped in the direction `v` chooses has as
      sibling the name `v` stands in, since the stepped number has the
      opposite parity and so looks back. */
  lemma SiblingOfStepped(fileName: string, sib: string, v: int)
    requires ParseInt(Last(sib, '_')) == Some(v + Direction(v))
    requires NextFileName(sib, -Direction(v)) == Some(fileName)
    ensures SiblingName(sib) == Some(fileName)
  {
    assert Direction(v + Direction(v)) == -Direction(v) by {
      DirectionFlipsParity(v);
    }
    SiblingIsStep(sib, v + Direction(v));
  }

  /** Under the conditions of SiblingSymmetric, the sibling's number is the
      stepped one and stepping it back gives the name. */
  lemma SiblingStepsBack(fileName: string)
    requires var seg := Last(fileName, '_');
             && |seg| >= 1 && AllDigits(seg)
             && (Value(seg) % 2 == 1 ==> Value(seg) + 1 < Pow10(|seg|))
             && (Value(seg) % 2 == 0 ==> Value(seg) >= 1)
    ensures SiblingName(fileName).Some?
    ensures var v := Value(Last(fileName, '_'));
            var sib := SiblingName(fileName).value;
            && ParseInt(Last(sib, '_')) == Some(v + Direction(v))
            && NextFileName(sib, -Direction(v)) == Some(fileName)
  {
    var seg := Last(fileName, '_');
    PairableStep(seg);
    SiblingIsStep(fileName, Value(seg));
    StepAndBack(fileName, Direction(Value(seg)));
  }

  /** A segment meeting the conditions of SiblingSymmetric reads as its
      value, and the step its parity chooses stays within its width and
      reads back. */
  lemma PairableStep(seg: string)
    requires && |seg| >= 1 && AllDigits(seg)
             && (Value(seg) % 2 == 1 ==> Value(seg) + 1 < Pow10(|seg|))
             && (Value(seg) % 2 == 0 ==> Value(seg) >= 1)
    ensures ParseInt(seg) == Some(Value(seg))
    ensures var v := Value(seg);
            0 <= v + Direction(v) < Pow10(|seg|)
    ensures var v := Value(seg);
            ParseInt(FormatInt(v + Direction(v), |seg|)) == Some(v + Direction(v))
  {
    var v := Value(seg);
    assert v < Pow10(|seg|) by {
      ValueBound(seg);
    }
    ParseFormat(v + Direction(v), |seg|);
  }

  /** Without the no-carry condition pairing is not mutual: a name whose
      number is all nines (width w, value 10^w - 1, so odd) looks for a
      sibling one digit wider, and that sibling looks for a name at least as
      wide as itself, which is not the original. "p_9" looks for "p_10",
      which looks for "p_09", so the two never pair. */
  lemma CarryBreaksPairing(fileName: string)
    requires var seg := Last(fileName, '_');
             |seg| >= 1 && AllDigits(seg) && Value(seg) + 1 == Pow10(|seg|)
    ensures SiblingName(fileName).Some?
    ensures |Last(SiblingName(fileName).value, '_')| > |Last(fileName, '_')|
    ensures SiblingName(SiblingName(fileName).value).Some?
    ensures SiblingName(SiblingName(fileName).value) != Some(fileName)
  {
    CarryWidens(fileName);
    var sib := SiblingName(fileName).value;
    StepDownKeepsWidth(sib, Value(Last(fileName, '_')) + 1);
  }

  /** An all-nines number steps up to a wider segment. */
  lemma CarryWidens(fileName: string)
    requires var seg := Last(fileName, '_');
             |seg| >= 1 && AllDigits(seg) && Value(seg) + 1 == Pow10(|seg|)
    ensures SiblingName(fileName).Some?
    ensures var v := Value(Last(fileName, '_'));
            && ParseInt(Last(SiblingName(fileName).value, '_')) == Some(v + 1)
            && (v + 1) % 2 == 0 && v + 1 >= 1
    ensures |Last(SiblingName(fileName).value, '_')| > |Last(fileName, '_')|
  {
    var seg := Last(fileName, '_');
    var v := Value(seg);
    assert ParseInt(seg) == Some(v);
    AllNinesIsOdd(v, |seg|);
    SiblingSegment(fileName, v);
    AllNinesWiden(v, |seg|);
  }

  /** 10^w - 1 is odd, so its sibling lies one above. */
  lemma AllNinesIsOdd(v: int, w: nat)
    requires w >= 1 && v + 1 == Pow10(w)
    ensures Direction(v) == 1 && (v + 1) % 2 == 0 && v + 1 >= 1
  {
    assert (v + 1) % 2 == 0 by {
      Pow10Even(w);
    }
    OddBeforeEven(v + 1);
  }

  /** 10^w written to width w takes w + 1 digits and reads back. */
  lemma AllNinesWiden(v: int, w: nat)
    requires v + 1 == Pow10(w)
    ensures ParseInt(FormatInt(v + 1, w)) == Some(v + 1)
    ensures |FormatInt(v + 1, w)| > w
  {
    ParseFormat(v + 1, w);
    DecimalOutgrows(v + 1, w);
  }

  /** An even, positive number steps down to a segment at least as wide. */
  lemma StepDownKeepsWidth(name: string, u: int)
    requires ParseInt(Last(name, '_')) == Some(u) && u % 2 == 0 && u >= 1
    ensures SiblingName(name).Some?
    ensures |Last(SiblingName(name).value, '_')| >= |Last(name, '_')|
  {
    assert Direction(u) == -1;
    SiblingSegment(name, u);
  }

  lemma Pow10Even(k: nat)
    requires k >= 1
    ensures Pow10(k) % 2 == 0
  {
    var y := 5 * Pow10(k - 1);
    assert Pow10(k) == 2 * y;
    DoubleIsEven(y);
  }

  lemma OddBeforeEven(u: int)
    requires u % 2 == 0
    ensures (u - 1) % 2 == 1
  {
  }

  lemma DoubleIsEven(y: int)
    ensures (2 * y) % 2 == 0
  {
  }
}
