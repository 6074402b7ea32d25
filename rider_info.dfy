/**
 * Per-rider field extractors. Each takes the page and a rider slot `n` and
 * looks up one text. The composite info text is "LG / term / <age><class> /
 * rank / points", split on '/'; the timing fields come from table cells
 * whose row is given by the three-rows-per-rider layout.
 *
 * Only `AttributeError` and `ValueError` are caught in the source, so indexing
 * past the last '/'-separated part lets `IndexError` escape: those extractors
 * return `Py`, the others cannot raise and return `Option` directly.
 */
module RiderExtractors {
  import opened Base
  import opened PyStr
  import opened PyInt
  import opened Page

  const InfoSeparator: char := '/'
  const AgeMark: char := '歳'
  const ClassMark: char := '級'

  // ---------------------------------------------------------------------------
  // Table layout: three physical rows per rider.

  /** The handicap row, the trial-time row and the deviation row of a rider. */
  datatype RowPart = HandicapRow | TrialRow | DeviationRow

  /** Row number (`nth-of-type`) of one of rider `n`'s rows: 3n-2, 3n-1 or 3n. */
  function Row(n: int, part: RowPart): int {
    match part
    case HandicapRow => n * 3 - 2
    case TrialRow => n * 3 - 1
    case DeviationRow => n * 3
  }

  /** The rider a row belongs to. */
  function SlotOfRow(row: int): int {
    (row + 2) / 3
  }

  /** Which of its rider's three rows a row is. */
  function PartOfRow(row: int): RowPart {
    if row % 3 == 1 then HandicapRow else if row % 3 == 2 then TrialRow else DeviationRow
  }

  /** Every row of riders 1..8 lies in 1..24 and determines its rider and part. */
  lemma RowLayout(n: int, part: RowPart)
    requires 1 <= n <= 8
    ensures 1 <= Row(n, part) <= 24
    ensures SlotOfRow(Row(n, part)) == n && PartOfRow(Row(n, part)) == part
  {
  }

  /** Rows 1..24 are each some rider's row. */
  lemma RowsCover(row: int)
    requires 1 <= row <= 24
    ensures 1 <= SlotOfRow(row) <= 8
    ensures Row(SlotOfRow(row), PartOfRow(row)) == row
  {
  }

  /** No two (rider, part) pairs of riders 1..8 share a row. */
  lemma RowsDistinct(n: int, p: RowPart, m: int, q: RowPart)
    requires 1 <= n <= 8 && 1 <= m <= 8
    requires n != m || p != q
    ensures Row(n, p) != Row(m, q)
  {
    RowLayout(n, p);
    RowLayout(m, q);
  }

  // ---------------------------------------------------------------------------
  // The composite info text.

  /** The rider's name: the looked-up text unchanged, "" kept as "" (the slot is then skipped). */
  function Name(doc: Doc, n: int): (r: Option<string>)
    ensures r.Some? <==> RiderName(n) in doc.texts
    ensures r.Some? ==> r.value == doc.texts[RiderName(n)]
  {
    GetText(doc, RiderName(n))
  }

  function InfoText(doc: Doc, n: int): Option<string> {
    GetText(doc, RiderInfo(n))
  }

  /**
   * The `k`-th '/'-separated field of `t`, found by partitioning at the
   * first separator `k` times: a reference for what indexing a split yields.
   */
  function NthField(t: string, k: nat): string
    decreases k
  {
    var (head, _, tail) := Partition(t, InfoSeparator);
    if k == 0 then head else NthField(tail, k - 1)
  }

  /** Indexing the split is the same as partitioning `k` times. */
  lemma {:induction false} SplitIsRepeatedPartition(t: string, k: nat)
    requires k < |Split(t, InfoSeparator)|
    ensures Split(t, InfoSeparator)[k] == NthField(t, k)
    decreases k
  {
    var (head, mid, tail) := Partition(t, InfoSeparator);
    if InfoSeparator in t {
      SplitAfterHead(head, tail, InfoSeparator);
      if k == 0 {
        SplitHeadIsPartitionHead(t, InfoSeparator);
      } else {
        SplitIsRepeatedPartition(tail, k - 1);
      }
    } else {
      SplitWithoutSeparator(t, InfoSeparator);
    }
  }

  /** Number of '/' in the info text. */
  function Separators(t: string): nat {
    multiset(t)[InfoSeparator]
  }

  lemma SeparatorsPresent(t: string)
    ensures Separators(t) >= 1 <==> InfoSeparator in t
  {
  }

  /**
   * `text.split('/')[k].strip() if text else None`: None for an absent or
   * empty text, the stripped `k`-th part, or `IndexError` when the text has
   * fewer than `k` separators (so fewer than `k + 1` parts).
   */
  function InfoPart(doc: Doc, n: int, k: nat): (r: Py<Option<string>>)
    ensures !Truthy(InfoText(doc, n)) ==> r == Value(None)
    ensures Truthy(InfoText(doc, n)) ==>
      (r.Raises? <==> Separators(InfoText(doc, n).value) < k)
    ensures r.Raises? ==> r.exc == IndexError
    ensures r.Value? && Truthy(InfoText(doc, n)) ==>
      r.value == Some(Strip(NthField(InfoText(doc, n).value, k)))
  {
    var text := InfoText(doc, n);
    if Truthy(text) then
      var parts := Split(text.value, InfoSeparator);
      SplitCount(text.value, InfoSeparator);
      if k < |parts| then
        SplitIsRepeatedPartition(text.value, k);
        Value(Some(Strip(parts[k])))
      else Raises(IndexError)
    else Value(None)
  }

  /** Locker ground: the first part. It always exists, so this never raises. */
  function LockerGround(doc: Doc, n: int): (r: Py<Option<string>>)
    ensures r.Value?
    ensures r.value.Some? <==> Truthy(InfoText(doc, n))
    ensures r.value.Some? ==> r.value.value == Strip(Partition(InfoText(doc, n).value, InfoSeparator).0)
  {
    InfoPart(doc, n, 0)
  }

  /** Registration term: the second part; raises when the text has no '/'. */
  function RegistrationTerm(doc: Doc, n: int): (r: Py<Option<string>>)
    ensures !Truthy(InfoText(doc, n)) ==> r == Value(None)
    ensures Truthy(InfoText(doc, n)) ==> (r == Raises(IndexError) <==> InfoSeparator !in InfoText(doc, n).value)
    ensures r.Value? && Truthy(InfoText(doc, n)) ==>
      var t := InfoText(doc, n).value;
      r.value == Some(Strip(Partition(Partition(t, InfoSeparator).2, InfoSeparator).0))
  {
    var r := InfoPart(doc, n, 1);
    if Truthy(InfoText(doc, n)) then
      var t := InfoText(doc, n).value;
      SeparatorsPresent(t);
      assert NthField(t, 1) == Partition(Partition(t, InfoSeparator).2, InfoSeparator).0;
      r
    else r
  }

  /** Rank: the fourth part; raises when the text has fewer than three '/'. */
  function Rank(doc: Doc, n: int): (r: Py<Option<string>>)
    ensures !Truthy(InfoText(doc, n)) ==> r == Value(None)
    ensures Truthy(InfoText(doc, n)) ==> (r == Raises(IndexError) <==> Separators(InfoText(doc, n).value) < 3)
    ensures r.Value? && Truthy(InfoText(doc, n)) ==> r.value == Some(Strip(NthField(InfoText(doc, n).value, 3)))
  {
    InfoPart(doc, n, 3)
  }

  /**
   * Points: `float` of the fifth part. Raises when the text has fewer than
   * four '/', and is None when the part does not parse.
   */
  function Points(doc: Doc, n: int, parseFloat: FloatParser): (r: Py<Option<Float>>)
    ensures !Truthy(InfoText(doc, n)) ==> r == Value(None)
    ensures Truthy(InfoText(doc, n)) ==> (r == Raises(IndexError) <==> Separators(InfoText(doc, n).value) < 4)
    ensures r.Value? && Truthy(InfoText(doc, n)) ==> r.value == PyFloat(parseFloat, Strip(NthField(InfoText(doc, n).value, 4)))
  {
    var part :- InfoPart(doc, n, 4);
    Value(if part.Some? then PyFloat(parseFloat, part.value) else None)
  }

  // ---------------------------------------------------------------------------
  // Age and bike class: `re.match(r'(\d+歳)(\d+級)', part)`.

  /** `x` is one or more digits followed by `mark`. */
  predicate IsNumberWith(x: string, mark: char) {
    |x| >= 2 && x[|x| - 1] == mark && IsDigits(x[..|x| - 1])
  }

  /** `s` starts with an age `a` ("<digits>歳") immediately followed by a class `c` ("<digits>級"). */
  predicate AgeClassPrefix(s: string, a: string, c: string) {
    IsNumberWith(a, AgeMark) && IsNumberWith(c, ClassMark) && a + c <= s
  }

  /** Length of the run of digits at the start of `s`. */
  function DigitRun(s: string): (k: nat)
    ensures k <= |s|
    ensures forall i :: 0 <= i < k ==> IsDigit(s[i])
    ensures k < |s| ==> !IsDigit(s[k])
  {
    if s != [] && IsDigit(s[0]) then 1 + DigitRun(s[1..]) else 0
  }

  /**
   * The regular expression anchored at the start of `s`. `\d+` is greedy,
   * and since neither mark is a digit, backtracking into a shorter digit run
   * can never succeed, so the longest digit run is the only candidate for
   * each group. (Python's `\d` also matches non-ASCII decimal digits; this
   * model matches ASCII digits.)
   */
  function MatchAgeClass(s: string): (r: Option<(string, string)>)
    ensures r.Some? ==> AgeClassPrefix(s, r.value.0, r.value.1)
  {
    var d1 := DigitRun(s);
    if d1 == 0 || d1 == |s| || s[d1] != AgeMark then None
    else
      var rest := s[d1 + 1..];
      var d2 := DigitRun(rest);
      if d2 == 0 || d2 == |rest| || rest[d2] != ClassMark then None
      else
        var a, c := s[..d1 + 1], rest[..d2 + 1];
        assert a[..|a| - 1] == s[..d1];
        assert c[..|c| - 1] == rest[..d2];
        assert a + c == s[..d1 + d2 + 2];
        Some((a, c))
  }

  /** A digit run followed by a non-digit is the digit run `DigitRun` finds. */
  lemma DigitRunIs(s: string, k: nat)
    requires k < |s| && IsDigits(s[..k]) && !IsDigit(s[k])
    ensures DigitRun(s) == k
  {
    forall i | 0 <= i < k
      ensures IsDigit(s[i])
    {
      assert s[..k][i] == s[i];
    }
  }

  /** Whenever `s` starts with an age and a class, the match finds exactly those two. */
  lemma MatchAgeClassComplete(s: string, a: string, c: string)
    requires AgeClassPrefix(s, a, c)
    ensures MatchAgeClass(s) == Some((a, c))
  {
    var k := |a| - 1;
    assert s[..k] == a[..k];
    assert s[k] == AgeMark;
    DigitRunIs(s, k);
    var rest := s[k + 1..];
    var j := |c| - 1;
    assert rest[..j] == c[..j];
    assert rest[j] == ClassMark;
    DigitRunIs(rest, j);
    assert s[..k + 1] == a;
    assert rest[..j + 1] == c;
  }

  /** The stripped third part, fed to the match when it is non-empty. */
  function AgeClassOf(part: Option<string>): Option<(string, string)> {
    if part.Some? && part.value != "" then MatchAgeClass(part.value) else None
  }

  /** When the match finds nothing in a present part, no age and class start it. */
  lemma NoAgeClassPrefix(part: Option<string>)
    requires part.Some? && AgeClassOf(part).None?
    ensures forall a, c :: !AgeClassPrefix(part.value, a, c)
  {
    forall a, c | AgeClassPrefix(part.value, a, c)
      ensures false
    {
      MatchAgeClassComplete(part.value, a, c);
    }
  }

  /** Age: group 1 of the match on the third part; raises when the text has fewer than two '/'. */
  function Age(doc: Doc, n: int): (r: Py<Option<string>>)
    ensures !Truthy(InfoText(doc, n)) ==> r == Value(None)
    ensures Truthy(InfoText(doc, n)) ==> (r == Raises(IndexError) <==> Separators(InfoText(doc, n).value) < 2)
    ensures r.Value? && r.value.Some? ==> Truthy(InfoText(doc, n))
    ensures Truthy(InfoText(doc, n)) && r.Value? && r.value.Some? ==>
      exists c :: AgeClassPrefix(Strip(NthField(InfoText(doc, n).value, 2)), r.value.value, c)
    ensures Truthy(InfoText(doc, n)) && r.Value? && r.value.None? ==>
      forall a, c :: !AgeClassPrefix(Strip(NthField(InfoText(doc, n).value, 2)), a, c)
  {
    var part :- InfoPart(doc, n, 2);
    var m := AgeClassOf(part);
    if m.Some? then
      assert AgeClassPrefix(part.value, m.value.0, m.value.1);
      Value(Some(m.value.0))
    else if part.Some? then
      NoAgeClassPrefix(part);
      Value(None)
    else Value(None)
  }

  /** Bike class: group 2 of the same match; raises exactly when `Age` does. */
  function BikeClass(doc: Doc, n: int): (r: Py<Option<string>>)
    ensures !Truthy(InfoText(doc, n)) ==> r == Value(None)
    ensures Truthy(InfoText(doc, n)) ==> (r == Raises(IndexError) <==> Separators(InfoText(doc, n).value) < 2)
    ensures r.Value? && r.value.Some? ==> Truthy(InfoText(doc, n))
    ensures Truthy(InfoText(doc, n)) && r.Value? && r.value.Some? ==>
      exists a :: AgeClassPrefix(Strip(NthField(InfoText(doc, n).value, 2)), a, r.value.value)
    ensures Truthy(InfoText(doc, n)) && r.Value? && r.value.None? ==>
      forall a, c :: !AgeClassPrefix(Strip(NthField(InfoText(doc, n).value, 2)), a, c)
  {
    var part :- InfoPart(doc, n, 2);
    var m := AgeClassOf(part);
    if m.Some? then
      assert AgeClassPrefix(part.value, m.value.0, m.value.1);
      Value(Some(m.value.1))
    else if part.Some? then
      NoAgeClassPrefix(part);
      Value(None)
    else Value(None)
  }

  /**
   * For one rider, age and bike class are present together. When present,
   * they are the unique age and class that together start the stripped third
   * part (the match is anchored at the start only); when absent, no such
   * pair starts it.
   */
  lemma AgeWithBikeClass(doc: Doc, n: int)
    ensures Age(doc, n).Raises? <==> BikeClass(doc, n).Raises?
    ensures Age(doc, n).Value? ==> (Age(doc, n).value.Some? <==> BikeClass(doc, n).value.Some?)
    ensures Age(doc, n).Value? && Age(doc, n).value.Some? ==>
      var part := Strip(NthField(InfoText(doc, n).value, 2));
      AgeClassPrefix(part, Age(doc, n).value.value, BikeClass(doc, n).value.value)
    ensures Age(doc, n).Value? && Age(doc, n).value.None? && Truthy(InfoText(doc, n)) ==>
      forall a, c :: !AgeClassPrefix(Strip(NthField(InfoText(doc, n).value, 2)), a, c)
  {
    if Age(doc, n).Value? && Age(doc, n).value.None? && Truthy(InfoText(doc, n)) {
      var part := Strip(NthField(InfoText(doc, n).value, 2));
      forall a, c | AgeClassPrefix(part, a, c)
        ensures false
      {
        MatchAgeClassComplete(part, a, c);
      }
    }
  }

  /** The source's documented cases: "36歳2級" splits into "36歳" and "2級"; "abc" and "" match nothing. */
  lemma MatchAgeClassExamples()
    ensures MatchAgeClass("36歳2級") == Some(("36歳", "2級"))
    ensures MatchAgeClass("36歳2級 extra") == Some(("36歳", "2級"))
    ensures MatchAgeClass("abc") == None
    ensures AgeClassOf(Some("")) == None
  {
    MatchAgeClassComplete("36歳2級", "36歳", "2級");
    MatchAgeClassComplete("36歳2級 extra", "36歳", "2級");
    assert DigitRun("abc") == 0;
  }

  // ---------------------------------------------------------------------------
  // Table cells.

  function CellText(doc: Doc, n: int, part: RowPart, col: int): Option<string> {
    GetText(doc, RowCell(n, Row(n, part), col))
  }

  /** Handicap: `int` of row 3n-2, column 4; None when absent, empty or not an integer. */
  function Handicap(doc: Doc, n: int): (r: Option<int>)
    ensures r.Some? <==> Truthy(CellText(doc, n, HandicapRow, 4)) && ParseInt(CellText(doc, n, HandicapRow, 4).value).Some?
    ensures r.Some? ==> ParseInt(CellText(doc, n, HandicapRow, 4).value) == r
  {
    var text := CellText(doc, n, HandicapRow, 4);
    if Truthy(text) then ParseInt(text.value) else None
  }

  /** A handicap cell holding the decimal rendering of `k` yields `k`. */
  lemma HandicapOfRendered(doc: Doc, n: int, k: int)
    requires CellText(doc, n, HandicapRow, 4) == Some(Render(k))
    ensures Handicap(doc, n) == Some(k)
  {
    ParseRender(k);
  }

  /**
   * Python's `float(text)` with `ValueError` caught: text that is empty or
   * only whitespace is always refused; on any other text the result is what
   * the parser gives.
   */
  function PyFloat(parseFloat: FloatParser, text: string): (r: Option<Float>)
    ensures Strip(text) == [] ==> r == None
    ensures Strip(text) != [] ==> r == parseFloat(text)
  {
    if Strip(text) == [] then None else parseFloat(text)
  }

  /** `float(text) if text else None` on one cell, with `ValueError` caught. */
  function FloatCell(doc: Doc, n: int, part: RowPart, col: int, parseFloat: FloatParser): Option<Float>
  {
    var text := CellText(doc, n, part, col);
    if Truthy(text) then PyFloat(parseFloat, text.value) else None
  }

  /** Trial time: row 3n-1, column 1; None when the cell is absent, empty or not a float. */
  function TrialTime(doc: Doc, n: int, parseFloat: FloatParser): (r: Option<Float>)
    ensures !Truthy(GetText(doc, RowCell(n, 3 * n - 1, 1))) ==> r == None
    ensures Truthy(GetText(doc, RowCell(n, 3 * n - 1, 1))) ==> r == PyFloat(parseFloat, GetText(doc, RowCell(n, 3 * n - 1, 1)).value)
  {
    FloatCell(doc, n, TrialRow, 1, parseFloat)
  }

  /** Trial deviation: row 3n, column 1; None when the cell is absent, empty or not a float. */
  function TrialDeviation(doc: Doc, n: int, parseFloat: FloatParser): (r: Option<Float>)
    ensures !Truthy(GetText(doc, RowCell(n, 3 * n, 1))) ==> r == None
    ensures Truthy(GetText(doc, RowCell(n, 3 * n, 1))) ==> r == PyFloat(parseFloat, GetText(doc, RowCell(n, 3 * n, 1)).value)
  {
    FloatCell(doc, n, DeviationRow, 1, parseFloat)
  }

  /** Average trial time: row 3n-2, column 5; None when the cell is absent, empty or not a float. */
  function AverageTrialTime(doc: Doc, n: int, parseFloat: FloatParser): (r: Option<Float>)
    ensures !Truthy(GetText(doc, RowCell(n, 3 * n - 2, 5))) ==> r == None
    ensures Truthy(GetText(doc, RowCell(n, 3 * n - 2, 5))) ==> r == PyFloat(parseFloat, GetText(doc, RowCell(n, 3 * n - 2, 5)).value)
  {
    FloatCell(doc, n, HandicapRow, 5, parseFloat)
  }

  /** Average race time: row 3n-1, column 2; None when the cell is absent, empty or not a float. */
  function AverageRaceTime(doc: Doc, n: int, parseFloat: FloatParser): (r: Option<Float>)
    ensures !Truthy(GetText(doc, RowCell(n, 3 * n - 1, 2))) ==> r == None
    ensures Truthy(GetText(doc, RowCell(n, 3 * n - 1, 2))) ==> r == PyFloat(parseFloat, GetText(doc, RowCell(n, 3 * n - 1, 2)).value)
  {
    FloatCell(doc, n, TrialRow, 2, parseFloat)
  }
}
