/**
 * The two constant lookup tables of the encoder (section 7.4 of ISO/IEC 18004:2015):
 * the value of each alphanumeric-mode character, and the 4-bit mode indicators
 * of the four data modes.
 */
module Tables {
  import opened Wrappers
  import opened Binary

  /**
   * `ALPHANUMERIC_TABLE`: the 45 characters of alphanumeric mode and their values.
   * The single dictionary literal is written as the union of its three runs of
   * entries (digits, letters, symbols), which have disjoint keys; the pairs are
   * exactly those of the literal.
   */
  const AlphanumericTable: map<char, nat> := DigitEntries + LetterEntries + SymbolEntries

  const DigitEntries: map<char, nat> := map[
    '0' := 0, '1' := 1, '2' := 2, '3' := 3, '4' := 4,
    '5' := 5, '6' := 6, '7' := 7, '8' := 8, '9' := 9
  ]

  const LetterEntries: map<char, nat> := map[
    'A' := 10, 'B' := 11, 'C' := 12, 'D' := 13, 'E' := 14,
    'F' := 15, 'G' := 16, 'H' := 17, 'I' := 18, 'J' := 19,
    'K' := 20, 'L' := 21, 'M' := 22, 'N' := 23, 'O' := 24,
    'P' := 25, 'Q' := 26, 'R' := 27, 'S' := 28, 'T' := 29,
    'U' := 30, 'V' := 31, 'W' := 32, 'X' := 33, 'Y' := 34,
    'Z' := 35
  ]

  const SymbolEntries: map<char, nat> := map[
    ' ' := 36, '$' := 37, '%' := 38, '*' := 39,
    '+' := 40, '-' := 41, '.' := 42, '/' := 43, ':' := 44
  ]

  const Digits: string := "0123456789"
  const Letters: string := "ABCDEFGHIJKLMNOPQRSTUVWXYZ"

  /** The nine non-alphanumeric symbols of the set, in the standard's order. */
  const Symbols: string := " $%*+-./:"

  /** The alphanumeric character set in the standard's order: position `i` holds the character of value `i`. */
  const AlphanumericCharset: string := Digits + Letters + Symbols

  /** `MODE_INDICATOR_TABLE`: the 4-bit indicator that opens a segment of each of the four data modes. */
  const ModeIndicatorTable: map<string, string> := map[
    "Numeric" := "0001",
    "Alphanumeric" := "0010",
    "Byte" := "0100",
    "Kanji" := "1000"
  ]

  /** `MODE_INDICATOR_TABLE.get(mode)`: the indicator, or nothing for a mode the table lacks. */
  function ModeIndicator(mode: string): (r: Option<string>)
    ensures r.Some? <==> mode in ModeIndicatorTable
    ensures r.Some? ==> IsBitString(r.value) && |r.value| == 4 && multiset(r.value)['1'] == 1
  {
    ModeIndicatorsOneHot();
    if mode in ModeIndicatorTable then Some(ModeIndicatorTable[mode]) else None
  }

  lemma DigitEntriesShape()
    ensures forall c :: c in DigitEntries <==> '0' <= c <= '9'
    ensures forall c :: c in DigitEntries ==> DigitEntries[c] == c as int - '0' as int
    ensures |Digits| == 10 && forall k :: 0 <= k < 10 ==> Digits[k] as int == '0' as int + k
  {
  }

  lemma LetterEntriesShape()
    ensures forall c :: c in LetterEntries <==> 'A' <= c <= 'Z'
    ensures forall c :: c in LetterEntries ==> LetterEntries[c] == c as int - 'A' as int + 10
    ensures |Letters| == 26 && forall k :: 0 <= k < 26 ==> Letters[k] as int == 'A' as int + k
  {
  }

  lemma SymbolEntriesShape()
    ensures forall c :: c in SymbolEntries <==> c in Symbols
    ensures |Symbols| == 9 && forall k :: 0 <= k < 9 ==> Symbols[k] in SymbolEntries && SymbolEntries[Symbols[k]] == 36 + k
    ensures forall c :: c in Symbols ==> !('0' <= c <= '9') && !('A' <= c <= 'Z')
  {
  }

  /** Digits are worth their numeric value. */
  lemma DigitValues()
    ensures forall c: char :: '0' <= c <= '9' ==>
      c in AlphanumericTable && AlphanumericTable[c] == c as int - '0' as int
  {
    DigitEntriesShape();
    LetterEntriesShape();
    SymbolEntriesShape();
  }

  /** `A`..`Z` are worth 10..35, in alphabetical order. */
  lemma LetterValues()
    ensures forall c: char :: 'A' <= c <= 'Z' ==>
      c in AlphanumericTable && AlphanumericTable[c] == c as int - 'A' as int + 10
  {
    LetterEntriesShape();
    SymbolEntriesShape();
  }

  /** The nine symbols ` $%*+-./:` are worth 36..44, in that order. */
  lemma SymbolValues()
    ensures |Symbols| == 9
    ensures forall k :: 0 <= k < 9 ==>
      Symbols[k] in AlphanumericTable && AlphanumericTable[Symbols[k]] == 36 + k
  {
    SymbolEntriesShape();
  }

  /** No character outside the digits, the letters and the nine symbols has a value. */
  lemma AlphanumericKeys()
    ensures forall c :: c in AlphanumericTable <==> '0' <= c <= '9' || 'A' <= c <= 'Z' || c in Symbols
  {
    DigitEntriesShape();
    LetterEntriesShape();
    SymbolEntriesShape();
  }

  /** Position `i` of the ordered character set holds the character worth `i`. */
  lemma CharsetAt(i: nat)
    requires i < 45
    ensures i < |AlphanumericCharset|
    ensures AlphanumericCharset[i] in AlphanumericTable && AlphanumericTable[AlphanumericCharset[i]] == i
  {
    var cs := AlphanumericCharset;
    if i < 10 {
      DigitEntriesShape();
      DigitValues();
      assert cs[i] == Digits[i];
    } else if i < 36 {
      LetterEntriesShape();
      LetterValues();
      assert cs[i] == Letters[i - 10];
    } else {
      SymbolValues();
      assert cs[i] == Symbols[i - 36];
    }
  }

  /** Every key of the table is a character of the ordered set. */
  lemma KeyInCharset(c: char)
    requires c in AlphanumericTable
    ensures c in AlphanumericCharset
  {
    AlphanumericKeys();
    var k: nat;
    if '0' <= c <= '9' {
      k := DigitPosition(c);
    } else if 'A' <= c <= 'Z' {
      k := LetterPosition(c);
    } else {
      k := SymbolPosition(c);
    }
    assert AlphanumericCharset[k] == c;
  }

  lemma DigitPosition(c: char) returns (k: nat)
    requires '0' <= c <= '9'
    ensures k < |AlphanumericCharset| && AlphanumericCharset[k] == c
  {
    DigitEntriesShape();
    k := c as int - '0' as int;
    assert Digits[k] as int == c as int;
    assert AlphanumericCharset[k] == Digits[k];
  }

  lemma LetterPosition(c: char) returns (k: nat)
    requires 'A' <= c <= 'Z'
    ensures k < |AlphanumericCharset| && AlphanumericCharset[k] == c
  {
    LetterEntriesShape();
    var j := c as int - 'A' as int;
    assert Letters[j] as int == c as int;
    k := 10 + j;
    assert AlphanumericCharset[k] == Letters[j];
  }

  lemma SymbolPosition(c: char) returns (k: nat)
    requires c in Symbols
    ensures k < |AlphanumericCharset| && AlphanumericCharset[k] == c
  {
    SymbolEntriesShape();
    var j :| 0 <= j < |Symbols| && Symbols[j] == c;
    k := 36 + j;
    assert AlphanumericCharset[k] == Symbols[j];
  }

  /**
   * The table and the ordered character set agree: position `i` of the set
   * holds the character worth `i`, and every key of the table is in the set.
   */
  lemma CharsetMatchesTable()
    ensures NumbersInOrder(AlphanumericTable, AlphanumericCharset)
    ensures |AlphanumericCharset| == 45
  {
    forall i | 0 <= i < |AlphanumericCharset|
      ensures AlphanumericCharset[i] in AlphanumericTable && AlphanumericTable[AlphanumericCharset[i]] == i
    {
      CharsetAt(i);
    }
    forall c | c in AlphanumericTable ensures c in AlphanumericCharset {
      KeyInCharset(c);
    }
  }

  /** No two characters share a value. */
  lemma AlphanumericInjective()
    ensures forall c, d :: c in AlphanumericTable && d in AlphanumericTable && c != d ==>
      AlphanumericTable[c] != AlphanumericTable[d]
  {
    CharsetMatchesTable();
    NumberingInjective(AlphanumericTable, AlphanumericCharset);
  }

  /** The values used are exactly 0..44. */
  lemma AlphanumericValueRange()
    ensures forall v :: v in AlphanumericTable.Values <==> 0 <= v < 45
  {
    CharsetMatchesTable();
    NumberingValues(AlphanumericTable, AlphanumericCharset);
  }

  /** The table has exactly 45 keys. */
  lemma AlphanumericKeyCount()
    ensures |AlphanumericTable.Keys| == 45
  {
    CharsetMatchesTable();
    NumberingKeyCount(AlphanumericTable, AlphanumericCharset);
  }

  /** `m` numbers the characters of `cs` by position, and has no other keys. */
  predicate NumbersInOrder(m: map<char, nat>, cs: string)
  {
    && (forall i :: 0 <= i < |cs| ==> cs[i] in m && m[cs[i]] == i)
    && (forall c :: c in m ==> c in cs)
  }

  lemma NumberingInjective(m: map<char, nat>, cs: string)
    requires NumbersInOrder(m, cs)
    ensures forall c, d :: c in m && d in m && c != d ==> m[c] != m[d]
  {
    forall c, d | c in m && d in m && c != d ensures m[c] != m[d] {
      var i :| 0 <= i < |cs| && cs[i] == c;
      var j :| 0 <= j < |cs| && cs[j] == d;
    }
  }

  lemma NumberingValues(m: map<char, nat>, cs: string)
    requires NumbersInOrder(m, cs)
    ensures forall v :: v in m.Values <==> 0 <= v < |cs|
  {
    forall v | v in m.Values ensures v < |cs| {
      var c :| c in m && m[c] == v;
      var i :| 0 <= i < |cs| && cs[i] == c;
    }
    forall v: nat | v < |cs| ensures v in m.Values {
      assert m[cs[v]] == v;
    }
  }

  lemma NumberingKeyCount(m: map<char, nat>, cs: string)
    requires NumbersInOrder(m, cs)
    ensures |m.Keys| == |cs|
  {
    assert Distinct(cs) by {
      forall i, j | 0 <= i < j < |cs| ensures cs[i] != cs[j] {
        assert m[cs[i]] == i && m[cs[j]] == j;
      }
    }
    assert m.Keys == set c | c in cs;
    DistinctCard(cs);
  }

  predicate Distinct<T(==)>(s: seq<T>) { forall i, j :: 0 <= i < j < |s| ==> s[i] != s[j] }

  /** A sequence without repetitions has as many distinct elements as it has positions. */
  lemma {:induction false} DistinctCard<T>(s: seq<T>)
    requires Distinct(s)
    ensures |set x | x in s| == |s|
  {
    if s != [] {
      var rest := s[1..];
      assert (set x | x in s) == {s[0]} + (set x | x in rest);
      assert s[0] !in rest;
      DistinctCard(rest);
    }
  }

  /** Every mode indicator is four binary digits with exactly one '1'. */
  lemma ModeIndicatorsOneHot()
    ensures forall m :: m in ModeIndicatorTable ==>
      IsBitString(ModeIndicatorTable[m]) && |ModeIndicatorTable[m]| == 4 &&
      multiset(ModeIndicatorTable[m])['1'] == 1
  {
  }

  /** The four modes have four different indicators, and `ModeIndicator` tells them apart. */
  lemma ModeIndicatorsDistinct()
    ensures |ModeIndicatorTable.Keys| == 4
    ensures forall m, n :: m in ModeIndicatorTable && n in ModeIndicatorTable && m != n ==>
      ModeIndicatorTable[m] != ModeIndicatorTable[n]
  {
  }
}
