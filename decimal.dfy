/**
  Decimal text for integers, as the two sides of the protocol see it:
  the server renders a status code with Python's `'%s' % code`, the client
  reads it back with .NET's `int.Parse`, and the score endpoint converts a
  request field with Python's `int(...)`.
 */
module Decimal {
  import opened Wrappers

  const MinInt32: int := -0x8000_0000
  const MaxInt32: int := 0x7FFF_FFFF

  /**
    The white space Python's str.isspace() accepts, which int() strips at
    either end of a text: the ASCII controls U+0009..U+000D and the
    separators U+001C..U+001F, the space, and the Unicode spaces.
   */
  predicate IsPythonSpace(c: char) {
    || c == ' ' || '\t' <= c <= '\r' || '\U{1C}' <= c <= '\U{1F}'
    || c == '\U{85}' || c == '\U{A0}' || c == '\U{1680}' || '\U{2000}' <= c <= '\U{200A}'
    || c == '\U{2028}' || c == '\U{2029}' || c == '\U{202F}' || c == '\U{205F}' || c == '\U{3000}'
  }

  /** The white space .NET's integer parser skips at either end (AllowLeadingWhite, AllowTrailingWhite): U+0009..U+000D and the space. */
  predicate IsNetSpace(c: char) {
    c == ' ' || '\t' <= c <= '\r'
  }

  /** Whose integer reader: Python's int() or .NET's Int32.Parse; they differ only in the white space they skip. */
  datatype Reader = Python | Net

  predicate IsSpace(reader: Reader, c: char) {
    match reader
    case Python => IsPythonSpace(c)
    case Net => IsNetSpace(c)
  }

  predicate IsDigit(c: char) {
    '0' <= c <= '9'
  }

  predicate AllDigits(s: string) {
    forall i :: 0 <= i < |s| ==> IsDigit(s[i])
  }

  /** The value of a string of decimal digits, most significant first. */
  function DigitsValue(s: string): nat
    requires AllDigits(s)
  {
    if s == [] then 0 else 10 * DigitsValue(s[..|s| - 1]) + (s[|s| - 1] as int - '0' as int)
  }

  function DigitChar(d: nat): (c: char)
    requires d < 10
    ensures IsDigit(c) && c as int - '0' as int == d
  {
    ('0' as int + d) as char
  }

  /** The shortest decimal spelling of a natural number. */
  function Digits(n: nat): (s: string)
    ensures s != [] && AllDigits(s)
    ensures DigitsValue(s) == n
    ensures s[0] == '0' ==> s == "0"
    decreases n
  {
    if n < 10 then [DigitChar(n)]
    else
      var front := Digits(n / 10);
      assert (front + [DigitChar(n % 10)])[..|front|] == front;
      front + [DigitChar(n % 10)]
  }

  /** Python's str() of an int: an optional '-' and the shortest digit string. */
  function Show(n: int): (s: string)
    ensures s != [] && IsDigit(s[|s| - 1])
    ensures forall i :: 0 <= i < |s| ==> s[i] != ' '
    ensures n >= 0 ==> IsDigit(s[0])
    ensures n < 0 ==> s[0] == '-'
  {
    if n < 0 then "-" + Digits(-n) else Digits(n)
  }

  function TrimStart(s: string, reader: Reader): (t: string)
    ensures |t| <= |s|
    ensures t != [] ==> !IsSpace(reader, t[0])
  {
    if s != [] && IsSpace(reader, s[0]) then TrimStart(s[1..], reader) else s
  }

  function TrimEnd(s: string, reader: Reader): (t: string)
    ensures |t| <= |s|
    ensures t != [] ==> !IsSpace(reader, t[|t| - 1])
  {
    if s != [] && IsSpace(reader, s[|s| - 1]) then TrimEnd(s[..|s| - 1], reader) else s
  }

  /** The text with the reader's white space stripped at both ends. */
  function Trimmed(s: string, reader: Reader): string {
    TrimEnd(TrimStart(s, reader), reader)
  }

  /** A text that neither starts nor ends in white space is left as it is. */
  lemma TrimKeepsUnspaced(s: string, reader: Reader)
    ensures s != [] && !IsSpace(reader, s[0]) && !IsSpace(reader, s[|s| - 1]) ==> Trimmed(s, reader) == s
  {
  }

  /** A text of white space only trims to nothing. */
  lemma {:induction false} TrimRemovesSpace(s: string, reader: Reader)
    ensures (forall i :: 0 <= i < |s| ==> IsSpace(reader, s[i])) ==> TrimStart(s, reader) == []
  {
    if s != [] && (forall i :: 0 <= i < |s| ==> IsSpace(reader, s[i])) {
      assert IsSpace(reader, s[0]);
      assert forall i :: 0 <= i < |s[1..]| ==> IsSpace(reader, s[1..][i]) by {
        forall i | 0 <= i < |s[1..]| ensures IsSpace(reader, s[1..][i]) {
          assert s[1..][i] == s[i + 1];
        }
      }
      TrimRemovesSpace(s[1..], reader);
    }
  }

  /** A text with no white space around it: an optional sign, then one or more decimal digits; None for anything else. */
  function ParseSigned(t: string): Option<int> {
    if t != [] && (t[0] == '-' || t[0] == '+') then
      var ds := t[1..];
      if ds != [] && AllDigits(ds) then
        var magnitude: int := DigitsValue(ds);
        Some(if t[0] == '-' then -magnitude else magnitude)
      else None
    else if t != [] && AllDigits(t) then Some(DigitsValue(t))
    else None
  }

  /** Neither reader takes a digit or a minus sign for white space. */
  lemma NotSpace(reader: Reader, c: char)
    requires IsDigit(c) || c == '-'
    ensures !IsSpace(reader, c)
  {
  }

  /** A digit string passes either reader's trimming untouched. */
  lemma DigitsUntrimmed(s: string, reader: Reader)
    requires s != [] && AllDigits(s)
    ensures Trimmed(s, reader) == s
  {
    NotSpace(reader, s[0]);
    NotSpace(reader, s[|s| - 1]);
    TrimKeepsUnspaced(s, reader);
  }

  /** So does a minus sign followed by digits. */
  lemma NegatedUntrimmed(s: string, reader: Reader)
    requires |s| >= 2 && s[0] == '-' && AllDigits(s[1..])
    ensures Trimmed(s, reader) == s
  {
    NotSpace(reader, s[0]);
    assert s[|s| - 1] == s[1..][|s| - 2];
    NotSpace(reader, s[|s| - 1]);
    TrimKeepsUnspaced(s, reader);
  }

  /** What either reader makes of the empty text, blank text, a digit string and a negated digit string. */
  lemma ParseTrimmed(s: string, reader: Reader)
    ensures s == [] ==> Trimmed(s, reader) == []
    ensures s != [] && AllDigits(s) ==> Trimmed(s, reader) == s
    ensures |s| >= 2 && s[0] == '-' && AllDigits(s[1..]) ==> Trimmed(s, reader) == s
    ensures (forall i :: 0 <= i < |s| ==> IsSpace(reader, s[i])) ==> Trimmed(s, reader) == []
  {
    TrimRemovesSpace(s, reader);
    if s != [] && AllDigits(s) {
      DigitsUntrimmed(s, reader);
    }
    if |s| >= 2 && s[0] == '-' && AllDigits(s[1..]) {
      NegatedUntrimmed(s, reader);
    }
  }

  /**
    Python's int() of a text: white space at either end, then an optional
    sign, then one or more decimal digits; None (ValueError) for anything else.
   */
  function ParseInteger(s: string): (r: Option<int>)
    ensures s == [] ==> r.None?
    ensures s != [] && AllDigits(s) ==> r == Some(DigitsValue(s))
    ensures |s| >= 2 && s[0] == '-' && AllDigits(s[1..]) ==> r == Some(-(DigitsValue(s[1..]) as int))
    ensures (forall i :: 0 <= i < |s| ==> IsSpace(Python, s[i])) ==> r.None?
  {
    ParseTrimmed(s, Python);
    ParseSigned(Trimmed(s, Python))
  }

  /** .NET's integer reading before its range check: the same grammar with its own, narrower, white space. */
  function ParseNetInteger(s: string): (r: Option<int>)
    ensures s == [] ==> r.None?
    ensures s != [] && AllDigits(s) ==> r == Some(DigitsValue(s))
    ensures |s| >= 2 && s[0] == '-' && AllDigits(s[1..]) ==> r == Some(-(DigitsValue(s[1..]) as int))
    ensures (forall i :: 0 <= i < |s| ==> IsSpace(Net, s[i])) ==> r.None?
  {
    ParseTrimmed(s, Net);
    ParseSigned(Trimmed(s, Net))
  }

  /** .NET's Int32.Parse with the default integer style: ParseNetInteger, failing outside 32 bits (OverflowException). */
  function ParseInt32(s: string): (r: Option<int>)
    ensures r.Some? ==> MinInt32 <= r.value <= MaxInt32
    ensures r.Some? <==> ParseNetInteger(s).Some? && MinInt32 <= ParseNetInteger(s).value <= MaxInt32
    ensures r.Some? ==> r.value == ParseNetInteger(s).value
  {
    match ParseNetInteger(s)
    case Some(v) => if MinInt32 <= v <= MaxInt32 then Some(v) else None
    case None => None
  }

  /** Without surrounding white space, the text Show wrote reads back as the same integer. */
  lemma SignedShow(n: int)
    ensures ParseSigned(Show(n)) == Some(n)
  {
    if n < 0 {
      assert Show(n)[1..] == Digits(-n);
    }
  }

  /** Stripping white space leaves what Show wrote as it is, for both readers. */
  lemma TrimShow(n: int)
    ensures Trimmed(Show(n), Python) == Show(n)
    ensures Trimmed(Show(n), Net) == Show(n)
  {
    var s := Show(n);
    NotSpace(Python, s[0]);
    NotSpace(Net, s[0]);
    NotSpace(Python, s[|s| - 1]);
    NotSpace(Net, s[|s| - 1]);
    TrimKeepsUnspaced(s, Python);
    TrimKeepsUnspaced(s, Net);
  }

  /** Reading back what Show wrote gives the same integer. */
  lemma ParseShow(n: int)
    ensures ParseInteger(Show(n)) == Some(n)
  {
    TrimShow(n);
    SignedShow(n);
  }

  /** Within 32 bits the .NET reader agrees with the Python writer. */
  lemma ParseInt32Show(n: int)
    requires MinInt32 <= n <= MaxInt32
    ensures ParseInt32(Show(n)) == Some(n)
  {
    ParseNetShow(n);
  }

  /** .NET reads back what Show wrote, at any magnitude, before its range check. */
  lemma ParseNetShow(n: int)
    ensures ParseNetInteger(Show(n)) == Some(n)
  {
    TrimShow(n);
    SignedShow(n);
  }

  /** The two readers differ on the ASCII separators: Python's int() skips U+001C, .NET's Int32.Parse refuses it. */
  lemma SeparatorSkippedOnlyByPython()
    ensures ParseInteger("\U{1C}7") == Some(7)
    ensures ParseInt32("\U{1C}7") == None
  {
    var s := "\U{1C}7";
    assert Trimmed(s, Python) == "7" by {
      assert s[1..] == "7";
      NotSpace(Python, '7');
      assert IsSpace(Python, s[0]);
    }
    assert ParseSigned("7") == Some(7) by {
      assert DigitsValue("7") == 7 by {
        assert "7"[..0] == [];
      }
    }
    assert Trimmed(s, Net) == s by {
      NotSpace(Net, '7');
      assert !IsSpace(Net, s[0]);
    }
    assert ParseSigned(s) == None by {
      assert !AllDigits(s);
    }
  }
}
