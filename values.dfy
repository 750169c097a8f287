/** Character classes, integer text and the attribute values the control
    listing parser produces (main.py:61-66). */
module Values {

  datatype Option<T> = None | Some(value: T)

  /** An attribute of a control: an integer when its text is one, the text otherwise. */
  datatype Value = IntV(i: int) | StrV(s: string)

  predicate IsDigit(c: char) { '0' <= c <= '9' }
  predicate IsLower(c: char) { 'a' <= c <= 'z' }
  predicate IsUpper(c: char) { 'A' <= c <= 'Z' }

  /** The regular-expression class `\w`, restricted to ASCII. */
  predicate IsWordChar(c: char) { IsDigit(c) || IsLower(c) || IsUpper(c) || c == '_' }

  /** Python's whitespace (`\s` in a str pattern, `str.isspace`, `str.split()`). */
  predicate IsSpace(c: char)
  {
    || c == ' ' || '\t' <= c <= '\r' || '\U{1C}' <= c <= '\U{1F}'
    || c == '\U{85}' || c == '\U{A0}' || c == '\U{1680}' || '\U{2000}' <= c <= '\U{200A}'
    || c == '\U{2028}' || c == '\U{2029}' || c == '\U{202F}' || c == '\U{205F}' || c == '\U{3000}'
  }

  lemma SpaceIsNotWord(c: char)
    ensures IsSpace(c) ==> !IsWordChar(c)
  {
  }

  predicate AllDigits(s: string) { forall k :: 0 <= k < |s| ==> IsDigit(s[k]) }

  /** The digit string that Python's int() accepts: ASCII digits, single
      underscores allowed between two digits. */
  predicate IsNumeral(s: string)
  {
    && |s| > 0 && IsDigit(s[0]) && IsDigit(s[|s| - 1])
    && (forall k :: 0 <= k < |s| ==> IsDigit(s[k]) || s[k] == '_')
    && (forall k :: 0 <= k < |s| - 1 && s[k] == '_' ==> s[k + 1] != '_')
  }

  function DigitValue(c: char): nat
    requires IsDigit(c)
  {
    c as int - '0' as int
  }

  /** The number a numeral denotes, underscores ignored. */
  function NumeralValue(s: string): nat
    requires forall k :: 0 <= k < |s| ==> IsDigit(s[k]) || s[k] == '_'
  {
    if s == [] then 0
    else if s[|s| - 1] == '_' then NumeralValue(s[..|s| - 1])
    else 10 * NumeralValue(s[..|s| - 1]) + DigitValue(s[|s| - 1])
  }

  /** Python's int() on a text: an optional sign then a numeral, or None
      where int() raises ValueError. */
  function ParseInt(t: string): (r: Option<int>)
    ensures r.Some? ==> |t| > 0
    ensures r.Some? && t[0] == '-' ==> r.value <= 0
    ensures r.Some? && t[0] != '-' ==> r.value >= 0
    ensures r.Some? && t[0] != '-' && t[0] != '+' ==> IsNumeral(t)
    ensures r.Some? && (t[0] == '-' || t[0] == '+') ==> IsNumeral(t[1..])
    ensures IsNumeral(t) ==> r == Some(NumeralValue(t))
    ensures |t| > 0 && t[0] == '-' && IsNumeral(t[1..]) ==> r == Some(0 - NumeralValue(t[1..]) as int)
    ensures |t| > 0 && t[0] == '+' && IsNumeral(t[1..]) ==> r == Some(NumeralValue(t[1..]) as int)
  {
    if |t| > 0 && (t[0] == '-' || t[0] == '+') then
      if IsNumeral(t[1..]) then
        Some(if t[0] == '-' then 0 - NumeralValue(t[1..]) as int else NumeralValue(t[1..]) as int)
      else None
    else if IsNumeral(t) then Some(NumeralValue(t))
    else None
  }

  /** The conversion attempted on every captured attribute text (main.py:61-66). */
  function ToValue(t: string): (v: Value)
    ensures v.IntV? <==> ParseInt(t).Some?
    ensures v.IntV? ==> ParseInt(t) == Some(v.i)
    ensures v.StrV? ==> v.s == t
  {
    match ParseInt(t)
    case Some(n) => IntV(n)
    case None => StrV(t)
  }

  function DigitChar(d: nat): (c: char)
    requires d < 10
    ensures IsDigit(c) && DigitValue(c) == d
  {
    ('0' as int + d) as char
  }

  /** Python's str() on a natural number. */
  function NatText(n: nat): (s: string)
    ensures |s| > 0 && AllDigits(s)
  {
    if n < 10 then [DigitChar(n)] else NatText(n / 10) + [DigitChar(n % 10)]
  }

  /** Python's str() on an integer. */
  function IntText(i: int): string
  {
    if i < 0 then "-" + NatText(-i) else NatText(i)
  }

  /** Python's str() on an attribute value, as the set command renders it (main.py:93-95). */
  function ValueText(v: Value): string
  {
    match v
    case IntV(i) => IntText(i)
    case StrV(s) => s
  }

  lemma {:induction false} NatTextValue(n: nat)
    ensures IsNumeral(NatText(n))
    ensures NumeralValue(NatText(n)) == n
  {
    if n >= 10 {
      NatTextValue(n / 10);
      var s := NatText(n);
      assert s[..|s| - 1] == NatText(n / 10);
    }
  }

  /** Reading back the decimal text of an integer gives that integer. */
  lemma IntTextRoundTrip(i: int)
    ensures ParseInt(IntText(i)) == Some(i)
  {
    if i < 0 {
      NatTextValue(-i);
      assert IntText(i)[1..] == NatText(-i);
    } else {
      NatTextValue(i);
    }
  }

  /** What a set command sends is read back by the listing's conversion as the
      same value: integers always, texts whenever int() rejects them. */
  lemma ValueTextRoundTrip(v: Value)
    requires v.StrV? ==> ParseInt(v.s).None?
    ensures ToValue(ValueText(v)) == v
  {
    if v.IntV? {
      IntTextRoundTrip(v.i);
    }
  }

  /** A text with a letter in it stays text, as `flags=inactive` does. */
  lemma LetterKeepsText(t: string, k: nat)
    requires k < |t| && (IsLower(t[k]) || IsUpper(t[k]))
    ensures ToValue(t) == StrV(t)
  {
    if |t| > 0 && (t[0] == '-' || t[0] == '+') {
      if k > 0 {
        assert t[1..][k - 1] == t[k];
      }
    }
  }

  /** A leading minus sign is taken (main.py:72 captures it, int() reads it). */
  lemma NegativeNumeral(s: string)
    requires IsNumeral(s)
    ensures ToValue("-" + s) == IntV(0 - NumeralValue(s) as int)
  {
    assert ("-" + s)[1..] == s;
  }

  /** The character classes the patterns use; NonSpace is `\S`. */
  datatype CharClass = Word | Lower | Space | NonSpace

  predicate InClass(c: char, cls: CharClass)
  {
    match cls
    case Word => IsWordChar(c)
    case Lower => IsLower(c)
    case Space => IsSpace(c)
    case NonSpace => !IsSpace(c)
  }

  /** The first index at or after i that holds a word character, or |s|. */
  function WordStart(s: string, i: nat): (k: nat)
    requires i <= |s|
    ensures i <= k <= |s|
    ensures forall j :: i <= j < k ==> !IsWordChar(s[j])
    ensures k < |s| ==> IsWordChar(s[k])
    decreases |s| - i
  {
    if i == |s| || IsWordChar(s[i]) then i else WordStart(s, i + 1)
  }

  /** The end of the longest run of class cls starting at i (a greedy `+` or `*`). */
  function RunEnd(s: string, i: nat, cls: CharClass): (e: nat)
    requires i <= |s|
    ensures i <= e <= |s|
    ensures forall j :: i <= j < e ==> InClass(s[j], cls)
    ensures e < |s| ==> !InClass(s[e], cls)
    ensures i < |s| && InClass(s[i], cls) ==> i < e
    decreases |s| - i
  {
    if i < |s| && InClass(s[i], cls) then RunEnd(s, i + 1, cls) else i
  }

  predicate AllIn(s: string, cls: CharClass)
  {
    forall k :: 0 <= k < |s| ==> InClass(s[k], cls)
  }

  lemma {:induction false} RunEndOver(s: string, i: nat, w: string, cls: CharClass)
    requires i + |w| <= |s| && s[i..i + |w|] == w && AllIn(w, cls)
    requires i + |w| == |s| || !InClass(s[i + |w|], cls)
    ensures RunEnd(s, i, cls) == i + |w|
    decreases |w|
  {
    if |w| > 0 {
      assert s[i] == w[0];
      assert s[i + 1..i + |w|] == w[1..];
      RunEndOver(s, i + 1, w[1..], cls);
    }
  }
}
