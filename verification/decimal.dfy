/** Decimal text on the wire: the unsigned counts and command codes read with
    QByteArray::toUInt, the signed 32-bit values read with QByteArray::toInt,
    and the spelling a sender uses for them. */
module Decimal {
  import opened Base

  const MaxUInt32: nat := 0xFFFF_FFFF
  const MinInt32: int := -0x8000_0000
  const MaxInt32: int := 0x7FFF_FFFF

  predicate IsDigit(b: byte) {
    48 <= b <= 57
  }

  predicate AllDigits(s: seq<byte>) {
    forall i :: 0 <= i < |s| ==> IsDigit(s[i])
  }

  /** The number a run of decimal digits denotes, most significant first. */
  function DigitsValue(s: seq<byte>): nat
    requires AllDigits(s)
  {
    if |s| == 0 then 0 else DigitsValue(s[..|s| - 1]) * 10 + (s[|s| - 1] - 48)
  }

  /** The shortest decimal spelling of `n`: never empty, no leading zero,
      and it reads back as `n`. */
  function Digits(n: nat): (r: seq<byte>)
    ensures 1 <= |r| && AllDigits(r)
    ensures r[0] == Zero ==> n == 0
    ensures DigitsValue(r) == n
  {
    if n < 10 then [48 + n]
    else
      var init := Digits(n / 10);
      var r := init + [48 + n % 10];
      assert r[..|r| - 1] == init;
      r
  }

  /** What C's isspace accepts in the "C" locale: tab, line feed, vertical
      tab, form feed, carriage return and space. */
  predicate IsBlank(b: byte) {
    b == Space || 9 <= b <= 13
  }

  predicate AllBlank(s: seq<byte>) {
    forall i :: 0 <= i < |s| ==> IsBlank(s[i])
  }

  /** The C string a byte array hands to the C conversion routines: the
      longest prefix without a NUL. */
  function CString(s: seq<byte>): (r: seq<byte>)
    ensures r <= s && 0 !in r
    ensures |r| < |s| ==> s[|r|] == 0
  {
    if |s| == 0 || s[0] == 0 then [] else [s[0]] + CString(s[1..])
  }

  /** How many blanks the text starts with. */
  function BlankRun(s: seq<byte>): (n: nat)
    ensures n <= |s| && AllBlank(s[..n])
    ensures n < |s| ==> !IsBlank(s[n])
  {
    if |s| == 0 || !IsBlank(s[0]) then 0
    else
      var n := 1 + BlankRun(s[1..]);
      assert s[..n] == [s[0]] + s[1..][..n - 1];
      n
  }

  /** A number's text cut into the pieces the conversion routines see:
      leading blanks, a sign, the digits, and whatever follows the C string. */
  datatype Numeral = Numeral(blanks: seq<byte>, sign: seq<byte>, digits: seq<byte>, rest: seq<byte>)

  /** The width of the sign strtoull (`signed` false) or strtoll (`signed`
      true) takes off the front of `t`: a plus, or for the signed routine a
      minus. */
  function SignWidth(t: seq<byte>, signed: bool): (k: nat)
    ensures k <= |t|
    ensures k == 1 <==> 1 <= |t| && (t[0] == Plus || (signed && t[0] == Minus))
  {
    if |t| > 0 && (t[0] == Plus || (signed && t[0] == Minus)) then 1 else 0
  }

  /** The C string after its leading blanks: all that decides the verdict. */
  function Unblanked(s: seq<byte>): seq<byte> {
    var c := CString(s);
    c[BlankRun(c)..]
  }

  /** The text as QByteArray hands it to the conversion: the C string, its
      leading blanks, then the sign the routine accepts. */
  function Split(s: seq<byte>, signed: bool): Numeral {
    var c := CString(s);
    var n := BlankRun(c);
    var t := c[n..];
    var k := SignWidth(t, signed);
    Numeral(c[..n], t[..k], t[k..], s[|c|..])
  }

  /** What strtoull (`signed` false) or strtoll (`signed` true) makes of the
      text after the blanks: a sign it accepts, then nothing but digits. */
  function Reading(t: seq<byte>, signed: bool): (r: Option<int>)
    ensures !signed && r.Some? ==> 0 <= r.value
  {
    var k := SignWidth(t, signed);
    if 1 <= |t[k..]| && AllDigits(t[k..]) then
      Some(if k == 1 && t[0] == Minus then 0 - DigitsValue(t[k..]) else DigitsValue(t[k..]))
    else None
  }

  /** `p` is a reading of `s` the conversion accepts: blanks, an allowed sign,
      at least one digit, and then the end of the array or a NUL. */
  predicate Spells(s: seq<byte>, p: Numeral, signed: bool) {
    && s == p.blanks + p.sign + p.digits + p.rest
    && AllBlank(p.blanks)
    && (p.sign == [] || p.sign == [Plus] || (signed && p.sign == [Minus]))
    && 1 <= |p.digits| && AllDigits(p.digits)
    && (p.rest == [] || p.rest[0] == 0)
  }

  /** The value an accepted reading denotes. */
  function NumeralValue(p: Numeral): int
    requires AllDigits(p.digits)
  {
    if p.sign == [Minus] then 0 - DigitsValue(p.digits) else DigitsValue(p.digits)
  }

  /** QByteArray::toUInt in base 10 (Qt 4): "ok" exactly when the text is
      blanks, an optional plus, digits and the end or a NUL, and the value
      fits in 32 unsigned bits (UIntAccepted and UIntReads). */
  function ParseUInt(s: seq<byte>): (r: Option<nat>)
    ensures r.Some? ==> r.value <= MaxUInt32
  {
    var v := Reading(Unblanked(s), false);
    if v.Some? && v.value <= MaxUInt32 then Some(v.value) else None
  }

  /** QByteArray::toInt in base 10 (Qt 4): the same text shape with a plus or
      a minus allowed, and the value inside the 32-bit signed range
      (IntAccepted and IntReads). */
  function ParseInt(s: seq<byte>): (r: Option<int>)
    ensures r.Some? ==> MinInt32 <= r.value <= MaxInt32
  {
    var v := Reading(Unblanked(s), true);
    if v.Some? && MinInt32 <= v.value <= MaxInt32 then Some(v.value) else None
  }

  /** Split cuts the text into blanks, an accepted sign, the rest of the C
      string, and what follows the C string. */
  lemma SplitParts(s: seq<byte>, signed: bool)
    ensures var p := Split(s, signed);
      && s == p.blanks + p.sign + p.digits + p.rest
      && AllBlank(p.blanks) && (p.rest == [] || p.rest[0] == 0)
      && (p.sign == [] || p.sign == [Plus] || (signed && p.sign == [Minus]))
  {
    var p := Split(s, signed);
    SplitCovers(s, signed);
    var c := CString(s);
    var t := c[BlankRun(c)..];
    assert |p.sign| == 1 ==> p.sign == [t[0]];
  }

  lemma SplitCovers(s: seq<byte>, signed: bool)
    ensures var p := Split(s, signed); s == p.blanks + p.sign + p.digits + p.rest
  {
    var c := CString(s);
    var n := BlankRun(c);
    var t := c[n..];
    var k := SignWidth(t, signed);
    assert Split(s, signed) == Numeral(c[..n], t[..k], t[k..], s[|c|..]);
    Glue(s, c, n, k);
  }

  lemma Glue(s: seq<byte>, c: seq<byte>, n: nat, k: nat)
    requires c <= s && n <= |c| && k <= |c| - n
    ensures s == c[..n] + c[n..][..k] + c[n..][k..] + s[|c|..]
  {
    var t := c[n..];
    assert t[..k] + t[k..] == t;
    assert c[..n] + t == c;
    assert c == s[..|c|];
    assert s[..|c|] + s[|c|..] == s;
  }

  /** The conversion's verdict, read off the split. */
  lemma ReadingOfSplit(s: seq<byte>, signed: bool)
    ensures var p := Split(s, signed);
      Reading(Unblanked(s), signed) == if 1 <= |p.digits| && AllDigits(p.digits) then Some(NumeralValue(p)) else None
  {
    var t := Unblanked(s);
    var k := SignWidth(t, signed);
    assert k == 1 ==> t[..k] == [t[0]];
  }

  /** What toUInt accepts is blanks, an optional plus, digits and the end or
      a NUL, and it reads the value those digits spell. */
  lemma UIntAccepted(s: seq<byte>)
    requires ParseUInt(s).Some?
    ensures Spells(s, Split(s, false), false)
    ensures ParseUInt(s).value == DigitsValue(Split(s, false).digits)
  {
    SplitParts(s, false);
    ReadingOfSplit(s, false);
  }

  /** What toInt accepts is blanks, an optional plus or minus, digits and the
      end or a NUL, and it reads the signed value. */
  lemma IntAccepted(s: seq<byte>)
    requires ParseInt(s).Some?
    ensures Spells(s, Split(s, true), true)
    ensures ParseInt(s).value == NumeralValue(Split(s, true))
  {
    SplitParts(s, true);
    ReadingOfSplit(s, true);
  }

  lemma {:induction false} CStringOf(a: seq<byte>, b: seq<byte>)
    requires 0 !in a && (b == [] || b[0] == 0)
    ensures CString(a + b) == a
  {
    if |a| > 0 {
      assert (a + b)[1..] == a[1..] + b;
      CStringOf(a[1..], b);
      assert a == [a[0]] + a[1..];
    }
  }

  lemma {:induction false} BlankRunOf(a: seq<byte>, b: seq<byte>)
    requires AllBlank(a) && (b == [] || !IsBlank(b[0]))
    ensures BlankRun(a + b) == |a|
  {
    if |a| > 0 {
      assert (a + b)[1..] == a[1..] + b;
      BlankRunOf(a[1..], b);
    }
  }

  /** The blanks, sign and digits of an accepted reading hold no NUL. */
  lemma SpelledHasNoNul(p: Numeral, signed: bool)
    requires AllBlank(p.blanks) && AllDigits(p.digits)
    requires p.sign == [] || p.sign == [Plus] || (signed && p.sign == [Minus])
    ensures 0 !in p.blanks + p.sign + p.digits
  {
    var c := p.blanks + p.sign + p.digits;
    forall k | 0 <= k < |c| ensures c[k] != 0 {
      if k < |p.blanks| { assert c[k] == p.blanks[k]; }
      else if k < |p.blanks| + |p.sign| { assert c[k] == p.sign[k - |p.blanks|]; }
      else { assert c[k] == p.digits[k - |p.blanks| - |p.sign|]; }
    }
  }

  /** An accepted reading is the one the routines find: the split is unique. */
  lemma SplitFinds(s: seq<byte>, p: Numeral, signed: bool)
    requires Spells(s, p, signed)
    ensures Split(s, signed) == p
  {
    var n, k := |p.blanks|, |p.sign|;
    var c := p.blanks + p.sign + p.digits;
    assert s == c + p.rest;
    SpelledHasNoNul(p, signed);
    CStringOf(c, p.rest);
    assert c[n..] == p.sign + p.digits;
    assert c == p.blanks + c[n..];
    assert c[n] == if k == 0 then p.digits[0] else p.sign[0];
    BlankRunOf(p.blanks, c[n..]);
    assert SignWidth(c[n..], signed) == k;
    assert c[..n] == p.blanks && c[n..n + k] == p.sign && c[n + k..] == p.digits;
    assert s[|c|..] == p.rest;
  }

  /** Conversely to ParseUInt's contract: every text of the accepted shape
      is read, as the value its digits spell, unless that overflows. */
  lemma UIntReads(s: seq<byte>, p: Numeral)
    requires Spells(s, p, false)
    ensures ParseUInt(s) == if DigitsValue(p.digits) <= MaxUInt32 then Some(DigitsValue(p.digits)) else None
  {
    SplitFinds(s, p, false);
    ReadingOfSplit(s, false);
  }

  /** Conversely to ParseInt's contract, for the signed reading. */
  lemma IntReads(s: seq<byte>, p: Numeral)
    requires Spells(s, p, true)
    ensures ParseInt(s) == if MinInt32 <= NumeralValue(p) <= MaxInt32 then Some(NumeralValue(p)) else None
  {
    SplitFinds(s, p, true);
    ReadingOfSplit(s, true);
  }

  lemma {:induction false} CStringCut(s: seq<byte>, junk: seq<byte>)
    ensures CString(s + [0] + junk) == CString(s)
  {
    if |s| > 0 && s[0] != 0 {
      assert (s + [0] + junk)[1..] == s[1..] + [0] + junk;
      CStringCut(s[1..], junk);
    }
  }

  lemma {:induction false} CStringBlanks(ws: seq<byte>, s: seq<byte>)
    requires AllBlank(ws)
    ensures CString(ws + s) == ws + CString(s)
  {
    if |ws| > 0 {
      assert (ws + s)[0] == ws[0] && IsBlank(ws[0]);
      assert (ws + s)[1..] == ws[1..] + s;
      CStringBlanks(ws[1..], s);
      assert ws == [ws[0]] + ws[1..];
    } else {
      assert ws + s == s;
    }
  }

  lemma {:induction false} BlankRunBlanks(ws: seq<byte>, c: seq<byte>)
    requires AllBlank(ws)
    ensures BlankRun(ws + c) == |ws| + BlankRun(c)
  {
    if |ws| > 0 {
      assert (ws + c)[0] == ws[0] && IsBlank(ws[0]);
      assert (ws + c)[1..] == ws[1..] + c;
      BlankRunBlanks(ws[1..], c);
    } else {
      assert ws + c == c;
    }
  }

  /** A NUL ends the number: nothing after it is read. */
  lemma NulEndsText(s: seq<byte>, junk: seq<byte>)
    ensures ParseUInt(s + [0] + junk) == ParseUInt(s)
    ensures ParseInt(s + [0] + junk) == ParseInt(s)
  {
    CStringCut(s, junk);
    assert Unblanked(s + [0] + junk) == Unblanked(s);
  }

  lemma UnblankedBlanks(ws: seq<byte>, s: seq<byte>)
    requires AllBlank(ws)
    ensures Unblanked(ws + s) == Unblanked(s)
  {
    var c := CString(s);
    CStringBlanks(ws, s);
    BlankRunBlanks(ws, c);
    assert (ws + c)[|ws| + BlankRun(c)..] == c[BlankRun(c)..];
  }

  /** Leading blanks are skipped: they change neither the verdict nor the value. */
  lemma BlanksSkipped(ws: seq<byte>, s: seq<byte>)
    requires AllBlank(ws)
    ensures ParseUInt(ws + s) == ParseUInt(s)
    ensures ParseInt(ws + s) == ParseInt(s)
  {
    UnblankedBlanks(ws, s);
  }

  /** A plus in front of the digits is read as no sign at all. */
  lemma PlusSkipped(ds: seq<byte>)
    requires 1 <= |ds| && IsDigit(ds[0])
    ensures ParseUInt([Plus] + ds) == ParseUInt(ds)
    ensures ParseInt([Plus] + ds) == ParseInt(ds)
  {
    var c := CString(ds);
    assert c == [ds[0]] + CString(ds[1..]);
    assert CString([Plus] + ds) == [Plus] + c by { assert ([Plus] + ds)[1..] == ds; }
    assert Unblanked([Plus] + ds) == [Plus] + c && Unblanked(ds) == c;
    assert ([Plus] + c)[1..] == c && c[0..] == c;
  }

  /** toUInt refuses a minus: a count is never negative, not even "-0". */
  lemma MinusRefused(ds: seq<byte>)
    ensures ParseUInt([Minus] + ds) == None
  {
    var c := CString(ds);
    assert CString([Minus] + ds) == [Minus] + c by { assert ([Minus] + ds)[1..] == ds; }
    var t := Unblanked([Minus] + ds);
    assert t == [Minus] + c;
    assert t[0..] == t && !IsDigit(t[0]);
  }

  lemma EndsInBlank(t: seq<byte>, signed: bool)
    requires 1 <= |t| ==> IsBlank(t[|t| - 1])
    ensures Reading(t, signed).None?
  {
    var k := SignWidth(t, signed);
    if 1 <= |t[k..]| {
      assert t[k..][|t[k..]| - 1] == t[|t| - 1];
    }
  }

  /** A blank after the number makes it unreadable: only a NUL may end it early. */
  lemma TrailingBlankRefused(s: seq<byte>, b: byte)
    requires 0 !in s && IsBlank(b)
    ensures ParseUInt(s + [b]) == None
    ensures ParseInt(s + [b]) == None
  {
    var c := s + [b];
    assert c + [] == c;
    CStringOf(c, []);
    var t := Unblanked(c);
    assert 1 <= |t| ==> t[|t| - 1] == c[|c| - 1];
    EndsInBlank(t, false);
    EndsInBlank(t, true);
  }

  /** How a sender spells a signed value: a minus sign for negatives. */
  function IntText(i: int): (r: seq<byte>)
    ensures 1 <= |r|
    ensures Bar !in r && Space !in r
  {
    var r := if i < 0 then [Minus] + Digits(-i) else Digits(i);
    assert forall k :: 0 <= k < |r| ==> r[k] == Minus || IsDigit(r[k]);
    r
  }

  /** Spelling an unsigned value and reading it back with toUInt gives it back. */
  lemma UIntRoundTrip(n: nat)
    requires n <= MaxUInt32
    ensures ParseUInt(Digits(n)) == Some(n)
  {
    var d := Digits(n);
    assert d == [] + [] + d + [];
    UIntReads(d, Numeral([], [], d, []));
  }

  /** Every 32-bit signed value survives IntText followed by toInt. */
  lemma IntRoundTrip(i: int)
    requires MinInt32 <= i <= MaxInt32
    ensures ParseInt(IntText(i)) == Some(i)
  {
    var t := IntText(i);
    var p := if i < 0 then Numeral([], [Minus], Digits(-i), []) else Numeral([], [], t, []);
    assert t == p.blanks + p.sign + p.digits + p.rest;
    assert NumeralValue(p) == i;
    IntReads(t, p);
  }

  /** Decimal spellings never contain the field separator, so a value and the
      `|` after it can always be told apart. */
  lemma DigitsHaveNoBar(n: nat)
    ensures Bar !in Digits(n) && Space !in Digits(n)
  {
    var d := Digits(n);
    assert forall k :: 0 <= k < |d| ==> IsDigit(d[k]);
  }
}
