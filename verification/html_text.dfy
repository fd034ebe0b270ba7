/** The importer's string functions: whitespace collapsing (simplify and
    QString::simplified), the heading-number split (findNumber), and HTML
    escaping (coded). Text is a sequence of UTF-16 code units, as in QString. */
module HtmlText {

  /** QChar::isSpace as Qt 4 defines it: the code points 9 to 13 and the
      characters of the Unicode 5.0 categories Zs, Zl and Zp. */
  predicate IsSpace(c: char) {
    var n := c as int;
    (9 <= n <= 13) || n == 32 || n == 0xA0 || n == 0x1680 || n == 0x180E ||
    (0x2000 <= n <= 0x200A) || n == 0x2028 || n == 0x2029 || n == 0x202F || n == 0x205F || n == 0x3000
  }

  /** QChar::isDigit, restricted to the ASCII digits. */
  predicate IsDigit(c: char) {
    '0' <= c <= '9'
  }

  predicate AllSpace(s: string) {
    forall k :: 0 <= k < |s| ==> IsSpace(s[k])
  }

  /** Text in the form simplify produces: no whitespace other than ' ', and
      never two spaces in a row. */
  predicate Collapsed(s: string) {
    && (forall k :: 0 <= k < |s| ==> IsSpace(s[k]) ==> s[k] == ' ')
    && (forall k :: 0 <= k < |s| - 1 ==> NoSpacePair(s, k))
  }

  /** The characters at k and k + 1 are not both spaces. */
  predicate NoSpacePair(s: string, k: nat)
    requires k + 1 < |s|
  {
    s[k] != ' ' || s[k + 1] != ' '
  }

  /** The characters that are not whitespace, in order. */
  function Visible(s: string): string
    decreases |s|
  {
    if |s| == 0 then [] else (if IsSpace(s[0]) then [] else [s[0]]) + Visible(s[1..])
  }

  /** simplify: every maximal run of whitespace becomes a single ' ';
      everything else is kept. A whitespace character followed by another is
      dropped; the last of a run becomes the space. */
  function Simplified(s: string): (r: string)
    ensures |r| <= |s|
    decreases |s|
  {
    if |s| == 0 then []
    else if IsSpace(s[0]) && 2 <= |s| && IsSpace(s[1]) then Simplified(s[1..])
    else [if IsSpace(s[0]) then ' ' else s[0]] + Simplified(s[1..])
  }

  /** simplify's result is collapsed, starts with a space exactly when the
      input starts with whitespace (and otherwise with the input's first
      character), and ends with a space exactly when the input ends with
      whitespace. */
  lemma {:induction false} SimplifiedShape(s: string)
    ensures var r := Simplified(s);
      && (|s| > 0 ==> |r| > 0 && (r[0] == ' ' <==> IsSpace(s[0])) && (!IsSpace(s[0]) ==> r[0] == s[0]))
      && (|s| > 0 ==> (r[|r| - 1] == ' ' <==> IsSpace(s[|s| - 1])))
      && Collapsed(r)
    decreases |s|
  {
    if |s| > 0 {
      SimplifiedShape(s[1..]);
      var t := Simplified(s[1..]);
      if !(IsSpace(s[0]) && 2 <= |s| && IsSpace(s[1])) {
        var h: char := if IsSpace(s[0]) then ' ' else s[0];
        var r := [h] + t;
        assert Collapsed(r) by {
          forall k | 0 <= k < |r| ensures IsSpace(r[k]) ==> r[k] == ' ' {
            if k > 0 { assert r[k] == t[k - 1]; }
          }
          forall k | 0 <= k < |r| - 1 ensures NoSpacePair(r, k) {
            if k > 0 { assert NoSpacePair(t, k - 1); assert r[k] == t[k - 1] && r[k + 1] == t[k]; }
          }
        }
      }
    }
  }

  /** simplify keeps every non-whitespace character, in order. */
  lemma {:induction false} SimplifiedKeepsVisible(s: string)
    ensures Visible(Simplified(s)) == Visible(s)
    decreases |s|
  {
    if |s| > 0 {
      SimplifiedKeepsVisible(s[1..]);
      var r := Simplified(s);
      if !(IsSpace(s[0]) && 2 <= |s| && IsSpace(s[1])) {
        var h: char := if IsSpace(s[0]) then ' ' else s[0];
        assert r == [h] + Simplified(s[1..]);
        assert r[1..] == Simplified(s[1..]);
      }
    }
  }

  /** Text already in collapsed form is left as it is. */
  lemma {:induction false} SimplifiedFixes(s: string)
    requires Collapsed(s)
    ensures Simplified(s) == s
    decreases |s|
  {
    if |s| > 0 {
      assert Collapsed(s[1..]) by {
        forall k | 0 <= k < |s[1..]| - 1 ensures NoSpacePair(s[1..], k) {
          assert NoSpacePair(s, k + 1);
          assert s[1..][k] == s[k + 1] && s[1..][k + 1] == s[k + 2];
        }
      }
      SimplifiedFixes(s[1..]);
      if 2 <= |s| {
        assert NoSpacePair(s, 0);
      }
      if IsSpace(s[0]) && 2 <= |s| && IsSpace(s[1]) {
        assert false;
      }
      assert s == [s[0]] + s[1..];
    }
  }

  /** simplify is idempotent. */
  lemma SimplifiedIdempotent(s: string)
    ensures Simplified(Simplified(s)) == Simplified(s)
  {
    SimplifiedShape(s);
    SimplifiedFixes(Simplified(s));
  }

  /** Whitespace-only text becomes one space; empty text stays empty. */
  lemma {:induction false} SimplifiedBlank(s: string)
    requires |s| > 0 && AllSpace(s)
    ensures Simplified(s) == " "
    decreases |s|
  {
    if |s| >= 2 {
      SimplifiedBlank(s[1..]);
    } else {
      assert s[1..] == [];
    }
  }

  /** Simplified text is empty exactly when the input is. */
  lemma SimplifiedEmpty(s: string)
    ensures Simplified(s) == [] <==> s == []
  {
  }

  /** A whitespace run before a word, or at the end, becomes one space. */
  lemma {:induction false} SimplifiedRun(ws: string, rest: string)
    requires |ws| > 0 && AllSpace(ws) && (rest == [] || !IsSpace(rest[0]))
    ensures Simplified(ws + rest) == " " + Simplified(rest)
    decreases |ws|
  {
    assert (ws + rest)[1..] == ws[1..] + rest;
    if |ws| > 1 {
      SimplifiedRun(ws[1..], rest);
    } else {
      assert ws[1..] + rest == rest;
    }
  }

  /** A word is copied as it is. */
  lemma {:induction false} SimplifiedWord(w: string, rest: string)
    requires forall k :: 0 <= k < |w| ==> !IsSpace(w[k])
    ensures Simplified(w + rest) == w + Simplified(rest)
    decreases |w|
  {
    if |w| == 0 {
      assert w + rest == rest;
    } else {
      assert (w + rest)[1..] == w[1..] + rest;
      SimplifiedWord(w[1..], rest);
      assert w == [w[0]] + w[1..];
    }
  }

  /** "  hello   world  \n" becomes " hello world ". */
  lemma SimplifiedExample(s: string)
    requires s == "  hello   world  \n"
    ensures Simplified(s) == " hello world "
  {
    assert s[..2] == "  " && s == s[..2] + s[2..];
    ExampleHello(s[2..]);
    SimplifiedRun(s[..2], s[2..]);
    ExampleGlue(Simplified(s[2..]));
  }

  lemma ExampleHello(s: string)
    requires s == "hello   world  \n"
    ensures Simplified(s) == "hello world "
  {
    assert s[..5] == "hello" && s == s[..5] + s[5..];
    ExampleWorld(s[5..]);
    SimplifiedWord(s[..5], s[5..]);
  }

  lemma ExampleWorld(s: string)
    requires s == "   world  \n"
    ensures Simplified(s) == " world "
  {
    assert s[..3] == "   " && s[3..8] == "world" && s[8..] == "  \n";
    assert s[3..] == s[3..8] + s[8..] && s == s[..3] + s[3..];
    SimplifiedBlank(s[8..]);
    SimplifiedWord(s[3..8], s[8..]);
    SimplifiedRun(s[..3], s[3..]);
  }

  lemma ExampleGlue(t: string)
    requires t == "hello world "
    ensures [' '] + t == " hello world "
  {
  }

  /** The text after the first i characters, as the loop still has to
      produce it: when the loop sits inside a whitespace run, the space for
      that run has already been written. */
  function Pending(s: string, i: nat): string
    requires i <= |s|
  {
    if i < |s| && IsSpace(s[i]) then
      SimplifiedShape(s[i..]);
      Simplified(s[i..])[1..]
    else Simplified(s[i..])
  }

  lemma SkipSpaceStep(s: string, i: nat)
    requires i < |s| && IsSpace(s[i])
    ensures Pending(s, i) == Pending(s, i + 1)
  {
    assert s[i..][1..] == s[i + 1..];
  }

  lemma CopyStep(s: string, i: nat)
    requires i < |s| && !IsSpace(s[i])
    ensures Simplified(s[i..]) == [s[i]] + Simplified(s[i + 1..])
  {
    assert s[i..][1..] == s[i + 1..];
  }

  lemma SpaceStep(s: string, i: nat)
    requires i < |s| && IsSpace(s[i])
    ensures Simplified(s[i..]) == [' '] + Pending(s, i)
  {
    SimplifiedShape(s[i..]);
  }

  lemma Assoc(a: string, b: string, c: string)
    ensures (a + b) + c == a + (b + c)
  {
  }

  /** Skips a whitespace run starting at from; what is still to be written
      does not change. */
  method SkipSpace(str: string, from: nat) returns (to: nat)
    requires from <= |str|
    ensures from <= to <= |str| && (to == |str| || !IsSpace(str[to]))
    ensures from < |str| && IsSpace(str[from]) ==> from < to
    ensures forall k :: from <= k < to ==> IsSpace(str[k])
    ensures Pending(str, from) == Pending(str, to)
  {
    to := from;
    while to < |str| && IsSpace(str[to])
      invariant from <= to <= |str|
      invariant forall k :: from <= k < to ==> IsSpace(str[k])
      invariant Pending(str, from) == Pending(str, to)
    {
      SkipSpaceStep(str, to);
      to := to + 1;
    }
  }

  /** Copies the word starting at from; it is written unchanged. */
  method CopyWord(str: string, from: nat) returns (word: string, to: nat)
    requires from <= |str|
    ensures from <= to <= |str| && (to == |str| || IsSpace(str[to]))
    ensures from < |str| && !IsSpace(str[from]) ==> from < to
    ensures word == str[from..to]
    ensures Simplified(str[from..]) == word + Simplified(str[to..])
  {
    to := from;
    word := [];
    while to < |str| && !IsSpace(str[to])
      invariant from <= to <= |str|
      invariant word == str[from..to]
      invariant Simplified(str[from..]) == word + Simplified(str[to..])
    {
      CopyStep(str, to);
      ghost var tail := Simplified(str[to + 1..]);
      Assoc(word, [str[to]], tail);
      assert str[from..to + 1] == str[from..to] + [str[to]];
      word := word + [str[to]];
      to := to + 1;
      assert tail == Simplified(str[to..]);
    }
  }

  /** simplify as the source writes it: skip the leading whitespace and
      write one space for it, then alternately skip whitespace, copy a word,
      and write a space unless the input ended. */
  method Simplify(str: string) returns (result: string)
    ensures result == Simplified(str)
  {
    if |str| == 0 {
      return str;
    }
    result := [];
    var from := SkipSpace(str, 0);
    if from != 0 {
      SpaceStep(str, 0);
      assert str[0..] == str;
      result := result + [' '];
    } else {
      assert str[0..] == str;
    }
    while from < |str|
      invariant from <= |str|
      invariant result + Pending(str, from) == Simplified(str)
      decreases |str| - from
    {
      result, from := SimplifyWord(str, from, result);
    }
    assert str[from..] == [];
  }

  /** One round of simplify's loop: the whitespace run at from, then the
      word after it and, unless the text ends there, one space. */
  method SimplifyWord(str: string, from: nat, result: string) returns (result': string, to: nat)
    requires from < |str| && result + Pending(str, from) == Simplified(str)
    ensures from < to <= |str| && result' + Pending(str, to) == Simplified(str)
  {
    var start := SkipSpace(str, from);
    assert Pending(str, start) == Simplified(str[start..]);
    var word;
    word, to := CopyWord(str, start);
    Assoc(result, word, Simplified(str[to..]));
    result' := result + word;
    if to != |str| {
      SpaceStep(str, to);
      Assoc(result', [' '], Pending(str, to));
      result' := result' + [' '];
    }
  }

  /** QString::simplified: simplify, then drop a leading and a trailing space. */
  function Tidy(s: string): (r: string)
    ensures |r| <= |s| && Collapsed(r)
    ensures r == [] || (r[0] != ' ' && r[|r| - 1] != ' ')
  {
    SimplifiedShape(s);
    var c := Simplified(s);
    var a := if |c| > 0 && c[0] == ' ' then c[1..] else c;
    var b := if |a| > 0 && a[|a| - 1] == ' ' then a[..|a| - 1] else a;
    assert Collapsed(a) by {
      if |c| > 0 && c[0] == ' ' {
        forall k | 0 <= k < |a| - 1 ensures NoSpacePair(a, k) { assert NoSpacePair(c, k + 1); }
      }
    }
    assert a == [] || a[0] != ' ' by {
      if |c| > 1 && c[0] == ' ' { assert NoSpacePair(c, 0); assert a[0] == c[1]; }
    }
    assert b == [] || (b[0] == a[0] && b[|b| - 1] != ' ') by {
      if |a| > 1 && a[|a| - 1] == ' ' { assert NoSpacePair(a, |a| - 2); assert b[|b| - 1] == a[|a| - 2]; }
    }
    assert Collapsed(b) by {
      forall k | 0 <= k < |b| - 1 ensures NoSpacePair(b, k) { assert NoSpacePair(a, k); }
    }
    b
  }

  /** simplified text is empty exactly when the input is all whitespace. */
  lemma {:induction false} TidyEmpty(s: string)
    ensures Tidy(s) == [] <==> AllSpace(s)
    decreases |s|
  {
    if |s| > 0 && AllSpace(s) {
      SimplifiedBlank(s);
    }
    if |s| > 0 && !AllSpace(s) {
      var k :| 0 <= k < |s| && !IsSpace(s[k]);
      SimplifiedKeepsVisible(s);
      VisibleHas(s, k);
      var c := Simplified(s);
      if Tidy(s) == [] {
        NoVisible(c);
      }
    }
  }

  lemma {:induction false} VisibleHas(s: string, k: nat)
    requires k < |s| && !IsSpace(s[k])
    ensures Visible(s) != []
    decreases |s|
  {
    if k > 0 {
      VisibleHas(s[1..], k - 1);
    }
  }

  lemma {:induction false} NoVisible(s: string)
    requires forall m :: 0 <= m < |s| ==> s[m] == ' '
    ensures Visible(s) == []
    decreases |s|
  {
    if |s| > 0 {
      NoVisible(s[1..]);
    }
  }

  /** The end of the leading run of digits and dots. */
  function ScanEnd(t: string, i: nat): (j: nat)
    requires i <= |t|
    ensures i <= j <= |t|
    ensures forall k :: i <= k < j ==> IsDigit(t[k]) || t[k] == '.'
    ensures j < |t| ==> !IsDigit(t[j]) && t[j] != '.'
    decreases |t| - i
  {
    if i < |t| && (IsDigit(t[i]) || t[i] == '.') then ScanEnd(t, i + 1) else i
  }

  predicate DoubleDot(t: string, j: nat)
    requires j <= |t|
  {
    exists k :: 0 <= k < j - 1 && t[k] == '.' && t[k + 1] == '.'
  }

  /** Where a heading's number ends, or -1 if it has none: a digit first,
      then digits and single dots, ended either by whitespace (which belongs
      to the number) or, right after a digit, by any other character. */
  function NumberSplit(t: string): (r: int)
    ensures r == -1 || 1 <= r <= |t|
    ensures r != -1 ==> IsDigit(t[0])
    ensures r != -1 ==> forall k :: 0 <= k < r - 1 ==> IsDigit(t[k]) || t[k] == '.'
    ensures r != -1 ==> IsDigit(t[r - 1]) || IsSpace(t[r - 1])
  {
    if |t| == 0 || !IsDigit(t[0]) then -1
    else
      var j := ScanEnd(t, 0);
      if DoubleDot(t, j) || j == |t| then -1
      else if IsSpace(t[j]) then j + 1
      else if t[j - 1] == '.' then -1
      else j
  }

  /** findNumber as the source writes it: a two-state scan, Digit and Dot. */
  method FindNumber(title: string) returns (r: int)
    ensures r == NumberSplit(title)
  {
    if |title| == 0 || !IsDigit(title[0]) {
      return -1;
    }
    var dot := false;
    var i := 0;
    while i < |title|
      invariant 0 <= i <= |title|
      invariant forall k :: 0 <= k < i ==> IsDigit(title[k]) || title[k] == '.'
      invariant !DoubleDot(title, i)
      invariant dot <==> i > 0 && title[i - 1] == '.'
      invariant i > 0 ==> ScanEnd(title, 0) == ScanEnd(title, i)
    {
      ScanFrom(title, i);
      if !dot {
        if IsDigit(title[i]) {
        } else if title[i] == '.' {
          dot := true;
        } else if IsSpace(title[i]) {
          assert ScanEnd(title, 0) == i;
          return i + 1;
        } else {
          assert ScanEnd(title, 0) == i;
          return i;
        }
      } else {
        if IsDigit(title[i]) {
          dot := false;
        } else if IsSpace(title[i]) {
          assert ScanEnd(title, 0) == i;
          return i + 1;
        } else {
          if title[i] == '.' {
            assert DoubleDot(title, ScanEnd(title, 0)) by {
              assert title[i - 1] == '.' && title[i] == '.';
              ScanPast(title, i);
            }
          } else {
            assert ScanEnd(title, 0) == i;
          }
          return -1;
        }
      }
      assert !DoubleDot(title, i + 1);
      i := i + 1;
    }
    assert ScanEnd(title, 0) == |title|;
    r := -1;
  }

  lemma ScanFrom(t: string, i: nat)
    requires i < |t|
    requires forall k :: 0 <= k < i ==> IsDigit(t[k]) || t[k] == '.'
    ensures ScanEnd(t, 0) == ScanEnd(t, i)
    decreases i
  {
    if i > 0 {
      ScanFrom(t, i - 1);
    }
  }

  lemma ScanPast(t: string, i: nat)
    requires i < |t| && (IsDigit(t[i]) || t[i] == '.')
    requires forall k :: 0 <= k < i ==> IsDigit(t[k]) || t[k] == '.'
    ensures ScanEnd(t, 0) > i
  {
    ScanFrom(t, i);
  }

  lemma NumberExamples()
    ensures NumberSplit("1.2 Scope") == 4
    ensures NumberSplit("12Scope") == 2
    ensures NumberSplit("1.a") == -1
    ensures NumberSplit("1.2") == -1
    ensures NumberSplit("Scope") == -1
  {
    assert ScanEnd("1.2 Scope", 0) == 3;
    assert ScanEnd("12Scope", 0) == 2;
    assert ScanEnd("1.a", 0) == 2;
    assert ScanEnd("1.2", 0) == 3;
  }

  /** QString::replace(QChar, QString): every occurrence, left to right. */
  function ReplaceAll(s: string, c: char, rep: string): string
    decreases |s|
  {
    if |s| == 0 then [] else (if s[0] == c then rep else [s[0]]) + ReplaceAll(s[1..], c, rep)
  }

  /** coded: '&' first, then '>' and '<'. */
  function Coded(s: string): string {
    ReplaceAll(ReplaceAll(ReplaceAll(s, '&', "&amp;"), '>', "&gt;"), '<', "&lt;")
  }

  /** The entity for one character, or the character itself. */
  function Escape(c: char): string {
    if c == '&' then "&amp;" else if c == '>' then "&gt;" else if c == '<' then "&lt;" else [c]
  }

  function EscapeAll(s: string): (r: string)
    ensures '<' !in r && '>' !in r
    decreases |s|
  {
    if |s| == 0 then [] else Escape(s[0]) + EscapeAll(s[1..])
  }

  lemma {:induction false} ReplaceAppend(a: string, b: string, c: char, rep: string)
    ensures ReplaceAll(a + b, c, rep) == ReplaceAll(a, c, rep) + ReplaceAll(b, c, rep)
    decreases |a|
  {
    if |a| == 0 {
      assert a + b == b;
    } else {
      assert (a + b)[1..] == a[1..] + b;
      ReplaceAppend(a[1..], b, c, rep);
    }
  }

  /** coded distributes over concatenation, each pass being a
      character-wise replacement. */
  lemma CodedAppend(a: string, b: string)
    ensures Coded(a + b) == Coded(a) + Coded(b)
  {
    ReplaceAppend(a, b, '&', "&amp;");
    var a1 := ReplaceAll(a, '&', "&amp;");
    var b1 := ReplaceAll(b, '&', "&amp;");
    ReplaceAppend(a1, b1, '>', "&gt;");
    ReplaceAppend(ReplaceAll(a1, '>', "&gt;"), ReplaceAll(b1, '>', "&gt;"), '<', "&lt;");
  }

  /** On one character, coded writes its entity: the entity written by an
      earlier pass holds no character a later pass replaces. */
  lemma CodedChar(c: char)
    ensures Coded([c]) == Escape(c)
  {
    assert [c][1..] == [];
    if c == '&' {
      assert ReplaceAll([c], '&', "&amp;") == "&amp;";
      assert ReplaceAll("&amp;", '>', "&gt;") == "&amp;";
      assert ReplaceAll("&amp;", '<', "&lt;") == "&amp;";
    } else if c == '>' {
      assert ReplaceAll([c], '>', "&gt;") == "&gt;";
      assert ReplaceAll("&gt;", '<', "&lt;") == "&gt;";
    }
  }

  /** The three passes of coded amount to escaping each character once. */
  lemma {:induction false} CodedEscapes(s: string)
    ensures Coded(s) == EscapeAll(s)
    decreases |s|
  {
    if |s| > 0 {
      CodedEscapes(s[1..]);
      CodedChar(s[0]);
      CodedAppend([s[0]], s[1..]);
      assert s == [s[0]] + s[1..];
    }
  }

  /** Reading the entities back. */
  function Unescape(s: string): string
    decreases |s|
  {
    if |s| >= 5 && s[..5] == "&amp;" then "&" + Unescape(s[5..])
    else if |s| >= 4 && s[..4] == "&gt;" then ">" + Unescape(s[4..])
    else if |s| >= 4 && s[..4] == "&lt;" then "<" + Unescape(s[4..])
    else if |s| == 0 then []
    else [s[0]] + Unescape(s[1..])
  }

  /** coded output holds no raw angle bracket, and unescaping it gives the
      input back. */
  lemma {:induction false} CodedRoundTrip(s: string)
    ensures '<' !in Coded(s) && '>' !in Coded(s)
    ensures Unescape(Coded(s)) == s
    decreases |s|
  {
    CodedEscapes(s);
    EscapeRoundTrip(s);
  }

  lemma {:induction false} EscapeRoundTrip(s: string)
    ensures Unescape(EscapeAll(s)) == s
    decreases |s|
  {
    if |s| > 0 {
      EscapeRoundTrip(s[1..]);
      UnescapeStep(s[0], EscapeAll(s[1..]));
      assert s == [s[0]] + s[1..];
    }
  }

  /** Unescaping reads one character's entity back, whatever follows it. */
  lemma UnescapeStep(c: char, rest: string)
    ensures Unescape(Escape(c) + rest) == [c] + Unescape(rest)
  {
    var e := Escape(c);
    var t := e + rest;
    assert t[|e|..] == rest;
    if c == '&' {
      assert t[..5] == "&amp;";
    } else if c == '>' {
      assert t[..4] == "&gt;";
      assert |t| >= 5 ==> t[..5][1] == 'g';
    } else if c == '<' {
      assert t[..4] == "&lt;";
      assert |t| >= 5 ==> t[..5][1] == 'l';
      assert t[..4][1] == 'l';
    } else {
      assert t[0] == c && t[0] != '&';
      assert |t| >= 5 ==> t[..5][0] == t[0];
      assert |t| >= 4 ==> t[..4][0] == t[0];
    }
  }

  /** Escaping '&' last would escape the entities again. */
  lemma CodedOrderMatters()
    ensures ReplaceAll(ReplaceAll("<", '<', "&lt;"), '&', "&amp;") == "&amp;lt;"
    ensures Coded("<") == "&lt;"
  {
  }

  /** QString::toLower on the ASCII letters. */
  function Lower(s: string): (r: string)
    ensures |r| == |s|
    ensures forall k :: 0 <= k < |s| ==> r[k] == if 'A' <= s[k] <= 'Z' then (s[k] as int + 32) as char else s[k]
  {
    seq(|s|, k requires 0 <= k < |s| => if 'A' <= s[k] <= 'Z' then (s[k] as int + 32) as char else s[k])
  }
}
