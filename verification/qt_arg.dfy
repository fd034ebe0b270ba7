/** QString::arg with one string argument, as Qt 4 implements it: the format
    is scanned for markers `%N` (optionally `%LN`, N one or two decimal
    digits), and every marker carrying the lowest number present is replaced
    by the argument. The other markers are kept as text, and the argument is
    never scanned itself. A format without markers is returned unchanged. */
module QtArg {
  import opened Base

  /** A decimal digit. `QChar::digitValue` also knows the digits of other
      scripts; markers are narrowed to '0'..'9'. */
  predicate IsDigitChar(c: char) {
    '0' <= c <= '9'
  }

  function DigitOf(c: char): nat
    requires IsDigitChar(c)
  {
    c as int - '0' as int
  }

  /** A format cut into plain characters and markers; a marker keeps its
      number and the text it was written with. */
  datatype Piece = Plain(c: char) | Marker(n: nat, text: string)

  /** The number and width of a marker. */
  datatype Found = Found(n: nat, len: nat)

  /** The marker that starts at the front of `s`, which is a '%': an
      optional 'L', then one digit, or two when a second follows. */
  function MarkerAt(s: string): (r: Option<Found>)
    requires 1 <= |s| && s[0] == '%'
    ensures r.Some? ==> 2 <= r.value.len <= |s| && r.value.n <= 99
  {
    var j := if 2 <= |s| && s[1] == 'L' then 2 else 1;
    if j < |s| && IsDigitChar(s[j]) then
      if j + 1 < |s| && IsDigitChar(s[j + 1]) then Some(Found(10 * DigitOf(s[j]) + DigitOf(s[j + 1]), j + 2))
      else Some(Found(DigitOf(s[j]), j + 1))
    else None
  }

  function PieceText(p: Piece): string {
    match p
    case Plain(c) => [c]
    case Marker(_, text) => text
  }

  function Joined(ps: seq<Piece>): string
    decreases |ps|
  {
    if |ps| == 0 then [] else PieceText(ps[0]) + Joined(ps[1..])
  }

  /** How many characters the piece at the front of `s` takes: a whole
      marker, or one character. */
  function Width(s: string): (n: nat)
    requires 1 <= |s|
    ensures 1 <= n <= |s|
  {
    if s[0] == '%' && MarkerAt(s).Some? then MarkerAt(s).value.len else 1
  }

  /** The piece at the front of `s`. A '%' that does not start a marker is
      a plain character. */
  function Front(s: string): Piece
    requires 1 <= |s|
  {
    if s[0] == '%' && MarkerAt(s).Some? then Marker(MarkerAt(s).value.n, s[..Width(s)])
    else Plain(s[0])
  }

  /** The scan of a format, left to right, piece after piece. */
  function Pieces(s: string): seq<Piece>
    decreases |s|
  {
    if |s| == 0 then [] else [Front(s)] + Pieces(s[Width(s)..])
  }

  /** The scan loses nothing: its pieces spell the format. */
  lemma {:induction false} PiecesJoined(s: string)
    ensures Joined(Pieces(s)) == s
    decreases |s|
  {
    if |s| > 0 {
      var w := Width(s);
      PiecesJoined(s[w..]);
      JoinedCons(Front(s), Pieces(s[w..]));
      assert PieceText(Front(s)) == s[..w];
      assert s[..w] + s[w..] == s;
    }
  }

  lemma JoinedCons(p: Piece, ps: seq<Piece>)
    ensures Joined([p] + ps) == PieceText(p) + Joined(ps)
  {
    assert ([p] + ps)[1..] == ps;
  }

  /** The numbers of the markers in a scanned format. */
  function Numbers(ps: seq<Piece>): set<nat>
    decreases |ps|
  {
    if |ps| == 0 then {}
    else (if ps[0].Marker? then {ps[0].n} else {}) + Numbers(ps[1..])
  }

  /** The lowest marker number, when there is a marker. */
  function Lowest(ps: seq<Piece>): (r: Option<nat>)
    ensures r.None? <==> Numbers(ps) == {}
    ensures r.Some? ==> r.value in Numbers(ps) && forall m :: m in Numbers(ps) ==> r.value <= m
    decreases |ps|
  {
    if |ps| == 0 then None
    else
      var rest := Lowest(ps[1..]);
      match ps[0]
      case Plain(_) => rest
      case Marker(n, _) => if rest.Some? && rest.value <= n then rest else Some(n)
  }

  /** The scanned format with every marker numbered `m` replaced by `a`. */
  function Fill(ps: seq<Piece>, m: nat, a: string): string
    decreases |ps|
  {
    if |ps| == 0 then []
    else (if ps[0].Marker? && ps[0].n == m then a else PieceText(ps[0])) + Fill(ps[1..], m, a)
  }

  lemma NumbersCons(p: Piece, ps: seq<Piece>)
    ensures Numbers([p] + ps) == (if p.Marker? then {p.n} else {}) + Numbers(ps)
  {
    assert ([p] + ps)[1..] == ps;
  }

  lemma FillCons(p: Piece, ps: seq<Piece>, m: nat, a: string)
    ensures Fill([p] + ps, m, a) == (if p.Marker? && p.n == m then a else PieceText(p)) + Fill(ps, m, a)
  {
    assert ([p] + ps)[1..] == ps;
  }

  /** QString::arg(a). */
  function Arg(s: string, a: string): (r: string)
    ensures Numbers(Pieces(s)) == {} ==> r == s
  {
    var ps := Pieces(s);
    match Lowest(ps)
    case None => s
    case Some(m) => Fill(ps, m, a)
  }

  /** When `m` is the lowest marker number, arg fills exactly the markers
      numbered `m`. */
  lemma ArgLowest(s: string, a: string, m: nat)
    requires m in Numbers(Pieces(s)) && forall k :: k in Numbers(Pieces(s)) ==> m <= k
    ensures Arg(s, a) == Fill(Pieces(s), m, a)
  {
    var r := Lowest(Pieces(s));
    assert r.value <= m && m <= r.value;
  }

  /** A text without '%' holds no marker, so arg returns it unchanged. */
  lemma {:induction false} NoPercentNoMarker(s: string)
    requires '%' !in s
    ensures Numbers(Pieces(s)) == {}
    decreases |s|
  {
    if |s| > 0 {
      assert s[0] in s;
      assert Width(s) == 1;
      assert forall c :: c in s[1..] ==> c in s;
      NoPercentNoMarker(s[1..]);
      NumbersCons(Front(s), Pieces(s[1..]));
    }
  }

  /** One pass that replaces the markers numbered 1 by `a1` and those
      numbered 2 by `a2`, as the two-argument arg(a1, a2) does for a format
      whose markers are %1 and %2. */
  function FillPair(ps: seq<Piece>, a1: string, a2: string): string
    decreases |ps|
  {
    if |ps| == 0 then [] else PairText(ps[0], a1, a2) + FillPair(ps[1..], a1, a2)
  }

  function PairText(p: Piece, a1: string, a2: string): string {
    if p.Marker? && p.n == 1 then a1 else if p.Marker? && p.n == 2 then a2 else PieceText(p)
  }

  /** What may follow a text without joining a marker at its end: nothing,
      or a character that is neither a digit nor an 'L'. */
  predicate Ends(y: string) {
    |y| == 0 || (!IsDigitChar(y[0]) && y[0] != 'L')
  }

  lemma MarkerExtends(x: string, y: string)
    requires 1 <= |x| && x[0] == '%' && Ends(y)
    ensures MarkerAt(x + y) == MarkerAt(x)
  {
    if |y| > 0 {
      var s := x + y;
      assert s[0] == '%';
      assert forall i :: 0 <= i < |x| ==> s[i] == x[i];
      assert s[|x|] == y[0];
    } else {
      assert x + y == x;
    }
  }

  /** The front piece does not change when something that cannot extend a
      marker is appended. */
  lemma FrontExtends(x: string, y: string)
    requires 1 <= |x| && Ends(y)
    ensures Width(x + y) == Width(x) && Front(x + y) == Front(x)
  {
    assert (x + y)[0] == x[0];
    if x[0] == '%' {
      MarkerExtends(x, y);
    }
    assert (x + y)[..Width(x)] == x[..Width(x)];
  }

  /** A text scans on its own when what follows it cannot extend a marker
      at its end. */
  lemma {:induction false} PiecesAppend(x: string, y: string)
    requires Ends(y)
    ensures Pieces(x + y) == Pieces(x) + Pieces(y)
    decreases |x|
  {
    if |x| == 0 {
      assert x + y == y;
    } else {
      var w := Width(x);
      FrontExtends(x, y);
      assert (x + y)[w..] == x[w..] + y;
      PiecesAppend(x[w..], y);
      assert [Front(x)] + (Pieces(x[w..]) + Pieces(y)) == [Front(x)] + Pieces(x[w..]) + Pieces(y);
    }
  }

  lemma PiecesPlain(c: char, s: string)
    requires c != '%'
    ensures Pieces([c] + s) == [Plain(c)] + Pieces(s)
  {
    assert ([c] + s)[1..] == s;
  }

  /** A one-digit marker followed by something that cannot extend it. */
  lemma PiecesMarker(d: char, s: string)
    requires IsDigitChar(d) && (|s| == 0 || !IsDigitChar(s[0]))
    ensures Pieces(['%', d] + s) == [Marker(DigitOf(d), ['%', d])] + Pieces(s)
  {
    var t := ['%', d] + s;
    assert t[0] == '%' && t[1] == d;
    assert MarkerAt(t) == Some(Found(DigitOf(d), 2));
    assert t[..2] == ['%', d];
    assert t[2..] == s;
  }

  lemma {:induction false} NumbersAppend(ps: seq<Piece>, qs: seq<Piece>)
    ensures Numbers(ps + qs) == Numbers(ps) + Numbers(qs)
    decreases |ps|
  {
    if |ps| == 0 {
      assert ps + qs == qs;
    } else {
      assert (ps + qs)[0] == ps[0];
      assert (ps + qs)[1..] == ps[1..] + qs;
      NumbersAppend(ps[1..], qs);
    }
  }

  lemma {:induction false} FillAppend(ps: seq<Piece>, qs: seq<Piece>, m: nat, a: string)
    ensures Fill(ps + qs, m, a) == Fill(ps, m, a) + Fill(qs, m, a)
    decreases |ps|
  {
    if |ps| == 0 {
      assert ps + qs == qs;
    } else {
      assert (ps + qs)[0] == ps[0];
      assert (ps + qs)[1..] == ps[1..] + qs;
      FillAppend(ps[1..], qs, m, a);
    }
  }

  /** Filling a number no marker carries leaves the text as it was. */
  lemma {:induction false} FillUntouched(ps: seq<Piece>, m: nat, a: string)
    requires m !in Numbers(ps)
    ensures Fill(ps, m, a) == Joined(ps)
    decreases |ps|
  {
    if |ps| > 0 {
      FillUntouched(ps[1..], m, a);
    }
  }

  lemma {:induction false} FillPairAppend(ps: seq<Piece>, qs: seq<Piece>, a1: string, a2: string)
    ensures FillPair(ps + qs, a1, a2) == FillPair(ps, a1, a2) + FillPair(qs, a1, a2)
    decreases |ps|
  {
    if |ps| == 0 {
      assert ps + qs == qs;
    } else {
      assert (ps + qs)[0] == ps[0];
      assert (ps + qs)[1..] == ps[1..] + qs;
      FillPairAppend(ps[1..], qs, a1, a2);
    }
  }

  lemma FillPairCons(p: Piece, ps: seq<Piece>, a1: string, a2: string)
    ensures FillPair([p] + ps, a1, a2) == PairText(p, a1, a2) + FillPair(ps, a1, a2)
  {
    assert ([p] + ps)[1..] == ps;
  }

  function DigitChar(n: nat): (c: char)
    requires n < 10
    ensures IsDigitChar(c) && DigitOf(c) == n
  {
    ('0' as int + n) as char
  }

  /** A piece the scan reads back as itself: a character other than '%',
      or a one-digit marker written plainly. */
  predicate Simple(p: Piece) {
    match p
    case Plain(c) => c != '%'
    case Marker(n, text) => n < 10 && text == ['%', DigitChar(n)]
  }

  /** Pieces that the scan of their text gives back: each is simple, and no
      marker is followed by a digit, which would extend it. */
  predicate Canonical(ps: seq<Piece>) {
    forall k :: 0 <= k < |ps| ==> Simple(ps[k]) && (k + 1 < |ps| && ps[k].Marker? ==> !(ps[k + 1].Plain? && IsDigitChar(ps[k + 1].c)))
  }

  /** Scanning the text of canonical pieces gives those pieces back. */
  lemma {:induction false} Rescan(ps: seq<Piece>)
    requires Canonical(ps)
    ensures Pieces(Joined(ps)) == ps
    decreases |ps|
  {
    if |ps| > 0 {
      var p, rest := ps[0], ps[1..];
      assert Canonical(rest) by {
        forall k | 0 <= k < |rest| ensures Simple(rest[k]) {
          assert rest[k] == ps[k + 1];
        }
        forall k | 0 <= k < |rest| && k + 1 < |rest| && rest[k].Marker?
          ensures !(rest[k + 1].Plain? && IsDigitChar(rest[k + 1].c))
        {
          assert rest[k] == ps[k + 1] && rest[k + 1] == ps[k + 2];
        }
      }
      Rescan(rest);
      var tail := Joined(rest);
      assert |tail| > 0 ==> tail[0] == PieceText(rest[0])[0] by {
        if |rest| > 0 {
          JoinedCons(rest[0], rest[1..]);
          assert [rest[0]] + rest[1..] == rest;
        }
      }
      JoinedCons(p, rest);
      assert [p] + rest == ps;
      match p
      case Plain(c) =>
        PiecesPlain(c, tail);
      case Marker(n, text) =>
        PiecesMarker(DigitChar(n), tail);
    }
  }
}
