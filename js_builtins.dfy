/** The JavaScript built-ins the application relies on, stated over Dafny strings:
    the white-space class shared by `\s`, `String.prototype.trim` and `parseInt`,
    `trim`, `split` on one character, `join`, `String(n)` for naturals and
    `parseInt(s, 10)`. */
module JsBuiltins {

  datatype Option<T> = None | Some(value: T)

  /** WhiteSpace and LineTerminator code points of ECMA-262 (sections 12.2 and 12.3):
      the class matched by `\s` and removed by `trim` and by `parseInt`. */
  predicate IsWhiteSpace(c: char) {
    || c == '\t' || c == '\n' || c == '\U{000B}' || c == '\U{000C}' || c == '\r'
    || c == ' ' || c == '\U{00A0}' || c == '\U{1680}'
    || ('\U{2000}' <= c <= '\U{200A}')
    || c == '\U{2028}' || c == '\U{2029}' || c == '\U{202F}' || c == '\U{205F}'
    || c == '\U{3000}' || c == '\U{FEFF}'
  }

  predicate NoWhiteSpace(s: string) {
    forall i | 0 <= i < |s| :: !IsWhiteSpace(s[i])
  }

  predicate AllWhiteSpace(s: string) {
    forall i | 0 <= i < |s| :: IsWhiteSpace(s[i])
  }

  /** The end of the run of white space that starts at `i`. */
  function SpaceRunEnd(s: string, i: nat): (j: nat)
    requires i <= |s|
    ensures i <= j <= |s|
    ensures forall k | i <= k < j :: IsWhiteSpace(s[k])
    ensures j < |s| ==> !IsWhiteSpace(s[j])
    decreases |s| - i
  {
    if i < |s| && IsWhiteSpace(s[i]) then SpaceRunEnd(s, i + 1) else i
  }

  /** The start of the run of white space that ends at `j`. */
  function SpaceRunStart(s: string, j: nat): (i: nat)
    requires j <= |s|
    ensures i <= j
    ensures forall k | i <= k < j :: IsWhiteSpace(s[k])
    ensures 0 < i ==> !IsWhiteSpace(s[i - 1])
  {
    if 0 < j && IsWhiteSpace(s[j - 1]) then SpaceRunStart(s, j - 1) else j
  }

  /** A run of white space is determined by where it starts. */
  lemma SpaceRunEndUnique(s: string, i: nat, j: nat)
    requires i <= j <= |s|
    requires forall k | i <= k < j :: IsWhiteSpace(s[k])
    requires j < |s| ==> !IsWhiteSpace(s[j])
    ensures SpaceRunEnd(s, i) == j
  {
  }

  /** `trimStart`: the string after its leading white space. */
  function TrimStart(s: string): string {
    s[SpaceRunEnd(s, 0)..]
  }

  /** `trimEnd`: the string before its trailing white space. */
  function TrimEnd(s: string): string {
    s[..SpaceRunStart(s, |s|)]
  }

  /** `r` is `s` with the white space at its two ends cut off: a middle slice of `s` whose
      cut-off ends are white space only and whose own ends are not white space. */
  predicate TrimmedOf(r: string, s: string) {
    && (r == [] || (!IsWhiteSpace(r[0]) && !IsWhiteSpace(r[|r| - 1])))
    && exists i, j | 0 <= i <= j <= |s| :: r == s[i..j] && AllWhiteSpace(s[..i]) && AllWhiteSpace(s[j..])
  }

  /** At most one string is `s` trimmed. */
  lemma TrimmedOfUnique(r1: string, r2: string, s: string)
    requires TrimmedOf(r1, s) && TrimmedOf(r2, s)
    ensures r1 == r2
  {
    var i1, j1 :| 0 <= i1 <= j1 <= |s| && r1 == s[i1..j1] && AllWhiteSpace(s[..i1]) && AllWhiteSpace(s[j1..]);
    var i2, j2 :| 0 <= i2 <= j2 <= |s| && r2 == s[i2..j2] && AllWhiteSpace(s[..i2]) && AllWhiteSpace(s[j2..]);
    if r1 == [] || r2 == [] {
      EmptyTrimAllWhite(r1, r2, s, i1, j1, i2, j2);
    } else {
      SameCutPoints(r1, r2, s, i1, j1, i2, j2);
    }
  }

  lemma SameCutPoints(r1: string, r2: string, s: string, i1: int, j1: int, i2: int, j2: int)
    requires r1 != [] && !IsWhiteSpace(r1[0]) && !IsWhiteSpace(r1[|r1| - 1])
    requires r2 != [] && !IsWhiteSpace(r2[0]) && !IsWhiteSpace(r2[|r2| - 1])
    requires 0 <= i1 <= j1 <= |s| && r1 == s[i1..j1] && AllWhiteSpace(s[..i1]) && AllWhiteSpace(s[j1..])
    requires 0 <= i2 <= j2 <= |s| && r2 == s[i2..j2] && AllWhiteSpace(s[..i2]) && AllWhiteSpace(s[j2..])
    ensures r1 == r2
  {
    var n1, n2 := |r1| - 1, |r2| - 1;
    assert n1 == j1 - 1 - i1 && n2 == j2 - 1 - i2;
    assert r1[0] == s[i1] && r1[n1] == s[j1 - 1];
    assert r2[0] == s[i2] && r2[n2] == s[j2 - 1];
  }

  lemma EmptyTrimAllWhite(r1: string, r2: string, s: string, i1: int, j1: int, i2: int, j2: int)
    requires r1 == [] || r2 == []
    requires r1 == [] || (!IsWhiteSpace(r1[0]) && !IsWhiteSpace(r1[|r1| - 1]))
    requires r2 == [] || (!IsWhiteSpace(r2[0]) && !IsWhiteSpace(r2[|r2| - 1]))
    requires 0 <= i1 <= j1 <= |s| && r1 == s[i1..j1] && AllWhiteSpace(s[..i1]) && AllWhiteSpace(s[j1..])
    requires 0 <= i2 <= j2 <= |s| && r2 == s[i2..j2] && AllWhiteSpace(s[..i2]) && AllWhiteSpace(s[j2..])
    ensures r1 == r2
  {
    var e := if r1 == [] then i1 else i2;
    assert AllWhiteSpace(s) by {
      forall k | 0 <= k < |s|
        ensures IsWhiteSpace(s[k])
      {
        if k < e {
          assert s[..e][k] == s[k];
        } else {
          assert s[e..][k - e] == s[k];
        }
      }
    }
  }

  /** `String.prototype.trim`: white space removed from both ends and nowhere else. */
  function Trim(s: string): (r: string)
    ensures TrimmedOf(r, s)
    ensures NoWhiteSpace(s) ==> r == s
    ensures AllWhiteSpace(s) ==> r == []
  {
    var i := SpaceRunEnd(s, 0);
    var t := s[i..];
    var j := SpaceRunStart(t, |t|);
    assert NoWhiteSpace(s) ==> i == 0 && t == s && j == |t|;
    assert AllWhiteSpace(s) ==> i == |s|;
    assert t[..j] == s[i..i + j];
    assert AllWhiteSpace(s[..i]) by {
      assert forall k | 0 <= k < i :: s[..i][k] == s[k];
    }
    var rest := s[i + j..];
    assert AllWhiteSpace(rest) by {
      assert forall k | 0 <= k < |rest| :: rest[k] == t[j + k];
    }
    t[..j]
  }

  /** `trim` is characterised by `TrimmedOf`: any string that is `s` trimmed is `Trim(s)`. */
  lemma TrimCharacterised(r: string, s: string)
    requires TrimmedOf(r, s)
    ensures r == Trim(s)
  {
    TrimmedOfUnique(r, Trim(s), s);
  }

  lemma TrimStartWhiteSpacePrefix(w: string, t: string)
    requires AllWhiteSpace(w)
    ensures TrimStart(w + t) == TrimStart(t)
  {
    var j := SpaceRunEnd(t, 0);
    SpaceRunEndUnique(w + t, 0, |w| + j);
    assert (w + t)[|w| + j..] == t[j..];
  }

  function CountChar(s: string, c: char): nat {
    if |s| == 0 then 0 else (if s[0] == c then 1 else 0) + CountChar(s[1..], c)
  }

  /** `s.split(sep)` for a one-character separator: every piece, empty ones included. */
  function Split(s: string, sep: char): (parts: seq<string>)
    ensures |parts| == CountChar(s, sep) + 1
    ensures forall i | 0 <= i < |parts| :: sep !in parts[i]
    decreases |s|
  {
    if |s| == 0 then [""]
    else
      var rest := Split(s[1..], sep);
      if s[0] == sep then [""] + rest else [[s[0]] + rest[0]] + rest[1..]
  }

  /** `parts.join(sep)`. */
  function Join(parts: seq<string>, sep: string): string {
    if |parts| == 0 then ""
    else if |parts| == 1 then parts[0]
    else parts[0] + sep + Join(parts[1..], sep)
  }

  /** Splitting and joining again with the same separator gives back the string. */
  lemma {:induction false} JoinSplit(s: string, sep: char)
    ensures Join(Split(s, sep), [sep]) == s
  {
    if |s| > 0 {
      var rest := Split(s[1..], sep);
      JoinSplit(s[1..], sep);
      if s[0] == sep {
        assert ([""] + rest)[1..] == rest;
      } else {
        var parts := [[s[0]] + rest[0]] + rest[1..];
        assert parts[1..] == rest[1..];
        if |rest| > 1 {
          assert Join(rest, [sep]) == rest[0] + [sep] + Join(rest[1..], [sep]);
        }
        assert s == [s[0]] + s[1..];
      }
    }
  }

  /** Joining one more piece appends the separator and the piece. */
  lemma {:induction false} JoinSnoc(parts: seq<string>, x: string, sep: string)
    requires |parts| >= 1
    ensures Join(parts + [x], sep) == Join(parts, sep) + sep + x
  {
    if |parts| == 1 {
      assert (parts + [x])[1..] == [x];
    } else {
      assert (parts + [x])[1..] == parts[1..] + [x];
      JoinSnoc(parts[1..], x, sep);
    }
  }

  /** No piece is empty and no piece holds the separator's first character. */
  predicate Separable(parts: seq<string>, sep: string)
    requires |sep| > 0
  {
    forall i | 0 <= i < |parts| :: |parts[i]| > 0 && sep[0] !in parts[i]
  }

  /** Pieces that are not empty and hold no character starting the separator are told
      apart by their join: `join` is injective on them. */
  lemma {:induction false} JoinInjective(a: seq<string>, b: seq<string>, sep: string)
    requires |sep| > 0 && Separable(a, sep) && Separable(b, sep)
    requires Join(a, sep) == Join(b, sep)
    ensures a == b
    decreases |a|
  {
    var x := Join(a, sep);
    if |a| == 0 || |b| == 0 {
    } else {
      var p, q := a[0], b[0];
      FirstPieceLength(a, b, sep);
      FirstPieceLength(b, a, sep);
      assert |p| == |q|;
      assert p == x[..|p|] == q;
      if |a| == 1 || |b| == 1 {
        assert |a| == 1 && |b| == 1;
      } else {
        var k := |p| + |sep|;
        assert x[k..] == Join(a[1..], sep);
        assert x[k..] == Join(b[1..], sep);
        JoinInjective(a[1..], b[1..], sep);
        assert a == [p] + a[1..] && b == [q] + b[1..];
      }
    }
  }

  /** `Join` starts with the first piece, followed by the end or by the separator. */
  lemma FirstPiece(parts: seq<string>, sep: string)
    requires |sep| > 0 && Separable(parts, sep) && |parts| > 0
    ensures var x, p := Join(parts, sep), parts[0];
      && |p| <= |x| && x[..|p|] == p
      && (|x| == |p| <==> |parts| == 1)
      && (|x| > |p| ==> x[|p|] == sep[0])
  {
  }

  /** The first piece ends where the separator or the string first begins. */
  lemma FirstPieceLength(a: seq<string>, b: seq<string>, sep: string)
    requires |sep| > 0 && Separable(a, sep) && Separable(b, sep)
    requires |a| > 0 && |b| > 0 && Join(a, sep) == Join(b, sep)
    ensures |a[0]| <= |b[0]|
  {
    FirstPiece(a, sep);
    FirstPiece(b, sep);
  }

  /** The piece after the last separator is split off as the last part. */
  lemma {:induction false} SplitLastPiece(a: string, sep: char, b: string)
    requires sep !in b
    ensures Split(a + [sep] + b, sep) == Split(a, sep) + [b]
    decreases |a|
  {
    if |a| == 0 {
      assert a + [sep] + b == [sep] + b;
      assert ([sep] + b)[1..] == b;
      SplitNoSeparator(b, sep);
    } else {
      assert (a + [sep] + b)[1..] == a[1..] + [sep] + b;
      SplitLastPiece(a[1..], sep, b);
    }
  }

  /** A separator between two strings splits them apart: the pieces of each, in order. */
  lemma {:induction false} SplitConcat(a: string, sep: char, b: string)
    ensures Split(a + [sep] + b, sep) == Split(a, sep) + Split(b, sep)
    decreases |a|
  {
    if |a| == 0 {
      assert a + [sep] + b == [sep] + b;
      assert ([sep] + b)[1..] == b;
    } else {
      assert (a + [sep] + b)[1..] == a[1..] + [sep] + b;
      SplitConcat(a[1..], sep, b);
    }
  }

  /** Two pieces without the separator, joined by it, split back into those two pieces. */
  lemma SplitTwoPieces(a: string, sep: char, b: string)
    requires sep !in a && sep !in b
    ensures Split(a + [sep] + b, sep) == [a, b]
  {
    SplitConcat(a, sep, b);
    SplitNoSeparator(a, sep);
    SplitNoSeparator(b, sep);
  }

  lemma {:induction false} SplitNoSeparator(s: string, sep: char)
    requires sep !in s
    ensures Split(s, sep) == [s]
    decreases |s|
  {
    if |s| > 0 {
      assert sep !in s[1..];
      SplitNoSeparator(s[1..], sep);
      assert s == [s[0]] + s[1..];
    }
  }

  predicate IsDigit(c: char) {
    '0' <= c <= '9'
  }

  function DigitValue(c: char): nat
    requires IsDigit(c)
  {
    c as int - '0' as int
  }

  function DigitChar(d: nat): (c: char)
    requires d < 10
    ensures IsDigit(c) && DigitValue(c) == d
  {
    ('0' as int + d) as char
  }

  /** `String(n)` for a natural number: its decimal digits without leading zeros. */
  function DecimalString(n: nat): (s: string)
    ensures |s| >= 1 && forall i | 0 <= i < |s| :: IsDigit(s[i])
  {
    if n < 10 then [DigitChar(n)] else DecimalString(n / 10) + [DigitChar(n % 10)]
  }

  /** The end of the run of ASCII digits that starts at `i`. */
  function DigitRunEnd(s: string, i: nat): (j: nat)
    requires i <= |s|
    ensures i <= j <= |s|
    ensures forall k | i <= k < j :: IsDigit(s[k])
    ensures j < |s| ==> !IsDigit(s[j])
    decreases |s| - i
  {
    if i < |s| && IsDigit(s[i]) then DigitRunEnd(s, i + 1) else i
  }

  function DigitsValue(ds: string): nat
    requires forall i | 0 <= i < |ds| :: IsDigit(ds[i])
  {
    if |ds| == 0 then 0 else DigitsValue(ds[..|ds| - 1]) * 10 + DigitValue(ds[|ds| - 1])
  }

  /** A JavaScript number restricted to what `parseInt` can return here: NaN or an integer. */
  datatype Num = NaN | Int(v: int)

  /** `parseInt(s, 10)`: skip leading white space, take an optional sign, then the longest
      run of decimal digits; NaN when that run is empty. Arbitrary precision (see README). */
  function ParseInt(s: string): (r: Num)
    ensures r.Int? ==> exists i | 0 <= i < |s| :: IsDigit(s[i])
    ensures |s| > 0 && IsDigit(s[0]) ==> r.Int? && r.v >= 0
  {
    var i := SpaceRunEnd(s, 0);
    var negative := i < |s| && s[i] == '-';
    var b := if i < |s| && (s[i] == '-' || s[i] == '+') then i + 1 else i;
    var e := DigitRunEnd(s, b);
    if e == b then
      NaN
    else
      assert IsDigit(s[b]);
      var n: int := DigitsValue(s[b..e]);
      Int(if negative then -n else n)
  }

  /** `n - 1` on a parsed number: NaN stays NaN. */
  function Pred(n: Num): (r: Num)
    ensures r.NaN? <==> n.NaN?
    ensures n.Int? ==> r.v + 1 == n.v
  {
    if n.NaN? then NaN else Int(n.v - 1)
  }

  /** Two ASCII digits, however much white space precedes them, parse to their value. */
  lemma ParseIntTwoDigits(w: string, a: char, b: char)
    requires AllWhiteSpace(w) && IsDigit(a) && IsDigit(b)
    ensures ParseInt(w + [a, b]) == Int(10 * DigitValue(a) + DigitValue(b))
  {
    var s := w + [a, b];
    SpaceRunEndUnique(s, 0, |w|);
    assert s[|w|] == a && s[|w| + 1] == b;
    assert DigitRunEnd(s, |w| + 2) == |w| + 2;
    assert DigitRunEnd(s, |w|) == |w| + 2;
    var ab := s[|w|..|w| + 2];
    assert ab == [a, b];
    assert DigitsValue(ab) == 10 * DigitValue(a) + DigitValue(b) by {
      assert ab[..1] == [a];
      assert [a][..0] == [];
      assert DigitsValue([a]) == DigitValue(a);
    }
    assert !(a == '-' || a == '+');
  }
}
