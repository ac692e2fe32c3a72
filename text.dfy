/**
 * The parts of Python's `str` and list behaviour that the line-list tools rely on:
 * slicing with clamped and negative indices, `str.split()`, `int()`, `str()` of an
 * integer, `str.replace`, `str.strip`, `str.rfind`, `str.index`, `str.ljust`-style
 * padding and `in` on strings.
 */
module Text {
  import opened Wrappers

  // ---------------------------------------------------------------------------
  // Python slicing

  /** The index a Python slice bound `i` denotes in a sequence of length `n`. */
  function SliceBound(i: int, n: nat): (b: nat)
    ensures b <= n
    ensures 0 <= i <= n ==> b == i
    ensures i > n ==> b == n
    ensures -(n as int) <= i < 0 ==> b == n + i
    ensures i < -(n as int) ==> b == 0
  {
    if i < 0 then (if i + n < 0 then 0 else i + n) else if i > n then n else i
  }

  /** Python's `s[i:j]`: out-of-range bounds are clamped and never raise. */
  function Slice<T>(s: seq<T>, i: int, j: int): (r: seq<T>)
    ensures |r| == if SliceBound(i, |s|) < SliceBound(j, |s|) then SliceBound(j, |s|) - SliceBound(i, |s|) else 0
    ensures forall k :: 0 <= k < |r| ==> r[k] == s[SliceBound(i, |s|) + k]
  {
    var a, b := SliceBound(i, |s|), SliceBound(j, |s|);
    if a < b then s[a..b] else []
  }

  /** Within bounds a Python slice is the sequence slice. */
  lemma SliceInRange<T>(s: seq<T>, i: int, j: int)
    requires 0 <= i <= j <= |s|
    ensures Slice(s, i, j) == s[i..j]
  {
  }

  /** Concatenation of a sequence of sequences, as `list.extend` in a loop does. */
  function Flatten<T>(ss: seq<seq<T>>): (r: seq<T>)
  {
    if ss == [] then [] else ss[0] + Flatten(ss[1..])
  }

  lemma {:induction false} FlattenAppend<T>(ss: seq<seq<T>>, s: seq<T>)
    ensures Flatten(ss + [s]) == Flatten(ss) + s
  {
    if ss == [] {
      assert ss + [s] == [s];
    } else {
      assert (ss + [s])[1..] == ss[1..] + [s];
      FlattenAppend(ss[1..], s);
    }
  }

  // ---------------------------------------------------------------------------
  // Whitespace and str.split()

  /** Python's `str.isspace()` for one character: the characters `str.split()` and `str.strip()` treat as whitespace. */
  predicate IsSpace(c: char)
  {
    c == ' ' || ('\t' <= c <= '\r') || ('\U{1C}' <= c <= '\U{1F}') || c == '\U{85}' || c == '\U{A0}'
    || c == '\U{1680}' || ('\U{2000}' <= c <= '\U{200A}') || c == '\U{2028}' || c == '\U{2029}'
    || c == '\U{202F}' || c == '\U{205F}' || c == '\U{3000}'
  }

  /** `n` space characters, Python's `" " * n`. */
  function Spaces(n: nat): (r: string)
    ensures |r| == n && forall i :: 0 <= i < n ==> r[i] == ' '
  {
    seq(n, _ => ' ')
  }

  /** The length of the run of non-whitespace characters that starts `s`. */
  function TokenLength(s: string): (n: nat)
    ensures n <= |s|
    ensures forall i :: 0 <= i < n ==> !IsSpace(s[i])
    ensures n < |s| ==> IsSpace(s[n])
  {
    if s == [] || IsSpace(s[0]) then 0 else 1 + TokenLength(s[1..])
  }

  /** Python's `s.split()` with no separator: the maximal runs of non-whitespace characters, in order. */
  function Split(s: string): (r: seq<string>)
    decreases |s|
    ensures forall t :: t in r ==> |t| > 0 && forall i :: 0 <= i < |t| ==> !IsSpace(t[i])
  {
    if s == [] then []
    else if IsSpace(s[0]) then Split(s[1..])
    else
      var n := TokenLength(s);
      [s[..n]] + Split(s[n..])
  }

  lemma {:induction false} TokenLengthBeforeSpace(x: string, y: string)
    requires |y| > 0 && IsSpace(y[0])
    ensures TokenLength(x + y) == TokenLength(x)
  {
    if x != [] && !IsSpace(x[0]) {
      assert (x + y)[1..] == x[1..] + y;
      TokenLengthBeforeSpace(x[1..], y);
    }
  }

  /** Text followed by whitespace splits independently of what follows. */
  lemma {:induction false} SplitBeforeSpace(x: string, y: string)
    requires |y| > 0 && IsSpace(y[0])
    ensures Split(x + y) == Split(x) + Split(y)
    decreases |x|
  {
    if x == [] {
      assert x + y == y;
    } else if IsSpace(x[0]) {
      assert (x + y)[1..] == x[1..] + y;
      SplitBeforeSpace(x[1..], y);
    } else {
      var n := TokenLength(x);
      TokenLengthBeforeSpace(x, y);
      assert (x + y)[..n] == x[..n];
      assert (x + y)[n..] == x[n..] + y;
      SplitBeforeSpace(x[n..], y);
    }
  }

  /** Text ending in whitespace splits independently of what follows it. */
  lemma SplitAfterSpace(x: string, y: string)
    requires |x| > 0 && IsSpace(x[|x| - 1])
    ensures Split(x + y) == Split(x) + Split(y)
  {
    var p, c := x[..|x| - 1], [x[|x| - 1]];
    assert x == p + c;
    assert x + y == p + (c + y);
    SplitAfterOneSpace(c, y);
    calc {
      Split(x + y);
      Split(p + (c + y));
      { SplitBeforeSpace(p, c + y); }
      Split(p) + Split(c + y);
      Split(p) + Split(y);
    }
    calc {
      Split(x);
      Split(p + c);
      { SplitBeforeSpace(p, c); }
      Split(p) + Split(c);
      Split(p);
    }
  }

  lemma SplitAfterOneSpace(c: string, y: string)
    requires |c| == 1 && IsSpace(c[0])
    ensures Split(c) == [] && Split(c + y) == Split(y)
  {
    assert (c + y)[1..] == y;
    assert c[1..] == [];
  }

  /** Whitespace alone splits into no tokens. */
  lemma {:induction false} SplitOfWhitespace(z: string)
    requires forall i :: 0 <= i < |z| ==> IsSpace(z[i])
    ensures Split(z) == []
  {
    if z != [] {
      SplitOfWhitespace(z[1..]);
    }
  }

  /** A run of non-whitespace characters is a single token. */
  lemma SplitOfToken(t: string)
    requires |t| > 0 && forall i :: 0 <= i < |t| ==> !IsSpace(t[i])
    ensures Split(t) == [t]
  {
    assert TokenLength(t) == |t|;
    assert t[..|t|] == t && t[|t|..] == [];
  }

  /** Python's `s.strip()`: `s` without leading and trailing whitespace. */
  function Strip(s: string): (r: string)
    ensures |r| <= |s|
    ensures |r| > 0 ==> !IsSpace(r[0]) && !IsSpace(r[|r| - 1])
    ensures forall i :: 0 <= i < |s| && !IsSpace(s[i]) ==> |r| > 0
    decreases |s|
  {
    if s == [] then []
    else if IsSpace(s[0]) then Strip(s[1..])
    else if IsSpace(s[|s| - 1]) then Strip(s[..|s| - 1])
    else s
  }

  // ---------------------------------------------------------------------------
  // Integers: str() and int()

  predicate IsDigit(c: char)
  {
    '0' <= c <= '9'
  }

  predicate AllDigits(s: string)
  {
    forall i :: 0 <= i < |s| ==> IsDigit(s[i])
  }

  function DigitChar(d: nat): (c: char)
    requires d < 10
    ensures IsDigit(c)
  {
    ('0' as int + d) as char
  }

  /** The value of a string of decimal digits, most significant first. */
  function DigitsValue(s: string): (n: nat)
    requires AllDigits(s)
  {
    if s == [] then 0 else DigitsValue(s[..|s| - 1]) * 10 + (s[|s| - 1] as int - '0' as int)
  }

  /** Python's `str(n)` for a natural number: its decimal digits. */
  function NatToString(n: nat): (r: string)
    ensures |r| > 0 && AllDigits(r)
  {
    if n < 10 then [DigitChar(n)] else NatToString(n / 10) + [DigitChar(n % 10)]
  }

  /** Python's `str(n)` for an integer: a `-` for negative values, then the decimal digits of `|n|`. */
  function IntToString(n: int): (r: string)
    ensures |r| > 0 && (IsDigit(r[0]) || r[0] == '-')
    ensures n >= 0 ==> AllDigits(r)
  {
    if n < 0 then "-" + NatToString(-n) else NatToString(n)
  }

  /**
   * Python's `int(s)` on a token without whitespace: an optional sign followed by one or
   * more decimal digits; anything else raises ValueError, modelled as `None`.
   */
  function ParseInt(s: string): (r: Option<int>)
    ensures r.Some? <==> (AllDigits(s) && |s| > 0) || (|s| > 1 && (s[0] == '+' || s[0] == '-') && AllDigits(s[1..]))
  {
    if |s| > 0 && (s[0] == '+' || s[0] == '-') then
      if |s| > 1 && AllDigits(s[1..]) then
        Some(if s[0] == '-' then -(DigitsValue(s[1..]) as int) else DigitsValue(s[1..]))
      else None
    else if |s| > 0 && AllDigits(s) then Some(DigitsValue(s))
    else None
  }

  lemma {:induction false} DigitsValueOfNatToString(n: nat)
    ensures DigitsValue(NatToString(n)) == n
  {
    var s := NatToString(n);
    if n < 10 {
      assert s[..|s| - 1] == [];
    } else {
      assert s[..|s| - 1] == NatToString(n / 10);
      DigitsValueOfNatToString(n / 10);
    }
  }

  /** `int(str(n)) == n`: the count written into a header reads back as the same count. */
  lemma ParseIntOfString(n: int)
    ensures ParseInt(IntToString(n)) == Some(n)
  {
    if n < 0 {
      DigitsValueOfNatToString(-n);
      assert IntToString(n)[1..] == NatToString(-n);
    } else {
      DigitsValueOfNatToString(n);
      assert IntToString(n)[0] != '-' && IntToString(n)[0] != '+';
    }
  }

  // ---------------------------------------------------------------------------
  // Searching and replacing

  /** `sub` occurs in `s` starting at index `i`. */
  predicate OccursAt(s: string, sub: string, i: int)
  {
    0 <= i && i + |sub| <= |s| && s[i..i + |sub|] == sub
  }

  /** Python's `sub in s`. */
  function Contains(s: string, sub: string): (b: bool)
    decreases |s|
    ensures b <==> exists i :: OccursAt(s, sub, i)
  {
    if |sub| <= |s| && s[..|sub|] == sub then
      assert OccursAt(s, sub, 0);
      true
    else if s == [] then
      false
    else
      var r := Contains(s[1..], sub);
      assert forall i :: OccursAt(s, sub, i) ==> i == 0 || OccursAt(s[1..], sub, i - 1) by {
        forall i | OccursAt(s, sub, i) && i > 0 ensures OccursAt(s[1..], sub, i - 1) {
          assert s[1..][i - 1..i - 1 + |sub|] == s[i..i + |sub|];
        }
      }
      assert forall i :: OccursAt(s[1..], sub, i) ==> OccursAt(s, sub, i + 1) by {
        forall i | OccursAt(s[1..], sub, i) ensures OccursAt(s, sub, i + 1) {
          assert s[1..][i..i + |sub|] == s[i + 1..i + 1 + |sub|];
        }
      }
      r
  }

  /** Python's `s.rfind(c)` for one character: the last index holding `c`, or -1. */
  function RFind(s: string, c: char): (i: int)
    ensures -1 <= i < |s|
    ensures i >= 0 ==> s[i] == c
    ensures forall k :: i < k < |s| ==> s[k] != c
  {
    if s == [] then -1
    else if s[|s| - 1] == c then |s| - 1
    else RFind(s[..|s| - 1], c)
  }

  /** Python's `s.index(c)` for one character: the first index holding `c`; ValueError is `None`. */
  function Find(s: string, c: char): (r: Option<nat>)
    ensures r.Some? ==> r.value < |s| && s[r.value] == c && forall k :: 0 <= k < r.value ==> s[k] != c
    ensures r.None? ==> forall k :: 0 <= k < |s| ==> s[k] != c
  {
    if s == [] then None
    else if s[0] == c then Some(0)
    else match Find(s[1..], c)
      case None => None
      case Some(i) => Some(i + 1)
  }

  /**
   * Python's `s.replace(p, q)`: scanning left to right, every occurrence of `p` that does
   * not overlap an earlier replaced one becomes `q`.  (`p` is never empty here: it is
   * always the text of an integer.)
   */
  function Replace(s: string, p: string, q: string): (r: string)
    requires |p| > 0
    decreases |s|
  {
    if |s| < |p| then s
    else if s[..|p|] == p then q + Replace(s[|p|..], p, q)
    else [s[0]] + Replace(s[1..], p, q)
  }

  /** Replacing a text by itself changes nothing. */
  lemma {:induction false} ReplaceBySelf(s: string, p: string)
    requires |p| > 0
    ensures Replace(s, p, p) == s
    decreases |s|
  {
    if |s| < |p| {
    } else if s[..|p|] == p {
      ReplaceBySelf(s[|p|..], p);
      assert s == s[..|p|] + s[|p|..];
    } else {
      ReplaceBySelf(s[1..], p);
      assert s == [s[0]] + s[1..];
    }
  }

  /** Text in which the first character of `p` never appears contains no occurrence to replace. */
  lemma {:induction false} ReplaceAbsent(s: string, p: string, q: string)
    requires |p| > 0 && forall i :: 0 <= i < |s| ==> s[i] != p[0]
    ensures Replace(s, p, q) == s
    decreases |s|
  {
    if |s| >= |p| {
      assert s[..|p|][0] != p[0];
      ReplaceAbsent(s[1..], p, q);
      assert s == [s[0]] + s[1..];
    }
  }

  /** An occurrence at the front is replaced and the scan resumes after it. */
  lemma ReplaceAtFront(p: string, t: string, q: string)
    requires |p| > 0
    ensures Replace(p + t, p, q) == q + Replace(t, p, q)
  {
    assert (p + t)[..|p|] == p;
    assert (p + t)[|p|..] == t;
  }

  /** Leading spaces are kept when `p` does not start with a space. */
  lemma {:induction false} ReplaceAfterSpaces(k: nat, t: string, p: string, q: string)
    requires |p| > 0 && p[0] != ' '
    ensures Replace(Spaces(k) + t, p, q) == Spaces(k) + Replace(t, p, q)
    decreases k
  {
    if k == 0 {
      assert Spaces(k) + t == t;
    } else {
      var s := Spaces(k) + t;
      assert s[0] == ' ';
      assert s[1..] == Spaces(k - 1) + t;
      ReplaceAfterSpaces(k - 1, t, p, q);
      if |s| < |p| {
        ReplaceAbsentShort(t, p, q);
      } else {
        assert s[..|p|] != p by { assert s[..|p|][0] == ' '; }
        assert Replace(s, p, q) == [' '] + Replace(s[1..], p, q);
        assert Spaces(k) == [' '] + Spaces(k - 1);
      }
    }
  }

  lemma ReplaceAbsentShort(t: string, p: string, q: string)
    requires |p| > 0 && |t| < |p|
    ensures Replace(t, p, q) == t
  {
  }

  /** Python's `sep.join(pieces)`. */
  function JoinBy(pieces: seq<string>, sep: string): (r: string)
    requires |pieces| > 0
  {
    if |pieces| == 1 then pieces[0] else pieces[0] + sep + JoinBy(pieces[1..], sep)
  }

  /** Text in which the first character of `p` never appears is copied, and the scan goes on after it. */
  lemma {:induction false} ReplaceAfterAbsent(a: string, b: string, p: string, q: string)
    requires |p| > 0 && forall i :: 0 <= i < |a| ==> a[i] != p[0]
    ensures Replace(a + b, p, q) == a + Replace(b, p, q)
    decreases |a|
  {
    if a == [] {
      assert a + b == b;
    } else {
      var s := a + b;
      assert s[1..] == a[1..] + b;
      ReplaceAfterAbsent(a[1..], b, p, q);
      if |s| < |p| {
        ReplaceAbsentShort(b, p, q);
        ReplaceAbsentShort(a[1..] + b, p, q);
      } else {
        assert s[..|p|] != p by { assert s[..|p|][0] == a[0]; }
        assert Replace(s, p, q) == [a[0]] + Replace(a[1..] + b, p, q);
        assert a == [a[0]] + a[1..];
      }
    }
  }

  /**
   * `str.replace` rewrites every occurrence, not only the first: text made of pieces
   * separated by `p`, none holding the first character of `p`, has each separator replaced.
   */
  lemma {:induction false} ReplaceEveryOccurrence(pieces: seq<string>, p: string, q: string)
    requires |pieces| > 0 && |p| > 0
    requires forall k, i :: 0 <= k < |pieces| && 0 <= i < |pieces[k]| ==> pieces[k][i] != p[0]
    ensures Replace(JoinBy(pieces, p), p, q) == JoinBy(pieces, q)
    decreases |pieces|
  {
    if |pieces| == 1 {
      assert pieces[0] + [] == pieces[0];
      ReplaceAfterAbsent(pieces[0], [], p, q);
    } else {
      var rest := JoinBy(pieces[1..], p);
      assert JoinBy(pieces, p) == pieces[0] + (p + rest);
      ReplaceAfterAbsent(pieces[0], p + rest, p, q);
      ReplaceAtFront(p, rest, q);
      ReplaceEveryOccurrence(pieces[1..], p, q);
    }
  }

  // ---------------------------------------------------------------------------
  // Padding

  /** Python's `"{:<w}".format(s)`: `s` padded on the right with spaces to at least `w` characters, never cut. */
  function LeftJustify(s: string, w: nat): (r: string)
    ensures |r| == if |s| < w then w else |s|
    ensures r[..|s|] == s
    ensures forall i :: |s| <= i < |r| ==> r[i] == ' '
  {
    if |s| < w then s + Spaces(w - |s|) else s
  }

  /** Python's `s.rstrip(" ")`: `s` without trailing spaces. */
  function TrimRight(s: string): (r: string)
    ensures |r| <= |s| && r == s[..|r|]
    ensures |r| > 0 ==> r[|r| - 1] != ' '
    ensures forall i :: |r| <= i < |s| ==> s[i] == ' '
  {
    if s == [] || s[|s| - 1] != ' ' then s else TrimRight(s[..|s| - 1])
  }

  /** A left-justified field gives back its text once the padding is trimmed. */
  lemma {:induction false} TrimRightOfLeftJustify(s: string, w: nat)
    requires |s| == 0 || s[|s| - 1] != ' '
    ensures TrimRight(LeftJustify(s, w)) == s
    decreases w
  {
    if |s| < w {
      var r := LeftJustify(s, w);
      assert r[..|r| - 1] == LeftJustify(s, w - 1);
      TrimRightOfLeftJustify(s, w - 1);
    }
  }
}
