/**
 * `VALDFormat`, `VALDCombineNoFormat` and `VALDCombineFormat` (VALDLinelist.py): the line
 * filter that keeps the quoted lines of a VALD line list up to its "* oscillator strengths"
 * trailer, and the rewrite of the element lines (the lines containing ":") into the shape
 * Turbospectrum's free-format reader expects, with the atomic masses in parentheses
 * removed from the element symbols.
 *
 * A file is the list of its lines as iterating over it yields them: each keeps its "\n"
 * and none is empty.  Output files are modelled as the lines written to them.
 */
module ValdFormat {
  import opened Wrappers
  import opened Text

  /** The trailer line that ends the line data of a VALD file. */
  const StopString := "* oscillator strengths"

  /** Lines as a text file yields them: never empty. */
  predicate FileLines(lines: seq<string>)
  {
    forall i :: 0 <= i < |lines| ==> |lines[i]| > 0
  }

  predicate AllFileLines(files: seq<seq<string>>)
  {
    forall i :: 0 <= i < |files| ==> FileLines(files[i])
  }

  // ---------------------------------------------------------------------------
  // Stripping the atomic masses (lines 306-313)

  /** `[i for i in range(len(s)) if s[i] == c]`, from index `i` on. */
  function IndicesFrom(s: string, c: char, i: nat): (r: seq<nat>)
    requires i <= |s|
    decreases |s| - i
  {
    if i == |s| then []
    else (if s[i] == c then [i] else []) + IndicesFrom(s, c, i + 1)
  }

  /** `[i for i in range(len(s)) if s[i] == c]`. */
  function IndicesOf(s: string, c: char): (r: seq<nat>)
  {
    IndicesFrom(s, c, 0)
  }

  /** Every index in `r` is at or after `i` and holds `c`. */
  predicate IndicesHold(s: string, c: char, i: nat, r: seq<nat>)
  {
    forall k :: 0 <= k < |r| ==> i <= r[k] < |s| && s[r[k]] == c
  }

  predicate Increasing(r: seq<nat>)
  {
    forall k, m :: 0 <= k < m < |r| ==> r[k] < r[m]
  }

  /** Every listed index is at or after `i` and holds `c`, and the list increases. */
  lemma {:induction false} IndicesFromSound(s: string, c: char, i: nat)
    requires i <= |s|
    ensures IndicesHold(s, c, i, IndicesFrom(s, c, i)) && Increasing(IndicesFrom(s, c, i))
    decreases |s| - i
  {
    if i < |s| {
      IndicesFromSound(s, c, i + 1);
      if s[i] == c {
        IndicesCons(s, c, i, IndicesFrom(s, c, i + 1));
      } else {
        IndicesLater(s, c, i, IndicesFrom(s, c, i + 1));
      }
    }
  }

  lemma IndicesCons(s: string, c: char, i: nat, t: seq<nat>)
    requires i < |s| && s[i] == c && IndicesHold(s, c, i + 1, t) && Increasing(t)
    ensures IndicesHold(s, c, i, [i] + t) && Increasing([i] + t)
  {
    var r := [i] + t;
    forall k, m | 0 <= k < m < |r| ensures r[k] < r[m] {
      assert r[m] == t[m - 1];
      if k > 0 {
        assert r[k] == t[k - 1];
      }
    }
    assert forall k :: 0 < k < |r| ==> r[k] == t[k - 1];
  }

  lemma IndicesLater(s: string, c: char, i: nat, t: seq<nat>)
    requires IndicesHold(s, c, i + 1, t)
    ensures IndicesHold(s, c, i, t)
  {
  }

  /** Every index from `i` on that holds `c` is listed. */
  lemma {:induction false} IndicesFromComplete(s: string, c: char, i: nat)
    requires i <= |s|
    ensures forall j :: i <= j < |s| && s[j] == c ==> j in IndicesFrom(s, c, i)
    decreases |s| - i
  {
    if i < |s| {
      IndicesFromComplete(s, c, i + 1);
      var head: seq<nat> := if s[i] == c then [i] else [];
      assert IndicesFrom(s, c, i) == head + IndicesFrom(s, c, i + 1);
    }
  }

  /** The index list holds every index of `c` in `s`, in increasing order, and nothing else. */
  lemma IndicesOfSpec(s: string, c: char)
    ensures var r := IndicesOf(s, c);
      && (forall k :: 0 <= k < |r| ==> r[k] < |s| && s[r[k]] == c)
      && (forall k, m :: 0 <= k < m < |r| ==> r[k] < r[m])
      && (forall i :: 0 <= i < |s| && s[i] == c ==> i in r)
  {
    IndicesFromSound(s, c, 0);
    IndicesFromComplete(s, c, 0);
  }

  /**
   * The pieces joined at line 312: for each "(" but the last, the text from after the
   * ")" of the same rank up to the next "("; for the last, the text after the last ")".
   */
  function MassPieces(chars: string, ls: seq<nat>, rs: seq<nat>): (r: seq<string>)
    requires |rs| >= 1 && |rs| >= |ls| - 1
  {
    seq(|ls|, k requires 0 <= k < |ls| =>
      if k == |ls| - 1 then Slice(chars, rs[|rs| - 1] + 1, |chars|) else Slice(chars, rs[k] + 1, ls[k + 1]))
  }

  /**
   * Lines 308-313: the element symbols without their atomic masses.  With no "(" the text
   * is unchanged; with fewer ")" than the pieces need, indexing `r` raises IndexError (`None`).
   */
  function StripMasses(chars: string): (r: Option<string>)
  {
    var rs, ls := IndicesOf(chars, ')'), IndicesOf(chars, '(');
    if |ls| == 0 then Some(chars)
    else if |rs| == 0 || |rs| < |ls| - 1 then None
    else Some(Flatten(MassPieces(chars, ls, rs)))
  }

  /** Lines 306-314: the element line rewritten, or `None` when the mass stripping raises. */
  function ElementLine(line: string): (r: Option<string>)
    ensures r.Some? ==> |r.value| > 1 && r.value[0] == '\'' && r.value[1] == '_'
  {
    var chars := Slice(line, RFind(line, ' '), -2);
    match StripMasses(chars)
    case None => None
    case Some(sym) => Some("'_" + Spaces(29) + sym + Spaces(5) + "'\n")
  }

  predicate StartsQuoted(line: string)
  {
    |line| > 0 && line[0] == '\''
  }

  predicate NoSpaces(s: string)
  {
    forall i :: 0 <= i < |s| ==> s[i] != ' '
  }

  predicate ParenFree(s: string)
  {
    forall i :: 0 <= i < |s| ==> s[i] != '(' && s[i] != ')'
  }

  /** One mass in parentheses followed by the symbol text after it. */
  function Group(mass: string, text: string): (r: string)
  {
    "(" + mass + ")" + text
  }

  function Groups(masses: seq<string>, texts: seq<string>): (r: string)
    requires |masses| == |texts|
  {
    if masses == [] then []
    else Groups(masses[..|masses| - 1], texts[..|texts| - 1]) + Group(masses[|masses| - 1], texts[|texts| - 1])
  }

  function Shift(r: seq<nat>, d: nat): (t: seq<nat>)
    ensures |t| == |r| && forall k :: 0 <= k < |r| ==> t[k] == r[k] + d
  {
    seq(|r|, k requires 0 <= k < |r| => r[k] + d)
  }

  lemma ShiftAppend(x: seq<nat>, y: seq<nat>, d: nat)
    ensures Shift(x + y, d) == Shift(x, d) + Shift(y, d)
  {
    assert forall k :: 0 <= k < |x| + |y| ==> Shift(x + y, d)[k] == (Shift(x, d) + Shift(y, d))[k];
  }

  lemma {:induction false} IndicesFromShift(a: string, b: string, c: char, j: nat)
    requires j <= |b|
    ensures IndicesFrom(a + b, c, |a| + j) == Shift(IndicesFrom(b, c, j), |a|)
    decreases |b| - j
  {
    if j < |b| {
      var head: seq<nat> := if b[j] == c then [j] else [];
      var shiftedHead: seq<nat> := if b[j] == c then [|a| + j] else [];
      calc {
        IndicesFrom(a + b, c, |a| + j);
        { assert (a + b)[|a| + j] == b[j]; }
        shiftedHead + IndicesFrom(a + b, c, |a| + j + 1);
        { IndicesFromShift(a, b, c, j + 1); }
        shiftedHead + Shift(IndicesFrom(b, c, j + 1), |a|);
        { assert Shift(head, |a|) == shiftedHead; }
        Shift(head, |a|) + Shift(IndicesFrom(b, c, j + 1), |a|);
        { ShiftAppend(head, IndicesFrom(b, c, j + 1), |a|); }
        Shift(head + IndicesFrom(b, c, j + 1), |a|);
        Shift(IndicesFrom(b, c, j), |a|);
      }
    }
  }

  lemma {:induction false} IndicesFromAppend(a: string, b: string, c: char, i: nat)
    requires i <= |a|
    ensures IndicesFrom(a + b, c, i) == IndicesFrom(a, c, i) + Shift(IndicesOf(b, c), |a|)
    decreases |a| - i
  {
    if i == |a| {
      IndicesFromShift(a, b, c, 0);
    } else {
      assert (a + b)[i] == a[i];
      IndicesFromAppend(a, b, c, i + 1);
      var head: seq<nat> := if a[i] == c then [i] else [];
      var rest, shifted := IndicesFrom(a, c, i + 1), Shift(IndicesOf(b, c), |a|);
      assert IndicesFrom(a + b, c, i) == head + (rest + shifted);
      assert IndicesFrom(a, c, i) == head + rest;
    }
  }

  /** The indices in a concatenation are those in each part, the second part's moved along. */
  lemma IndicesOfAppend(a: string, b: string, c: char)
    ensures IndicesOf(a + b, c) == IndicesOf(a, c) + Shift(IndicesOf(b, c), |a|)
  {
    IndicesFromAppend(a, b, c, 0);
  }

  lemma {:induction false} IndicesFromAbsent(s: string, c: char, i: nat)
    requires i <= |s| && forall j :: i <= j < |s| ==> s[j] != c
    ensures IndicesFrom(s, c, i) == []
    decreases |s| - i
  {
    if i < |s| {
      IndicesFromAbsent(s, c, i + 1);
    }
  }

  lemma IndicesOfAbsent(s: string, c: char)
    requires forall j :: 0 <= j < |s| ==> s[j] != c
    ensures IndicesOf(s, c) == []
  {
    IndicesFromAbsent(s, c, 0);
  }

  lemma {:induction false} IndicesFromSingle(s: string, c: char, i: nat, p: nat)
    requires i <= p < |s| && s[p] == c && forall j :: i <= j < |s| && j != p ==> s[j] != c
    ensures IndicesFrom(s, c, i) == [p]
    decreases |s| - i
  {
    if i == p {
      IndicesFromAbsent(s, c, p + 1);
    } else {
      IndicesFromSingle(s, c, i + 1, p);
    }
  }

  /** Where `c` occurs exactly once, at `i`, its index list is `[i]`. */
  lemma IndicesOfSingle(s: string, c: char, i: nat)
    requires i < |s| && s[i] == c && forall j :: 0 <= j < |s| && j != i ==> s[j] != c
    ensures IndicesOf(s, c) == [i]
  {
    IndicesFromSingle(s, c, 0, i);
  }

  lemma IndicesOfGroup(mass: string, text: string)
    requires ParenFree(mass) && ParenFree(text)
    ensures IndicesOf(Group(mass, text), '(') == [0]
    ensures IndicesOf(Group(mass, text), ')') == [|mass| + 1]
  {
    var g := Group(mass, text);
    assert g[0] == '(' && g[|mass| + 1] == ')';
    assert forall j :: 0 < j < |g| && j != |mass| + 1 ==> g[j] != '(' && g[j] != ')';
    IndicesOfSingle(g, '(', 0);
    IndicesOfSingle(g, ')', |mass| + 1);
  }

  /** Appending a group adds one "(" and one ")" at known places. */
  lemma IndicesAfterGroup(before: string, mass: string, text: string)
    requires ParenFree(mass) && ParenFree(text)
    ensures IndicesOf(before + Group(mass, text), '(') == IndicesOf(before, '(') + [|before|]
    ensures IndicesOf(before + Group(mass, text), ')') == IndicesOf(before, ')') + [|before| + |mass| + 1]
  {
    IndicesOfGroup(mass, text);
    OpenAfter(before, mass, text);
    CloseAfter(before, mass, text);
  }

  lemma OpenAfter(before: string, mass: string, text: string)
    requires IndicesOf(Group(mass, text), '(') == [0]
    ensures IndicesOf(before + Group(mass, text), '(') == IndicesOf(before, '(') + [|before|]
  {
    IndicesOfAppend(before, Group(mass, text), '(');
    assert Shift([0], |before|) == [|before|];
  }

  lemma CloseAfter(before: string, mass: string, text: string)
    requires IndicesOf(Group(mass, text), ')') == [|mass| + 1]
    ensures IndicesOf(before + Group(mass, text), ')') == IndicesOf(before, ')') + [|before| + |mass| + 1]
  {
    IndicesOfAppend(before, Group(mass, text), ')');
    assert Shift([|mass| + 1], |before|) == [|before| + |mass| + 1];
  }

  /** Where each piece of `chars` lies, given the indices of "(" and ")". */
  ghost predicate PiecesAre(chars: string, ls: seq<nat>, rs: seq<nat>, texts: seq<string>)
  {
    && |ls| == |texts| && |rs| == |texts|
    && forall k :: 0 <= k < |texts| ==> PieceAt(chars, ls, rs, texts, k)
  }

  ghost predicate PieceAt(chars: string, ls: seq<nat>, rs: seq<nat>, texts: seq<string>, k: nat)
    requires |ls| == |texts| && |rs| == |texts| && k < |texts|
  {
    var e := if k + 1 < |texts| then ls[k + 1] else |chars|;
    rs[k] + 1 <= e <= |chars| && chars[rs[k] + 1..e] == texts[k]
  }

  lemma PiecesExtend(before: string, ls: seq<nat>, rs: seq<nat>, texts: seq<string>, mass: string, text: string)
    requires PiecesAre(before, ls, rs, texts)
    ensures var chars := before + Group(mass, text);
      PiecesAre(chars, ls + [|before|], rs + [|before| + |mass| + 1], texts + [text])
  {
    var chars := before + Group(mass, text);
    var ls', rs', texts' := ls + [|before|], rs + [|before| + |mass| + 1], texts + [text];
    forall k | 0 <= k < |texts'| ensures PieceAt(chars, ls', rs', texts', k) {
      if k == |texts| {
        PieceNew(before, ls, rs, texts, mass, text);
      } else {
        PieceKept(before, ls, rs, texts, mass, text, k);
      }
    }
  }

  /** The group added last is the last piece. */
  lemma PieceNew(before: string, ls: seq<nat>, rs: seq<nat>, texts: seq<string>, mass: string, text: string)
    requires |ls| == |texts| && |rs| == |texts|
    ensures var chars := before + Group(mass, text);
      PieceAt(chars, ls + [|before|], rs + [|before| + |mass| + 1], texts + [text], |texts|)
  {
    var chars := before + Group(mass, text);
    assert chars[|before| + |mass| + 2..] == text;
  }

  /** A piece of `before` stays where it was, now ending at the new "(" if it was the last. */
  lemma PieceKept(before: string, ls: seq<nat>, rs: seq<nat>, texts: seq<string>, mass: string, text: string, k: nat)
    requires PiecesAre(before, ls, rs, texts) && k < |texts|
    ensures var chars := before + Group(mass, text);
      PieceAt(chars, ls + [|before|], rs + [|before| + |mass| + 1], texts + [text], k)
  {
    var chars := before + Group(mass, text);
    var ls' := ls + [|before|];
    assert PieceAt(before, ls, rs, texts, k);
    var e := if k + 1 < |texts| then ls[k + 1] else |before|;
    assert ls'[k + 1] == e;
    assert chars[rs[k] + 1..e] == before[rs[k] + 1..e];
  }

  lemma {:induction false} GroupsPieces(prefix: string, masses: seq<string>, texts: seq<string>)
    requires ParenFree(prefix) && |masses| == |texts|
    requires forall k :: 0 <= k < |masses| ==> ParenFree(masses[k]) && ParenFree(texts[k])
    ensures var chars := prefix + Groups(masses, texts);
      PiecesAre(chars, IndicesOf(chars, '('), IndicesOf(chars, ')'), texts)
    decreases |masses|
  {
    var chars := prefix + Groups(masses, texts);
    if masses == [] {
      assert chars == prefix;
      IndicesOfAbsent(prefix, '(');
      IndicesOfAbsent(prefix, ')');
    } else {
      var n := |masses|;
      var ms, ts := masses[..n - 1], texts[..n - 1];
      var before := prefix + Groups(ms, ts);
      assert chars == before + Group(masses[n - 1], texts[n - 1]);
      GroupsPieces(prefix, ms, ts);
      IndicesAfterGroup(before, masses[n - 1], texts[n - 1]);
      PiecesExtend(before, IndicesOf(before, '('), IndicesOf(before, ')'), ts, masses[n - 1], texts[n - 1]);
      assert ts + [texts[n - 1]] == texts;
    }
  }

  /** With the pieces where `PiecesAre` puts them, the stripping joins them. */
  lemma StripMassesOfPieces(chars: string, texts: seq<string>)
    requires |texts| > 0 && PiecesAre(chars, IndicesOf(chars, '('), IndicesOf(chars, ')'), texts)
    ensures StripMasses(chars) == Some(Flatten(texts))
  {
    var ls, rs := IndicesOf(chars, '('), IndicesOf(chars, ')');
    PiecesAreMassPieces(chars, ls, rs, texts);
  }

  lemma PiecesAreMassPieces(chars: string, ls: seq<nat>, rs: seq<nat>, texts: seq<string>)
    requires |texts| > 0 && PiecesAre(chars, ls, rs, texts)
    ensures MassPieces(chars, ls, rs) == texts
  {
    var pieces := MassPieces(chars, ls, rs);
    forall k | 0 <= k < |texts| ensures pieces[k] == texts[k] {
      assert PieceAt(chars, ls, rs, texts, k);
      var e := if k + 1 < |texts| then ls[k + 1] else |chars|;
      SliceInRange(chars, rs[k] + 1, e);
    }
  }

  /**
   * The mass stripping as the element symbols are meant to be read: text before the first
   * "(" is dropped and each "(mass)" is removed, leaving the symbol texts that follow the
   * masses, in order.
   */
  lemma StripMassesOfGroups(prefix: string, masses: seq<string>, texts: seq<string>)
    requires ParenFree(prefix) && |masses| == |texts| && |masses| > 0
    requires forall k :: 0 <= k < |masses| ==> ParenFree(masses[k]) && ParenFree(texts[k])
    ensures StripMasses(prefix + Groups(masses, texts)) == Some(Flatten(texts))
  {
    GroupsPieces(prefix, masses, texts);
    StripMassesOfPieces(prefix + Groups(masses, texts), texts);
  }

  /** Symbol text without "(" is kept as it is. */
  lemma StripMassesWithoutParens(chars: string)
    requires forall i :: 0 <= i < |chars| ==> chars[i] != '('
    ensures StripMasses(chars) == Some(chars)
  {
    IndicesOfAbsent(chars, '(');
  }

  /** A "(" with no ")" anywhere raises. */
  lemma StripMassesUnclosed(chars: string)
    requires exists i :: 0 <= i < |chars| && chars[i] == '('
    requires forall i :: 0 <= i < |chars| ==> chars[i] != ')'
    ensures StripMasses(chars) == None
  {
    var i :| 0 <= i < |chars| && chars[i] == '(';
    IndicesOfSpec(chars, '(');
    assert i in IndicesOf(chars, '(');
    IndicesOfAbsent(chars, ')');
  }

  /** The symbol text is taken from the last space up to the two closing characters (the quote and "\n"). */
  lemma ElementTextOf(front: string, sym: string, close: string)
    requires |close| == 2 && close[0] != ' ' && close[1] != ' '
    requires NoSpaces(sym)
    ensures Slice(front + " " + sym + close, RFind(front + " " + sym + close, ' '), -2) == " " + sym
  {
    var line := front + " " + sym + close;
    assert line[|front|] == ' ';
    var i := RFind(line, ' ');
    assert forall k :: |front| < k < |line| ==> line[k] != ' ' by {
      forall k | |front| < k < |line| ensures line[k] != ' ' {
        if k < |front| + 1 + |sym| {
          assert line[k] == sym[k - |front| - 1];
        } else {
          assert line[k] == close[k - |front| - 1 - |sym|];
        }
      }
    }
    assert i == |front|;
    SliceInRange(line, |front|, |line| - 2);
    assert line[|front|..|line| - 2] == " " + sym;
  }

  /** The element line as Turbospectrum reads it: the symbol, masses removed, between fixed-width padding. */
  lemma ElementLineOfGroups(front: string, prefix: string, masses: seq<string>, texts: seq<string>, close: string)
    requires |close| == 2 && close[0] != ' ' && close[1] != ' '
    requires ParenFree(prefix) && |masses| == |texts| && |masses| > 0
    requires forall k :: 0 <= k < |masses| ==> ParenFree(masses[k]) && ParenFree(texts[k])
    requires NoSpaces(prefix + Groups(masses, texts))
    ensures var line := front + " " + (prefix + Groups(masses, texts)) + close;
      ElementLine(line) == Some("'_" + Spaces(29) + Flatten(texts) + Spaces(5) + "'\n")
  {
    var sym := prefix + Groups(masses, texts);
    assert StripMasses(" " + sym) == Some(Flatten(texts)) by {
      assert " " + sym == (" " + prefix) + Groups(masses, texts);
      StripMassesOfGroups(" " + prefix, masses, texts);
    }
    ElementLineOfSymbol(front, sym, close, Flatten(texts));
  }

  lemma ElementLineOfSymbol(front: string, sym: string, close: string, stripped: string)
    requires |close| == 2 && close[0] != ' ' && close[1] != ' '
    requires NoSpaces(sym) && StripMasses(" " + sym) == Some(stripped)
    ensures ElementLine(front + " " + sym + close) == Some("'_" + Spaces(29) + stripped + Spaces(5) + "'\n")
  {
    ElementTextOf(front, sym, close);
  }

  // ---------------------------------------------------------------------------
  // The filters

  /** The lines written to an output file, and whether the function raised after writing them. */
  datatype Written = Written(lines: seq<string>, raised: bool)

  function Prefixed(prefix: seq<string>, w: Written): (r: Written)
  {
    Written(prefix + w.lines, w.raised)
  }

  /** Lines 297-319: what `VALDFormat` appends to its output for one input file. */
  function FormatLines(lines: seq<string>): (w: Written)
    requires FileLines(lines)
  {
    if lines == [] || Contains(lines[0], StopString) then Written([], false)
    else if lines[0][0] != '\'' then FormatLines(lines[1..])
    else if !Contains(lines[0], ":") then Prefixed([lines[0]], FormatLines(lines[1..]))
    else match ElementLine(lines[0])
      case None => Written([], true)
      case Some(l) => Prefixed([l], FormatLines(lines[1..]))
  }

  /** Lines 330-340: what `VALDCombineNoFormat` appends for one input file. */
  function KeepQuoted(lines: seq<string>): (r: seq<string>)
    requires FileLines(lines)
    ensures forall k :: 0 <= k < |r| ==> |r[k]| > 0 && r[k][0] == '\''
  {
    if lines == [] || Contains(lines[0], StopString) then []
    else if lines[0][0] == '\'' then [lines[0]] + KeepQuoted(lines[1..])
    else KeepQuoted(lines[1..])
  }

  /** The quoted lines of `lines`, in order. */
  function Quoted(lines: seq<string>): (r: seq<string>)
    requires FileLines(lines)
  {
    if lines == [] then []
    else (if lines[0][0] == '\'' then [lines[0]] else []) + Quoted(lines[1..])
  }

  /** The index of the first line holding the trailer, or the number of lines. */
  function StopIndex(lines: seq<string>): (n: nat)
    ensures n <= |lines|
    ensures n < |lines| ==> Contains(lines[n], StopString)
    ensures forall i :: 0 <= i < n ==> !Contains(lines[i], StopString)
  {
    if lines == [] then 0
    else if Contains(lines[0], StopString) then 0
    else 1 + StopIndex(lines[1..])
  }

  /** The filter emits exactly the quoted lines before the trailer, in input order. */
  lemma {:induction false} KeepQuotedBeforeStop(lines: seq<string>)
    requires FileLines(lines)
    ensures KeepQuoted(lines) == Quoted(lines[..StopIndex(lines)])
  {
    if lines != [] && !Contains(lines[0], StopString) {
      KeepQuotedBeforeStop(lines[1..]);
      var n := StopIndex(lines);
      assert lines[..n][1..] == lines[1..][..n - 1];
    }
  }

  /** Nothing from the trailer line on reaches the output of `VALDFormat`. */
  lemma {:induction false} FormatStopsAtTrailer(lines: seq<string>)
    requires FileLines(lines)
    ensures FormatLines(lines) == FormatLines(lines[..StopIndex(lines)])
  {
    if lines != [] && !Contains(lines[0], StopString) {
      FormatStopsAtTrailer(lines[1..]);
      var n := StopIndex(lines);
      assert lines[..n][1..] == lines[1..][..n - 1];
      assert lines[..n][0] == lines[0];
    }
  }

  /** Without element lines the two filters agree: `VALDFormat` only changes the lines containing ":". */
  lemma {:induction false} FormatWithoutElementLines(lines: seq<string>)
    requires FileLines(lines)
    requires forall i :: 0 <= i < |lines| ==> !Contains(lines[i], ":")
    ensures FormatLines(lines) == Written(KeepQuoted(lines), false)
  {
    if lines != [] && !Contains(lines[0], StopString) {
      FormatWithoutElementLines(lines[1..]);
    }
  }

  /** Lines 304-316 for one quoted line: rewritten when it holds ":", kept as it is otherwise. */
  predicate WrittenFor(line: string, out: string)
  {
    if Contains(line, ":") then ElementLine(line) == Some(out) else out == line
  }

  /**
   * When nothing raises, `VALDFormat` writes one line for each quoted line before the
   * trailer, in the same order: the element line rewritten, any other quoted line verbatim.
   */
  lemma {:induction false} FormatRewritesQuoted(lines: seq<string>)
    requires FileLines(lines) && !FormatLines(lines).raised
    ensures var q := Quoted(lines[..StopIndex(lines)]); var w := FormatLines(lines).lines;
      |w| == |q| && forall k :: 0 <= k < |q| ==> WrittenFor(q[k], w[k])
  {
    if lines == [] || Contains(lines[0], StopString) {
      assert lines[..StopIndex(lines)] == [];
    } else {
      FormatOneLine(lines);
      FormatRewritesQuoted(lines[1..]);
      StopIndexCons(lines);
      var rest := lines[1..][..StopIndex(lines[1..])];
      WrittenForStep(lines[0], rest, FormatLines(lines).lines, FormatLines(lines[1..]).lines);
    }
  }

  /** The lines before the trailer, one line at a time. */
  lemma StopIndexCons(lines: seq<string>)
    requires lines != [] && !Contains(lines[0], StopString)
    ensures lines[..StopIndex(lines)] == [lines[0]] + lines[1..][..StopIndex(lines[1..])]
  {
    assert StopIndex(lines) == 1 + StopIndex(lines[1..]);
  }

  /** One line before the trailer: a quoted line writes one line in front of the rest's, any other line nothing. */
  lemma FormatOneLine(lines: seq<string>)
    requires FileLines(lines) && lines != [] && !Contains(lines[0], StopString) && !FormatLines(lines).raised
    ensures !FormatLines(lines[1..]).raised
    ensures lines[0][0] == '\'' ==>
      && |FormatLines(lines).lines| > 0
      && WrittenFor(lines[0], FormatLines(lines).lines[0])
      && FormatLines(lines).lines == [FormatLines(lines).lines[0]] + FormatLines(lines[1..]).lines
    ensures lines[0][0] != '\'' ==> FormatLines(lines).lines == FormatLines(lines[1..]).lines
  {
  }

  /** The inductive step of FormatRewritesQuoted: `w` and `w'` are written for `[line] + rest` and for `rest`. */
  lemma WrittenForStep(line: string, rest: seq<string>, w: seq<string>, w': seq<string>)
    requires |line| > 0 && FileLines(rest)
    requires line[0] == '\'' ==> |w| > 0 && WrittenFor(line, w[0]) && w == [w[0]] + w'
    requires line[0] != '\'' ==> w == w'
    requires var q := Quoted(rest); |w'| == |q| && forall k :: 0 <= k < |q| ==> WrittenFor(q[k], w'[k])
    ensures FileLines([line] + rest)
    ensures var q := Quoted([line] + rest); |w| == |q| && forall k :: 0 <= k < |q| ==> WrittenFor(q[k], w[k])
  {
    var lines := [line] + rest;
    assert lines[0] == line && lines[1..] == rest;
    var q' := Quoted(rest);
    if line[0] == '\'' {
      assert Quoted(lines) == [line] + q';
      forall k | 1 <= k < |w| ensures WrittenFor(Quoted(lines)[k], w[k]) {
        assert Quoted(lines)[k] == q'[k - 1] && w[k] == w'[k - 1];
      }
    } else {
      assert Quoted(lines) == q';
    }
  }

  /** Every line `VALDFormat` writes starts with a quote. */
  lemma {:induction false} FormatWritesQuoted(lines: seq<string>)
    requires FileLines(lines)
    ensures forall k :: 0 <= k < |FormatLines(lines).lines| ==> StartsQuoted(FormatLines(lines).lines[k])
  {
    if lines != [] && !Contains(lines[0], StopString) {
      FormatWritesQuoted(lines[1..]);
      var rest := FormatLines(lines[1..]).lines;
      if lines[0][0] == '\'' && (!Contains(lines[0], ":") || ElementLine(lines[0]).Some?) {
        var l := if Contains(lines[0], ":") then ElementLine(lines[0]).value else lines[0];
        assert FormatLines(lines).lines == [l] + rest;
        assert StartsQuoted(l);
      }
    }
  }

  /** Lines 297-319, one input file. */
  method VALDFormat(lines: seq<string>) returns (written: seq<string>, raised: bool)
    requires FileLines(lines)
    ensures Written(written, raised) == FormatLines(lines)
  {
    written, raised := [], false;
    var i := 0;
    while i < |lines|
      invariant 0 <= i <= |lines|
      invariant FormatLines(lines) == Prefixed(written, FormatLines(lines[i..]))
    {
      var line := lines[i];
      assert lines[i..][0] == line && lines[i..][1..] == lines[i + 1..];
      if Contains(line, StopString) {
        break;
      } else if line[0] == '\'' {
        var fileLine;
        if Contains(line, ":") {
          var rewritten := ElementLine(line);
          if rewritten.None? {
            raised := true;
            return;
          }
          fileLine := rewritten.value;
        } else {
          fileLine := line;
        }
        written := written + [fileLine];
      }
      i := i + 1;
    }
    assert written + [] == written;
  }

  /** What `VALDCombineNoFormat` writes for the files in the order they are listed. */
  function CombinedNoFormat(files: seq<seq<string>>): (r: seq<string>)
    requires AllFileLines(files)
  {
    if files == [] then [] else KeepQuoted(files[0]) + CombinedNoFormat(files[1..])
  }

  /** Combining two folders' files one after the other writes the first's lines, then the second's. */
  lemma {:induction false} CombinedNoFormatAppend(a: seq<seq<string>>, b: seq<seq<string>>)
    requires AllFileLines(a) && AllFileLines(b)
    ensures AllFileLines(a + b)
    ensures CombinedNoFormat(a + b) == CombinedNoFormat(a) + CombinedNoFormat(b)
  {
    assert forall i :: 0 <= i < |a + b| ==> (a + b)[i] == if i < |a| then a[i] else b[i - |a|];
    if a != [] {
      assert (a + b)[0] == a[0] && (a + b)[1..] == a[1..] + b;
      CombinedNoFormatAppend(a[1..], b);
    } else {
      assert a + b == b;
    }
  }

  /** Lines 334-340: the quoted lines of one file, up to its trailer. */
  method CopyQuoted(lines: seq<string>) returns (written: seq<string>)
    requires FileLines(lines)
    ensures written == KeepQuoted(lines)
  {
    written := [];
    var j := 0;
    while j < |lines|
      invariant 0 <= j <= |lines|
      invariant KeepQuoted(lines) == written + KeepQuoted(lines[j..])
    {
      var line := lines[j];
      assert lines[j..][0] == line && lines[j..][1..] == lines[j + 1..];
      if Contains(line, StopString) {
        break;
      } else if line[0] == '\'' {
        written := written + [line];
      }
      j := j + 1;
    }
    assert written + [] == written;
  }

  /** Lines 330-340. */
  method VALDCombineNoFormat(files: seq<seq<string>>) returns (written: seq<string>)
    requires AllFileLines(files)
    ensures written == CombinedNoFormat(files)
  {
    written := [];
    for i := 0 to |files|
      invariant CombinedNoFormat(files) == written + CombinedNoFormat(files[i..])
    {
      assert files[i..][0] == files[i] && files[i..][1..] == files[i + 1..];
      var kept := CopyQuoted(files[i]);
      written := written + kept;
    }
    assert files[|files|..] == [];
  }

  /** What `VALDCombineFormat` writes: each file filtered in turn, until one raises. */
  function CombinedFormat(files: seq<seq<string>>): (r: Written)
    requires AllFileLines(files)
  {
    if files == [] then Written([], false)
    else
      var w := FormatLines(files[0]);
      if w.raised then w else Prefixed(w.lines, CombinedFormat(files[1..]))
  }

  /** Files without element lines are combined alike with and without formatting, and nothing raises. */
  lemma {:induction false} CombinedFormatWithoutElementLines(files: seq<seq<string>>)
    requires AllFileLines(files)
    requires forall k, i :: 0 <= k < |files| && 0 <= i < |files[k]| ==> !Contains(files[k][i], ":")
    ensures CombinedFormat(files) == Written(CombinedNoFormat(files), false)
  {
    if files != [] {
      FormatWithoutElementLines(files[0]);
      assert forall k :: 0 <= k < |files| - 1 ==> files[1..][k] == files[k + 1];
      CombinedFormatWithoutElementLines(files[1..]);
    }
  }

  /** Lines 352-356: the output file starts empty, then `VALDFormat` appends each file. */
  method VALDCombineFormat(files: seq<seq<string>>) returns (written: seq<string>, raised: bool)
    requires AllFileLines(files)
    ensures Written(written, raised) == CombinedFormat(files)
  {
    written, raised := [], false;
    for i := 0 to |files|
      invariant CombinedFormat(files) == Prefixed(written, CombinedFormat(files[i..]))
    {
      assert files[i..][0] == files[i] && files[i..][1..] == files[i + 1..];
      var lines, failed := VALDFormat(files[i]);
      written := written + lines;
      if failed {
        raised := true;
        return;
      }
    }
    assert files[|files|..] == [];
    assert written + [] == written;
  }
}
