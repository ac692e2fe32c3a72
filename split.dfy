/**
 * `VALDSplit` (VALDLinelist.py:369-385): cutting a formatted VALD line list into pieces
 * small enough for Turbospectrum's reader.  Each piece is written to its own ".cut" file
 * and ends at the first element line (second character "_") met once the running length
 * comes within 500 of the size limit.
 *
 * The function as written keeps `new_start` from one piece to the next: a piece that finds
 * no cut (the last one, usually) is followed by the lines after the stale `new_start`, and
 * a file whose first piece finds no cut raises NameError.  `SplitAsWritten` models that
 * behaviour; `SplitChunks` is the intended one (the rest of the file is the last piece),
 * which `VALDSplit` implements.
 */
module ValdSplit {
  import opened Wrappers
  import opened Text

  // ---------------------------------------------------------------------------
  // The size limit (lines 369-370)

  /** The Kelvin sign, which Python's `str.lower()` maps to the ASCII letter "k". */
  const KelvinSign: char := '\U{212A}'

  /** Python's `lower()` on one character, for the ASCII letters and the Kelvin sign. */
  function LowerChar(c: char): (d: char)
    ensures !('A' <= d <= 'Z') && d != KelvinSign
  {
    if 'A' <= c <= 'Z' then (c as int + 32) as char else if c == KelvinSign then 'k' else c
  }

  /**
   * `str.lower()` as far as it can produce a unit name: the ASCII capitals and the Kelvin
   * sign are the only characters whose lower case is "b", "k", "m" or "g".
   */
  function Lower(s: string): (r: string)
    ensures |r| == |s|
    ensures forall i :: 0 <= i < |s| ==> !('A' <= r[i] <= 'Z') && r[i] != KelvinSign
    ensures forall i :: 0 <= i < |s| && !('A' <= s[i] <= 'Z') && s[i] != KelvinSign ==> r[i] == s[i]
  {
    seq(|s|, i requires 0 <= i < |s| => LowerChar(s[i]))
  }

  /** `byte_dict[unit.lower()]`: the bytes in one unit; an unknown unit raises KeyError (`None`). */
  function ByteFactor(unit: string): (r: Option<nat>)
  {
    var u := Lower(unit);
    if u == "b" then Some(1)
    else if u == "kb" then Some(1000)
    else if u == "mb" then Some(1000000)
    else if u == "gb" then Some(1000000000)
    else None
  }

  /** Line 370: the limit in bytes, for a whole number of units. */
  function MaxBytes(value: int, unit: string): (r: Option<int>)
    ensures r.Some? <==> ByteFactor(unit).Some?
    ensures r.Some? ==> r.value == value * ByteFactor(unit).value
  {
    match ByteFactor(unit)
    case None => None
    case Some(f) => Some(value * f)
  }

  /** The unit is read without regard to case: "MB", "Mb" and "mb" are the same unit. */
  lemma ByteFactorIgnoresCase(unit: string)
    ensures ByteFactor(unit) == ByteFactor(Lower(unit))
  {
    assert Lower(Lower(unit)) == Lower(unit);
  }

  /** A kilobyte unit spelt with the Kelvin sign is a kilobyte, as `lower()` reads it. */
  lemma KelvinKilobytes(value: int)
    ensures MaxBytes(value, [KelvinSign, 'B']) == Some(value * 1000)
  {
    assert Lower([KelvinSign, 'B']) == "kb";
  }

  // ---------------------------------------------------------------------------
  // Finding the cut in one piece (lines 376-383)

  /** Line 377: the running length adds each line's length plus one. */
  function CountedLength(lines: seq<string>): (n: nat)
    ensures n >= |lines|
  {
    if lines == [] then 0 else CountedLength(lines[..|lines| - 1]) + |lines[|lines| - 1]| + 1
  }

  /** After line `j` the running length is within 500 of the limit. */
  predicate OverThreshold(lines: seq<string>, maxSize: int, j: nat)
    requires j < |lines|
  {
    maxSize - CountedLength(lines[..j + 1]) < 500
  }

  /** Line 381 lets line `j` pass without cutting and without raising. */
  predicate Passes(lines: seq<string>, maxSize: int, j: nat)
    requires j < |lines|
  {
    !OverThreshold(lines, maxSize, j) || (|lines[j]| >= 2 && lines[j][1] != '_')
  }

  /**
   * How the inner loop ends: `Cut(n)` breaks after the `n`-th line (`new_start = n`),
   * `NoCut` runs off the end, `BadLine(n)` raises IndexError on `line[1]` of the `n`-th line
   * after writing it.
   */
  datatype Scan = Cut(end: nat) | NoCut | BadLine(end: nat)

  /** Lines 376-383 from index `i` on. */
  function FindCut(lines: seq<string>, maxSize: int, i: nat): (r: Scan)
    requires i <= |lines|
    ensures !r.NoCut? ==> i < r.end <= |lines|
    decreases |lines| - i
  {
    if i == |lines| then NoCut
    else if OverThreshold(lines, maxSize, i) then
      if |lines[i]| < 2 then BadLine(i + 1)
      else if lines[i][1] == '_' then Cut(i + 1)
      else FindCut(lines, maxSize, i + 1)
    else FindCut(lines, maxSize, i + 1)
  }

  /**
   * The cut is the first element line past the threshold: every line before it passes,
   * and so does every line when there is none.
   */
  lemma {:induction false} FindCutSpec(lines: seq<string>, maxSize: int, i: nat)
    requires i <= |lines|
    ensures var r := FindCut(lines, maxSize, i);
      && (r.Cut? ==> OverThreshold(lines, maxSize, r.end - 1) && |lines[r.end - 1]| >= 2 && lines[r.end - 1][1] == '_')
      && (r.BadLine? ==> OverThreshold(lines, maxSize, r.end - 1) && |lines[r.end - 1]| < 2)
      && (forall j :: i <= j < (if r.NoCut? then |lines| else r.end - 1) ==> Passes(lines, maxSize, j))
    decreases |lines| - i
  {
    if i < |lines| && Passes(lines, maxSize, i) {
      FindCutSpec(lines, maxSize, i + 1);
    }
  }

  /** Only the lines up to the cut matter for where the cut falls. */
  lemma {:induction false} CountedLengthPrefix(lines: seq<string>, n: nat, j: nat)
    requires j < n <= |lines|
    ensures lines[..n][..j + 1] == lines[..j + 1]
  {
  }

  /** Lines 376-383: the inner loop over one piece, with the running length as the source keeps it. */
  method ScanPiece(lines: seq<string>, maxSize: int) returns (r: Scan)
    ensures r == FindCut(lines, maxSize, 0)
  {
    var length := 0;
    var index := 0;
    while index < |lines|
      invariant 0 <= index <= |lines|
      invariant length == CountedLength(lines[..index])
      invariant FindCut(lines, maxSize, 0) == FindCut(lines, maxSize, index)
    {
      var line := lines[index];
      assert lines[..index + 1][..index] == lines[..index];
      length := length + |line| + 1;
      if maxSize - length < 500 {
        if |line| < 2 {
          return BadLine(index + 1);
        }
        if line[1] == '_' {
          return Cut(index + 1);
        }
      }
      index := index + 1;
    }
    return NoCut;
  }

  // ---------------------------------------------------------------------------
  // The pieces

  datatype SplitError = IndexError | NameError

  /** The pieces written, in order, and the error raised after the last of them, if any. */
  datatype Split = Split(chunks: seq<seq<string>>, error: Option<SplitError>)

  function Then(chunk: seq<string>, s: Split): (r: Split)
  {
    Split([chunk] + s.chunks, s.error)
  }

  /**
   * Lines 373-385 as written.  `newStart` is the value `new_start` holds from an earlier
   * piece; a piece without a cut is followed by `lines[new_start:]` all the same.
   */
  function SplitAsWritten(lines: seq<string>, maxSize: int, newStart: Option<nat>): (r: Split)
    requires newStart.Some? ==> newStart.value > 0
    decreases |lines|
  {
    if lines == [] then Split([], None)
    else match FindCut(lines, maxSize, 0)
      case BadLine(n) => Split([lines[..n]], Some(IndexError))
      case Cut(n) => Then(lines[..n], SplitAsWritten(lines[n..], maxSize, Some(n)))
      case NoCut =>
        match newStart
        case None => Split([lines], Some(NameError))
        case Some(s) => Then(lines, SplitAsWritten(if s < |lines| then lines[s..] else [], maxSize, newStart))
  }

  /** The pieces as intended: a piece without a cut is the rest of the file, and the last piece. */
  function SplitChunks(lines: seq<string>, maxSize: int): (r: Split)
    decreases |lines|
  {
    if lines == [] then Split([], None)
    else match FindCut(lines, maxSize, 0)
      case BadLine(n) => Split([lines[..n]], Some(IndexError))
      case Cut(n) => Then(lines[..n], SplitChunks(lines[n..], maxSize))
      case NoCut => Split([lines], None)
  }

  /**
   * The pieces hold the file's lines in order: all of them when nothing is raised, and a
   * leading part of them (up to the line that raised) otherwise.
   */
  lemma {:induction false} SplitCovers(lines: seq<string>, maxSize: int)
    ensures var s := SplitChunks(lines, maxSize);
      && |Flatten(s.chunks)| <= |lines| && Flatten(s.chunks) == lines[..|Flatten(s.chunks)|]
      && (s.error.None? ==> Flatten(s.chunks) == lines)
    decreases |lines|
  {
    if lines != [] {
      var s := SplitChunks(lines, maxSize);
      match FindCut(lines, maxSize, 0)
      case BadLine(n) =>
        assert s.chunks == [lines[..n]];
        assert Flatten(s.chunks) == lines[..n] + Flatten(s.chunks[1..]);
      case NoCut =>
        assert Flatten(s.chunks) == lines + Flatten(s.chunks[1..]);
      case Cut(n) =>
        var rest := SplitChunks(lines[n..], maxSize);
        SplitCovers(lines[n..], maxSize);
        assert s.chunks == [lines[..n]] + rest.chunks;
        assert s.chunks[1..] == rest.chunks;
        assert Flatten(s.chunks) == lines[..n] + Flatten(rest.chunks);
        var m := |Flatten(rest.chunks)|;
        assert lines[n..][..m] == lines[n..n + m];
        assert lines[..n] + lines[n..n + m] == lines[..n + m];
        assert lines[..n] + lines[n..] == lines;
    }
  }

  /** No piece is empty, and every piece but the last ends where the inner loop cuts it. */
  predicate CutPieces(c: seq<seq<string>>, maxSize: int)
  {
    && (forall k :: 0 <= k < |c| ==> c[k] != [])
    && (forall k :: 0 <= k < |c| - 1 ==> FindCut(c[k], maxSize, 0) == Cut(|c[k]|))
  }

  lemma {:induction false} SplitPieces(lines: seq<string>, maxSize: int)
    ensures CutPieces(SplitChunks(lines, maxSize).chunks, maxSize)
    decreases |lines|
  {
    if lines != [] {
      var c := SplitChunks(lines, maxSize).chunks;
      match FindCut(lines, maxSize, 0)
      case BadLine(n) =>
      case NoCut =>
      case Cut(n) =>
        var rest := SplitChunks(lines[n..], maxSize).chunks;
        SplitPieces(lines[n..], maxSize);
        assert c == [lines[..n]] + rest;
        CutOfPrefix(lines, maxSize, n);
        forall k | 0 <= k < |c| - 1 ensures FindCut(c[k], maxSize, 0) == Cut(|c[k]|) {
          if k > 0 {
            assert c[k] == rest[k - 1];
          }
        }
    }
  }

  /** Cutting the lines up to the cut finds the same cut. */
  lemma CutOfPrefix(lines: seq<string>, maxSize: int, n: nat)
    requires 0 < n <= |lines| && FindCut(lines, maxSize, 0) == Cut(n)
    ensures FindCut(lines[..n], maxSize, 0) == Cut(n)
  {
    FindCutSpec(lines, maxSize, 0);
    var p := lines[..n];
    forall j | 0 <= j < n
      ensures OverThreshold(p, maxSize, j) == OverThreshold(lines, maxSize, j) && p[j] == lines[j]
      ensures Passes(p, maxSize, j) == Passes(lines, maxSize, j)
    {
      CountedLengthPrefix(lines, n, j);
    }
    CutOfPrefixFrom(p, maxSize, 0, n);
  }

  lemma {:induction false} CutOfPrefixFrom(p: seq<string>, maxSize: int, i: nat, n: nat)
    requires i < n && n == |p|
    requires forall j :: i <= j < n - 1 ==> Passes(p, maxSize, j)
    requires OverThreshold(p, maxSize, n - 1) && |p[n - 1]| >= 2 && p[n - 1][1] == '_'
    ensures FindCut(p, maxSize, i) == Cut(n)
    decreases n - i
  {
    if i < n - 1 {
      assert Passes(p, maxSize, i);
      CutOfPrefixFrom(p, maxSize, i + 1, n);
      assert FindCut(p, maxSize, i) == FindCut(p, maxSize, i + 1);
    }
  }

  /**
   * What a cut means for a piece: each piece but the last ends with an element line at
   * which the running length came within 500 of the limit, and no earlier line of the
   * piece was such a line.
   */
  lemma PieceEndsAtFirstElementLine(lines: seq<string>, maxSize: int, k: nat)
    requires k + 1 < |SplitChunks(lines, maxSize).chunks|
    ensures var c := SplitChunks(lines, maxSize).chunks[k];
      && c != [] && |c[|c| - 1]| >= 2 && c[|c| - 1][1] == '_'
      && maxSize - CountedLength(c) < 500
      && (forall j :: 0 <= j < |c| - 1 ==> Passes(c, maxSize, j))
  {
    var c := SplitChunks(lines, maxSize).chunks[k];
    SplitPieces(lines, maxSize);
    FindCutSpec(c, maxSize, 0);
    assert c[..|c|] == c;
  }

  /** The limit is not an upper bound: a long element line goes into its piece whole. */
  lemma PieceCanExceedLimit()
    ensures var lines := ["'_xyz\n"];
      CountedLength(SplitChunks(lines, 3).chunks[0]) > 3
  {
    var lines := ["'_xyz\n"];
    assert lines[..1] == lines;
    assert CountedLength(lines) == 7;
    assert FindCut(lines, 3, 0) == Cut(1);
    assert SplitChunks(lines, 3).chunks[0] == lines;
  }

  // ---------------------------------------------------------------------------
  // The stale `new_start`

  /**
   * With a limit of 500 bytes the first line is a piece of its own; the next piece finds no
   * cut, and the loop goes on from the stale `new_start` of 1, writing the last two lines
   * twice more.
   */
  lemma StaleStartRepeatsLines()
    ensures var lines := ["'_\n", "a\n", "bb\n", "c\n"];
      && SplitAsWritten(lines, 500, None) == Split([["'_\n"], ["a\n", "bb\n", "c\n"], ["bb\n", "c\n"], ["c\n"]], None)
      && Flatten(SplitAsWritten(lines, 500, None).chunks) != lines
      && SplitChunks(lines, 500) == Split([["'_\n"], ["a\n", "bb\n", "c\n"]], None)
  {
    var lines := ["'_\n", "a\n", "bb\n", "c\n"];
    var rest, tail, last := lines[1..], lines[2..], lines[3..];
    assert lines[..1] == ["'_\n"];
    assert FindCut(lines, 500, 0) == Cut(1);
    assert rest == ["a\n", "bb\n", "c\n"] && tail == ["bb\n", "c\n"] && last == ["c\n"];
    assert rest[1..] == tail && tail[1..] == last;
    NoElementLineNoCut(rest, 500, 0);
    NoElementLineNoCut(tail, 500, 0);
    NoElementLineNoCut(last, 500, 0);
    assert SplitAsWritten(last, 500, Some(1)) == Split([last], None);
    assert SplitAsWritten(tail, 500, Some(1)) == Split([tail, last], None);
    assert SplitAsWritten(rest, 500, Some(1)) == Split([rest, tail, last], None);
    var w := SplitAsWritten(lines, 500, None);
    assert w.chunks == [lines[..1], rest, tail, last];
    FlattenOfFour(lines[..1], rest, tail, last);
  }

  /** Without element lines a piece has no cut. */
  lemma {:induction false} NoElementLineNoCut(lines: seq<string>, maxSize: int, i: nat)
    requires i <= |lines|
    requires forall j :: i <= j < |lines| ==> |lines[j]| >= 2 && lines[j][1] != '_'
    ensures FindCut(lines, maxSize, i) == NoCut
    decreases |lines| - i
  {
    if i < |lines| {
      NoElementLineNoCut(lines, maxSize, i + 1);
    }
  }

  lemma FlattenOfFour<T>(a: seq<T>, b: seq<T>, c: seq<T>, d: seq<T>)
    ensures Flatten([a, b, c, d]) == a + b + c + d
  {
    assert Flatten([d]) == d by { assert [d][1..] == []; }
    assert Flatten([c, d]) == c + d by { assert [c, d][1..] == [d]; }
    assert Flatten([b, c, d]) == b + c + d by { assert [b, c, d][1..] == [c, d]; }
    assert [a, b, c, d][1..] == [b, c, d];
  }

  /**
   * Up to where the intended split ends, the split as written writes the same pieces:
   * the two differ only after a piece that finds no cut, where the stale `new_start`
   * makes the program as written go on.
   */
  lemma {:induction false} ChunksPrefixOfAsWritten(lines: seq<string>, maxSize: int, newStart: Option<nat>)
    requires newStart.Some? ==> newStart.value > 0
    ensures SplitChunks(lines, maxSize).chunks <= SplitAsWritten(lines, maxSize, newStart).chunks
    ensures SplitChunks(lines, maxSize).error.Some? ==> SplitAsWritten(lines, maxSize, newStart) == SplitChunks(lines, maxSize)
    decreases |lines|
  {
    if lines != [] {
      match FindCut(lines, maxSize, 0)
      case BadLine(n) =>
      case NoCut =>
      case Cut(n) =>
        ChunksPrefixOfAsWritten(lines[n..], maxSize, Some(n));
    }
  }

  /** A file whose first piece needs no cut raises NameError after writing it (line 384). */
  lemma SmallFileRaises(lines: seq<string>, maxSize: int)
    requires lines != [] && FindCut(lines, maxSize, 0) == NoCut
    ensures SplitAsWritten(lines, maxSize, None) == Split([lines], Some(NameError))
    ensures SplitChunks(lines, maxSize) == Split([lines], None)
  {
  }

  // ---------------------------------------------------------------------------
  // The files

  /** Line 374: the name of the `n`-th piece, `stem` being the input name without its extension. */
  function CutFileName(stem: string, n: int): (r: string)
    ensures |r| == |stem| + 1 + |IntToString(n)| + 4
    ensures r[..|stem|] == stem && r[|stem|] == '_' && r[|r| - 4..] == ".cut"
    ensures r[|stem| + 1..|r| - 4] == IntToString(n)
  {
    stem + "_" + IntToString(n) + ".cut"
  }

  /** Different pieces go to different files. */
  lemma CutFileNamesDiffer(stem: string, n: int, m: int)
    requires n != m
    ensures CutFileName(stem, n) != CutFileName(stem, m)
  {
    if CutFileName(stem, n) == CutFileName(stem, m) {
      var a, b := CutFileName(stem, n), CutFileName(stem, m);
      var sn, sm := IntToString(n), IntToString(m);
      assert |sn| == |sm|;
      assert a[|stem| + 1..|stem| + 1 + |sn|] == sn;
      assert b[|stem| + 1..|stem| + 1 + |sm|] == sm;
      ParseIntOfString(n);
      ParseIntOfString(m);
      assert false;
    }
  }

  datatype CutFile = CutFile(name: string, lines: seq<string>)

  /** One step of `SplitChunks`, for the piece the inner loop has just scanned. */
  lemma SplitChunksStep(lines: seq<string>, maxSize: int, scan: Scan)
    requires lines != [] && scan == FindCut(lines, maxSize, 0)
    ensures scan.BadLine? ==> SplitChunks(lines, maxSize) == Split([lines[..scan.end]], Some(IndexError))
    ensures scan.Cut? ==> SplitChunks(lines, maxSize) == Then(lines[..scan.end], SplitChunks(lines[scan.end..], maxSize))
    ensures scan.NoCut? ==> SplitChunks(lines, maxSize) == Split([lines], None)
  {
  }

  /** Lines 374-385 for one piece: the lines written to its file, and what remains after it. */
  method SplitStep(rest: seq<string>, maxSize: int) returns (piece: seq<string>, next: seq<string>, err: Option<SplitError>)
    requires rest != []
    ensures |next| < |rest|
    ensures err.Some? ==> next == [] && SplitChunks(rest, maxSize) == Split([piece], err)
    ensures err.None? ==> SplitChunks(rest, maxSize) == Then(piece, SplitChunks(next, maxSize))
  {
    var scan := ScanPiece(rest, maxSize);
    SplitChunksStep(rest, maxSize, scan);
    match scan {
      case BadLine(n) =>
        piece, next, err := rest[..n], [], Some(IndexError);
      case Cut(n) =>
        piece, next, err := rest[..n], rest[n..], None;
      case NoCut =>
        piece, next, err := rest, [], None;
    }
  }

  /** The `k`-th piece (from 1) goes to the file named for `k`. */
  function NamedFiles(stem: string, pieces: seq<seq<string>>): (files: seq<CutFile>)
    ensures |files| == |pieces|
    ensures forall k :: 0 <= k < |pieces| ==> files[k] == CutFile(CutFileName(stem, k + 1), pieces[k])
    ensures forall k, m :: 0 <= k < m < |files| ==> files[k].name != files[m].name
  {
    CutFileNamesDistinct(stem, |pieces|);
    seq(|pieces|, k requires 0 <= k < |pieces| => CutFile(CutFileName(stem, k + 1), pieces[k]))
  }

  /** The files numbered 1 to `count` have pairwise different names. */
  lemma CutFileNamesDistinct(stem: string, count: nat)
    ensures forall n, m :: 1 <= n < m <= count ==> CutFileName(stem, n) != CutFileName(stem, m)
  {
    forall n, m | 1 <= n < m <= count ensures CutFileName(stem, n) != CutFileName(stem, m) {
      CutFileNamesDiffer(stem, n, m);
    }
  }

  /** Lines 371-385, with the rest of the file as the last piece. */
  method VALDSplit(lines: seq<string>, maxSize: int, stem: string) returns (files: seq<CutFile>, error: Option<SplitError>)
    ensures files == NamedFiles(stem, SplitChunks(lines, maxSize).chunks)
    ensures error == SplitChunks(lines, maxSize).error
  {
    var pieces: seq<seq<string>> := [];
    var rest := lines;
    error := None;
    while rest != [] && error.None?
      invariant error.Some? ==> rest == []
      invariant SplitChunks(lines, maxSize) == Split(pieces + SplitChunks(rest, maxSize).chunks, if error.Some? then error else SplitChunks(rest, maxSize).error)
      decreases |rest|
    {
      var piece, next, err := SplitStep(rest, maxSize);
      var after := SplitChunks(next, maxSize);
      assert pieces + ([piece] + after.chunks) == (pieces + [piece]) + after.chunks;
      pieces, rest, error := pieces + [piece], next, err;
    }
    assert pieces + [] == pieces;
    files := NamedFiles(stem, pieces);
  }
}
