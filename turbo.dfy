/**
 * `TurboSort` (VALDToTurbo.py): merges Turbospectrum line lists.  Each input file is a
 * list of lines made of blocks: a header line whose fifth whitespace token is the number
 * of data lines, an element-key line, then the data lines.  Blocks with the same key
 * line are merged across files: the counts are added into the first-seen header and the
 * data lines are re-sorted.  The output is every merged block, the blocks sorted as
 * Python sorts lists of strings, concatenated.
 *
 * Files are lists of lines as `readlines()` returns them (each line keeps its "\n"), one
 * list per file in the order the directory listing yields them.
 */
module ValdToTurbo {
  import opened Wrappers
  import opened Text
  import opened Sorting

  /** What makes TurboSort raise: IndexError, ValueError from `int()`, and a negative count (see `BlockAt`). */
  datatype ParseError = TooFewTokens | NotAnInteger(token: string) | NegativeCount(count: int)

  function Min(a: int, b: int): (r: int)
  {
    if a < b then a else b
  }

  // ---------------------------------------------------------------------------
  // Headers

  /** `int(header.split()[4])`: the line count a header declares. */
  function DeclaredCount(header: string): (r: Result<int, ParseError>)
    ensures r == Failure(TooFewTokens) <==> |Split(header)| < 5
  {
    var tokens := Split(header);
    if |tokens| < 5 then Failure(TooFewTokens)
    else match ParseInt(tokens[4])
      case None => Failure(NotAnInteger(tokens[4]))
      case Some(n) => Success(n)
  }

  /** The width rule for a rewritten header tail: keep its last ten characters, or left-pad it with spaces to ten. */
  function FitTen(t: string): (r: string)
    ensures |r| == 10
  {
    if |t| > 10 then t[|t| - 10..]
    else if |t| < 10 then Spaces(10 - |t|) + t
    else t
  }

  /** The fitted tail ends with the last characters of `t` and is padded with spaces in front. */
  lemma FitTenContents(t: string)
    ensures var r := FitTen(t);
      && (forall j :: 0 <= j < 10 && 10 - |t| <= j ==> r[j] == t[|t| - 10 + j])
      && (forall j :: 0 <= j < 10 - |t| ==> r[j] == ' ')
  {
  }

  /**
   * The stored header after a merge: its first 27 characters, then the rest with every
   * occurrence of `str(previous)` replaced by `str(total)`, fitted to ten characters.
   */
  function RewriteHeader(stored: string, previous: int, total: int): (h: string)
  {
    RewriteText(stored, IntToString(previous), IntToString(total))
  }

  /** The same rewrite for any old text `p` and new text `q`. */
  function RewriteText(stored: string, p: string, q: string): (h: string)
    requires |p| > 0
  {
    Slice(stored, 0, 27) + FitTen(Replace(Slice(stored, 27, |stored|), p, q))
  }

  /** A rewritten header is its first 27 characters (or all of it, if shorter) and then ten more. */
  lemma RewriteKeepsHead(stored: string, previous: int, total: int)
    ensures |RewriteHeader(stored, previous, total)| == Min(27, |stored|) + 10
    ensures RewriteHeader(stored, previous, total)[..Min(27, |stored|)] == stored[..Min(27, |stored|)]
  {
    var head := Slice(stored, 0, 27);
    assert head == stored[..Min(27, |stored|)];
  }

  /**
   * Every occurrence of the old count text in the tail is rewritten, not only the count
   * field: a tail made of pieces separated by the old text (none holding its first
   * character) becomes the same pieces separated by the new text, then fitted to ten.
   */
  lemma RewriteEveryOccurrence(head: string, pieces: seq<string>, p: string, q: string)
    requires |head| == 27 && |pieces| > 0 && |p| > 0
    requires forall k, i :: 0 <= k < |pieces| && 0 <= i < |pieces[k]| ==> pieces[k][i] != p[0]
    ensures RewriteText(head + JoinBy(pieces, p), p, q) == head + FitTen(JoinBy(pieces, q))
  {
    var h := head + JoinBy(pieces, p);
    assert Slice(h, 0, 27) == head;
    assert Slice(h, 27, |h|) == JoinBy(pieces, p);
    ReplaceEveryOccurrence(pieces, p, q);
  }

  predicate AllWhitespace(z: string)
  {
    forall i :: 0 <= i < |z| ==> IsSpace(z[i])
  }

  /**
   * A header in the shape the count fields are meant to keep: a 27-character head, then
   * the count right-justified so that it and the trailing whitespace (the line's "\n")
   * fill ten characters.
   */
  function CountedHeader(head: string, n: nat, z: string): (h: string)
    requires |IntToString(n)| + |z| <= 10
  {
    CountedText(head, IntToString(n), z)
  }

  /** The same shape for any count text `p`. */
  function CountedText(head: string, p: string, z: string): (r: string)
    requires |p| + |z| <= 10
  {
    head + Spaces(10 - |p| - |z|) + p + z
  }

  /** Whether `head` is a header head whose four tokens precede the count. */
  predicate HeaderHead(head: string)
  {
    |head| == 27 && IsSpace(head[26]) && |Split(head)| == 4
  }

  lemma SplitAfterSpaces(k: nat, w: string)
    ensures Split(Spaces(k) + w) == Split(w)
  {
    if k > 0 {
      assert (Spaces(k) + w)[1..] == Spaces(k - 1) + w;
      SplitAfterSpaces(k - 1, w);
    } else {
      assert Spaces(k) + w == w;
    }
  }

  lemma NatTextIsToken(n: nat)
    ensures |IntToString(n)| > 0 && forall i :: 0 <= i < |IntToString(n)| ==> !IsSpace(IntToString(n)[i])
  {
  }

  /** The tail of a counted header splits into the count text alone. */
  lemma SplitOfCountTail(k: nat, n: nat, z: string)
    requires AllWhitespace(z)
    ensures Split(Spaces(k) + (IntToString(n) + z)) == [IntToString(n)]
  {
    var q := IntToString(n);
    SplitAfterSpaces(k, q + z);
    NatTextIsToken(n);
    SplitOfToken(q);
    if z == [] {
      assert q + z == q;
    } else {
      SplitBeforeSpace(q, z);
      SplitOfWhitespace(z);
    }
  }

  /** A counted header declares its count: token 4 is the number in the tail. */
  lemma CountedHeaderDeclares(head: string, n: nat, z: string)
    requires HeaderHead(head) && AllWhitespace(z) && |IntToString(n)| + |z| <= 10
    ensures DeclaredCount(CountedHeader(head, n, z)) == Success(n)
  {
    var q := IntToString(n);
    var k := 10 - |q| - |z|;
    assert CountedHeader(head, n, z) == head + (Spaces(k) + (q + z));
    SplitAfterSpace(head, Spaces(k) + (q + z));
    SplitOfCountTail(k, n, z);
    var tokens := Split(CountedHeader(head, n, z));
    assert tokens == Split(head) + [q];
    assert tokens[4] == q;
    ParseIntOfString(n);
  }

  /**
   * The rewrite on a header whose tail is spaces, the old count text and trailing
   * whitespace: the count text is swapped and the result fitted to ten characters.
   */
  lemma RewriteRightJustified(head: string, k: nat, p: string, q: string, z: string)
    requires |head| == 27 && AllWhitespace(z) && |p| > 0 && !IsSpace(p[0])
    ensures RewriteText(head + Spaces(k) + p + z, p, q) == head + FitTen(Spaces(k) + (q + z))
  {
    var h := head + Spaces(k) + p + z;
    Regroup(head, Spaces(k), p, z);
    assert Slice(h, 0, 27) == head;
    assert Slice(h, 27, |h|) == Spaces(k) + (p + z);
    ReplaceAfterSpaces(k, p + z, p, q);
    ReplaceAtFront(p, z, q);
    ReplaceAbsent(z, p, q);
  }

  lemma Regroup(a: string, b: string, c: string, d: string)
    ensures a + b + c + d == a + (b + (c + d))
  {
  }

  lemma FitTenOfRightJustified(k: nat, w: string)
    requires |w| <= 10
    ensures FitTen(Spaces(k) + w) == Spaces(10 - |w|) + w
  {
    var t := Spaces(k) + w;
    var r := FitTen(t);
    FitTenContents(t);
    forall j | 0 <= j < 10 ensures r[j] == (Spaces(10 - |w|) + w)[j] {
      if j >= 10 - |t| {
        assert r[j] == t[|t| - 10 + j];
      }
    }
  }

  /** Rewriting a counted text for a new count text that fits gives the counted text of the new count. */
  lemma RewriteCountedText(head: string, p: string, q: string, z: string)
    requires |head| == 27 && AllWhitespace(z) && |p| > 0 && !IsSpace(p[0])
    requires |p| + |z| <= 10 && |q| + |z| <= 10
    ensures RewriteText(CountedText(head, p, z), p, q) == CountedText(head, q, z)
  {
    var k := 10 - |p| - |z|;
    var pad := Spaces(10 - |q| - |z|);
    calc {
      RewriteText(CountedText(head, p, z), p, q);
      RewriteText(head + Spaces(k) + p + z, p, q);
      { RewriteRightJustified(head, k, p, q, z); }
      head + FitTen(Spaces(k) + (q + z));
      { FitCountTail(k, q, z, pad); }
      head + (pad + (q + z));
      { Regroup(head, pad, q, z); }
      head + pad + q + z;
      CountedText(head, q, z);
    }
  }

  lemma FitCountTail(k: nat, q: string, z: string, pad: string)
    requires |q| + |z| <= 10 && pad == Spaces(10 - |q| - |z|)
    ensures FitTen(Spaces(k) + (q + z)) == pad + (q + z)
  {
    FitTenOfRightJustified(k, q + z);
    assert |q + z| == |q| + |z|;
  }

  /** The count invariant on headers: rewriting a counted header for a new count that fits gives the counted header of the new count. */
  lemma RewriteCountedHeader(head: string, n: nat, m: nat, z: string)
    requires |head| == 27 && AllWhitespace(z)
    requires |IntToString(n)| + |z| <= 10 && |IntToString(m)| + |z| <= 10
    ensures RewriteHeader(CountedHeader(head, n, z), n, m) == CountedHeader(head, m, z)
  {
    NatTextIsToken(n);
    RewriteCountedText(head, IntToString(n), IntToString(m), z);
  }

  /** A new count text too wide for the tail keeps only its last characters and the trailing whitespace, ten in all. */
  lemma RewriteOverflowingText(head: string, p: string, q: string, z: string)
    requires |head| == 27 && AllWhitespace(z) && |p| > 0 && !IsSpace(p[0])
    requires |p| + |z| <= 10 && |q| + |z| > 10
    ensures RewriteText(CountedText(head, p, z), p, q) == head + (q + z)[|q| + |z| - 10..]
  {
    var k := 10 - |p| - |z|;
    RewriteRightJustified(head, k, p, q, z);
    FitTenOfLong(Spaces(k), q + z);
  }

  /** A new count too wide for the tail keeps only the last ten characters of its text and the trailing whitespace. */
  lemma RewriteOverflowingCount(head: string, n: nat, m: nat, z: string)
    requires |head| == 27 && AllWhitespace(z)
    requires |IntToString(n)| + |z| <= 10 && |IntToString(m)| + |z| > 10
    ensures RewriteHeader(CountedHeader(head, n, z), n, m)
      == head + (IntToString(m) + z)[|IntToString(m)| + |z| - 10..]
  {
    NatTextIsToken(n);
    RewriteOverflowingText(head, IntToString(n), IntToString(m), z);
  }

  lemma FitTenOfLong(a: string, w: string)
    requires |w| > 10
    ensures FitTen(a + w) == w[|w| - 10..]
  {
    var t := a + w;
    assert t[|t| - 10..] == w[|w| - 10..];
  }

  // ---------------------------------------------------------------------------
  // The block walk

  /** One block as the walk reads it: `next` is where the following header is read. */
  datatype Block = Block(header: string, key: string, count: nat, data: seq<string>, next: nat)

  /**
   * The block whose header is at `pos`: the key is the line after it and the data are the
   * next `count` lines, or as many as the file still has.  A negative count is rejected
   * (see the finding on VALDToTurbo.py:84).
   */
  function BlockAt(lines: seq<string>, pos: nat): (r: Result<Block, ParseError>)
    requires pos + 2 <= |lines|
    ensures r.Success? ==> r.value.next == pos + 2 + r.value.count
  {
    match DeclaredCount(lines[pos])
    case Failure(e) => Failure(e)
    case Success(n) =>
      if n < 0 then Failure(NegativeCount(n))
      else
        var data := Slice(lines, pos + 2, pos + 2 + n);
        assert data == lines[pos + 2..Min(pos + 2 + n, |lines|)];
        Success(Block(lines[pos], lines[pos + 1], n, data, pos + 2 + n))
  }

  /** The block read at `pos`: which headers are accepted, and the fields of the block. */
  lemma BlockAtContents(lines: seq<string>, pos: nat)
    requires pos + 2 <= |lines|
    ensures var r := BlockAt(lines, pos);
      && (r.Success? <==> DeclaredCount(lines[pos]).Success? && DeclaredCount(lines[pos]).value >= 0)
      && (r.Success? ==>
        && r.value.header == lines[pos]
        && r.value.key == lines[pos + 1]
        && DeclaredCount(lines[pos]) == Success(r.value.count as int)
        && r.value.data == lines[pos + 2..Min(r.value.next, |lines|)]
        && (|r.value.data| == r.value.count <==> r.value.next <= |lines|))
      && (r.Failure? ==> r.error == (if DeclaredCount(lines[pos]).Failure? then DeclaredCount(lines[pos]).error
                                     else NegativeCount(DeclaredCount(lines[pos]).value)))
  {
  }

  lemma BlockAtValue(lines: seq<string>, pos: nat, n: nat)
    requires pos + 2 <= |lines| && DeclaredCount(lines[pos]) == Success(n as int)
    ensures BlockAt(lines, pos) == Success(Block(lines[pos], lines[pos + 1], n, Slice(lines, pos + 2, pos + 2 + n), pos + 2 + n))
  {
  }

  /** Lines 78-84: reading the block whose header is at `lineIndex`. */
  method ReadBlock(lines: seq<string>, lineIndex: nat) returns (r: Result<Block, ParseError>)
    requires lineIndex + 2 <= |lines|
    ensures r == BlockAt(lines, lineIndex)
  {
    var header, atomicSym := lines[lineIndex], lines[lineIndex + 1];
    var parsed := DeclaredCount(header);
    if parsed.Failure? {
      return Failure(parsed.error);
    }
    if parsed.value < 0 {
      return Failure(NegativeCount(parsed.value));
    }
    var atomicLines: nat := parsed.value;
    var start := lineIndex + 2;
    var end := start + atomicLines;
    var splice := Slice(lines, start, end);
    BlockAtValue(lines, lineIndex, atomicLines);
    return Success(Block(header, atomicSym, atomicLines, splice, end));
  }

  /** Where lines 78-84 read the next header, as written: `file_line` becomes `file_line + 2 + count`. */
  function NextFileLineAsWritten(fileLine: int, count: int): (r: int)
  {
    var lineIndex := fileLine - 1;
    var start := lineIndex + 2;
    var end := start + count;
    end + 1
  }

  /**
   * The `file_line` of the while loop of lines 77-84, as written, after `steps` more passes:
   * it stops changing once the guard `file_line < len(lines)` fails, and is `None` when a
   * header raises (its count is missing or not an integer, or `lines[line_index]` is out of
   * range).  Only the position is followed: the merge of lines 85-108 does not move it, but
   * it can raise too (line 86 reads the count of the stored, rewritten header), and such a
   * raise is not modelled here; the walk is the loop's position for as long as every merge
   * along it succeeds.
   */
  function WalkAsWritten(lines: seq<string>, fileLine: int, steps: nat): (r: Option<int>)
    decreases steps
  {
    if steps == 0 || fileLine >= |lines| then Some(fileLine)
    else if fileLine - 1 < -|lines| then None
    else
      // Python counts a negative index from the end.
      var header := lines[if fileLine - 1 < 0 then |lines| + fileLine - 1 else fileLine - 1];
      match DeclaredCount(header)
      case Failure(_) => None
      case Success(n) => WalkAsWritten(lines, NextFileLineAsWritten(fileLine, n), steps - 1)
  }

  /**
   * As written, a header declaring -2 lines sends the walk back to the same header: after
   * any number of passes the loop is still at that header, and its guard still holds.  The
   * loop itself repeats the block for as long as line 86 can parse the merged header (for
   * instance while the count lies in the header's last ten characters).
   */
  lemma {:induction false} MinusTwoNeverAdvances(lines: seq<string>, fileLine: int, steps: nat)
    requires 1 <= fileLine < |lines| && DeclaredCount(lines[fileLine - 1]) == Success(-2)
    ensures WalkAsWritten(lines, fileLine, steps) == Some(fileLine)
    decreases steps
  {
    if steps > 0 {
      assert NextFileLineAsWritten(fileLine, -2) == fileLine;
      MinusTwoNeverAdvances(lines, fileLine, steps - 1);
    }
  }

  // ---------------------------------------------------------------------------
  // The accumulator

  /**
   * The dictionary `atom_dict`: `keys` in the order they were first seen (Python dicts keep
   * insertion order) and the entry `[header, key] + data lines` of each key.
   */
  datatype Acc = Acc(keys: seq<string>, entries: map<string, seq<string>>)

  ghost predicate WellFormed(acc: Acc)
  {
    && (forall i, j :: 0 <= i < j < |acc.keys| ==> acc.keys[i] != acc.keys[j])
    && (forall k :: k in acc.entries <==> k in acc.keys)
    && (forall k :: k in acc.entries ==> |acc.entries[k]| >= 2 && acc.entries[k][1] == k)
  }

  /** A stored entry after the merge of `splice`: the rewritten header, the key, then all data lines sorted. */
  function Merged(entry: seq<string>, previous: int, count: nat, splice: seq<string>): (r: seq<string>)
    requires |entry| >= 2
    ensures |r| == |entry| + |splice| && r[1] == entry[1]
  {
    [RewriteHeader(entry[0], previous, previous + count), entry[1]] + SortBy(entry[2..] + splice, StrLe)
  }

  /** A merged entry keeps the head of its header and holds the old and new data lines, sorted. */
  lemma MergedContents(entry: seq<string>, previous: int, count: nat, splice: seq<string>)
    requires |entry| >= 2
    ensures var r := Merged(entry, previous, count, splice);
      && |r[0]| == Min(27, |entry[0]|) + 10
      && r[0][..Min(27, |entry[0]|)] == entry[0][..Min(27, |entry[0]|)]
      && Sorted(r[2..], StrLe) && multiset(r[2..]) == multiset(entry[2..] + splice)
  {
    StrLeTotalOrder();
    SortBySorted(entry[2..] + splice, StrLe);
    var r := Merged(entry, previous, count, splice);
    assert r[2..] == SortBy(entry[2..] + splice, StrLe);
  }

  /** Lines 85-108: one block into the accumulator. */
  function Absorb(acc: Acc, header: string, key: string, count: nat, splice: seq<string>): (r: Result<Acc, ParseError>)
    requires WellFormed(acc)
    ensures r.Success? ==> WellFormed(r.value)
  {
    if key in acc.entries then
      match DeclaredCount(acc.entries[key][0])
      case Failure(e) => Failure(e)
      case Success(previous) => Success(Acc(acc.keys, acc.entries[key := Merged(acc.entries[key], previous, count, splice)]))
    else
      Success(Acc(acc.keys + [key], acc.entries[key := [header, key] + splice]))
  }

  /**
   * What absorbing a block does: a new key gets `[header, key] + splice`; a repeated key
   * fails exactly when its stored header has no count, and otherwise is merged; no other
   * key changes.
   */
  lemma AbsorbEffect(acc: Acc, header: string, key: string, count: nat, splice: seq<string>)
    requires WellFormed(acc)
    ensures var r := Absorb(acc, header, key, count, splice);
      && (r.Success? ==> r.value.entries.Keys == acc.entries.Keys + {key})
      && (r.Success? ==> forall k :: k in acc.entries && k != key ==> r.value.entries[k] == acc.entries[k])
      && (key !in acc.entries ==> r.Success? && r.value.entries[key] == [header, key] + splice)
      && (key in acc.entries ==> (r.Success? <==> DeclaredCount(acc.entries[key][0]).Success?))
      && (key in acc.entries && r.Success? ==>
        r.value.entries[key] == Merged(acc.entries[key], DeclaredCount(acc.entries[key][0]).value, count, splice))
  {
  }

  lemma AbsorbRepeated(acc: Acc, header: string, key: string, count: nat, splice: seq<string>)
    requires WellFormed(acc) && key in acc.entries && DeclaredCount(acc.entries[key][0]).Success?
    ensures var previous := DeclaredCount(acc.entries[key][0]).value;
      Absorb(acc, header, key, count, splice) == Success(Acc(acc.keys, acc.entries[key := Merged(acc.entries[key], previous, count, splice)]))
  {
  }

  lemma AbsorbRepeatedFails(acc: Acc, header: string, key: string, count: nat, splice: seq<string>)
    requires WellFormed(acc) && key in acc.entries && DeclaredCount(acc.entries[key][0]).Failure?
    ensures Absorb(acc, header, key, count, splice) == Failure(DeclaredCount(acc.entries[key][0]).error)
  {
  }

  /** Lines 88-104: the stored entry's header rewritten, the splice appended, the data part sorted. */
  method MergeEntry(stored: seq<string>, previous: int, count: nat, splice: seq<string>) returns (entry: seq<string>)
    requires |stored| >= 2
    ensures entry == Merged(stored, previous, count, splice)
  {
    var total := previous + count;
    var header := RewriteHeader(stored[0], previous, total);
    entry := stored[0 := header] + splice;
    GrownSorted(stored, previous, count, splice, entry);
    entry := entry[..2] + SortBy(entry[2..], StrLe);
  }

  /** The entry with its header rewritten and `splice` appended, the data part then sorted, is the merged entry. */
  lemma GrownSorted(stored: seq<string>, previous: int, count: nat, splice: seq<string>, grown: seq<string>)
    requires |stored| >= 2
    requires grown == stored[0 := RewriteHeader(stored[0], previous, previous + count)] + splice
    ensures grown[..2] + SortBy(grown[2..], StrLe) == Merged(stored, previous, count, splice)
  {
    var h := RewriteHeader(stored[0], previous, previous + count);
    calc {
      grown[..2] + SortBy(grown[2..], StrLe);
      { assert grown[..2] == [h, stored[1]] && grown[2..] == stored[2..] + splice; }
      [h, stored[1]] + SortBy(stored[2..] + splice, StrLe);
      Merged(stored, previous, count, splice);
    }
  }

  lemma AbsorbFirst(acc: Acc, header: string, key: string, count: nat, splice: seq<string>)
    requires WellFormed(acc) && key !in acc.entries
    ensures Absorb(acc, header, key, count, splice) == Success(Acc(acc.keys + [key], acc.entries[key := [header, key] + splice]))
  {
  }

  /** Lines 77-108: every block of one file from the header at `pos` on. */
  function AbsorbFrom(acc: Acc, lines: seq<string>, pos: nat): (r: Result<Acc, ParseError>)
    requires WellFormed(acc)
    decreases |lines| - pos
    ensures r.Success? ==> WellFormed(r.value)
    ensures pos + 2 > |lines| ==> r == Success(acc)
  {
    if pos + 2 > |lines| then Success(acc)
    else match BlockAt(lines, pos)
      case Failure(e) => Failure(e)
      case Success(b) =>
        match Absorb(acc, b.header, b.key, b.count, b.data)
        case Failure(e) => Failure(e)
        case Success(next) => AbsorbFrom(next, lines, b.next)
  }

  lemma AbsorbFromBadHeader(acc: Acc, lines: seq<string>, pos: nat)
    requires WellFormed(acc) && pos + 2 <= |lines| && BlockAt(lines, pos).Failure?
    ensures AbsorbFrom(acc, lines, pos) == Failure(BlockAt(lines, pos).error)
  {
  }

  lemma AbsorbFromStep(acc: Acc, lines: seq<string>, pos: nat, b: Block, next: Acc)
    requires WellFormed(acc) && pos + 2 <= |lines| && BlockAt(lines, pos) == Success(b)
    requires Absorb(acc, b.header, b.key, b.count, b.data) == Success(next)
    ensures WellFormed(next)
    ensures AbsorbFrom(acc, lines, pos) == AbsorbFrom(next, lines, b.next)
  {
  }

  lemma AbsorbFromStepFails(acc: Acc, lines: seq<string>, pos: nat, b: Block)
    requires WellFormed(acc) && pos + 2 <= |lines| && BlockAt(lines, pos) == Success(b)
    requires Absorb(acc, b.header, b.key, b.count, b.data).Failure?
    ensures AbsorbFrom(acc, lines, pos) == Failure(Absorb(acc, b.header, b.key, b.count, b.data).error)
  {
  }

  /** Lines 73-108: every file in turn. */
  function AbsorbAll(acc: Acc, files: seq<seq<string>>): (r: Result<Acc, ParseError>)
    requires WellFormed(acc)
    ensures r.Success? ==> WellFormed(r.value)
    decreases files
  {
    if files == [] then Success(acc)
    else match AbsorbFrom(acc, files[0], 0)
      case Failure(e) => Failure(e)
      case Success(next) => AbsorbAll(next, files[1..])
  }

  /** `list(atom_dict.values())`. */
  function Values(acc: Acc): (vs: seq<seq<string>>)
    requires WellFormed(acc)
    ensures |vs| == |acc.keys| && forall i :: 0 <= i < |vs| ==> vs[i] == acc.entries[acc.keys[i]]
    ensures forall i :: 0 <= i < |vs| ==> |vs[i]| >= 2 && vs[i][1] == acc.keys[i]
    ensures forall i, j :: 0 <= i < j < |vs| ==> vs[i] != vs[j]
  {
    var vs := seq(|acc.keys|, i requires 0 <= i < |acc.keys| => acc.entries[acc.keys[i]]);
    assert forall i, j :: 0 <= i < j < |vs| ==> vs[i] != vs[j] by {
      forall i, j | 0 <= i < j < |vs| ensures vs[i] != vs[j] {
        assert vs[i][1] == acc.keys[i] && vs[j][1] == acc.keys[j];
      }
    }
    vs
  }

  /** Lines 111-117: the entries sorted as lists of strings, concatenated. */
  function Render(acc: Acc): (out: seq<string>)
    requires WellFormed(acc)
  {
    Flatten(SortBy(Values(acc), ListLe))
  }

  /** What TurboSort writes for the given files, or the error it raises (then nothing is written). */
  function MergeFiles(files: seq<seq<string>>): (r: Result<seq<string>, ParseError>)
  {
    match AbsorbAll(Acc([], map[]), files)
    case Failure(e) => Failure(e)
    case Success(acc) => Success(Render(acc))
  }

  // ---------------------------------------------------------------------------
  // Properties of the merge

  /**
   * The header of a merged entry declares the sum of the two declared counts, whatever
   * number of lines the data part actually holds: the stored header's count `n` plus the
   * incoming block's `count`, while the data part grows by the lines really collected.
   */
  lemma MergeAddsDeclaredCounts(head: string, key: string, data: seq<string>, z: string, n: nat, count: nat, splice: seq<string>)
    requires HeaderHead(head) && AllWhitespace(z)
    requires |IntToString(n)| + |z| <= 10 && |IntToString(n + count)| + |z| <= 10
    ensures var e := Merged([CountedHeader(head, n, z), key] + data, n, count, splice);
      && e[0] == CountedHeader(head, n + count, z)
      && DeclaredCount(e[0]) == Success(n + count)
      && |e| - 2 == |data| + |splice|
  {
    var entry := [CountedHeader(head, n, z), key] + data;
    var e := Merged(entry, n, count, splice);
    RewriteCountedHeader(head, n, n + count, z);
    assert e[0] == RewriteHeader(CountedHeader(head, n, z), n, n + count);
    CountedHeaderDeclares(head, n + count, z);
  }

  /**
   * The count invariant: merging a complete block (`count` lines declared and present)
   * into an entry whose header declares exactly its data lines gives an entry whose header
   * declares exactly its data lines again, as long as the new count fits in the tail.
   */
  lemma MergeKeepsCount(head: string, key: string, data: seq<string>, z: string, count: nat, splice: seq<string>)
    requires HeaderHead(head) && AllWhitespace(z) && |splice| == count
    requires |IntToString(|data|)| + |z| <= 10 && |IntToString(|data| + count)| + |z| <= 10
    ensures var e := Merged([CountedHeader(head, |data|, z), key] + data, |data|, count, splice);
      && e[0] == CountedHeader(head, |data| + count, z)
      && DeclaredCount(e[0]) == Success(|e| - 2)
  {
    MergeAddsDeclaredCounts(head, key, data, z, |data|, count, splice);
  }

  /** The same at the level of the accumulator: absorbing a complete block into a counted entry keeps it counted. */
  lemma AbsorbKeepsCount(acc: Acc, head: string, z: string, header: string, key: string, count: nat, splice: seq<string>)
    requires WellFormed(acc) && key in acc.entries && HeaderHead(head) && AllWhitespace(z) && |splice| == count
    requires var e := acc.entries[key];
      && |IntToString(|e| - 2)| + |z| <= 10 && |IntToString(|e| - 2 + count)| + |z| <= 10
      && e[0] == CountedHeader(head, |e| - 2, z)
    ensures var r := Absorb(acc, header, key, count, splice);
      && r.Success?
      && r.value.entries[key][0] == CountedHeader(head, |acc.entries[key]| - 2 + count, z)
      && DeclaredCount(r.value.entries[key][0]) == Success(|r.value.entries[key]| - 2)
  {
    var e := acc.entries[key];
    var m := Merged(e, |e| - 2, count, splice);
    CountedHeaderDeclares(head, |e| - 2, z);
    AbsorbRepeated(acc, header, key, count, splice);
    var r := Absorb(acc, header, key, count, splice);
    assert r.Success? && r.value.entries[key] == m;
    MergeEntryKeepsCount(e, head, z, count, splice);
  }

  /** MergeKeepsCount for a stored entry taken whole. */
  lemma MergeEntryKeepsCount(e: seq<string>, head: string, z: string, count: nat, splice: seq<string>)
    requires |e| >= 2 && HeaderHead(head) && AllWhitespace(z) && |splice| == count
    requires |IntToString(|e| - 2)| + |z| <= 10 && |IntToString(|e| - 2 + count)| + |z| <= 10
    requires e[0] == CountedHeader(head, |e| - 2, z)
    ensures var m := Merged(e, |e| - 2, count, splice);
      m[0] == CountedHeader(head, |e| - 2 + count, z) && DeclaredCount(m[0]) == Success(|m| - 2)
  {
    assert e == [CountedHeader(head, |e| - 2, z), e[1]] + e[2..];
    MergeKeepsCount(head, e[1], e[2..], z, count, splice);
  }

  /** Merging nothing into an entry with a full-width header and sorted data leaves the entry unchanged. */
  lemma MergeNothing(entry: seq<string>, previous: int)
    requires |entry| >= 2 && |entry[0]| == 37 && Sorted(entry[2..], StrLe)
    ensures Merged(entry, previous, 0, []) == entry
  {
    calc {
      Merged(entry, previous, 0, []);
      [RewriteHeader(entry[0], previous, previous), entry[1]] + SortBy(entry[2..] + [], StrLe);
      { RewriteSameCount(entry[0], previous); SortedDataKept(entry[2..]); }
      [entry[0], entry[1]] + entry[2..];
      entry;
    }
  }

  /** Rewriting a full-width header from a count to the same count gives it back. */
  lemma RewriteSameCount(h: string, previous: int)
    requires |h| == 37
    ensures RewriteHeader(h, previous, previous) == h
  {
    var tail := Slice(h, 27, |h|);
    assert |tail| == 10;
    ReplaceBySelf(tail, IntToString(previous));
    assert Slice(h, 0, 27) + tail == h;
  }

  lemma SortedDataKept(data: seq<string>)
    requires Sorted(data, StrLe)
    ensures SortBy(data + [], StrLe) == data
  {
    StrLeTotalOrder();
    assert data + [] == data;
    SortBySortedIsIdentity(data, StrLe);
  }

  /** Merging is idempotent on the data part: the merged data are sorted, so merging nothing more keeps them. */
  lemma MergeTwiceData(entry: seq<string>, previous: int, count: nat, splice: seq<string>, again: int)
    requires |entry| >= 2
    ensures var e := Merged(entry, previous, count, splice);
      Merged(e, again, 0, [])[2..] == e[2..]
  {
    var e := Merged(entry, previous, count, splice);
    MergedContents(entry, previous, count, splice);
    StrLeTotalOrder();
    assert e[2..] + [] == e[2..];
    SortBySortedIsIdentity(e[2..], StrLe);
    assert Merged(e, again, 0, [])[2..] == SortBy(e[2..] + [], StrLe);
  }

  /** The walk never drops a key: every entry present before a file is still present after it. */
  lemma {:induction false} AbsorbFromKeepsKeys(acc: Acc, lines: seq<string>, pos: nat)
    requires WellFormed(acc) && AbsorbFrom(acc, lines, pos).Success?
    ensures acc.entries.Keys <= AbsorbFrom(acc, lines, pos).value.entries.Keys
    decreases |lines| - pos
  {
    if pos + 2 <= |lines| {
      var b := BlockAt(lines, pos).value;
      AbsorbEffect(acc, b.header, b.key, b.count, b.data);
      var next := Absorb(acc, b.header, b.key, b.count, b.data).value;
      AbsorbFromStep(acc, lines, pos, b, next);
      AbsorbFromKeepsKeys(next, lines, b.next);
    }
  }

  /** Distinct elements occur once each. */
  lemma {:induction false} DistinctMultiplicity<T>(s: seq<T>, x: T)
    requires forall i, j :: 0 <= i < j < |s| ==> s[i] != s[j]
    ensures multiset(s)[x] == if x in s then 1 else 0
  {
    if s != [] {
      assert s == [s[0]] + s[1..];
      DistinctMultiplicity(s[1..], x);
      assert multiset(s) == multiset{s[0]} + multiset(s[1..]);
      if x == s[0] {
        assert x !in s[1..];
      }
    }
  }

  lemma DistinctSameElements<T>(s: seq<T>, t: seq<T>)
    requires forall i, j :: 0 <= i < j < |s| ==> s[i] != s[j]
    requires forall i, j :: 0 <= i < j < |t| ==> t[i] != t[j]
    requires forall x :: x in s <==> x in t
    ensures multiset(s) == multiset(t)
  {
    forall x ensures multiset(s)[x] == multiset(t)[x] {
      DistinctMultiplicity(s, x);
      DistinctMultiplicity(t, x);
    }
  }

  /**
   * The output depends on the entries only, not on the order in which the keys were first
   * seen: the final sort of lines 111-112 puts them in one order.
   */
  lemma RenderIgnoresKeyOrder(a: Acc, b: Acc)
    requires WellFormed(a) && WellFormed(b) && a.entries == b.entries
    ensures Render(a) == Render(b)
  {
    var va, vb := Values(a), Values(b);
    forall v ensures v in va <==> v in vb {
      if v in va {
        var i :| 0 <= i < |va| && va[i] == v;
        var k := a.keys[i];
        assert k in a.entries && k in b.keys;
        var j :| 0 <= j < |b.keys| && b.keys[j] == k;
        assert vb[j] == v;
      }
      if v in vb {
        var j :| 0 <= j < |vb| && vb[j] == v;
        var k := b.keys[j];
        assert k in b.entries && k in a.keys;
        var i :| 0 <= i < |a.keys| && a.keys[i] == k;
        assert va[i] == v;
      }
    }
    DistinctSameElements(va, vb);
    ListLeTotalOrder();
    SortByIgnoresOrder(va, vb, ListLe);
  }

  /** Python's list comparison orders blocks by their header text first. */
  lemma ListLeOrdersHeaders(x: seq<string>, y: seq<string>)
    requires |x| > 0 && |y| > 0 && ListLe(x, y)
    ensures StrLe(x[0], y[0])
  {
    if x[0] == y[0] {
      LexReflexive(x[0], CharLe);
    }
  }

  /** The sorted values are the entries, each exactly once, and each holds a header and a key. */
  lemma SortedValues(acc: Acc)
    requires WellFormed(acc)
    ensures var vs := SortBy(Values(acc), ListLe);
      && multiset(vs) == multiset(Values(acc))
      && Sorted(vs, ListLe)
      && forall i :: 0 <= i < |vs| ==> |vs[i]| >= 2
  {
    var vs := SortBy(Values(acc), ListLe);
    ListLeTotalOrder();
    SortBySorted(Values(acc), ListLe);
    forall i | 0 <= i < |vs| ensures |vs[i]| >= 2 {
      assert vs[i] in multiset(Values(acc));
      var k :| 0 <= k < |Values(acc)| && Values(acc)[k] == vs[i];
      assert acc.keys[k] in acc.entries;
    }
  }

  /** The output is the entries in ascending order as lists of strings, so their headers come in ascending text order. */
  lemma RenderOrder(acc: Acc)
    requires WellFormed(acc)
    ensures var vs := SortBy(Values(acc), ListLe);
      && Render(acc) == Flatten(vs)
      && (forall i :: 0 <= i < |vs| ==> |vs[i]| >= 2)
      && (forall i, j :: 0 <= i < j < |vs| ==> StrLe(vs[i][0], vs[j][0]))
  {
    var vs := SortBy(Values(acc), ListLe);
    SortedValues(acc);
    forall i, j | 0 <= i < j < |vs| ensures StrLe(vs[i][0], vs[j][0]) {
      ListLeOrdersHeaders(vs[i], vs[j]);
    }
  }

  // ---------------------------------------------------------------------------
  // The state TurboSort mutates

  class Accumulator {
    var keys: seq<string>
    var entries: map<string, seq<string>>

    ghost function State(): Acc
      reads this
    {
      Acc(keys, entries)
    }

    ghost predicate Valid()
      reads this
    {
      WellFormed(State())
    }

    constructor ()
      ensures Valid() && State() == Acc([], map[])
    {
      keys := [];
      entries := map[];
    }

    /** Lines 85-108. */
    method Add(header: string, key: string, count: nat, splice: seq<string>) returns (r: Outcome<ParseError>)
      requires Valid()
      modifies this
      ensures Valid()
      ensures r.Pass? ==> Absorb(old(State()), header, key, count, splice) == Success(State())
      ensures r.Fail? ==> Absorb(old(State()), header, key, count, splice) == Failure(r.error) && State() == old(State())
    {
      if key in entries {
        var previous := DeclaredCount(entries[key][0]);
        if previous.Failure? {
          AbsorbRepeatedFails(State(), header, key, count, splice);
          return Fail(previous.error);
        }
        var entry := MergeEntry(entries[key], previous.value, count, splice);
        AbsorbRepeated(State(), header, key, count, splice);
        entries := entries[key := entry];
      } else {
        AbsorbFirst(State(), header, key, count, splice);
        entries := entries[key := [header, key] + splice];
        keys := keys + [key];
      }
      return Pass;
    }

    /** Lines 78-108: the block whose header is at `pos`, read and absorbed; `next` is where the walk goes on. */
    method AddBlock(lines: seq<string>, pos: nat) returns (r: Outcome<ParseError>, next: nat)
      requires Valid() && pos + 2 <= |lines|
      modifies this
      ensures Valid()
      ensures r.Pass? ==> next > pos && AbsorbFrom(old(State()), lines, pos) == AbsorbFrom(State(), lines, next)
      ensures r.Pass? ==> var b := BlockAt(lines, pos);
        && b.Success? && next == b.value.next
        && Absorb(old(State()), b.value.header, b.value.key, b.value.count, b.value.data) == Success(State())
      ensures r.Fail? ==> AbsorbFrom(old(State()), lines, pos) == Failure(r.error)
      ensures r.Fail? ==> State() == old(State())
    {
      ghost var before := State();
      var block := ReadBlock(lines, pos);
      if block.Failure? {
        AbsorbFromBadHeader(before, lines, pos);
        return Fail(block.error), pos;
      }
      next := block.value.next;
      r := Add(block.value.header, block.value.key, block.value.count, block.value.data);
      if r.Fail? {
        AbsorbFromStepFails(before, lines, pos, block.value);
        return;
      }
      AbsorbFromStep(before, lines, pos, block.value, State());
    }

    /** Lines 74-108: the block walk over one file. */
    method AddFile(lines: seq<string>) returns (r: Outcome<ParseError>)
      requires Valid()
      modifies this
      ensures Valid()
      ensures r.Pass? ==> AbsorbFrom(old(State()), lines, 0) == Success(State())
      ensures r.Fail? ==> AbsorbFrom(old(State()), lines, 0) == Failure(r.error)
    {
      // `lineIndex` is the source's `file_line - 1`: the walk goes on while `file_line < len(lines)`.
      var lineIndex := 0;
      while lineIndex + 1 < |lines|
        invariant Valid()
        invariant AbsorbFrom(old(State()), lines, 0) == AbsorbFrom(State(), lines, lineIndex)
        decreases |lines| - lineIndex
      {
        r, lineIndex := AddBlock(lines, lineIndex);
        if r.Fail? {
          return;
        }
      }
      return Pass;
    }

    /** Lines 111-117: the values sorted as lists and concatenated. */
    method SortedLines() returns (out: seq<string>)
      requires Valid()
      ensures out == Render(State())
    {
      var ks, es := keys, entries;
      var vals := seq(|ks|, i requires 0 <= i < |ks| && ks[i] in es => es[ks[i]]);
      assert vals == Values(State());
      vals := SortBy(vals, ListLe);
      out := Concatenate(vals);
    }
  }

  /** Lines 115-117: the lists written one after another. */
  method Concatenate(vals: seq<seq<string>>) returns (out: seq<string>)
    ensures out == Flatten(vals)
  {
    out := [];
    for i := 0 to |vals|
      invariant out == Flatten(vals[..i])
    {
      FlattenAppend(vals[..i], vals[i]);
      assert vals[..i + 1] == vals[..i] + [vals[i]];
      out := out + vals[i];
    }
    assert vals[..|vals|] == vals;
  }

  /** Lines 64-121, without the file system: the lines written, or the error raised. */
  method TurboSort(files: seq<seq<string>>) returns (r: Result<seq<string>, ParseError>)
    ensures r == MergeFiles(files)
  {
    var acc := new Accumulator();
    for i := 0 to |files|
      invariant acc.Valid()
      invariant AbsorbAll(Acc([], map[]), files) == AbsorbAll(acc.State(), files[i..])
    {
      assert files[i..][0] == files[i] && files[i..][1..] == files[i + 1..];
      var o := acc.AddFile(files[i]);
      if o.Fail? {
        return Failure(o.error);
      }
    }
    var out := acc.SortedLines();
    return Success(out);
  }
}
